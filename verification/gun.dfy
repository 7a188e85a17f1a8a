/** The player's bolt-action gun (src/gun.rs): a latch that is open or closed
    and a chamber that holds at most one round. Closing an open latch chambers
    a round; firing needs a closed latch and a chambered round. */
module GunLatch {
  import opened Wrappers

  datatype LatchState = Closed | Open

  /** The two ways firing can fail; the caller can tell them apart. */
  datatype ConsumeError = LatchWasOpen | NotLoaded

  datatype Gun = Gun(isLoaded: bool, latch: LatchState)

  /** What `try_consume` hands back: the gun afterwards and the outcome. */
  datatype Consumed = Consumed(gun: Gun, outcome: Result<(), ConsumeError>)

  /** A gun as the player spawns with it. */
  function New(): (g: Gun)
    ensures !CanShoot(g)
    ensures TryConsume(g) == Consumed(g, Failure(NotLoaded))
  {
    Gun(false, Closed)
  }

  /** Whether firing now would succeed. */
  function CanShoot(g: Gun): (b: bool)
    ensures b <==> TryConsume(g).outcome.Success?
  {
    g.isLoaded && g.latch == Closed
  }

  /** Moves the latch to `state`; closing an open latch chambers a round. */
  function SetLatchState(g: Gun, state: LatchState): (r: Gun)
    ensures r.latch == state
    // a round can only appear by closing an open latch
    ensures r.isLoaded && !g.isLoaded ==> g.latch == Open && state == Closed
    ensures g.latch == Open && state == Closed ==> r.isLoaded
    // moving the latch never takes a round out
    ensures g.isLoaded ==> r.isLoaded
  {
    var loaded := if g.latch == Open && state == Closed then true else g.isLoaded;
    Gun(loaded, state)
  }

  /** Fires the gun: fails with `LatchWasOpen` if the latch is open, with
      `NotLoaded` if the chamber is empty, and otherwise empties the chamber. */
  function TryConsume(g: Gun): (r: Consumed)
    ensures r.outcome.Success? <==> g.latch == Closed && g.isLoaded
    ensures g.latch == Open ==> r == Consumed(g, Failure(LatchWasOpen))
    ensures g.latch == Closed && !g.isLoaded ==> r == Consumed(g, Failure(NotLoaded))
    ensures r.outcome.Success? ==> r.gun == Gun(false, Closed)
    // firing never moves the latch and never loads the gun
    ensures r.gun.latch == g.latch
    ensures r.gun.isLoaded ==> g.isLoaded
  {
    match g.latch
    case Open => Consumed(g, Failure(LatchWasOpen))
    case Closed =>
      if g.isLoaded then Consumed(Gun(false, Closed), Success(()))
      else Consumed(g, Failure(NotLoaded))
  }

  // ---------------------------------------------------------------------
  // Traces of gun operations

  datatype GunOp = SetLatch(state: LatchState) | Consume

  function Apply(g: Gun, op: GunOp): Gun
  {
    match op
    case SetLatch(s) => SetLatchState(g, s)
    case Consume => TryConsume(g).gun
  }

  /** The gun after running `ops` in order from `g`. */
  function Replay(g: Gun, ops: seq<GunOp>): Gun
    decreases |ops|
  {
    if ops == [] then g else Replay(Apply(g, ops[0]), ops[1..])
  }

  /** The outcome of every `Consume` in `ops`, in order. */
  function Outcomes(g: Gun, ops: seq<GunOp>): seq<Result<(), ConsumeError>>
    decreases |ops|
  {
    if ops == [] then []
    else
      var head := if ops[0] == Consume then [TryConsume(g).outcome] else [];
      head + Outcomes(Apply(g, ops[0]), ops[1..])
  }

  /** The number of successful shots in `ops`. */
  function Shots(g: Gun, ops: seq<GunOp>): nat
    decreases |ops|
  {
    if ops == [] then 0
    else
      var shot := if ops[0] == Consume && CanShoot(g) then 1 else 0;
      shot + Shots(Apply(g, ops[0]), ops[1..])
  }

  /** The number of Open-to-Closed latch transitions in `ops`. */
  function Chamberings(g: Gun, ops: seq<GunOp>): nat
    decreases |ops|
  {
    if ops == [] then 0
    else
      var closing := if ops[0] == SetLatch(Closed) && g.latch == Open then 1 else 0;
      closing + Chamberings(Apply(g, ops[0]), ops[1..])
  }

  function Rounds(g: Gun): nat
  {
    if g.isLoaded then 1 else 0
  }

  /** Running a prefix and then one more operation is running the longer prefix. */
  lemma {:induction false} RunSnoc(g: Gun, ops: seq<GunOp>, i: nat)
    requires i < |ops|
    ensures Replay(g, ops[..i + 1]) == Apply(Replay(g, ops[..i]), ops[i])
    decreases i
  {
    if i > 0 {
      assert ops[..i + 1][1..] == ops[1..][..i];
      assert ops[..i][1..] == ops[1..][..i - 1];
      RunSnoc(Apply(g, ops[0]), ops[1..], i - 1);
    }
  }

  /** Over any trace, the chamber goes from empty to loaded only on a step that
      closes an open latch. */
  lemma LoadedOnlyByChambering(g: Gun, ops: seq<GunOp>, i: nat)
    requires i < |ops|
    requires !Replay(g, ops[..i]).isLoaded && Replay(g, ops[..i + 1]).isLoaded
    ensures ops[i] == SetLatch(Closed) && Replay(g, ops[..i]).latch == Open
  {
    RunSnoc(g, ops, i);
  }

  /** Every successful shot, together with a round still chambered at the end,
      is paid for by a round chambered before the trace or by closing an open
      latch during it. */
  lemma {:induction false} ShotsBoundedByChamberings(g: Gun, ops: seq<GunOp>)
    ensures Shots(g, ops) + Rounds(Replay(g, ops)) <= Chamberings(g, ops) + Rounds(g)
    decreases |ops|
  {
    if ops != [] {
      ShotsBoundedByChamberings(Apply(g, ops[0]), ops[1..]);
    }
  }

  /** A fresh gun fires no more often than its latch is closed after opening. */
  lemma FreshGunNeedsChambering(ops: seq<GunOp>)
    ensures Shots(New(), ops) <= Chamberings(New(), ops)
  {
    ShotsBoundedByChamberings(New(), ops);
  }

  /** Open, close, fire, fire: from any gun, the first shot succeeds and the
      second finds the chamber empty. */
  lemma ChamberThenFireTwice(g: Gun)
    ensures Outcomes(g, [SetLatch(Open), SetLatch(Closed), Consume, Consume])
            == [Success(()), Failure(NotLoaded)]
    ensures Replay(g, [SetLatch(Open), SetLatch(Closed), Consume, Consume]) == Gun(false, Closed)
  {
  }
}
