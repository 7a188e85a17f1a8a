/** The per-frame control logic of the player (src/player.rs) without the
    physics: which controls move the player, jump, fire the gun, work its
    latch and switch stance, and which animation the frame asks for. */
module PlayerControl {
  import opened Wrappers
  import opened GunLatch
  import opened InputHub

  /** What the player is doing, without the stance. */
  datatype Action = Idle | Run | Shoot | HatchOpen | HatchClose | Jammed

  /** The clips of the player's sprite sheet: each action, standing and crouched. */
  datatype Animation =
    | Idle | Run | Shoot | HatchOpen | HatchClose | Jammed
    | CrouchIdle | CrouchRun | CrouchShoot | CrouchHatchOpen | CrouchHatchClose | CrouchJammed

  /** The action a clip shows. */
  function ActionOf(x: Animation): Action
  {
    match x
    case Idle | CrouchIdle => Action.Idle
    case Run | CrouchRun => Action.Run
    case Shoot | CrouchShoot => Action.Shoot
    case HatchOpen | CrouchHatchOpen => Action.HatchOpen
    case HatchClose | CrouchHatchClose => Action.HatchClose
    case Jammed | CrouchJammed => Action.Jammed
  }

  /** Whether a clip is one of the crouched ones. */
  predicate IsCrouchAnimation(x: Animation)
  {
    x.CrouchIdle? || x.CrouchRun? || x.CrouchShoot? || x.CrouchHatchOpen? || x.CrouchHatchClose? || x.CrouchJammed?
  }

  /** The clip for an action in a stance. */
  function ToAnimation(a: Action, isCrouched: bool): (r: Animation)
    ensures ActionOf(r) == a
    ensures IsCrouchAnimation(r) == isCrouched
  {
    if isCrouched then
      match a
      case Idle => Animation.CrouchIdle
      case Run => Animation.CrouchRun
      case Shoot => Animation.CrouchShoot
      case HatchOpen => Animation.CrouchHatchOpen
      case HatchClose => Animation.CrouchHatchClose
      case Jammed => Animation.CrouchJammed
    else
      match a
      case Idle => Animation.Idle
      case Run => Animation.Run
      case Shoot => Animation.Shoot
      case HatchOpen => Animation.HatchOpen
      case HatchClose => Animation.HatchClose
      case Jammed => Animation.Jammed
  }

  /** Distinct (action, stance) pairs have distinct clips. */
  lemma ToAnimationInjective(a1: Action, c1: bool, a2: Action, c2: bool)
    ensures ToAnimation(a1, c1) == ToAnimation(a2, c2) <==> a1 == a2 && c1 == c2
  {
  }

  /** Every clip is the clip of its own action and stance. */
  lemma ToAnimationOnto(x: Animation)
    ensures ToAnimation(ActionOf(x), IsCrouchAnimation(x)) == x
  {
  }

  // ---------------------------------------------------------------------
  // Controller layout and constants

  const MoveLeftButton: byte := 41
  const MoveRightButton: byte := 45
  const JumpButton: byte := 64
  const FireButton: byte := 65
  const JumpStrengthSlider: byte := 0
  const LatchSlider: byte := 1
  const CrouchSlider: byte := 2

  /** A slider pushed up past this fraction opens the latch or stands up. */
  const RaiseThreshold: real := 0.7
  /** A slider pulled down past this fraction closes the latch or crouches. */
  const DropThreshold: real := 0.3

  const MaxJumpStrength: real := 12.0

  /** The height the player stands at: 0.4 of the 256-pixel game height,
      with y growing downwards. */
  const GroundLine: real := 256.0 * 0.4
  const Gravity: real := 30.0

  /** The player's control state. `animation` is the clip the animation
      framework is playing; the model never chooses it: `ProcessInput` only
      reads it, and `Tick` copies in the clip the framework reports. */
  datatype PlayerCtl = PlayerCtl(
    yVel: real,
    jumpStrength: real,
    isGrounded: bool,
    gun: Gun,
    isCrouching: bool,
    isFacingRight: bool,
    animation: Animation)

  /** A request to the animation framework: play `wanted`, then go back to `fallback`. */
  datatype AnimationRequest = PlayThen(wanted: Animation, fallback: Animation)

  /** What one call of the control logic produces. */
  datatype FrameOutput = FrameOutput(ctl: PlayerCtl, request: Option<AnimationRequest>)

  /** The player state part-way through a frame, with the action most
      recently chosen for the animation. */
  datatype Intent = Intent(ctl: PlayerCtl, next: Option<Action>)

  /** A freshly spawned player: standing, facing left, idle, with a gun that
      cannot fire yet. */
  function NewPlayer(): (p: PlayerCtl)
    ensures p.yVel == 0.0 && p.jumpStrength == 0.05
    ensures p.gun == New() && !CanShoot(p.gun)
    ensures !p.isCrouching && !p.isFacingRight && !p.isGrounded
    ensures p.animation == ToAnimation(Action.Idle, p.isCrouching)
  {
    PlayerCtl(0.0, 0.05, false, New(), false, false, Animation.Idle)
  }

  /** Starts a jump from the ground with the stored jump strength; in the air
      nothing happens. */
  function Jump(p: PlayerCtl): (r: PlayerCtl)
    ensures r == p.(yVel := r.yVel)
    ensures !p.isGrounded ==> r == p
    ensures p.isGrounded ==> r.yVel == -p.jumpStrength * MaxJumpStrength
  {
    if p.isGrounded then p.(yVel := -p.jumpStrength * MaxJumpStrength) else p
  }

  /** Jumping twice in a frame is jumping once. */
  lemma JumpIdempotent(p: PlayerCtl)
    ensures Jump(Jump(p)) == Jump(p)
  {
  }

  // ---------------------------------------------------------------------
  // The stages of one frame, in the order the source evaluates them

  /** Left before right: holding left faces left and ignores right. */
  function Move(s: InputState, f: Intent): (r: Intent)
    ensures r.ctl == f.ctl.(isFacingRight := r.ctl.isFacingRight)
    ensures IsButtonHeld(s, MoveLeftButton) ==> !r.ctl.isFacingRight && r.next == Some(Action.Run)
    ensures !IsButtonHeld(s, MoveLeftButton) && IsButtonHeld(s, MoveRightButton) ==>
              r.ctl.isFacingRight && r.next == Some(Action.Run)
    ensures !IsButtonHeld(s, MoveLeftButton) && !IsButtonHeld(s, MoveRightButton) ==> r == f
  {
    if IsButtonHeld(s, MoveLeftButton) then
      Intent(f.ctl.(isFacingRight := false), Some(Action.Run))
    else if IsButtonHeld(s, MoveRightButton) then
      Intent(f.ctl.(isFacingRight := true), Some(Action.Run))
    else
      f
  }

  /** The jump button jumps when held and again when pressed. */
  function JumpControl(s: InputState, p: PlayerCtl): (r: PlayerCtl)
    ensures r == p.(yVel := r.yVel)
    ensures IsButtonHeld(s, JumpButton) || IsButtonPressed(s, JumpButton) ==> r == Jump(p)
    ensures !IsButtonHeld(s, JumpButton) && !IsButtonPressed(s, JumpButton) ==> r == p
  {
    var held := if IsButtonHeld(s, JumpButton) then Jump(p) else p;
    if IsButtonPressed(s, JumpButton) then Jump(held) else held
  }

  /** Pressing fire tries the gun once: a shot on success, a jam otherwise. */
  function Fire(s: InputState, f: Intent): (r: Intent)
    ensures IsButtonPressed(s, FireButton) ==>
              && r.ctl == f.ctl.(gun := TryConsume(f.ctl.gun).gun)
              && r.next == Some(if CanShoot(f.ctl.gun) then Action.Shoot else Action.Jammed)
    ensures !IsButtonPressed(s, FireButton) ==> r == f
  {
    if IsButtonPressed(s, FireButton) then
      var c := TryConsume(f.ctl.gun);
      match c.outcome
      case Success(_) => Intent(f.ctl.(gun := c.gun), Some(Action.Shoot))
      case Failure(LatchWasOpen) => Intent(f.ctl.(gun := c.gun), Some(Action.Jammed))
      case Failure(NotLoaded) => Intent(f.ctl.(gun := c.gun), Some(Action.Jammed))
    else
      f
  }

  predicate LatchRises(s: InputState)
  {
    FractionReachedLimit(s, LatchSlider, RaiseThreshold, Higher)
  }

  predicate LatchDrops(s: InputState)
  {
    FractionReachedLimit(s, LatchSlider, DropThreshold, Lower)
  }

  predicate CrouchRises(s: InputState)
  {
    FractionReachedLimit(s, CrouchSlider, RaiseThreshold, Higher)
  }

  predicate CrouchDrops(s: InputState)
  {
    FractionReachedLimit(s, CrouchSlider, DropThreshold, Lower)
  }

  /** The raise threshold falls between the bytes 88 and 89. */
  lemma RaiseThresholdInBytes(v: byte)
    ensures ConvertToFraction(v) >= RaiseThreshold <==> v >= 89
  {
  }

  /** The drop threshold falls between the bytes 38 and 39. */
  lemma DropThresholdInBytes(v: byte)
    ensures ConvertToFraction(v) <= DropThreshold <==> v <= 38
  {
  }

  /** A rise past the raise threshold, in raw values: the kept sample is at
      most 88 and this frame's is at least 89. */
  lemma RiseInBytes(s: InputState, id: byte)
    ensures FractionReachedLimit(s, id, RaiseThreshold, Higher) <==>
              id in s.current && id in s.previous && s.previous[id].value <= 88 && 89 <= s.current[id].value
  {
  }

  /** A fall past the drop threshold, in raw values: the kept sample is at
      least 39 and this frame's is at most 38. */
  lemma DropInBytes(s: InputState, id: byte)
    ensures FractionReachedLimit(s, id, DropThreshold, Lower) <==>
              id in s.current && id in s.previous && 39 <= s.previous[id].value && s.current[id].value <= 38
  {
  }

  /** A slider cannot rise past 0.7 and fall past 0.3 in the same frame. */
  lemma AtMostOneCrossing(s: InputState, id: byte)
    ensures !(FractionReachedLimit(s, id, RaiseThreshold, Higher) && FractionReachedLimit(s, id, DropThreshold, Lower))
  {
  }

  /** The latch slider opens the latch when pushed up past 0.7 and closes it
      when pulled down past 0.3; at most one of the two happens. */
  function Latch(s: InputState, f: Intent): (r: Intent)
    ensures r.ctl == f.ctl.(gun := r.ctl.gun)
    ensures LatchRises(s) ==> r.ctl.gun == SetLatchState(f.ctl.gun, Open) && r.next == Some(Action.HatchOpen)
    ensures LatchDrops(s) ==> r.ctl.gun == SetLatchState(f.ctl.gun, Closed) && r.next == Some(Action.HatchClose)
    ensures !LatchRises(s) && !LatchDrops(s) ==> r == f
  {
    AtMostOneCrossing(s, LatchSlider);
    var afterOpen := if LatchRises(s) then Intent(f.ctl.(gun := SetLatchState(f.ctl.gun, Open)), Some(Action.HatchOpen)) else f;
    if LatchDrops(s) then Intent(afterOpen.ctl.(gun := SetLatchState(afterOpen.ctl.gun, Closed)), Some(Action.HatchClose))
    else afterOpen
  }

  /** The crouch slider stands the player up when pushed up past 0.7 and
      crouches when pulled down past 0.3; either way the intent is Idle. */
  function Crouch(s: InputState, f: Intent): (r: Intent)
    ensures r.ctl == f.ctl.(isCrouching := r.ctl.isCrouching)
    ensures CrouchRises(s) ==> !r.ctl.isCrouching && r.next == Some(Action.Idle)
    ensures CrouchDrops(s) ==> r.ctl.isCrouching && r.next == Some(Action.Idle)
    ensures !CrouchRises(s) && !CrouchDrops(s) ==> r == f
  {
    AtMostOneCrossing(s, CrouchSlider);
    var stood := if CrouchRises(s) then Intent(f.ctl.(isCrouching := false), Some(Action.Idle)) else f;
    if CrouchDrops(s) then Intent(stood.ctl.(isCrouching := true), Some(Action.Idle))
    else stood
  }

  /** One frame of control: the stages in order, then the jump strength from
      slider 0, then the animation request for the last chosen action. */
  function ProcessInput(s: InputState, p: PlayerCtl): (r: FrameOutput)
    ensures r.ctl.isGrounded == p.isGrounded && r.ctl.animation == p.animation
    ensures r.ctl.jumpStrength == GetFraction(s, JumpStrengthSlider)
    ensures DataBytes(s) ==> 0.0 <= r.ctl.jumpStrength <= 1.0
    ensures r.request.Some? ==>
              && r.request.value.wanted != p.animation
              && IsCrouchAnimation(r.request.value.wanted) == r.ctl.isCrouching
              && r.request.value.fallback == ToAnimation(Action.Idle, r.ctl.isCrouching)
  {
    var moved := Move(s, Intent(p, None));
    var jumped := moved.(ctl := JumpControl(s, moved.ctl));
    var fired := Fire(s, jumped);
    var latched := Latch(s, fired);
    var crouched := Crouch(s, latched);
    var ctl := crouched.ctl.(jumpStrength := GetFraction(s, JumpStrengthSlider));
    var request :=
      match crouched.next
      case None => None
      case Some(a) =>
        var wanted := ToAnimation(a, ctl.isCrouching);
        if ctl.animation != wanted then Some(PlayThen(wanted, ToAnimation(Action.Idle, ctl.isCrouching)))
        else None;
    FrameOutput(ctl, request)
  }

  // ---------------------------------------------------------------------
  // Properties of one frame

  /** Facing: left wins over right; with neither held it is kept. */
  lemma ProcessInputFacing(s: InputState, p: PlayerCtl)
    ensures IsButtonHeld(s, MoveLeftButton) ==> !ProcessInput(s, p).ctl.isFacingRight
    ensures !IsButtonHeld(s, MoveLeftButton) && IsButtonHeld(s, MoveRightButton) ==> ProcessInput(s, p).ctl.isFacingRight
    ensures !IsButtonHeld(s, MoveLeftButton) && !IsButtonHeld(s, MoveRightButton) ==>
              ProcessInput(s, p).ctl.isFacingRight == p.isFacingRight
  {
  }

  /** The gun takes at most one shot, on the gun as it was at the start of
      the frame, and then at most one latch move. */
  lemma ProcessInputGun(s: InputState, p: PlayerCtl)
    ensures
      var fired := if IsButtonPressed(s, FireButton) then TryConsume(p.gun).gun else p.gun;
      ProcessInput(s, p).ctl.gun ==
        if LatchRises(s) then SetLatchState(fired, Open)
        else if LatchDrops(s) then SetLatchState(fired, Closed)
        else fired
    ensures !IsButtonPressed(s, FireButton) && !LatchRises(s) && !LatchDrops(s) ==> ProcessInput(s, p).ctl.gun == p.gun
  {
  }

  /** Stance: up past 0.7 stands, down past 0.3 crouches, otherwise kept. */
  lemma ProcessInputCrouch(s: InputState, p: PlayerCtl)
    ensures ProcessInput(s, p).ctl.isCrouching ==
              if CrouchRises(s) then false else if CrouchDrops(s) then true else p.isCrouching
  {
  }

  /** Vertical velocity changes only on the ground and only through the jump
      button, using the jump strength stored before this frame. */
  lemma ProcessInputJump(s: InputState, p: PlayerCtl)
    ensures !p.isGrounded ==> ProcessInput(s, p).ctl.yVel == p.yVel
    ensures !IsButtonHeld(s, JumpButton) && !IsButtonPressed(s, JumpButton) ==> ProcessInput(s, p).ctl.yVel == p.yVel
    ensures p.isGrounded && (IsButtonHeld(s, JumpButton) || IsButtonPressed(s, JumpButton)) ==>
              ProcessInput(s, p).ctl.yVel == -p.jumpStrength * MaxJumpStrength
  {
  }

  /** The action a frame shows, read from the last stage backwards: the first
      stage that chose something, latest first. */
  function ChosenAction(s: InputState, p: PlayerCtl): Option<Action>
  {
    if CrouchRises(s) || CrouchDrops(s) then Some(Action.Idle)
    else if LatchDrops(s) then Some(Action.HatchClose)
    else if LatchRises(s) then Some(Action.HatchOpen)
    else if IsButtonPressed(s, FireButton) then Some(if CanShoot(p.gun) then Action.Shoot else Action.Jammed)
    else if IsButtonHeld(s, MoveLeftButton) || IsButtonHeld(s, MoveRightButton) then Some(Action.Run)
    else None
  }

  /** The last action chosen in evaluation order wins, shown in the stance at
      the end of the frame, and is requested only when it is not already
      playing. */
  lemma ProcessInputAnimation(s: InputState, p: PlayerCtl)
    ensures
      var r := ProcessInput(s, p);
      var chosen := ChosenAction(s, p);
      && (r.request.Some? <==> chosen.Some? && ToAnimation(chosen.value, r.ctl.isCrouching) != p.animation)
      && (r.request.Some? ==>
            r.request.value == PlayThen(ToAnimation(chosen.value, r.ctl.isCrouching),
                                        ToAnimation(Action.Idle, r.ctl.isCrouching)))
  {
  }

  /** The request guard: once the framework plays the clip a frame asked
      for, a frame with the same input asks for nothing. Fire is excluded
      because the first frame's shot changed the gun. */
  lemma RequestNotRepeated(s: InputState, p: PlayerCtl)
    requires ProcessInput(s, p).request.Some?
    requires !IsButtonPressed(s, FireButton)
    ensures
      var r := ProcessInput(s, p);
      ProcessInput(s, r.ctl.(animation := r.request.value.wanted)).request == None
  {
  }

  /** Firing comes before the latch: pressing fire on an open, empty gun while
      pulling the latch slider down jams first and then chambers a round. */
  lemma FireBeforeLatch(s: InputState, p: PlayerCtl)
    requires p.gun == Gun(false, Open)
    requires IsButtonPressed(s, FireButton) && LatchDrops(s)
    ensures ProcessInput(s, p).ctl.gun == Gun(true, Closed)
  {
  }

  // ---------------------------------------------------------------------
  // Frames in sequence

  /** The hub, the player and the player's height. */
  datatype Game = Game(hub: InputState, player: PlayerCtl, posY: real)

  /** The physics step that opens every frame: above the ground line gravity
      adds to the vertical velocity, the height moves by the velocity, and a
      player who reaches the ground line is put on it, at rest and grounded. */
  function Update(g: Game, dt: real): (r: Game)
    ensures r.hub == g.hub
    ensures r.player == g.player.(yVel := r.player.yVel, isGrounded := r.player.isGrounded)
    // never below the ground, and grounded exactly when on it
    ensures r.posY <= GroundLine
    ensures r.player.isGrounded <==> r.posY == GroundLine
    ensures r.player.isGrounded ==> r.player.yVel == 0.0
    // in the air the height moved by exactly the new velocity
    ensures !r.player.isGrounded ==> r.posY - g.posY == r.player.yVel
  {
    var vel := if g.posY < GroundLine then g.player.yVel + dt * Gravity else g.player.yVel;
    var y := g.posY + vel;
    if y >= GroundLine then
      g.(player := g.player.(yVel := 0.0, isGrounded := true), posY := GroundLine)
    else
      g.(player := g.player.(yVel := vel, isGrounded := false), posY := y)
  }

  /** A player resting on the ground stays there, whatever the frame time. */
  lemma UpdateAtRest(g: Game, dt: real)
    requires g.posY == GroundLine && g.player.yVel == 0.0
    ensures Update(g, dt) == g.(player := g.player.(isGrounded := true))
  {
  }

  /** Any upward velocity on the ground line leaves the ground, by exactly
      that velocity, with no gravity applied in that step. */
  lemma UpdateLiftsOff(g: Game, dt: real)
    requires g.posY == GroundLine && g.player.yVel < 0.0
    ensures !Update(g, dt).player.isGrounded
    ensures Update(g, dt).player.yVel == g.player.yVel
    ensures Update(g, dt).posY == GroundLine + g.player.yVel
  {
  }

  /** One game frame, in the source's order: the physics step, the control
      logic reading the hub, then the flush that makes this frame's samples
      the kept ones. The animation framework is external: `playing` is the
      clip it reports as current when the next frame starts, which depends on
      this frame's request and on playback timing. */
  function Tick(g: Game, dt: real, playing: Animation): (r: Game)
    ensures r.hub.current == map[]
    ensures forall id :: GetFraction(r.hub, id) == GetFraction(g.hub, id)
    ensures r.player.jumpStrength == GetFraction(g.hub, JumpStrengthSlider)
    ensures r.player.animation == playing
    // the jump check sees the grounding of this frame's physics step
    ensures r.posY <= GroundLine
    ensures r.player.isGrounded <==> r.posY == GroundLine
    ensures r.player.isGrounded ==>
              r.player.yVel ==
                if IsButtonHeld(g.hub, JumpButton) || IsButtonPressed(g.hub, JumpButton)
                then -g.player.jumpStrength * MaxJumpStrength else 0.0
    ensures !r.player.isGrounded ==> r.posY - g.posY == r.player.yVel
  {
    forall id ensures GetFraction(Flush(g.hub), id) == GetFraction(g.hub, id) {
      FlushKeepsFraction(g.hub, id);
    }
    var u := Update(g, dt);
    ProcessInputJump(u.hub, u.player);
    Game(Flush(u.hub), ProcessInput(u.hub, u.player).ctl.(animation := playing), u.posY)
  }

  /** The jump button held over two frames jumps once: the first frame's
      jump lifts the player off in the second frame's physics step, so the
      second frame's jump check finds the player in the air. */
  lemma JumpOncePerTakeOff(g: Game, dt: real, c1: Animation, h: InputState, c2: Animation)
    requires g.posY == GroundLine && g.player.yVel >= 0.0 && g.player.jumpStrength > 0.0
    requires IsButtonHeld(g.hub, JumpButton) || IsButtonPressed(g.hub, JumpButton)
    ensures
      var g1 := Tick(g, dt, c1);
      var g2 := Tick(g1.(hub := h), dt, c2);
      && g1.player.isGrounded
      && g1.player.yVel == -g.player.jumpStrength * MaxJumpStrength
      && !g2.player.isGrounded
      && g2.player.yVel == g1.player.yVel
      && g2.posY == GroundLine + g1.player.yVel
  {
  }

  /** A control-change message from the controller. */
  function ControlChange(id: byte, value: byte): seq<byte>
  {
    [176, id, value]
  }

  /** A message arrives, then a frame runs. */
  function Step(g: Game, stamp: u64, id: byte, value: byte, dt: real, playing: Animation): Game
  {
    Tick(g.(hub := Record(g.hub, stamp, ControlChange(id, value)).value), dt, playing)
  }

  /** Working the controller from power-on: the latch slider is reported low,
      pushed up, pulled down, and then fire is pressed twice. Whatever gun the
      player holds, wherever the player is, whatever the frame time and
      whatever clips the animation framework plays, the first press shoots and
      the second finds the chamber empty. */
  lemma SliderCycleThenFireTwice(p: PlayerCtl, y: real, dt: real,
                                 c1: Animation, c2: Animation, c3: Animation, c4: Animation, c5: Animation)
    ensures
      var g0 := Game(Empty(), p, y);
      var g1 := Step(g0, 0, LatchSlider, 0, dt, c1);
      var g2 := Step(g1, 1, LatchSlider, 127, dt, c2);
      var g3 := Step(g2, 2, LatchSlider, 0, dt, c3);
      var h4 := Record(g3.hub, 3, ControlChange(FireButton, 127)).value;
      var g4 := Tick(g3.(hub := h4), dt, c4);
      var h5 := Record(g4.hub, 4, ControlChange(FireButton, 127)).value;
      var g5 := Tick(g4.(hub := h5), dt, c5);
      && g2.player.gun.latch == Open
      && g3.player.gun == Gun(true, Closed)
      && ChosenAction(h4, g3.player) == Some(Action.Shoot)
      && g4.player.gun == Gun(false, Closed)
      && ChosenAction(h5, g4.player) == Some(Action.Jammed)
      && g5.player.gun == Gun(false, Closed)
  {
  }
}
