/** The MIDI input hub (src/input.rs) as a pure value: the samples received
    this frame (`current`) and the samples kept from earlier frames
    (`previous`), each a map from controller identifier to the latest raw
    sample. Every operation is atomic on such a value; the locks around the
    two maps and the listener thread are not modelled. */
module InputHub {
  import opened Wrappers

  newtype byte = x: int | 0 <= x < 256

  newtype u64 = x: int | 0 <= x < 0x1_0000_0000_0000_0000

  /** The largest MIDI data value; a button sends it while pressed. */
  const MaxValue: byte := 127

  /** One control-change sample. The timestamp is stored but never read. */
  datatype InputDataRaw = InputDataRaw(timestamp: u64, value: byte)

  /** Direction of a level crossing. */
  datatype SliderLimitCheck = Higher | Lower

  datatype InputState = InputState(current: map<byte, InputDataRaw>, previous: map<byte, InputDataRaw>)

  datatype RecordError = MessageTooShort

  /** Every stored sample is a MIDI data byte (at most 127). */
  predicate DataBytes(s: InputState)
  {
    && (forall id :: id in s.current ==> s.current[id].value <= MaxValue)
    && (forall id :: id in s.previous ==> s.previous[id].value <= MaxValue)
  }

  /** The hub before any message arrives: no button pressed or held and
      every slider reads zero. */
  function Empty(): (s: InputState)
    ensures DataBytes(s)
    ensures forall id: byte :: !IsButtonPressed(s, id) && !IsButtonHeld(s, id)
    ensures forall id: byte :: GetFraction(s, id) == 0.0
  {
    InputState(map[], map[])
  }

  /** Stores a control-change message `[status, id, value, ..]` as the latest
      sample of controller `id`. A message shorter than three bytes is
      refused and leaves the hub as it was. */
  function Record(s: InputState, stamp: u64, message: seq<byte>): (r: Result<InputState, RecordError>)
    ensures r.Success? <==> |message| >= 3
    ensures r.Failure? ==> r.error == MessageTooShort
    ensures r.Success? ==>
              && r.value.previous == s.previous
              && r.value.current.Keys == s.current.Keys + {message[1]}
              && r.value.current[message[1]] == InputDataRaw(stamp, message[2])
              && (forall id :: id in s.current && id != message[1] ==> r.value.current[id] == s.current[id])
  {
    if |message| < 3 then Failure(MessageTooShort)
    else
      var identifier := message[1];
      Success(s.(current := s.current[identifier := InputDataRaw(stamp, message[2])]))
  }

  predicate IsOn(d: InputDataRaw)
  {
    d.value == MaxValue
  }

  /** A button is held when every sample either map has for it is at full
      value, and at least one map has one. */
  function IsButtonHeld(s: InputState, id: byte): (b: bool)
    ensures b <==>
              && (id in s.current || id in s.previous)
              && (id in s.current ==> s.current[id].value == MaxValue)
              && (id in s.previous ==> s.previous[id].value == MaxValue)
  {
    if id in s.current then
      if id in s.previous then IsOn(s.current[id]) && IsOn(s.previous[id])
      else IsOn(s.current[id])
    else if id in s.previous then IsOn(s.previous[id])
    else false
  }

  /** A button is pressed when this frame's sample for it is at full value;
      earlier frames do not count. */
  function IsButtonPressed(s: InputState, id: byte): (b: bool)
    ensures b <==> id in s.current && s.current[id].value == MaxValue
  {
    if id in s.current then IsOn(s.current[id]) else false
  }

  /** Pressed does not look at the kept samples at all. */
  lemma PressedIgnoresPrevious(s: InputState, id: byte, prev: map<byte, InputDataRaw>)
    ensures IsButtonPressed(s.(previous := prev), id) == IsButtonPressed(s, id)
  {
  }

  /** Released is the negation of pressed: it does not look for a press in an
      earlier frame. */
  function IsButtonReleased(s: InputState, id: byte): (b: bool)
    ensures b <==> id !in s.current || s.current[id].value != MaxValue
  {
    !IsButtonPressed(s, id)
  }

  /** The linear map of a raw value onto [0, 1] for values 0..127. */
  function ConvertToFraction(v: byte): (f: real)
    ensures f * 127.0 == v as real
    ensures 0.0 <= f
    ensures v <= MaxValue ==> f <= 1.0
  {
    v as real / 127.0
  }

  /** The reading of slider `id`: this frame's sample, else the kept one,
      else zero. */
  function GetFraction(s: InputState, id: byte): (f: real)
    ensures id in s.current ==> f == ConvertToFraction(s.current[id].value)
    ensures id !in s.current && id in s.previous ==> f == ConvertToFraction(s.previous[id].value)
    ensures id !in s.current && id !in s.previous ==> f == 0.0
    ensures DataBytes(s) ==> 0.0 <= f <= 1.0
  {
    if id in s.current then ConvertToFraction(s.current[id].value)
    else if id in s.previous then ConvertToFraction(s.previous[id].value)
    else 0.0
  }

  /** Level-crossing detector: has slider `id` crossed `fraction` in direction
      `limit` between the kept sample and this frame's sample? Without both
      samples there is no crossing. */
  function FractionReachedLimit(s: InputState, id: byte, fraction: real, limit: SliderLimitCheck): (b: bool)
    ensures b ==> id in s.current && id in s.previous
    ensures id in s.current && id in s.previous && limit == Higher ==>
              (b <==> ConvertToFraction(s.previous[id].value) < fraction <= ConvertToFraction(s.current[id].value))
    ensures id in s.current && id in s.previous && limit == Lower ==>
              (b <==> ConvertToFraction(s.current[id].value) <= fraction < ConvertToFraction(s.previous[id].value))
  {
    if id in s.current && id in s.previous then
      var cur := ConvertToFraction(s.current[id].value);
      var prev := ConvertToFraction(s.previous[id].value);
      match limit
      case Lower => cur <= fraction && prev > fraction
      case Higher => cur >= fraction && prev < fraction
    else
      false
  }

  /** End of frame: this frame's samples replace the kept ones, and the
      frame's map is emptied. Kept samples with no newer one stay as they
      are. */
  function Flush(s: InputState): (r: InputState)
    ensures r.current == map[]
    ensures r.previous.Keys == s.previous.Keys + s.current.Keys
    ensures forall id :: id in s.current ==> r.previous[id] == s.current[id]
    ensures forall id :: id in s.previous && id !in s.current ==> r.previous[id] == s.previous[id]
  {
    InputState(map[], s.previous + s.current)
  }

  /** Flush as the source performs it: one identifier of this frame's map at
      a time, overwriting or inserting its kept sample, then clearing. */
  method FlushByIteration(s: InputState) returns (r: InputState)
    ensures r == Flush(s)
  {
    var prev := s.previous;
    var todo := s.current.Keys;
    while todo != {}
      invariant todo <= s.current.Keys
      invariant prev.Keys == s.previous.Keys + (s.current.Keys - todo)
      invariant forall id :: id in s.current && id !in todo ==> prev[id] == s.current[id]
      invariant forall id :: id in s.previous && (id !in s.current || id in todo) ==> prev[id] == s.previous[id]
      decreases todo
    {
      var id :| id in todo;
      // overwriting an existing kept sample and inserting a new one are the
      // same map update
      prev := prev[id := s.current[id]];
      todo := todo - {id};
    }
    r := InputState(map[], prev);
  }

  // ---------------------------------------------------------------------
  // Properties relating the operations

  /** Flushing a second time changes nothing. */
  lemma FlushIdempotent(s: InputState)
    ensures Flush(Flush(s)) == Flush(s)
  {
  }

  /** After a flush no button is pressed and no slider crosses anything:
      both need a sample from the new frame. */
  lemma FlushedHubIsQuiet(s: InputState, id: byte, fraction: real, limit: SliderLimitCheck)
    ensures !IsButtonPressed(Flush(s), id)
    ensures IsButtonReleased(Flush(s), id)
    ensures !FractionReachedLimit(Flush(s), id, fraction, limit)
  {
  }

  /** A flush does not change any slider reading: the last reported level
      persists until a newer sample arrives. */
  lemma FlushKeepsFraction(s: InputState, id: byte)
    ensures GetFraction(Flush(s), id) == GetFraction(s, id)
  {
  }

  /** Flushing keeps the samples byte-sized. */
  lemma FlushKeepsDataBytes(s: InputState)
    requires DataBytes(s)
    ensures DataBytes(Flush(s))
  {
  }

  /** Recording a message whose value is a data byte keeps the samples
      byte-sized. */
  lemma RecordKeepsDataBytes(s: InputState, stamp: u64, message: seq<byte>)
    requires DataBytes(s) && |message| >= 3 && message[2] <= MaxValue
    ensures DataBytes(Record(s, stamp, message).value)
  {
  }

  /** A recorded full-value message presses its button; any other value
      releases it. */
  lemma RecordThenPressed(s: InputState, stamp: u64, message: seq<byte>)
    requires |message| >= 3
    ensures IsButtonPressed(Record(s, stamp, message).value, message[1]) <==> message[2] == MaxValue
  {
  }

  /** Within a frame only the latest sample per identifier is kept. */
  lemma RecordLastWins(s: InputState, t1: u64, m1: seq<byte>, t2: u64, m2: seq<byte>)
    requires |m1| >= 3 && |m2| >= 3 && m1[1] == m2[1]
    ensures Record(Record(s, t1, m1).value, t2, m2) == Record(s, t2, m2)
  {
    assert Record(Record(s, t1, m1).value, t2, m2).value.current == Record(s, t2, m2).value.current;
  }

  /** Messages for different controllers may arrive in either order. */
  lemma RecordCommutes(s: InputState, t1: u64, m1: seq<byte>, t2: u64, m2: seq<byte>)
    requires |m1| >= 3 && |m2| >= 3 && m1[1] != m2[1]
    ensures Record(Record(s, t1, m1).value, t2, m2) == Record(Record(s, t2, m2).value, t1, m1)
  {
    assert Record(Record(s, t1, m1).value, t2, m2).value.current
        == Record(Record(s, t2, m2).value, t1, m1).value.current;
  }

  /** A button pressed this frame and at full value (or absent) last frame is
      held; a held button with a sample this frame is pressed. */
  lemma PressedAndHeld(s: InputState, id: byte)
    ensures IsButtonPressed(s, id) && (id !in s.previous || s.previous[id].value == MaxValue)
            ==> IsButtonHeld(s, id)
    ensures IsButtonHeld(s, id) && id in s.current ==> IsButtonPressed(s, id)
  {
  }

  /** Held does not need a sample this frame: a button last seen at full value
      stays held after a flush, though it is no longer pressed. */
  lemma HeldSurvivesFlush(s: InputState, id: byte)
    requires IsButtonPressed(s, id)
    ensures IsButtonHeld(Flush(s), id) && !IsButtonPressed(Flush(s), id)
  {
  }

  /** Raw values and fractions are ordered alike. */
  lemma FractionMonotone(a: byte, b: byte)
    ensures a <= b <==> ConvertToFraction(a) <= ConvertToFraction(b)
  {
  }

  /** A slider cannot cross the same threshold upwards and downwards at once. */
  lemma HigherLowerExclusive(s: InputState, id: byte, fraction: real)
    ensures !(FractionReachedLimit(s, id, fraction, Higher) && FractionReachedLimit(s, id, fraction, Lower))
  {
  }

  /** A slider whose value did not change crosses nothing. */
  lemma NoCrossingWhenSteady(s: InputState, id: byte, fraction: real, limit: SliderLimitCheck)
    requires id in s.current && id in s.previous && s.current[id].value == s.previous[id].value
    ensures !FractionReachedLimit(s, id, fraction, limit)
  {
  }
}
