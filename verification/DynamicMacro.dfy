/** Two macros recorded from both ends of one buffer (quantum/dynamic_macro.h). */
module DynamicMacro {
  import opened KeyEvents

  datatype Keycode = Start1 | Start2 | Stop | Play1 | Play2 | Other

  /** One key event, as process_record_dynamic_macro is called with it. */
  datatype Input = Input(keycode: Keycode, record: Record)

  datatype Which = One | Two

  /** The macros, and what has been recorded so far; the macro being recorded anew is gone. */
  datatype State =
    | Idle(one: seq<Record>, two: seq<Record>)
    | Recording(which: Which, taken: seq<Record>, other: seq<Record>)

  /** Recording one key: leading releases are ignored, and so is what does not fit. */
  function Record1(taken: seq<Record>, capacity: nat, r: Record): seq<Record> {
    if !r.IsPress() && taken == [] then taken
    else if |taken| < capacity then taken + [r]
    else taken
  }

  /** Dropping the keys still held at the end. */
  function Trim(taken: seq<Record>): (m: seq<Record>)
    ensures m <= taken
  {
    if taken == [] || !taken[|taken| - 1].IsPress() then taken else Trim(taken[..|taken| - 1])
  }

  function Room(size: nat, other: seq<Record>): nat { if |other| <= size then size - |other| else 0 }

  /** What is played and whether the key goes on to be handled normally. */
  datatype Outcome = Outcome(state: State, played: seq<Record>, pass: bool)

  function Process(size: nat, st: State, input: Input): Outcome {
    match st
    case Idle(one, two) =>
      if input.record.IsPress() then Outcome(st, [], true)
      else (match input.keycode
        case Start1 => Outcome(Recording(One, [], two), [], false)
        case Start2 => Outcome(Recording(Two, [], one), [], false)
        case Play1 => Outcome(st, one, false)
        case Play2 => Outcome(st, two, false)
        case _ => Outcome(st, [], true))
    case Recording(_, _, _) => WhileRecording(size, st, input)
  }

  function Stopped(st: State): State
    requires st.Recording?
  {
    if st.which == One then Idle(Trim(st.taken), st.other) else Idle(st.other, Trim(st.taken))
  }

  function OneMore(size: nat, st: State, r: Record): State
    requires st.Recording?
  {
    st.(taken := Record1(st.taken, Room(size, st.other), r))
  }

  function WhileRecording(size: nat, st: State, input: Input): Outcome
    requires st.Recording?
  {
    match input.keycode
    case Stop => Outcome(if input.record.IsPress() then Stopped(st) else st, [], false)
    case Play1 => Outcome(st, [], false)
    case Play2 => Outcome(st, [], false)
    case _ => Outcome(OneMore(size, st, input.record), [], true)
  }

  predicate Spans(size: nat, from: int, to: int, direction: int) {
    (direction == 1 && 0 <= from <= to <= size) || (direction == -1 && -1 <= to <= from < size)
  }

  function Distance(from: int, to: int, direction: int): int { if direction == 1 then to - from else from - to }

  /** The buffer from `from` on, in a direction, up to but not including `to`. */
  function Walk(b: seq<Record>, from: int, to: int, direction: int): (w: seq<Record>)
    requires Spans(|b|, from, to, direction)
    ensures |w| == Distance(from, to, direction)
  {
    seq(Distance(from, to, direction), i requires 0 <= i < Distance(from, to, direction) =>
      if direction == 1 then b[from + i] else b[from - i])
  }

  /** Positions in the buffer: where the macros end and where recording has got to. */
  datatype Positions = Positions(macroEnd: int, rMacroEnd: int, macroPointer: int, macroId: nat)

  /** The positions do not cross: what one macro holds or records lies outside the other. */
  predicate InOrder(p: Positions, size: nat) {
    && p.macroId <= 2 && 0 <= p.macroEnd <= p.rMacroEnd + 1 <= size
    && (p.macroId == 1 ==> 0 <= p.macroPointer <= p.rMacroEnd + 1)
    && (p.macroId == 2 ==> p.macroEnd - 1 <= p.macroPointer < size)
  }

  /** What the buffer holds. */
  function ValueOf(b: seq<Record>, p: Positions): State
    requires InOrder(p, |b|)
  {
    var one, two := Walk(b, 0, p.macroEnd, 1), Walk(b, |b| - 1, p.rMacroEnd, -1);
    if p.macroId == 0 then Idle(one, two)
    else if p.macroId == 1 then Recording(One, Walk(b, 0, p.macroPointer, 1), two)
    else Recording(Two, Walk(b, |b| - 1, p.macroPointer, -1), one)
  }

  /** Where the macro being recorded starts, and which way it grows. */
  function Base(id: nat, size: nat): int { if id == 1 then 0 else size - 1 }
  function Direction(id: nat): int { if id == 1 then 1 else -1 }
  function OtherEnd(p: Positions): int { if p.macroId == 1 then p.rMacroEnd else p.macroEnd }

  /** Writing at the recording position makes the recorded walk one longer. */
  lemma {:induction false} WalkGrows(b: seq<Record>, base: int, p: int, direction: int, r: Record)
    requires (direction == 1 && 0 <= base <= p < |b|) || (direction == -1 && 0 <= p <= base < |b|)
    ensures Walk(b[p := r], base, p + direction, direction) == Walk(b, base, p, direction) + [r]
  {
  }

  /** A walk that stays clear of a position does not see a write there. */
  lemma {:induction false} WalkKept(b: seq<Record>, from: int, to: int, direction: int, p: int, r: Record)
    requires 0 <= p < |b|
    requires (direction == 1 && 0 <= from <= to <= p) || (direction == -1 && p <= to <= from < |b|)
    ensures Walk(b[p := r], from, to, direction) == Walk(b, from, to, direction)
  {
  }

  /** There is room exactly as long as the position has not met the other macro. */
  lemma {:induction false} RoomLeft(b: seq<Record>, p: Positions)
    requires InOrder(p, |b|) && p.macroId != 0
    ensures |ValueOf(b, p).taken| < Room(|b|, ValueOf(b, p).other)
      <==> p.macroPointer - Direction(p.macroId) != OtherEnd(p)
    ensures ValueOf(b, p).taken == [] <==> p.macroPointer == Base(p.macroId, |b|)
  {
  }

  lemma {:induction false} OneMoreKey(b: seq<Record>, p: Positions, r: Record)
    requires InOrder(p, |b|) && p.macroId != 0 && p.macroPointer - Direction(p.macroId) != OtherEnd(p)
    ensures 0 <= p.macroPointer < |b|
    ensures var p' := p.(macroPointer := p.macroPointer + Direction(p.macroId));
      InOrder(p', |b|) && ValueOf(b[p.macroPointer := r], p') == ValueOf(b, p).(taken := ValueOf(b, p).taken + [r])
  {
    WalkGrows(b, Base(p.macroId, |b|), p.macroPointer, Direction(p.macroId), r);
    if p.macroId == 1 { WalkKept(b, |b| - 1, p.rMacroEnd, -1, p.macroPointer, r); }
    else { WalkKept(b, 0, p.macroEnd, 1, p.macroPointer, r); }
  }

  /** Giving up the last recorded key. */
  lemma {:induction false} WalkShrinks(b: seq<Record>, base: int, p: int, direction: int)
    requires Spans(|b|, base, p, direction) && base != p
    ensures var w := Walk(b, base, p, direction);
      |w| > 0 && w[|w| - 1] == b[p - direction] && w[..|w| - 1] == Walk(b, base, p - direction, direction)
  {
  }

  class Recorder {
    const macroBuffer: array<Record>
    var macroEnd: int
    const rMacroBuffer: int
    var rMacroEnd: int
    var macroPointer: int
    var macroId: nat
    var played: seq<Record>

    ghost predicate Valid()
      reads this, macroBuffer
    {
      rMacroBuffer == macroBuffer.Length - 1 && InOrder(Where(), macroBuffer.Length)
    }

    ghost function Where(): Positions
      reads this
    {
      Positions(macroEnd, rMacroEnd, macroPointer, macroId)
    }

    ghost function Value(): State
      requires Valid()
      reads this, macroBuffer
    {
      ValueOf(macroBuffer[..], Where())
    }

    constructor (size: nat)
      ensures Valid() && macroBuffer.Length == size && fresh(macroBuffer)
      ensures Value() == Idle([], []) && played == []
    {
      macroBuffer := new Record[size](_ => ZERO_RECORD);
      macroEnd, rMacroBuffer, rMacroEnd, macroPointer, macroId, played := 0, size - 1, size - 1, 0, 0, [];
    }

    /** dynamic_macro_play. */
    method Play(from: int, end: int, direction: int)
      requires Spans(macroBuffer.Length, from, end, direction)
      modifies this`played
      ensures played == old(played) + Walk(macroBuffer[..], from, end, direction)
    {
      var p := from;
      ghost var b := macroBuffer[..];
      assert played + [] == played;
      while p != end
        invariant direction == 1 ==> from <= p <= end
        invariant direction == -1 ==> end <= p <= from
        invariant played == old(played) + Walk(b, from, p, direction)
        decreases if direction == 1 then end - p else p - end
      {
        WalkShrinks(b, from, p + direction, direction);
        ghost var w := Walk(b, from, p + direction, direction);
        assert w == w[..|w| - 1] + [w[|w| - 1]];
        assert old(played) + Walk(b, from, p, direction) + [b[p]]
          == old(played) + (Walk(b, from, p, direction) + [b[p]]);
        played := played + [macroBuffer[p]];
        p := p + direction;
      }
    }

    /** dynamic_macro_record_key for the macro that starts at `base`. */
    method RecordKey(base: int, otherEnd: int, direction: int, record: Record)
      requires Valid() && macroId != 0
      requires base == Base(macroId, macroBuffer.Length) && otherEnd == OtherEnd(Where())
        && direction == Direction(macroId)
      modifies this`macroPointer, macroBuffer
      ensures Valid()
      ensures old(Value()).Recording? && Value() == OneMore(macroBuffer.Length, old(Value()), record)
    {
      ghost var b, p := macroBuffer[..], Where();
      RoomLeft(b, p);
      if !record.IsPress() && macroPointer == base { return; }
      if macroPointer - direction != otherEnd {
        OneMoreKey(b, p, record);
        macroBuffer[macroPointer] := record;
        assert macroBuffer[..] == b[macroPointer := record];
        macroPointer := macroPointer + direction;
      }
    }

    /** dynamic_macro_record_end: where the trimmed macro ends. */
    method RecordEnd(base: int, direction: int) returns (end: int)
      requires Spans(macroBuffer.Length, base, macroPointer, direction)
      ensures direction == 1 ==> base <= end <= macroPointer
      ensures direction == -1 ==> macroPointer <= end <= base
      ensures Walk(macroBuffer[..], base, end, direction) == Trim(Walk(macroBuffer[..], base, macroPointer, direction))
    {
      ghost var b := macroBuffer[..];
      end := macroPointer;
      while end != base && macroBuffer[end - direction].IsPress()
        invariant direction == 1 ==> base <= end <= macroPointer
        invariant direction == -1 ==> macroPointer <= end <= base
        invariant Trim(Walk(b, base, end, direction)) == Trim(Walk(b, base, macroPointer, direction))
        decreases if direction == 1 then end - base else base - end
      {
        WalkShrinks(b, base, end, direction);
        end := end - direction;
      }
      if end != base { WalkShrinks(b, base, end, direction); }
    }

    /** The keys that matter while nothing is recorded: all on release. */
    method ProcessIdle(keycode: Keycode, ghost record: Record) returns (pass: bool)
      requires Valid() && macroId == 0 && !record.IsPress()
      modifies this`macroPointer, this`macroId, this`played
      ensures Valid()
      ensures var o := Process(macroBuffer.Length, old(Value()), Input(keycode, record));
        Value() == o.state && played == old(played) + o.played && pass == o.pass
    {
      assert played + [] == played;
      match keycode {
        case Start1 =>
          macroPointer, macroId := 0, 1;
          return false;
        case Start2 =>
          macroPointer, macroId := rMacroBuffer, 2;
          return false;
        case Play1 =>
          Play(0, macroEnd, 1);
          return false;
        case Play2 =>
          Play(rMacroBuffer, rMacroEnd, -1);
          return false;
        case _ => return true;
      }
    }

    /** Stopping the recording. */
    method ProcessStop()
      requires Valid() && macroId != 0
      modifies this`macroEnd, this`rMacroEnd, this`macroId
      ensures Valid()
      ensures old(Value()).Recording? && Value() == Stopped(old(Value()))
    {
      if macroId == 1 {
        macroEnd := RecordEnd(0, 1);
      } else {
        rMacroEnd := RecordEnd(rMacroBuffer, -1);
      }
      macroId := 0;
    }

    method ProcessRecording(input: Input) returns (pass: bool)
      requires Valid() && macroId != 0
      modifies this`macroEnd, this`rMacroEnd, this`macroId, this`macroPointer, macroBuffer
      ensures Valid()
      ensures old(Value()).Recording?
      ensures var o := WhileRecording(macroBuffer.Length, old(Value()), input); Value() == o.state && pass == o.pass
    {
      match input.keycode {
        case Stop =>
          if input.record.IsPress() { ProcessStop(); }
          return false;
        case Play1 => return false;
        case Play2 => return false;
        case _ =>
          if macroId == 1 {
            RecordKey(0, rMacroEnd, 1, input.record);
          } else {
            RecordKey(rMacroBuffer, macroEnd, -1, input.record);
          }
          return true;
      }
    }

    /** process_record_dynamic_macro. */
    method ProcessRecord(input: Input) returns (pass: bool)
      requires Valid()
      modifies this, macroBuffer
      ensures Valid()
      ensures var o := Process(macroBuffer.Length, old(Value()), input);
        Value() == o.state && played == old(played) + o.played && pass == o.pass
    {
      assert played + [] == played;
      if macroId == 0 {
        if input.record.IsPress() { return true; }
        pass := ProcessIdle(input.keycode, input.record);
      } else {
        pass := ProcessRecording(input);
      }
    }
  }
}
