/** Quadrature encoders (quantum/encoder.c), without a default position. */
module Encoder {
  import opened Sequences

  type uint8 = x: int | 0 <= x < 0x100
  type int8 = x: int | -0x80 <= x < 0x80

  /** Both pins of an encoder, A in bit 0 and B in bit 1. */
  type Status = x: int | 0 <= x < 4

  function WrapU8(x: int): uint8 { x % 0x100 }
  function WrapI8(x: int): int8 { (x + 0x80) % 0x100 - 0x80 }

  /** C's remainder, which takes the sign of the dividend. */
  function Remainder(a: int, b: int): int
    requires b > 0
  {
    if a >= 0 then a % b else -((-a) % b)
  }

  const ENCODER_LUT: seq<int8> := [0, -1, 1, 0, 1, 0, 0, -1, -1, 0, 0, 1, 0, 1, -1, 0]

  /** The table's entry for the lowest four bits of a state. */
  function LutOf(state: uint8): int { ENCODER_LUT[state % 0x10] }

  /** What the table says about a change of status. */
  function Lut(was: Status, now: Status): (d: int)
    ensures -1 <= d <= 1
  {
    ENCODER_LUT[was as int * 4 + now]
  }

  /** One encoder: the last statuses, the pulses not yet made into a step, the steps so far. */
  datatype Enc = Enc(state: uint8, pulses: int8, value: uint8)

  /** A step up is one of `encoder_value[index]++`, a step down one of `--`. */
  datatype Turned = Turned(enc: Enc, steps: int)

  /** encoder_update after the pulse of a change of status. */
  function Update(e: Enc, resolution: nat, state: uint8): Turned
    requires 0 < resolution < 0x100
  {
    var pulses: int := WrapI8(e.pulses as int + LutOf(state));
    var steps: int := if pulses >= resolution then 1 else if pulses <= -(resolution as int) then -1 else 0;
    Turned(Enc(state, WrapI8(Remainder(pulses, resolution)), WrapU8(e.value as int + steps)), steps)
  }

  /** state <<= 2, state |= now, in eight bits. */
  function Shifted(state: uint8, now: Status): uint8 { state as int * 4 % 0x100 + now }

  /** encoder_read for one encoder. */
  function Read(e: Enc, resolution: nat, now: Status): Turned
    requires 0 < resolution < 0x100
  {
    if e.state % 4 == now then Turned(e, 0) else Update(e, resolution, Shifted(e.state, now))
  }

  datatype Step = Step(index: nat, up: bool)

  function Steps(index: nat, n: int): (s: seq<Step>)
    decreases if n < 0 then -n else n
  {
    if n == 0 then []
    else if n > 0 then Steps(index, n - 1) + [Step(index, true)]
    else Steps(index, n + 1) + [Step(index, false)]
  }

  predicate GoodResolutions(resolutions: seq<nat>) { forall i | 0 <= i < |resolutions| :: 0 < resolutions[i] < 0x100 }

  /** As many steps of each of the first `n` encoders as `counts` says. */
  function JoinSteps(counts: seq<int>, hand: nat, n: nat): seq<Step>
    requires n <= |counts|
  {
    if n == 0 then [] else JoinSteps(counts, hand, n - 1) + Steps(n - 1 + hand, counts[n - 1])
  }

  /** The steps of each encoder in a read. */
  function ReadCounts(encs: seq<Enc>, resolutions: seq<nat>, pins: seq<Status>): (counts: seq<int>)
    requires |encs| <= |pins| && |encs| <= |resolutions| && GoodResolutions(resolutions)
    ensures |counts| == |encs|
  {
    seq(|encs|, i requires 0 <= i < |encs| => Read(encs[i], resolutions[i], pins[i]).steps)
  }

  /** The steps it takes to catch up with the other half. */
  function CatchUpCounts(values: seq<uint8>, slave: seq<uint8>): (counts: seq<int>)
    requires |values| == |slave|
    ensures |counts| == |values|
  {
    seq(|values|, i requires 0 <= i < |values| => WrapI8(slave[i] as int - values[i]))
  }

  /** The encoders after a read of the first `n`. */
  function ReadEncs(encs: seq<Enc>, resolutions: seq<nat>, pins: seq<Status>, n: nat): (encs': seq<Enc>)
    requires n <= |encs| <= |pins| && |encs| <= |resolutions| && GoodResolutions(resolutions)
    ensures |encs'| == |encs|
  {
    seq(|encs|, i requires 0 <= i < |encs| => if i < n then Read(encs[i], resolutions[i], pins[i]).enc else encs[i])
  }

  /** The steps acted upon, if steps are. */
  function Acted(master: bool, steps: seq<Step>): seq<Step> { if master then steps else [] }

  lemma {:induction false} NothingRead(encs: seq<Enc>, resolutions: seq<nat>, pins: seq<Status>, hand: nat,
                                       start: seq<Step>, master: bool)
    requires |encs| <= |pins| && |encs| <= |resolutions| && GoodResolutions(resolutions)
    ensures ReadEncs(encs, resolutions, pins, 0) == encs
      && start + Acted(master, JoinSteps(ReadCounts(encs, resolutions, pins), hand, 0)) == start
  {
  }

  lemma {:induction false} OneMoreRead(encs: seq<Enc>, resolutions: seq<nat>, pins: seq<Status>, hand: nat, i: nat,
                                       start: seq<Step>, master: bool)
    requires i < |encs| <= |pins| && |encs| <= |resolutions| && GoodResolutions(resolutions)
    ensures var t := Read(encs[i], resolutions[i], pins[i]);
      && ReadEncs(encs, resolutions, pins, i)[i] == encs[i]
      && ReadEncs(encs, resolutions, pins, i)[i := t.enc] == ReadEncs(encs, resolutions, pins, i + 1)
      && start + Acted(master, JoinSteps(ReadCounts(encs, resolutions, pins), hand, i))
        + Acted(master, Steps(i + hand, t.steps))
         == start + Acted(master, JoinSteps(ReadCounts(encs, resolutions, pins), hand, i + 1))
  {
  }

  /** The encoders of one half, or of a keyboard that is not split. */
  class Encoders {
    const resolutions: seq<nat>
    const thisCount: nat
    const thisHand: nat
    const thatCount: nat
    const thatHand: nat
    /** Whether steps are acted upon here: should_process_encoder. */
    const master: bool
    const encoderState: array<uint8>
    const encoderPulses: array<int8>
    const encoderValue: array<uint8>
    /** The steps acted upon. */
    var log: seq<Step>
    /** The encoders here, and what this half believes of the other. */
    ghost var own: seq<Enc>
    ghost var others: seq<uint8>

    ghost predicate Valid()
      reads this, encoderState, encoderPulses, encoderValue
    {
      && |resolutions| >= thisCount && GoodResolutions(resolutions)
      && encoderState.Length == thisCount && encoderPulses.Length == thisCount
      && thisHand + thisCount <= encoderValue.Length && thatHand + thatCount <= encoderValue.Length
      && encoderState != encoderValue
      && (thatHand + thatCount <= thisHand || thisHand + thisCount <= thatHand)
      && |own| == thisCount && |others| == thatCount
      && (forall i | 0 <= i < thisCount :: own[i] == Enc(encoderState[i], encoderPulses[i], encoderValue[i + thisHand]))
      && (forall i | 0 <= i < thatCount :: others[i] == encoderValue[i + thatHand])
    }

    /** encoder_init: the left half has the first indices.  The pins are those of this half, as they are. */
    constructor (resolutions: seq<nat>, thisCount: nat, thatCount: nat, left: bool, master: bool, pins: seq<Status>)
      requires |resolutions| >= thisCount && GoodResolutions(resolutions) && |pins| == thisCount
      ensures Valid() && fresh(encoderState) && fresh(encoderPulses) && fresh(encoderValue) && log == []
      ensures this.resolutions == resolutions && this.master == master
      ensures this.thisCount == thisCount && this.thatCount == thatCount
      ensures if left then thisHand == 0 && thatHand == thisCount else thisHand == thatCount && thatHand == 0
      ensures forall i: nat | i < thisCount :: own[i] == Enc(pins[i], 0, 0)
      ensures forall i: nat | i < thatCount :: others[i] == 0
    {
      this.resolutions, this.thisCount, this.thatCount, this.master := resolutions, thisCount, thatCount, master;
      thisHand, thatHand := if left then 0 else thatCount, if left then thisCount else 0;
      encoderState := new uint8[thisCount](i requires 0 <= i < thisCount => pins[i]);
      encoderPulses := new int8[thisCount](_ => 0);
      encoderValue := new uint8[thisCount + thatCount](_ => 0);
      log := [];
      own := seq(thisCount, i requires 0 <= i < thisCount => Enc(pins[i], 0, 0));
      others := seq(thatCount, _ => 0);
    }

    /** encoder_update; the new state is stored already. */
    method EncoderUpdate(i: nat, ghost was: Enc) returns (changed: bool)
      requires Valid() && i < thisCount && own[i] == was.(state := own[i].state)
      modifies encoderPulses, encoderValue, this`log, this`own
      ensures Valid()
      ensures var t := Update(was, resolutions[i], old(own)[i].state);
        && own == old(own)[i := t.enc] && changed == (t.steps != 0)
        && log == old(log) + Acted(master, Steps(i + thisHand, t.steps))
    {
      var resolution: int, index := resolutions[i], i + thisHand;
      ghost var t := Update(was, resolutions[i], own[i].state);
      changed := false;
      assert log + [] == log;
      var pulses: int := WrapI8(encoderPulses[i] as int + LutOf(encoderState[i]));
      var value := encoderValue[index];
      if pulses >= resolution {
        encoderValue[index] := WrapU8(value as int + 1);
        changed := true;
        if master { log := log + [Step(index, true)]; }
      }
      if pulses <= -resolution {
        encoderValue[index] := WrapU8(value as int - 1);
        changed := true;
        if master { log := log + [Step(index, false)]; }
      }
      encoderPulses[i] := WrapI8(Remainder(pulses, resolution));
      own := own[i := t.enc];
      StepsOfOne(index);
      WrapAgain(value, 0);
    }

    lemma {:induction false} StepsOfOne(index: nat)
      ensures Steps(index, 1) == [Step(index, true)] && Steps(index, -1) == [Step(index, false)]
        && Steps(index, 0) == []
    {
    }

    /** encoder_read, the pins having been read. */
    method EncoderRead(pins: seq<Status>) returns (changed: bool)
      requires Valid() && |pins| == thisCount
      modifies encoderState, encoderPulses, encoderValue, this`log, this`own
      ensures Valid() && own == ReadEncs(old(own), resolutions, pins, thisCount)
      ensures log == old(log)
        + if master then JoinSteps(ReadCounts(old(own), resolutions, pins), thisHand, thisCount) else []
    {
      changed := false;
      var i := 0;
      ghost var encs, start := own, log;
      NothingRead(own, resolutions, pins, thisHand, log, master);
      while i < thisCount
        invariant 0 <= i <= thisCount && Valid()
        invariant own == ReadEncs(encs, resolutions, pins, i)
        invariant log == start + Acted(master, JoinSteps(ReadCounts(encs, resolutions, pins), thisHand, i))
      {
        var c := ReadNext(i, pins, encs, start);
        changed := changed || c;
        i := i + 1;
      }
    }

    /** One turn of the loop of encoder_read. */
    method ReadNext(i: nat, pins: seq<Status>, ghost encs: seq<Enc>, ghost start: seq<Step>) returns (changed: bool)
      requires Valid() && |pins| == thisCount == |encs| && i < thisCount
      requires own == ReadEncs(encs, resolutions, pins, i)
      requires log == start + Acted(master, JoinSteps(ReadCounts(encs, resolutions, pins), thisHand, i))
      modifies encoderState, encoderPulses, encoderValue, this`log, this`own
      ensures Valid() && own == ReadEncs(encs, resolutions, pins, i + 1)
      ensures log == start + Acted(master, JoinSteps(ReadCounts(encs, resolutions, pins), thisHand, i + 1))
    {
      OneMoreRead(encs, resolutions, pins, thisHand, i, start, master);
      changed := ReadOne(i, pins[i]);
    }

    method ReadOne(i: nat, newStatus: Status) returns (changed: bool)
      requires Valid() && i < thisCount
      modifies encoderState, encoderPulses, encoderValue, this`log, this`own
      ensures Valid()
      ensures var t := Read(old(own)[i], resolutions[i], newStatus);
        && own == old(own)[i := t.enc] && log == old(log) + Acted(master, Steps(i + thisHand, t.steps))
    {
      changed := false;
      assert log + [] == log;
      StepsOfOne(i + thisHand);
      if encoderState[i] % 4 != newStatus {
        ghost var was := own[i];
        encoderState[i] := Shifted(encoderState[i], newStatus);
        own := own[i := was.(state := encoderState[i])];
        changed := EncoderUpdate(i, was);
      }
    }

    /** encoder_state_raw: what this half tells the other. */
    method StateRaw() returns (slaveState: seq<uint8>)
      requires Valid()
      ensures |slaveState| == thisCount && forall i: nat | i < thisCount :: slaveState[i] == own[i].value
    {
      slaveState := encoderValue[thisHand..thisHand + thisCount];
    }

    /** encoder_update_raw: catching up with the other half. */
    method UpdateRaw(slaveState: seq<uint8>) returns (changed: bool)
      requires Valid() && |slaveState| == thatCount
      modifies encoderValue, this`log, this`others
      ensures Valid() && others == slaveState
      ensures log == old(log) + JoinSteps(CatchUpCounts(old(others), slaveState), thatHand, thatCount)
    {
      changed := false;
      var i := 0;
      ghost var was, start := others, log;
      assert log + [] == log;
      while i < thatCount
        invariant 0 <= i <= thatCount && Valid()
        invariant forall k: nat | k < thatCount :: others[k] == if k < i then slaveState[k] else was[k]
        invariant log == start + JoinSteps(CatchUpCounts(was, slaveState), thatHand, i)
      {
        var c := CatchUp(i, slaveState[i]);
        changed := changed || c;
        Reassociate(start, JoinSteps(CatchUpCounts(was, slaveState), thatHand, i),
          Steps(i + thatHand, WrapI8(slaveState[i] as int - was[i])));
        i := i + 1;
      }
    }

    method CatchUp(i: nat, slave: uint8) returns (changed: bool)
      requires Valid() && i < thatCount
      modifies encoderValue, this`log, this`others
      ensures Valid() && others == old(others)[i := slave]
      ensures log == old(log) + Steps(i + thatHand, WrapI8(slave as int - old(others)[i]))
    {
      var index := i + thatHand;
      var delta := WrapI8(slave as int - encoderValue[index]);
      ghost var values := encoderValue[..];
      CaughtUp(slave, encoderValue[index]);
      changed := StepBy(index, delta);
      others := others[i := slave];
      assert forall j | 0 <= j < encoderValue.Length :: encoderValue[j] == values[index := slave][j];
    }

    lemma {:induction false} CaughtUp(slave: uint8, value: uint8)
      ensures WrapU8(value as int + WrapI8(slave as int - value)) == slave
    {
    }

    /** The two loops on `delta`. */
    method StepBy(index: nat, delta0: int8) returns (changed: bool)
      requires index < encoderValue.Length
      modifies encoderValue, this`log
      ensures log == old(log) + Steps(index, delta0)
      ensures encoderValue[..] == old(encoderValue[..])[index := WrapU8(old(encoderValue[index]) as int + delta0)]
    {
      var delta: int := delta0;
      changed := false;
      ghost var values := encoderValue[..];
      assert log + [] == log;
      while delta > 0
        invariant delta0 > 0 ==> 0 <= delta <= delta0
        invariant delta0 <= 0 ==> delta == delta0
        invariant log == old(log) + Steps(index, delta0 - delta)
        invariant encoderValue[..] == values[index := WrapU8(values[index] as int + delta0 - delta)]
      {
        WrapAgain(values[index] as int + delta0 - delta, 1);
        delta := delta - 1;
        encoderValue[index] := WrapU8(encoderValue[index] as int + 1);
        changed := true;
        MoreSteps(old(log), index, delta0 - delta);
        log := log + [Step(index, true)];
      }
      while delta < 0
        invariant delta0 >= 0 ==> delta == 0
        invariant delta0 < 0 ==> delta0 <= delta <= 0
        invariant log == old(log) + Steps(index, delta0 - delta)
        invariant encoderValue[..] == values[index := WrapU8(values[index] as int + delta0 - delta)]
      {
        WrapAgain(values[index] as int + delta0 - delta, -1);
        delta := delta + 1;
        encoderValue[index] := WrapU8(encoderValue[index] as int - 1);
        changed := true;
        MoreSteps(old(log), index, delta0 - delta);
        log := log + [Step(index, false)];
      }
    }

    lemma {:induction false} WrapAgain(x: int, d: int)
      ensures WrapU8(WrapU8(x) as int + d) == WrapU8(x + d)
    {
    }

    lemma {:induction false} MoreSteps(log: seq<Step>, index: nat, n: int)
      ensures n > 0 ==> log + Steps(index, n - 1) + [Step(index, true)] == log + Steps(index, n)
      ensures n < 0 ==> log + Steps(index, n + 1) + [Step(index, false)] == log + Steps(index, n)
    {
    }
  }
}
