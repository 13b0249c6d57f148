/** From the pins of one half of a split keyboard to the steps that the other half acts upon
    (quantum/encoder.c:189-296). */
module EncoderSplit {
  import opened Encoder
  import opened EncoderRuns

  /** The encoders of the slave, what the master believes of them, and the master's steps. */
  datatype Link = Link(encs: seq<Enc>, values: seq<uint8>, log: seq<Step>)

  /** Pins read one after the other, for all encoders each time. */
  type Readings = seq<seq<Status>>

  predicate Complete(readings: Readings, n: nat) { forall i | 0 <= i < |readings| :: |readings[i]| == n }

  /** The slave reads: encoder_read, as often as there are readings. */
  function AllRead(encs: seq<Enc>, resolutions: seq<nat>, readings: Readings): (encs': seq<Enc>)
    requires Complete(readings, |encs|) && |encs| <= |resolutions| && GoodResolutions(resolutions)
    ensures |encs'| == |encs|
  {
    if readings == [] then encs
    else
      var before := AllRead(encs, resolutions, readings[..|readings| - 1]);
      ReadEncs(before, resolutions, readings[|readings| - 1], |encs|)
  }

  function ValuesOf(encs: seq<Enc>): (values: seq<uint8>)
    ensures |values| == |encs| && forall i | 0 <= i < |encs| :: values[i] == encs[i].value
  {
    seq(|encs|, i requires 0 <= i < |encs| => encs[i].value)
  }

  predicate ValidLink(l: Link, resolutions: seq<nat>) {
    |l.values| == |l.encs| <= |resolutions| && GoodResolutions(resolutions)
  }

  /** Readings, and then a sync: encoder_state_raw there, encoder_update_raw here. */
  function Synced(l: Link, resolutions: seq<nat>, hand: nat, readings: Readings): (l': Link)
    requires ValidLink(l, resolutions) && Complete(readings, |l.encs|)
    ensures ValidLink(l', resolutions) && |l'.encs| == |l.encs|
  {
    var encs := AllRead(l.encs, resolutions, readings);
    Link(encs, ValuesOf(encs), l.log + JoinSteps(CatchUpCounts(l.values, ValuesOf(encs)), hand, |l.values|))
  }

  predicate AllComplete(rounds: seq<Readings>, n: nat) { forall i | 0 <= i < |rounds| :: Complete(rounds[i], n) }

  function Rounds(l: Link, resolutions: seq<nat>, hand: nat, rounds: seq<Readings>): (l': Link)
    requires ValidLink(l, resolutions) && AllComplete(rounds, |l.encs|)
    ensures ValidLink(l', resolutions) && |l'.encs| == |l.encs|
  {
    if rounds == [] then l
    else Synced(Rounds(l, resolutions, hand, rounds[..|rounds| - 1]), resolutions, hand, rounds[|rounds| - 1])
  }

  // ----------------------------------------------------------------------- one encoder

  /** What is read of encoder `k`. */
  function PinsOf(readings: Readings, k: nat, n: nat): (pins: seq<Status>)
    requires k < n && Complete(readings, n)
    ensures |pins| == |readings| && forall i | 0 <= i < |pins| :: pins[i] == readings[i][k]
  {
    seq(|readings|, i requires 0 <= i < |readings| => readings[i][k])
  }

  /** Reading all encoders runs each of them. */
  lemma {:induction false} EachRuns(encs: seq<Enc>, resolutions: seq<nat>, readings: Readings, k: nat)
    requires k < |encs| <= |resolutions| && Complete(readings, |encs|) && GoodResolutions(resolutions)
    ensures AllRead(encs, resolutions, readings)[k] == Run(encs[k], resolutions[k], PinsOf(readings, k, |encs|)).enc
  {
    if readings != [] {
      var earlier := readings[..|readings| - 1];
      EachRuns(encs, resolutions, earlier, k);
      assert PinsOf(readings, k, |encs|)[..|earlier|] == PinsOf(earlier, k, |encs|);
    }
  }

  /** The pins of encoder `k` over all rounds. */
  function AllPinsOf(rounds: seq<Readings>, k: nat, n: nat): seq<Status>
    requires k < n && AllComplete(rounds, n)
  {
    if rounds == [] then []
    else AllPinsOf(rounds[..|rounds| - 1], k, n) + PinsOf(rounds[|rounds| - 1], k, n)
  }

  lemma {:induction false} RunOn(e: Enc, resolution: nat, a: seq<Status>, b: seq<Status>)
    requires 0 < resolution < 0x100
    ensures var t := Run(e, resolution, a);
      && Run(e, resolution, a + b).enc == Run(t.enc, resolution, b).enc
      && Run(e, resolution, a + b).steps == t.steps + Run(t.enc, resolution, b).steps
  {
    if b == [] {
      assert a + b == a;
    } else {
      RunOn(e, resolution, a, b[..|b| - 1]);
      assert (a + b)[..|a + b| - 1] == a + b[..|b| - 1];
    }
  }

  /** The difference a sync sees, when the steps are `n` and the values were equal before. */
  lemma {:induction false} DifferenceFits(was: uint8, now: uint8, n: int, before: int)
    requires now == WrapU8(was as int + n)
    ensures before + WrapI8(now as int - was) == before + n <==> -0x80 <= n < 0x80
  {
    WrapDifference(was, n);
  }

  /** A sync makes the difference of the two values. */
  lemma {:induction false} SyncMakesTheDifference(l: Link, resolutions: seq<nat>, hand: nat, readings: Readings, k: nat,
                                                  e: Enc)
    requires ValidLink(l, resolutions) && k < |l.encs| && Complete(readings, |l.encs|)
    requires e == AllRead(l.encs, resolutions, readings)[k]
    ensures var l' := Synced(l, resolutions, hand, readings);
      && l'.encs[k] == e && l'.values[k] == e.value
      && Net(l'.log, k + hand) == Net(l.log, k + hand) + WrapI8(e.value as int - l.values[k])
  {
    CatchUpIsTheDifference(l.log, l.values, ValuesOf(AllRead(l.encs, resolutions, readings)), hand, k);
  }

  /** An encoder that was in step before the readings: the sync makes the steps it made, if they fit
      eight bits, and it is in step again. */
  lemma {:induction false} SyncMakesTheSteps(l: Link, resolutions: seq<nat>, hand: nat, readings: Readings, k: nat)
    requires ValidLink(l, resolutions) && k < |l.encs| && Complete(readings, |l.encs|)
    requires resolutions[k] < 0x80 && -(resolutions[k] as int) < l.encs[k].pulses < resolutions[k]
    requires l.values[k] == l.encs[k].value
    ensures var t, l' :=
      Run(l.encs[k], resolutions[k], PinsOf(readings, k, |l.encs|)), Synced(l, resolutions, hand, readings);
      && l'.encs[k] == t.enc && l'.values[k] == t.enc.value
      && -(resolutions[k] as int) < t.enc.pulses < resolutions[k]
      && (Net(l'.log, k + hand) == Net(l.log, k + hand) + t.steps <==> -0x80 <= t.steps < 0x80)
  {
    var t := Run(l.encs[k], resolutions[k], PinsOf(readings, k, |l.encs|));
    EachRuns(l.encs, resolutions, readings, k);
    PulsesAreConserved(l.encs[k], resolutions[k], PinsOf(readings, k, |l.encs|));
    SyncMakesTheDifference(l, resolutions, hand, readings, k, t.enc);
    DifferenceFits(l.values[k], t.enc.value, t.steps, Net(l.log, k + hand));
  }

  /** The steps of encoder `k` in each round fit eight bits. */
  predicate EachFits(e: Enc, resolution: nat, rounds: seq<Readings>, k: nat, n: nat)
    requires 0 < resolution < 0x100 && k < n && AllComplete(rounds, n)
  {
    rounds == [] || (
      var earlier := rounds[..|rounds| - 1];
      && EachFits(e, resolution, earlier, k, n)
      && -0x80 <= Run(Run(e, resolution, AllPinsOf(earlier, k, n)).enc, resolution,
        PinsOf(rounds[|rounds| - 1], k, n)).steps < 0x80)
  }

  /** From pins to steps: over any readings and syncs, an encoder of the slave that starts in step,
      and whose steps between two syncs fit eight bits, makes the master act upon exactly the steps
      that its pins stand for, and these are worth its pulses. */
  lemma {:induction false} MasterFollowsPins(l: Link, resolutions: seq<nat>, hand: nat, rounds: seq<Readings>, k: nat)
    requires ValidLink(l, resolutions) && k < |l.encs| && AllComplete(rounds, |l.encs|)
    requires resolutions[k] < 0x80 && -(resolutions[k] as int) < l.encs[k].pulses < resolutions[k]
    requires l.values[k] == l.encs[k].value && EachFits(l.encs[k], resolutions[k], rounds, k, |l.encs|)
    ensures var l', pins := Rounds(l, resolutions, hand, rounds), AllPinsOf(rounds, k, |l.encs|);
      var steps := Net(l'.log, k + hand) - Net(l.log, k + hand);
      && steps == Run(l.encs[k], resolutions[k], pins).steps
      && l'.encs[k] == Run(l.encs[k], resolutions[k], pins).enc && l'.values[k] == l'.encs[k].value
      && -(resolutions[k] as int) < l'.encs[k].pulses < resolutions[k]
      && resolutions[k] * steps + l'.encs[k].pulses == l.encs[k].pulses + Pulses(StatusOf(l.encs[k]), pins)
  {
    PulsesAreConserved(l.encs[k], resolutions[k], AllPinsOf(rounds, k, |l.encs|));
    if rounds != [] {
      var earlier, last := rounds[..|rounds| - 1], rounds[|rounds| - 1];
      MasterFollowsPins(l, resolutions, hand, earlier, k);
      SyncMakesTheSteps(Rounds(l, resolutions, hand, earlier), resolutions, hand, last, k);
      RunOn(l.encs[k], resolutions[k], AllPinsOf(earlier, k, |l.encs|), PinsOf(last, k, |l.encs|));
    }
  }
}
