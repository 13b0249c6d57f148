/** Two conditions on whole runs that are enough for decisions to be timely: calls that start in
    good order, and, for the true clock behind the 16-bit one, nothing held for a whole turn of it
    (quantum/action_tapping.c:97-109, 193-301, 501-521). */
module TappingLater {
  import opened KeyEvents
  import opened Tapping
  import opened TappingConservation
  import opened TappingOrder
  import opened TappingDecisions
  import opened TappingArrivals
  import opened TappingVerdicts
  import opened Sequences

  /** What settled a press stands in this relation to it. */
  ghost predicate Relates(rel: (nat, nat) -> bool, d: Decision) { d.Settled? ==> rel(d.press, d.cause) }

  ghost predicate AllRelate(rel: (nat, nat) -> bool, ds: seq<Decision>) {
    forall i | 0 <= i < |ds| :: Relates(rel, ds[i])
  }

  lemma {:induction false} StepRelates(rel: (nat, nat) -> bool, c: Config, s: State, a: Ages, r: Record, n: nat)
    requires |a.waiting| == |s.buffer| && |a.decisions| == |s.calls| && Untouched(r) && AllRelate(rel, a.decisions)
    requires SettlesOne(c, s, r) ==> Relates(rel, DecisionOf(c, s, a, r, n))
    ensures AllRelate(rel, AgesOf(c, s, a, r, n).decisions)
  {
    var calls := ProcessTapping(c, s, r).state.calls;
    ProcessTappingCalls(c, s, r);
    forall i | 0 <= i < |calls| ensures Relates(rel, AgesOf(c, s, a, r, n).decisions[i]) {
      MarkedAt(s, a, calls, DecisionOf(c, s, a, r, n), n, i);
    }
  }

  // ---------------------------------------------------------------------- in good order

  /** An undecided key came before all that waits. */
  ghost predicate KeyFirst(s: State, a: Ages) {
    s.Undecided() ==> forall i | 0 <= i < |a.waiting| :: a.key < a.waiting[i]
  }

  function Earlier(): (nat, nat) -> bool { (press: nat, cause: nat) => press < cause }

  lemma {:induction false} WaitingReleaseIsLater(c: Config, es: seq<Event>, s: State, a: Ages)
    requires Known(c, es, s, a) && s.buffer != [] && KeyFirst(s, a) && SettlesOne(c, s, s.buffer[0])
    ensures Relates(Earlier(), DecisionOf(c, s, a, s.buffer[0], a.waiting[0]))
  {
    if !s.Undecided() {
      var k := FindTap(c, ScanState(s, s.buffer[0]), 0);
      assert !s.buffer[k].event.pressed && s.buffer[0].event.pressed;
    }
  }

  lemma {:induction false} TimelyRound(c: Config, es: seq<Event>, s: State, a: Ages)
    returns (s1: State, a1: Ages, done: bool)
    requires Known(c, es, s, a) && s.buffer != [] && KeyFirst(s, a) && AllRelate(Earlier(), a.decisions)
    ensures Drain(c, s) == (if done then Drain(c, s1) else s1)
    ensures |a1.waiting| == |s1.buffer| && DrainAges(c, s, a) == (if done then DrainAges(c, s1, a1) else a1)
    ensures Known(c, es, s1, a1) && KeyFirst(s1, a1) && AllRelate(Earlier(), a1.decisions)
    ensures done ==> |s1.buffer| < |s.buffer|
  {
    s1, a1, done := ExactRound(c, es, s, a);
    if SettlesOne(c, s, s.buffer[0]) { WaitingReleaseIsLater(c, es, s, a); }
    StepRelates(Earlier(), c, s, a, s.buffer[0], a.waiting[0]);
    RoundKeepsKeyFirst(c, es, s, a);
  }

  lemma {:induction false} DrainIsTimely(c: Config, es: seq<Event>, s: State, a: Ages)
    requires Known(c, es, s, a) && KeyFirst(s, a) && AllRelate(Earlier(), a.decisions)
    ensures AllRelate(Earlier(), DrainAges(c, s, a).decisions) && KeyFirst(Drain(c, s), DrainAges(c, s, a))
    decreases |s.buffer|
  {
    if s.buffer != [] {
      var s1, a1, done := TimelyRound(c, es, s, a);
      if done { DrainIsTimely(c, es, s1, a1); }
    }
  }

  lemma {:induction false} RoundKeepsKeyFirst(c: Config, es: seq<Event>, s: State, a: Ages)
    requires Known(c, es, s, a) && s.buffer != [] && KeyFirst(s, a)
    ensures KeyFirst(AfterRound(ProcessTapping(c, s, s.buffer[0])), AgesAfterRound(c, s, a))
  {
    if ProcessTapping(c, s, s.buffer[0]).state.Undecided() { OnlyTheEventStarts(c, s, s.buffer[0]); }
  }

  lemma {:induction false} OfferIsTimely(c: Config, earlier: seq<Event>, s: State, a: Ages, e: Event)
    requires Known(c, earlier, s, a) && InOrder(s) && KeyFirst(s, a) && AllRelate(Earlier(), a.decisions)
    ensures var a' := OfferAges(c, s, a, Fresh(e), |earlier|);
      AllRelate(Earlier(), a'.decisions) && KeyFirst(Offer(c, s, Fresh(e)), a')
  {
    StepRelates(Earlier(), c, s, a, Fresh(e), |earlier|);
    if ProcessTapping(c, s, Fresh(e)).state.Undecided() { OnlyTheEventStarts(c, s, Fresh(e)); }
  }

  /** Every call starts with the buffer empty or its tapping key undecided. */
  predicate StartsInOrder(c: Config, es: seq<Event>) {
    forall k | 0 <= k < |es| :: InOrder(Run(c, es[..k]))
  }

  /** Then each tap and each hold of the run was decided by an arrival after its press. */
  lemma {:induction false} DecisionsComeLater(c: Config, es: seq<Event>)
    requires StartsInOrder(c, es)
    ensures AllRelate(Earlier(), RunAges(c, es).decisions)
    ensures KeyFirst(Run(c, es), RunAges(c, es))
  {
    if es != [] {
      var earlier, e := es[..|es| - 1], es[|es| - 1];
      var s, a := Run(c, earlier), RunAges(c, earlier);
      assert earlier + [e] == es;
      forall k | 0 <= k < |earlier| ensures InOrder(Run(c, earlier[..k])) { assert earlier[..k] == es[..k]; }
      DecisionsComeLater(c, earlier);
      EveryCallIsJustified(c, earlier);
      RunOneMore(c, earlier, e);
      OfferIsTimely(c, earlier, s, a, e);
      OfferIsRightExactlyWhen(c, earlier, s, a, e);
      DrainIsTimely(c, es, Offer(c, s, Fresh(e)), OfferAges(c, s, a, Fresh(e), |earlier|));
    }
  }

  // -------------------------------------------------------------------- the true clock

  /** The events carry the low 16 bits of the true times `at`, which never go back. */
  predicate Stamped(es: seq<Event>, at: seq<nat>) {
    && |at| == |es|
    && (forall i | 0 <= i < |es| :: es[i].time == at[i] % 0x1_0000)
    && (forall i, j | 0 <= i < j < |at| :: at[i] <= at[j])
  }

  /** Less than a turn of the 16-bit clock lies between them. */
  function Close(at: seq<nat>): (nat, nat) -> bool {
    (press: nat, cause: nat) => press < |at| && cause < |at| && at[cause] < at[press] + 0x1_0000
  }

  /** At the `k`-th arrival all that is held is younger than a turn of the clock. */
  ghost predicate Young(at: seq<nat>, k: nat, s: State, a: Ages)
    requires k < |at|
  {
    && (forall i | 0 <= i < |a.waiting| :: a.waiting[i] <= k && at[k] < at[a.waiting[i]] + 0x1_0000)
    && (s.Undecided() ==> a.key <= k && at[k] < at[a.key] + 0x1_0000)
  }

  lemma {:induction false} YoungIsClose(at: seq<nat>, k: nat, press: nat, cause: nat)
    requires k < |at| && (forall i, j | 0 <= i < j < |at| :: at[i] <= at[j])
    requires press <= k && cause <= k && at[k] < at[press] + 0x1_0000
    ensures Close(at)(press, cause)
  {
  }

  lemma {:induction false} StepIsClose(c: Config, at: seq<nat>, k: nat, s: State, a: Ages, r: Record, n: nat)
    requires k < |at| && (forall i, j | 0 <= i < j < |at| :: at[i] <= at[j])
    requires |a.waiting| == |s.buffer| && |a.decisions| == |s.calls| && Untouched(r)
    requires Young(at, k, s, a) && AllRelate(Close(at), a.decisions) && n <= k && at[k] < at[n] + 0x1_0000
    ensures AllRelate(Close(at), AgesOf(c, s, a, r, n).decisions)
  {
    var d := DecisionOf(c, s, a, r, n);
    YoungIsClose(at, k, d.press, d.cause);
    StepRelates(Close(at), c, s, a, r, n);
  }

  lemma {:induction false} RoundKeepsYoung(c: Config, es: seq<Event>, at: seq<nat>, k: nat, s: State, a: Ages)
    requires Known(c, es, s, a) && s.buffer != [] && k < |at| && Young(at, k, s, a)
    ensures Young(at, k, AfterRound(ProcessTapping(c, s, s.buffer[0])), AgesAfterRound(c, s, a))
  {
    if ProcessTapping(c, s, s.buffer[0]).state.Undecided() { OnlyTheEventStarts(c, s, s.buffer[0]); }
  }

  lemma {:induction false} CloseRound(c: Config, es: seq<Event>, at: seq<nat>, k: nat, s: State, a: Ages)
    returns (s1: State, a1: Ages, done: bool)
    requires Known(c, es, s, a) && s.buffer != []
    requires k < |at| && (forall i, j | 0 <= i < j < |at| :: at[i] <= at[j])
    requires Young(at, k, s, a) && AllRelate(Close(at), a.decisions)
    ensures |a1.waiting| == |s1.buffer| && DrainAges(c, s, a) == (if done then DrainAges(c, s1, a1) else a1)
    ensures Known(c, es, s1, a1) && Young(at, k, s1, a1) && AllRelate(Close(at), a1.decisions)
    ensures done ==> |s1.buffer| < |s.buffer|
  {
    s1, a1, done := ExactRound(c, es, s, a);
    StepIsClose(c, at, k, s, a, s.buffer[0], a.waiting[0]);
    RoundKeepsYoung(c, es, at, k, s, a);
  }

  lemma {:induction false} DrainIsClose(c: Config, es: seq<Event>, at: seq<nat>, k: nat, s: State, a: Ages)
    requires Known(c, es, s, a) && k < |at| && (forall i, j | 0 <= i < j < |at| :: at[i] <= at[j])
    requires Young(at, k, s, a) && AllRelate(Close(at), a.decisions)
    ensures AllRelate(Close(at), DrainAges(c, s, a).decisions)
    decreases |s.buffer|
  {
    if s.buffer != [] {
      var s1, a1, done := CloseRound(c, es, at, k, s, a);
      if done { DrainIsClose(c, es, at, k, s1, a1); }
    }
  }

  lemma {:induction false} OfferIsClose(c: Config, earlier: seq<Event>, at: seq<nat>, s: State, a: Ages, e: Event)
    requires Known(c, earlier, s, a) && |earlier| < |at| && (forall i, j | 0 <= i < j < |at| :: at[i] <= at[j])
    requires Young(at, |earlier|, s, a) && AllRelate(Close(at), a.decisions)
    ensures var a' := OfferAges(c, s, a, Fresh(e), |earlier|);
      AllRelate(Close(at), a'.decisions) && Young(at, |earlier|, Offer(c, s, Fresh(e)), a')
  {
    StepIsClose(c, at, |earlier|, s, a, Fresh(e), |earlier|);
    if ProcessTapping(c, s, Fresh(e)).state.Undecided() { OnlyTheEventStarts(c, s, Fresh(e)); }
  }

  /** Nothing is held for a turn of the clock. */
  ghost predicate NothingHeldLong(c: Config, es: seq<Event>, at: seq<nat>)
    requires |es| <= |at|
  {
    forall k | 0 <= k < |es| :: Young(at, k, Run(c, es[..k]), RunAges(c, es[..k]))
  }

  /** What the run without its last arrival needs. */
  lemma {:induction false} NothingHeldLongBefore(c: Config, earlier: seq<Event>, e: Event, at: seq<nat>)
    requires |earlier| < |at| && NothingHeldLong(c, earlier + [e], at)
    ensures NothingHeldLong(c, earlier, at) && Young(at, |earlier|, Run(c, earlier), RunAges(c, earlier))
  {
    assert (earlier + [e])[..|earlier|] == earlier;
    forall k | 0 <= k < |earlier| ensures Young(at, k, Run(c, earlier[..k]), RunAges(c, earlier[..k])) {
      assert (earlier + [e])[..k] == earlier[..k];
    }
  }

  ghost predicate RunIsClose(c: Config, at: seq<nat>, es: seq<Event>) {
    |es| <= |at| && NothingHeldLong(c, es, at) ==> AllRelate(Close(at), RunAges(c, es).decisions)
  }

  lemma {:induction false} OneMoreIsClose(c: Config, earlier: seq<Event>, e: Event, at: seq<nat>)
    requires (forall i, j | 0 <= i < j < |at| :: at[i] <= at[j]) && RunIsClose(c, at, earlier)
    ensures RunIsClose(c, at, earlier + [e])
  {
    if |earlier| < |at| && NothingHeldLong(c, earlier + [e], at) {
      var s, a := Run(c, earlier), RunAges(c, earlier);
      NothingHeldLongBefore(c, earlier, e, at);
      EveryCallIsJustified(c, earlier);
      RunOneMore(c, earlier, e);
      OfferIsClose(c, earlier, at, s, a, e);
      OfferIsRightExactlyWhen(c, earlier, s, a, e);
      DrainIsClose(c, earlier + [e], at, |earlier|, Offer(c, s, Fresh(e)), OfferAges(c, s, a, Fresh(e), |earlier|));
    }
  }

  lemma {:induction false} DecisionsAreClose(c: Config, es: seq<Event>, at: seq<nat>)
    requires |es| <= |at| && (forall i, j | 0 <= i < j < |at| :: at[i] <= at[j]) && NothingHeldLong(c, es, at)
    ensures AllRelate(Close(at), RunAges(c, es).decisions)
  {
    var close := (xs: seq<Event>) => RunIsClose(c, at, xs);
    forall earlier, e | close(earlier) ensures close(earlier + [e]) { OneMoreIsClose(c, earlier, e, at); }
    OneByOne(close, es);
  }

  /** The true time from the press to what settled it: less than the term for a tap, and at least
      the term for a hold that no nested tap and no other press decided. */
  lemma {:induction false} TermsAreTrueTimes(c: Config, es: seq<Event>, at: seq<nat>, i: nat)
    requires Stamped(es, at) && NothingHeldLong(c, es, at) && NoCallErrs(c, es)
    requires i < |Run(c, es).calls| && Run(c, es).calls[i].origin.OfTappingKey?
    ensures |RunAges(c, es).decisions| == |Run(c, es).calls| && RunAges(c, es).decisions[i].Settled?
    ensures var calls, d := Run(c, es).calls, RunAges(c, es).decisions[i];
      var r := calls[i].record;
      && d.press < d.cause < |es| && AllBelow(d.others, |es|) && at[d.press] <= at[d.cause]
      && (r.tap.count == 1 ==> at[d.cause] - at[d.press] < c.tappingTerm(calls[..i], Uncounted(r)))
      && (r.tap.count == 0 ==>
            || at[d.cause] - at[d.press] >= c.tappingTerm(calls[..i], r)
            || Nests(c, Arrivals(es, d.others), calls[..i], r, es[d.cause])
            || Interrupts(c, calls[..i], r, es[d.cause]))
  {
    EveryCallIsJustified(c, es);
    DecisionsAreClose(c, es, at);
    var calls, d := Run(c, es).calls, RunAges(c, es).decisions[i];
    assert Grounded(c, es, calls[..i], calls[i], d) && Proper(c, es, calls[..i], calls[i], d);
    assert Relates(Close(at), d);
    TrueDifference(at[d.press], at[d.cause]);
  }

  lemma {:induction false} TrueDifference(press: nat, cause: nat)
    requires press <= cause < press + 0x1_0000
    ensures TimerDiff16(cause % 0x1_0000, press % 0x1_0000) == cause - press
  {
  }
}
