/** When the resolver's decisions are right: in every run each has its grounds, and each comes
    after its press, nested taps lying wholly inside, exactly when no call starts or stops
    draining where it would err (quantum/action_tapping.c:80-113, 193-349, 501-521). */
module TappingVerdicts {
  import opened KeyEvents
  import opened Tapping
  import opened TappingConservation
  import opened TappingOrder
  import opened TappingDecisions
  import opened TappingArrivals
  import opened Sequences

  /** All is accounted for, with its numbers. */
  ghost predicate Known(c: Config, es: seq<Event>, s: State, a: Ages) {
    Numbered(es, s, a) && AllGrounded(c, es, s.calls, a.decisions) && PressesUntouched(s.buffer)
  }

  ghost predicate AllRight(c: Config, es: seq<Event>, s: State, a: Ages)
    requires Known(c, es, s, a)
  {
    AllProper(c, es, s.calls, a.decisions)
  }

  // ------------------------------------------------------------------------- draining

  lemma {:induction false} RoundIsKnown(c: Config, es: seq<Event>, s: State, a: Ages, o: Outcome, a1: Ages)
    requires Known(c, es, s, a) && s.buffer != []
    requires o == ProcessTapping(c, s, s.buffer[0]) && a1 == AgesAfterRound(c, s, a)
    ensures o.state.buffer != [] && Known(c, es, AfterRound(o), a1)
    ensures AllRight(c, es, AfterRound(o), a1) <==> AllRight(c, es, s, a) && !StopErrs(c, s, a)
  {
    var r, n := s.buffer[0], a.waiting[0];
    ProcessTappingCalls(c, s, r);
    KeepsUntouched(c, s, r);
    StepKeepsPlaces(c, s, r);
    StepIsGrounded(c, es, s, a, r, n, o.state.calls, a1.decisions);
    StepIsProperExactlyWhen(c, es, s, a, r, n, o.state.calls, a1.decisions);
    RoundErrs(c, es, s, a);
    RoundIsNumbered(es, s, a, o, a1.decisions);
  }

  /** One round: what is known stays known, and what is right stays right unless the round errs. */
  lemma {:induction false} ExactRound(c: Config, es: seq<Event>, s: State, a: Ages)
    returns (s1: State, a1: Ages, done: bool)
    requires Known(c, es, s, a) && s.buffer != []
    ensures Known(c, es, s1, a1) && (AllRight(c, es, s1, a1) <==> AllRight(c, es, s, a) && !StopErrs(c, s, a))
    ensures Drain(c, s) == (if done then Drain(c, s1) else s1)
    ensures DrainAges(c, s, a) == (if done then DrainAges(c, s1, a1) else a1)
    ensures Stop(c, s, a) == (if done then Stop(c, s1, a1) else (s, a))
    ensures KeepsWaitingRecords(c, s) && s1 == AfterRound(ProcessTapping(c, s, s.buffer[0]))
    ensures done == ProcessTapping(c, s, s.buffer[0]).done
    ensures a1 == AgesAfterRound(c, s, a) && (done ==> |s1.buffer| < |s.buffer| && !StopErrs(c, s, a))
  {
    var o := ProcessTapping(c, s, s.buffer[0]);
    a1, done := AgesAfterRound(c, s, a), o.done;
    RoundIsKnown(c, es, s, a, o, a1);
    s1 := AfterRound(o);
    if s.Undecided() && Settles(c, s, s.buffer[0]) { SettledExactlyWhen(c, s, s.buffer[0]); }
  }

  ghost predicate KeepsWaitingRecords(c: Config, s: State)
    requires s.buffer != []
  {
    ProcessTapping(c, s, s.buffer[0]).state.buffer != []
  }

  /** The same, without how the round is computed. */
  lemma {:induction false} OneRound(c: Config, es: seq<Event>, s: State, a: Ages)
    returns (s1: State, a1: Ages, done: bool)
    requires Known(c, es, s, a) && s.buffer != []
    ensures Drain(c, s) == (if done then Drain(c, s1) else s1)
    ensures |a1.waiting| == |s1.buffer| && DrainAges(c, s, a) == (if done then DrainAges(c, s1, a1) else a1)
    ensures Stop(c, s, a) == (if done then Stop(c, s1, a1) else (s, a))
    ensures Known(c, es, s1, a1) && (AllRight(c, es, s1, a1) <==> AllRight(c, es, s, a) && !StopErrs(c, s, a))
    ensures done ==> |s1.buffer| < |s.buffer| && !StopErrs(c, s, a)
  {
    s1, a1, done := ExactRound(c, es, s, a);
  }

  /** The state in which draining stops, or runs out of records. */
  function Stop(c: Config, s: State, a: Ages): (sa: (State, Ages))
    requires |a.waiting| == |s.buffer|
    ensures |sa.1.waiting| == |sa.0.buffer|
    decreases |s.buffer|
  {
    if s.buffer == [] then (s, a)
    else
      var o := ProcessTapping(c, s, s.buffer[0]);
      KeepsWaitingEvents(c, s, s.buffer[0]);
      if o.done then Stop(c, AfterRound(o), AgesAfterRound(c, s, a)) else (s, a)
  }

  ghost predicate DrainErrs(c: Config, s: State, a: Ages)
    requires |a.waiting| == |s.buffer|
  {
    StopErrs(c, Stop(c, s, a).0, Stop(c, s, a).1)
  }

  lemma {:induction false} DrainIsRightExactlyWhen(c: Config, es: seq<Event>, s: State, a: Ages)
    requires Known(c, es, s, a)
    ensures Known(c, es, Drain(c, s), DrainAges(c, s, a))
    ensures AllRight(c, es, Drain(c, s), DrainAges(c, s, a)) <==> AllRight(c, es, s, a) && !DrainErrs(c, s, a)
    decreases |s.buffer|
  {
    if s.buffer != [] {
      var s1, a1, done := OneRound(c, es, s, a);
      if done { DrainIsRightExactlyWhen(c, es, s1, a1); }
    }
  }

  // ------------------------------------------------------------------------- arriving

  /** The arrival `r` starts a tapping key whose release waits already, or completes a nested tap
      whose press had been waiting before the tapping key came. */
  ghost predicate ArrivalErrs(c: Config, s: State, a: Ages, r: Record)
    requires |a.waiting| == |s.buffer|
  {
    if s.Undecided() then
      SettlesNested(c, s, r) && !exists i | 0 <= i < |s.buffer| ::
        a.key < a.waiting[i] && s.buffer[i].event.pressed && s.buffer[i].event.key == r.event.key
    else ScanFinds(c, s, r)
  }

  lemma {:induction false} ArrivalErrsExactlyWhen(c: Config, es: seq<Event>, s: State, a: Ages, r: Record)
    requires Numbered(es, s, a)
    ensures StepErrs(c, s, a, r, |es|) <==> ArrivalErrs(c, s, a, r)
  {
    if s.Undecided() {
      if InnerPressWaits(s, a, r, |es|) {
        var i :| 0 <= i < |s.buffer| && a.key < a.waiting[i] < |es|
                 && s.buffer[i].event.pressed && s.buffer[i].event.key == r.event.key;
      }
    } else if ScanFinds(c, s, r) {
      assert a.waiting[FindTap(c, ScanState(s, r), 0)] < |es|;
    }
  }

  /** More arrivals change nothing of what is known. */
  lemma {:induction false} KnownAfterMore(c: Config, es: seq<Event>, e: Event, s: State, a: Ages)
    requires Known(c, es, s, a)
    ensures Known(c, es + [e], s, a) && (AllRight(c, es + [e], s, a) <==> AllRight(c, es, s, a))
  {
    forall i | 0 <= i < |s.calls|
      ensures Grounded(c, es + [e], s.calls[..i], s.calls[i], a.decisions[i])
      ensures Proper(c, es + [e], s.calls[..i], s.calls[i], a.decisions[i])
              <==> Proper(c, es, s.calls[..i], s.calls[i], a.decisions[i])
    {
      GroundedAfterMore(c, es, e, s.calls[..i], s.calls[i], a.decisions[i]);
    }
  }

  lemma {:induction false} GroundedAfterMore(c: Config, es: seq<Event>, e: Event, before: seq<Call>, call: Call,
                                             d: Decision)
    requires Grounded(c, es, before, call, d)
    ensures Grounded(c, es + [e], before, call, d)
    ensures Proper(c, es + [e], before, call, d) <==> Proper(c, es, before, call, d)
  {
    if call.origin.OfTappingKey? {
      assert Arrivals(es + [e], d.others) == Arrivals(es, d.others);
      assert forall i | 0 <= i < |d.others| :: (es + [e])[d.others[i]] == es[d.others[i]];
    }
  }

  /** The press that interrupted the undecided key waits. */
  lemma {:induction false} PressGoesOnWaiting(s: State, e: Event, o: Outcome)
    requires KeepsPlaces(s, e, o) && o.state.Undecided() && o.state.tapping.tap.interrupted
    requires s.Undecided() && s.tapping.tap.interrupted ==> SomePressWaits(s.buffer)
    ensures if o.done then SomePressWaits(o.state.buffer) else SomePressWaits(o.state.buffer + [o.keyp])
  {
    if SomePressWaits(s.buffer) {
      var i :| 0 <= i < |s.buffer| && s.buffer[i].event.pressed && !s.buffer[i].event.IsTick();
      assert o.state.buffer[i].event == s.buffer[i].event;
      assert (o.state.buffer + [o.keyp])[i] == o.state.buffer[i];
    } else {
      assert (o.state.buffer + [o.keyp])[|o.state.buffer|] == o.keyp;
    }
  }

  lemma {:induction false} OfferIsNumbered(c: Config, earlier: seq<Event>, s: State, a: Ages, r: Record)
    requires Numbered(earlier, s, a) && Untouched(r)
    requires |AgesOf(c, s, a, r, |earlier|).decisions| == |ProcessTapping(c, s, r).state.calls|
    ensures Numbered(earlier + [r.event], Offer(c, s, r), OfferAges(c, s, a, r, |earlier|))
  {
    StepKeepsPlaces(c, s, r);
    var s', a' := Offer(c, s, r), OfferAges(c, s, a, r, |earlier|);
    forall i | 0 <= i < |s'.buffer|
      ensures a'.waiting[i] <= |earlier| && (earlier + [r.event])[a'.waiting[i]] == s'.buffer[i].event
    {
      if i < |s.buffer| { assert a'.waiting[i] == a.waiting[i]; }
    }
    if s'.Undecided() && s'.tapping.tap.interrupted { PressGoesOnWaiting(s, r.event, ProcessTapping(c, s, r)); }
  }

  /** The step that offers the arrival, before it joins the queue. */
  lemma {:induction false} ArrivalIsRightExactlyWhen(c: Config, earlier: seq<Event>, s: State, a: Ages, e: Event,
                                                    calls: seq<Call>, ds: seq<Decision>)
    requires Known(c, earlier, s, a) && calls == ProcessTapping(c, s, Fresh(e)).state.calls
    requires ds == AgesOf(c, s, a, Fresh(e), |earlier|).decisions
    ensures AllGrounded(c, earlier + [e], calls, ds)
    ensures AllProper(c, earlier + [e], calls, ds)
       <==> AllProper(c, earlier, s.calls, a.decisions) && !ArrivalErrs(c, s, a, Fresh(e))
  {
    var es, r, n := earlier + [e], Fresh(e), |earlier|;
    KnownAfterMore(c, earlier, e, s, a);
    ProcessTappingCalls(c, s, r);
    StepIsGrounded(c, es, s, a, r, n, calls, ds);
    StepIsProperExactlyWhen(c, es, s, a, r, n, calls, ds);
    ArrivalErrsExactlyWhen(c, earlier, s, a, r);
  }

  lemma {:induction false} OfferIsRightExactlyWhen(c: Config, earlier: seq<Event>, s: State, a: Ages, e: Event)
    requires Known(c, earlier, s, a)
    ensures Known(c, earlier + [e], Offer(c, s, Fresh(e)), OfferAges(c, s, a, Fresh(e), |earlier|))
    ensures AllRight(c, earlier + [e], Offer(c, s, Fresh(e)), OfferAges(c, s, a, Fresh(e), |earlier|))
       <==> AllRight(c, earlier, s, a) && !ArrivalErrs(c, s, a, Fresh(e))
  {
    var r := Fresh(e);
    var calls := ProcessTapping(c, s, r).state.calls;
    ArrivalIsRightExactlyWhen(c, earlier, s, a, e, calls, AgesOf(c, s, a, r, |earlier|).decisions);
    OfferKeepsCalls(c, s, a, r, |earlier|);
    OfferIsNumbered(c, earlier, s, a, r);
    KeepsUntouched(c, s, r);
  }

  lemma {:induction false} OfferKeepsCalls(c: Config, s: State, a: Ages, r: Record, n: nat)
    requires |a.waiting| == |s.buffer|
    ensures Offer(c, s, r).calls == ProcessTapping(c, s, r).state.calls
    ensures OfferAges(c, s, a, r, n).decisions == AgesOf(c, s, a, r, n).decisions
  {
  }

  // ----------------------------------------------------------------------- whole runs

  /** This call settles a key wrongly: at once, or where draining stops. */
  ghost predicate CallErrs(c: Config, s: State, a: Ages, r: Record, n: nat)
    requires |a.waiting| == |s.buffer|
  {
    ArrivalErrs(c, s, a, r) || DrainErrs(c, Offer(c, s, r), OfferAges(c, s, a, r, n))
  }

  ghost predicate CallErrsAt(c: Config, es: seq<Event>, k: nat)
    requires k < |es|
  {
    var s, a := Run(c, es[..k]), RunAges(c, es[..k]);
    |a.waiting| == |s.buffer| && CallErrs(c, s, a, Fresh(es[k]), k)
  }

  lemma {:induction false} CallIsRightExactlyWhen(c: Config, earlier: seq<Event>, s: State, a: Ages, e: Event)
    requires Known(c, earlier, s, a)
    ensures Known(c, earlier + [e], ActionTappingProcess(c, s, Fresh(e)), CallAges(c, s, a, Fresh(e), |earlier|))
    ensures AllRight(c, earlier + [e], ActionTappingProcess(c, s, Fresh(e)), CallAges(c, s, a, Fresh(e), |earlier|))
       <==> AllRight(c, earlier, s, a) && !CallErrs(c, s, a, Fresh(e), |earlier|)
  {
    OfferIsRightExactlyWhen(c, earlier, s, a, e);
    DrainIsRightExactlyWhen(c, earlier + [e], Offer(c, s, Fresh(e)), OfferAges(c, s, a, Fresh(e), |earlier|));
  }

  lemma {:induction false} EarlierCallsErrAlike(c: Config, earlier: seq<Event>, e: Event, k: nat)
    requires k < |earlier|
    ensures CallErrsAt(c, earlier + [e], k) <==> CallErrsAt(c, earlier, k)
  {
    assert (earlier + [e])[..k] == earlier[..k];
  }

  lemma {:induction false} LastCallErrs(c: Config, earlier: seq<Event>, e: Event)
    requires Known(c, earlier, Run(c, earlier), RunAges(c, earlier))
    ensures CallErrsAt(c, earlier + [e], |earlier|)
       <==> CallErrs(c, Run(c, earlier), RunAges(c, earlier), Fresh(e), |earlier|)
  {
    assert (earlier + [e])[..|earlier|] == earlier;
  }

  ghost predicate NoCallErrs(c: Config, es: seq<Event>) { forall k | 0 <= k < |es| :: !CallErrsAt(c, es, k) }

  lemma {:induction false} NoCallErrsOneMore(c: Config, earlier: seq<Event>, e: Event)
    requires Known(c, earlier, Run(c, earlier), RunAges(c, earlier))
    ensures NoCallErrs(c, earlier + [e])
       <==> NoCallErrs(c, earlier) && !CallErrs(c, Run(c, earlier), RunAges(c, earlier), Fresh(e), |earlier|)
  {
    LastCallErrs(c, earlier, e);
    forall k | 0 <= k < |earlier| ensures CallErrsAt(c, earlier + [e], k) <==> CallErrsAt(c, earlier, k) {
      EarlierCallsErrAlike(c, earlier, e, k);
    }
  }

  /** The state and the numbers after one more arrival. */
  lemma {:induction false} RunOneMore(c: Config, earlier: seq<Event>, e: Event)
    requires |RunAges(c, earlier).waiting| == |Run(c, earlier).buffer|
    ensures Run(c, earlier + [e]) == ActionTappingProcess(c, Run(c, earlier), Fresh(e))
    ensures RunAges(c, earlier + [e]) == CallAges(c, Run(c, earlier), RunAges(c, earlier), Fresh(e), |earlier|)
  {
    assert (earlier + [e])[..|earlier|] == earlier;
  }

  /** All is known of the run, and all is right exactly when no call errs. */
  ghost predicate Judged(c: Config, es: seq<Event>, s: State, a: Ages) {
    Known(c, es, s, a) && (AllRight(c, es, s, a) <==> NoCallErrs(c, es))
  }

  ghost predicate RunIsJudged(c: Config, es: seq<Event>) { Judged(c, es, Run(c, es), RunAges(c, es)) }

  lemma {:induction false} AfterOneMoreIsJudged(c: Config, earlier: seq<Event>, e: Event)
    requires RunIsJudged(c, earlier)
    ensures RunIsJudged(c, earlier + [e])
  {
    CallIsRightExactlyWhen(c, earlier, Run(c, earlier), RunAges(c, earlier), e);
    RunOneMore(c, earlier, e);
    NoCallErrsOneMore(c, earlier, e);
  }

  lemma {:induction false} NothingYetIsJudged(c: Config)
    ensures RunIsJudged(c, [])
  {
  }

  lemma {:induction false} EveryRunIsJudged(c: Config, es: seq<Event>)
    ensures RunIsJudged(c, es)
  {
    var judged := (xs: seq<Event>) => RunIsJudged(c, xs);
    NothingYetIsJudged(c);
    forall earlier, e | judged(earlier) ensures judged(earlier + [e]) { AfterOneMoreIsJudged(c, earlier, e); }
    OneByOne(judged, es);
  }

  /** In every run, overflows included, each call with a tapping key was settled by a numbered
      arrival that gives the grounds for its count; and all of these came after their presses,
      nested taps lying wholly inside, exactly when no call of the run errs. */
  lemma {:induction false} EveryCallIsJustified(c: Config, es: seq<Event>)
    ensures Known(c, es, Run(c, es), RunAges(c, es))
    ensures AllAccounted(c, es, Run(c, es).calls)
    ensures AllRight(c, es, Run(c, es), RunAges(c, es)) <==> NoCallErrs(c, es)
  {
    EveryCallIsAccounted(c, es);
    EveryRunIsJudged(c, es);
  }

  // ------------------------------------------------------- what draining passes over

  ghost predicate PassesBy(c: Config, s: State, r: Record) {
    && WithinTappingTerm(c, s, r.event) && !r.event.pressed && r.event.key != s.tapping.event.key
    && !Typed(s.buffer, r.event) && !IsRetained(c.actionFor(s.calls, r.event.key), r.tap.count)
  }

  /** Draining passes over a waiting record, an undecided key staying so, exactly for a release
      inside the term, of another key, whose press does not wait and which nothing keeps back. */
  lemma {:induction false} PassedOverExactlyWhen(c: Config, s: State, r: Record)
    requires s.Undecided() && !r.event.IsTick()
    ensures ProcessTapping(c, s, r).done <==> PassesBy(c, s, r)
    ensures ProcessTapping(c, s, r).done ==> ProcessTapping(c, s, r) == Outcome(Emit(s, OfEvent, r), r, true)
  {
  }

  /** The waiting records that pass an undecided key by, processed. */
  ghost function PassOver(c: Config, s: State): State
    decreases |s.buffer|
  {
    if s.buffer == [] || !PassesBy(c, s, s.buffer[0]) then s
    else PassOver(c, Emit(s, OfEvent, s.buffer[0]).(buffer := s.buffer[1..]))
  }

  lemma {:induction false} StopPassesOver(c: Config, s: State, a: Ages)
    requires s.Undecided() && NoTicksWait(s) && |a.waiting| == |s.buffer|
    ensures Stop(c, s, a).0 == PassOver(c, s) && |PassOver(c, s).buffer| <= |s.buffer|
    ensures Stop(c, s, a).1.key == a.key && Stop(c, s, a).0.Undecided()
    ensures Stop(c, s, a).1.waiting == a.waiting[|s.buffer| - |PassOver(c, s).buffer|..]
    decreases |s.buffer|
  {
    if s.buffer != [] {
      PassedOverExactlyWhen(c, s, s.buffer[0]);
      if PassesBy(c, s, s.buffer[0]) {
        StopPassesOver(c, AfterRound(ProcessTapping(c, s, s.buffer[0])), AgesAfterRound(c, s, a));
      }
    }
  }

  /** A key that starts to tap while other events wait is settled by one of these exactly when its
      release is among them in its term, or the first of them that does not pass it by is outside
      its term or settles it inside. */
  lemma {:induction false} NewKeyIsSettledEarlyExactlyWhen(c: Config, earlier: seq<Event>, s: State, a: Ages, e: Event)
    requires Known(c, earlier, s, a) && NoTicksWait(s) && StartsScan(c, s, Fresh(e))
    ensures CallErrs(c, s, a, Fresh(e), |earlier|) <==>
      || ScanFinds(c, s, Fresh(e))
      || var p := PassOver(c, Offer(c, s, Fresh(e))); p.buffer != [] && Settles(c, p, p.buffer[0])
  {
    var s1, a1 := Offer(c, s, Fresh(e)), OfferAges(c, s, a, Fresh(e), |earlier|);
    if !ScanFinds(c, s, Fresh(e)) {
      StartedKeyIsNewest(c, earlier, s, a, e);
      StopPassesOver(c, s1, a1);
    }
  }

  lemma {:induction false} StartedKeyIsNewest(c: Config, earlier: seq<Event>, s: State, a: Ages, e: Event)
    requires Known(c, earlier, s, a) && NoTicksWait(s) && StartsScan(c, s, Fresh(e)) && !ScanFinds(c, s, Fresh(e))
    ensures var s1, a1 := Offer(c, s, Fresh(e)), OfferAges(c, s, a, Fresh(e), |earlier|);
      && s1.Undecided() && NoTicksWait(s1) && a1.key == |earlier| && a1.waiting == a.waiting
      && forall i | 0 <= i < |a1.waiting| :: a1.waiting[i] < a1.key
  {
    assert ProcessTapping(c, s, Fresh(e)).done;
  }
}
