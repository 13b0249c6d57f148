/** Releases: the event that made a key tapped is itself reported as tapped, however long it has to wait,
    so that what the press registered the release takes back (quantum/action_tapping.c:101-109, 206-216,
    304-311, 501-521). */
module TappingReleases {
  import opened KeyEvents
  import opened Tapping
  import opened TappingConservation
  import opened TappingOrder
  import opened TappingDecisions
  import opened TappingArrivals
  import opened TappingVerdicts
  import opened TappingRepeats
  import opened Sequences

  /** If the `q`-th event waits, it is marked as tapped. */
  ghost predicate WaitsTapped(s: State, a: Ages, q: nat) {
    |a.waiting| == |s.buffer| && forall b | 0 <= b < |a.waiting| && a.waiting[b] == q :: s.buffer[b].tap.count > 0
  }

  /** If it has been reported, it was so as tapped. */
  ghost predicate ReportedTapped(calls: seq<Call>, ds: seq<Decision>, q: nat) {
    |ds| == |calls|
    && forall m | 0 <= m < |calls| && calls[m].origin.OfEvent? && ds[m].Source() == q :: calls[m].record.tap.count > 0
  }

  /** The `i`-th call reports a tap. */
  ghost predicate IsVerdictTapped(calls: seq<Call>, ds: seq<Decision>, i: nat) {
    i < |calls| == |ds| && calls[i].origin.OfTappingKey? && calls[i].record.tap.count == 1 && ds[i].Settled?
  }

  /** What made a key tapped waits or was reported as tapped. */
  ghost predicate StaysTapped(s: State, a: Ages) {
    forall i: nat | IsVerdictTapped(s.calls, a.decisions, i) ::
      WaitsTapped(s, a, a.decisions[i].cause) && ReportedTapped(s.calls, a.decisions, a.decisions[i].cause)
  }

  // -------------------------------------------------------------------------- one step

  /** What a step does to the marks: of those waiting none is lost, and neither is that of the event at hand. */
  ghost predicate KeepsMarks(s: State, r: Record, o: Outcome) {
    && |o.state.buffer| == |s.buffer|
    && (forall b | 0 <= b < |s.buffer| :: s.buffer[b].tap.count > 0 ==> o.state.buffer[b].tap.count > 0)
    && (r.tap.count > 0 ==> o.keyp.tap.count > 0)
    && s.calls <= o.state.calls
    && forall m | |s.calls| <= m < |o.state.calls| && o.state.calls[m].origin.OfEvent? ::
         r.tap.count > 0 ==> o.state.calls[m].record.tap.count > 0
  }

  /** A step that reports a tap marks what made it one: the event at hand, or the release it found. */
  ghost predicate MarksCause(c: Config, s: State, r: Record, o: Outcome) {
    s.calls <= o.state.calls &&
    forall m | |s.calls| <= m < |o.state.calls| && o.state.calls[m].origin.OfTappingKey? ::
      o.state.calls[m].record.tap.count == 1 ==>
        if s.Undecided() then o.keyp.tap.count > 0 && !o.done
        else
          var k := FindTap(c, ScanState(s, r), 0);
          k < |s.buffer| == |o.state.buffer| && o.state.buffer[k].tap.count > 0
  }

  lemma {:induction false} ScanMarks(c: Config, s: State, r: Record)
    requires StartsScan(c, s, r) && Untouched(r)
    ensures var s' := ScanTap(c, ScanState(s, r)); var o := Outcome(s', r, true);
      KeepsMarks(s, r, o) && MarksCause(c, s, r, o)
  {
    var s1 := ScanState(s, r);
    assert s1.calls == s.calls || (|s1.calls| == |s.calls| + 1 && s1.calls[|s.calls|].origin.OfMadeUpRelease?);
  }

  lemma {:induction false} StepKeepsMarks(c: Config, s: State, r: Record)
    requires Untouched(r)
    ensures KeepsMarks(s, r, ProcessTapping(c, s, r)) && MarksCause(c, s, r, ProcessTapping(c, s, r))
  {
    if StartsScan(c, s, r) {
      ScanMarks(c, s, r);
    }
  }

  /** What waits after the step waited before it, or is the event at hand. */
  ghost predicate Carries(s: State, a: Ages, n: nat, o: Outcome, s1: State, a1: Ages) {
    && |a.waiting| == |s.buffer| == |o.state.buffer| && |a1.waiting| == |s1.buffer| && s1.calls == o.state.calls
    && forall b | 0 <= b < |s1.buffer| ::
         || (a1.waiting[b] == n && s1.buffer[b] == o.keyp)
         || exists b0 :: IsCarried(s, a, n, o, s1, a1, b, b0)
  }

  ghost predicate IsCarried(s: State, a: Ages, n: nat, o: Outcome, s1: State, a1: Ages, b: int, b0: int)
    requires |a.waiting| == |o.state.buffer| && |a1.waiting| == |s1.buffer|
  {
    && 0 <= b < |s1.buffer| && 0 <= b0 < |a.waiting|
    && a1.waiting[b] == a.waiting[b0] != n && s1.buffer[b] == o.state.buffer[b0]
  }

  lemma {:induction false} StaysMarked(s: State, a: Ages, r: Record, n: nat, o: Outcome, s1: State, a1: Ages, q: nat)
    requires KeepsMarks(s, r, o) && Carries(s, a, n, o, s1, a1)
    requires WaitsTapped(s, a, q) && (q == n ==> r.tap.count > 0)
    ensures WaitsTapped(s1, a1, q)
  {
    forall b | 0 <= b < |a1.waiting| && a1.waiting[b] == q ensures s1.buffer[b].tap.count > 0 {
      if !(a1.waiting[b] == n && s1.buffer[b] == o.keyp) {
        var b0 :| IsCarried(s, a, n, o, s1, a1, b, b0);
        assert s.buffer[b0].tap.count > 0;
      }
    }
  }

  /** What was reported of an event stays, and what is added is of the event at hand. */
  lemma {:induction false} StaysReported(c: Config, s: State, a: Ages, r: Record, n: nat, o: Outcome, a1: Ages, q: nat)
    requires o == ProcessTapping(c, s, r) && |a.decisions| == |s.calls| && KeepsMarks(s, r, o)
    requires a1.decisions == AgesOf(c, s, a, r, n).decisions
    requires ReportedTapped(s.calls, a.decisions, q) && (q == n ==> r.tap.count > 0)
    ensures ReportedTapped(o.state.calls, a1.decisions, q)
  {
    NumbersOfCalls(c, s, a, r, n, o.state.calls, a1.decisions);
  }

  /** The numbers and decisions of the calls after a step. */
  lemma {:induction false} NumbersOfCalls(c: Config, s: State, a: Ages, r: Record, n: nat, calls: seq<Call>,
                                          ds: seq<Decision>)
    requires calls == ProcessTapping(c, s, r).state.calls && |a.decisions| == |s.calls|
    requires ds == AgesOf(c, s, a, r, n).decisions
    ensures s.calls <= calls && |ds| == |calls|
    ensures forall m | 0 <= m < |calls| ::
      ds[m] == if m < |s.calls| then a.decisions[m]
               else if calls[m].origin.OfTappingKey? then DecisionOf(c, s, a, r, n) else NotOfKey(n)
  {
    ProcessTappingGrows(c, s, r);
    forall m | 0 <= m < |calls|
      ensures |ds| == |calls|
      ensures ds[m] == if m < |s.calls| then a.decisions[m]
                       else if calls[m].origin.OfTappingKey? then DecisionOf(c, s, a, r, n) else NotOfKey(n)
    {
      MarkedAt(s, a, calls, DecisionOf(c, s, a, r, n), n, m);
    }
    if calls == [] { assert ds == []; }
  }

  /** A step that settles a key reports nothing else but a release it makes up. */
  lemma {:induction false} VerdictStandsAlone(c: Config, s: State, r: Record, calls: seq<Call>, i: nat)
    requires Untouched(r) && calls == ProcessTapping(c, s, r).state.calls
    requires s.calls <= calls && |s.calls| <= i < |calls| && calls[i].origin.OfTappingKey?
    ensures SettlesOne(c, s, r) && forall m | |s.calls| <= m < |calls| :: !calls[m].origin.OfEvent?
  {
    ProcessTappingCalls(c, s, r);
    StepHasShape(c, s, r);
    if calls == s.calls + [calls[i]] {} else { assert Decided(s, ProcessTapping(c, s, r).state); }
  }

  /** A tap that the step reports: what made it one waits, and has not been reported. */
  lemma {:induction false} NewTapStays(c: Config, es: seq<Event>, s: State, a: Ages, r: Record, n: nat, o: Outcome,
                                       s1: State, a1: Ages, i: nat)
    requires Numbered(es, s, a) && Untouched(r) && o == ProcessTapping(c, s, r)
    requires MarksCause(c, s, r, o) && Carries(s, a, n, o, s1, a1)
    requires a1.decisions == AgesOf(c, s, a, r, n).decisions && !Reported(a.decisions, n)
    requires NoneWaitsReported(a) && (n in a.waiting ==> a.waiting[0] == n && s.buffer[0] == r)
    requires |s.calls| <= i && IsVerdictTapped(s1.calls, a1.decisions, i)
    ensures WaitsTapped(s1, a1, a1.decisions[i].cause)
    ensures ReportedTapped(s1.calls, a1.decisions, a1.decisions[i].cause)
  {
    NumbersOfCalls(c, s, a, r, n, o.state.calls, a1.decisions);
    VerdictStandsAlone(c, s, r, o.state.calls, i);
    var q := a1.decisions[i].cause;
    if s.Undecided() {
      assert q == n;
    } else {
      var k := FindTap(c, ScanState(s, r), 0);
      assert q == a.waiting[k] && !s.buffer[k].event.pressed && r.event.pressed;
      assert q in a.waiting && q != n;
    }
    assert !Reported(a.decisions, q);
    forall m | 0 <= m < |s1.calls| && s1.calls[m].origin.OfEvent? ensures a1.decisions[m].Source() != q {
      assert m < |s.calls|;
      assert a.decisions[m].Source() != q;
    }
    forall b | 0 <= b < |a1.waiting| && a1.waiting[b] == q ensures s1.buffer[b].tap.count > 0 {
      if !(a1.waiting[b] == n && s1.buffer[b] == o.keyp) {
        var b0 :| IsCarried(s, a, n, o, s1, a1, b, b0);
        assert !s.Undecided();
        var k := FindTap(c, ScanState(s, r), 0);
        assert a.waiting[b0] == a.waiting[k];
        assert b0 == k;
      }
    }
  }

  lemma {:induction false} StepStaysTapped(c: Config, es: seq<Event>, s: State, a: Ages, r: Record, n: nat, o: Outcome,
                                           s1: State, a1: Ages)
    requires Numbered(es, s, a) && |a.decisions| == |s.calls| && Untouched(r) && o == ProcessTapping(c, s, r)
    requires Carries(s, a, n, o, s1, a1) && a1.decisions == AgesOf(c, s, a, r, n).decisions
    requires NoneWaitsReported(a) && !Reported(a.decisions, n)
    requires n in a.waiting ==> a.waiting[0] == n && s.buffer[0] == r
    requires n !in a.waiting ==>
      forall i | 0 <= i < |a.decisions| && a.decisions[i].Settled? :: a.decisions[i].cause < n
    requires StaysTapped(s, a)
    ensures StaysTapped(s1, a1)
  {
    StepKeepsMarks(c, s, r);
    NumbersOfCalls(c, s, a, r, n, o.state.calls, a1.decisions);
    forall i: nat | IsVerdictTapped(s1.calls, a1.decisions, i)
      ensures WaitsTapped(s1, a1, a1.decisions[i].cause)
      ensures ReportedTapped(s1.calls, a1.decisions, a1.decisions[i].cause)
    {
      if i < |s.calls| {
        assert IsVerdictTapped(s.calls, a.decisions, i);
        var q := a.decisions[i].cause;
        StaysMarked(s, a, r, n, o, s1, a1, q);
        StaysReported(c, s, a, r, n, o, a1, q);
      } else {
        NewTapStays(c, es, s, a, r, n, o, s1, a1, i);
      }
    }
  }

  // ---------------------------------------------------------------------- whole runs

  lemma {:induction false} RoundCarries(s: State, a: Ages, o: Outcome, s1: State, a1: Ages)
    requires |a.waiting| == |s.buffer| == |o.state.buffer| > 0 && s1 == AfterRound(o)
    requires forall i, j | 0 <= i < j < |a.waiting| :: a.waiting[i] < a.waiting[j]
    requires a1.waiting == if o.done then a.waiting[1..] else a.waiting
    ensures Carries(s, a, a.waiting[0], o, s1, a1)
  {
    var n := a.waiting[0];
    forall b | 0 <= b < |s1.buffer|
      ensures (a1.waiting[b] == n && s1.buffer[b] == o.keyp) || exists b0 :: IsCarried(s, a, n, o, s1, a1, b, b0)
    {
      if o.done {
        assert IsCarried(s, a, n, o, s1, a1, b, b + 1);
      } else if b > 0 {
        assert IsCarried(s, a, n, o, s1, a1, b, b);
      }
    }
  }

  lemma {:induction false} RoundStaysTapped(c: Config, es: seq<Event>, s: State, a: Ages, s1: State, a1: Ages)
    requires Known(c, es, s, a) && s.buffer != [] && NoneWaitsReported(a) && StaysTapped(s, a)
    requires IsRound(c, s, a, s1, a1)
    ensures StaysTapped(s1, a1)
  {
    var o := ProcessTapping(c, s, s.buffer[0]);
    KeepsWaitingEvents(c, s, s.buffer[0]);
    RoundCarries(s, a, o, s1, a1);
    assert a.waiting[0] in a.waiting;
    StepStaysTapped(c, es, s, a, s.buffer[0], a.waiting[0], o, s1, a1);
  }

  /** One round of draining, with all that is known of it. */
  lemma {:induction false} TappedRound(c: Config, es: seq<Event>, s: State, a: Ages)
    returns (s1: State, a1: Ages, done: bool)
    requires Known(c, es, s, a) && s.buffer != [] && NoTicksWait(s) && Fine(c, es, s, a) && StaysTapped(s, a)
    ensures Drain(c, s) == (if done then Drain(c, s1) else s1)
    ensures |a1.waiting| == |s1.buffer| && DrainAges(c, s, a) == (if done then DrainAges(c, s1, a1) else a1)
    ensures Known(c, es, s1, a1) && NoTicksWait(s1) && Fine(c, es, s1, a1) && StaysTapped(s1, a1)
    ensures done ==> |s1.buffer| < |s.buffer|
  {
    s1, a1, done := RoundStands(c, es, s, a);
    RoundStaysTapped(c, es, s, a, s1, a1);
  }

  lemma {:induction false} DrainStaysTapped(c: Config, es: seq<Event>, s: State, a: Ages)
    requires Known(c, es, s, a) && NoTicksWait(s) && Fine(c, es, s, a) && StaysTapped(s, a)
    ensures StaysTapped(Drain(c, s), DrainAges(c, s, a))
    decreases |s.buffer|
  {
    if s.buffer != [] {
      var s1, a1, done := TappedRound(c, es, s, a);
      if done { DrainStaysTapped(c, es, s1, a1); }
    }
  }

  /** After an overflow nothing waits; what was reported stays reported. */
  lemma {:induction false} OfferCarries(c: Config, s: State, a: Ages, r: Record, n: nat, o: Outcome, s1: State,
                                        a1: Ages)
    requires |a.waiting| == |s.buffer| && o == ProcessTapping(c, s, r) && n !in a.waiting
    requires s1 == Offer(c, s, r) && a1 == OfferAges(c, s, a, r, n)
    ensures Carries(s, a, n, o, s1, a1) && a1.decisions == AgesOf(c, s, a, r, n).decisions
  {
    KeepsWaitingEvents(c, s, r);
    forall b | 0 <= b < |s1.buffer|
      ensures (a1.waiting[b] == n && s1.buffer[b] == o.keyp) || exists b0 :: IsCarried(s, a, n, o, s1, a1, b, b0)
    {
      if b < |s.buffer| {
        assert a.waiting[b] in a.waiting;
        assert IsCarried(s, a, n, o, s1, a1, b, b);
      }
    }
  }

  lemma {:induction false} OfferStaysTapped(c: Config, earlier: seq<Event>, s: State, a: Ages, e: Event)
    requires Known(c, earlier, s, a) && NoneWaitsReported(a) && StaysTapped(s, a)
    ensures StaysTapped(Offer(c, s, Fresh(e)), OfferAges(c, s, a, Fresh(e), |earlier|))
  {
    var r, n := Fresh(e), |earlier|;
    forall i | 0 <= i < |s.calls|
      ensures a.decisions[i].Source() < n && (a.decisions[i].Settled? ==> a.decisions[i].cause < n)
    {
      assert Grounded(c, earlier, s.calls[..i], s.calls[i], a.decisions[i]);
    }
    OfferCarries(c, s, a, r, n, ProcessTapping(c, s, r), Offer(c, s, r), OfferAges(c, s, a, r, n));
    StepStaysTapped(c, earlier, s, a, r, n, ProcessTapping(c, s, r), Offer(c, s, r), OfferAges(c, s, a, r, n));
  }

  ghost predicate RunStaysTapped(c: Config, es: seq<Event>) { StaysTapped(Run(c, es), RunAges(c, es)) }

  lemma {:induction false} OneMoreStaysTapped(c: Config, earlier: seq<Event>, e: Event)
    requires RunStaysTapped(c, earlier)
    ensures RunStaysTapped(c, earlier + [e])
  {
    var s, a := Run(c, earlier), RunAges(c, earlier);
    EveryCallIsJustified(c, earlier);
    EveryRunStands(c, earlier);
    ExactlyOnce(c, earlier, e);
    RunOneMore(c, earlier, e);
    OfferStands(c, earlier, s, a, e);
    OfferKeepsTicksOut(c, s, Fresh(e));
    OfferStaysTapped(c, earlier, s, a, e);
    DrainStaysTapped(c, earlier + [e], Offer(c, s, Fresh(e)), OfferAges(c, s, a, Fresh(e), |earlier|));
  }

  lemma {:induction false} EveryRunStaysTapped(c: Config, es: seq<Event>)
    ensures RunStaysTapped(c, es)
  {
    var tapped := (xs: seq<Event>) => RunStaysTapped(c, xs);
    assert RunStaysTapped(c, []);
    forall earlier, e | tapped(earlier) ensures tapped(earlier + [e]) { OneMoreStaysTapped(c, earlier, e); }
    OneByOne(tapped, es);
  }

  /** In every run: if the `i`-th call reports a key tapped, and the `m`-th the release that made it so, then
      this is a release of the same key, and reported as tapped. */
  lemma {:induction false} TapsAreReleasedAsTaps(c: Config, es: seq<Event>, i: nat, m: nat)
    requires var calls := Run(c, es).calls;
      && i < |calls| && calls[i].origin.OfTappingKey? && calls[i].record.tap.count == 1
      && m < |calls| && calls[m].origin.OfEvent?
    ensures var calls, ds := Run(c, es).calls, RunAges(c, es).decisions;
      && |ds| == |calls| && ds[i].Settled?
      && (ds[m].Source() == ds[i].cause ==>
            !calls[m].record.event.pressed && calls[m].record.event.key == calls[i].record.event.key
            && calls[m].record.tap.count > 0)
  {
    var calls, ds := Run(c, es).calls, RunAges(c, es).decisions;
    EveryCallIsJustified(c, es);
    EveryRunStaysTapped(c, es);
    assert Grounded(c, es, calls[..i], calls[i], ds[i]) && Grounded(c, es, calls[..m], calls[m], ds[m]);
    assert IsVerdictTapped(calls, ds, i);
  }
}
