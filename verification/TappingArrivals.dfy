/** Which arrival decided what.  Beside the resolver's state this keeps the arrival numbers of
    the tapping key and of the waiting records, and for each call with the tapping key the
    number of the event that settled it (quantum/action_tapping.c:80-113, 193-349, 501-521). */
module TappingArrivals {
  import opened KeyEvents
  import opened Tapping
  import opened TappingConservation
  import opened TappingOrder
  import opened TappingDecisions

  /** Of each call by arrival number: the event it is about, or for a tapping key its press, settled
      by an event while `others` waited. */
  datatype Decision = NotOfKey(event: nat) | Settled(press: nat, cause: nat, others: seq<nat>) {
    function Source(): nat { if Settled? then press else event }
  }

  /** The arrival numbers of what a state holds, the decisions of its calls, and how many events
      had arrived when an overflow last dropped some. */
  datatype Ages = Ages(key: nat, waiting: seq<nat>, decisions: seq<Decision>, lost: nat)

  const NEW_BORN := Ages(0, [], [], 0)

  // ------------------------------------------------------------------- keeping count

  /** The state in which waiting_buffer_scan_tap looks for the release of the new tapping key `r`. */
  function ScanState(s: State, r: Record): State {
    (if !s.IsReset() && s.tapping.event.pressed then ReleaseLastTap(s, r.event.time) else s).(tapping := r)
  }

  /** What settles a key that process_tapping settles at the `n`-th arrival `r`: that arrival, or
      for a key that starts with it the first of its own releases that waits. */
  function DecisionOf(c: Config, s: State, a: Ages, r: Record, n: nat): Decision {
    if s.Undecided() then Settled(a.key, n, a.waiting)
    else
      var k := FindTap(c, ScanState(s, r), 0);
      Settled(n, if k < |a.waiting| then a.waiting[k] else n, [])
  }

  function Marked(calls: seq<Call>, d: Decision, n: nat): (ds: seq<Decision>)
    ensures |ds| == |calls|
  {
    seq(|calls|, i requires 0 <= i < |calls| => if calls[i].origin.OfTappingKey? then d else NotOfKey(n))
  }

  /** After process_tapping of `r`, the `n`-th arrival. */
  function AgesOf(c: Config, s: State, a: Ages, r: Record, n: nat): Ages {
    ProcessTappingGrows(c, s, r);
    var calls := ProcessTapping(c, s, r).state.calls;
    Ages(if s.Undecided() then a.key else n, a.waiting,
         a.decisions + Marked(calls[|s.calls|..], DecisionOf(c, s, a, r, n), n), a.lost)
  }

  function AgesAfterRound(c: Config, s: State, a: Ages): Ages
    requires s.buffer != [] && |a.waiting| == |s.buffer|
  {
    var a' := AgesOf(c, s, a, s.buffer[0], a.waiting[0]);
    if ProcessTapping(c, s, s.buffer[0]).done then a'.(waiting := a'.waiting[1..]) else a'
  }

  function DrainAges(c: Config, s: State, a: Ages): Ages
    requires |a.waiting| == |s.buffer|
    decreases |s.buffer|
  {
    if s.buffer == [] then a
    else
      var o := ProcessTapping(c, s, s.buffer[0]);
      KeepsWaitingEvents(c, s, s.buffer[0]);
      if o.done then DrainAges(c, AfterRound(o), AgesAfterRound(c, s, a)) else AgesAfterRound(c, s, a)
  }

  function OfferAges(c: Config, s: State, a: Ages, r: Record, n: nat): (a': Ages)
    requires |a.waiting| == |s.buffer|
    ensures |a'.waiting| == |Offer(c, s, r).buffer|
  {
    KeepsWaitingEvents(c, s, r);
    var o, a' := ProcessTapping(c, s, r), AgesOf(c, s, a, r, n);
    if o.done || r.event.IsTick() then a'
    else if Overflows(o.state, o.keyp) then a'.(waiting := [], lost := n + 1)
    else a'.(waiting := a'.waiting + [n])
  }

  function CallAges(c: Config, s: State, a: Ages, r: Record, n: nat): Ages
    requires |a.waiting| == |s.buffer|
  {
    DrainAges(c, Offer(c, s, r), OfferAges(c, s, a, r, n))
  }

  /** After the whole run; the numbers are positions in `es`. */
  function RunAges(c: Config, es: seq<Event>): (a: Ages) {
    if es == [] then NEW_BORN
    else
      var earlier := es[..|es| - 1];
      var a := RunAges(c, earlier);
      if |a.waiting| == |Run(c, earlier).buffer|
      then CallAges(c, Run(c, earlier), a, Fresh(es[|es| - 1]), |es| - 1)
      else a
  }

  // ------------------------------------------------------------- what the numbers mean

  ghost predicate Numbered(es: seq<Event>, s: State, a: Ages) {
    && |a.waiting| == |s.buffer| && |a.decisions| == |s.calls|
    && (forall i | 0 <= i < |a.waiting| :: a.waiting[i] < |es| && es[a.waiting[i]] == s.buffer[i].event)
    && (forall i, j | 0 <= i < j < |a.waiting| :: a.waiting[i] < a.waiting[j])
    && (s.Undecided() ==> a.key < |es| && es[a.key] == s.tapping.event && a.key !in a.waiting)
    && (s.Undecided() && s.tapping.tap.interrupted ==> SomePressWaits(s.buffer))
  }

  ghost predicate SomePressWaits(buffer: seq<Record>) {
    exists i | 0 <= i < |buffer| :: buffer[i].event.pressed && !buffer[i].event.IsTick()
  }

  ghost predicate AllBelow(ns: seq<nat>, n: nat) { forall i | 0 <= i < |ns| :: ns[i] < n }

  function Arrivals(es: seq<Event>, ns: seq<nat>): (xs: seq<Event>)
    requires AllBelow(ns, |es|)
  {
    seq(|ns|, i requires 0 <= i < |ns| => es[ns[i]])
  }

  /** The decision fits its call: the numbered events are the press and what settled it. */
  ghost predicate Grounded(c: Config, es: seq<Event>, before: seq<Call>, call: Call, d: Decision) {
    if call.origin.OfTappingKey? then
      && d.Settled? && d.press < |es| && d.cause < |es| && AllBelow(d.others, |es|)
      && es[d.press] == call.record.event && call.record.event.pressed
      && Decides(c, Arrivals(es, d.others), before, call.record, es[d.cause])
      && (call.record.tap == Tap(true, 1) ==> exists i | 0 <= i < |d.others| :: es[d.others[i]].pressed)
    else
      && d.NotOfKey? && d.event < |es| && (call.origin.OfEvent? ==> es[d.event] == call.record.event)
  }

  /** A hold inside its term, settled by the release of another key. */
  ghost predicate IsNested(c: Config, es: seq<Event>, before: seq<Call>, call: Call, d: Decision)
    requires d.Settled? && d.cause < |es|
  {
    && call.record.tap.count == 0 && !es[d.cause].pressed && es[d.cause].key != call.record.event.key
    && TimerDiff16(es[d.cause].time, call.record.event.time) < c.tappingTerm(before, call.record)
  }

  /** The press of the key that the cause releases came in between. */
  ghost predicate HasInnerPress(es: seq<Event>, d: Decision)
    requires d.Settled? && d.cause < |es| && AllBelow(d.others, |es|)
  {
    exists i | 0 <= i < |d.others| ::
      d.press < d.others[i] < d.cause && es[d.others[i]].pressed && es[d.others[i]].key == es[d.cause].key
  }

  ghost predicate Timely(d: Decision) { d.Settled? ==> d.press < d.cause }

  /** What settled the press came after it, and a nested tap lies wholly inside. */
  ghost predicate Proper(c: Config, es: seq<Event>, before: seq<Call>, call: Call, d: Decision)
    requires Grounded(c, es, before, call, d)
  {
    Timely(d) && (d.Settled? && IsNested(c, es, before, call, d) ==> HasInnerPress(es, d))
  }

  ghost predicate AllGrounded(c: Config, es: seq<Event>, calls: seq<Call>, ds: seq<Decision>) {
    |ds| == |calls| && forall i | 0 <= i < |calls| :: Grounded(c, es, calls[..i], calls[i], ds[i])
  }

  ghost predicate AllProper(c: Config, es: seq<Event>, calls: seq<Call>, ds: seq<Decision>)
    requires AllGrounded(c, es, calls, ds)
  {
    forall i | 0 <= i < |calls| :: Proper(c, es, calls[..i], calls[i], ds[i])
  }

  // ----------------------------------------------------------- when a step settles a key

  ghost predicate Settles(c: Config, s: State, r: Record) {
    !WithinTappingTerm(c, s, r.event) || SettlesInTerm(c, s, r)
  }

  /** `r` makes a new tapping key that looks for its release among those waiting. */
  ghost predicate StartsScan(c: Config, s: State, r: Record) {
    && !s.Undecided() && r.event.pressed && IsTapRecord(c, s, r)
    && (s.IsReset() || s.tapping.event.pressed || (WithinTappingTerm(c, s, r.event) && !IsTappingRecord(s, r)))
  }

  ghost predicate ScanFinds(c: Config, s: State, r: Record) {
    StartsScan(c, s, r) && FindTap(c, ScanState(s, r), 0) < |s.buffer|
  }

  ghost predicate SettlesOne(c: Config, s: State, r: Record) {
    if s.Undecided() then Settles(c, s, r) else ScanFinds(c, s, r)
  }

  /** The release `r` completes a nested tap of the undecided key. */
  ghost predicate SettlesNested(c: Config, s: State, r: Record) {
    && WithinTappingTerm(c, s, r.event) && !r.event.IsTick() && !r.event.pressed && r.event.key != s.tapping.event.key
    && Typed(s.buffer, r.event) && c.permissiveHold(s.calls, s.tapping)
  }

  /** The call that settles a key, at the end of the calls a step makes. */
  ghost predicate IsVerdict(c: Config, s: State, r: Record, before: seq<Call>, call: Call) {
    && call.origin.OfTappingKey? && call.record.event.pressed
    && if s.Undecided() then
         && before == s.calls && call.record.event == s.tapping.event
         && (call.record.tap.count == 1 ==> call.record.tap.interrupted == s.tapping.tap.interrupted)
         && Decides(c, EventsOf(s.buffer), before, call.record, r.event)
         && (SettlesNested(c, s, r) <==>
               call.record.tap.count == 0 && !r.event.pressed && r.event.key != s.tapping.event.key
               && TimerDiff16(r.event.time, s.tapping.event.time) < c.tappingTerm(before, call.record))
       else
         var k := FindTap(c, ScanState(s, r), 0);
         && call.record.event == r.event && call.record.tap == Tap(false, 1)
         && k < |s.buffer| && Taps(c, before, Uncounted(call.record), s.buffer[k].event)
  }

  /** These calls settle nothing, and are about the event `e` or made up. */
  ghost predicate NoVerdicts(calls: seq<Call>, from: nat, to: nat, e: Event)
    requires to <= |calls|
  {
    forall i | from <= i < to ::
      !calls[i].origin.OfTappingKey? && (calls[i].origin.OfEvent? ==> calls[i].record.event == e)
  }

  /** The calls of a step: at most one settles a key, the last, and that exactly when SettlesOne says so. */
  ghost predicate StepCalls(c: Config, s: State, r: Record, calls: seq<Call>) {
    && s.calls <= calls
    && if SettlesOne(c, s, r) then
         && |s.calls| < |calls| && NoVerdicts(calls, |s.calls|, |calls| - 1, r.event)
         && IsVerdict(c, s, r, calls[..|calls| - 1], calls[|calls| - 1])
       else NoVerdicts(calls, |s.calls|, |calls|, r.event)
  }

  lemma {:induction false} UndecidedCalls(c: Config, s: State, r: Record)
    requires s.Undecided() && WithinTappingTerm(c, s, r.event) && !r.event.IsTick()
    ensures StepCalls(c, s, r, ProcessUndecided(c, s, r).state.calls)
  {
    var calls, event := ProcessUndecided(c, s, r).state.calls, r.event;
    if SettlesInTerm(c, s, r) {
      var call := calls[|s.calls|];
      assert calls == s.calls + [call] && calls[..|s.calls|] == s.calls;
      if IsTappingRecord(s, r) && !event.pressed {
        assert Uncounted(call.record) == s.tapping;
      } else if !event.pressed {
        var k :| 0 <= k < |s.buffer| && s.buffer[k].event.key == event.key && s.buffer[k].event.pressed;
        assert EventsOf(s.buffer)[k] == s.buffer[k].event;
      }
    }
  }

  lemma {:induction false} ScanCalls(c: Config, s: State, r: Record)
    requires StartsScan(c, s, r) && r.tap == NO_TAP
    ensures StepCalls(c, s, r, ScanTap(c, ScanState(s, r)).calls)
  {
    var s1 := ScanState(s, r);
    var calls := ScanTap(c, s1).calls;
    if ScanFinds(c, s, r) {
      var tapped := r.(tap := r.tap.(count := 1));
      assert Uncounted(tapped) == r;
      assert calls == s1.calls + [Call(OfTappingKey, tapped)] && calls[..|s1.calls|] == s1.calls;
    }
  }

  lemma {:induction false} ProcessTappingCalls(c: Config, s: State, r: Record)
    requires Untouched(r)
    ensures StepCalls(c, s, r, ProcessTapping(c, s, r).state.calls)
  {
    var calls := ProcessTapping(c, s, r).state.calls;
    if s.Undecided() && !WithinTappingTerm(c, s, r.event) {
      assert calls == s.calls + [Call(OfTappingKey, s.tapping)] && calls[..|s.calls|] == s.calls;
    } else if r.event.IsTick() {
    } else if s.Undecided() {
      UndecidedCalls(c, s, r);
    } else if StartsScan(c, s, r) {
      ScanCalls(c, s, r);
    }
  }

  // -------------------------------------------------------------------------- one step

  /** The decisions of a step, on the calls it made. */
  ghost predicate StepMarks(c: Config, s: State, a: Ages, r: Record, n: nat, calls: seq<Call>, ds: seq<Decision>)
    requires s.calls <= calls
  {
    ds == a.decisions + Marked(calls[|s.calls|..], DecisionOf(c, s, a, r, n), n)
  }

  lemma {:induction false} MarkedAt(s: State, a: Ages, calls: seq<Call>, d: Decision, n: nat, i: nat)
    requires s.calls <= calls && |a.decisions| == |s.calls| && i < |calls|
    ensures var ds := a.decisions + Marked(calls[|s.calls|..], d, n);
      |ds| == |calls|
      && ds[i] == if i < |s.calls| then a.decisions[i] else if calls[i].origin.OfTappingKey? then d else NotOfKey(n)
  {
  }

  lemma {:induction false} ArrivalsAreWaiting(es: seq<Event>, s: State, a: Ages)
    requires Numbered(es, s, a)
    ensures AllBelow(a.waiting, |es|) && Arrivals(es, a.waiting) == EventsOf(s.buffer)
  {
  }

  lemma {:induction false} VerdictIsGrounded(c: Config, es: seq<Event>, s: State, a: Ages, r: Record, n: nat,
                                            before: seq<Call>, call: Call)
    requires Numbered(es, s, a) && n < |es| && es[n] == r.event
    requires SettlesOne(c, s, r) && IsVerdict(c, s, r, before, call)
    ensures Grounded(c, es, before, call, DecisionOf(c, s, a, r, n))
  {
    ArrivalsAreWaiting(es, s, a);
  }

  lemma {:induction false} StepIsGrounded(c: Config, es: seq<Event>, s: State, a: Ages, r: Record, n: nat,
                                         calls: seq<Call>, ds: seq<Decision>)
    requires Numbered(es, s, a) && n < |es| && es[n] == r.event && AllGrounded(c, es, s.calls, a.decisions)
    requires StepCalls(c, s, r, calls) && StepMarks(c, s, a, r, n, calls, ds)
    ensures AllGrounded(c, es, calls, ds)
  {
    var d := DecisionOf(c, s, a, r, n);
    if calls == s.calls { assert Marked([], d, n) == [] && ds == a.decisions; }
    forall i | 0 <= i < |calls| ensures |ds| == |calls| && Grounded(c, es, calls[..i], calls[i], ds[i]) {
      MarkedAt(s, a, calls, d, n, i);
      if i < |s.calls| {
        assert calls[..i] == s.calls[..i];
      } else if SettlesOne(c, s, r) && i == |calls| - 1 {
        VerdictIsGrounded(c, es, s, a, r, n, calls[..i], calls[i]);
      }
    }
  }

  /** The press that `r` releases waits, and came after the tapping key and before `n`. */
  ghost predicate InnerPressWaits(s: State, a: Ages, r: Record, n: nat)
    requires |a.waiting| == |s.buffer|
  {
    exists i | 0 <= i < |s.buffer| ::
      a.key < a.waiting[i] < n && s.buffer[i].event.pressed && s.buffer[i].event.key == r.event.key
  }

  /** The step settles a key by an arrival that is not later, or by a release whose press is not inside. */
  ghost predicate StepErrs(c: Config, s: State, a: Ages, r: Record, n: nat)
    requires |a.waiting| == |s.buffer|
  {
    && SettlesOne(c, s, r)
    && if s.Undecided() then n <= a.key || (SettlesNested(c, s, r) && !InnerPressWaits(s, a, r, n))
       else a.waiting[FindTap(c, ScanState(s, r), 0)] <= n
  }

  lemma {:induction false} VerdictIsProper(c: Config, es: seq<Event>, s: State, a: Ages, r: Record, n: nat,
                                          before: seq<Call>, call: Call)
    requires Numbered(es, s, a) && n < |es| && es[n] == r.event
    requires SettlesOne(c, s, r) && IsVerdict(c, s, r, before, call)
    requires Grounded(c, es, before, call, DecisionOf(c, s, a, r, n))
    ensures Proper(c, es, before, call, DecisionOf(c, s, a, r, n)) <==> !StepErrs(c, s, a, r, n)
  {
    var d := DecisionOf(c, s, a, r, n);
    if s.Undecided() {
      assert IsNested(c, es, before, call, d) <==> SettlesNested(c, s, r);
      assert HasInnerPress(es, d) <==> InnerPressWaits(s, a, r, n) by {
        if InnerPressWaits(s, a, r, n) {
          var i :| 0 <= i < |s.buffer| && a.key < a.waiting[i] < n
                   && s.buffer[i].event.pressed && s.buffer[i].event.key == r.event.key;
          assert d.others[i] == a.waiting[i];
        }
      }
    }
  }

  /** The calls made before the step are judged as before, and of its own only a verdict can be wrong. */
  lemma {:induction false} EarlierIsProperAlike(c: Config, es: seq<Event>, s: State, a: Ages, r: Record, n: nat,
                                               calls: seq<Call>, ds: seq<Decision>, i: nat)
    requires |a.decisions| == |s.calls| && AllGrounded(c, es, s.calls, a.decisions) && i < |calls|
    requires StepCalls(c, s, r, calls) && StepMarks(c, s, a, r, n, calls, ds) && AllGrounded(c, es, calls, ds)
    ensures i < |s.calls| ==> (Proper(c, es, calls[..i], calls[i], ds[i])
                               <==> Proper(c, es, s.calls[..i], s.calls[i], a.decisions[i]))
    ensures |s.calls| <= i && !(SettlesOne(c, s, r) && i == |calls| - 1) ==> Proper(c, es, calls[..i], calls[i], ds[i])
  {
    MarkedAt(s, a, calls, DecisionOf(c, s, a, r, n), n, i);
    if i < |s.calls| { assert calls[..i] == s.calls[..i]; }
  }

  lemma {:induction false} LastIsProper(c: Config, es: seq<Event>, s: State, a: Ages, r: Record, n: nat,
                                       calls: seq<Call>, ds: seq<Decision>)
    requires Numbered(es, s, a) && n < |es| && es[n] == r.event && SettlesOne(c, s, r)
    requires StepCalls(c, s, r, calls) && StepMarks(c, s, a, r, n, calls, ds) && AllGrounded(c, es, calls, ds)
    ensures var last := |calls| - 1;
      |s.calls| <= last && (Proper(c, es, calls[..last], calls[last], ds[last]) <==> !StepErrs(c, s, a, r, n))
  {
    var last := |calls| - 1;
    MarkedAt(s, a, calls, DecisionOf(c, s, a, r, n), n, last);
    VerdictIsProper(c, es, s, a, r, n, calls[..last], calls[last]);
  }

  lemma {:induction false} StepIsProperExactlyWhen(c: Config, es: seq<Event>, s: State, a: Ages, r: Record, n: nat,
                                                  calls: seq<Call>, ds: seq<Decision>)
    requires Numbered(es, s, a) && n < |es| && es[n] == r.event && AllGrounded(c, es, s.calls, a.decisions)
    requires StepCalls(c, s, r, calls) && StepMarks(c, s, a, r, n, calls, ds) && AllGrounded(c, es, calls, ds)
    ensures AllProper(c, es, calls, ds) <==> AllProper(c, es, s.calls, a.decisions) && !StepErrs(c, s, a, r, n)
  {
    if SettlesOne(c, s, r) { LastIsProper(c, es, s, a, r, n, calls, ds); }
    if AllProper(c, es, calls, ds) {
      forall i | 0 <= i < |s.calls| ensures Proper(c, es, s.calls[..i], s.calls[i], a.decisions[i]) {
        EarlierIsProperAlike(c, es, s, a, r, n, calls, ds, i);
      }
    }
    if AllProper(c, es, s.calls, a.decisions) && !StepErrs(c, s, a, r, n) {
      forall i | 0 <= i < |calls| ensures Proper(c, es, calls[..i], calls[i], ds[i]) {
        EarlierIsProperAlike(c, es, s, a, r, n, calls, ds, i);
      }
    }
  }

  /** Only the event at hand can become undecided, and then it is consumed. */
  lemma {:induction false} OnlyTheEventStarts(c: Config, s: State, r: Record)
    requires ProcessTapping(c, s, r).state.Undecided()
    ensures s.Undecided() ==> ProcessTapping(c, s, r).state.tapping.event == s.tapping.event
    ensures !s.Undecided() ==> ProcessTapping(c, s, r).state.tapping.event == r.event && ProcessTapping(c, s, r).done
  {
  }

  /** What a step does to the places of the events, `o` being its outcome. */
  ghost predicate KeepsPlaces(s: State, first: Event, o: Outcome) {
    && SameEvents(o.state.buffer, s.buffer) && o.keyp.event == first
    && (o.state.Undecided() ==>
          if s.Undecided() then
            && o.state.tapping.event == s.tapping.event && (o.done ==> first.IsTick() || !first.pressed)
            && (o.state.tapping.tap.interrupted ==>
                  s.tapping.tap.interrupted || (first.pressed && !first.IsTick() && !o.done))
          else o.state.tapping.event == first && o.done && !o.state.tapping.tap.interrupted)
  }

  lemma {:induction false} StepKeepsPlaces(c: Config, s: State, r: Record)
    requires Untouched(r)
    ensures KeepsPlaces(s, r.event, ProcessTapping(c, s, r))
  {
    KeepsWaitingEvents(c, s, r);
    if ProcessTapping(c, s, r).state.Undecided() { OnlyTheEventStarts(c, s, r); }
  }

  // ------------------------------------------------------------------------- draining

  lemma {:induction false} RoundIsNumbered(es: seq<Event>, s: State, a: Ages, o: Outcome, ds: seq<Decision>)
    requires s.buffer != [] && Numbered(es, s, a) && KeepsPlaces(s, s.buffer[0].event, o) && |ds| == |o.state.calls|
    ensures Numbered(es, AfterRound(o),
      Ages(if s.Undecided() then a.key else a.waiting[0], if o.done then a.waiting[1..] else a.waiting, ds, a.lost))
  {
    var s' := AfterRound(o);
    var k := if o.done then 1 else 0;
    assert forall i | 0 <= i < |s'.buffer| :: s'.buffer[i].event == s.buffer[i + k].event;
  }

  /** Where draining stops the tapping key is settled, and by an arrival that is not later or by
      a release whose press waits behind it. */
  ghost predicate StopErrs(c: Config, s: State, a: Ages)
    requires |a.waiting| == |s.buffer|
  {
    && s.buffer != [] && s.Undecided() && Settles(c, s, s.buffer[0])
    && (a.waiting[0] < a.key || SettlesNested(c, s, s.buffer[0]))
  }

  lemma {:induction false} RoundErrs(c: Config, es: seq<Event>, s: State, a: Ages)
    requires Numbered(es, s, a) && s.buffer != []
    ensures StepErrs(c, s, a, s.buffer[0], a.waiting[0]) <==> StopErrs(c, s, a)
  {
    if s.Undecided() {
      assert a.waiting[0] in a.waiting;
    } else if ScanFinds(c, s, s.buffer[0]) {
      var k := FindTap(c, ScanState(s, s.buffer[0]), 0);
      assert !s.buffer[k].event.pressed && s.buffer[0].event.pressed;
    }
  }
}
