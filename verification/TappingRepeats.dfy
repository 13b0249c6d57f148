/** Repeated taps: a key pressed again quickly after an undisturbed tap is reported with the next
    tap count, so that the counts are those of the longest runs of quick taps
    (quantum/action_tapping.c:193-206, 342-349, 396-452). */
module TappingRepeats {
  import opened KeyEvents
  import opened Tapping
  import opened TappingConservation
  import opened TappingOrder
  import opened TappingDecisions
  import opened TappingArrivals
  import opened TappingVerdicts
  import opened Sequences

  // -------------------------------------------------------------------- one call

  /** The tapping key was tapped `n` times in a row, undisturbed, and is up. */
  ghost predicate TappedBefore(s: State, n: uint4) {
    !s.IsReset() && !s.tapping.event.pressed && s.tapping.tap == Tap(false, n) && n > 0
  }

  /** With nothing waiting, the next press of the key is reported at once, with the next count,
      if and only if it comes inside both terms; else no call is made, and the key starts anew. */
  lemma {:induction false} RepeatedExactlyWhen(c: Config, s: State, n: uint4, e: Event)
    requires TappedBefore(s, n) && s.buffer == []
    requires e.pressed && !e.IsTick() && e.key == s.tapping.event.key
    ensures var gap, s' := TimerDiff16(e.time, s.tapping.event.time), ActionTappingProcess(c, s, Fresh(e));
      && (s'.calls == s.calls + [Call(OfEvent, Record(e, Tap(false, OneMore(n))))]
          <==> gap < c.quickTapTerm(s.calls, s.tapping) && gap < c.tappingTerm(s.calls, s.tapping))
      && (s'.calls == s.calls + [Call(OfEvent, Record(e, Tap(false, OneMore(n))))]
          ==> s'.tapping == Record(e, Tap(false, OneMore(n))))
      && (gap >= c.quickTapTerm(s.calls, s.tapping) && gap < c.tappingTerm(s.calls, s.tapping)
          ==> s' == s.(tapping := Fresh(e)))
      && (gap >= c.tappingTerm(s.calls, s.tapping)
          ==> s' == ActionTappingProcess(c, s.(tapping := ZERO_RECORD), Fresh(e)))
  {
    var r, again := Fresh(e), Record(e, Tap(false, OneMore(n)));
    assert (s.calls + [Call(OfEvent, again)])[|s.calls|].record.tap.count > 0;
    assert (s.calls + [Call(OfEvent, r)])[|s.calls|].record.tap.count == 0;
    if TimerDiff16(e.time, s.tapping.event.time) >= c.tappingTerm(s.calls, s.tapping) {
      var rest := s.(tapping := ZERO_RECORD);
      assert Offer(c, s, r) == rest.(buffer := [r]);
      OfferedAtRest(c, rest, r);
    } else {
      assert Offer(c, s, r) == if TimerDiff16(e.time, s.tapping.event.time) < c.quickTapTerm(s.calls, s.tapping)
                               then Emit(s, OfEvent, again).(tapping := again) else s.(tapping := r);
    }
  }

  /** At rest it is all the same whether an event waits first or not. */
  lemma {:induction false} OfferedAtRest(c: Config, s: State, r: Record)
    requires s.buffer == [] && s.IsReset() && !r.event.IsTick()
    ensures Drain(c, s.(buffer := [r])) == ActionTappingProcess(c, s, r)
    ensures r.tap == NO_TAP && r.event.pressed ==>
      var calls := ActionTappingProcess(c, s, r).calls; calls == s.calls || calls == s.calls + [Call(OfEvent, r)]
  {
    var s1, scanning := s.(buffer := [r]), s.(tapping := r, buffer := [r]);
    if r.event.pressed && IsTapRecord(c, s, r) {
      assert FindTap(c, scanning, 0) == 1;
      assert AfterRound(ProcessTapping(c, s1, r)) == s.(tapping := r);
    } else {
      assert AfterRound(ProcessTapping(c, s1, r)) == Emit(s, OfEvent, r);
    }
  }

  /** A press of any key, or of the undecided key again, interrupts it if it does not decide it. */
  lemma {:induction false} PressInterrupts(c: Config, s: State, r: Record)
    requires s.Undecided() && r.event.pressed && !r.event.IsTick()
    requires TimerDiff16(r.event.time, s.tapping.event.time) < c.tappingTerm(s.calls, s.tapping)
    ensures var interrupted := s.tapping.(tap := Tap(true, 0));
      ProcessTapping(c, s, r)
      == if c.holdOnOtherPress(s.calls, interrupted)
         then Outcome(State(ZERO_RECORD, s.buffer, s.calls + [Call(OfTappingKey, interrupted)]), r, false)
         else Outcome(s.(tapping := interrupted), r, false)
  {
  }

  // ---------------------------------------------------------------- what a step can do

  /** The step makes calls, none of them for the event at hand; a press they report as a tap is the
      last, and the tapping key. */
  ghost predicate Decided(s: State, s': State) {
    && s.calls < s'.calls
    && forall i | |s.calls| <= i < |s'.calls| ::
         && !s'.calls[i].origin.OfEvent? && (s.Undecided() ==> s'.calls[i].origin.OfTappingKey?)
         && (s'.calls[i].record.IsPress() && s'.calls[i].record.tap.count > 0 ==> s'.tapping == s'.calls[i].record)
  }

  ghost predicate IsUp(s: State) { !s.IsReset() && !s.tapping.event.pressed }

  ghost predicate IsCounted(s: State) { !s.IsReset() && s.tapping.event.pressed && s.tapping.tap.count > 0 }

  /** The step makes no call: nothing happens, a key starts, or a released key's term is over. */
  ghost predicate Silent(c: Config, s: State, r: Record, s': State, done: bool) {
    s'.calls == s.calls
    && if s.Undecided() then s'.Undecided() && s'.tapping.event == s.tapping.event && (done ==> r.event.IsTick())
       else
         || (s'.tapping == s.tapping && r.event.IsTick() && done)
         || (done && r.event.pressed && s'.Undecided() && s'.tapping == r && StartsAnew(c, s, r))
         || (!done && s'.IsReset() && IsUp(s)
             && TimerDiff16(r.event.time, s.tapping.event.time) >= c.tappingTerm(s.calls, s.tapping))
  }

  /** If `r` presses a key that was just tapped, it comes late, or the tap was disturbed. */
  ghost predicate StartsAnew(c: Config, s: State, r: Record) {
    IsUp(s) && r.event.key == s.tapping.event.key && !s.tapping.tap.interrupted && s.tapping.tap.count > 0 ==>
      TimerDiff16(r.event.time, s.tapping.event.time) >= c.quickTapTerm(s.calls, s.tapping)
  }

  /** The step hands on the event at hand, with the tap state `x.tap`. */
  ghost predicate HandsOn(c: Config, s: State, r: Record, s': State, x: Record) {
    && s'.calls == s.calls + [Call(OfEvent, x)] && x.event == r.event
    && (x.IsPress() && x.tap.count > 0 ==> s'.tapping == x)
    && (s.Undecided() ==> s'.tapping == s.tapping && !x.IsPress() && x.event.key != s.tapping.event.key)
    && (s.IsReset() || (IsUp(s) && !x.IsPress()) ==> s'.tapping == s.tapping)
    && (IsCounted(s) ==>
          if !x.IsPress() && x.event.key == s.tapping.event.key
          then && x.tap == s.tapping.tap
               && (TimerDiff16(x.event.time, s.tapping.event.time) < c.tappingTerm(s.calls, s.tapping)
                   ==> s'.tapping == x)
          else s'.tapping == s.tapping)
  }

  /** One of these happens, and only a key that is decided, or a term that is over, leaves the event waiting. */
  ghost predicate StepShape(c: Config, s: State, r: Record, s': State, done: bool) {
    || (Decided(s, s') && (done <==> !s.Undecided()))
    || Silent(c, s, r, s', done)
    || (done && !r.event.IsTick() && exists x: Record :: HandsOn(c, s, r, s', x))
  }

  lemma {:induction false} UndecidedShape(c: Config, s: State, r: Record)
    requires Untouched(r) && s.Undecided() && WithinTappingTerm(c, s, r.event) && !r.event.IsTick()
    ensures var o := ProcessUndecided(c, s, r); StepShape(c, s, r, o.state, o.done)
  {
    var o := ProcessUndecided(c, s, r);
    if o.done { assert HandsOn(c, s, r, o.state, r); }
  }

  /** A new tapping key, after a release made up for the old one or not. */
  lemma {:induction false} ScanShape(c: Config, s: State, s0: State, r: Record)
    requires Untouched(r) && r.event.pressed && !r.event.IsTick() && s0.tapping == r
    requires s0.calls == s.calls || exists x: Record :: !x.IsPress() && s0.calls == s.calls + [Call(OfMadeUpRelease, x)]
    requires !s.Undecided() && StartsAnew(c, s, r)
    ensures StepShape(c, s, r, ScanTap(c, s0), true)
  {
    var s' := ScanTap(c, s0);
    if s'.calls == s0.calls == s.calls {
      assert Silent(c, s, r, s', true);
    } else {
      assert s'.calls == s0.calls || s'.calls == s0.calls + [Call(OfTappingKey, s'.tapping)];
      assert Decided(s, s');
    }
  }

  lemma {:induction false} WhileTappedShape(c: Config, s: State, r: Record)
    requires Untouched(r) && IsCounted(s) && !r.event.IsTick() && (r.event.pressed || !IsTappingRecord(s, r))
    ensures var o := ProcessWhileTapped(c, s, r); StepShape(c, s, r, o.state, o.done)
  {
    var o := ProcessWhileTapped(c, s, r);
    if IsTapRecord(c, s, r) && r.event.pressed {
      ScanShape(c, s, ReleaseLastTap(s, r.event.time).(tapping := r), r);
    } else {
      assert HandsOn(c, s, r, o.state, r);
    }
  }

  lemma {:induction false} AfterTapShape(c: Config, s: State, r: Record)
    requires Untouched(r) && IsUp(s) && !r.event.IsTick()
    ensures var o := ProcessAfterTap(c, s, r); StepShape(c, s, r, o.state, o.done)
  {
    var o := ProcessAfterTap(c, s, r);
    if r.event.pressed && !IsTappingRecord(s, r) && IsTapRecord(c, s, r) {
      ScanShape(c, s, s.(tapping := r), r);
    } else if o.state.calls != s.calls {
      assert HandsOn(c, s, r, o.state, o.keyp);
    }
  }

  lemma {:induction false} AtRestShape(c: Config, s: State, r: Record)
    requires Untouched(r) && s.IsReset()
    ensures var o := ProcessTapping(c, s, r); StepShape(c, s, r, o.state, o.done)
  {
    var o := ProcessTapping(c, s, r);
    if r.event.pressed && IsTapRecord(c, s, r) {
      ScanShape(c, s, s.(tapping := r), r);
    } else if !r.event.IsTick() {
      assert HandsOn(c, s, r, o.state, r);
    }
  }

  lemma {:induction false} ReleaseShape(c: Config, s: State, r: Record)
    requires IsCounted(s) && !r.event.IsTick() && !r.event.pressed && IsTappingRecord(s, r)
    ensures var o := ProcessTapping(c, s, r); StepShape(c, s, r, o.state, o.done)
  {
    var o := ProcessTapping(c, s, r);
    assert HandsOn(c, s, r, o.state, o.keyp);
  }

  lemma {:induction false} StepHasShape(c: Config, s: State, r: Record)
    requires Untouched(r)
    ensures var o := ProcessTapping(c, s, r); StepShape(c, s, r, o.state, o.done)
  {
    if s.Undecided() && !WithinTappingTerm(c, s, r.event) {
      assert Decided(s, ProcessTapping(c, s, r).state);
    } else if s.IsReset() {
      AtRestShape(c, s, r);
    } else if r.event.IsTick() {
    } else if s.Undecided() {
      UndecidedShape(c, s, r);
    } else if IsCounted(s) {
      if IsTappingRecord(s, r) && !r.event.pressed { ReleaseShape(c, s, r); } else { WhileTappedShape(c, s, r); }
    } else if WithinTappingTerm(c, s, r.event) {
      AfterTapShape(c, s, r);
    }
  }

  // ------------------------------------------------------------------- over whole runs

  /** Since the `j`-th call only releases were reported, all of events that arrived after its own. */
  ghost predicate QuietSince(calls: seq<Call>, ds: seq<Decision>, j: nat) {
    |ds| == |calls|
    && forall i | j < i < |calls| :: IsPlainRelease(calls[i]) && ds[i].Source() > ds[j].Source()
  }

  /** An undisturbed tap, and nothing of note since. */
  ghost predicate JustTapped(c: Config, calls: seq<Call>, ds: seq<Decision>, k: nat, j: nat) {
    IsTap(c, calls, k, j) && !calls[k].record.tap.interrupted && QuietSince(calls, ds, j)
  }

  /** `e` came at or past the quick-tap term of the release `up`, as asked after some of these calls. */
  ghost predicate IsSlow(c: Config, calls: seq<Call>, j: nat, e: Event) {
    exists m | j < m <= |calls| ::
      TimerDiff16(e.time, calls[j].record.event.time) >= c.quickTapTerm(calls[..m], calls[j].record)
  }

  /** The same of the tapping term. */
  ghost predicate IsOver(c: Config, calls: seq<Call>, j: nat, e: Event) {
    exists m | j < m <= |calls| ::
      TimerDiff16(e.time, calls[j].record.event.time) >= c.tappingTerm(calls[..m], calls[j].record)
  }

  /** Up to the `p`-th event one arrived after the release past the tapping term. */
  ghost predicate OverBy(c: Config, es: seq<Event>, calls: seq<Call>, j: nat, from: nat, p: nat) {
    exists q | from < q <= p :: q < |es| && IsOver(c, calls, j, es[q])
  }

  /** Why the `p`-th event, a press, is no quick tap after the `j`-th call. */
  ghost predicate IsLate(c: Config, es: seq<Event>, calls: seq<Call>, j: nat, from: nat, p: nat) {
    p < |es| && (IsSlow(c, calls, j, es[p]) || OverBy(c, es, calls, j, from, p))
  }

  lemma {:induction false} LateStays(c: Config, es: seq<Event>, calls: seq<Call>, calls': seq<Call>, j: nat, from: nat,
                                     p: nat)
    requires calls <= calls' && j < |calls| && IsLate(c, es, calls, j, from, p)
    ensures IsLate(c, es, calls', j, from, p)
  {
    assert forall m | j < m <= |calls| :: calls'[..m] == calls[..m];
  }

  /** A counted press that is not released is the tapping key, or another key is undecided. */
  ghost predicate PressStands(s: State, a: Ages, k: nat) {
    && |a.decisions| == |s.calls|
    && (k < |s.calls| && s.calls[k].record.tap.count > 0 && HeldFromTo(s.calls, k, |s.calls|, s.calls[k].record) ==>
          s.tapping == s.calls[k].record || s.Undecided() || a.lost > a.decisions[k].Source())
  }

  /** A repeated tap that is not released is the tapping key. */
  ghost predicate RepeatStands(s: State, a: Ages, k: nat) {
    && |a.decisions| == |s.calls|
    && (k < |s.calls| && IsRepeat(s.calls[k].record) && NotReleased(s.calls, k) ==>
          s.tapping == s.calls[k].record || a.lost > a.decisions[k].Source())
  }

  ghost predicate IsRepeat(r: Record) { r.IsPress() && !r.event.IsTick() && r.tap.count > 1 }

  ghost predicate NotReleased(calls: seq<Call>, k: nat)
    requires k < |calls|
  {
    forall i | k < i < |calls| :: !Releases(calls[i], calls[k].record.event.key)
  }

  /** A key that was just tapped is the tapping key, or something came between. */
  ghost predicate TapStands(c: Config, es: seq<Event>, s: State, a: Ages, k: nat, j: nat) {
    && |a.decisions| == |s.calls|
    && (JustTapped(c, s.calls, a.decisions, k, j) ==>
          var from := a.decisions[j].Source();
          || a.lost > a.decisions[k].Source()
          || (exists w | w in a.waiting :: w <= from)
          || (IsUp(s) && s.tapping == s.calls[j].record && s.tapping.tap == s.calls[k].record.tap)
          || (s.Undecided() && (s.tapping.event.key != s.calls[j].record.event.key || a.key <= from
                                || IsLate(c, es, s.calls, j, from, a.key)))
          || (s.IsReset() && OverBefore(c, es, s.calls, a.waiting, j, from)))
  }

  /** An event past the tapping term arrived after the release, and none waits that arrived before it. */
  ghost predicate OverBefore(c: Config, es: seq<Event>, calls: seq<Call>, waiting: seq<nat>, j: nat, from: nat) {
    exists q | from < q < |es| :: IsOver(c, calls, j, es[q]) && forall w | w in waiting :: w >= q
  }

  /** `n` is the number of the event at hand; which numbers wait before and after the step. */
  ghost predicate WaitsOn(es: seq<Event>, before: seq<nat>, after: seq<nat>, n: nat, done: bool) {
    && n < |es| && (n in before || n == |es| - 1)
    && (forall w | w in before :: w in after || (done && w == n && !es[n].IsTick()))
    && (forall w | w in after :: w in before || w == n) && (done ==> n !in after)
  }

  /** What a step does to the numbers. */
  ghost predicate StepAges(s: State, s': State, a: Ages, a': Ages, n: nat) {
    && s.calls <= s'.calls && |a.decisions| == |s.calls| && |a'.decisions| == |s'.calls|
    && a'.key == (if s.Undecided() then a.key else n) && a'.lost == a.lost
    && (forall i | 0 <= i < |s.calls| :: a'.decisions[i] == a.decisions[i])
    && (forall i | |s.calls| <= i < |s'.calls| ::
          a'.decisions[i].Source() == if s.Undecided() && s'.calls[i].origin.OfTappingKey? then a.key else n)
  }

  lemma {:induction false} StepKeepsPress(c: Config, s: State, s': State, a: Ages, a': Ages, r: Record, n: nat,
                                          done: bool, k: nat)
    requires StepShape(c, s, r, s', done) && StepAges(s, s', a, a', n) && PressStands(s, a, k)
    ensures PressStands(s', a', k)
  {
    if k < |s'.calls| && s'.calls[k].record.tap.count > 0 && HeldFromTo(s'.calls, k, |s'.calls|, s'.calls[k].record) {
      if k < |s.calls| {
        assert HeldFromTo(s.calls, k, |s.calls|, s.calls[k].record);
        if |s.calls| < |s'.calls| { assert s'.calls[|s.calls|].origin.OfEvent?; }
      }
    }
  }

  /** A repeated tap is released before it is replaced. */
  ghost predicate KeepsOrReleases(s: State, s': State) {
    IsCounted(s) && s.tapping.tap.count > 1 ==>
      || s'.tapping == s.tapping
      || (|s.calls| < |s'.calls| && Releases(s'.calls[|s.calls|], s.tapping.event.key))
  }

  /** One step, and what waits after it. */
  ghost predicate Steps(c: Config, es: seq<Event>, s: State, s': State, a: Ages, a': Ages, r: Record, n: nat,
                        done: bool) {
    && StepShape(c, s, r, s', done) && KeepsOrReleases(s, s') && StepAges(s, s', a, a', n)
    && WaitsOn(es, a.waiting, a'.waiting, n, done) && es[n] == r.event
    && (n in a.waiting || forall i | 0 <= i < |s.calls| :: a.decisions[i].Source() < n)
    && (IsUp(s) ==> forall w | w in a.waiting :: w >= n)
    && (s.Undecided() ==> a.key !in a.waiting && a.key != n)
  }

  /** A key that takes over from a repeated tap first makes up its release, at the time of the new press. */
  lemma {:induction false} RepeatIsReleased(c: Config, s: State, r: Record)
    ensures KeepsOrReleases(s, ProcessTapping(c, s, r).state)
    ensures IsCounted(s) && s.tapping.tap.count > 1 && r.event.pressed && IsTapRecord(c, s, r) ==>
      var release := s.tapping.(event := s.tapping.event.(pressed := false, time := r.event.time));
      s.calls + [Call(OfMadeUpRelease, release)] <= ProcessTapping(c, s, r).state.calls
    ensures IsCounted(s) && s.tapping.tap.count == 1 && r.event.pressed && IsTapRecord(c, s, r) ==>
      ProcessTapping(c, s, r).state.calls == s.calls
      || ProcessTapping(c, s, r).state.calls == s.calls + [Call(OfTappingKey, Record(r.event, r.tap.(count := 1)))]
  {
  }

  lemma {:induction false} StepKeepsRepeat(c: Config, s: State, s': State, a: Ages, a': Ages, r: Record, n: nat,
                                           done: bool, k: nat)
    requires StepShape(c, s, r, s', done) && KeepsOrReleases(s, s') && StepAges(s, s', a, a', n)
    requires RepeatStands(s, a, k)
    ensures RepeatStands(s', a', k)
  {
    if k < |s.calls| && IsRepeat(s.calls[k].record) && NotReleased(s'.calls, k) {
      assert NotReleased(s.calls, k);
      assert forall i | |s.calls| <= i < |s'.calls| :: !Releases(s'.calls[i], s'.calls[k].record.event.key);
    }
  }

  /** A tap whose release the step reports. */
  lemma {:induction false} NewTapStands(c: Config, es: seq<Event>, s: State, s': State, a: Ages, a': Ages, r: Record,
                                        n: nat, done: bool, k: nat, j: nat)
    requires Steps(c, es, s, s', a, a', r, n, done) && PressStands(s, a, k) && j >= |s.calls|
    ensures TapStands(c, es, s', a', k, j)
  {
    if JustTapped(c, s'.calls, a'.decisions, k, j) {
      assert j == |s.calls| && s'.calls[..j] == s.calls;
      assert HeldFromTo(s.calls, k, |s.calls|, s.calls[k].record);
    }
  }

  /** Such a tap was there before the step, and nothing of note was reported by it. */
  lemma {:induction false} TappedAlready(c: Config, s: State, s': State, a: Ages, a': Ages, r: Record, n: nat,
                                         done: bool, k: nat, j: nat)
    requires StepShape(c, s, r, s', done) && StepAges(s, s', a, a', n)
    requires j < |s.calls| && JustTapped(c, s'.calls, a'.decisions, k, j)
    ensures JustTapped(c, s.calls, a.decisions, k, j)
    ensures !Decided(s, s')
    ensures s.calls != s'.calls ==>
      s'.calls[|s.calls|].origin.OfEvent? && !r.event.pressed && n > a.decisions[j].Source()
  {
    assert s'.calls[..j] == s.calls[..j];
    if s.calls != s'.calls { assert IsPlainRelease(s'.calls[|s.calls|]); }
  }

  lemma {:induction false} OldTapStands(c: Config, es: seq<Event>, s: State, s': State, a: Ages, a': Ages, r: Record,
                                        n: nat, done: bool, k: nat, j: nat)
    requires Steps(c, es, s, s', a, a', r, n, done) && TapStands(c, es, s, a, k, j) && j < |s.calls|
    ensures TapStands(c, es, s', a', k, j)
  {
    if JustTapped(c, s'.calls, a'.decisions, k, j) {
      TappedAlready(c, s, s', a, a', r, n, done, k, j);
      var from := a.decisions[j].Source();
      if a.lost > a.decisions[k].Source() {
      } else if exists w :: w in a.waiting && w <= from {
        var w :| w in a.waiting && w <= from;
        assert w in a'.waiting || (done && w == n);
      } else if s.Undecided() {
        if IsLate(c, es, s.calls, j, from, a.key) { LateStays(c, es, s.calls, s'.calls, j, from, a.key); }
      } else if s.IsReset() {
        RestStands(c, es, s, s', a, a', r, n, done, j, from);
      } else {
        UpStands(c, es, s, s', a, a', r, n, done, j, from);
      }
    }
  }

  lemma {:induction false} RestStands(c: Config, es: seq<Event>, s: State, s': State, a: Ages, a': Ages, r: Record,
                                      n: nat, done: bool, j: nat, from: nat)
    requires Steps(c, es, s, s', a, a', r, n, done) && !Decided(s, s') && j < |s.calls| && s.IsReset()
    requires s.calls != s'.calls ==> !r.event.pressed
    requires OverBefore(c, es, s.calls, a.waiting, j, from)
    ensures s'.Undecided() ==> IsLate(c, es, s'.calls, j, from, a'.key)
    ensures !s'.Undecided() ==> s'.IsReset() && OverBefore(c, es, s'.calls, a'.waiting, j, from)
  {
    var q :| from < q < |es| && IsOver(c, s.calls, j, es[q]) && forall w | w in a.waiting :: w >= q;
    assert forall m | j < m <= |s.calls| :: s'.calls[..m] == s.calls[..m];
    assert IsOver(c, s'.calls, j, es[q]);
  }

  lemma {:induction false} UpStands(c: Config, es: seq<Event>, s: State, s': State, a: Ages, a': Ages, r: Record,
                                    n: nat, done: bool, j: nat, from: nat)
    requires Steps(c, es, s, s', a, a', r, n, done) && !Decided(s, s') && j < |s.calls|
    requires s.tapping == s.calls[j].record && IsPlainRelease(s.calls[j]) && !s.IsReset()
    requires !s.tapping.tap.interrupted && s.tapping.tap.count > 0
    requires s.calls != s'.calls ==> !r.event.pressed
    requires n > from
    ensures s'.Undecided() ==>
      s'.tapping.event.key != s.tapping.event.key || IsLate(c, es, s'.calls, j, from, a'.key)
    ensures !s'.Undecided() && !s'.IsReset() ==> s'.tapping == s.tapping
    ensures s'.IsReset() ==> OverBefore(c, es, s'.calls, a'.waiting, j, from)
  {
    if s'.calls == s.calls {
      assert s.calls[..|s.calls|] == s.calls;
      if s'.IsReset() {
        assert IsOver(c, s'.calls, j, es[n]);
      } else if s'.Undecided() && s'.tapping.event.key == s.tapping.event.key {
        assert IsSlow(c, s'.calls, j, es[n]);
      }
    }
  }

  ghost predicate AllStand(c: Config, es: seq<Event>, s: State, a: Ages) {
    && (forall k: nat :: PressStands(s, a, k))
    && (forall k: nat :: RepeatStands(s, a, k))
    && (forall k: nat, j: nat :: TapStands(c, es, s, a, k, j))
  }

  lemma {:induction false} StepKeepsAll(c: Config, es: seq<Event>, s: State, s': State, a: Ages, a': Ages, r: Record,
                                        n: nat, done: bool)
    requires Steps(c, es, s, s', a, a', r, n, done) && AllStand(c, es, s, a)
    ensures AllStand(c, es, s', a')
  {
    forall k: nat ensures PressStands(s', a', k) {
      assert PressStands(s, a, k);
      StepKeepsPress(c, s, s', a, a', r, n, done, k);
    }
    forall k: nat ensures RepeatStands(s', a', k) {
      assert RepeatStands(s, a, k);
      StepKeepsRepeat(c, s, s', a, a', r, n, done, k);
    }
    forall k: nat, j: nat ensures TapStands(c, es, s', a', k, j) {
      if j < |s.calls| {
        assert TapStands(c, es, s, a, k, j);
        OldTapStands(c, es, s, s', a, a', r, n, done, k, j);
      } else {
        assert PressStands(s, a, k);
        NewTapStands(c, es, s, s', a, a', r, n, done, k, j);
      }
    }
  }

  // ------------------------------------------------------------- no quick tap is missed

  /** The event `again`, a press, is reported as the next tap after the one that `press` began. */
  ghost predicate IsNextTap(press: Record, call: Call, again: Event) {
    call == Call(OfEvent, Record(again, Tap(false, OneMore(press.tap.count))))
  }

  /** What a press says that a step reports first. */
  ghost predicate ReportsPress(s: State, r: Record, call: Call) {
    call.record.event.pressed ==>
      if s.Undecided() then call.record.event == s.tapping.event
      else && call.record.event == r.event
           && (IsUp(s) && call.record.event.key == s.tapping.event.key
               ==> IsNextTap(s.tapping, call, r.event) && !s.tapping.tap.interrupted)
  }

  lemma {:induction false} PressIsReported(c: Config, s: State, r: Record)
    requires Untouched(r)
    ensures var calls := ProcessTapping(c, s, r).state.calls;
      s.calls <= calls && (s.calls != calls ==> ReportsPress(s, r, calls[|s.calls|]))
  {
  }

  /** No key event that arrived before the `from`-th is still to be reported. */
  ghost predicate NothingOlderHeld(es: seq<Event>, ds: seq<Decision>, from: nat) {
    forall w: nat | w <= from && w < |es| :: es[w].IsTick() || Reported(ds, w)
  }

  ghost predicate Reported(ds: seq<Decision>, w: nat) { exists m | 0 <= m < |ds| :: ds[m].Source() == w }

  /** The `i`-th call reports the next press of a key just tapped: its tap was pressed by the `k`-th call and
      released by the `j`-th. */
  ghost predicate Follows(c: Config, es: seq<Event>, calls: seq<Call>, ds: seq<Decision>, k: nat, j: nat, i: nat) {
    && i < |calls| == |ds| && JustTapped(c, calls[..i], ds[..i], k, j)
    && calls[i].record.event.pressed && calls[i].record.event.key == calls[j].record.event.key
    && ds[i].Source() > ds[j].Source() && NothingOlderHeld(es, ds[..i], ds[j].Source())
  }

  /** It is a quick tap, or came late, or events were dropped. */
  ghost predicate Answered(c: Config, es: seq<Event>, calls: seq<Call>, ds: seq<Decision>, lost: nat, k: nat, j: nat,
                           i: nat)
    requires Follows(c, es, calls, ds, k, j, i)
  {
    || lost > ds[k].Source()
    || IsNextTap(calls[k].record, calls[i], calls[i].record.event)
    || IsLate(c, es, calls[..i], j, ds[j].Source(), ds[i].Source())
  }

  ghost predicate AllAnswered(c: Config, es: seq<Event>, s: State, a: Ages) {
    && |a.decisions| == |s.calls|
    && forall k: nat, j: nat, i: nat ::
         Follows(c, es, s.calls, a.decisions, k, j, i) ==> Answered(c, es, s.calls, a.decisions, a.lost, k, j, i)
  }

  ghost predicate NoneWaitsReported(a: Ages) { forall w | w in a.waiting :: !Reported(a.decisions, w) }

  /** The press that the step reports first. */
  lemma {:induction false} NewPressIsAnswered(c: Config, es: seq<Event>, s: State, s': State, a: Ages, a': Ages,
                                              r: Record, n: nat, done: bool, k: nat, j: nat)
    requires Steps(c, es, s, s', a, a', r, n, done) && TapStands(c, es, s, a, k, j)
    requires |s.calls| < |s'.calls| && ReportsPress(s, r, s'.calls[|s.calls|])
    requires NoneWaitsReported(a) && forall w | w in a.waiting :: w < |es| && !es[w].IsTick()
    requires Follows(c, es, s'.calls, a'.decisions, k, j, |s.calls|)
    ensures Answered(c, es, s'.calls, a'.decisions, a'.lost, k, j, |s.calls|)
  {
    var i := |s.calls|;
    assert s'.calls[..i] == s.calls && a'.decisions[..i] == a.decisions;
    var from := a.decisions[j].Source();
    assert forall w | w in a.waiting :: w > from;
    if s.IsReset() && OverBefore(c, es, s.calls, a.waiting, j, from) {
      var q :| from < q < |es| && IsOver(c, s.calls, j, es[q]) && forall w | w in a.waiting :: w >= q;
      assert q <= n;
    }
  }

  lemma {:induction false} BetweenAreReleases(c: Config, es: seq<Event>, calls: seq<Call>, ds: seq<Decision>, k: nat,
                                              j: nat, i: nat)
    requires Follows(c, es, calls, ds, k, j, i)
    ensures forall l | j <= l < i :: IsPlainRelease(calls[l])
  {
    forall l | j <= l < i ensures IsPlainRelease(calls[l]) { assert calls[..i][l] == calls[l]; }
  }

  lemma {:induction false} StepKeepsAnswers(c: Config, es: seq<Event>, s: State, s': State, a: Ages, a': Ages,
                                            r: Record, n: nat, done: bool)
    requires Steps(c, es, s, s', a, a', r, n, done) && AllStand(c, es, s, a) && AllAnswered(c, es, s, a)
    requires |s.calls| < |s'.calls| ==> ReportsPress(s, r, s'.calls[|s.calls|])
    requires NoneWaitsReported(a) && forall w | w in a.waiting :: w < |es| && !es[w].IsTick()
    ensures AllAnswered(c, es, s', a')
  {
    forall k: nat, j: nat, i: nat | Follows(c, es, s'.calls, a'.decisions, k, j, i)
      ensures Answered(c, es, s'.calls, a'.decisions, a'.lost, k, j, i)
    {
      if i < |s.calls| {
        assert s'.calls[..i] == s.calls[..i] && a'.decisions[..i] == a.decisions[..i];
        assert Follows(c, es, s.calls, a.decisions, k, j, i);
      } else if i == |s.calls| {
        assert TapStands(c, es, s, a, k, j);
        NewPressIsAnswered(c, es, s, s', a, a', r, n, done, k, j);
      } else {
        BetweenAreReleases(c, es, s'.calls, a'.decisions, k, j, i);
      }
    }
  }

  lemma {:induction false} StepReportsNoneWaiting(c: Config, es: seq<Event>, s: State, s': State, a: Ages, a': Ages,
                                                 r: Record, n: nat, done: bool)
    requires Steps(c, es, s, s', a, a', r, n, done) && NoneWaitsReported(a)
    ensures NoneWaitsReported(a')
  {
    forall w | w in a'.waiting ensures !Reported(a'.decisions, w) {
      forall m | 0 <= m < |a'.decisions| ensures a'.decisions[m].Source() != w {
        if m < |s.calls| { assert a'.decisions[m] == a.decisions[m]; }
      }
    }
  }

  /** All that holds in every run, of presses, taps and the calls that follow them. */
  ghost predicate Fine(c: Config, es: seq<Event>, s: State, a: Ages) {
    AllStand(c, es, s, a) && AllAnswered(c, es, s, a) && NoneWaitsReported(a)
  }

  lemma {:induction false} StepKeepsFine(c: Config, es: seq<Event>, s: State, s': State, a: Ages, a': Ages, r: Record,
                                         n: nat, done: bool)
    requires Steps(c, es, s, s', a, a', r, n, done) && Fine(c, es, s, a)
    requires |s.calls| < |s'.calls| ==> ReportsPress(s, r, s'.calls[|s.calls|])
    requires forall w | w in a.waiting :: w < |es| && !es[w].IsTick()
    ensures Fine(c, es, s', a')
  {
    StepKeepsAll(c, es, s, s', a, a', r, n, done);
    StepKeepsAnswers(c, es, s, s', a, a', r, n, done);
    StepReportsNoneWaiting(c, es, s, s', a, a', r, n, done);
  }

  lemma {:induction false} NumbersAreOfKeys(es: seq<Event>, s: State, a: Ages)
    requires Numbered(es, s, a) && NoTicksWait(s)
    ensures forall w | w in a.waiting :: w < |es| && !es[w].IsTick()
  {
  }

  // ------------------------------------------------------------------- draining, arriving

  /** What the step leaves of the tapping key and the calls, and its numbers. */
  lemma {:induction false} StepIsShaped(c: Config, s: State, a: Ages, r: Record, n: nat, s': State, a': Ages)
    requires Untouched(r) && |a.decisions| == |s.calls|
    requires var o := ProcessTapping(c, s, r); s'.tapping == o.state.tapping && s'.calls == o.state.calls
    requires var b := AgesOf(c, s, a, r, n); a'.key == b.key && a'.decisions == b.decisions && a'.lost == b.lost
    ensures StepShape(c, s, r, s', ProcessTapping(c, s, r).done) && StepAges(s, s', a, a', n)
    ensures KeepsOrReleases(s, s')
  {
    RepeatIsReleased(c, s, r);
    var o := ProcessTapping(c, s, r);
    StepHasShape(c, s, r);
    SameShape(c, s, r, o.state, s', o.done);
    ProcessTappingGrows(c, s, r);
    forall i | 0 <= i < |s'.calls|
      ensures |a'.decisions| == |s'.calls|
      ensures i < |s.calls| ==> a'.decisions[i] == a.decisions[i]
      ensures |s.calls| <= i ==>
        a'.decisions[i].Source() == if s.Undecided() && s'.calls[i].origin.OfTappingKey? then a.key else n
    {
      MarkedAt(s, a, s'.calls, DecisionOf(c, s, a, r, n), n, i);
    }
    if s'.calls == [] { assert a'.decisions == []; }
  }

  lemma {:induction false} SameShape(c: Config, s: State, r: Record, s1: State, s2: State, done: bool)
    requires StepShape(c, s, r, s1, done) && s1.tapping == s2.tapping && s1.calls == s2.calls
    ensures StepShape(c, s, r, s2, done)
  {
    if x: Record :| done && !r.event.IsTick() && HandsOn(c, s, r, s1, x) { assert HandsOn(c, s, r, s2, x); }
  }

  /** Which of the numbers go on waiting when the first is offered again. */
  lemma {:induction false} FirstIsOffered(es: seq<Event>, s: State, a: Ages, s1: State, a1: Ages, done: bool)
    requires Numbered(es, s, a) && s.buffer != [] && NoTicksWait(s)
    requires a1.waiting == if done then a.waiting[1..] else a.waiting
    ensures WaitsOn(es, a.waiting, a1.waiting, a.waiting[0], done)
    ensures forall w | w in a.waiting :: w >= a.waiting[0]
    ensures a.waiting[0] in a.waiting && es[a.waiting[0]] == s.buffer[0].event
  {
    assert !s.buffer[0].event.IsTick();
  }

  /** A released tapping key consumes the event, or its term is over. */
  lemma {:induction false} NotConsumedIsNotUp(c: Config, s: State, r: Record)
    ensures IsUp(ProcessTapping(c, s, r).state) ==> ProcessTapping(c, s, r).done
  {
  }

  lemma {:induction false} RoundSteps(c: Config, es: seq<Event>, s: State, a: Ages, s1: State, a1: Ages, done: bool)
    requires Numbered(es, s, a) && s.buffer != [] && NoTicksWait(s) && Untouched(s.buffer[0])
    requires KeepsWaitingRecords(c, s) && s1 == AfterRound(ProcessTapping(c, s, s.buffer[0]))
    requires done == ProcessTapping(c, s, s.buffer[0]).done && a1 == AgesAfterRound(c, s, a)
    ensures Steps(c, es, s, s1, a, a1, s.buffer[0], a.waiting[0], done)
    ensures |s.calls| < |s1.calls| ==> ReportsPress(s, s.buffer[0], s1.calls[|s.calls|])
    ensures NoTicksWait(s1) && (IsUp(s1) ==> done)
  {
    PressIsReported(c, s, s.buffer[0]);
    StepIsShaped(c, s, a, s.buffer[0], a.waiting[0], s1, a1);
    NotConsumedIsNotUp(c, s, s.buffer[0]);
    FirstIsOffered(es, s, a, s1, a1, done);
    StepKeepsPlaces(c, s, s.buffer[0]);
    NoTicksAfterRound(s, ProcessTapping(c, s, s.buffer[0]));
  }

  lemma {:induction false} NoTicksAfterRound(s: State, o: Outcome)
    requires NoTicksWait(s) && s.buffer != [] && KeepsPlaces(s, s.buffer[0].event, o)
    ensures o.state.buffer != [] && NoTicksWait(AfterRound(o))
  {
    forall i | 0 <= i < |o.state.buffer| ensures !o.state.buffer[i].event.IsTick() {
      assert o.state.buffer[i].event == s.buffer[i].event;
    }
  }

  ghost predicate IsRound(c: Config, s: State, a: Ages, s1: State, a1: Ages)
    requires s.buffer != [] && |a.waiting| == |s.buffer|
  {
    KeepsWaitingRecords(c, s) && s1 == AfterRound(ProcessTapping(c, s, s.buffer[0])) && a1 == AgesAfterRound(c, s, a)
  }

  /** One round of draining, as a step. */
  lemma {:induction false} SteppedRound(c: Config, es: seq<Event>, s: State, a: Ages)
    returns (s1: State, a1: Ages, done: bool)
    requires Known(c, es, s, a) && s.buffer != [] && NoTicksWait(s)
    ensures Drain(c, s) == (if done then Drain(c, s1) else s1)
    ensures |a1.waiting| == |s1.buffer| && DrainAges(c, s, a) == (if done then DrainAges(c, s1, a1) else a1)
    ensures Known(c, es, s1, a1) && NoTicksWait(s1) && (done ==> |s1.buffer| < |s.buffer|)
    ensures Steps(c, es, s, s1, a, a1, s.buffer[0], a.waiting[0], done) && (IsUp(s1) ==> done)
    ensures |s.calls| < |s1.calls| ==> ReportsPress(s, s.buffer[0], s1.calls[|s.calls|])
    ensures IsRound(c, s, a, s1, a1)
  {
    s1, a1, done := ExactRound(c, es, s, a);
    RoundSteps(c, es, s, a, s1, a1, done);
  }

  lemma {:induction false} RoundStands(c: Config, es: seq<Event>, s: State, a: Ages)
    returns (s1: State, a1: Ages, done: bool)
    requires Known(c, es, s, a) && s.buffer != [] && NoTicksWait(s) && Fine(c, es, s, a)
    ensures Drain(c, s) == (if done then Drain(c, s1) else s1)
    ensures |a1.waiting| == |s1.buffer| && DrainAges(c, s, a) == (if done then DrainAges(c, s1, a1) else a1)
    ensures Known(c, es, s1, a1) && NoTicksWait(s1) && Fine(c, es, s1, a1) && (done ==> |s1.buffer| < |s.buffer|)
    ensures !done ==> !IsUp(s1)
    ensures IsRound(c, s, a, s1, a1)
  {
    s1, a1, done := SteppedRound(c, es, s, a);
    NumbersAreOfKeys(es, s, a);
    StepKeepsFine(c, es, s, s1, a, a1, s.buffer[0], a.waiting[0], done);
  }

  lemma {:induction false} DrainStands(c: Config, es: seq<Event>, s: State, a: Ages)
    requires Known(c, es, s, a) && NoTicksWait(s) && Fine(c, es, s, a)
    ensures Fine(c, es, Drain(c, s), DrainAges(c, s, a))
    ensures IsUp(Drain(c, s)) ==> Drain(c, s).buffer == []
    decreases |s.buffer|
  {
    if s.buffer != [] {
      var s1, a1, done := RoundStands(c, es, s, a);
      if done { DrainStands(c, es, s1, a1); }
    }
  }

  lemma {:induction false} AllStandAfterMore(c: Config, es: seq<Event>, e: Event, s: State, a: Ages)
    requires AllStand(c, es, s, a)
    ensures AllStand(c, es + [e], s, a)
  {
    forall k: nat, j: nat ensures TapStands(c, es + [e], s, a, k, j) {
      assert TapStands(c, es, s, a, k, j);
      if JustTapped(c, s.calls, a.decisions, k, j) {
        var from := a.decisions[j].Source();
        if IsLate(c, es, s.calls, j, from, a.key) { LateAfterMore(c, es, e, s.calls, j, from, a.key); }
        if q :| from < q < |es| && IsOver(c, s.calls, j, es[q]) && forall w | w in a.waiting :: w >= q {
          assert (es + [e])[q] == es[q];
        }
      }
    }
  }

  lemma {:induction false} LateAfterMore(c: Config, es: seq<Event>, e: Event, calls: seq<Call>, j: nat, from: nat,
                                         p: nat)
    requires j < |calls| && IsLate(c, es, calls, j, from, p)
    ensures IsLate(c, es + [e], calls, j, from, p)
  {
    assert forall q | 0 <= q < |es| :: (es + [e])[q] == es[q];
  }

  lemma {:induction false} AllAnsweredAfterMore(c: Config, es: seq<Event>, e: Event, s: State, a: Ages)
    requires AllAnswered(c, es, s, a)
    ensures AllAnswered(c, es + [e], s, a)
  {
    forall k: nat, j: nat, i: nat | Follows(c, es + [e], s.calls, a.decisions, k, j, i)
      ensures Answered(c, es + [e], s.calls, a.decisions, a.lost, k, j, i)
    {
      var from, p := a.decisions[j].Source(), a.decisions[i].Source();
      assert forall w | 0 <= w < |es| :: (es + [e])[w] == es[w];
      assert Follows(c, es, s.calls, a.decisions, k, j, i);
      if IsLate(c, es, s.calls[..i], j, from, p) { LateAfterMore(c, es, e, s.calls[..i], j, from, p); }
    }
  }

  /** An overflow comes after all presses reported so far. */
  lemma {:induction false} NothingStandsAfterOverflow(c: Config, es: seq<Event>, s: State, a: Ages)
    requires Known(c, es, s, a) && a.lost >= |es| && a.waiting == []
    ensures Fine(c, es, s, a)
  {
    forall k | 0 <= k < |s.calls| ensures a.decisions[k].Source() < a.lost {
      assert Grounded(c, es, s.calls[..k], s.calls[k], a.decisions[k]);
    }
  }

  lemma {:induction false} OfferSteps(c: Config, earlier: seq<Event>, s: State, a: Ages, e: Event)
    requires Known(c, earlier, s, a) && (IsUp(s) ==> s.buffer == [])
    requires var o := ProcessTapping(c, s, Fresh(e)); o.done || !Overflows(o.state, o.keyp)
    ensures var es, r, n := earlier + [e], Fresh(e), |earlier|;
      Steps(c, es, s, Offer(c, s, r), a, OfferAges(c, s, a, r, n), r, n, ProcessTapping(c, s, r).done)
  {
    var es, r, n := earlier + [e], Fresh(e), |earlier|;
    var s', a' := Offer(c, s, r), OfferAges(c, s, a, r, n);
    KeepsWaitingEvents(c, s, r);
    StepIsShaped(c, s, a, r, n, s', a');
    assert WaitsOn(es, a.waiting, a'.waiting, n, ProcessTapping(c, s, r).done);
    forall i | 0 <= i < |s.calls| ensures a.decisions[i].Source() < n {
      assert Grounded(c, earlier, s.calls[..i], s.calls[i], a.decisions[i]);
    }
  }

  lemma {:induction false} OverflowIsNoted(c: Config, s: State, a: Ages, r: Record, n: nat)
    requires |a.waiting| == |s.buffer|
    requires var o := ProcessTapping(c, s, r); !o.done && Overflows(o.state, o.keyp)
    ensures OfferAges(c, s, a, r, n).lost == n + 1 && OfferAges(c, s, a, r, n).waiting == []
  {
    KeepsWaitingEvents(c, s, r);
  }

  lemma {:induction false} OfferStands(c: Config, earlier: seq<Event>, s: State, a: Ages, e: Event)
    requires Known(c, earlier, s, a) && NoTicksWait(s) && Fine(c, earlier, s, a) && (IsUp(s) ==> s.buffer == [])
    ensures Known(c, earlier + [e], Offer(c, s, Fresh(e)), OfferAges(c, s, a, Fresh(e), |earlier|))
    ensures Fine(c, earlier + [e], Offer(c, s, Fresh(e)), OfferAges(c, s, a, Fresh(e), |earlier|))
  {
    var es, r, n := earlier + [e], Fresh(e), |earlier|;
    OfferIsRightExactlyWhen(c, earlier, s, a, e);
    var o := ProcessTapping(c, s, r);
    if !o.done && Overflows(o.state, o.keyp) {
      OverflowIsNoted(c, s, a, r, n);
      NothingStandsAfterOverflow(c, es, Offer(c, s, r), OfferAges(c, s, a, r, n));
    } else {
      OfferSteps(c, earlier, s, a, e);
      AllStandAfterMore(c, earlier, e, s, a);
      AllAnsweredAfterMore(c, earlier, e, s, a);
      PressIsReported(c, s, r);
      NumbersAreOfKeys(earlier, s, a);
      StepKeepsFine(c, es, s, Offer(c, s, r), a, OfferAges(c, s, a, r, n), r, n, o.done);
    }
  }

  ghost predicate RunStands(c: Config, es: seq<Event>) {
    && Fine(c, es, Run(c, es), RunAges(c, es)) && (IsUp(Run(c, es)) ==> Run(c, es).buffer == [])
  }

  lemma {:induction false} OneMoreStands(c: Config, earlier: seq<Event>, e: Event)
    requires RunStands(c, earlier)
    ensures RunStands(c, earlier + [e])
  {
    var s, a := Run(c, earlier), RunAges(c, earlier);
    EveryCallIsJustified(c, earlier);
    ExactlyOnce(c, earlier, e);
    RunOneMore(c, earlier, e);
    OfferStands(c, earlier, s, a, e);
    OfferKeepsTicksOut(c, s, Fresh(e));
    DrainStands(c, earlier + [e], Offer(c, s, Fresh(e)), OfferAges(c, s, a, Fresh(e), |earlier|));
  }

  lemma {:induction false} EveryRunStands(c: Config, es: seq<Event>)
    ensures RunStands(c, es)
  {
    var stands := (xs: seq<Event>) => RunStands(c, xs);
    assert RunStands(c, []);
    forall earlier, e | stands(earlier) ensures stands(earlier + [e]) { OneMoreStands(c, earlier, e); }
    OneByOne(stands, es);
  }

  /** In every run: a press that follows an undisturbed tap of its key is reported as the next tap, unless
      it came late, or an event that arrived after the release was past the tapping term, or an
      overflow dropped events since the tap began. */
  lemma {:induction false} NoQuickTapIsMissed(c: Config, es: seq<Event>, k: nat, j: nat, i: nat)
    requires var s, a := Run(c, es), RunAges(c, es);
      Follows(c, es, s.calls, a.decisions, k, j, i) && a.lost <= a.decisions[k].Source()
    ensures var s, a := Run(c, es), RunAges(c, es);
      || IsNextTap(s.calls[k].record, s.calls[i], s.calls[i].record.event)
      || IsLate(c, es, s.calls[..i], j, a.decisions[j].Source(), a.decisions[i].Source())
  {
    EveryRunStands(c, es);
  }

  /** The press reported by this call follows no undisturbed tap of its key in time. */
  ghost predicate FollowsNoTap(c: Config, es: seq<Event>, calls: seq<Call>, a: Ages, i: nat) {
    forall k: nat, j: nat | Follows(c, es, calls, a.decisions, k, j, i) ::
      a.lost > a.decisions[k].Source()
      || IsLate(c, es, calls[..i], j, a.decisions[j].Source(), a.decisions[i].Source())
  }

  /** The tap count of a press is the length, saturated at 15, of the longest run of quick taps that ends
      with it: they follow each other in time, and the first follows no other. */
  lemma {:induction false} ReportedTapCountsAreLongest(c: Config, es: seq<Event>, i: nat)
    requires i < |Run(c, es).calls|
    ensures var calls := Run(c, es).calls;
      calls[i].record.event.pressed && calls[i].record.tap.count > 0 ==> exists first, len ::
        && QuickTaps(c, calls, first, i, len) && calls[i].record.tap.count == Saturated(len)
        && FollowsNoTap(c, es, calls, RunAges(c, es), first)
  {
    var calls, a := Run(c, es).calls, RunAges(c, es);
    if calls[i].record.event.pressed && calls[i].record.tap.count > 0 {
      EveryCallIsAccounted(c, es);
      var first, len := TapCountIsRunLength(c, es, calls, i);
      FirstOfQuickTaps(c, calls, first, i, len);
      forall k: nat, j: nat | Follows(c, es, calls, a.decisions, k, j, first)
        ensures a.lost > a.decisions[k].Source()
                || IsLate(c, es, calls[..first], j, a.decisions[j].Source(), a.decisions[first].Source())
      {
        if a.lost <= a.decisions[k].Source() { NoQuickTapIsMissed(c, es, k, j, first); }
      }
    }
  }

  ghost predicate LosesNothing(c: Config, es: seq<Event>) { NeverOverflows(c, es) ==> RunAges(c, es).lost == 0 }

  /** What never overflows did not before the last arrival either. */
  lemma {:induction false} NoOverflowBefore(c: Config, earlier: seq<Event>, e: Event)
    requires NeverOverflows(c, earlier + [e])
    ensures NeverOverflows(c, earlier) && !OverflowsOn(c, Run(c, earlier), Fresh(e))
  {
    assert (earlier + [e])[..|earlier|] == earlier;
    forall i | 0 <= i < |earlier| ensures !OverflowsOn(c, Run(c, earlier[..i]), Fresh(earlier[i])) {
      assert (earlier + [e])[..i] == earlier[..i];
    }
  }

  lemma {:induction false} OneMoreLosesNothing(c: Config, earlier: seq<Event>, e: Event)
    requires LosesNothing(c, earlier)
    ensures LosesNothing(c, earlier + [e])
  {
    if NeverOverflows(c, earlier + [e]) {
      var s, a := Run(c, earlier), RunAges(c, earlier);
      NoOverflowBefore(c, earlier, e);
      EveryCallIsJustified(c, earlier);
      RunOneMore(c, earlier, e);
      OfferLosesNothing(c, s, a, Fresh(e), |earlier|);
      DrainLosesNothing(c, Offer(c, s, Fresh(e)), OfferAges(c, s, a, Fresh(e), |earlier|));
    }
  }

  lemma {:induction false} NothingIsLost(c: Config, es: seq<Event>)
    requires NeverOverflows(c, es)
    ensures RunAges(c, es).lost == 0
  {
    var keeps := (xs: seq<Event>) => LosesNothing(c, xs);
    assert LosesNothing(c, []);
    forall earlier, e | keeps(earlier) ensures keeps(earlier + [e]) { OneMoreLosesNothing(c, earlier, e); }
    OneByOne(keeps, es);
  }

  lemma {:induction false} OfferLosesNothing(c: Config, s: State, a: Ages, r: Record, n: nat)
    requires |a.waiting| == |s.buffer| && !OverflowsOn(c, s, r)
    ensures OfferAges(c, s, a, r, n).lost == a.lost
  {
    KeepsWaitingEvents(c, s, r);
  }

  lemma {:induction false} DrainLosesNothing(c: Config, s: State, a: Ages)
    requires |a.waiting| == |s.buffer|
    ensures DrainAges(c, s, a).lost == a.lost
    decreases |s.buffer|
  {
    if s.buffer != [] {
      KeepsWaitingEvents(c, s, s.buffer[0]);
      var o := ProcessTapping(c, s, s.buffer[0]);
      if o.done { DrainLosesNothing(c, AfterRound(o), AgesAfterRound(c, s, a)); }
    }
  }

  /** Without an overflow, and with nothing past its terms in between, it is the next tap. */
  lemma {:induction false} QuickTapIsCounted(c: Config, es: seq<Event>, k: nat, j: nat, i: nat)
    requires NeverOverflows(c, es)
    requires var calls, ds := Run(c, es).calls, RunAges(c, es).decisions;
      && Follows(c, es, calls, ds, k, j, i)
      && !IsLate(c, es, calls[..i], j, ds[j].Source(), ds[i].Source())
    ensures var calls := Run(c, es).calls;
      k < |calls| && i < |calls|
      && calls[i] == Call(OfEvent, Record(calls[i].record.event, Tap(false, OneMore(calls[k].record.tap.count))))
  {
    NothingIsLost(c, es);
    NoQuickTapIsMissed(c, es, k, j, i);
  }

  // ------------------------------------------------------- every repeated tap is released

  /** In every run: the press of a repeated tap is followed by a release of its key, the last one aside
      if it is still the tapping key, and those before an overflow. */
  lemma {:induction false} RepeatedTapsAreReleased(c: Config, es: seq<Event>, k: nat)
    requires k < |Run(c, es).calls|
    ensures var s, a := Run(c, es), RunAges(c, es);
      s.calls[k].record.IsPress() && s.calls[k].record.tap.count > 1 ==>
        || (exists i :: k < i < |s.calls| && Releases(s.calls[i], s.calls[k].record.event.key))
        || s.tapping == s.calls[k].record
        || (k < |a.decisions| && a.lost > a.decisions[k].Source())
  {
    EveryRunStands(c, es);
    EveryCallIsAccounted(c, es);
    assert Accounted(c, es, Run(c, es).calls[..k], Run(c, es).calls[k]);
    assert RepeatStands(Run(c, es), RunAges(c, es), k);
  }
}
