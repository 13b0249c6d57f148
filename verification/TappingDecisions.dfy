/** Decisions: why each call of `process_record` was made with the tap count it has
    (quantum/action_tapping.c:193-301, 342-349, 396-410, 501-521). */
module TappingDecisions {
  import opened KeyEvents
  import opened Tapping
  import opened TappingConservation

  function Uncounted(r: Record): Record { r.(tap := r.tap.(count := 0)) }

  // ------------------------------------------------------- grounds for a decision

  /** `e` releases the key of `press` inside its tapping term. */
  ghost predicate Taps(c: Config, before: seq<Call>, press: Record, e: Event) {
    && !e.IsTick() && !e.pressed && e.key == press.event.key
    && TimerDiff16(e.time, press.event.time) < c.tappingTerm(before, press)
  }

  /** `e` (possibly a tick) is at or past the end of the term of `press`. */
  ghost predicate TimesOut(c: Config, before: seq<Call>, press: Record, e: Event) {
    TimerDiff16(e.time, press.event.time) >= c.tappingTerm(before, press)
  }

  /** `e` completes the tap of another key, pressed by one of `others`, while `press` is held. */
  ghost predicate Nests(c: Config, others: seq<Event>, before: seq<Call>, press: Record, e: Event) {
    && !e.pressed && e.key != press.event.key && c.permissiveHold(before, press)
    && TimerDiff16(e.time, press.event.time) < c.tappingTerm(before, press)
    && exists p | p in others :: p.key == e.key && p.pressed
  }

  ghost predicate Interrupts(c: Config, before: seq<Call>, press: Record, e: Event) {
    e.pressed && !e.IsTick() && press.tap.interrupted && c.holdOnOtherPress(before, press)
  }

  ghost predicate IsPress(call: Call, key: KeyPos, count: uint4) {
    call.record.event.pressed && call.record.event.key == key && call.record.tap.count == count
  }

  /** Some call reported `key` pressed with this tap count. */
  ghost predicate PressedWith(calls: seq<Call>, key: KeyPos, count: uint4) {
    exists k | 0 <= k < |calls| :: IsPress(calls[k], key, count)
  }

  ghost predicate IsPlainRelease(call: Call) { call.origin.OfEvent? && !call.record.event.pressed }

  /** `e` decides the press `r`; a nested tap's press is among `others`. */
  ghost predicate Decides(c: Config, others: seq<Event>, before: seq<Call>, r: Record, e: Event) {
    if r.tap.count == 1 then Taps(c, before, Uncounted(r), e)
    else
      r.tap.count == 0
      && (TimesOut(c, before, r, e) || Nests(c, others, before, r, e) || Interrupts(c, before, r, e))
  }

  ghost predicate OnlyReleasesAfter(calls: seq<Call>, j: nat) {
    forall k | j < k < |calls| :: IsPlainRelease(calls[k])
  }

  ghost predicate Releases(call: Call, key: KeyPos) { !call.record.event.pressed && call.record.event.key == key }

  /** The `k`-th call reported the press `r`, and up to the `j`-th came only events of their own,
      none of them its release. */
  ghost predicate HeldFromTo(calls: seq<Call>, k: nat, j: nat, r: Record) {
    && k < j <= |calls| && r.event.pressed && !r.event.IsTick() && calls[k].record == r
    && forall i | k < i < j :: calls[i].origin.OfEvent? && !Releases(calls[i], r.event.key)
  }

  function OneMore(n: uint4): uint4 { if n < 15 then n + 1 else 15 }

  /** The `k`-th call reported a press as a tap, and the `j`-th its release, inside the tapping term. */
  ghost predicate IsTap(c: Config, calls: seq<Call>, k: nat, j: nat) {
    && k < j < |calls| && calls[k].record.tap.count > 0 && HeldFromTo(calls, k, j, calls[k].record)
    && IsPlainRelease(calls[j]) && calls[j].record.event.key == calls[k].record.event.key
    && TimerDiff16(calls[j].record.event.time, calls[k].record.event.time)
         < c.tappingTerm(calls[..j], calls[k].record)
  }

  /** `again` follows quickly and undisturbed the tap pressed by the `k`-th call and released by
      the `j`-th, the first release of the key after it. */
  ghost predicate QuickTapAfter(c: Config, before: seq<Call>, k: nat, j: nat, again: Record) {
    && IsTap(c, before, k, j) && OnlyReleasesAfter(before, j)
    && before[j].record.event.key == again.event.key
    && !before[k].record.tap.interrupted && before[j].record.tap == before[k].record.tap
    && again.tap == Tap(false, OneMore(before[k].record.tap.count))
    && TimerDiff16(again.event.time, before[j].record.event.time) < c.quickTapTerm(before, before[j].record)
    && TimerDiff16(again.event.time, before[j].record.event.time) < c.tappingTerm(before, before[j].record)
  }

  ghost predicate IsQuickTap(c: Config, before: seq<Call>, again: Record) {
    exists k: nat, j: nat :: QuickTapAfter(c, before, k, j, again)
  }

  /** The `k`-th call reported the press that `r` releases, with its tap state, and the key is still held. */
  ghost predicate IsHeldOf(before: seq<Call>, k: nat, r: Record) {
    && k < |before| && HeldFromTo(before, k, |before|, before[k].record)
    && before[k].record.event.key == r.event.key && before[k].record.tap == r.tap
  }

  /** What must be true of a call made after the calls `before`, the events `seen` having arrived.
      When a tapping key's own call is right is said in TappingArrivals.dfy. */
  ghost predicate Accounted(c: Config, seen: seq<Event>, before: seq<Call>, call: Call) {
    var r := call.record;
    match call.origin
    case OfTappingKey =>
      r.event.pressed && !r.event.IsTick() && r.event in seen && (r.tap.count == 0 || r.tap.count == 1)
    case OfEvent =>
      && !r.event.IsTick() && r.event in seen
      && (r.event.pressed ==> r.tap == NO_TAP || IsQuickTap(c, before, r))
      && (!r.event.pressed && r.tap.count > 0 ==> PressedWith(before, r.event.key, r.tap.count))
    case OfMadeUpRelease =>
      !r.event.pressed && r.tap.count > 1 && exists k: nat :: IsHeldOf(before, k, r)
  }

  ghost predicate AllAccounted(c: Config, seen: seq<Event>, calls: seq<Call>) {
    forall i | 0 <= i < |calls| :: Accounted(c, seen, calls[..i], calls[i])
  }

  // ---------------------------------------------------------------- the invariant

  /** A waiting record has arrived, and a release marked as a tap has its press reported. */
  ghost predicate WaitsSoundly(seen: seq<Event>, calls: seq<Call>, r: Record) {
    && r.event in seen && !r.event.IsTick() && Untouched(r)
    && (!r.event.pressed && r.tap.count > 0 ==> PressedWith(calls, r.event.key, r.tap.count))
  }

  /** The record the tapping key got when it was released. */
  ghost predicate IsReleaseOf(call: Call, tapping: Record) {
    && IsPlainRelease(call) && call.record.event == tapping.event
    && (!tapping.tap.interrupted ==> call.record == tapping)
  }

  /** A counted tapping key that is down has not been released since its press was reported. */
  ghost predicate IsHeld(calls: seq<Call>, r: Record) {
    exists k: nat :: HeldFromTo(calls, k, |calls|, r)
  }

  /** The `k`-th and `j`-th calls are the press and the release of the tapping key. */
  ghost predicate IsTapOf(c: Config, calls: seq<Call>, k: nat, j: nat, tapping: Record) {
    && IsTap(c, calls, k, j) && IsReleaseOf(calls[j], tapping) && calls[k].record.tap.count == tapping.tap.count
    && (!tapping.tap.interrupted ==> calls[k].record.tap == tapping.tap && OnlyReleasesAfter(calls, j))
  }

  ghost predicate TapsSoundly(c: Config, seen: seq<Event>, tapping: Record, calls: seq<Call>) {
    && tapping.event in seen
    && (tapping.event.pressed ==> tapping.tap.count == 0 || IsHeld(calls, tapping))
    && (!tapping.event.pressed ==> tapping.tap.count > 0 && exists k: nat, j: nat :: IsTapOf(c, calls, k, j, tapping))
  }

  ghost predicate BufferSound(seen: seq<Event>, s: State) {
    forall i | 0 <= i < |s.buffer| :: WaitsSoundly(seen, s.calls, s.buffer[i])
  }

  ghost predicate Sound(c: Config, seen: seq<Event>, s: State) {
    && AllAccounted(c, seen, s.calls)
    && BufferSound(seen, s)
    && (!s.IsReset() ==> TapsSoundly(c, seen, s.tapping, s.calls))
  }

  lemma {:induction false} PressedWithExtends(calls: seq<Call>, calls': seq<Call>, key: KeyPos, count: uint4)
    requires calls <= calls' && PressedWith(calls, key, count)
    ensures PressedWith(calls', key, count)
  {
    var k :| 0 <= k < |calls| && IsPress(calls[k], key, count);
    assert IsPress(calls'[k], key, count);
  }

  lemma {:induction false} TapExtends(c: Config, calls: seq<Call>, calls': seq<Call>, k: nat, j: nat)
    requires calls <= calls' && IsTap(c, calls, k, j)
    ensures IsTap(c, calls', k, j)
  {
    assert calls'[..j] == calls[..j];
  }

  lemma {:induction false} WaitsSoundlyExtends(seen: seq<Event>, calls: seq<Call>, calls': seq<Call>, r: Record)
    requires calls <= calls' && WaitsSoundly(seen, calls, r)
    ensures WaitsSoundly(seen, calls', r)
  {
    if !r.event.pressed && r.tap.count > 0 { PressedWithExtends(calls, calls', r.event.key, r.tap.count); }
  }

  lemma {:induction false} EmitKeepsCallsAndBuffer(c: Config, seen: seq<Event>, s: State, origin: Origin, r: Record)
    requires AllAccounted(c, seen, s.calls) && BufferSound(seen, s)
    requires Accounted(c, seen, s.calls, Call(origin, r))
    ensures AllAccounted(c, seen, Emit(s, origin, r).calls) && BufferSound(seen, Emit(s, origin, r))
    ensures s.calls <= Emit(s, origin, r).calls
    ensures r.event.pressed ==> PressedWith(Emit(s, origin, r).calls, r.event.key, r.tap.count)
    ensures r.event.pressed ==> IsHeld(Emit(s, origin, r).calls, r)
  {
    var calls' := Emit(s, origin, r).calls;
    forall i | 0 <= i < |calls'| ensures Accounted(c, seen, calls'[..i], calls'[i]) {
      assert calls'[..i] == if i < |s.calls| then s.calls[..i] else s.calls;
    }
    forall i | 0 <= i < |s.buffer| ensures WaitsSoundly(seen, calls', s.buffer[i]) {
      WaitsSoundlyExtends(seen, s.calls, calls', s.buffer[i]);
    }
    assert calls'[|s.calls|].record == r;
    if r.event.pressed { assert HeldFromTo(calls', |s.calls|, |calls'|, r); }
  }

  /** An event that does not release the key leaves it held. */
  lemma {:induction false} StaysHeld(s: State, r: Record, press: Record)
    requires IsHeld(s.calls, press) && (r.event.pressed || r.event.key != press.event.key)
    ensures IsHeld(Emit(s, OfEvent, r).calls, press)
  {
    var k: nat :| HeldFromTo(s.calls, k, |s.calls|, press);
    var calls' := Emit(s, OfEvent, r).calls;
    assert forall i | 0 <= i < |s.calls| :: calls'[i] == s.calls[i];
    assert HeldFromTo(calls', k, |calls'|, press);
  }

  // --------------------------------------------------------------------- one step

  lemma {:induction false} ScanStaysSound(c: Config, seen: seq<Event>, s: State)
    requires AllAccounted(c, seen, s.calls) && BufferSound(seen, s)
    requires !s.IsReset() && s.tapping.event in seen && s.tapping.event.pressed && s.tapping.tap == NO_TAP
    ensures Sound(c, seen, ScanTap(c, s)) && s.calls <= ScanTap(c, s).calls
  {
    var i := FindTap(c, s, 0);
    if i < |s.buffer| {
      var tapped := s.tapping.(tap := s.tapping.tap.(count := 1));
      EmitKeepsCallsAndBuffer(c, seen, s, OfTappingKey, tapped);
      assert ScanTap(c, s).buffer == s.buffer[i := s.buffer[i].(tap := s.buffer[i].tap.(count := 1))];
    }
  }

  /** An outcome is sound if the state is, and so is the record when it is still to wait. */
  ghost predicate SoundOutcome(c: Config, seen: seq<Event>, o: Outcome) {
    Sound(c, seen, o.state) && (!o.done && !o.keyp.event.IsTick() ==> WaitsSoundly(seen, o.state.calls, o.keyp))
  }

  lemma {:induction false} UndecidedStaysSound(c: Config, seen: seq<Event>, s: State, keyp: Record)
    requires Sound(c, seen, s) && WaitsSoundly(seen, s.calls, keyp)
    requires s.Undecided() && WithinTappingTerm(c, s, keyp.event)
    requires forall i | 0 <= i < |s.buffer| :: s.buffer[i].event in seen
    ensures SoundOutcome(c, seen, ProcessUndecided(c, s, keyp))
  {
    var event := keyp.event;
    if IsTappingRecord(s, keyp) && !event.pressed {
      var tapped := s.tapping.(tap := s.tapping.tap.(count := 1));
      EmitKeepsCallsAndBuffer(c, seen, s.(tapping := tapped), OfTappingKey, tapped);
    } else if !event.pressed && Typed(s.buffer, event) && c.permissiveHold(s.calls, s.tapping) {
      EmitKeepsCallsAndBuffer(c, seen, s, OfTappingKey, s.tapping);
      WaitsSoundlyExtends(seen, s.calls, Emit(s, OfTappingKey, s.tapping).calls, keyp);
    } else if !event.pressed && !Typed(s.buffer, event) {
      EmitKeepsCallsAndBuffer(c, seen, s, OfEvent, keyp);
    } else if event.pressed {
      var s' := s.(tapping := s.tapping.(tap := s.tapping.tap.(interrupted := true)));
      if c.holdOnOtherPress(s.calls, s'.tapping) {
        EmitKeepsCallsAndBuffer(c, seen, s', OfTappingKey, s'.tapping);
      }
    }
  }

  lemma {:induction false} WhileTappedStaysSound(c: Config, seen: seq<Event>, s: State, keyp: Record)
    requires Sound(c, seen, s) && WaitsSoundly(seen, s.calls, keyp)
    requires !s.IsReset() && s.tapping.event.pressed && s.tapping.tap.count > 0
    requires !IsTappingRecord(s, keyp) || keyp.event.pressed
    ensures SoundOutcome(c, seen, ProcessWhileTapped(c, s, keyp))
  {
    if IsTapRecord(c, s, keyp) && keyp.event.pressed {
      var s' := ReleaseLastTap(s, keyp.event.time);
      if s.tapping.tap.count > 1 {
        var release := Record(s.tapping.event.(time := keyp.event.time, pressed := false), s.tapping.tap);
        var k: nat :| HeldFromTo(s.calls, k, |s.calls|, s.tapping);
        assert IsHeldOf(s.calls, k, release);
        EmitKeepsCallsAndBuffer(c, seen, s, OfMadeUpRelease, release);
      }
      ScanStaysSound(c, seen, s'.(tapping := keyp));
    } else {
      EmitKeepsCallsAndBuffer(c, seen, s, OfEvent, keyp);
      StaysHeld(s, keyp, s.tapping);
    }
  }

  /** The release of a counted tapping key, which it keeps as its new self. */
  lemma {:induction false} ReleaseStaysSound(c: Config, seen: seq<Event>, s: State, keyp: Record)
    requires Sound(c, seen, s) && WaitsSoundly(seen, s.calls, keyp)
    requires !s.IsReset() && s.tapping.event.pressed && s.tapping.tap.count > 0
    requires IsTappingRecord(s, keyp) && !keyp.event.pressed
    ensures var released := keyp.(tap := s.tapping.tap);
      && (WithinTappingTerm(c, s, keyp.event) ==> Sound(c, seen, Emit(s, OfEvent, released).(tapping := released)))
      && Sound(c, seen, Emit(s, OfEvent, released).(tapping := ZERO_RECORD))
  {
    var released := keyp.(tap := s.tapping.tap);
    EmitKeepsCallsAndBuffer(c, seen, s, OfEvent, released);
    var calls' := Emit(s, OfEvent, released).calls;
    var k: nat :| HeldFromTo(s.calls, k, |s.calls|, s.tapping);
    assert forall i | 0 <= i < |s.calls| :: calls'[i] == s.calls[i];
    assert calls'[..|s.calls|] == s.calls;
    assert WithinTappingTerm(c, s, keyp.event) ==> IsTapOf(c, calls', k, |s.calls|, released);
  }

  /** Another release after a tap leaves the tap quick and undisturbed. */
  lemma {:induction false} PlainReleaseKeepsTap(c: Config, seen: seq<Event>, s: State, keyp: Record)
    requires Sound(c, seen, s) && WaitsSoundly(seen, s.calls, keyp)
    requires !s.IsReset() && !s.tapping.event.pressed && !keyp.event.pressed
    ensures Sound(c, seen, Emit(s, OfEvent, keyp))
  {
    EmitKeepsCallsAndBuffer(c, seen, s, OfEvent, keyp);
    var calls' := Emit(s, OfEvent, keyp).calls;
    var k: nat, j: nat :| IsTapOf(c, s.calls, k, j, s.tapping);
    TapExtends(c, s.calls, calls', k, j);
    assert IsTapOf(c, calls', k, j, s.tapping);
  }

  /** A plain press marks the tap interrupted. */
  lemma {:induction false} PlainPressInterrupts(c: Config, seen: seq<Event>, s: State, keyp: Record)
    requires Sound(c, seen, s) && WaitsSoundly(seen, s.calls, keyp)
    requires !s.IsReset() && !s.tapping.event.pressed && keyp.event.pressed
    ensures Sound(c, seen, Emit(s.(tapping := s.tapping.(tap := s.tapping.tap.(interrupted := true))), OfEvent, keyp))
  {
    EmitKeepsCallsAndBuffer(c, seen, s, OfEvent, keyp);
    var calls' := Emit(s, OfEvent, keyp).calls;
    var k: nat, j: nat :| IsTapOf(c, s.calls, k, j, s.tapping);
    TapExtends(c, s.calls, calls', k, j);
    assert IsTapOf(c, calls', k, j, s.tapping.(tap := s.tapping.tap.(interrupted := true)));
  }

  lemma {:induction false} QuickTapIsAccounted(c: Config, seen: seq<Event>, s: State, keyp: Record)
    requires Sound(c, seen, s) && WaitsSoundly(seen, s.calls, keyp)
    requires !s.IsReset() && !s.tapping.event.pressed && keyp.event.pressed
    requires WithinTappingTerm(c, s, keyp.event)
    requires IsTappingRecord(s, keyp) && WithinQuickTapTerm(c, s, keyp.event) && !s.tapping.tap.interrupted
    ensures var again := keyp.(tap := s.tapping.tap.(count := OneMore(s.tapping.tap.count)));
      Sound(c, seen, Emit(s, OfEvent, again).(tapping := again))
  {
    var again := keyp.(tap := s.tapping.tap.(count := OneMore(s.tapping.tap.count)));
    var k: nat, j: nat :| IsTapOf(c, s.calls, k, j, s.tapping);
    assert QuickTapAfter(c, s.calls, k, j, again);
    EmitKeepsCallsAndBuffer(c, seen, s, OfEvent, again);
  }

  /** The key pressed again, too late or disturbed: it starts a new tap. */
  lemma {:induction false} StartingOverStaysSound(c: Config, seen: seq<Event>, s: State, keyp: Record)
    requires Sound(c, seen, s) && WaitsSoundly(seen, s.calls, keyp) && keyp.event.pressed
    ensures Sound(c, seen, s.(tapping := keyp))
  {
  }

  lemma {:induction false} PressAgainOutcome(c: Config, s: State, keyp: Record)
    requires !s.tapping.event.pressed && s.tapping.tap.count > 0 && keyp.event.pressed && IsTappingRecord(s, keyp)
    ensures ProcessAfterTap(c, s, keyp) ==
      if WithinQuickTapTerm(c, s, keyp.event) && !s.tapping.tap.interrupted then
        var again := keyp.(tap := s.tapping.tap.(count := OneMore(s.tapping.tap.count)));
        Outcome(Emit(s, OfEvent, again).(tapping := again), again, true)
      else Outcome(s.(tapping := keyp), keyp, true)
  {
  }

  lemma {:induction false} PressAgainStaysSound(c: Config, seen: seq<Event>, s: State, keyp: Record, o: Outcome)
    requires Sound(c, seen, s) && WaitsSoundly(seen, s.calls, keyp)
    requires !s.IsReset() && !s.tapping.event.pressed && keyp.event.pressed && IsTappingRecord(s, keyp)
    requires WithinTappingTerm(c, s, keyp.event) && o == ProcessAfterTap(c, s, keyp)
    ensures o.done && Sound(c, seen, o.state)
  {
    PressAgainOutcome(c, s, keyp);
    if WithinQuickTapTerm(c, s, keyp.event) && !s.tapping.tap.interrupted {
      QuickTapIsAccounted(c, seen, s, keyp);
    } else {
      StartingOverStaysSound(c, seen, s, keyp);
    }
  }

  lemma {:induction false} AfterTapStaysSound(c: Config, seen: seq<Event>, s: State, keyp: Record)
    requires Sound(c, seen, s) && WaitsSoundly(seen, s.calls, keyp)
    requires !s.IsReset() && !s.tapping.event.pressed && WithinTappingTerm(c, s, keyp.event)
    ensures SoundOutcome(c, seen, ProcessAfterTap(c, s, keyp))
  {
    if !keyp.event.pressed {
      PlainReleaseKeepsTap(c, seen, s, keyp);
    } else if IsTappingRecord(s, keyp) {
      PressAgainStaysSound(c, seen, s, keyp, ProcessAfterTap(c, s, keyp));
    } else if IsTapRecord(c, s, keyp) {
      ScanStaysSound(c, seen, s.(tapping := keyp));
    } else {
      PlainPressInterrupts(c, seen, s, keyp);
    }
  }

  lemma {:induction false} TimeoutStaysSound(c: Config, seen: seq<Event>, s: State, keyp: Record)
    requires Sound(c, seen, s) && keyp.event in seen
    requires keyp.event.IsTick() || WaitsSoundly(seen, s.calls, keyp)
    requires s.Undecided() && !WithinTappingTerm(c, s, keyp.event)
    ensures SoundOutcome(c, seen, ProcessTapping(c, s, keyp))
  {
    EmitKeepsCallsAndBuffer(c, seen, s, OfTappingKey, s.tapping);
    if !keyp.event.IsTick() {
      WaitsSoundlyExtends(seen, s.calls, Emit(s, OfTappingKey, s.tapping).calls, keyp);
    }
  }

  lemma {:induction false} ProcessTappingStaysSound(c: Config, seen: seq<Event>, s: State, keyp: Record)
    requires Sound(c, seen, s) && keyp.event in seen
    requires keyp.event.IsTick() || WaitsSoundly(seen, s.calls, keyp)
    ensures SoundOutcome(c, seen, ProcessTapping(c, s, keyp))
  {
    if s.Undecided() && !WithinTappingTerm(c, s, keyp.event) {
      TimeoutStaysSound(c, seen, s, keyp);
    } else if keyp.event.IsTick() {
    } else if s.Undecided() {
      UndecidedStaysSound(c, seen, s, keyp);
    } else if s.IsReset() {
      EmitAtRestStaysSound(c, seen, s, keyp);
    } else if s.tapping.event.pressed {
      if IsTappingRecord(s, keyp) && !keyp.event.pressed {
        ReleaseStaysSound(c, seen, s, keyp);
      } else {
        WhileTappedStaysSound(c, seen, s, keyp);
      }
    } else if WithinTappingTerm(c, s, keyp.event) {
      AfterTapStaysSound(c, seen, s, keyp);
    }
  }

  lemma {:induction false} EmitAtRestStaysSound(c: Config, seen: seq<Event>, s: State, keyp: Record)
    requires Sound(c, seen, s) && WaitsSoundly(seen, s.calls, keyp) && s.IsReset()
    ensures SoundOutcome(c, seen, ProcessTapping(c, s, keyp))
  {
    if keyp.event.pressed && IsTapRecord(c, s, keyp) {
      ScanStaysSound(c, seen, s.(tapping := keyp));
    } else {
      EmitKeepsCallsAndBuffer(c, seen, s, OfEvent, keyp);
    }
  }

  // ------------------------------------------------------------------ whole calls

  lemma {:induction false} RoundStaysSound(c: Config, seen: seq<Event>, o: Outcome)
    requires SoundOutcome(c, seen, o) && o.state.buffer != [] && !o.keyp.event.IsTick()
    ensures Sound(c, seen, AfterRound(o))
  {
  }

  lemma {:induction false} DrainStaysSound(c: Config, seen: seq<Event>, s: State)
    requires Sound(c, seen, s)
    ensures Sound(c, seen, Drain(c, s))
    decreases |s.buffer|
  {
    if s.buffer != [] {
      var o := ProcessTapping(c, s, s.buffer[0]);
      KeepsWaitingEvents(c, s, s.buffer[0]);
      assert WaitsSoundly(seen, s.calls, s.buffer[0]);
      ProcessTappingStaysSound(c, seen, s, s.buffer[0]);
      RoundStaysSound(c, seen, o);
      if o.done { DrainStaysSound(c, seen, AfterRound(o)); }
    }
  }

  lemma {:induction false} OfferStaysSound(c: Config, seen: seq<Event>, s: State, r: Record)
    requires Sound(c, seen, s) && r.event in seen && r.tap == NO_TAP
    ensures Sound(c, seen, Offer(c, s, r))
  {
    ProcessTappingStaysSound(c, seen, s, r);
    KeepsWaitingEvents(c, s, r);
  }

  lemma {:induction false} SoundAfterMore(c: Config, seen: seq<Event>, e: Event, s: State)
    requires Sound(c, seen, s)
    ensures Sound(c, seen + [e], s)
  {
  }

  // ------------------------------------------------------------------- whole runs

  /** In every run, overflows included, every call has its grounds. */
  lemma {:induction false} EveryCallIsAccounted(c: Config, es: seq<Event>)
    ensures Sound(c, es, Run(c, es))
    ensures AllAccounted(c, es, Run(c, es).calls)
  {
    if es != [] {
      var earlier, e := es[..|es| - 1], es[|es| - 1];
      var before := Run(c, earlier);
      EveryCallIsAccounted(c, earlier);
      SoundAfterMore(c, earlier, e, before);
      assert earlier + [e] == es;
      OfferStaysSound(c, es, before, Fresh(e));
      DrainStaysSound(c, es, Offer(c, before, Fresh(e)));
    }
  }

  /** The `i`-th call is the last of `len` quick taps of one key in a row: the first, at the call
      `first`, was settled by its own release, and each later one follows the release of the one before. */
  ghost predicate QuickTaps(c: Config, calls: seq<Call>, first: nat, i: nat, len: nat)
    decreases len
  {
    && first <= i < |calls| && calls[i].record.event.pressed && len > 0
    && if len == 1 then first == i && calls[i].origin.OfTappingKey? && calls[i].record.tap.count == 1
       else exists k: nat, j: nat ::
         k < j < i && QuickTapAfter(c, calls[..i], k, j, calls[i].record) && QuickTaps(c, calls, first, k, len - 1)
  }

  function Saturated(len: nat): nat { if len < 15 then len else 15 }

  /** The reported tap count is the length of the run of quick taps, saturated at 15. */
  lemma {:induction false} TapCountIsRunLength(c: Config, seen: seq<Event>, calls: seq<Call>, i: nat)
    returns (first: nat, len: nat)
    requires AllAccounted(c, seen, calls) && i < |calls|
    requires calls[i].record.event.pressed && calls[i].record.tap.count > 0
    ensures QuickTaps(c, calls, first, i, len) && calls[i].record.tap.count == Saturated(len)
    decreases i
  {
    assert Accounted(c, seen, calls[..i], calls[i]);
    var again := calls[i].record;
    if calls[i].origin.OfTappingKey? {
      first, len := i, 1;
    } else {
      var k: nat, j: nat :| QuickTapAfter(c, calls[..i], k, j, again);
      first, len := TapCountIsRunLength(c, seen, calls, k);
      len := len + 1;
    }
  }

  lemma {:induction false} FirstOfQuickTaps(c: Config, calls: seq<Call>, first: nat, i: nat, len: nat)
    requires QuickTaps(c, calls, first, i, len)
    ensures first < |calls| && calls[first].origin.OfTappingKey? && calls[first].record.tap.count == 1
    decreases len
  {
    if len > 1 {
      var k: nat, j: nat :| k < j < i && QuickTapAfter(c, calls[..i], k, j, calls[i].record)
                           && QuickTaps(c, calls, first, k, len - 1);
      FirstOfQuickTaps(c, calls, first, k, len - 1);
    }
  }

  // ------------------------------------------------- when the decision is taken

  /** Everything that can settle an undecided key inside its term. */
  ghost predicate SettlesInTerm(c: Config, s: State, r: Record) {
    && !r.event.IsTick()
    && if r.event.pressed
       then c.holdOnOtherPress(s.calls, s.tapping.(tap := s.tapping.tap.(interrupted := true)))
       else r.event.key == s.tapping.event.key
            || (Typed(s.buffer, r.event) && c.permissiveHold(s.calls, s.tapping))
  }

  /** process_tapping settles the undecided key exactly when the term is over or something
      settles it inside, and what it reports says which. */
  lemma {:induction false} SettledExactlyWhen(c: Config, s: State, r: Record)
    requires s.Undecided()
    ensures var o := ProcessTapping(c, s, r);
      !o.state.Undecided() <==> !WithinTappingTerm(c, s, r.event) || SettlesInTerm(c, s, r)
    ensures var o := ProcessTapping(c, s, r);
      !o.state.Undecided() ==>
        && !o.done && |o.state.calls| == |s.calls| + 1
        && o.state.calls[|s.calls|].origin.OfTappingKey? && o.state.calls[|s.calls|].record.event == s.tapping.event
        && (o.state.calls[|s.calls|].record.tap.count == 1 <==>
              WithinTappingTerm(c, s, r.event) && Taps(c, s.calls, s.tapping, r.event))
        && (o.state.calls[|s.calls|].record.tap.count != 1 ==>
              o.state.calls[|s.calls|].record.tap.count == 0 && o.state.IsReset())
  {
  }

  /** No event and no tick at or past the term leaves the key undecided: it is a hold. */
  lemma {:induction false} TermEndDecides(c: Config, s: State, r: Record)
    requires s.Undecided() && !WithinTappingTerm(c, s, r.event)
    ensures s.calls + [Call(OfTappingKey, s.tapping)] <= ActionTappingProcess(c, s, r).calls
  {
    CallsGrow(c, Offer(c, s, r));
  }

  lemma {:induction false} ProcessTappingGrows(c: Config, s: State, keyp: Record)
    ensures s.calls <= ProcessTapping(c, s, keyp).state.calls
  {
  }

  /** No call is ever taken back. */
  lemma {:induction false} CallsGrow(c: Config, s: State)
    ensures s.calls <= Drain(c, s).calls
    decreases |s.buffer|
  {
    if s.buffer != [] {
      var o := ProcessTapping(c, s, s.buffer[0]);
      KeepsWaitingEvents(c, s, s.buffer[0]);
      ProcessTappingGrows(c, s, s.buffer[0]);
      if o.done { CallsGrow(c, AfterRound(o)); }
    }
  }
}
