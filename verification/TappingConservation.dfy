/** Exactly once: every key event offered to the resolver is processed once, or is
    still held, or was dropped by an overflow (quantum/action_tapping.c:80-113).
    Everything is counted per event, so repeated events count as often as they occur. */
module TappingConservation {
  import opened KeyEvents
  import opened Tapping

  function One(b: bool): nat { if b then 1 else 0 }

  /** How often `e` is among the records. */
  function Occurrences(rs: seq<Record>, e: Event): nat {
    if rs == [] then 0 else One(rs[0].event == e) + Occurrences(rs[1..], e)
  }

  /** How often `process_record` was given `e`, leaving out made-up releases. */
  function Processed(calls: seq<Call>, e: Event): nat {
    if calls == [] then 0
    else
      var last := calls[|calls| - 1];
      Processed(calls[..|calls| - 1], e) + One(!last.origin.OfMadeUpRelease? && last.record.event == e)
  }

  function Pending(s: State, e: Event): nat { One(s.Undecided() && s.tapping.event == e) }

  function Held(s: State, e: Event): nat { Pending(s, e) + Occurrences(s.buffer, e) }

  /** A tick is not a key event: it carries nothing that could be processed. */
  function Arrives(r: Record, e: Event): nat { One(!r.event.IsTick() && r.event == e) }

  function Arrived(es: seq<Event>, e: Event): nat {
    if es == [] then 0 else Arrived(es[..|es| - 1], e) + Arrives(Fresh(es[|es| - 1]), e)
  }

  /** This call finds the waiting buffer full. */
  predicate OverflowsOn(c: Config, s: State, r: Record) {
    var o := ProcessTapping(c, s, r);
    !o.done && Overflows(o.state, o.keyp)
  }

  function DroppedBy(c: Config, s: State, r: Record, e: Event): nat {
    if OverflowsOn(c, s, r) then Held(ProcessTapping(c, s, r).state, e) + Arrives(r, e) else 0
  }

  /** How often `e` was thrown away by overflows along a run. */
  function Dropped(c: Config, es: seq<Event>, e: Event): nat {
    if es == [] then 0
    else
      Dropped(c, es[..|es| - 1], e) + DroppedBy(c, Run(c, es[..|es| - 1]), Fresh(es[|es| - 1]), e)
  }

  ghost predicate NeverOverflows(c: Config, es: seq<Event>) {
    forall i | 0 <= i < |es| :: !OverflowsOn(c, Run(c, es[..i]), Fresh(es[i]))
  }

  /** Presses wait with their tap state still zero. */
  predicate Untouched(r: Record) { r.event.pressed ==> r.tap == NO_TAP }
  predicate PressesUntouched(rs: seq<Record>) { forall i | 0 <= i < |rs| :: Untouched(rs[i]) }

  // ---------------------------------------------------------------- one step

  lemma {:induction false} EmitProcesses(s: State, origin: Origin, r: Record, e: Event)
    ensures Processed(Emit(s, origin, r).calls, e)
         == Processed(s.calls, e) + One(!origin.OfMadeUpRelease? && r.event == e)
  {
    assert (s.calls + [Call(origin, r)])[..|s.calls|] == s.calls;
  }

  lemma {:induction false} ScanConserves(c: Config, s: State, e: Event)
    requires !s.IsReset()
    ensures Processed(ScanTap(c, s).calls, e) + Pending(ScanTap(c, s), e) == Processed(s.calls, e) + Pending(s, e)
  {
    var s' := ScanTap(c, s);
    if s' != s {
      EmitProcesses(s.(tapping := s'.tapping, buffer := s'.buffer), OfTappingKey, s'.tapping, e);
    }
  }

  lemma {:induction false} UndecidedConserves(c: Config, s: State, keyp: Record, e: Event)
    requires s.Undecided() && !keyp.event.IsTick()
    ensures var o := ProcessUndecided(c, s, keyp);
      Processed(o.state.calls, e) + Pending(o.state, e)
      == Processed(s.calls, e) + Pending(s, e) + if o.done then Arrives(keyp, e) else 0
  {
    var tapped := s.tapping.(tap := s.tapping.tap.(count := 1));
    EmitProcesses(s.(tapping := tapped), OfTappingKey, tapped, e);
    EmitProcesses(s, OfTappingKey, s.tapping, e);
    EmitProcesses(s, OfEvent, keyp, e);
    var s' := s.(tapping := s.tapping.(tap := s.tapping.tap.(interrupted := true)));
    EmitProcesses(s', OfTappingKey, s'.tapping, e);
  }

  lemma {:induction false} MadeUpReleaseCountsForNothing(s: State, time: uint16, e: Event)
    ensures Processed(ReleaseLastTap(s, time).calls, e) == Processed(s.calls, e)
  {
    EmitProcesses(s, OfMadeUpRelease, Record(s.tapping.event.(time := time, pressed := false), s.tapping.tap), e);
  }

  lemma {:induction false} WhileTappedConserves(c: Config, s: State, keyp: Record, e: Event)
    requires s.tapping.event.pressed && !s.IsReset() && s.tapping.tap.count > 0
    requires !keyp.event.IsTick() && Untouched(keyp)
    ensures var o := ProcessWhileTapped(c, s, keyp);
      Processed(o.state.calls, e) + Pending(o.state, e) == Processed(s.calls, e) + Pending(s, e) + Arrives(keyp, e)
  {
    if IsTapRecord(c, s, keyp) && keyp.event.pressed {
      MadeUpReleaseCountsForNothing(s, keyp.event.time, e);
      ScanConserves(c, ReleaseLastTap(s, keyp.event.time).(tapping := keyp), e);
    } else {
      EmitProcesses(s, OfEvent, keyp, e);
    }
  }

  lemma {:induction false} AfterTapConserves(c: Config, s: State, keyp: Record, e: Event)
    requires !s.tapping.event.pressed && !s.IsReset()
    requires !keyp.event.IsTick() && Untouched(keyp)
    ensures var o := ProcessAfterTap(c, s, keyp);
      Processed(o.state.calls, e) + Pending(o.state, e) == Processed(s.calls, e) + Pending(s, e) + Arrives(keyp, e)
  {
    if !keyp.event.pressed {
      EmitProcesses(s, OfEvent, keyp, e);
    } else if IsTappingRecord(s, keyp) {
      var n: uint4 := if s.tapping.tap.count < 15 then s.tapping.tap.count + 1 else 15;
      EmitProcesses(s, OfEvent, keyp.(tap := s.tapping.tap.(count := n)), e);
    } else if IsTapRecord(c, s, keyp) {
      ScanConserves(c, s.(tapping := keyp), e);
    } else {
      EmitProcesses(s.(tapping := s.tapping.(tap := s.tapping.tap.(interrupted := true))), OfEvent, keyp, e);
    }
  }

  /** Nothing is lost or invented by a step: what it adds is the event, if it says so. */
  predicate Conserves(s: State, keyp: Record, o: Outcome, e: Event) {
    Processed(o.state.calls, e) + Pending(o.state, e)
    == Processed(s.calls, e) + Pending(s, e) + if o.done then Arrives(keyp, e) else 0
  }

  lemma {:induction false} TimeoutConserves(c: Config, s: State, keyp: Record, e: Event)
    requires s.Undecided() && !WithinTappingTerm(c, s, keyp.event)
    ensures Conserves(s, keyp, ProcessTapping(c, s, keyp), e)
  {
    EmitProcesses(s, OfTappingKey, s.tapping, e);
  }

  lemma {:induction false} AtRestConserves(c: Config, s: State, keyp: Record, e: Event)
    requires s.IsReset() && !keyp.event.IsTick() && Untouched(keyp)
    ensures Conserves(s, keyp, ProcessTapping(c, s, keyp), e)
  {
    EmitProcesses(s, OfEvent, keyp, e);
    ScanConserves(c, s.(tapping := keyp), e);
  }

  lemma {:induction false} CountedConserves(c: Config, s: State, keyp: Record, e: Event)
    requires !s.IsReset() && s.tapping.event.pressed && s.tapping.tap.count > 0
    requires !keyp.event.IsTick() && Untouched(keyp)
    ensures Conserves(s, keyp, ProcessTapping(c, s, keyp), e)
  {
    EmitProcesses(s, OfEvent, keyp.(tap := s.tapping.tap), e);
    WhileTappedConserves(c, s, keyp, e);
  }

  /** One call of process_tapping moves events between "undecided" and "processed" and
      adds exactly the event at hand when it reports it consumed. */
  lemma {:induction false} ProcessTappingConserves(c: Config, s: State, keyp: Record, e: Event)
    requires Untouched(keyp)
    ensures Conserves(s, keyp, ProcessTapping(c, s, keyp), e)
  {
    if s.Undecided() && !WithinTappingTerm(c, s, keyp.event) {
      TimeoutConserves(c, s, keyp, e);
    } else if keyp.event.IsTick() {
    } else if s.IsReset() {
      AtRestConserves(c, s, keyp, e);
    } else if s.Undecided() {
      UndecidedConserves(c, s, keyp, e);
    } else if s.tapping.event.pressed {
      CountedConserves(c, s, keyp, e);
    } else {
      AfterTapConserves(c, s, keyp, e);
    }
  }

  lemma {:induction false} KeepsUntouched(c: Config, s: State, keyp: Record)
    requires PressesUntouched(s.buffer) && Untouched(keyp)
    ensures PressesUntouched(ProcessTapping(c, s, keyp).state.buffer)
    ensures !ProcessTapping(c, s, keyp).done ==> Untouched(ProcessTapping(c, s, keyp).keyp)
  {
  }

  // ------------------------------------------------------------ whole calls

  lemma {:induction false} SameEventsSameCount(a: seq<Record>, b: seq<Record>, e: Event)
    requires SameEvents(a, b)
    ensures Occurrences(a, e) == Occurrences(b, e)
  {
    if a != [] { SameEventsSameCount(a[1..], b[1..], e); }
  }

  lemma {:induction false} OccurrencesPush(rs: seq<Record>, r: Record, e: Event)
    ensures Occurrences(rs + [r], e) == Occurrences(rs, e) + One(r.event == e)
  {
    if rs != [] {
      OccurrencesPush(rs[1..], r, e);
      assert (rs + [r])[1..] == rs[1..] + [r];
    }
  }

  lemma {:induction false} OfferConserves(c: Config, s: State, r: Record, e: Event)
    requires PressesUntouched(s.buffer) && Untouched(r)
    ensures PressesUntouched(Offer(c, s, r).buffer)
    ensures Processed(Offer(c, s, r).calls, e) + Held(Offer(c, s, r), e) + DroppedBy(c, s, r, e)
         == Processed(s.calls, e) + Held(s, e) + Arrives(r, e)
  {
    var o := ProcessTapping(c, s, r);
    KeepsWaitingEvents(c, s, r);
    KeepsUntouched(c, s, r);
    ProcessTappingConserves(c, s, r, e);
    SameEventsSameCount(o.state.buffer, s.buffer, e);
    OccurrencesPush(o.state.buffer, o.keyp, e);
  }

  lemma {:induction false} DrainConserves(c: Config, s: State, e: Event)
    requires PressesUntouched(s.buffer)
    requires forall i | 0 <= i < |s.buffer| :: !s.buffer[i].event.IsTick()
    ensures PressesUntouched(Drain(c, s).buffer)
    ensures forall i | 0 <= i < |Drain(c, s).buffer| :: !Drain(c, s).buffer[i].event.IsTick()
    ensures Processed(Drain(c, s).calls, e) + Held(Drain(c, s), e) == Processed(s.calls, e) + Held(s, e)
    decreases |s.buffer|
  {
    if s.buffer != [] {
      var keyp := s.buffer[0];
      var o := ProcessTapping(c, s, keyp);
      KeepsWaitingEvents(c, s, keyp);
      KeepsUntouched(c, s, keyp);
      ProcessTappingConserves(c, s, keyp, e);
      SameEventsSameCount(o.state.buffer, s.buffer, e);
      if o.done {
        DrainConserves(c, o.state.(buffer := o.state.buffer[1..]), e);
      } else {
        SameEventsSameCount(o.state.buffer[0 := o.keyp], s.buffer, e);
      }
    }
  }

  /** Only key events ever wait. */
  predicate NoTicksWait(s: State) { forall i | 0 <= i < |s.buffer| :: !s.buffer[i].event.IsTick() }

  lemma {:induction false} OfferKeepsTicksOut(c: Config, s: State, r: Record)
    requires NoTicksWait(s)
    ensures NoTicksWait(Offer(c, s, r))
  {
    KeepsWaitingEvents(c, s, r);
  }

  // -------------------------------------------------------------- whole runs

  /** Conservation over a whole run: nothing is lost, duplicated or invented. */
  lemma {:induction false} ExactlyOnce(c: Config, es: seq<Event>, e: Event)
    ensures PressesUntouched(Run(c, es).buffer) && NoTicksWait(Run(c, es))
    ensures Processed(Run(c, es).calls, e) + Held(Run(c, es), e) + Dropped(c, es, e) == Arrived(es, e)
  {
    if es != [] {
      var before, r := Run(c, es[..|es| - 1]), Fresh(es[|es| - 1]);
      ExactlyOnce(c, es[..|es| - 1], e);
      OfferConserves(c, before, r, e);
      OfferKeepsTicksOut(c, before, r);
      DrainConserves(c, Offer(c, before, r), e);
    }
  }

  lemma {:induction false} NothingDropped(c: Config, es: seq<Event>, e: Event)
    requires NeverOverflows(c, es)
    ensures Dropped(c, es, e) == 0
  {
    if es != [] {
      var earlier := es[..|es| - 1];
      forall i | 0 <= i < |earlier| ensures !OverflowsOn(c, Run(c, earlier[..i]), Fresh(earlier[i])) {
        assert earlier[..i] == es[..i];
      }
      NothingDropped(c, earlier, e);
    }
  }

  /** Without an overflow every key event is processed exactly once or still held. */
  lemma {:induction false} ExactlyOnceWithoutOverflow(c: Config, es: seq<Event>, e: Event)
    requires NeverOverflows(c, es)
    ensures Processed(Run(c, es).calls, e) + Held(Run(c, es), e) == Arrived(es, e)
  {
    ExactlyOnce(c, es, e);
    NothingDropped(c, es, e);
  }

  /** An overflow empties everything and leaves the resolver reset. */
  lemma {:induction false} OverflowEmptiesEverything(c: Config, s: State, r: Record, e: Event)
    requires OverflowsOn(c, s, r)
    ensures var s' := ActionTappingProcess(c, s, r);
      s'.IsReset() && s'.buffer == [] && Held(s', e) == 0 && s'.calls == ProcessTapping(c, s, r).state.calls
  {
  }

  /** That happens exactly if seven events wait already and a key event is not consumed. */
  lemma {:induction false} OverflowsExactlyWhen(c: Config, s: State, r: Record)
    ensures OverflowsOn(c, s, r) <==> |s.buffer| >= 7 && !r.event.IsTick() && !ProcessTapping(c, s, r).done
  {
    KeepsWaitingEvents(c, s, r);
  }
}
