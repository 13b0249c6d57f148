/** Order: the resolver is a delay queue.  Arriving events join the end; an event leaves
    from the front, or as a release that no earlier waiting press of its key holds back
    (quantum/action_tapping.c:97-109, 257-300). */
module TappingOrder {
  import opened KeyEvents
  import opened Tapping
  import opened TappingConservation
  import opened Sequences

  // ------------------------------------------------------------ the delay queue

  /** The queue may let go of its `i`-th event. */
  ghost predicate MayDeliver(q: seq<Event>, i: nat) {
    && i < |q|
    && (i == 0 || (!q[i].pressed && forall j | 0 <= j < i :: !(q[j].pressed && q[j].key == q[i].key)))
  }

  function Without(q: seq<Event>, i: nat): seq<Event>
    requires i < |q|
  {
    q[..i] + q[i + 1..]
  }

  /** The queue `q` can deliver `o`, one event after the other, and then holds `rest`. */
  ghost predicate Delivers(q: seq<Event>, o: seq<Event>, rest: seq<Event>)
    decreases |o|
  {
    if o == [] then q == rest
    else exists i: nat :: MayDeliver(q, i) && q[i] == o[0] && Delivers(Without(q, i), o[1..], rest)
  }

  lemma {:induction false} DeliversThenDelivers(q: seq<Event>, o1: seq<Event>, mid: seq<Event>, o2: seq<Event>,
                                                rest: seq<Event>)
    requires Delivers(q, o1, mid) && Delivers(mid, o2, rest)
    ensures Delivers(q, o1 + o2, rest)
    decreases |o1|
  {
    if o1 == [] {
      assert o1 + o2 == o2;
    } else {
      var i: nat :| MayDeliver(q, i) && q[i] == o1[0] && Delivers(Without(q, i), o1[1..], mid);
      DeliversThenDelivers(Without(q, i), o1[1..], mid, o2, rest);
      assert (o1 + o2)[1..] == o1[1..] + o2;
    }
  }

  lemma {:induction false} MayDeliverBeforeArrival(q: seq<Event>, i: nat, arriving: seq<Event>)
    requires MayDeliver(q, i)
    ensures MayDeliver(q + arriving, i) && (q + arriving)[i] == q[i]
    ensures Without(q + arriving, i) == Without(q, i) + arriving
  {
    forall j | 0 <= j < i ensures (q + arriving)[j] == q[j] {}
  }

  /** An arrival at the end disturbs no delivery. */
  lemma {:induction false} DeliversBeforeArrival(q: seq<Event>, o: seq<Event>, rest: seq<Event>, arriving: seq<Event>)
    requires Delivers(q, o, rest)
    ensures Delivers(q + arriving, o, rest + arriving)
    decreases |o|
  {
    if o != [] {
      var i: nat :| MayDeliver(q, i) && q[i] == o[0] && Delivers(Without(q, i), o[1..], rest);
      DeliversBeforeArrival(Without(q, i), o[1..], rest, arriving);
      MayDeliverBeforeArrival(q, i, arriving);
    }
  }

  lemma {:induction false} DeliversOne(q: seq<Event>, i: nat, rest: seq<Event>)
    requires MayDeliver(q, i) && Without(q, i) == rest
    ensures Delivers(q, [q[i]], rest)
  {
    assert Delivers(Without(q, i), [q[i]][1..], rest);
  }

  // -------------------------------------------------- what delivery guarantees

  function Presses(es: seq<Event>): seq<Event> {
    if es == [] then [] else PressOf(es[0]) + Presses(es[1..])
  }

  function PressOf(e: Event): seq<Event> { if e.pressed then [e] else [] }

  lemma {:induction false} PressesConcat(a: seq<Event>, b: seq<Event>)
    ensures Presses(a + b) == Presses(a) + Presses(b)
  {
    if a == [] {
      assert a + b == b;
    } else {
      PressesConcat(a[1..], b);
      assert (a + b)[0] == a[0] && (a + b)[1..] == a[1..] + b;
      Reassociate(PressOf(a[0]), Presses(a[1..]), Presses(b));
    }
  }

  lemma {:induction false} PressesAround(x: seq<Event>, e: Event, y: seq<Event>)
    ensures Presses(x + ([e] + y)) == Presses(x) + (PressOf(e) + Presses(y))
  {
    PressesConcat(x, [e] + y);
    assert ([e] + y)[0] == e && ([e] + y)[1..] == y;
  }

  lemma {:induction false} PressesWithout(q: seq<Event>, i: nat)
    requires MayDeliver(q, i)
    ensures Presses(q) == PressOf(q[i]) + Presses(Without(q, i))
  {
    var x, y := q[..i], q[i + 1..];
    assert q == x + ([q[i]] + y);
    PressesAround(x, q[i], y);
    PressesConcat(x, y);
    NothingBefore(Presses(x), PressOf(q[i]), Presses(y));
  }

  lemma {:induction false} NothingBefore(x: seq<Event>, e: seq<Event>, y: seq<Event>)
    requires x == [] || e == []
    ensures x + (e + y) == e + (x + y)
  {
  }

  /** Presses come out in the order they went in. */
  lemma {:induction false} PressesKeepTheirOrder(q: seq<Event>, o: seq<Event>, rest: seq<Event>)
    requires Delivers(q, o, rest)
    ensures Presses(q) == Presses(o + rest)
    decreases |o|
  {
    if o == [] {
      assert o + rest == rest;
    } else {
      var i: nat :| MayDeliver(q, i) && q[i] == o[0] && Delivers(Without(q, i), o[1..], rest);
      PressesWithout(q, i);
      PressesKeepTheirOrder(Without(q, i), o[1..], rest);
      assert (o + rest)[1..] == o[1..] + rest;
    }
  }

  /** Where an event was before the `k`-th was taken out. */
  function Unshifted(k: nat, m: nat): nat { if m < k then m else m + 1 }

  /** `order` says where in the queue each event was, as they come out or wait. */
  ghost predicate IsOrder(q: seq<Event>, out: seq<Event>, order: seq<nat>) {
    && |order| == |out| == |q|
    && (forall i | 0 <= i < |q| :: order[i] < |q| && out[i] == q[order[i]])
    && (forall i, j | 0 <= i < j < |q| :: order[i] != order[j])
  }

  /** The `m`-th in the queue may overtake the `k`-th: it is a release, and not of a key that the
      `k`-th presses. */
  ghost predicate MayOvertake(q: seq<Event>, m: nat, k: nat)
    requires m < |q| && k < |q|
  {
    !q[m].pressed && !(q[k].pressed && q[k].key == q[m].key)
  }

  ghost predicate OvertakesFreely(q: seq<Event>, order: seq<nat>)
    requires forall i | 0 <= i < |order| :: order[i] < |q|
  {
    forall i, j | 0 <= i < j < |order| && order[i] > order[j] :: MayOvertake(q, order[i], order[j])
  }

  /** The order in `q`, when the `k`-th comes out first and the others in the order `later`. */
  function Prepended(k: nat, later: seq<nat>): (order: seq<nat>)
    ensures |order| == |later| + 1 && order[0] == k
    ensures forall i | 0 < i < |order| :: order[i] == Unshifted(k, later[i - 1])
  {
    [k] + seq(|later|, i requires 0 <= i < |later| => Unshifted(k, later[i]))
  }

  lemma {:induction false} WithoutAt(q: seq<Event>, k: nat, m: nat)
    requires k < |q| && m < |q| - 1
    ensures |Without(q, k)| == |q| - 1 && Without(q, k)[m] == q[Unshifted(k, m)]
  {
  }

  lemma {:induction false} PrependedIsOrder(q: seq<Event>, k: nat, out: seq<Event>, later: seq<nat>)
    requires k < |q| && IsOrder(Without(q, k), out, later)
    ensures IsOrder(q, [q[k]] + out, Prepended(k, later))
  {
    var order := Prepended(k, later);
    forall i | 0 <= i < |order| ensures order[i] < |q| && ([q[k]] + out)[i] == q[order[i]] {
      if i > 0 { WithoutAt(q, k, later[i - 1]); }
    }
  }

  lemma {:induction false} PrependedOvertakes(q: seq<Event>, k: nat, out: seq<Event>, later: seq<nat>)
    requires MayDeliver(q, k) && IsOrder(Without(q, k), out, later) && OvertakesFreely(Without(q, k), later)
    requires IsOrder(q, [q[k]] + out, Prepended(k, later))
    ensures OvertakesFreely(q, Prepended(k, later))
  {
    var order := Prepended(k, later);
    forall i, j | 0 <= i < j < |order| && order[i] > order[j] ensures MayOvertake(q, order[i], order[j]) {
      if i > 0 {
        WithoutAt(q, k, later[i - 1]);
        WithoutAt(q, k, later[j - 1]);
        assert MayOvertake(Without(q, k), later[i - 1], later[j - 1]);
      }
    }
  }

  /** Whatever comes out (or waits) ahead of an event that was before it in the queue may overtake
      it: no release is processed before its own press. */
  lemma {:induction false} OnlyFreeReleasesOvertake(q: seq<Event>, o: seq<Event>, rest: seq<Event>)
    returns (order: seq<nat>)
    requires Delivers(q, o, rest)
    ensures IsOrder(q, o + rest, order) && OvertakesFreely(q, order)
    decreases |o|
  {
    if o == [] {
      assert o + rest == q;
      order := seq(|q|, i => i);
    } else {
      var k: nat :| MayDeliver(q, k) && q[k] == o[0] && Delivers(Without(q, k), o[1..], rest);
      var later := OnlyFreeReleasesOvertake(Without(q, k), o[1..], rest);
      assert o + rest == [q[k]] + (o[1..] + rest);
      PrependedIsOrder(q, k, o[1..] + rest, later);
      PrependedOvertakes(q, k, o[1..] + rest, later);
      order := Prepended(k, later);
    }
  }

  // ------------------------------------------------- the resolver as a queue

  function EventsOf(rs: seq<Record>): (es: seq<Event>)
    ensures |es| == |rs| && forall i | 0 <= i < |rs| :: es[i] == rs[i].event
  {
    seq(|rs|, i requires 0 <= i < |rs| => rs[i].event)
  }

  function PendingSeq(s: State): seq<Event> { if s.Undecided() then [s.tapping.event] else [] }

  /** What the resolver holds back: the undecided key, then the waiting buffer. */
  function Queue(s: State): seq<Event> { PendingSeq(s) + EventsOf(s.buffer) }

  function KeyEventsOf(e: Event): seq<Event> { if e.IsTick() then [] else [e] }

  /** The events of the calls, in order, leaving out made-up releases. */
  function Delivered(calls: seq<Call>): seq<Event> {
    if calls == [] then []
    else
      var last := calls[|calls| - 1];
      Delivered(calls[..|calls| - 1]) + if last.origin.OfMadeUpRelease? then [] else [last.record.event]
  }

  lemma {:induction false} EmitDelivers(s: State, origin: Origin, r: Record)
    ensures Delivered(Emit(s, origin, r).calls)
         == Delivered(s.calls) + if origin.OfMadeUpRelease? then [] else [r.event]
  {
    assert (s.calls + [Call(origin, r)])[..|s.calls|] == s.calls;
  }

  /** The ways one call of process_tapping can move events. */
  datatype Move = Start | Pass | PassFree | Settle | Wait | Tick

  ghost predicate Moves(m: Move, s: State, keyp: Record, o: Outcome) {
    var pend, pend' := PendingSeq(s), PendingSeq(o.state);
    var out, out' := Delivered(s.calls), Delivered(o.state.calls);
    match m
    // the event becomes the undecided key
    case Start => o.done && pend == [] && pend' == [keyp.event] && out' == out && keyp.event.pressed
    // the event is processed and nothing is undecided
    case Pass => o.done && pend == [] && pend' == [] && out' == out + [keyp.event]
    // the event overtakes the undecided key and the buffer
    case PassFree =>
      && o.done && pend' == pend && out' == out + [keyp.event] && !keyp.event.pressed
      && s.Undecided() && keyp.event.key != s.tapping.event.key && !Typed(s.buffer, keyp.event)
    // the undecided key is settled
    case Settle => !o.done && s.Undecided() && pend' == [] && out' == out + [s.tapping.event]
    case Wait => !o.done && pend' == pend && out' == out
    case Tick => o.done && keyp.event.IsTick() && pend' == pend && out' == out
  }

  lemma {:induction false} ScanStartsOrPasses(c: Config, s: State, keyp: Record) returns (m: Move)
    requires !s.IsReset() && s.tapping == keyp && keyp.event.pressed && keyp.tap == NO_TAP
    ensures m.Start? || m.Pass?
    ensures m.Start? ==>
      PendingSeq(ScanTap(c, s)) == [keyp.event] && Delivered(ScanTap(c, s).calls) == Delivered(s.calls)
    ensures m.Pass? ==>
      PendingSeq(ScanTap(c, s)) == [] && Delivered(ScanTap(c, s).calls) == Delivered(s.calls) + [keyp.event]
  {
    var s' := ScanTap(c, s);
    if s' == s {
      m := Start;
    } else {
      EmitDelivers(s.(tapping := s'.tapping, buffer := s'.buffer), OfTappingKey, s'.tapping);
      m := Pass;
    }
  }

  lemma {:induction false} UndecidedMoves(c: Config, s: State, keyp: Record) returns (m: Move)
    requires s.Undecided() && !keyp.event.IsTick()
    ensures Moves(m, s, keyp, ProcessUndecided(c, s, keyp))
  {
    var event := keyp.event;
    if IsTappingRecord(s, keyp) && !event.pressed {
      var tapped := s.tapping.(tap := s.tapping.tap.(count := 1));
      EmitDelivers(s.(tapping := tapped), OfTappingKey, tapped);
      m := Settle;
    } else if !event.pressed && Typed(s.buffer, event) && c.permissiveHold(s.calls, s.tapping) {
      EmitDelivers(s, OfTappingKey, s.tapping);
      m := Settle;
    } else if !event.pressed && !Typed(s.buffer, event) {
      EmitDelivers(s, OfEvent, keyp);
      m := if IsRetained(c.actionFor(s.calls, event.key), keyp.tap.count) then Wait else PassFree;
    } else if event.pressed {
      var s' := s.(tapping := s.tapping.(tap := s.tapping.tap.(interrupted := true)));
      EmitDelivers(s', OfTappingKey, s'.tapping);
      m := if c.holdOnOtherPress(s.calls, s'.tapping) then Settle else Wait;
    } else {
      m := Wait;
    }
  }

  lemma {:induction false} WhileTappedMoves(c: Config, s: State, keyp: Record) returns (m: Move)
    requires !s.IsReset() && s.tapping.event.pressed && s.tapping.tap.count > 0
    requires !keyp.event.IsTick() && Untouched(keyp)
    ensures Moves(m, s, keyp, ProcessWhileTapped(c, s, keyp))
  {
    if IsTapRecord(c, s, keyp) && keyp.event.pressed {
      if s.tapping.tap.count > 1 {
        EmitDelivers(s, OfMadeUpRelease,
          Record(s.tapping.event.(time := keyp.event.time, pressed := false), s.tapping.tap));
      }
      m := ScanStartsOrPasses(c, ReleaseLastTap(s, keyp.event.time).(tapping := keyp), keyp);
    } else {
      EmitDelivers(s, OfEvent, keyp);
      m := Pass;
    }
  }

  lemma {:induction false} AfterTapMoves(c: Config, s: State, keyp: Record) returns (m: Move)
    requires !s.IsReset() && !s.tapping.event.pressed
    requires !keyp.event.IsTick() && Untouched(keyp)
    ensures Moves(m, s, keyp, ProcessAfterTap(c, s, keyp))
  {
    var o := ProcessAfterTap(c, s, keyp);
    if keyp.event.pressed && !IsTappingRecord(s, keyp) && IsTapRecord(c, s, keyp) {
      m := ScanStartsOrPasses(c, s.(tapping := keyp), keyp);
    } else if keyp.event.pressed && IsTappingRecord(s, keyp) && o.state.Undecided() {
      m := Start;
    } else {
      EmitDelivers(s, OfEvent, keyp);
      EmitDelivers(s, OfEvent, o.keyp);
      m := Pass;
    }
  }

  lemma {:induction false} ProcessTappingMoves(c: Config, s: State, keyp: Record) returns (m: Move)
    requires Untouched(keyp)
    ensures Moves(m, s, keyp, ProcessTapping(c, s, keyp))
  {
    if s.Undecided() && !WithinTappingTerm(c, s, keyp.event) {
      EmitDelivers(s, OfTappingKey, s.tapping);
      m := Settle;
    } else if keyp.event.IsTick() {
      m := if ProcessTapping(c, s, keyp).done then Tick else Wait;
    } else if s.Undecided() {
      m := UndecidedMoves(c, s, keyp);
    } else if s.IsReset() {
      if keyp.event.pressed && IsTapRecord(c, s, keyp) {
        m := ScanStartsOrPasses(c, s.(tapping := keyp), keyp);
      } else {
        EmitDelivers(s, OfEvent, keyp);
        m := Pass;
      }
    } else if s.tapping.event.pressed {
      if IsTappingRecord(s, keyp) && !keyp.event.pressed {
        EmitDelivers(s, OfEvent, keyp.(tap := s.tapping.tap));
        m := Pass;
      } else {
        m := WhileTappedMoves(c, s, keyp);
      }
    } else if WithinTappingTerm(c, s, keyp.event) {
      m := AfterTapMoves(c, s, keyp);
    } else {
      m := Wait;
    }
  }

  // ------------------------------------------------------- calls in good order

  /** Nothing waits, or what waits does so for the undecided key. */
  predicate InOrder(s: State) { s.buffer == [] || s.Undecided() }

  lemma {:induction false} FreeReleaseMayLeave(s: State, r: Record)
    requires s.Undecided() && r.event.key != s.tapping.event.key && !r.event.pressed && !Typed(s.buffer, r.event)
    ensures MayDeliver(Queue(s) + [r.event], |Queue(s)|)
  {
    var q := Queue(s) + [r.event];
    forall j | 0 <= j < |q| - 1 ensures !(q[j].pressed && q[j].key == r.event.key) {
      if j > 0 { assert q[j] == s.buffer[j - 1].event; }
    }
  }

  /** Whatever process_tapping makes of an arrival, the delay queue could have done it. */
  lemma {:induction false} ArrivalDelivers(m: Move, s: State, r: Record, p: Outcome) returns (o: seq<Event>)
    requires InOrder(s) && Moves(m, s, r, p)
    requires SameEvents(p.state.buffer, s.buffer) && p.keyp.event == r.event
    requires !p.done ==> !Overflows(p.state, p.keyp)
    requires r.event.IsTick() ==> m.Settle? || m.Wait? || m.Tick?
    ensures var s' := if p.done then p.state else Enqueue(p.state, p.keyp);
      Delivered(s'.calls) == Delivered(s.calls) + o && Delivers(Queue(s) + KeyEventsOf(r.event), o, Queue(s'))
  {
    var s' := if p.done then p.state else Enqueue(p.state, p.keyp);
    var q, q' := Queue(s) + KeyEventsOf(r.event), Queue(s');
    assert EventsOf(s'.buffer) == EventsOf(s.buffer) + if p.done then [] else KeyEventsOf(r.event);
    match m {
      case Pass =>
        o := [r.event];
        DeliversOne(q, 0, q');
      case PassFree =>
        o := [r.event];
        FreeReleaseMayLeave(s, r);
        assert Without(q, |q| - 1) == q';
        DeliversOne(q, |q| - 1, q');
      case Settle =>
        o := [s.tapping.event];
        assert Without(q, 0) == q';
        DeliversOne(q, 0, q');
      case _ =>
        o := [];
        assert q == q';
    }
  }

  lemma {:induction false} TicksAreNotProcessed(c: Config, s: State, r: Record) returns (m: Move)
    requires Untouched(r)
    ensures Moves(m, s, r, ProcessTapping(c, s, r))
    ensures r.event.IsTick() ==> m.Settle? || m.Wait? || m.Tick?
  {
    m := ProcessTappingMoves(c, s, r);
  }

  lemma {:induction false} FirstMayLeave(a: Event, others: seq<Event>)
    ensures Delivers([a] + others, [a], others)
  {
    var q := [a] + others;
    assert Without(q, 0) == others;
    DeliversOne(q, 0, others);
  }

  lemma {:induction false} SecondMayLeave(a: Event, b: Event, others: seq<Event>)
    requires !b.pressed && a.key != b.key
    ensures Delivers([a] + ([b] + others), [b], [a] + others)
  {
    var q := [a] + ([b] + others);
    assert q[0] == a && q[1] == b;
    assert Without(q, 1) == [a] + others;
    DeliversOne(q, 1, [a] + others);
  }

  lemma {:induction false} EventsOfCons(rs: seq<Record>)
    requires rs != []
    ensures EventsOf(rs) == [rs[0].event] + EventsOf(rs[1..])
  {
  }

  lemma {:induction false} EventsAfterRound(s: State, p: Outcome)
    requires s.buffer != [] && SameEvents(p.state.buffer, s.buffer) && p.keyp.event == s.buffer[0].event
    ensures EventsOf(AfterRound(p).buffer) == if p.done then EventsOf(s.buffer[1..]) else EventsOf(s.buffer)
  {
    var after, k := AfterRound(p).buffer, if p.done then 1 else 0;
    forall i | 0 <= i < |after| ensures after[i].event == s.buffer[i + k].event {}
  }

  /** A move on the events alone: `pend` undecided, `first` and `others` waiting, `o` going out. */
  lemma {:induction false} MoveDelivers(pend: seq<Event>, pend': seq<Event>, done: bool, first: Event,
                                        others: seq<Event>, o: seq<Event>)
    requires if done then (pend == [] && ((pend' == [] && o == [first]) || (pend' == [first] && o == [])))
                          || (pend == pend' && o == [first] && |pend| == 1 && !first.pressed
                            && pend[0].key != first.key)
             else (pend' == pend && o == []) || (|pend| == 1 && pend' == [] && o == pend)
    ensures Delivers(pend + ([first] + others), o, pend' + if done then others else [first] + others)
  {
    var waiting := [first] + others;
    assert [] + waiting == waiting && [] + others == others;
    if o == [] {
    } else if !done {
      assert pend == [pend[0]];
      FirstMayLeave(pend[0], waiting);
    } else if pend == [] {
      FirstMayLeave(first, others);
    } else {
      assert pend == [pend[0]];
      SecondMayLeave(pend[0], first, others);
    }
  }

  /** The same for the oldest waiting record, when the drain loop offers it again. */
  lemma {:induction false} RoundDelivers(m: Move, s: State, p: Outcome) returns (o: seq<Event>)
    requires s.buffer != [] && Moves(m, s, s.buffer[0], p) && !s.buffer[0].event.IsTick()
    requires SameEvents(p.state.buffer, s.buffer) && p.keyp.event == s.buffer[0].event
    ensures Delivered(AfterRound(p).calls) == Delivered(s.calls) + o
    ensures Delivers(Queue(s), o, Queue(AfterRound(p)))
  {
    EventsOfCons(s.buffer);
    EventsAfterRound(s, p);
    o := Moved(m, s, s.buffer[0].event);
    MoveDelivers(PendingSeq(s), PendingSeq(p.state), p.done, s.buffer[0].event, EventsOf(s.buffer[1..]), o);
  }

  /** What such a move delivers. */
  function Moved(m: Move, s: State, e: Event): seq<Event> {
    match m
    case Pass => [e]
    case PassFree => [e]
    case Settle => [s.tapping.event]
    case _ => []
  }

  /** The state `s'` is reached from `s` by delivering `o`. */
  ghost predicate Reaches(s: State, o: seq<Event>, s': State) {
    Delivered(s'.calls) == Delivered(s.calls) + o && Delivers(Queue(s), o, Queue(s'))
  }

  lemma {:induction false} ReachesThenReaches(s: State, o1: seq<Event>, mid: State, o2: seq<Event>, s': State)
    requires Reaches(s, o1, mid) && Reaches(mid, o2, s')
    ensures Reaches(s, o1 + o2, s')
  {
    DeliversThenDelivers(Queue(s), o1, Queue(mid), o2, Queue(s'));
    Reassociate(Delivered(s.calls), o1, o2);
  }

  /** One round of draining, and how draining goes on. */
  lemma {:induction false} FirstRound(c: Config, s: State) returns (s1: State, o: seq<Event>, done: bool)
    requires PressesUntouched(s.buffer) && NoTicksWait(s) && s.buffer != []
    ensures Drain(c, s) == if done then Drain(c, s1) else s1
    ensures Reaches(s, o, s1) && PressesUntouched(s1.buffer) && NoTicksWait(s1)
    ensures done ==> |s1.buffer| < |s.buffer|
  {
    var p := ProcessTapping(c, s, s.buffer[0]);
    KeepsWaitingEvents(c, s, s.buffer[0]);
    KeepsUntouched(c, s, s.buffer[0]);
    var m := ProcessTappingMoves(c, s, s.buffer[0]);
    o := RoundDelivers(m, s, p);
    s1, done := AfterRound(p), p.done;
  }

  lemma {:induction false} DrainDelivers(c: Config, s: State) returns (o: seq<Event>)
    requires PressesUntouched(s.buffer) && NoTicksWait(s)
    ensures Reaches(s, o, Drain(c, s))
    decreases |s.buffer|
  {
    o := [];
    if s.buffer != [] {
      var s1, o1, done := FirstRound(c, s);
      o := o1;
      if done {
        var o2 := DrainDelivers(c, s1);
        ReachesThenReaches(s, o1, s1, o2, Drain(c, s1));
        o := o1 + o2;
      }
    }
  }

  lemma {:induction false} OfferDelivers(c: Config, s: State, r: Record) returns (o: seq<Event>)
    requires InOrder(s) && Untouched(r) && !OverflowsOn(c, s, r)
    ensures Delivered(Offer(c, s, r).calls) == Delivered(s.calls) + o
    ensures Delivers(Queue(s) + KeyEventsOf(r.event), o, Queue(Offer(c, s, r)))
  {
    KeepsWaitingEvents(c, s, r);
    var m := TicksAreNotProcessed(c, s, r);
    o := ArrivalDelivers(m, s, r, ProcessTapping(c, s, r));
  }

  /** One call of action_tapping_process from a state in good order, up to an overflow. */
  lemma {:induction false} CallKeepsOrder(c: Config, s: State, r: Record) returns (o: seq<Event>)
    requires InOrder(s) && PressesUntouched(s.buffer) && NoTicksWait(s)
    requires Untouched(r) && !OverflowsOn(c, s, r)
    ensures Delivered(ActionTappingProcess(c, s, r).calls) == Delivered(s.calls) + o
    ensures Delivers(Queue(s) + KeyEventsOf(r.event), o, Queue(ActionTappingProcess(c, s, r)))
  {
    var o1 := OfferDelivers(c, s, r);
    OfferConserves(c, s, r, r.event);
    OfferKeepsTicksOut(c, s, r);
    var o2 := DrainDelivers(c, Offer(c, s, r));
    DeliversThenDelivers(Queue(s) + KeyEventsOf(r.event), o1, Queue(Offer(c, s, r)), o2,
                         Queue(ActionTappingProcess(c, s, r)));
    o := o1 + o2;
    Reassociate(Delivered(s.calls), o1, o2);
  }

  // -------------------------------------------------------------- whole runs

  function AllKeyEvents(es: seq<Event>): seq<Event> {
    if es == [] then [] else AllKeyEvents(es[..|es| - 1]) + KeyEventsOf(es[|es| - 1])
  }

  /** Every call of the run starts in good order and finds room in the buffer. */
  predicate RunsInOrder(c: Config, es: seq<Event>) {
    es == [] || (
      && RunsInOrder(c, es[..|es| - 1])
      && InOrder(Run(c, es[..|es| - 1]))
      && !OverflowsOn(c, Run(c, es[..|es| - 1]), Fresh(es[|es| - 1])))
  }

  /** Over a whole run the resolver only delays, and only free releases overtake. */
  lemma {:induction false} RunDelivers(c: Config, es: seq<Event>)
    requires RunsInOrder(c, es)
    ensures Delivers(AllKeyEvents(es), Delivered(Run(c, es).calls), Queue(Run(c, es)))
  {
    if es != [] {
      var earlier, r := es[..|es| - 1], Fresh(es[|es| - 1]);
      var before := Run(c, earlier);
      RunDelivers(c, earlier);
      ExactlyOnce(c, earlier, r.event);
      var o := CallKeepsOrder(c, before, r);
      DeliversBeforeArrival(AllKeyEvents(earlier), Delivered(before.calls), Queue(before), KeyEventsOf(r.event));
      DeliversThenDelivers(AllKeyEvents(es), Delivered(before.calls), Queue(before) + KeyEventsOf(r.event),
                           o, Queue(Run(c, es)));
    }
  }

  /** So presses are processed in arrival order, and those still held come after them. */
  lemma {:induction false} RunKeepsPressOrder(c: Config, es: seq<Event>)
    requires RunsInOrder(c, es)
    ensures Presses(AllKeyEvents(es)) == Presses(Delivered(Run(c, es).calls) + Queue(Run(c, es)))
  {
    RunDelivers(c, es);
    PressesKeepTheirOrder(AllKeyEvents(es), Delivered(Run(c, es).calls), Queue(Run(c, es)));
  }
}
