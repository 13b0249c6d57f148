/** Where the order of TappingOrder.dfy ends: exactly which arrivals may be handled out of
    turn, and a run in which one is (quantum/action_tapping.c:97-109, 349). */
module TappingLimits {
  import opened KeyEvents
  import opened Tapping
  import opened TappingConservation
  import opened TappingOrder
  import opened TappingArrivals

  /** A release that no waiting press of its key holds back. */
  predicate IsFreeRelease(s: State, r: Record) {
    !r.event.pressed && forall i | 0 <= i < |s.buffer| ::
      s.buffer[i].event.key == r.event.key ==> !s.buffer[i].event.pressed
  }

  lemma {:induction false} LastMayLeaveExactlyWhenFree(s: State, r: Record)
    requires !InOrder(s)
    ensures MayDeliver(Queue(s) + [r.event], |Queue(s)|) <==> IsFreeRelease(s, r)
  {
    var q := Queue(s) + [r.event];
    forall i | 0 <= i < |s.buffer| ensures q[i] == s.buffer[i].event {}
    if IsFreeRelease(s, r) {
      forall j | 0 <= j < |Queue(s)| ensures !(q[j].pressed && q[j].key == r.event.key) {}
    } else if !r.event.pressed {
      var i :| 0 <= i < |s.buffer| && s.buffer[i].event.key == r.event.key && s.buffer[i].event.pressed;
      assert q[i].pressed && q[i].key == r.event.key;
    }
  }

  /** The arrival is handled in turn: what could be checked before the call. */
  predicate HandledInTurn(c: Config, s: State, r: Record) {
    || InOrder(s)
    || r.event.IsTick()
    || IsFreeRelease(s, r)
    || (!s.IsReset() && !s.tapping.event.pressed && !WithinTappingTerm(c, s, r.event))
  }

  // --------------------------------------------------------- the queue, by arrival number

  /** What the resolver holds back, by arrival number: the undecided key, then the waiting buffer. */
  function HeldNumbers(s: State, a: Ages): (ns: seq<nat>) { (if s.Undecided() then [a.key] else []) + a.waiting }

  function TakenOut(q: seq<nat>, i: nat): seq<nat>
    requires i < |q|
  {
    q[..i] + q[i + 1..]
  }

  /** The queue of these arrivals can deliver those of `o`, one after the other, and then holds `rest`. */
  ghost predicate DeliversNumbers(es: seq<Event>, q: seq<nat>, o: seq<nat>, rest: seq<nat>)
    requires AllBelow(q, |es|)
    decreases |o|
  {
    if o == [] then q == rest
    else exists i: nat :: MayDeliver(Arrivals(es, q), i) && q[i] == o[0]
                          && DeliversNumbers(es, TakenOut(q, i), o[1..], rest)
  }

  lemma {:induction false} TakenOutAside(es: seq<Event>, q: seq<nat>, i: nat)
    requires AllBelow(q, |es|) && i < |q|
    ensures AllBelow(TakenOut(q, i), |es|) && Arrivals(es, TakenOut(q, i)) == Without(Arrivals(es, q), i)
  {
  }

  lemma {:induction false} FirstAside(es: seq<Event>, n: nat, o: seq<nat>)
    requires n < |es| && AllBelow(o, |es|)
    ensures AllBelow([n] + o, |es|) && Arrivals(es, [n] + o) == [es[n]] + Arrivals(es, o)
  {
  }

  /** Without their numbers these are deliveries of the delay queue. */
  lemma {:induction false} NumbersAside(es: seq<Event>, q: seq<nat>, o: seq<nat>, rest: seq<nat>)
    requires AllBelow(q, |es|) && DeliversNumbers(es, q, o, rest)
    ensures AllBelow(o, |es|) && AllBelow(rest, |es|)
    ensures Delivers(Arrivals(es, q), Arrivals(es, o), Arrivals(es, rest))
    decreases |o|
  {
    if o != [] {
      var i: nat :| MayDeliver(Arrivals(es, q), i) && q[i] == o[0]
                    && DeliversNumbers(es, TakenOut(q, i), o[1..], rest);
      var later := o[1..];
      NumbersAside(es, TakenOut(q, i), later, rest);
      TakenOutAside(es, q, i);
      FirstAside(es, q[i], later);
      assert o == [q[i]] + later;
      FirstThenLater(Arrivals(es, q), i, Arrivals(es, later), Arrivals(es, rest));
    }
  }

  lemma {:induction false} FirstThenLater(q: seq<Event>, i: nat, later: seq<Event>, rest: seq<Event>)
    requires MayDeliver(q, i) && Delivers(Without(q, i), later, rest)
    ensures Delivers(q, [q[i]] + later, rest)
  {
    assert ([q[i]] + later)[1..] == later;
  }

  lemma {:induction false} OneNumber(es: seq<Event>, q: seq<nat>, i: nat, rest: seq<nat>)
    requires AllBelow(q, |es|) && MayDeliver(Arrivals(es, q), i) && TakenOut(q, i) == rest
    ensures DeliversNumbers(es, q, [q[i]], rest)
  {
    assert DeliversNumbers(es, TakenOut(q, i), [q[i]][1..], rest);
  }

  lemma {:induction false} OneNumberOnlyIf(es: seq<Event>, q: seq<nat>, i: nat, rest: seq<nat>)
    requires AllBelow(q, |es|) && i < |q| && DeliversNumbers(es, q, [q[i]], rest)
    requires forall j, k | 0 <= j < k < |q| :: q[j] != q[k]
    ensures MayDeliver(Arrivals(es, q), i)
  {
    var x := [q[i]];
    var k: nat :| MayDeliver(Arrivals(es, q), k) && q[k] == x[0] && DeliversNumbers(es, TakenOut(q, k), x[1..], rest);
    assert i == k;
  }

  function Number(e: Event, n: nat): seq<nat> { if e.IsTick() then [] else [n] }

  /** The numbers are those of the queue, and the arrival has the next one. */
  lemma {:induction false} HeldEvents(earlier: seq<Event>, s: State, a: Ages, e: Event)
    requires Numbered(earlier, s, a)
    ensures var q := HeldNumbers(s, a) + Number(e, |earlier|);
      && AllBelow(q, |earlier| + 1) && Arrivals(earlier + [e], q) == Queue(s) + KeyEventsOf(e)
      && forall j, k | 0 <= j < k < |q| :: q[j] != q[k]
  {
    var q, es := HeldNumbers(s, a) + Number(e, |earlier|), Queue(s) + KeyEventsOf(e);
    forall i | 0 <= i < |q| ensures q[i] <= |earlier| && (earlier + [e])[q[i]] == es[i] {
      if s.Undecided() && 0 < i <= |a.waiting| { assert q[i] == a.waiting[i - 1]; }
    }
  }

  /** What goes out of the queue by such a move, and what it holds then. */
  function NumbersOut(m: Move, a: Ages, n: nat): seq<nat> {
    match m
    case Pass => [n]
    case PassFree => [n]
    case Settle => [a.key]
    case _ => []
  }

  function AfterMove(held: seq<nat>, a: Ages, arriving: seq<nat>, n: nat, m: Move): seq<nat> {
    match m
    case Pass => a.waiting
    case PassFree => [a.key] + a.waiting
    case Start => [n] + a.waiting
    case Settle => a.waiting + arriving
    case Wait => held + arriving
    case Tick => held
  }

  /** The same from the outcome `p` of process_tapping, `s'` and `a'` being what comes of it. */
  lemma {:induction false} HeldAfterOutcome(s: State, a: Ages, e: Event, n: nat, m: Move, p: Outcome, s': State,
                                           a': Ages)
    requires Moves(m, s, Fresh(e), p) && |a.waiting| == |s.buffer| == |p.state.buffer|
    requires s'.tapping == p.state.tapping && a'.key == if s.Undecided() then a.key else n
    requires a'.waiting == if p.done || e.IsTick() then a.waiting else a.waiting + [n]
    ensures HeldNumbers(s', a') == AfterMove(HeldNumbers(s, a), a, Number(e, n), n, m)
  {
    assert a.waiting + [] == a.waiting && HeldNumbers(s, a) + [] == HeldNumbers(s, a);
    assert |PendingSeq(s)| == (if s.Undecided() then 1 else 0);
    assert |PendingSeq(p.state)| == (if p.state.Undecided() then 1 else 0);
  }

  lemma {:induction false} HeldAfter(c: Config, s: State, a: Ages, e: Event, n: nat, m: Move)
    requires |a.waiting| == |s.buffer| && !OverflowsOn(c, s, Fresh(e))
    requires Moves(m, s, Fresh(e), ProcessTapping(c, s, Fresh(e)))
    ensures HeldNumbers(Offer(c, s, Fresh(e)), OfferAges(c, s, a, Fresh(e), n))
         == AfterMove(HeldNumbers(s, a), a, Number(e, n), n, m)
  {
    KeepsWaitingEvents(c, s, Fresh(e));
    HeldAfterOutcome(s, a, e, n, m, ProcessTapping(c, s, Fresh(e)), Offer(c, s, Fresh(e)),
                     OfferAges(c, s, a, Fresh(e), n));
  }

  lemma {:induction false} DeliveredAfter(c: Config, s: State, e: Event, m: Move)
    requires Moves(m, s, Fresh(e), ProcessTapping(c, s, Fresh(e)))
    ensures Delivered(Offer(c, s, Fresh(e)).calls) == Delivered(s.calls) + Moved(m, s, e)
  {
  }

  lemma {:induction false} OutIsDelivered(earlier: seq<Event>, s: State, a: Ages, e: Event, m: Move)
    requires Numbered(earlier, s, a) && (m.Settle? ==> s.Undecided())
    ensures var o := NumbersOut(m, a, |earlier|);
      AllBelow(o, |earlier| + 1) && Arrivals(earlier + [e], o) == Moved(m, s, e)
  {
  }

  /** In good order, every move keeps to the queue. */
  lemma {:induction false} MoveInOrder(es: seq<Event>, s: State, a: Ages, e: Event, n: nat, q: seq<nat>, m: Move,
                                      p: Outcome, held: seq<nat>)
    requires InOrder(s) && Moves(m, s, Fresh(e), p) && (e.IsTick() ==> m.Settle? || m.Wait? || m.Tick?)
    requires |a.waiting| == |s.buffer| && q == HeldNumbers(s, a) + Number(e, n) && AllBelow(q, |es|)
    requires Arrivals(es, q) == Queue(s) + KeyEventsOf(e)
    requires held == AfterMove(HeldNumbers(s, a), a, Number(e, n), n, m)
    ensures DeliversNumbers(es, q, NumbersOut(m, a, n), held)
  {
    match m {
      case Pass => OneNumber(es, q, 0, held);
      case PassFree =>
        FreeReleaseMayLeave(s, Fresh(e));
        assert TakenOut(q, |q| - 1) == held;
        OneNumber(es, q, |q| - 1, held);
      case Settle =>
        assert TakenOut(q, 0) == held;
        OneNumber(es, q, 0, held);
      case _ =>
        assert q == held;
    }
  }

  /** With nothing undecided and events waiting, an arrival that is handled at once is handled out of
      turn, unless it is a release no waiting press holds back. */
  lemma {:induction false} AtOnceInTurn(es: seq<Event>, s: State, a: Ages, e: Event, n: nat, q: seq<nat>, m: Move,
                                       held: seq<nat>)
    requires !InOrder(s) && (m.Pass? || m.Start?) && !e.IsTick() && |a.waiting| == |s.buffer|
    requires q == a.waiting + [n] && AllBelow(q, |es|) && Arrivals(es, q) == Queue(s) + [e]
    requires forall j, k | 0 <= j < k < |q| :: q[j] != q[k]
    requires held == if m.Pass? then a.waiting else [n] + a.waiting
    ensures DeliversNumbers(es, q, NumbersOut(m, a, n), held) <==> m.Pass? && IsFreeRelease(s, Fresh(e))
  {
    var last := |q| - 1;
    LastMayLeaveExactlyWhenFree(s, Fresh(e));
    if m.Pass? {
      if DeliversNumbers(es, q, [q[last]], held) { OneNumberOnlyIf(es, q, last, held); }
      if MayDeliver(Arrivals(es, q), last) { OneNumber(es, q, last, held); }
    } else {
      assert q[0] != q[last] && held[0] == q[last];
    }
  }

  /** With nothing undecided, an arrival is handled at once unless it ends the state of a released key. */
  lemma {:induction false} AtOnceExactlyWhen(c: Config, s: State, e: Event, m: Move)
    requires !s.Undecided() && Moves(m, s, Fresh(e), ProcessTapping(c, s, Fresh(e)))
    requires e.IsTick() ==> m.Settle? || m.Wait? || m.Tick?
    ensures !e.IsTick() ==>
      (m.Pass? || m.Start? <==> s.IsReset() || s.tapping.event.pressed || WithinTappingTerm(c, s, e))
    ensures m.Pass? || m.Start? || m.Wait? || m.Tick?
    ensures m.Tick? ==> e.IsTick()
  {
  }

  /** Nothing is lost of the queue and the arrival. */
  lemma {:induction false} NumbersStay(s: State, a: Ages, e: Event, n: nat, m: Move, held: seq<nat>)
    requires m.Pass? || m.Start? ==> !s.Undecided()
    requires m.PassFree? || m.Settle? ==> s.Undecided()
    requires if e.IsTick() then m.Settle? || m.Wait? || m.Tick? else !m.Tick?
    requires held == AfterMove(HeldNumbers(s, a), a, Number(e, n), n, m)
    ensures multiset(NumbersOut(m, a, n) + held) == multiset(HeldNumbers(s, a) + Number(e, n))
  {
    match m {
      case PassFree => assert [a.key] + a.waiting + [n] == HeldNumbers(s, a) + Number(e, n);
      case Settle => assert [a.key] + (a.waiting + Number(e, n)) == HeldNumbers(s, a) + Number(e, n);
      case Wait => assert [] + held == held;
      case Tick => assert [] + held == held && held + [] == held;
      case _ =>
    }
  }

  /** The deliveries, from the move alone. */
  lemma {:induction false} NumbersInTurn(c: Config, es: seq<Event>, s: State, a: Ages, e: Event, n: nat, q: seq<nat>,
                                        m: Move, held: seq<nat>)
    requires Moves(m, s, Fresh(e), ProcessTapping(c, s, Fresh(e)))
    requires e.IsTick() ==> m.Settle? || m.Wait? || m.Tick?
    requires |a.waiting| == |s.buffer| && q == HeldNumbers(s, a) + Number(e, n) && AllBelow(q, |es|)
    requires Arrivals(es, q) == Queue(s) + KeyEventsOf(e) && forall j, k | 0 <= j < k < |q| :: q[j] != q[k]
    requires held == AfterMove(HeldNumbers(s, a), a, Number(e, n), n, m)
    ensures DeliversNumbers(es, q, NumbersOut(m, a, n), held) <==> HandledInTurn(c, s, Fresh(e))
  {
    if InOrder(s) {
      MoveInOrder(es, s, a, e, n, q, m, ProcessTapping(c, s, Fresh(e)), held);
    } else {
      AtOnceExactlyWhen(c, s, e, m);
      if m.Pass? || m.Start? {
        AtOnceInTurn(es, s, a, e, n, q, m, held);
        if m.Start? { assert e.pressed; }
      } else {
        assert held == q;
      }
    }
  }

  /** How the arrival moves, by the numbers. */
  lemma {:induction false} MoveOf(c: Config, s: State, a: Ages, e: Event, n: nat) returns (m: Move, held: seq<nat>)
    requires |a.waiting| == |s.buffer| && !OverflowsOn(c, s, Fresh(e))
    ensures Moves(m, s, Fresh(e), ProcessTapping(c, s, Fresh(e)))
    ensures held == HeldNumbers(Offer(c, s, Fresh(e)), OfferAges(c, s, a, Fresh(e), n))
    ensures held == AfterMove(HeldNumbers(s, a), a, Number(e, n), n, m)
    ensures Delivered(Offer(c, s, Fresh(e)).calls) == Delivered(s.calls) + Moved(m, s, e)
    ensures if e.IsTick() then m.Settle? || m.Wait? || m.Tick? else !m.Tick?
    ensures if m.Pass? || m.Start? then !s.Undecided() else m.PassFree? || m.Settle? ==> s.Undecided()
  {
    m := TicksAreNotProcessed(c, s, Fresh(e));
    held := HeldNumbers(Offer(c, s, Fresh(e)), OfferAges(c, s, a, Fresh(e), n));
    HeldAfter(c, s, a, e, n, m);
    DeliveredAfter(c, s, e, m);
  }

  /** Offering an arrival keeps to the delay queue exactly when it is handled in turn.  All is told
      by arrival numbers, so events that look the same are not taken for each other. */
  lemma {:induction false} InTurnExactlyWhen(c: Config, earlier: seq<Event>, s: State, a: Ages, e: Event)
    returns (o: seq<nat>, held: seq<nat>)
    requires Numbered(earlier, s, a) && !OverflowsOn(c, s, Fresh(e))
    ensures held == HeldNumbers(Offer(c, s, Fresh(e)), OfferAges(c, s, a, Fresh(e), |earlier|))
    ensures var q := HeldNumbers(s, a) + Number(e, |earlier|);
      && AllBelow(q, |earlier| + 1) && AllBelow(o, |earlier| + 1) && multiset(o + held) == multiset(q)
      && Delivered(Offer(c, s, Fresh(e)).calls) == Delivered(s.calls) + Arrivals(earlier + [e], o)
      && (DeliversNumbers(earlier + [e], q, o, held) <==> HandledInTurn(c, s, Fresh(e)))
  {
    var n, m: Move := |earlier|, Tick;
    m, held := MoveOf(c, s, a, e, n);
    o := NumbersOut(m, a, n);
    HeldEvents(earlier, s, a, e);
    NumbersStay(s, a, e, n, m, held);
    NumbersInTurn(c, earlier + [e], s, a, e, n, HeldNumbers(s, a) + Number(e, n), m, held);
    OutIsDelivered(earlier, s, a, e, m);
  }

  // ------------------------------------------------- a run in which a press overtakes

  function At(col: uint8, time: uint16, pressed: bool): Event { Event(KeyPos(0, col), time, KeyEvent, pressed) }

  /** Keys 0, 1 and 4 are tap keys, with a term of 1000 ms for the first and of 100 ms for the others; the
      rest are plain. */
  function TapKeys(): Config {
    Config((calls: seq<Call>, key: KeyPos) =>
             if key.col < 2 || key.col == 4 then Action(ACT_LMODS_TAP, 2, 4) else Action(ACT_LMODS, 0, 4),
           (calls: seq<Call>, r: Record) => if r.event.key.col == 0 then 1000 else 100,
           (calls: seq<Call>, r: Record) => 0,
           (calls: seq<Call>, r: Record) => false,
           (calls: seq<Call>, r: Record) => false)
  }

  const T_DOWN := At(0, 0, true)
  const U_DOWN := At(1, 10, true)
  const X_DOWN := At(2, 150, true)
  const T_UP := At(0, 500, false)
  const Y_DOWN := At(3, 500, true)

  lemma {:induction false} RunOn(c: Config, earlier: seq<Event>, e: Event)
    ensures Run(c, earlier + [e]) == ActionTappingProcess(c, Run(c, earlier), Fresh(e))
  {
    assert (earlier + [e])[..|earlier|] == earlier;
  }

  lemma {:induction false} TapUndecided()
    ensures Run(TapKeys(), [T_DOWN]) == State(Fresh(T_DOWN), [], [])
  {
    RunOn(TapKeys(), [], T_DOWN);
    assert [] + [T_DOWN] == [T_DOWN];
    assert Run(TapKeys(), []) == INITIAL;
  }

  lemma {:induction false} UWaits()
    ensures Run(TapKeys(), [T_DOWN, U_DOWN]) == State(Record(T_DOWN, Tap(true, 0)), [Fresh(U_DOWN)], [])
  {
    TapUndecided();
    RunOn(TapKeys(), [T_DOWN], U_DOWN);
    assert [T_DOWN] + [U_DOWN] == [T_DOWN, U_DOWN];
  }

  /** X joins what waits for T. */
  lemma {:induction false} XJoins(s: State)
    requires s == State(Record(T_DOWN, Tap(true, 0)), [Fresh(U_DOWN)], [])
    ensures ActionTappingProcess(TapKeys(), s, Fresh(X_DOWN)) == s.(buffer := [Fresh(U_DOWN), Fresh(X_DOWN)])
  {
    var o := ProcessTapping(TapKeys(), s, Fresh(X_DOWN));
    assert o == Outcome(s, Fresh(X_DOWN), false);
    var offered := Offer(TapKeys(), s, Fresh(X_DOWN));
    assert offered == s.(buffer := [Fresh(U_DOWN), Fresh(X_DOWN)]);
    assert ProcessTapping(TapKeys(), offered, Fresh(U_DOWN)) == Outcome(offered, Fresh(U_DOWN), false);
  }

  lemma {:induction false} XWaits()
    ensures Run(TapKeys(), [T_DOWN, U_DOWN, X_DOWN])
         == State(Record(T_DOWN, Tap(true, 0)), [Fresh(U_DOWN), Fresh(X_DOWN)], [])
  {
    UWaits();
    RunOn(TapKeys(), [T_DOWN, U_DOWN], X_DOWN);
    assert [T_DOWN, U_DOWN] + [X_DOWN] == [T_DOWN, U_DOWN, X_DOWN];
    XJoins(Run(TapKeys(), [T_DOWN, U_DOWN]));
  }

  /** The release settles T as a tap; draining then starts U, finds X past its term, settles U
      as a hold and stops, with X and the release waiting for nobody. */
  lemma {:induction false} LeftWaiting()
    ensures var s := Run(TapKeys(), [T_DOWN, U_DOWN, X_DOWN, T_UP]);
      s.tapping == ZERO_RECORD && s.buffer == [Fresh(X_DOWN), Record(T_UP, Tap(true, 1))]
      && s.calls == [Call(OfTappingKey, Record(T_DOWN, Tap(true, 1))), Call(OfTappingKey, Fresh(U_DOWN))]
  {
    XWaits();
    var c := TapKeys();
    var es := [T_DOWN, U_DOWN, X_DOWN, T_UP];
    assert es[..3] == [T_DOWN, U_DOWN, X_DOWN];
    var s := Run(c, es[..3]);
    var tapped := Record(T_DOWN, Tap(true, 1));
    var waiting := [Fresh(U_DOWN), Fresh(X_DOWN), Record(T_UP, Tap(true, 1))];
    var offered := Offer(c, s, Fresh(T_UP));
    assert offered == State(tapped, waiting, [Call(OfTappingKey, tapped)]);
    var o1 := ProcessTapping(c, offered, waiting[0]);
    assert o1 == Outcome(State(Fresh(U_DOWN), waiting, offered.calls), waiting[0], true);
    var second := AfterRound(o1);
    assert second.buffer == [Fresh(X_DOWN), Record(T_UP, Tap(true, 1))];
    var o2 := ProcessTapping(c, second, second.buffer[0]);
    assert !o2.done && o2.state.tapping == ZERO_RECORD;
    assert Drain(c, offered) == Drain(c, second) == AfterRound(o2);
    assert Run(c, es) == AfterRound(o2);
  }

  const Y_RUN: seq<Event> := [T_DOWN, U_DOWN, X_DOWN, T_UP, Y_DOWN]
  const T_RELEASE := Record(T_UP, Tap(true, 1))

  /** Offered at once, Y is processed, and then the waiting records are. */
  lemma {:induction false} YGoesFirst(s: State)
    requires s.tapping == ZERO_RECORD && s.buffer == [Fresh(X_DOWN), T_RELEASE]
    ensures ActionTappingProcess(TapKeys(), s, Fresh(Y_DOWN)) == State(ZERO_RECORD, [],
      s.calls + [Call(OfEvent, Fresh(Y_DOWN))] + [Call(OfEvent, Fresh(X_DOWN))] + [Call(OfEvent, T_RELEASE)])
  {
    var c := TapKeys();
    var calls1 := s.calls + [Call(OfEvent, Fresh(Y_DOWN))];
    var calls2 := calls1 + [Call(OfEvent, Fresh(X_DOWN))];
    var s1, s2 := State(ZERO_RECORD, s.buffer, calls1), State(ZERO_RECORD, [T_RELEASE], calls2);
    assert Offer(c, s, Fresh(Y_DOWN)) == s1;
    var o1, o2 := ProcessTapping(c, s1, s1.buffer[0]), ProcessTapping(c, s2, s2.buffer[0]);
    assert o1.done && AfterRound(o1) == s2;
    assert o2.done && AfterRound(o2) == State(ZERO_RECORD, [], calls2 + [Call(OfEvent, T_RELEASE)]);
    assert Drain(c, s1) == Drain(c, s2) == AfterRound(o2);
  }

  lemma {:induction false} ProcessedInThisOrder()
    ensures Queue(Run(TapKeys(), Y_RUN)) == []
    ensures Delivered(Run(TapKeys(), Y_RUN).calls) == [T_DOWN, U_DOWN, Y_DOWN, X_DOWN, T_UP]
  {
    LeftWaiting();
    assert Y_RUN[..4] == [T_DOWN, U_DOWN, X_DOWN, T_UP];
    YGoesFirst(Run(TapKeys(), Y_RUN[..4]));
    WithoutMadeUpAllDelivered(Run(TapKeys(), Y_RUN).calls, [T_DOWN, U_DOWN, Y_DOWN, X_DOWN, T_UP]);
  }

  /** Y, pressed last, is processed before X: order needs its entry condition. */
  lemma {:induction false} APressCanOvertake()
    ensures !InOrder(Run(TapKeys(), Y_RUN[..4]))
    ensures var s := Run(TapKeys(), Y_RUN); !Delivers(AllKeyEvents(Y_RUN), Delivered(s.calls), Queue(s))
  {
    LeftWaiting();
    assert Y_RUN[..4] == [T_DOWN, U_DOWN, X_DOWN, T_UP];
    ProcessedInThisOrder();
    var processed := [T_DOWN, U_DOWN, Y_DOWN, X_DOWN, T_UP];
    WithoutTicksAllArrive(Y_RUN);
    PressesArrived();
    PressesProcessed();
    assert processed + [] == processed;
    if Delivers(Y_RUN, processed, []) { PressesKeepTheirOrder(Y_RUN, processed, []); }
  }

  lemma {:induction false} WithoutTicksAllArrive(es: seq<Event>)
    requires forall i | 0 <= i < |es| :: !es[i].IsTick()
    ensures AllKeyEvents(es) == es
  {
    if es != [] { WithoutTicksAllArrive(es[..|es| - 1]); }
  }

  lemma {:induction false} WithoutMadeUpAllDelivered(calls: seq<Call>, es: seq<Event>)
    requires |calls| == |es|
    requires forall i | 0 <= i < |es| :: !calls[i].origin.OfMadeUpRelease? && calls[i].record.event == es[i]
    ensures Delivered(calls) == es
  {
    if es != [] { WithoutMadeUpAllDelivered(calls[..|es| - 1], es[..|es| - 1]); }
  }

  lemma {:induction false} PressesCons(e: Event, es: seq<Event>)
    ensures Presses([e] + es) == (if e.pressed then [e] else []) + Presses(es)
  {
    assert ([e] + es)[1..] == es;
  }

  lemma {:induction false} PressesArrived()
    ensures Presses([T_DOWN, U_DOWN, X_DOWN, T_UP, Y_DOWN]) == [T_DOWN, U_DOWN, X_DOWN, Y_DOWN]
  {
    PressesCons(Y_DOWN, []);
    PressesCons(T_UP, [Y_DOWN]);
    PressesCons(X_DOWN, [T_UP, Y_DOWN]);
    PressesCons(U_DOWN, [X_DOWN, T_UP, Y_DOWN]);
    PressesCons(T_DOWN, [U_DOWN, X_DOWN, T_UP, Y_DOWN]);
    assert [T_DOWN] + [U_DOWN, X_DOWN, T_UP, Y_DOWN] == [T_DOWN, U_DOWN, X_DOWN, T_UP, Y_DOWN];
    assert [U_DOWN] + [X_DOWN, T_UP, Y_DOWN] == [U_DOWN, X_DOWN, T_UP, Y_DOWN];
    assert [X_DOWN] + [T_UP, Y_DOWN] == [X_DOWN, T_UP, Y_DOWN];
  }

  lemma {:induction false} PressesProcessed()
    ensures Presses([T_DOWN, U_DOWN, Y_DOWN, X_DOWN, T_UP]) == [T_DOWN, U_DOWN, Y_DOWN, X_DOWN]
  {
    PressesCons(T_UP, []);
    PressesCons(X_DOWN, [T_UP]);
    PressesCons(Y_DOWN, [X_DOWN, T_UP]);
    PressesCons(U_DOWN, [Y_DOWN, X_DOWN, T_UP]);
    PressesCons(T_DOWN, [U_DOWN, Y_DOWN, X_DOWN, T_UP]);
    assert [T_DOWN] + [U_DOWN, Y_DOWN, X_DOWN, T_UP] == [T_DOWN, U_DOWN, Y_DOWN, X_DOWN, T_UP];
    assert [U_DOWN] + [Y_DOWN, X_DOWN, T_UP] == [U_DOWN, Y_DOWN, X_DOWN, T_UP];
    assert [Y_DOWN] + [X_DOWN, T_UP] == [Y_DOWN, X_DOWN, T_UP];
  }
}
