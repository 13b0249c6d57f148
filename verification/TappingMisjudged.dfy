/** Two runs in which the resolver errs: a key held by an event from before its press, and a
    nested tap whose press came after its release (quantum/action_tapping.c:97-109, 220-252, 341-349). */
module TappingMisjudged {
  import opened KeyEvents
  import opened Tapping
  import opened TappingConservation
  import opened TappingOrder
  import opened TappingDecisions
  import opened TappingArrivals
  import opened TappingVerdicts
  import opened TappingLimits

  const V_DOWN := At(4, 500, true)
  const LEFT_WAITING: seq<Event> := [T_DOWN, U_DOWN, X_DOWN, T_UP]

  /** Before V is pressed, X waits first, the third arrival, and nothing is undecided. */
  lemma {:induction false} XWaitsFirst()
    ensures var s, a := Run(TapKeys(), LEFT_WAITING), RunAges(TapKeys(), LEFT_WAITING);
      && Known(TapKeys(), LEFT_WAITING, s, a) && |a.decisions| == 2 && |a.waiting| == 2 && a.waiting[0] == 2
  {
    LeftWaiting();
    EveryCallIsJustified(TapKeys(), LEFT_WAITING);
    assert LEFT_WAITING[2] == X_DOWN && LEFT_WAITING[0] != X_DOWN && LEFT_WAITING[1] != X_DOWN
      && LEFT_WAITING[3] != X_DOWN;
  }

  lemma {:induction false} VStarts(s: State, a: Ages)
    requires s.tapping == ZERO_RECORD && s.buffer == [Fresh(X_DOWN), Record(T_UP, Tap(true, 1))]
    requires |a.waiting| == 2
    ensures Offer(TapKeys(), s, Fresh(V_DOWN)) == s.(tapping := Fresh(V_DOWN))
    ensures OfferAges(TapKeys(), s, a, Fresh(V_DOWN), 4) == a.(key := 4)
  {
    var o := ProcessTapping(TapKeys(), s, Fresh(V_DOWN));
    assert o == Outcome(s.(tapping := Fresh(V_DOWN)), Fresh(V_DOWN), true);
    assert Marked([], DecisionOf(TapKeys(), s, a, Fresh(V_DOWN), 4), 4) == [];
  }

  lemma {:induction false} XEndsTheTerm(s: State, a: Ages)
    requires s.tapping == Fresh(V_DOWN) && s.buffer == [Fresh(X_DOWN), Record(T_UP, Tap(true, 1))]
    requires |a.waiting| == 2 && a.key == 4 && a.waiting[0] == 2
    ensures Drain(TapKeys(), s).calls == s.calls + [Call(OfTappingKey, Fresh(V_DOWN))]
    ensures DrainAges(TapKeys(), s, a).decisions == a.decisions + [Settled(4, 2, a.waiting)]
    ensures DrainErrs(TapKeys(), s, a)
  {
    var o := ProcessTapping(TapKeys(), s, s.buffer[0]);
    var call := Call(OfTappingKey, Fresh(V_DOWN));
    assert !o.done && o.state.calls == s.calls + [call];
    assert Marked([call], Settled(4, 2, a.waiting), 2) == [Settled(4, 2, a.waiting)];
  }

  /** X, the third arrival, is still waiting when V is pressed, the fifth; it is outside V's term, as it
      came before, and V is held at once. */
  lemma {:induction false} HeldByAnEarlierPress()
    ensures var es := LEFT_WAITING + [V_DOWN];
      var calls, ds := Run(TapKeys(), es).calls, RunAges(TapKeys(), es).decisions;
      && |calls| == |ds| == 3 && calls[2] == Call(OfTappingKey, Fresh(V_DOWN))
      && ds[2].Settled? && ds[2].press == 4 && ds[2].cause == 2
      && CallErrsAt(TapKeys(), es, 4)
  {
    var c, s, a := TapKeys(), Run(TapKeys(), LEFT_WAITING), RunAges(TapKeys(), LEFT_WAITING);
    LeftWaiting();
    XWaitsFirst();
    RunOneMore(c, LEFT_WAITING, V_DOWN);
    VStarts(s, a);
    XEndsTheTerm(s.(tapping := Fresh(V_DOWN)), a.(key := 4));
    LastCallErrs(c, LEFT_WAITING, V_DOWN);
  }

  // --------------------------------------------------------- a nested tap inside out

  /** Keys 0 and 1 are tap keys with permissive hold, key 2 is a shift key, the others plain. */
  function PermissiveKeys(): Config {
    Config((calls: seq<Call>, key: KeyPos) =>
             if key.col < 2 then Action(ACT_LMODS_TAP, 2, 4)
             else if key.col == 2 then Action(ACT_LMODS, 0, KC_LEFT_CTRL) else Action(ACT_LMODS, 0, 4),
           (calls: seq<Call>, r: Record) => 1000,
           (calls: seq<Call>, r: Record) => 0,
           (calls: seq<Call>, r: Record) => r.event.key.col == 1,
           (calls: seq<Call>, r: Record) => false)
  }

  const SHIFT_DOWN := At(2, 0, true)
  const SHIFT_UP := At(2, 30, false)
  const SHIFT_AGAIN := At(2, 40, true)
  const T_PRESSED := At(0, 10, true)
  const U_PRESSED := At(1, 20, true)
  const T_RELEASED := At(0, 50, false)

  const NESTED: seq<Event> := [SHIFT_DOWN, T_PRESSED, U_PRESSED, SHIFT_UP, SHIFT_AGAIN]

  const S_CALL := Call(OfEvent, Fresh(SHIFT_DOWN))
  const T_INTERRUPTED := Record(T_PRESSED, Tap(true, 0))

  lemma {:induction false} TStarts()
    ensures Run(PermissiveKeys(), NESTED[..2]) == State(Fresh(T_PRESSED), [], [S_CALL])
  {
    assert NESTED[..1][..0] == [] && NESTED[..2][..1] == NESTED[..1];
    assert Run(PermissiveKeys(), []) == INITIAL;
    assert Run(PermissiveKeys(), NESTED[..1]) == State(ZERO_RECORD, [], [S_CALL]);
  }

  /** While T is undecided, what arrives for it to wait joins the buffer, and U keeps the front. */
  lemma {:induction false} Joins(s: State, e: Event)
    requires s.tapping == Fresh(T_PRESSED) || s.tapping == T_INTERRUPTED
    requires s.calls == [S_CALL] && |s.buffer| < 3
    requires if s.buffer == [] then e == U_PRESSED
             else s.tapping == T_INTERRUPTED && s.buffer[0] == Fresh(U_PRESSED)
    requires e == U_PRESSED || (e == SHIFT_UP && s.buffer == [Fresh(U_PRESSED)]) || e == SHIFT_AGAIN
    ensures ActionTappingProcess(PermissiveKeys(), s, Fresh(e))
         == State(T_INTERRUPTED, s.buffer + [Fresh(e)], [S_CALL])
  {
    var c, r := PermissiveKeys(), Fresh(e);
    var s1 := State(T_INTERRUPTED, s.buffer + [r], [S_CALL]);
    assert ProcessTapping(c, s, r) == Outcome(State(T_INTERRUPTED, s.buffer, [S_CALL]), r, false);
    assert Offer(c, s, r) == s1;
    var first := Fresh(U_PRESSED);
    assert s1.buffer[0] == first;
    assert ProcessTapping(c, s1, first) == Outcome(s1, first, false);
    assert s1.buffer[0 := first] == s1.buffer;
  }

  lemma {:induction false} AllWaitForT()
    ensures Run(PermissiveKeys(), NESTED)
         == State(T_INTERRUPTED, [Fresh(U_PRESSED), Fresh(SHIFT_UP), Fresh(SHIFT_AGAIN)], [S_CALL])
  {
    TStarts();
    assert NESTED[..3][..2] == NESTED[..2] && NESTED[..4][..3] == NESTED[..3] && NESTED[..4] == NESTED[..5][..4];
    assert NESTED[..5] == NESTED;
    Joins(Run(PermissiveKeys(), NESTED[..2]), U_PRESSED);
    assert Run(PermissiveKeys(), NESTED[..3]) == State(T_INTERRUPTED, [Fresh(U_PRESSED)], [S_CALL]);
    Joins(Run(PermissiveKeys(), NESTED[..3]), SHIFT_UP);
    assert Run(PermissiveKeys(), NESTED[..4]) == State(T_INTERRUPTED, [Fresh(U_PRESSED), Fresh(SHIFT_UP)], [S_CALL]);
    Joins(Run(PermissiveKeys(), NESTED[..4]), SHIFT_AGAIN);
  }

  const T_TAPPED := Record(T_PRESSED, Tap(true, 1))
  const WAITING: seq<Record> := [Fresh(SHIFT_UP), Fresh(SHIFT_AGAIN), Record(T_RELEASED, Tap(true, 1))]

  /** T is released and tapped, draining starts U, and the release of shift, waiting since before
      shift was pressed again, counts as a nested tap: U is held. */
  lemma {:induction false} HeldByAnInsideOutTap()
    ensures var s := Run(PermissiveKeys(), NESTED + [T_RELEASED]);
      && s.calls == [S_CALL, Call(OfTappingKey, T_TAPPED), Call(OfTappingKey, Fresh(U_PRESSED))]
      && s.buffer == WAITING
    ensures CallErrsAt(PermissiveKeys(), NESTED + [T_RELEASED], 5)
  {
    var c, s, a := PermissiveKeys(), Run(PermissiveKeys(), NESTED), RunAges(PermissiveKeys(), NESTED);
    AllWaitForT();
    EveryCallIsJustified(c, NESTED);
    RunOneMore(c, NESTED, T_RELEASED);
    LastCallErrs(c, NESTED, T_RELEASED);
    TIsReleased(s);
    DrainsToU(Offer(c, s, Fresh(T_RELEASED)), OfferAges(c, s, a, Fresh(T_RELEASED), 5));
  }

  lemma {:induction false} TIsReleased(s: State)
    requires s == State(T_INTERRUPTED, [Fresh(U_PRESSED), Fresh(SHIFT_UP), Fresh(SHIFT_AGAIN)], [S_CALL])
    ensures Offer(PermissiveKeys(), s, Fresh(T_RELEASED))
         == State(T_TAPPED, [Fresh(U_PRESSED)] + WAITING, [S_CALL, Call(OfTappingKey, T_TAPPED)])
  {
    var o := ProcessTapping(PermissiveKeys(), s, Fresh(T_RELEASED));
    assert o.state == State(T_TAPPED, s.buffer, [S_CALL, Call(OfTappingKey, T_TAPPED)]);
    assert o.keyp == Record(T_RELEASED, Tap(true, 1)) && !o.done;
  }

  lemma {:induction false} DrainsToU(s: State, a: Ages)
    requires s == State(T_TAPPED, [Fresh(U_PRESSED)] + WAITING, [S_CALL, Call(OfTappingKey, T_TAPPED)])
    requires |a.waiting| == 4
    ensures Drain(PermissiveKeys(), s) == State(ZERO_RECORD, WAITING, s.calls + [Call(OfTappingKey, Fresh(U_PRESSED))])
    ensures DrainErrs(PermissiveKeys(), s, a)
  {
    var c := PermissiveKeys();
    var o := ProcessTapping(c, s, Fresh(U_PRESSED));
    assert s.buffer[0] == Fresh(U_PRESSED) && s.buffer[1..] == WAITING;
    assert o == Outcome(s.(tapping := Fresh(U_PRESSED)), Fresh(U_PRESSED), true);
    var s1 := AfterRound(o);
    assert s1 == State(Fresh(U_PRESSED), WAITING, s.calls);
    assert s1.buffer[1].event == SHIFT_AGAIN;
    assert Typed(s1.buffer, SHIFT_UP);
    var o1 := ProcessTapping(c, s1, s1.buffer[0]);
    assert o1
      == Outcome(State(ZERO_RECORD, WAITING, s.calls + [Call(OfTappingKey, Fresh(U_PRESSED))]), s1.buffer[0], false);
    assert WAITING[0 := WAITING[0]] == WAITING;
    assert SettlesNested(c, s1, s1.buffer[0]);
  }
}
