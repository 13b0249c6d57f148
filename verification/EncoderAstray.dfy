/** An encoder step whose release does something else than its press.  Press and release of a step
    are executed one right after the other (quantum/encoder.c:175-187), but the tap/hold resolver
    can keep the release back: draining stops when the state of a released key times out between
    the two (quantum/action_tapping.c:101-109, 431-437), and a step back is then handled first
    (quantum/action_layer.c:260-317). */
module EncoderAstray {
  import opened KeyEvents
  import opened Tapping
  import opened TappingConservation
  import ActionLayer
  import opened LayerBits
  import opened ActionLayerRuns

  const CW := KeyPos(253, 0)
  const CCW := KeyPos(252, 0)
  const T := KeyPos(0, 0)
  const U := KeyPos(0, 1)

  function KeyAt(key: KeyPos, time: uint16, pressed: bool): KeyEvents.Event {
    KeyEvents.Event(key, time, KeyEvent, pressed)
  }
  function StepAt(cw: bool, time: uint16, pressed: bool): KeyEvents.Event {
    KeyEvents.Event(if cw then CW else CCW, time, if cw then EncoderCwEvent else EncoderCcwEvent, pressed)
  }

  const T_DOWN := KeyAt(T, 0, true)
  const U_DOWN := KeyAt(U, 10, true)
  const U_UP := KeyAt(U, 20, false)
  const CW_DOWN := StepAt(true, 119, true)
  const CW_UP := StepAt(true, 120, false)
  const T_UP := KeyAt(T, 121, false)
  const CCW_DOWN := StepAt(false, 130, true)

  /** Two tap keys with terms of 1000 ms and 100 ms; encoder steps are plain. */
  function TwoTapKeys(): Config {
    Config((calls: seq<Call>, key: KeyPos) =>
             if key.row == 0 then Action(ACT_LMODS_TAP, 2, 4) else Action(ACT_LMODS, 0, 4),
           (calls: seq<Call>, r: Record) => if r.event.key == T then 1000 else 100,
           (calls: seq<Call>, r: Record) => 0,
           (calls: seq<Call>, r: Record) => false,
           (calls: seq<Call>, r: Record) => false)
  }

  const T_HELD := Record(T_DOWN, Tap(true, 0))
  const STEPS: seq<KeyEvents.Event> := [T_DOWN, U_DOWN, U_UP, CW_DOWN, CW_UP]

  lemma {:induction false} TStarts()
    ensures Run(TwoTapKeys(), STEPS[..1]) == State(Fresh(T_DOWN), [], [])
  {
    assert STEPS[..1][..0] == [] && Run(TwoTapKeys(), []) == INITIAL;
  }

  /** While T is undecided, all wait, with U in front. */
  lemma {:induction false} Waits(s: State, e: KeyEvents.Event)
    requires s.calls == [] && |s.buffer| < 4
    requires if s.buffer == [] then s.tapping == Fresh(T_DOWN) && e == U_DOWN
             else s.tapping == T_HELD && s.buffer[0] == Fresh(U_DOWN) && e in [U_UP, CW_DOWN, CW_UP]
    requires e == CW_UP ==> Fresh(CW_DOWN) in s.buffer
    ensures ActionTappingProcess(TwoTapKeys(), s, Fresh(e)) == State(T_HELD, s.buffer + [Fresh(e)], [])
  {
    var c, r := TwoTapKeys(), Fresh(e);
    var s1 := State(T_HELD, s.buffer + [r], []);
    if e == U_UP { assert s.buffer[0].event.pressed; }
    assert ProcessTapping(c, s, r) == Outcome(State(T_HELD, s.buffer, []), r, false);
    assert Offer(c, s, r) == s1;
    var first := Fresh(U_DOWN);
    assert s1.buffer[0] == first;
    assert ProcessTapping(c, s1, first) == Outcome(s1, first, false);
    assert s1.buffer[0 := first] == s1.buffer;
  }

  lemma {:induction false} UWaits()
    ensures Run(TwoTapKeys(), STEPS[..3]) == State(T_HELD, [Fresh(U_DOWN), Fresh(U_UP)], [])
  {
    var c := TwoTapKeys();
    TStarts();
    assert STEPS[..2][..1] == STEPS[..1] && STEPS[..3][..2] == STEPS[..2];
    Waits(Run(c, STEPS[..1]), U_DOWN);
    assert Run(c, STEPS[..2]) == State(T_HELD, [Fresh(U_DOWN)], []);
    Waits(Run(c, STEPS[..2]), U_UP);
  }

  lemma {:induction false} AllWait()
    ensures Run(TwoTapKeys(), STEPS) == State(T_HELD, [Fresh(U_DOWN), Fresh(U_UP), Fresh(CW_DOWN), Fresh(CW_UP)], [])
  {
    var c := TwoTapKeys();
    UWaits();
    assert STEPS[..5] == STEPS && STEPS[..5][..4] == STEPS[..4] && STEPS[..4][..3] == STEPS[..3];
    Waits(Run(c, STEPS[..3]), CW_DOWN);
    assert Run(c, STEPS[..4]) == State(T_HELD, [Fresh(U_DOWN), Fresh(U_UP), Fresh(CW_DOWN)], []);
    Waits(Run(c, STEPS[..4]), CW_UP);
  }

  const T_TAPPED := Record(T_DOWN, Tap(true, 1))
  const T_RELEASE := Record(T_UP, Tap(true, 1))
  const U_TAPPED := Record(U_DOWN, Tap(false, 1))
  const U_RELEASE := Record(U_UP, Tap(false, 1))
  const LATER: seq<Record> := [Fresh(CW_DOWN), Fresh(CW_UP), T_RELEASE]
  const CALLS: seq<Call> := [Call(OfTappingKey, T_TAPPED), Call(OfTappingKey, U_TAPPED), Call(OfEvent, U_RELEASE),
                             Call(OfEvent, Fresh(CW_DOWN))]

  /** T is released: it and U are tapped, and draining stops at the release of the step. */
  lemma {:induction false} TIsReleased(s: State)
    requires s == State(T_HELD, [Fresh(U_DOWN), Fresh(U_UP), Fresh(CW_DOWN), Fresh(CW_UP)], [])
    ensures Offer(TwoTapKeys(), s, Fresh(T_UP)) == State(T_TAPPED, [Fresh(U_DOWN), Fresh(U_UP)] + LATER, CALLS[..1])
  {
    var o := ProcessTapping(TwoTapKeys(), s, Fresh(T_UP));
    assert o == Outcome(State(T_TAPPED, s.buffer, CALLS[..1]), T_RELEASE, false);
  }

  lemma {:induction false} UIsTapped(s: State)
    requires s == State(T_TAPPED, [Fresh(U_DOWN), Fresh(U_UP)] + LATER, CALLS[..1])
    ensures Drain(TwoTapKeys(), s) == Drain(TwoTapKeys(), State(U_TAPPED, [U_RELEASE] + LATER, CALLS[..2]))
  {
    var c := TwoTapKeys();
    assert s.buffer[0] == Fresh(U_DOWN);
    var s1 := s.(tapping := Fresh(U_DOWN));
    assert TapsTappingKey(c, s1, s1.buffer[1]) && !TapsTappingKey(c, s1, s1.buffer[0]);
    assert FindTap(c, s1, 0) == 1;
    assert s.buffer[1].(tap := s.buffer[1].tap.(count := 1)) == U_RELEASE;
    var o := ProcessTapping(c, s, s.buffer[0]);
    assert o.done && o.state.tapping == U_TAPPED && o.state.calls == CALLS[..2];
    assert o.state.buffer == s.buffer[1 := U_RELEASE];
    assert o.state.buffer[1..] == [U_RELEASE] + LATER;
  }

  lemma {:induction false} StepIsPressed(s: State)
    requires s == State(U_TAPPED, [U_RELEASE] + LATER, CALLS[..2])
    ensures Drain(TwoTapKeys(), s) == State(ZERO_RECORD, LATER[1..], CALLS)
  {
    var c := TwoTapKeys();
    var o1 := ProcessTapping(c, s, s.buffer[0]);
    assert CALLS[..3] == CALLS[..2] + [Call(OfEvent, U_RELEASE)] && s.buffer[1..] == LATER;
    var s1 := State(U_RELEASE, LATER, CALLS[..3]);
    assert o1.done && AfterRound(o1) == s1;
    var o2 := ProcessTapping(c, s1, s1.buffer[0]);
    assert CALLS == CALLS[..3] + [Call(OfEvent, Fresh(CW_DOWN))];
    var s2 := State(U_RELEASE.(tap := Tap(true, 1)), LATER[1..], CALLS);
    assert o2.done && AfterRound(o2) == s2;
    var o3 := ProcessTapping(c, s2, s2.buffer[0]);
    assert o3 == Outcome(s2.(tapping := ZERO_RECORD), Fresh(CW_UP), false);
    assert LATER[1..][0 := Fresh(CW_UP)] == LATER[1..];
    assert Drain(c, s) == Drain(c, s1) == Drain(c, s2) == AfterRound(o3);
  }

  const TURNED: seq<Call> :=
    CALLS + [Call(OfEvent, Fresh(CCW_DOWN)), Call(OfEvent, Fresh(CW_UP)), Call(OfEvent, T_RELEASE)]

  /** The step back, arriving next, is handled before what waits. */
  lemma {:induction false} StepBackGoesFirst(s: State)
    requires s == State(ZERO_RECORD, LATER[1..], CALLS)
    ensures ActionTappingProcess(TwoTapKeys(), s, Fresh(CCW_DOWN)).calls == TURNED
  {
    var c := TwoTapKeys();
    var s1 := State(ZERO_RECORD, [Fresh(CW_UP), T_RELEASE], CALLS + [Call(OfEvent, Fresh(CCW_DOWN))]);
    assert LATER[1..] == [Fresh(CW_UP), T_RELEASE];
    assert Offer(c, s, Fresh(CCW_DOWN)) == s1;
    var o1 := ProcessTapping(c, s1, s1.buffer[0]);
    var s2 := State(ZERO_RECORD, [T_RELEASE], s1.calls + [Call(OfEvent, Fresh(CW_UP))]);
    assert o1.done && AfterRound(o1) == s2;
    var o2 := ProcessTapping(c, s2, s2.buffer[0]);
    assert o2.done && AfterRound(o2) == State(ZERO_RECORD, [], s2.calls + [Call(OfEvent, T_RELEASE)]);
    assert Drain(c, s1) == Drain(c, s2) == AfterRound(o2);
    assert TURNED == s2.calls + [Call(OfEvent, T_RELEASE)];
  }

  const TURN: seq<KeyEvents.Event> := STEPS + [T_UP] + [CCW_DOWN]

  /** A step clockwise and a step back, in this order, are processed press, press, release. */
  lemma {:induction false} ReleaseComesLate()
    ensures Run(TwoTapKeys(), TURN).calls == TURNED
  {
    var c := TwoTapKeys();
    AllWait();
    assert (STEPS + [T_UP])[..5] == STEPS && TURN[..6] == STEPS + [T_UP];
    TIsReleased(Run(c, STEPS));
    UIsTapped(Offer(c, Run(c, STEPS), Fresh(T_UP)));
    StepIsPressed(State(U_TAPPED, [U_RELEASE] + LATER, CALLS[..2]));
    assert Run(c, STEPS + [T_UP]) == State(ZERO_RECORD, LATER[1..], CALLS);
    StepBackGoesFirst(Run(c, STEPS + [T_UP]));
  }

  // ------------------------------------------------------------------ what the calls do

  function BoardKey(key: KeyPos): ActionLayer.Key { ActionLayer.Key(key.row, key.col) }

  /** Each call asks store_or_get_action for its action (quantum/action.c:296). */
  function Asked(call: Call): ActionLayerRuns.Event {
    var key := BoardKey(call.record.event.key);
    if call.record.event.pressed then Press(key) else Release(key)
  }

  function AllAsked(calls: seq<Call>): (es: seq<ActionLayerRuns.Event>)
    ensures |es| == |calls| && forall i | 0 <= i < |calls| :: es[i] == Asked(calls[i])
  {
    seq(|calls|, i requires 0 <= i < |calls| => Asked(calls[i]))
  }

  const OTHER: ActionLayer.Action := 4
  const FORWARD: ActionLayer.Action := 5
  const BACK: ActionLayer.Action := 6

  /** Layer 1 has an action for a step back only; layer 0 has one for everything. */
  function Keymap(layer: nat, key: ActionLayer.Key): ActionLayer.Action {
    if layer == 1 then (if key == BoardKey(CCW) then BACK else ActionLayer.ACTION_TRANSPARENT)
    else if key == BoardKey(CW) then FORWARD else OTHER
  }

  const KEYBOARD := ActionLayer.Board(8, 3, 8, 1, 2, 1, (layer: nat, key: ActionLayer.Key) => Keymap(layer, key))

  /** Layers 0 and 1 are active. */
  const LAYERS: Bits := [true, true, false, false, false, false, false, false]
  const START := ActionLayer.State(LAYERS, LAYERS, [0, 0], [0], false)

  lemma {:induction false} StandingLayers(events: seq<ActionLayerRuns.Event>, n: nat)
    requires ValidRun(KEYBOARD, events) && n <= |events| && ActionLayer.Fits(KEYBOARD, START)
    requires forall i | 0 <= i < |events| :: events[i].Press? || events[i].Release?
    ensures var st := At(KEYBOARD, START, events, n); st.layers == LAYERS && st.defaults == LAYERS && !st.disabled
  {
    if n > 0 { StandingLayers(events, n - 1); }
  }

  lemma {:induction false} TopLayers(key: ActionLayer.Key)
    ensures Or(LAYERS, LAYERS) == LAYERS
    ensures ActionLayer.TopLayer(KEYBOARD, LAYERS, key, 8) == if key == BoardKey(CCW) then 1 else 0
  {
    assert forall i | 2 <= i < 8 :: !LAYERS[i];
    TopLayerIs(key, 8);
  }

  lemma {:induction false} TopLayerIs(key: ActionLayer.Key, i: nat)
    requires 2 <= i <= 8
    ensures ActionLayer.TopLayer(KEYBOARD, LAYERS, key, i) == if key == BoardKey(CCW) then 1 else 0
  {
    if i > 2 {
      assert !LAYERS[i - 1];
      TopLayerIs(key, i - 1);
    } else {
      assert LAYERS[1] && LAYERS[0];
      assert ActionLayer.TopLayer(KEYBOARD, LAYERS, key, 1) == 0;
    }
  }

  lemma {:induction false} TurnIsValid()
    ensures KEYBOARD.Valid() && ActionLayer.Fits(KEYBOARD, START)
    ensures ValidRun(KEYBOARD, AllAsked(TURNED))
  {
  }

  /** The step forward is pressed with its action on layer 0 and released with that of layer 1, the
      layer on which the step back was found: the run of the resolver above does what the exact
      condition of EncoderReleaseAgreesExactlyWhen says goes wrong. */
  lemma {:induction false} ReleaseGoesAstray()
    ensures KEYBOARD.Valid() && ActionLayer.Fits(KEYBOARD, START) && ValidRun(KEYBOARD, AllAsked(TURNED))
    ensures var events := AllAsked(Run(TwoTapKeys(), TURN).calls);
      && events == AllAsked(TURNED) && events[3] == Press(BoardKey(CW)) && events[5] == Release(BoardKey(CW))
      && ActionAt(KEYBOARD, START, events, 3) == FORWARD
      && ActionAt(KEYBOARD, START, events, 5) == ActionLayer.ACTION_TRANSPARENT
  {
    ReleaseComesLate();
    TurnIsValid();
    var events := AllAsked(TURNED);
    StandingLayers(events, 3);
    StandingLayers(events, 4);
    StandingLayers(events, 5);
    TopLayers(BoardKey(CW));
    TopLayers(BoardKey(CCW));
    RecallsLastPress(KEYBOARD, START, events, 4, 5, BoardKey(CW));
  }
}
