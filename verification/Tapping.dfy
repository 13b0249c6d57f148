/** The tap/hold resolver (quantum/action_tapping.c).

    At most one key is "tapping"; everything that arrives while it is undecided
    waits in an eight-slot circular buffer.  This file states what one call of
    each function does, as functions on values; TappingEngine.dfy has the
    in-place code that is proved to do exactly this, and the other files named Tapping...
    state what the resolver promises over whole runs. */
module Tapping {
  import opened KeyEvents

  /** The fields of the 16-bit action code that the resolver looks at:
      `kind.id`, `key.mods` and `key.code` (the same bits as `layer_tap.code`). */
  datatype Action = Action(kind: uint4, mods: uint4, code: uint8)

  const ACT_LMODS: uint4 := 0
  const ACT_RMODS: uint4 := 1
  const ACT_LMODS_TAP: uint4 := 2
  const ACT_RMODS_TAP: uint4 := 3
  const ACT_SWAP_HANDS: uint4 := 6
  const ACT_LAYER_TAP: uint4 := 10
  const ACT_LAYER_TAP_EXT: uint4 := 11

  const KC_LEFT_CTRL: uint8 := 0xE0
  const KC_RIGHT_GUI: uint8 := 0xE7
  const OP_TAP_TOGGLE: uint8 := 0xF0
  const OP_ON_OFF: uint8 := 0xF1
  const OP_OFF_ON: uint8 := 0xF2
  const OP_SET_CLEAR: uint8 := 0xF3
  const OP_ONESHOT: uint8 := 0xF4
  const OP_SH_TAP_TOGGLE: uint8 := 0xF1

  predicate IsModifierKeycode(code: uint8) { KC_LEFT_CTRL <= code <= KC_RIGHT_GUI }

  predicate IsTapAction(a: Action) {
    if a.kind in {ACT_LMODS_TAP, ACT_RMODS_TAP, ACT_LAYER_TAP, ACT_LAYER_TAP_EXT} then
      a.code <= KC_RIGHT_GUI || a.code == OP_TAP_TOGGLE || a.code == OP_ONESHOT
    else if a.kind == ACT_SWAP_HANDS then
      a.code <= KC_RIGHT_GUI || a.code == OP_SH_TAP_TOGGLE
    else
      false
  }

  /** Modifier and layer actions whose release is kept back until the tapping key is decided. */
  predicate IsRetained(a: Action, tapCount: uint4) {
    if a.kind == ACT_LMODS || a.kind == ACT_RMODS then
      (a.mods != 0 && a.code == 0) || IsModifierKeycode(a.code)
    else if a.kind == ACT_LMODS_TAP || a.kind == ACT_RMODS_TAP then
      (a.mods != 0 && tapCount == 0) || IsModifierKeycode(a.code)
    else if a.kind == ACT_LAYER_TAP || a.kind == ACT_LAYER_TAP_EXT then
      a.code < OP_TAP_TOGGLE || a.code == OP_ON_OFF || a.code == OP_OFF_ON || a.code == OP_SET_CLEAR
    else
      false
  }

  /** A call of `process_record`, with the expression that was passed to it:
      the tapping key (which settles it), the event at hand, or a release made up
      for a tapping key that is being replaced. */
  datatype Origin = OfTappingKey | OfEvent | OfMadeUpRelease
  datatype Call = Call(origin: Origin, record: Record)

  /** What the resolver asks of the rest of the firmware.  Processing records changes
      layers, so every answer may depend on the calls made so far. */
  datatype Config = Config(
    actionFor: (seq<Call>, KeyPos) -> Action,      // layer_switch_get_action
    tappingTerm: (seq<Call>, Record) -> uint16,    // GET_TAPPING_TERM
    quickTapTerm: (seq<Call>, Record) -> uint16,   // GET_QUICK_TAP_TERM
    permissiveHold: (seq<Call>, Record) -> bool,   // TAP_GET_PERMISSIVE_HOLD
    holdOnOtherPress: (seq<Call>, Record) -> bool  // TAP_GET_HOLD_ON_OTHER_KEY_PRESS
  )

  datatype State = State(tapping: Record, buffer: seq<Record>, calls: seq<Call>) {
    predicate IsReset() { tapping.event.IsTick() }
    /** The tapping key is down and neither tapped nor held yet. */
    predicate Undecided() { !IsReset() && tapping.event.pressed && tapping.tap.count == 0 }
  }

  const INITIAL := State(ZERO_RECORD, [], [])
  const BUFFER_CAPACITY := 7

  predicate IsTapRecord(c: Config, s: State, r: Record) {
    !r.event.IsTick() && IsTapAction(c.actionFor(s.calls, r.event.key))
  }

  predicate IsTappingRecord(s: State, r: Record) { s.tapping.event.key == r.event.key }

  predicate WithinTappingTerm(c: Config, s: State, e: Event) {
    TimerDiff16(e.time, s.tapping.event.time) < c.tappingTerm(s.calls, s.tapping)
  }

  predicate WithinQuickTapTerm(c: Config, s: State, e: Event) {
    TimerDiff16(e.time, s.tapping.event.time) < c.quickTapTerm(s.calls, s.tapping)
  }

  /** waiting_buffer_typed: some waiting event is the other half of `e`. */
  predicate Typed(buffer: seq<Record>, e: Event) {
    exists i | 0 <= i < |buffer| :: buffer[i].event.key == e.key && buffer[i].event.pressed != e.pressed
  }

  function Emit(s: State, origin: Origin, r: Record): State {
    s.(calls := s.calls + [Call(origin, r)])
  }

  predicate TapsTappingKey(c: Config, s: State, r: Record) {
    !r.event.IsTick() && r.event.key == s.tapping.event.key && !r.event.pressed && WithinTappingTerm(c, s, r.event)
  }

  /** The first waiting release of the tapping key inside its term, or `|s.buffer|`. */
  function FindTap(c: Config, s: State, from: nat): (i: nat)
    requires from <= |s.buffer|
    ensures from <= i <= |s.buffer|
    ensures i < |s.buffer| ==> TapsTappingKey(c, s, s.buffer[i])
    ensures forall j | from <= j < i :: !TapsTappingKey(c, s, s.buffer[j])
    decreases |s.buffer| - from
  {
    if from == |s.buffer| || TapsTappingKey(c, s, s.buffer[from]) then from else FindTap(c, s, from + 1)
  }

  /** waiting_buffer_scan_tap: settle a new tapping key whose release is already waiting. */
  function ScanTap(c: Config, s: State): State {
    if s.tapping.tap.count > 0 || !s.tapping.event.pressed then s
    else
      var i := FindTap(c, s, 0);
      if i == |s.buffer| then s
      else
        var tapped := s.tapping.(tap := s.tapping.tap.(count := 1));
        var candidate := s.buffer[i].(tap := s.buffer[i].tap.(count := 1));
        Emit(s.(tapping := tapped, buffer := s.buffer[i := candidate]), OfTappingKey, tapped)
  }

  datatype Outcome = Outcome(state: State, keyp: Record, done: bool)

  /** process_tapping.  `keyp` comes back because the code writes its tap state. */
  function ProcessTapping(c: Config, s: State, keyp: Record): Outcome {
    var event := keyp.event;
    if s.IsReset() then
      if event.IsTick() then Outcome(s, keyp, true)
      else if event.pressed && IsTapRecord(c, s, keyp) then Outcome(ScanTap(c, s.(tapping := keyp)), keyp, true)
      else Outcome(Emit(s, OfEvent, keyp), keyp, true)
    else if s.tapping.event.pressed then
      if WithinTappingTerm(c, s, event) then
        if event.IsTick() then Outcome(s, keyp, true)
        else if s.tapping.tap.count == 0 then ProcessUndecided(c, s, keyp)
        else if IsTappingRecord(s, keyp) && !event.pressed then
          var released := keyp.(tap := s.tapping.tap);
          Outcome(Emit(s, OfEvent, released).(tapping := released), released, true)
        else ProcessWhileTapped(c, s, keyp)
      else if s.tapping.tap.count == 0 then
        Outcome(Emit(s, OfTappingKey, s.tapping).(tapping := ZERO_RECORD), keyp, false)
      else if event.IsTick() then Outcome(s, keyp, true)
      else if IsTappingRecord(s, keyp) && !event.pressed then
        var released := keyp.(tap := s.tapping.tap);
        Outcome(Emit(s, OfEvent, released).(tapping := ZERO_RECORD), released, true)
      else ProcessWhileTapped(c, s, keyp)
    else
      if WithinTappingTerm(c, s, event) then
        if event.IsTick() then Outcome(s, keyp, true)
        else ProcessAfterTap(c, s, keyp)
      else Outcome(s.(tapping := ZERO_RECORD), keyp, false)
  }

  /** The tapping key is down, undecided and within its term. */
  function ProcessUndecided(c: Config, s: State, keyp: Record): Outcome {
    var event := keyp.event;
    if IsTappingRecord(s, keyp) && !event.pressed then
      var tapped := s.tapping.(tap := s.tapping.tap.(count := 1));
      Outcome(Emit(s.(tapping := tapped), OfTappingKey, tapped), keyp.(tap := tapped.tap), false)
    else if !event.pressed && Typed(s.buffer, event) && c.permissiveHold(s.calls, s.tapping) then
      Outcome(Emit(s, OfTappingKey, s.tapping).(tapping := ZERO_RECORD), keyp, false)
    else if !event.pressed && !Typed(s.buffer, event) then
      if IsRetained(c.actionFor(s.calls, event.key), keyp.tap.count) then Outcome(s, keyp, false)
      else Outcome(Emit(s, OfEvent, keyp), keyp, true)
    else if event.pressed then
      var s' := s.(tapping := s.tapping.(tap := s.tapping.tap.(interrupted := true)));
      if c.holdOnOtherPress(s.calls, s'.tapping) then
        Outcome(Emit(s', OfTappingKey, s'.tapping).(tapping := ZERO_RECORD), keyp, false)
      else Outcome(s', keyp, false)
    else Outcome(s, keyp, false)
  }

  /** A repeated tap gets a release made up for it when another tapping key takes over. */
  function ReleaseLastTap(s: State, time: uint16): State {
    if s.tapping.tap.count > 1
    then Emit(s, OfMadeUpRelease, Record(s.tapping.event.(time := time, pressed := false), s.tapping.tap))
    else s
  }

  /** The tapping key is down and already counted as tapped; `keyp` is not its release. */
  function ProcessWhileTapped(c: Config, s: State, keyp: Record): Outcome {
    if IsTapRecord(c, s, keyp) && keyp.event.pressed then
      Outcome(ScanTap(c, ReleaseLastTap(s, keyp.event.time).(tapping := keyp)), keyp, true)
    else Outcome(Emit(s, OfEvent, keyp), keyp, true)
  }

  /** The tapping key was released a moment ago. */
  function ProcessAfterTap(c: Config, s: State, keyp: Record): Outcome {
    var event := keyp.event;
    if !event.pressed then Outcome(Emit(s, OfEvent, keyp), keyp, true)
    else if IsTappingRecord(s, keyp) then
      if WithinQuickTapTerm(c, s, event) && !s.tapping.tap.interrupted && s.tapping.tap.count > 0 then
        var n: uint4 := if s.tapping.tap.count < 15 then s.tapping.tap.count + 1 else 15;
        var again := keyp.(tap := s.tapping.tap.(count := n));
        Outcome(Emit(s, OfEvent, again).(tapping := again), again, true)
      else Outcome(s.(tapping := keyp), keyp, true)
    else if IsTapRecord(c, s, keyp) then Outcome(ScanTap(c, s.(tapping := keyp)), keyp, true)
    else
      Outcome(Emit(s.(tapping := s.tapping.(tap := s.tapping.tap.(interrupted := true))), OfEvent, keyp), keyp, true)
  }

  /** No function ever changes which events are waiting, nor how many. */
  predicate SameEvents(a: seq<Record>, b: seq<Record>) {
    |a| == |b| && forall i | 0 <= i < |a| :: a[i].event == b[i].event
  }

  lemma {:induction false} KeepsWaitingEvents(c: Config, s: State, keyp: Record)
    ensures SameEvents(ProcessTapping(c, s, keyp).state.buffer, s.buffer)
    ensures ProcessTapping(c, s, keyp).keyp.event == keyp.event
  {
  }

  /** waiting_buffer_enq, and the reset that `action_tapping_process` performs on overflow. */
  predicate Overflows(s: State, r: Record) { !r.event.IsTick() && |s.buffer| >= BUFFER_CAPACITY }

  function Enqueue(s: State, r: Record): State {
    if r.event.IsTick() then s
    else if Overflows(s, r) then s.(tapping := ZERO_RECORD, buffer := [])
    else s.(buffer := s.buffer + [r])
  }

  /** What re-offering the oldest waiting record leaves behind, `o` being what
      process_tapping made of it: a consumed record leaves the buffer. */
  function AfterRound(o: Outcome): State
    requires o.state.buffer != []
  {
    if o.done then o.state.(buffer := o.state.buffer[1..])
    else o.state.(buffer := o.state.buffer[0 := o.keyp])
  }

  /** The loop that re-offers waiting records, oldest first, until one is not consumed. */
  function Drain(c: Config, s: State): State
    decreases |s.buffer|
  {
    if s.buffer == [] then s
    else
      var o := ProcessTapping(c, s, s.buffer[0]);
      KeepsWaitingEvents(c, s, s.buffer[0]);
      if o.done then Drain(c, AfterRound(o)) else AfterRound(o)
  }

  /** What `action_tapping_process` has done when it starts draining. */
  function Offer(c: Config, s: State, r: Record): State {
    var o := ProcessTapping(c, s, r);
    if o.done then o.state else Enqueue(o.state, o.keyp)
  }

  function ActionTappingProcess(c: Config, s: State, r: Record): State {
    Drain(c, Offer(c, s, r))
  }

  /** The state after `action_exec` has passed these events on, oldest first. */
  function Run(c: Config, events: seq<Event>): State {
    if events == [] then INITIAL
    else ActionTappingProcess(c, Run(c, events[..|events| - 1]), Fresh(events[|events| - 1]))
  }
}
