/** Which keycodes the tap/hold resolver decides about, and whose releases it keeps back
    (quantum/keymap_common.c:51-193; quantum/action_tapping.c:257-300; quantum/action.c:1132-1169). */
module KeycodeTapping {
  import opened Tapping
  import opened KeycodeMeaning
  import KeyEvents
  import KeycodeActions

  type uint16 = KeycodeActions.uint16

  /** The action code, field by field as the resolver looks at it. */
  function Fields(action: uint16): Action {
    Action(action / 0x1000, action / 0x100 % 0x10, action % 0x100)
  }

  function ActionOf(code: uint16): Action { Fields(KeycodeActions.ActionForKeycode(IDENTITY, code)) }

  /** A key code, or the codes for tap-toggle and one-shot. */
  predicate CanBeTapped(key: int) { key <= 0xE7 || key == 0xF0 || key == 0xF4 }

  /** MT, LT, OSL, OSM and TT. */
  predicate IsTapKeycode(code: uint16) {
    || (0x2000 <= code <= 0x4FFF && CanBeTapped(code % 0x100))
    || 0x5280 <= code <= 0x52DF
  }

  /** Modifiers, MO, and LT and MT unless their key says otherwise. */
  predicate IsKeptBack(code: uint16) {
    || 0xE0 <= code <= 0xE7
    || (0x0100 <= code <= 0x1FFF && (0xE0 <= code % 0x100 <= 0xE7 || (code % 0x100 == 0 && code % 0x1000 != 0)))
    || (0x2000 <= code <= 0x3FFF && (0xE0 <= code % 0x100 <= 0xE7 || code / 0x100 % 0x10 != 0))
    || (0x4000 <= code <= 0x4FFF && (code % 0x100 < 0xF0 || 0xF1 <= code % 0x100 <= 0xF3))
    || 0x5220 <= code <= 0x523F
    || (0x52A0 <= code <= 0x52BF && code % 0x10 != 0)
  }

  lemma {:induction false} ModsFields(code: uint16)
    requires 0x0100 <= code <= 0x3FFF
    ensures ActionOf(code) == Action(code / 0x1000, code / 0x100 % 0x10, code % 0x100)
  {
    var c: int := code;
    if code <= 0x1FFF {
      ModsUnpack(code);
      assert c / 0x100 % 0x20 == c / 0x100;
    } else {
      assert c / 0x100 % 0x20 == c / 0x100 - 0x20;
    }
    assert c == c / 0x100 * 0x100 + c % 0x100;
    assert KeycodeActions.ActionForKeycode(IDENTITY, code) == code;
  }

  lemma {:induction false} LayerFields(code: uint16)
    requires 0x4000 <= code <= 0x4FFF
    ensures ActionOf(code).kind == 10 && ActionOf(code).code == code % 0x100
  {
    var c: int := code;
    var layer, key := c / 0x100 % 0x10, c % 0x100;
    assert c == LT(layer, key);
    var a: int := KeycodeActions.ActionForKeycode(IDENTITY, code);
    assert a == 0xA000 + layer * 0x100 + key;
    assert a / 0x1000 == 10 && a % 0x100 == key;
  }

  /** The action of a one-shot, momentary or tap-toggled layer, with this operation. */
  lemma {:induction false} OperationFields(layer: nat, op: nat)
    requires layer < 32 && op < 0x100
    ensures var a := Fields(KeycodeActions.ActionLayerTap(layer, op)); (a.kind == 10 || a.kind == 11) && a.code == op
  {
    var a: int := KeycodeActions.ActionLayerTap(layer, op);
    assert a == 0xA000 + layer * 0x100 + op && a / 0x100 == 0xA0 + layer && a / 0x1000 == (0xA0 + layer) / 0x10;
  }

  lemma {:induction false} OneShotFields(mods: nat)
    requires mods < 0x20
    ensures ActionOf(OSM(mods)) == Action(2 + mods / 0x10, mods % 0x10, 0)
  {
    var c: int := OSM(mods);
    assert c % 0x20 == mods;
    var a: int := KeycodeActions.ActionForKeycode(IDENTITY, c);
    assert a == 0x2000 + mods * 0x100 && a / 0x100 == 0x20 + mods && a / 0x1000 == 2 + mods / 0x10;
    assert (0x20 + mods) % 0x10 == mods % 0x10;
  }

  /** Layer operations and layers with modifiers are of kinds the resolver does not look at. */
  lemma {:induction false} OtherFields(code: uint16)
    requires 0x5000 <= code <= 0x521F || 0x5240 <= code <= 0x527F
    ensures ActionOf(code).kind == 8 || ActionOf(code).kind == 9
  {
    var c: int := code;
    if code >= 0x5200 {
      LowBit(c % 0x20 % 4, 0);
    } else {
      var layer, mods := c / 0x20 % 0x10, c % 0x20;
      assert c == LM(layer, mods);
    }
  }

  lemma {:induction false} RestFields(code: uint16)
    requires code < 0x0100 || code >= 0x52E0
    ensures ActionOf(code) == Action(0, 0, if IsPlain(code) || code == 1 then code else 0)
            || (0xCD <= code <= 0xDF && ActionOf(code).kind == 5)
  {
  }

  /** What the two predicates ask of the fields. */
  predicate Classified(code: uint16, a: Action) {
    (IsTapAction(a) <==> IsTapKeycode(code)) && (IsRetained(a, 0) <==> IsKeptBack(code))
  }

  lemma {:induction false} OneShotsAreClassified(code: uint16)
    requires 0x52A0 <= code <= 0x52BF
    ensures Classified(code, ActionOf(code))
  {
    var c: int := code;
    OneShotFields(c - 0x52A0);
    assert (c - 0x52A0) % 0x10 == c % 0x10;
  }

  /** MO, OSL and TT. */
  lemma {:induction false} LayerKeysAreClassified(code: uint16)
    requires 0x5220 <= code <= 0x523F || 0x5280 <= code <= 0x529F || 0x52C0 <= code <= 0x52DF
    ensures Classified(code, ActionOf(code))
  {
    var c: int := code;
    var op := if code <= 0x523F then 0xF1 else if code <= 0x529F then 0xF4 else 0xF0;
    OperationFields(c % 0x20, op);
    assert KeycodeActions.ActionForKeycode(IDENTITY, code) == KeycodeActions.ActionLayerTap(c % 0x20, op);
  }

  lemma {:induction false} ModsAreClassified(code: uint16)
    requires 0x0100 <= code <= 0x3FFF
    ensures Classified(code, ActionOf(code))
  {
    var c: int := code;
    ModsFields(code);
    assert code <= 0x1FFF ==> (c / 0x100 % 0x10 != 0 <==> c % 0x1000 >= 0x100);
  }

  lemma {:induction false} EveryKeycodeIsClassified(code: uint16)
    ensures Classified(code, ActionOf(code))
  {
    if code < 0x0100 || code >= 0x52E0 {
      RestFields(code);
    } else if code <= 0x3FFF {
      ModsAreClassified(code);
    } else if code <= 0x4FFF {
      LayerFields(code);
    } else if 0x5000 <= code <= 0x521F || 0x5240 <= code <= 0x527F {
      OtherFields(code);
    } else if 0x52A0 <= code <= 0x52BF {
      OneShotsAreClassified(code);
    } else {
      LayerKeysAreClassified(code);
    }
  }

  /** Swap-hands actions, which have no keycode here, are tapped as keys, or toggled. */
  lemma {:induction false} SwapHandsIsTapped(mods: KeyEvents.uint4, code: KeyEvents.uint8)
    ensures IsTapAction(Action(6, mods, code)) <==> code <= 0xE7 || code == 0xF1
    ensures !IsRetained(Action(6, mods, code), 0)
  {
  }

  // ---------------------------------------------------------------- in the resolver

  /** The layers, as they are now, have this keycode for the key. */
  ghost predicate HasKeycode(c: Config, s: State, key: KeyEvents.KeyPos, code: uint16) {
    c.actionFor(s.calls, key) == ActionOf(code)
  }

  /** At rest, the press of a key waits to be decided if and only if its keycode is one to tap or hold; any
      other is processed at once. */
  lemma {:induction false} PressIsDecidedExactlyWhen(c: Config, s: State, e: KeyEvents.Event, code: uint16)
    requires s.IsReset() && s.buffer == [] && e.pressed && !e.IsTick() && HasKeycode(c, s, e.key, code)
    ensures var s', r := ActionTappingProcess(c, s, KeyEvents.Fresh(e)), KeyEvents.Fresh(e);
      s' == if IsTapKeycode(code) then s.(tapping := r) else s.(calls := s.calls + [Call(OfEvent, r)])
  {
    EveryKeycodeIsClassified(code);
    assert Offer(c, s, KeyEvents.Fresh(e)).buffer == [];
  }

  /** While a key is undecided, in its term, the release of another key that was pressed before waits for
      it if and only if its keycode is one to be kept back; any other is processed at once. */
  lemma {:induction false} ReleaseWaitsExactlyWhen(c: Config, s: State, e: KeyEvents.Event, code: uint16)
    requires s.Undecided() && !e.pressed && !e.IsTick() && HasKeycode(c, s, e.key, code)
    requires e.key != s.tapping.event.key
    requires KeyEvents.TimerDiff16(e.time, s.tapping.event.time) < c.tappingTerm(s.calls, s.tapping)
    requires forall r | r in s.buffer :: !(r.event.key == e.key && r.event.pressed)
    ensures var o, r := ProcessTapping(c, s, KeyEvents.Fresh(e)), KeyEvents.Fresh(e);
      if IsKeptBack(code) then o == Outcome(s, r, false)
      else o == Outcome(s.(calls := s.calls + [Call(OfEvent, r)]), r, true)
  {
    EveryKeycodeIsClassified(code);
    assert !Typed(s.buffer, e);
  }
}
