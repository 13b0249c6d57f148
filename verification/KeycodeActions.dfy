/** Keycodes packed into 16-bit actions (quantum/keymap_common.c:51-193, quantum/action_code.h),
    and what actions do to layers and modifiers (quantum/action.c:389-537, 563-719). */
module KeycodeActions {
  import opened Arithmetic
  import opened LayerBits

  type uint16 = x: int | 0 <= x < 0x1_0000
  type uint8 = x: int | 0 <= x < 0x100

  /** Four modifiers and a flag for the right hand. */
  type uint5 = x: int | 0 <= x < 0x20

  /** keycode_config and mod_config: the user's remapping. */
  datatype Remap = Remap(keycode: uint16 -> uint16, mods: uint5 -> uint5)

  // ------------------------------------------------------------------------- packing

  /** An action code, field by field: 4 bits of kind and 12 of parameter. */
  function ACTION(kind: nat, param: nat): uint16
    requires kind < 0x10 && param < 0x1000
  {
    kind * 0x1000 + param
  }

  /** Kind `kind` or, by the fifth modifier bit, the one after it; `kind` is even. */
  function ActionModsKey(kind: nat, mods: uint5, key: uint8): uint16
    requires kind == 0 || kind == 2
  {
    kind * 0x1000 + mods * 0x100 + key
  }

  function ActionLayerBitop(op: nat, part: nat, bits: nat, on: nat): uint16
    requires op < 4 && on < 4 && part < 8
  {
    ACTION(8, op * 0x400 + on * 0x100 + part * 0x20 + bits % 0x20)
  }

  const OP_BIT_AND := 0
  const OP_BIT_OR := 1
  const OP_BIT_XOR := 2
  const OP_BIT_SET := 3
  const ON_PRESS := 1
  const ON_RELEASE := 2

  function ActionLayerGoto(layer: nat): uint16
    requires layer < 32
  {
    ActionLayerBitop(OP_BIT_SET, layer / 4, Pow2(layer % 4), ON_PRESS)
  }
  function ActionLayerToggle(layer: nat): uint16
    requires layer < 32
  {
    ActionLayerBitop(OP_BIT_XOR, layer / 4, Pow2(layer % 4), ON_RELEASE)
  }
  function ActionDefaultLayerSet(layer: nat): uint16
    requires layer < 32
  {
    ActionLayerBitop(OP_BIT_SET, layer / 4, Pow2(layer % 4), 0)
  }

  const OP_TAP_TOGGLE := 0xF0
  const OP_ON_OFF := 0xF1
  const OP_OFF_ON := 0xF2
  const OP_SET_CLEAR := 0xF3
  const OP_ONESHOT := 0xF4

  /** The fifth layer bit makes kind 10 kind 11. */
  function ActionLayerTap(layer: nat, key: uint8): uint16
    requires layer < 32
  {
    0xA000 + layer * 0x100 + key
  }

  /** (layer << 8) | mods, where `mods` may have its ninth bit set. */
  function ActionLayerMods(layer: nat, mods: nat): uint16
    requires layer < 16 && mods < 0x200
  {
    var overlap := mods / 0x100;
    ACTION(9, (layer - layer % 2 + if layer % 2 == 1 || overlap == 1 then 1 else 0) * 0x100 + mods % 0x100)
  }

  /** action_for_keycode, for the ranges modelled here; the others give no action. */
  function ActionForKeycode(remap: Remap, code: uint16): uint16 {
    var keycode := remap.keycode(code);
    if 0x0004 <= keycode <= 0x00A4 || 0x00E0 <= keycode <= 0x00E7 then ACTION(0, keycode)
    else if 0x00CD <= keycode <= 0x00DF then ACTION(5, keycode)
    else if keycode == 0x0001 then 1
    else if 0x0100 <= keycode <= 0x1FFF
      then ActionModsKey(0, remap.mods(keycode / 0x100 % 0x20), remap.keycode(keycode % 0x100) % 0x100)
    else if 0x4000 <= keycode <= 0x4FFF
      then ActionLayerTap(keycode / 0x100 % 0x10, remap.keycode(keycode % 0x100) % 0x100)
    else if 0x5200 <= keycode <= 0x521F then ActionLayerGoto(keycode % 0x20)
    else if 0x5220 <= keycode <= 0x523F then ActionLayerTap(keycode % 0x20, OP_ON_OFF)
    else if 0x5240 <= keycode <= 0x525F then ActionDefaultLayerSet(keycode % 0x20)
    else if 0x5260 <= keycode <= 0x527F then ActionLayerToggle(keycode % 0x20)
    else if 0x5280 <= keycode <= 0x529F then ActionLayerTap(keycode % 0x20, OP_ONESHOT)
    else if 0x52A0 <= keycode <= 0x52BF then ActionModsKey(2, remap.mods(keycode % 0x20), 0)
    else if 0x52C0 <= keycode <= 0x52DF then ActionLayerTap(keycode % 0x20, OP_TAP_TOGGLE)
    else if 0x5000 <= keycode <= 0x51FF then
      var mod: int := remap.mods(keycode % 0x20);
      ActionLayerMods(keycode / 0x20 % 0x10, if mod >= 0x10 then mod * 0x10 else mod)
    else if 0x2000 <= keycode <= 0x3FFF
      then ActionModsKey(2, remap.mods(keycode / 0x100 % 0x20), remap.keycode(keycode % 0x100) % 0x100)
    else 0
  }

  // ------------------------------------------------------------------------ unpacking

  /** The fields of the union action_t that are used here. */
  datatype Fields =
    | KeyMods(right: bool, mods: nat, code: nat)
    | TapMods(right: bool, mods: nat, code: nat)
    | LayerBitop(op: nat, on: nat, part: nat, extra: bool, bits: nat)
    | LayerMods(layer: nat, mods: nat)
    | LayerTap(layer: nat, code: nat)
    | Usage(page: nat, code: nat)
    | Mouse(code: nat)
    | Other

  function Unpack(action: uint16): Fields {
    var kind := action / 0x1000;
    if kind < 2 then KeyMods(kind == 1, action / 0x100 % 0x10, action % 0x100)
    else if kind < 4 then TapMods(kind == 3, action / 0x100 % 0x10, action % 0x100)
    else if kind == 4 then Usage(action / 0x400 % 4, action % 0x400)
    else if kind == 5 then Mouse(action % 0x100)
    else if kind == 8 then
      LayerBitop(action / 0x400 % 4, action / 0x100 % 4, action / 0x20 % 8, action / 0x10 % 2 == 1, action % 0x10)
    else if kind == 9 then LayerMods(action / 0x100 % 0x10, action % 0x100)
    else if kind == 10 || kind == 11 then LayerTap(action / 0x100 % 0x20, action % 0x100)
    else Other
  }

  // -------------------------------------------------------------------------- effects

  /** What the firmware asks of the rest, besides layer changes. */
  datatype Call =
    | AddMods(mods: nat) | DelMods(mods: nat) | AddWeakMods(mods: nat) | DelWeakMods(mods: nat)
    | RegisterMods(mods: nat) | UnregisterMods(mods: nat)
    | SendReport | RegisterCode(code: nat) | UnregisterCode(code: nat)
    | AddOneshotMods(mods: nat) | DelOneshotMods(mods: nat)
    | SystemSend(code: nat) | ConsumerSend(code: nat) | RegisterMouse(code: nat, pressed: bool)
    | SetOneshotLayer(layer: nat) | ClearOneshotPressed | ClearOneshotOtherKey

  datatype Layers = Layers(active: Bits, defaults: Bits)

  predicate Fits(width: nat, st: Layers) { |st.active| == width && |st.defaults| == width }

  datatype Outcome = Outcome(layers: Layers, calls: seq<Call>)

  function LayerOn(s: Bits, layer: nat): Bits { Or(s, Single(|s|, layer)) }
  function LayerOff(s: Bits, layer: nat): Bits { LayerBits.And(s, Not(Single(|s|, layer))) }
  function LayerInvert(s: Bits, layer: nat): Bits { Xor(s, Single(|s|, layer)) }

  /** bits << (part * 4), and with the extra bit everything outside that chunk. */
  function Chunk(width: nat, part: nat, bits: nat, extra: bool): (c: Bits)
    ensures |c| == width
  {
    seq(width, i requires 0 <= i => if part * 4 <= i < part * 4 + 4 then Bit(bits, i - part * 4) else extra)
  }

  function Bitop(f: Fields, s: Bits): (s': Bits)
    requires f.LayerBitop?
    ensures |s'| == |s|
  {
    var chunk := Chunk(|s|, f.part, f.bits, f.extra);
    if f.op == OP_BIT_AND then LayerBits.And(s, chunk)
    else if f.op == OP_BIT_OR then Or(s, chunk)
    else if f.op == OP_BIT_XOR then Xor(s, chunk)
    else chunk
  }

  predicate IsModifier(code: nat) { 0xE0 <= code <= 0xE7 }

  function ExpandedMods(f: Fields): nat
    requires f.KeyMods? || f.TapMods?
  {
    if f.right then f.mods * 0x10 else f.mods
  }

  function ModsCalls(f: Fields, pressed: bool): seq<Call>
    requires f.KeyMods?
  {
    var mods := ExpandedMods(f);
    var strong := IsModifier(f.code) || f.code == 0;
    if pressed then
      (if mods != 0 then [if strong then AddMods(mods) else AddWeakMods(mods), SendReport] else [])
        + [RegisterCode(f.code)]
    else
      [UnregisterCode(f.code)]
        + if mods != 0 then [if strong then DelMods(mods) else DelWeakMods(mods), SendReport] else []
  }

  const TAPPING_TOGGLE := 5
  const MODS_ONESHOT := 0
  const MODS_TAP_TOGGLE := 1

  /** A key that is modifiers when held: one-shot modifiers, tap-toggled ones, or a key when tapped. */
  function TapModsCalls(f: Fields, pressed: bool, tapCount: nat, oneshotEnable: bool): seq<Call>
    requires f.TapMods?
  {
    var mods := ExpandedMods(f);
    if f.code == MODS_ONESHOT then
      if !oneshotEnable then ModsCalls(KeyMods(f.right, f.mods, f.code), pressed)
      else if pressed then
        if tapCount == 0 then [RegisterMods(mods)] else if tapCount == 1 then [AddOneshotMods(mods)] else []
      else if tapCount == 0 then [UnregisterMods(mods), DelOneshotMods(mods)]
      else []
    else if f.code == MODS_TAP_TOGGLE then
      if pressed then (if tapCount <= TAPPING_TOGGLE then [RegisterMods(mods)] else [])
      else if tapCount < TAPPING_TOGGLE then [UnregisterMods(mods)]
      else []
    else if pressed then [if tapCount > 0 then RegisterCode(f.code) else RegisterMods(mods)]
    else [if tapCount > 0 then UnregisterCode(f.code) else UnregisterMods(mods)]
  }

  /** Bit 0 of `on` is for presses and bit 1 for releases. */
  predicate Acts(on: nat, pressed: bool) { Bit(on, if pressed then 0 else 1) }

  /** process_action for the layer and modifier actions. */
  function Process(action: uint16, pressed: bool, tapCount: nat, oneshotEnable: bool, st: Layers): Outcome {
    ProcessFields(Unpack(action), pressed, tapCount, oneshotEnable, st)
  }

  const PAGE_SYSTEM := 0
  const PAGE_CONSUMER := 1

  /** A usage is sent while the key is down, and 0 when it is released. */
  function UsageCalls(page: nat, code: nat, pressed: bool): seq<Call> {
    var usage := if pressed then code else 0;
    if page == PAGE_SYSTEM then [SystemSend(usage)] else if page == PAGE_CONSUMER then [ConsumerSend(usage)] else []
  }

  function ProcessFields(f: Fields, pressed: bool, tapCount: nat, oneshotEnable: bool, st: Layers): Outcome {
    match f
    case KeyMods(_, _, _) => Outcome(st, ModsCalls(f, pressed))
    case TapMods(_, _, _) => Outcome(st, TapModsCalls(f, pressed, tapCount, oneshotEnable))
    case LayerBitop(_, on, _, _, _) =>
      if on == 0 then Outcome(if pressed then st else st.(defaults := Bitop(f, st.defaults)), [])
      else Outcome(if Acts(on, pressed) then st.(active := Bitop(f, st.active)) else st, [])
    case LayerMods(layer, mods) =>
      if pressed then Outcome(st.(active := LayerOn(st.active, layer)), [RegisterMods(mods)])
      else Outcome(st.(active := LayerOff(st.active, layer)), [UnregisterMods(mods)])
    case LayerTap(layer, code) => ProcessLayerTap(layer, code, pressed, tapCount, oneshotEnable, st)
    case Usage(page, code) => Outcome(st, UsageCalls(page, code, pressed))
    case Mouse(code) => Outcome(st, [RegisterMouse(code, pressed)])
    case Other => Outcome(st, [])
  }

  function ProcessLayerTap(layer: nat, code: nat, pressed: bool, tapCount: nat, oneshotEnable: bool,
                           st: Layers): Outcome {
    var on, off := st.(active := LayerOn(st.active, layer)), st.(active := LayerOff(st.active, layer));
    if code == OP_TAP_TOGGLE then
      Outcome(if (if pressed then tapCount < TAPPING_TOGGLE else tapCount <= TAPPING_TOGGLE)
              then st.(active := LayerInvert(st.active, layer)) else st, [])
    else if code == OP_ON_OFF then Outcome(if pressed then on else off, [])
    else if code == OP_OFF_ON then Outcome(if pressed then off else on, [])
    else if code == OP_SET_CLEAR then
      Outcome(st.(active := if pressed then Single(|st.active|, layer) else Zero(|st.active|)), [])
    else if code == OP_ONESHOT then
      if !oneshotEnable then Outcome(if pressed then on else off, [])
      else if pressed then Outcome(on, [SetOneshotLayer(layer)])
      else Outcome(st, [ClearOneshotPressed] + if tapCount > 1 then [ClearOneshotOtherKey] else [])
    else if tapCount > 0 then Outcome(st, [if pressed then RegisterCode(code) else UnregisterCode(code)])
    else Outcome(if pressed then on else off, [])
  }

  /** The layer states and the calls made, changed in place. */
  class Processor {
    const width: nat
    const oneshotEnable: bool
    var layerState: Bits
    var defaultLayerState: Bits
    var calls: seq<Call>

    ghost predicate Valid()
      reads this
    {
      Fits(width, Value())
    }

    ghost function Value(): Layers
      reads this
    {
      Layers(layerState, defaultLayerState)
    }

    constructor (width: nat, oneshotEnable: bool)
      ensures Valid() && this.width == width && this.oneshotEnable == oneshotEnable
      ensures Value() == Layers(Zero(width), Zero(width)) && calls == []
    {
      this.width, this.oneshotEnable := width, oneshotEnable;
      layerState, defaultLayerState, calls := Zero(width), Zero(width), [];
    }

    /** process_action. */
    method ProcessAction(action: uint16, pressed: bool, tapCount: nat)
      requires Valid()
      modifies this
      ensures Valid()
      ensures var o := Process(action, pressed, tapCount, oneshotEnable, old(Value()));
        Value() == o.layers && calls == old(calls) + o.calls
    {
      assert calls + [] == calls;
      var f := Unpack(action);
      match f {
        case KeyMods(_, _, _) => ProcessMods(f, pressed);
        case TapMods(_, _, _) => ProcessTapMods(f, pressed, tapCount);
        case LayerBitop(_, on, _, _, _) =>
          if on == 0 {
            if !pressed { defaultLayerState := Bitop(f, defaultLayerState); }
          } else if Acts(on, pressed) {
            layerState := Bitop(f, layerState);
          }
        case LayerMods(layer, mods) =>
          if pressed {
            layerState := LayerOn(layerState, layer);
            calls := calls + [RegisterMods(mods)];
          } else {
            calls := calls + [UnregisterMods(mods)];
            layerState := LayerOff(layerState, layer);
          }
        case LayerTap(layer, code) => ProcessTap(layer, code, pressed, tapCount);
        case Usage(page, code) =>
          var usage := if pressed then code else 0;
          if page == PAGE_SYSTEM {
            calls := calls + [SystemSend(usage)];
          } else if page == PAGE_CONSUMER {
            calls := calls + [ConsumerSend(usage)];
          }
        case Mouse(code) => calls := calls + [RegisterMouse(code, pressed)];
        case Other =>
      }
    }

    method ProcessMods(f: Fields, pressed: bool)
      requires f.KeyMods?
      modifies this`calls
      ensures calls == old(calls) + ModsCalls(f, pressed)
    {
      var mods := if f.right then f.mods * 0x10 else f.mods;
      if pressed {
        if mods != 0 {
          var strong := IsModifier(f.code) || f.code == 0;
          calls := calls + [if strong then AddMods(mods) else AddWeakMods(mods)];
          calls := calls + [SendReport];
        }
        calls := calls + [RegisterCode(f.code)];
      } else {
        calls := calls + [UnregisterCode(f.code)];
        if mods != 0 {
          var strong := IsModifier(f.code) || f.code == 0;
          calls := calls + [if strong then DelMods(mods) else DelWeakMods(mods)];
          calls := calls + [SendReport];
        }
      }
    }

    method ProcessTapMods(f: Fields, pressed: bool, tapCount: nat)
      requires f.TapMods?
      modifies this`calls
      ensures calls == old(calls) + TapModsCalls(f, pressed, tapCount, oneshotEnable)
    {
      assert calls + [] == calls;
      var mods := if f.right then f.mods * 0x10 else f.mods;
      if f.code == MODS_ONESHOT {
        if !oneshotEnable {
          ProcessMods(KeyMods(f.right, f.mods, f.code), pressed);
        } else if pressed {
          if tapCount == 0 { calls := calls + [RegisterMods(mods)]; }
          else if tapCount == 1 { calls := calls + [AddOneshotMods(mods)]; }
        } else if tapCount == 0 {
          calls := calls + [UnregisterMods(mods), DelOneshotMods(mods)];
        }
      } else if f.code == MODS_TAP_TOGGLE {
        if pressed {
          if tapCount <= TAPPING_TOGGLE { calls := calls + [RegisterMods(mods)]; }
        } else {
          if tapCount < TAPPING_TOGGLE { calls := calls + [UnregisterMods(mods)]; }
        }
      } else if pressed {
        calls := calls + [if tapCount > 0 then RegisterCode(f.code) else RegisterMods(mods)];
      } else {
        calls := calls + [if tapCount > 0 then UnregisterCode(f.code) else UnregisterMods(mods)];
      }
    }

    method ProcessTap(layer: nat, code: nat, pressed: bool, tapCount: nat)
      requires Valid()
      modifies this
      ensures Valid()
      ensures var o := ProcessLayerTap(layer, code, pressed, tapCount, oneshotEnable, old(Value()));
        Value() == o.layers && calls == old(calls) + o.calls
    {
      assert calls + [] == calls;
      if code == OP_TAP_TOGGLE {
        if pressed {
          if tapCount < TAPPING_TOGGLE { layerState := LayerInvert(layerState, layer); }
        } else {
          if tapCount <= TAPPING_TOGGLE { layerState := LayerInvert(layerState, layer); }
        }
      } else if code == OP_ON_OFF {
        layerState := if pressed then LayerOn(layerState, layer) else LayerOff(layerState, layer);
      } else if code == OP_OFF_ON {
        layerState := if pressed then LayerOff(layerState, layer) else LayerOn(layerState, layer);
      } else if code == OP_SET_CLEAR {
        layerState := if pressed then Single(width, layer) else Zero(width);
      } else if code == OP_ONESHOT {
        if !oneshotEnable {
          layerState := if pressed then LayerOn(layerState, layer) else LayerOff(layerState, layer);
        } else if pressed {
          layerState := LayerOn(layerState, layer);
          calls := calls + [SetOneshotLayer(layer)];
        } else {
          calls := calls + [ClearOneshotPressed];
          if tapCount > 1 { calls := calls + [ClearOneshotOtherKey]; }
        }
      } else if pressed {
        if tapCount > 0 { calls := calls + [RegisterCode(code)]; } else { layerState := LayerOn(layerState, layer); }
      } else {
        if tapCount > 0 { calls := calls + [UnregisterCode(code)]; } else { layerState := LayerOff(layerState, layer); }
      }
    }
  }
}
