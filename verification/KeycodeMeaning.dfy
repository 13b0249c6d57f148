/** Packing a keycode and unpacking its action has the effect the keycode stands for
    (quantum/keymap_common.c:51-193; quantum/action.c:389-537, 563-719; quantum/quantum.c:85-108). */
module KeycodeMeaning {
  import opened Arithmetic
  import opened LayerBits
  import opened KeycodeActions

  const IDENTITY: Remap := Remap((c: uint16) => c, (m: uint5) => m)

  datatype LayerKey = TO | MO | DF | TG | OSL

  function Keycode(key: LayerKey, layer: nat): uint16
    requires layer < 32
  {
    (match key case TO => 0x5200 case MO => 0x5220 case DF => 0x5240 case TG => 0x5260 case OSL => 0x5280) + layer
  }

  /** What the key is for: the direct operation on the layers. */
  function Direct(key: LayerKey, layer: nat, pressed: bool, oneshotEnable: bool, st: Layers): Layers {
    match key
    case TO => if pressed then st.(active := Single(|st.active|, layer)) else st
    case TG => if pressed then st else st.(active := LayerInvert(st.active, layer))
    case DF => if pressed then st else st.(defaults := Single(|st.defaults|, layer))
    case MO => st.(active := if pressed then LayerOn(st.active, layer) else LayerOff(st.active, layer))
    case OSL =>
      if pressed then st.(active := LayerOn(st.active, layer))
      else if oneshotEnable then st
      else st.(active := LayerOff(st.active, layer))
  }

  // ----------------------------------------------------------------- packing round trips

  lemma {:induction false} LowBit(k: nat, i: nat)
    requires k < 4 && i < 4
    ensures Pow2(k) < 0x10 && Bit(Pow2(k), i) == (i == k)
  {
    assert Pow2(0) == 1 && Pow2(1) == 2 && Pow2(2) == 4 && Pow2(3) == 8;
    assert !Bit(0, 0) && !Bit(0, 1) && !Bit(0, 2);
    assert Bit(1, 0) && !Bit(1, 1) && !Bit(1, 2) && !Bit(1, 3);
    assert !Bit(2, 0) && Bit(2, 1) && !Bit(2, 2) && !Bit(2, 3);
    assert !Bit(4, 0) && !Bit(4, 1) && Bit(4, 2) && !Bit(4, 3);
    assert !Bit(8, 0) && !Bit(8, 1) && !Bit(8, 2) && Bit(8, 3);
  }

  /** The chunk of bits the action carries is the layer's own bit. */
  lemma {:induction false} ChunkIsLayerBit(width: nat, layer: nat)
    ensures Chunk(width, layer / 4, Pow2(layer % 4), false) == Single(width, layer)
  {
    forall i | 0 <= i < width ensures Chunk(width, layer / 4, Pow2(layer % 4), false)[i] == (i == layer) {
      if layer / 4 * 4 <= i < layer / 4 * 4 + 4 { LowBit(layer % 4, i - layer / 4 * 4); }
    }
  }

  lemma {:induction false} BitopUnpacks(op: nat, part: nat, bits: nat, on: nat)
    requires op < 4 && on < 4 && part < 8 && bits < 0x10
    ensures Unpack(ActionLayerBitop(op, part, bits, on)) == LayerBitop(op, on, part, false, bits)
  {
    var a: int := ActionLayerBitop(op, part, bits, on);
    assert a == 0x8000 + op * 0x400 + on * 0x100 + part * 0x20 + bits;
    assert a / 0x400 == 0x20 + op && a / 0x100 == 0x80 + op * 4 + on && a / 0x20 == 0x400 + op * 0x20 + on * 8 + part;
    assert a / 0x10 == 0x800 + op * 0x40 + on * 0x10 + part * 2;
  }

  lemma {:induction false} LayerBitopUnpacks(op: nat, layer: nat, on: nat)
    requires op < 4 && layer < 32 && on < 4
    ensures Unpack(ActionLayerBitop(op, layer / 4, Pow2(layer % 4), on))
      == LayerBitop(op, on, layer / 4, false, Pow2(layer % 4))
  {
    LowBit(layer % 4, 0);
    BitopUnpacks(op, layer / 4, Pow2(layer % 4), on);
  }

  lemma {:induction false} TapUnpacks(layer: nat, key: uint8)
    requires layer < 32
    ensures Unpack(ActionLayerTap(layer, key)) == LayerTap(layer, key)
  {
    var a: int := ActionLayerTap(layer, key);
    assert a / 0x100 == 0xA0 + layer;
  }

  lemma {:induction false} OnBits(pressed: bool)
    ensures Acts(ON_PRESS, pressed) == pressed && Acts(ON_RELEASE, pressed) == !pressed
  {
    assert Bit(1, 0) && !Bit(1, 1) && !Bit(2, 0) && Bit(2, 1);
  }

  /** What a layer key's action unpacks to. */
  function FieldsOf(key: LayerKey, layer: nat): Fields
    requires layer < 32
  {
    match key
    case TO => LayerBitop(OP_BIT_SET, ON_PRESS, layer / 4, false, Pow2(layer % 4))
    case TG => LayerBitop(OP_BIT_XOR, ON_RELEASE, layer / 4, false, Pow2(layer % 4))
    case DF => LayerBitop(OP_BIT_SET, 0, layer / 4, false, Pow2(layer % 4))
    case MO => LayerTap(layer, OP_ON_OFF)
    case OSL => LayerTap(layer, OP_ONESHOT)
  }

  lemma {:induction false} KeycodeIsPacked(key: LayerKey, layer: nat)
    requires layer < 32
    ensures ActionForKeycode(IDENTITY, Keycode(key, layer)) == match key
      case TO => ActionLayerGoto(layer)
      case TG => ActionLayerToggle(layer)
      case DF => ActionDefaultLayerSet(layer)
      case MO => ActionLayerTap(layer, OP_ON_OFF)
      case OSL => ActionLayerTap(layer, OP_ONESHOT)
  {
    var c: int := Keycode(key, layer);
    assert c % 0x20 == layer;
  }

  lemma {:induction false} KeyUnpacks(key: LayerKey, layer: nat)
    requires layer < 32
    ensures Unpack(ActionForKeycode(IDENTITY, Keycode(key, layer))) == FieldsOf(key, layer)
  {
    KeycodeIsPacked(key, layer);
    match key {
      case TO => LayerBitopUnpacks(OP_BIT_SET, layer, ON_PRESS);
      case TG => LayerBitopUnpacks(OP_BIT_XOR, layer, ON_RELEASE);
      case DF => LayerBitopUnpacks(OP_BIT_SET, layer, 0);
      case MO => TapUnpacks(layer, OP_ON_OFF);
      case OSL => TapUnpacks(layer, OP_ONESHOT);
    }
  }

  lemma {:induction false} FieldsAreDirect(key: LayerKey, layer: nat, pressed: bool, tapCount: nat, oneshotEnable: bool,
                                           st: Layers)
    requires layer < 32
    ensures ProcessFields(FieldsOf(key, layer), pressed, tapCount, oneshotEnable, st).layers
      == Direct(key, layer, pressed, oneshotEnable, st)
  {
    OnBits(pressed);
    ChunkIsLayerBit(|st.active|, layer);
    ChunkIsLayerBit(|st.defaults|, layer);
  }

  /** For each layer key, every layer, every width of the layer state and every layer state:
      pressing or releasing the key has the effect of the direct layer operation. */
  lemma {:induction false} LayerKeysKeepTheirMeaning(key: LayerKey, layer: nat, pressed: bool, tapCount: nat,
                                                     oneshotEnable: bool, st: Layers)
    requires layer < 32
    ensures Process(ActionForKeycode(IDENTITY, Keycode(key, layer)), pressed, tapCount, oneshotEnable, st).layers
         == Direct(key, layer, pressed, oneshotEnable, st)
  {
    KeyUnpacks(key, layer);
    FieldsAreDirect(key, layer, pressed, tapCount, oneshotEnable, st);
  }

  /** Only TO changes other active layers, and only DF the default layers. */
  lemma {:induction false} OtherLayersUndisturbed(key: LayerKey, layer: nat, pressed: bool, tapCount: nat,
                                                  oneshotEnable: bool,
                                                 st: Layers, other: nat)
    requires layer < 32 && other != layer && other < |st.active| == |st.defaults|
    ensures var st' :=
      Process(ActionForKeycode(IDENTITY, Keycode(key, layer)), pressed, tapCount, oneshotEnable, st).layers;
      && |st'.active| == |st.active| && |st'.defaults| == |st.defaults|
      && st'.active[other] == (if key == TO && pressed then false else st.active[other])
      && st'.defaults[other] == (if key == DF && !pressed then false else st.defaults[other])
      && (key != DF ==> st'.defaults == st.defaults)
  {
    LayerKeysKeepTheirMeaning(key, layer, pressed, tapCount, oneshotEnable, st);
  }

  /** What becomes of the layer itself: TO and OSL turn it on, MO too until the release, TG turns it over at the
      release, and DF makes it a default layer then; a one-shot layer goes off by itself, or with the release
      while one-shot keys are disabled. */
  lemma {:induction false} OwnLayerChanges(key: LayerKey, layer: nat, pressed: bool, tapCount: nat, oneshotEnable: bool,
                                           st: Layers)
    requires layer < |st.active| == |st.defaults| && layer < 32
    ensures var st' :=
      Process(ActionForKeycode(IDENTITY, Keycode(key, layer)), pressed, tapCount, oneshotEnable, st).layers;
      && |st'.active| == |st.active| && |st'.defaults| == |st.defaults|
      && st'.active[layer] == (match key
           case TO => pressed || st.active[layer]
           case MO => pressed
           case TG => if pressed then st.active[layer] else !st.active[layer]
           case DF => st.active[layer]
           case OSL => pressed || (oneshotEnable && st.active[layer]))
      && st'.defaults[layer] == (st.defaults[layer] || (key == DF && !pressed))
  {
    LayerKeysKeepTheirMeaning(key, layer, pressed, tapCount, oneshotEnable, st);
  }

  /** A momentary layer, pressed and released, leaves the layers as they were exactly when the
      layer was off, or is beyond the width of the layer state. */
  lemma {:induction false} MomentaryRestoresExactlyWhenOff(layer: nat, tapCount: nat, oneshotEnable: bool, st: Layers)
    requires layer < 32
    ensures var a := ActionForKeycode(IDENTITY, Keycode(MO, layer));
      Process(a, false, tapCount, oneshotEnable, Process(a, true, tapCount, oneshotEnable, st).layers).layers == st
      <==> (layer < |st.active| ==> !st.active[layer])
  {
    LayerKeysKeepTheirMeaning(MO, layer, true, tapCount, oneshotEnable, st);
    LayerKeysKeepTheirMeaning(MO, layer, false, tapCount, oneshotEnable, Direct(MO, layer, true, oneshotEnable, st));
    var after := LayerOff(LayerOn(st.active, layer), layer);
    assert forall i | 0 <= i < |st.active| :: after[i] == (st.active[i] && i != layer);
    if layer < |st.active| && st.active[layer] {
      assert after[layer] != st.active[layer];
    } else {
      assert after == st.active;
    }
  }

  // ----------------------------------------------------------------------- layer-taps

  function LT(layer: nat, key: uint8): uint16
    requires layer < 16
  {
    0x4000 + layer * 0x100 + key
  }

  /** Held it is a momentary layer, and tapped it is its key. */
  predicate DualRole(action: uint16, layer: nat, key: nat, st: Layers) {
    && Process(action, true, 1, true, st) == Outcome(st, [RegisterCode(key)])
    && Process(action, false, 1, true, st) == Outcome(st, [UnregisterCode(key)])
    && Process(action, true, 0, true, st) == Outcome(st.(active := LayerOn(st.active, layer)), [])
    && Process(action, false, 0, true, st) == Outcome(st.(active := LayerOff(st.active, layer)), [])
  }

  lemma {:induction false} LayerTapUnpacks(layer: nat, key: uint8)
    requires layer < 16
    ensures Unpack(ActionForKeycode(IDENTITY, LT(layer, key))) == LayerTap(layer, key)
  {
    var c: int := LT(layer, key);
    assert c / 0x100 == 0x40 + layer && c % 0x100 == key;
    assert (0x40 + layer) % 0x10 == layer;
    assert ActionForKeycode(IDENTITY, c) == ActionLayerTap(layer, key);
    TapUnpacks(layer, key);
  }

  /** A layer-tap key has both its roles exactly when its key is none of the five codes that
      stand for layer operations. */
  lemma {:induction false} LayerTapExactlyWhen(layer: nat, key: uint8, st: Layers)
    requires layer < 16
    ensures DualRole(ActionForKeycode(IDENTITY, LT(layer, key)), layer, key, st)
      <==> !(0xF0 <= key <= 0xF4)
  {
    LayerTapUnpacks(layer, key);
  }

  // ------------------------------------------------------------------------ modifiers

  /** extract_mod_bits. */
  function ExtractModBits(code: uint16): nat {
    if !(0x0100 <= code <= 0x1FFF) then 0
    else if Bit(code, 12) then
      (if Bit(code, 8) then 0x10 else 0) + (if Bit(code, 9) then 0x20 else 0)
      + (if Bit(code, 10) then 0x40 else 0) + (if Bit(code, 11) then 0x80 else 0)
    else
      (if Bit(code, 8) then 0x01 else 0) + (if Bit(code, 9) then 0x02 else 0)
      + (if Bit(code, 10) then 0x04 else 0) + (if Bit(code, 11) then 0x08 else 0)
  }

  lemma {:induction false} FourBits(x: nat)
    ensures x % 0x10 == x % 2 + 2 * (x / 2 % 2) + 4 * (x / 4 % 2) + 8 * (x / 8 % 2)
  {
    var a, b, c := x / 2, x / 4, x / 8;
    assert a / 2 == b && b / 2 == c && c / 2 == x / 0x10;
    assert x == 2 * a + x % 2 && a == 2 * b + a % 2 && b == 2 * c + b % 2 && c == 2 * (x / 0x10) + c % 2;
  }

  lemma {:induction false} HighBits(code: uint16)
    requires code < 0x2000
    ensures Bit(code, 8) == (code / 0x100 % 2 == 1) && Bit(code, 9) == (code / 0x200 % 2 == 1)
    ensures Bit(code, 10) == (code / 0x400 % 2 == 1) && Bit(code, 11) == (code / 0x800 % 2 == 1)
    ensures Bit(code, 12) == (code / 0x1000 == 1)
  {
    BitIsDigit(code, 8);
    BitIsDigit(code, 9);
    BitIsDigit(code, 10);
    BitIsDigit(code, 11);
    BitIsDigit(code, 12);
    Powers();
  }

  lemma {:induction false} Powers()
    ensures Pow2(8) == 0x100 && Pow2(9) == 0x200 && Pow2(10) == 0x400 && Pow2(11) == 0x800 && Pow2(12) == 0x1000
  {
    assert Pow2(4) == 0x10;
    assert Pow2(6) == 0x40;
    assert Pow2(8) == 0x100;
    assert Pow2(10) == 0x400;
  }

  lemma {:induction false} ModsUnpack(code: uint16)
    requires 0x0100 <= code <= 0x1FFF
    ensures Unpack(ActionForKeycode(IDENTITY, code)) == KeyMods(code / 0x1000 == 1, code / 0x100 % 0x10, code % 0x100)
  {
    var c: int := code;
    assert c / 0x100 % 0x20 == c / 0x100 && c % 0x100 % 0x100 == c % 0x100;
    assert ActionForKeycode(IDENTITY, code) == c / 0x100 * 0x100 + c % 0x100 == c;
  }

  lemma {:induction false} ExtractedBits(code: uint16)
    requires 0x0100 <= code <= 0x1FFF
    ensures ExtractModBits(code) == code / 0x100 % 0x10 * (if code / 0x1000 == 1 then 0x10 else 1)
  {
    var c: int := code;
    HighBits(code);
    FourBits(c / 0x100);
    assert c / 0x100 / 2 == c / 0x200 && c / 0x100 / 4 == c / 0x400 && c / 0x100 / 8 == c / 0x800;
  }

  /** A key with modifiers: the five packed bits come out as the same eight-bit mask that
      extract_mod_bits computes, and the key as it was. */
  lemma {:induction false} ModifiersKeepTheirMeaning(code: uint16)
    requires 0x0100 <= code <= 0x1FFF
    ensures var f := Unpack(ActionForKeycode(IDENTITY, code));
      f.KeyMods? && f.code == code % 0x100 && ExpandedMods(f) == ExtractModBits(code)
  {
    ModsUnpack(code);
    ExtractedBits(code);
  }

  /** Pressing and releasing such a key adds and takes away the same modifiers. */
  lemma {:induction false} PressAndReleaseMatch(code: uint16, st: Layers)
    requires 0x0100 <= code <= 0x1FFF && ExtractModBits(code) != 0
    ensures var a, mods, key := ActionForKeycode(IDENTITY, code), ExtractModBits(code), code % 0x100;
      var strong := 0xE0 <= key <= 0xE7 || key == 0;
      && Process(a, true, 0, true, st)
        == Outcome(st, [if strong then AddMods(mods) else AddWeakMods(mods), SendReport, RegisterCode(key)])
      && Process(a, false, 0, true, st)
        == Outcome(st, [UnregisterCode(key), if strong then DelMods(mods) else DelWeakMods(mods), SendReport])
  {
    ModifiersKeepTheirMeaning(code);
  }

  // ---------------------------------------------------------- modifiers held, keys tapped

  function MT(mods: uint5, key: uint8): uint16 { 0x2000 + mods * 0x100 + key }
  function OSM(mods: uint5): uint16 { 0x52A0 + mods }

  /** The five modifier bits of a keycode as an eight-bit mask. */
  function Mask(mods: uint5): nat { if mods >= 0x10 then (mods as int - 0x10) * 0x10 else mods }

  lemma {:induction false} ModTapUnpacks(mods: uint5, key: uint8)
    ensures var f := Unpack(ActionForKeycode(IDENTITY, MT(mods, key)));
      f.TapMods? && f.code == key && ExpandedMods(f) == Mask(mods)
  {
    var c: int := MT(mods, key);
    assert c / 0x100 == 0x20 + mods && c % 0x100 == key && (0x20 + mods) % 0x20 == mods;
    var a: int := ActionForKeycode(IDENTITY, c);
    assert a == 0x2000 + mods * 0x100 + key;
    assert a / 0x100 == 0x20 + mods && a / 0x1000 == 2 + mods / 0x10 && a % 0x100 == key;
    assert (0x20 + mods) % 0x10 == mods % 0x10;
  }

  /** Tapped it is its key, and held its modifiers. */
  predicate ModDualRole(action: uint16, mods: nat, key: nat, st: Layers) {
    && Process(action, true, 1, true, st) == Outcome(st, [RegisterCode(key)])
    && Process(action, false, 1, true, st) == Outcome(st, [UnregisterCode(key)])
    && Process(action, true, 0, true, st) == Outcome(st, [RegisterMods(mods)])
    && Process(action, false, 0, true, st) == Outcome(st, [UnregisterMods(mods)])
  }

  /** A mod-tap key has both its roles exactly when its key is neither of the two codes that stand
      for one-shot and for tap-toggled modifiers. */
  lemma {:induction false} ModTapExactlyWhen(mods: uint5, key: uint8, st: Layers)
    ensures ModDualRole(ActionForKeycode(IDENTITY, MT(mods, key)), Mask(mods), key, st) <==> key > 1
  {
    ModTapUnpacks(mods, key);
  }

  /** A one-shot modifier key is a mod-tap key with no key: tapped it queues its modifiers, and held
      it is its modifiers, taking back any that were queued. */
  lemma {:induction false} OneShotModsKeepTheirMeaning(mods: uint5, st: Layers)
    ensures var a := ActionForKeycode(IDENTITY, OSM(mods));
      && a == ActionForKeycode(IDENTITY, MT(mods, 0))
      && Process(a, true, 1, true, st) == Outcome(st, [AddOneshotMods(Mask(mods))])
      && Process(a, false, 1, true, st) == Outcome(st, [])
      && Process(a, true, 0, true, st) == Outcome(st, [RegisterMods(Mask(mods))])
      && Process(a, false, 0, true, st) == Outcome(st, [UnregisterMods(Mask(mods)), DelOneshotMods(Mask(mods))])
  {
    OneShotIsModTap(mods);
    ModTapUnpacks(mods, 0);
  }

  lemma {:induction false} OneShotIsModTap(mods: uint5)
    ensures ActionForKeycode(IDENTITY, OSM(mods)) == ActionForKeycode(IDENTITY, MT(mods, 0))
  {
    var c, d: int := MT(mods, 0), OSM(mods);
    assert c / 0x100 == 0x20 + mods && (0x20 + mods) % 0x20 == mods && c % 0x100 == 0;
    assert d % 0x20 == mods;
  }

  // ----------------------------------------------------------------- layers with modifiers

  function LM(layer: nat, mods: uint5): uint16
    requires layer < 16
  {
    0x5000 + layer * 0x20 + mods
  }

  lemma {:induction false} LayerModUnpacks(layer: nat, mods: uint5)
    requires layer < 16
    ensures Unpack(ActionForKeycode(IDENTITY, LM(layer, mods)))
         == LayerMods(if mods >= 0x10 && layer % 2 == 0 then layer + 1 else layer, Mask(mods))
  {
    var c: int := LM(layer, mods);
    var m: int := if mods >= 0x10 then mods as int * 0x10 else mods;
    assert c % 0x20 == mods && c / 0x20 == 0x280 + layer && (0x280 + layer) % 0x10 == layer;
    assert ActionForKeycode(IDENTITY, c) == ActionLayerMods(layer, m);
    ModsSpill(layer, m);
  }

  lemma {:induction false} ModsSpill(layer: nat, m: nat)
    requires layer < 16 && m < 0x200
    ensures Unpack(ActionLayerMods(layer, m))
      == LayerMods(if m >= 0x100 && layer % 2 == 0 then layer + 1 else layer, m % 0x100)
  {
    var a: int := ActionLayerMods(layer, m);
    var l := if m >= 0x100 && layer % 2 == 0 then layer + 1 else layer;
    assert layer - layer % 2 + (if layer % 2 == 1 || m / 0x100 == 1 then 1 else 0) == l;
    assert a == 0x9000 + l * 0x100 + m % 0x100;
    assert a / 0x100 == 0x90 + l;
  }

  /** A layer with modifiers keeps its modifiers; it keeps its layer exactly when they are
      left-hand modifiers or the layer is odd, for the right-hand flag spills into the
      lowest bit of the layer. */
  lemma {:induction false} LayerModKeepsLayerExactlyWhen(layer: nat, mods: uint5)
    requires layer < 16
    ensures var f := Unpack(ActionForKeycode(IDENTITY, LM(layer, mods)));
      && f.LayerMods? && f.mods == (if mods >= 0x10 then (mods as int - 0x10) * 0x10 else mods)
      && (f.layer == layer <==> mods < 0x10 || layer % 2 == 1)
      && (f.layer != layer ==> f.layer == layer + 1)
  {
    LayerModUnpacks(layer, mods);
  }

  /** A layer with modifiers is on, and the modifiers are registered, while the key is down. */
  lemma {:induction false} LayerModHolds(layer: nat, mods: uint5, tapCount: nat, oneshotEnable: bool, st: Layers)
    requires layer < 16
    ensures var a, on := ActionForKeycode(IDENTITY, LM(layer, mods)),
                         if mods < 0x10 || layer % 2 == 1 then layer else layer + 1;
      && Process(a, true, tapCount, oneshotEnable, st)
           == Outcome(st.(active := LayerOn(st.active, on)), [RegisterMods(Mask(mods))])
      && Process(a, false, tapCount, oneshotEnable, st)
           == Outcome(st.(active := LayerOff(st.active, on)), [UnregisterMods(Mask(mods))])
  {
    LayerModUnpacks(layer, mods);
  }

  // ---------------------------------------------------------------------- ordinary keys

  /** The codes that are sent to the host as they are: letters, digits and so on, and modifiers. */
  predicate IsPlain(code: uint16) { 0x04 <= code <= 0xA4 || 0xE0 <= code <= 0xE7 }

  /** The codes of the ranges that are packed into actions here. */
  predicate HasAction(code: uint16) {
    || IsPlain(code) || code == 1 || 0xCD <= code <= 0xDF
    || 0x0100 <= code <= 0x4FFF || 0x5000 <= code <= 0x52DF
  }

  /** An ordinary key is itself while it is down, and changes no layer. */
  lemma {:induction false} PlainKeysAreThemselves(code: uint16, tapCount: nat, oneshotEnable: bool, st: Layers)
    requires IsPlain(code)
    ensures var a := ActionForKeycode(IDENTITY, code);
      && Process(a, true, tapCount, oneshotEnable, st) == Outcome(st, [RegisterCode(code)])
      && Process(a, false, tapCount, oneshotEnable, st) == Outcome(st, [UnregisterCode(code)])
  {
  }

  /** Mouse keys are handed to the mouse. */
  lemma {:induction false} MouseKeysAreThemselves(code: uint16, pressed: bool, tapCount: nat, oneshotEnable: bool,
                                                  st: Layers)
    requires 0xCD <= code <= 0xDF
    ensures Process(ActionForKeycode(IDENTITY, code), pressed, tapCount, oneshotEnable, st)
         == Outcome(st, [RegisterMouse(code, pressed)])
  {
    var a: int := ActionForKeycode(IDENTITY, code);
    assert a == 0x5000 + code && a / 0x1000 == 5 && a % 0x100 == code;
  }

  /** The transparent keycode has the transparent action; codes of no range do as key 0 does, which is no key. */
  lemma {:induction false} OtherKeysDoNothing(code: uint16, tapCount: nat, oneshotEnable: bool, st: Layers)
    ensures ActionForKeycode(IDENTITY, 1) == 1
    ensures !HasAction(code) ==>
      && Process(ActionForKeycode(IDENTITY, code), true, tapCount, oneshotEnable, st) == Outcome(st, [RegisterCode(0)])
      && Process(ActionForKeycode(IDENTITY, code), false, tapCount, oneshotEnable, st)
           == Outcome(st, [UnregisterCode(0)])
  {
  }

  /** Remapping a keycode and then packing it is packing the one it is remapped to. */
  lemma {:induction false} RemappedPlainKeys(remap: Remap, code: uint16, st: Layers)
    requires IsPlain(remap.keycode(code))
    ensures Process(ActionForKeycode(remap, code), true, 0, true, st)
         == Outcome(st, [RegisterCode(remap.keycode(code))])
  {
    PlainKeysAreThemselves(remap.keycode(code), 0, true, st);
  }

  // ------------------------------------------------------- the codes that stand for layer operations

  /** LT with one of the codes that stand for layer operations is that operation. */
  lemma {:induction false} LayerTapOperations(layer: nat, tapCount: nat, oneshotEnable: bool, st: Layers)
    requires layer < 16
    ensures var a := ActionForKeycode(IDENTITY, LT(layer, 0xF1));
      && Process(a, true, tapCount, oneshotEnable, st) == Outcome(st.(active := LayerOn(st.active, layer)), [])
      && Process(a, false, tapCount, oneshotEnable, st) == Outcome(st.(active := LayerOff(st.active, layer)), [])
    ensures var a := ActionForKeycode(IDENTITY, LT(layer, 0xF2));
      && Process(a, true, tapCount, oneshotEnable, st) == Outcome(st.(active := LayerOff(st.active, layer)), [])
      && Process(a, false, tapCount, oneshotEnable, st) == Outcome(st.(active := LayerOn(st.active, layer)), [])
    ensures var a := ActionForKeycode(IDENTITY, LT(layer, 0xF3));
      var down, up := Process(a, true, tapCount, oneshotEnable, st), Process(a, false, tapCount, oneshotEnable, st);
      && down == Outcome(st.(active := down.layers.active), []) && up == Outcome(st.(active := up.layers.active), [])
      && |down.layers.active| == |up.layers.active| == |st.active|
      && forall i | 0 <= i < |st.active| :: down.layers.active[i] == (i == layer) && !up.layers.active[i]
  {
    LayerTapUnpacks(layer, 0xF1);
    LayerTapUnpacks(layer, 0xF2);
    LayerTapUnpacks(layer, 0xF3);
  }

  /** What a one-shot layer key asks of the one-shot state: nothing while one-shot keys are disabled. */
  lemma {:induction false} OneShotLayerCalls(layer: nat, tapCount: nat, oneshotEnable: bool, st: Layers)
    requires layer < 32
    ensures var a := ActionForKeycode(IDENTITY, Keycode(OSL, layer));
      && Process(a, true, tapCount, oneshotEnable, st).calls == (if oneshotEnable then [SetOneshotLayer(layer)] else [])
      && Process(a, false, tapCount, oneshotEnable, st).calls
           == if !oneshotEnable then []
              else if tapCount <= 1 then [ClearOneshotPressed]
              else [ClearOneshotPressed, ClearOneshotOtherKey]
  {
    KeyUnpacks(OSL, layer);
  }

  // ------------------------------------------------------------- action codes without a keycode

  /** What an action on four layers at a time does to a layer that was on or not: `part` says which four, `bits`
      gives their bits and `extra` that of all others. */
  predicate BitAfter(op: nat, was: bool, bit: bool) {
    match op
    case 0 => was && bit
    case 1 => was || bit
    case 2 => was != bit
    case _ => bit
  }

  predicate OperatedOn(op: nat, part: nat, bits: nat, extra: bool, s: Bits, s': Bits) {
    |s'| == |s| && forall i | 0 <= i < |s| ::
      s'[i] == BitAfter(op, s[i], if i / 4 == part then Bit(bits, i % 4) else extra)
  }

  /** With `on` 0 the default layers are operated on at the release, and otherwise the active ones at a press
      for 1, at a release for 2, and at both for 3. */
  lemma {:induction false} LayerBitopActions(op: nat, on: nat, part: nat, bits: nat, extra: bool, pressed: bool,
                                             st: Layers)
    requires op < 4 && on < 4 && part < 8 && bits < 0x10
    ensures var a := 0x8000 + op * 0x400 + on * 0x100 + part * 0x20 + (if extra then 0x10 else 0) + bits;
      var o := Process(a, pressed, 0, true, st);
      && o.calls == []
      && (if on == 0 && !pressed then OperatedOn(op, part, bits, extra, st.defaults, o.layers.defaults)
          else o.layers.defaults == st.defaults)
      && (if (pressed && on % 2 == 1) || (!pressed && on / 2 == 1)
          then OperatedOn(op, part, bits, extra, st.active, o.layers.active) else o.layers.active == st.active)
  {
    BitopFields(op, on, part, bits, extra);
    OperatesOn(LayerBitop(op, on, part, extra, bits), st.active);
    OperatesOn(LayerBitop(op, on, part, extra, bits), st.defaults);
    assert Bit(1, 0) && !Bit(1, 1) && !Bit(2, 0) && Bit(2, 1) && Bit(3, 0) && Bit(3, 1);
  }

  lemma {:induction false} BitopFields(op: nat, on: nat, part: nat, bits: nat, extra: bool)
    requires op < 4 && on < 4 && part < 8 && bits < 0x10
    ensures Unpack(0x8000 + op * 0x400 + on * 0x100 + part * 0x20 + (if extra then 0x10 else 0) + bits)
         == LayerBitop(op, on, part, extra, bits)
  {
    var a: int := 0x8000 + op * 0x400 + on * 0x100 + part * 0x20 + (if extra then 0x10 else 0) + bits;
    assert a / 0x400 == 0x20 + op && a / 0x100 == 0x80 + op * 4 + on && a / 0x20 == 0x400 + op * 0x20 + on * 8 + part;
    assert a / 0x10 == 0x800 + op * 0x40 + on * 0x10 + part * 2 + if extra then 1 else 0;
  }

  lemma {:induction false} OperatesOn(f: Fields, s: Bits)
    requires f.LayerBitop? && f.op < 4
    ensures OperatedOn(f.op, f.part, f.bits, f.extra, s, Bitop(f, s))
  {
  }

  /** Usages are sent while the key is down, and 0 when it is released, to the page the action says. */
  lemma {:induction false} UsageActions(page: nat, code: nat, pressed: bool, st: Layers)
    requires page < 4 && code < 0x400
    ensures Process(0x4000 + page * 0x400 + code, pressed, 0, true, st)
      == Outcome(st, if page == 0 then [SystemSend(if pressed then code else 0)]
                     else if page == 1 then [ConsumerSend(if pressed then code else 0)]
                     else [])
  {
    var a: int := 0x4000 + page * 0x400 + code;
    assert a / 0x1000 == 4 && a / 0x400 == 0x10 + page;
  }

  // ------------------------------------------------------------------ tapping to toggle

  function TT(layer: nat): uint16
    requires layer < 32
  {
    0x52C0 + layer
  }

  /** The key with this action tapped `n` times in a row, the counts being 1, 2 and so on. */
  function TapTimes(action: uint16, n: nat, st: Layers): Outcome {
    if n == 0 then Outcome(st, [])
    else
      var before := TapTimes(action, n - 1, st);
      var down := Process(action, true, n, true, before.layers);
      var up := Process(action, false, n, true, down.layers);
      Outcome(up.layers, before.calls + down.calls + up.calls)
  }

  lemma {:induction false} TapToggleUnpacks(layer: nat)
    requires layer < 32
    ensures Unpack(ActionForKeycode(IDENTITY, TT(layer))) == LayerTap(layer, 0xF0)
  {
    var c: int := TT(layer);
    assert c % 0x20 == layer;
    assert ActionForKeycode(IDENTITY, c) == ActionLayerTap(layer, 0xF0);
    TapUnpacks(layer, 0xF0);
  }

  /** Every layer but this one stays, and this one is on or off the other way round. */
  predicate Toggled(s: Bits, s': Bits, layer: nat) {
    |s'| == |s| && forall i | 0 <= i < |s| :: s'[i] == (if i == layer then !s[i] else s[i])
  }

  lemma {:induction false} InvertToggles(s: Bits, layer: nat)
    ensures Toggled(s, LayerInvert(s, layer), layer)
    ensures LayerInvert(LayerInvert(s, layer), layer) == s
  {
  }

  /** TT held is a momentary change of its layer; tapped less than five times it changes nothing, and from
      the fifth tap on the layer is the other way round. */
  lemma {:induction false} TapToggleExactlyWhen(layer: nat, n: nat, st: Layers)
    requires layer < 32
    ensures var o := TapTimes(ActionForKeycode(IDENTITY, TT(layer)), n, st);
      && o.calls == [] && o.layers.defaults == st.defaults
      && (n < 5 ==> o.layers.active == st.active)
      && (n >= 5 ==> Toggled(st.active, o.layers.active, layer))
    ensures var a := ActionForKeycode(IDENTITY, TT(layer)); var down := Process(a, true, 0, true, st).layers;
      Toggled(st.active, down.active, layer) && Process(a, false, 0, true, down).layers == st
  {
    TapToggleUnpacks(layer);
    InvertToggles(st.active, layer);
    if n > 0 { TapToggleExactlyWhen(layer, n - 1, st); }
  }

  /** Whether these modifiers are registered after the calls, if they were not before. */
  predicate Registered(calls: seq<Call>, mods: nat) {
    calls != [] &&
    (calls[|calls| - 1] == RegisterMods(mods)
     || (calls[|calls| - 1] != UnregisterMods(mods) && Registered(calls[..|calls| - 1], mods)))
  }

  lemma {:induction false} RegisteredAfter(calls: seq<Call>, mods: nat)
    ensures Registered(calls + [RegisterMods(mods)], mods)
    ensures !Registered(calls + [RegisterMods(mods)] + [UnregisterMods(mods)], mods)
  {
  }

  lemma {:induction false} ModsTapOnce(mods: uint5, n: nat, st: Layers)
    requires n > 0
    ensures var a := ActionForKeycode(IDENTITY, MT(mods, 1));
      && Process(a, true, n, true, st) == Outcome(st, if n <= 5 then [RegisterMods(Mask(mods))] else [])
      && Process(a, false, n, true, st) == Outcome(st, if n < 5 then [UnregisterMods(Mask(mods))] else [])
  {
    ModTapUnpacks(mods, 1);
  }

  /** Modifiers with the tap-toggle code, tapped less than five times, are let go again each time, and stay
      registered from the fifth tap on. */
  lemma {:induction false} ModsTapToggleExactlyWhen(mods: uint5, n: nat, st: Layers)
    ensures var o := TapTimes(ActionForKeycode(IDENTITY, MT(mods, 1)), n, st);
      o.layers == st && (Registered(o.calls, Mask(mods)) <==> n >= 5)
  {
    if n > 0 {
      var a := ActionForKeycode(IDENTITY, MT(mods, 1));
      ModsTapToggleExactlyWhen(mods, n - 1, st);
      var before := TapTimes(a, n - 1, st);
      RegisteredAfter(before.calls, Mask(mods));
      ModsTapOnce(mods, n, st);
      if n > 5 { assert before.calls + [] + [] == before.calls; }
      if n == 5 { assert before.calls + [RegisterMods(Mask(mods))] + [] == before.calls + [RegisterMods(Mask(mods))]; }
    }
  }
}
