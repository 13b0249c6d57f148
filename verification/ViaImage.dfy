/** What the complete reset image holds, and that layout options read back
    (quantum/via.c:95-144; quantum/dynamic_keymap.c:153-168, 248-255). */
module ViaImage {
  import opened Arithmetic
  import opened Eeprom
  import opened DynamicKeymap
  import opened Via
  import opened ViaCrash

  datatype Written = Nothing | Last(value: byte)

  /** What the updates leave at `a`, if they reach it. */
  function Final(ws: seq<Update>, a: nat): Written {
    if ws == [] then Nothing
    else if ws[|ws| - 1].addr == a then Last(ws[|ws| - 1].value)
    else Final(ws[..|ws| - 1], a)
  }

  function Over(later: Written, earlier: Written): Written {
    if later.Nothing? then earlier else later
  }

  lemma {:induction false} FinalConcat(a: seq<Update>, b: seq<Update>, addr: nat)
    ensures Final(a + b, addr) == Over(Final(b, addr), Final(a, addr))
    decreases |b|
  {
    if b == [] {
      assert a + b == a;
    } else {
      assert (a + b)[..|a + b| - 1] == a + b[..|b| - 1];
      FinalConcat(a, b[..|b| - 1], addr);
    }
  }

  lemma {:induction false} FinalOutside(ws: seq<Update>, lo: nat, hi: nat, addr: nat)
    requires Inside(ws, lo, hi) && !(lo <= addr < hi)
    ensures Final(ws, addr) == Nothing
  {
    if ws != [] { FinalOutside(ws[..|ws| - 1], lo, hi, addr); }
  }

  /** The memory is what the updates leave, and untouched elsewhere. */
  lemma {:induction false} ApplyIsFinal(mem: seq<byte>, ws: seq<Update>, a: nat)
    requires InRange(|mem|, ws) && a < |mem|
    ensures Apply(mem, ws)[a] == if Final(ws, a).Last? then Final(ws, a).value else mem[a]
  {
    if ws != [] { ApplyIsFinal(mem, ws[..|ws| - 1], a); }
  }

  /** The first `n` parts, one after the other. */
  function Joined(parts: nat -> seq<Update>, n: nat): seq<Update> {
    if n == 0 then [] else Joined(parts, n - 1) + parts(n - 1)
  }

  /** What one part writes and no later part reaches is there at the end. */
  lemma {:induction false} JoinedFinal(parts: nat -> seq<Update>, n: nat, k: nat, a: nat)
    requires k < n && Final(parts(k), a).Last? && forall j: nat | k < j < n :: Final(parts(j), a) == Nothing
    ensures Final(Joined(parts, n), a) == Final(parts(k), a)
  {
    if k < n - 1 { JoinedFinal(parts, n - 1, k, a); }
    FinalConcat(Joined(parts, n - 1), parts(n - 1), a);
  }

  // --------------------------------------------------------------------- keycodes

  /** The two bytes of a word, most significant first. */
  function ByteOf(x: uint16, k: nat): byte { if k == 0 then Hi(x) else Lo(x) }

  lemma {:induction false} FinalWord(at: nat, x: uint16, k: nat)
    requires k < 2
    ensures Final(PutWord(at, x), at + k) == Last(ByteOf(x, k))
  {
    assert PutWord(at, x)[..1] == [Update(at, Hi(x))];
  }

  lemma {:induction false} RowFinal(l: Layout, f: Flash, layer: nat, row: nat, n: nat, col: nat, k: nat)
    requires l.HasKey(layer, row, col) && col < n <= l.cols && k < 2
    ensures Final(RowUpdates(l, f, layer, row, n), l.KeyAddr(layer, row, col) + k)
      == Last(ByteOf(f.keycode(layer, row, col), k))
  {
    var before, last :=
      RowUpdates(l, f, layer, row, n - 1), PutWord(l.KeyAddr(layer, row, n - 1), f.keycode(layer, row, n - 1));
    var at, a := l.KeyAddr(layer, row, n - 1), l.KeyAddr(layer, row, col) + k;
    FinalConcat(before, last, a);
    if col < n - 1 {
      RowFinal(l, f, layer, row, n - 1, col, k);
      FinalOutside(last, at, at + 2, a);
    } else {
      FinalWord(at, f.keycode(layer, row, col), k);
    }
  }

  /** A later row does not reach an earlier one. */
  lemma {:induction false} LaterRowMisses(l: Layout, f: Flash, layer: nat, row: nat, col: nat, k: nat, n: nat)
    requires l.HasKey(layer, row, col) && row < n < l.rows && k < 2
    ensures Final(RowUpdates(l, f, layer, n, l.cols), l.KeyAddr(layer, row, col) + k) == Nothing
  {
    var at := l.KeyAddr(layer, n, 0);
    Blocks(row, n, l.RowBytes());
    RowInside(l, f, layer, n, l.cols);
    FinalOutside(RowUpdates(l, f, layer, n, l.cols), at, at + 2 * l.cols, l.KeyAddr(layer, row, col) + k);
  }

  lemma {:induction false} LayerKeysFinal(l: Layout, f: Flash, layer: nat, row: nat, col: nat, k: nat)
    requires l.HasKey(layer, row, col) && k < 2
    ensures Final(LayerKeyUpdates(l, f, layer, l.rows), l.KeyAddr(layer, row, col) + k)
      == Last(ByteOf(f.keycode(layer, row, col), k))
  {
    var rows := (j: nat) => RowUpdates(l, f, layer, j, l.cols);
    RowFinal(l, f, layer, row, l.cols, col, k);
    forall j: nat | row < j < l.rows ensures Final(rows(j), l.KeyAddr(layer, row, col) + k) == Nothing {
      LaterRowMisses(l, f, layer, row, col, k, j);
    }
    JoinedFinal(rows, l.rows, row, l.KeyAddr(layer, row, col) + k);
    LayerKeysAreJoined(l, f, layer, l.rows, rows);
  }

  lemma {:induction false} LayerKeysAreJoined(l: Layout, f: Flash, layer: nat, n: nat, rows: nat -> seq<Update>)
    requires forall j: nat :: rows(j) == RowUpdates(l, f, layer, j, l.cols)
    ensures LayerKeyUpdates(l, f, layer, n) == Joined(rows, n)
  {
    if n > 0 { LayerKeysAreJoined(l, f, layer, n - 1, rows); }
  }

  /** The two words of an encoder, side by side. */
  lemma {:induction false} WordPairFinal(at: nat, x: uint16, y: uint16, a: nat)
    ensures Final(PutWord(at, x) + PutWord(at + 2, y), a)
         == if at <= a < at + 2 then Last(ByteOf(x, a - at)) else if at + 2 <= a < at + 4
           then Last(ByteOf(y, a - at - 2)) else Nothing
  {
    FinalConcat(PutWord(at, x), PutWord(at + 2, y), a);
    if at <= a < at + 2 { FinalWord(at, x, a - at); } else { FinalOutside(PutWord(at, x), at, at + 2, a); }
    if at + 2 <= a < at + 4 {
      FinalWord(at + 2, y, a - at - 2);
    } else {
      FinalOutside(PutWord(at + 2, y), at + 2, at + 4, a);
    }
  }

  function EncoderParts(l: Layout, f: Flash, layer: nat): nat -> seq<Update> {
    (id: nat) => SetEncoderUpdates(l, layer, id, true, f.encoder(layer, id, true))
               + SetEncoderUpdates(l, layer, id, false, f.encoder(layer, id, false))
  }

  lemma {:induction false} LayerEncodersAreJoined(l: Layout, f: Flash, layer: nat, n: nat)
    ensures LayerEncoderUpdates(l, f, layer, n) == Joined(EncoderParts(l, f, layer), n)
  {
    if n > 0 {
      LayerEncodersAreJoined(l, f, layer, n - 1);
      var before := LayerEncoderUpdates(l, f, layer, n - 1);
      var cw := SetEncoderUpdates(l, layer, n - 1, true, f.encoder(layer, n - 1, true));
      var ccw := SetEncoderUpdates(l, layer, n - 1, false, f.encoder(layer, n - 1, false));
      assert before + cw + ccw == before + (cw + ccw);
    }
  }

  lemma {:induction false} EncoderPartFinal(l: Layout, f: Flash, layer: nat, j: nat, id: nat, clockwise: bool, k: nat)
    requires l.HasEncoder(layer, id) && id <= j < l.encoders && k < 2
    ensures Final(EncoderParts(l, f, layer)(j), l.EncoderKeyAddr(layer, id, clockwise) + k)
         == if j == id then Last(ByteOf(f.encoder(layer, id, clockwise), k)) else Nothing
  {
    WordPairFinal(l.EncoderKeyAddr(layer, j, true), f.encoder(layer, j, true), f.encoder(layer, j, false),
                  l.EncoderKeyAddr(layer, id, clockwise) + k);
  }

  lemma {:induction false} EncodersFinal(l: Layout, f: Flash, layer: nat, id: nat, clockwise: bool, k: nat)
    requires l.HasEncoder(layer, id) && k < 2
    ensures Final(LayerEncoderUpdates(l, f, layer, l.encoders), l.EncoderKeyAddr(layer, id, clockwise) + k)
         == Last(ByteOf(f.encoder(layer, id, clockwise), k))
  {
    var parts, a := EncoderParts(l, f, layer), l.EncoderKeyAddr(layer, id, clockwise) + k;
    forall j: nat | id <= j < l.encoders
      ensures Final(parts(j), a) == if j == id then Last(ByteOf(f.encoder(layer, id, clockwise), k)) else Nothing
    {
      EncoderPartFinal(l, f, layer, j, id, clockwise, k);
    }
    JoinedFinal(parts, l.encoders, id, a);
    LayerEncodersAreJoined(l, f, layer, l.encoders);
  }

  /** The first `n` rows of a layer lie below the next row. */
  lemma {:induction false} RowsInside(l: Layout, f: Flash, layer: nat, n: nat)
    requires n <= l.rows && layer < l.layers
    ensures Inside(LayerKeyUpdates(l, f, layer, n), l.KeyAddr(layer, 0, 0), l.KeyAddr(layer, n, 0))
  {
    if n > 0 {
      RowsInside(l, f, layer, n - 1);
      RowInside(l, f, layer, n - 1, l.cols);
    }
  }

  lemma {:induction false} EncodersFrom(l: Layout, f: Flash, layer: nat, n: nat)
    requires n <= l.encoders && layer < l.layers
    ensures Inside(LayerEncoderUpdates(l, f, layer, n), l.EncoderKeyAddr(layer, 0, true),
      l.EncoderKeyAddr(layer, n, true))
  {
    if n > 0 {
      EncodersFrom(l, f, layer, n - 1);
      EncoderInside(l, layer, n - 1, true);
      EncoderInside(l, layer, n - 1, false);
    }
  }

  /** A layer's updates reach its own keys and encoders only. */
  lemma {:induction false} LayerReaches(l: Layout, f: Flash, layer: nat, a: nat)
    requires layer < l.layers
    requires a < l.KeyAddr(layer, 0, 0) || (l.EncoderAddr() <= a < l.EncoderKeyAddr(layer, 0, true))
    ensures Final(LayerUpdates(l, f, layer), a) == Nothing
  {
    var keys, encoders := LayerKeyUpdates(l, f, layer, l.rows), LayerEncoderUpdates(l, f, layer, l.encoders);
    RowsInside(l, f, layer, l.rows);
    EncodersFrom(l, f, layer, l.encoders);
    Blocks(layer, l.layers, l.LayerBytes());
    FinalOutside(keys, l.KeyAddr(layer, 0, 0), l.KeyAddr(layer, l.rows, 0), a);
    FinalOutside(encoders, l.EncoderKeyAddr(layer, 0, true), l.EncoderKeyAddr(layer, l.encoders, true), a);
    FinalConcat(keys, encoders, a);
  }

  lemma {:induction false} LayerFinalKey(l: Layout, f: Flash, layer: nat, row: nat, col: nat, k: nat)
    requires l.HasKey(layer, row, col) && k < 2
    ensures Final(LayerUpdates(l, f, layer), l.KeyAddr(layer, row, col) + k)
      == Last(ByteOf(f.keycode(layer, row, col), k))
  {
    var keys, encoders := LayerKeyUpdates(l, f, layer, l.rows), LayerEncoderUpdates(l, f, layer, l.encoders);
    var a := l.KeyAddr(layer, row, col) + k;
    LayerKeysFinal(l, f, layer, row, col, k);
    LayerEncodersInside(l, f, layer, l.encoders);
    KeyInside(l, layer, row, col);
    FinalOutside(encoders, l.EncoderAddr(), l.MacroAddr(), a);
    FinalConcat(keys, encoders, a);
  }

  lemma {:induction false} LayerFinalEncoder(l: Layout, f: Flash, layer: nat, id: nat, clockwise: bool, k: nat)
    requires l.HasEncoder(layer, id) && k < 2
    ensures Final(LayerUpdates(l, f, layer), l.EncoderKeyAddr(layer, id, clockwise) + k)
      == Last(ByteOf(f.encoder(layer, id, clockwise), k))
  {
    EncodersFinal(l, f, layer, id, clockwise, k);
    FinalConcat(LayerKeyUpdates(l, f, layer, l.rows), LayerEncoderUpdates(l, f, layer, l.encoders),
      l.EncoderKeyAddr(layer, id, clockwise) + k);
  }

  lemma {:induction false} LaterLayerMissesKey(l: Layout, f: Flash, layer: nat, row: nat, col: nat, k: nat, n: nat)
    requires l.HasKey(layer, row, col) && layer < n < l.layers && k < 2
    ensures Final(LayerUpdates(l, f, n), l.KeyAddr(layer, row, col) + k) == Nothing
  {
    KeyInside(l, layer, row, col);
    Blocks(layer, n, l.LayerBytes());
    LayerReaches(l, f, n, l.KeyAddr(layer, row, col) + k);
  }

  lemma {:induction false} LaterLayerMissesEncoder(l: Layout, f: Flash, layer: nat, id: nat, clockwise: bool, k: nat,
                                                   n: nat)
    requires l.HasEncoder(layer, id) && layer < n < l.layers && k < 2
    ensures Final(LayerUpdates(l, f, n), l.EncoderKeyAddr(layer, id, clockwise) + k) == Nothing
  {
    EncoderInside(l, layer, id, clockwise);
    Blocks(layer, n, l.EncoderBytes());
    LayerReaches(l, f, n, l.EncoderKeyAddr(layer, id, clockwise) + k);
  }

  lemma {:induction false} ResetIsJoined(l: Layout, f: Flash, n: nat, layers: nat -> seq<Update>)
    requires forall j: nat :: layers(j) == LayerUpdates(l, f, j)
    ensures ResetUpdates(l, f, n) == Joined(layers, n)
  {
    if n > 0 { ResetIsJoined(l, f, n - 1, layers); }
  }

  lemma {:induction false} ResetFinalKey(l: Layout, f: Flash, layer: nat, row: nat, col: nat, k: nat)
    requires l.HasKey(layer, row, col) && k < 2
    ensures Final(ResetUpdates(l, f, l.layers), l.KeyAddr(layer, row, col) + k)
      == Last(ByteOf(f.keycode(layer, row, col), k))
  {
    var layers := (j: nat) => LayerUpdates(l, f, j);
    LayerFinalKey(l, f, layer, row, col, k);
    forall j: nat | layer < j < l.layers ensures Final(layers(j), l.KeyAddr(layer, row, col) + k) == Nothing {
      LaterLayerMissesKey(l, f, layer, row, col, k, j);
    }
    JoinedFinal(layers, l.layers, layer, l.KeyAddr(layer, row, col) + k);
    ResetIsJoined(l, f, l.layers, layers);
  }

  lemma {:induction false} ResetFinalEncoder(l: Layout, f: Flash, layer: nat, id: nat, clockwise: bool, k: nat)
    requires l.HasEncoder(layer, id) && k < 2
    ensures Final(ResetUpdates(l, f, l.layers), l.EncoderKeyAddr(layer, id, clockwise) + k)
      == Last(ByteOf(f.encoder(layer, id, clockwise), k))
  {
    var layers := (j: nat) => LayerUpdates(l, f, j);
    LayerFinalEncoder(l, f, layer, id, clockwise, k);
    forall j: nat | layer < j < l.layers
      ensures Final(layers(j), l.EncoderKeyAddr(layer, id, clockwise) + k) == Nothing {
      LaterLayerMissesEncoder(l, f, layer, id, clockwise, k, j);
    }
    JoinedFinal(layers, l.layers, layer, l.EncoderKeyAddr(layer, id, clockwise) + k);
    ResetIsJoined(l, f, l.layers, layers);
  }

  lemma {:induction false} MacroFinal(l: Layout, n: nat, a: nat)
    ensures Final(MacroResetUpdates(l, n), a) == if l.MacroAddr() <= a < l.MacroAddr() + n then Last(0) else Nothing
  {
    if n > 0 {
      MacroFinal(l, n - 1, a);
      var last := Update(l.MacroAddr() + (n - 1), 0);
      assert Final([last], a) == if last.addr == a then Last(0) else Nothing;
      FinalConcat(MacroResetUpdates(l, n - 1), [last], a);
    }
  }

  // --------------------------------------------------------------- the whole image

  /** What the initialisation leaves at `a`: the last of its five steps to reach it wins. */
  lemma {:induction false} ImageFinal(fw: Firmware, mem: seq<byte>, a: nat)
    requires fw.layout.Fits(|mem|) && a < |mem|
    ensures var l := fw.layout;
      var w := Over(Final(MagicUpdates(l, Magic(fw.date)), a), Over(Final(MacroResetUpdates(l, l.MacroSize()), a),
               Over(Final(ResetUpdates(l, fw.flash, l.layers), a),
                 Over(Final(OptionsUpdates(l, fw.optionsDefault, 0), a),
               Final(MagicUpdates(l, ERASED), a)))));
      ResetImage(fw, mem)[a] == if w.Last? then w.value else mem[a]
  {
    var l := fw.layout;
    InitInRange(fw, |mem|);
    assert InitUpdates(fw)[..|InitUpdates(fw)|] == InitUpdates(fw);
    ApplyIsFinal(mem, InitUpdates(fw), a);
    FiveSteps(MagicUpdates(l, ERASED), OptionsUpdates(l, fw.optionsDefault, 0), ResetUpdates(l, fw.flash, l.layers),
              MacroResetUpdates(l, l.MacroSize()), MagicUpdates(l, Magic(fw.date)), a);
  }

  lemma {:induction false} FiveSteps(a: seq<Update>, b: seq<Update>, c: seq<Update>, d: seq<Update>, e: seq<Update>,
                                     x: nat)
    ensures Final(a + (b + c + d) + e, x)
      == Over(Final(e, x), Over(Final(d, x), Over(Final(c, x), Over(Final(b, x), Final(a, x)))))
  {
    FinalConcat(b, c, x);
    FinalConcat(b + c, d, x);
    FinalConcat(a, b + c + d, x);
    FinalConcat(a + (b + c + d), e, x);
  }

  lemma {:induction false} MagicFinal(l: Layout, m: seq<byte>, a: nat)
    requires |m| == 3 && !(l.magicAddr <= a < l.OptionsAddr())
    ensures Final(MagicUpdates(l, m), a) == Nothing
  {
    FinalOutside(MagicUpdates(l, m), l.magicAddr, l.OptionsAddr(), a);
  }

  /** Between the options and the macros, `image` is what the keymap reset leaves. */
  ghost predicate HoldsReset(l: Layout, f: Flash, image: seq<byte>) {
    l.Fits(|image|) &&
    forall a: nat, value: byte | l.KeymapAddr() <= a < l.MacroAddr()
      && Final(ResetUpdates(l, f, l.layers), a) == Last(value) :: image[a] == value
  }

  lemma {:induction false} ImageHoldsReset(fw: Firmware, mem: seq<byte>)
    requires fw.layout.Fits(|mem|)
    ensures HoldsReset(fw.layout, fw.flash, ResetImage(fw, mem))
  {
    var l := fw.layout;
    forall a: nat, value: byte | l.KeymapAddr() <= a < l.MacroAddr()
      && Final(ResetUpdates(l, fw.flash, l.layers), a) == Last(value)
      ensures ResetImage(fw, mem)[a] == value
    {
      ImageFinal(fw, mem, a);
      MagicFinal(l, Magic(fw.date), a);
      MacroFinal(l, l.MacroSize(), a);
    }
  }

  lemma {:induction false} WordOfBytes(x: uint16)
    ensures Word(ByteOf(x, 0), ByteOf(x, 1)) == x
  {
  }

  lemma {:induction false} KeyInImage(l: Layout, f: Flash, image: seq<byte>, layer: nat, row: nat, col: nat)
    requires HoldsReset(l, f, image) && l.HasKey(layer, row, col)
    ensures KeycodeIn(l, image, layer, row, col) == f.keycode(layer, row, col)
  {
    KeyInside(l, layer, row, col);
    ResetFinalKey(l, f, layer, row, col, 0);
    ResetFinalKey(l, f, layer, row, col, 1);
    WordOfBytes(f.keycode(layer, row, col));
  }

  lemma {:induction false} EncoderInImage(l: Layout, f: Flash, image: seq<byte>, layer: nat, id: nat, clockwise: bool)
    requires HoldsReset(l, f, image) && l.HasEncoder(layer, id)
    ensures EncoderIn(l, image, layer, id, clockwise) == f.encoder(layer, id, clockwise)
  {
    EncoderInside(l, layer, id, clockwise);
    ResetFinalEncoder(l, f, layer, id, clockwise, 0);
    ResetFinalEncoder(l, f, layer, id, clockwise, 1);
    WordOfBytes(f.encoder(layer, id, clockwise));
  }

  /** Every key of the reset image is the keycode in flash. */
  lemma {:induction false} ImageHoldsFlashKeycodes(fw: Firmware, mem: seq<byte>, layer: nat, row: nat, col: nat)
    requires fw.layout.Fits(|mem|) && fw.layout.HasKey(layer, row, col)
    ensures KeycodeIn(fw.layout, ResetImage(fw, mem), layer, row, col) == fw.flash.keycode(layer, row, col)
  {
    ImageHoldsReset(fw, mem);
    KeyInImage(fw.layout, fw.flash, ResetImage(fw, mem), layer, row, col);
  }

  lemma {:induction false} ImageHoldsFlashEncoders(fw: Firmware, mem: seq<byte>, layer: nat, id: nat, clockwise: bool)
    requires fw.layout.Fits(|mem|) && fw.layout.HasEncoder(layer, id)
    ensures EncoderIn(fw.layout, ResetImage(fw, mem), layer, id, clockwise) == fw.flash.encoder(layer, id, clockwise)
  {
    ImageHoldsReset(fw, mem);
    EncoderInImage(fw.layout, fw.flash, ResetImage(fw, mem), layer, id, clockwise);
  }

  /** Every macro byte of the reset image is zero. */
  lemma {:induction false} ImageHasNoMacros(fw: Firmware, mem: seq<byte>, a: nat)
    requires fw.layout.Fits(|mem|) && fw.layout.MacroAddr() <= a <= fw.layout.maxAddr
    ensures ResetImage(fw, mem)[a] == 0
  {
    ImageFinal(fw, mem, a);
    MagicFinal(fw.layout, Magic(fw.date), a);
    MacroFinal(fw.layout, fw.layout.MacroSize(), a);
  }

  /** Outside VIA's regions, and in the keyboard's own custom bytes, nothing changes. */
  lemma {:induction false} ImageKeepsTheRest(fw: Firmware, mem: seq<byte>, a: nat)
    requires fw.layout.Fits(|mem|) && a < |mem|
    requires a < fw.layout.magicAddr || fw.layout.maxAddr < a
          || fw.layout.OptionsAddr() + fw.layout.optionsSize <= a < fw.layout.KeymapAddr()
    ensures ResetImage(fw, mem)[a] == mem[a]
  {
    var l := fw.layout;
    ImageFinal(fw, mem, a);
    RegionsInOrder(l, |mem|);
    MagicFinal(l, ERASED, a);
    MagicFinal(l, Magic(fw.date), a);
    OptionsInside(l, fw.optionsDefault, 0);
    FinalOutside(OptionsUpdates(l, fw.optionsDefault, 0), l.OptionsAddr(), l.OptionsAddr() + l.optionsSize, a);
    ResetInside(l, fw.flash, l.layers);
    FinalOutside(ResetUpdates(l, fw.flash, l.layers), l.KeymapAddr(), l.MacroAddr(), a);
    MacroFinal(l, l.MacroSize(), a);
  }

  // ---------------------------------------------------------------- layout options

  /** `value` cut to `n` bytes, byte `k` of them from the most significant. */
  function OptionByte(value: nat, n: nat, k: nat): byte
    requires k < n
    decreases n
  {
    if k == n - 1 then value % 0x100 else OptionByte(value / 0x100, n - 1, k)
  }

  lemma {:induction false} OptionsFinal(l: Layout, value: nat, i: nat, k: nat)
    requires i <= l.optionsSize && k < l.optionsSize - i
    ensures Final(OptionsUpdates(l, value, i), l.OptionsAddr() + k) == Last(OptionByte(value, l.optionsSize - i, k))
    decreases l.optionsSize - i
  {
    var n := l.optionsSize - i;
    var w, rest := Update(l.OptionsAddr() + n - 1, value % 0x100), OptionsUpdates(l, value / 0x100, i + 1);
    FinalConcat([w], rest, l.OptionsAddr() + k);
    if k < n - 1 {
      OptionsFinal(l, value / 0x100, i + 1, k);
    } else {
      OptionsInside(l, value / 0x100, i + 1);
      FinalOutside(rest, l.OptionsAddr(), l.OptionsAddr() + n - 1, l.OptionsAddr() + k);
    }
  }

  /** The first `k` of the `n` bytes, as a number, most significant first. */
  function Prefix(value: nat, n: nat, k: nat): nat
    requires k <= n
  {
    if k == 0 then 0 else 0x100 * Prefix(value, n, k - 1) + OptionByte(value, n, k - 1)
  }

  lemma {:induction false} PrefixOfShifted(value: nat, n: nat, k: nat)
    requires k < n
    ensures Prefix(value, n, k) == Prefix(value / 0x100, n - 1, k)
  {
    if k > 0 { PrefixOfShifted(value, n, k - 1); }
  }

  lemma {:induction false} PrefixIsMod(value: nat, n: nat)
    ensures Prefix(value, n, n) == value % Pow256(n)
  {
    if n > 0 {
      PrefixOfShifted(value, n, n - 1);
      PrefixIsMod(value / 0x100, n - 1);
      NextDigit(value, Pow256(n - 1), 0x100);
    }
  }

  lemma {:induction false} ReadingGoesOn(l: Layout, mem: seq<byte>, value: nat, i: nat)
    requires l.Fits(|mem|) && i <= l.optionsSize
    requires forall k: nat | k < l.optionsSize :: mem[l.OptionsAddr() + k] == OptionByte(value, l.optionsSize, k)
    ensures OptionsFrom(l, mem, i, Prefix(value, l.optionsSize, i)) == Prefix(value, l.optionsSize, l.optionsSize)
    decreases l.optionsSize - i
  {
    if i < l.optionsSize { ReadingGoesOn(l, mem, value, i + 1); }
  }

  /** The layout options read back are those set, cut to the bytes kept for them. */
  lemma {:induction false} LayoutOptionsRoundTrip(l: Layout, mem: seq<byte>, value: nat)
    requires l.Fits(|mem|)
    ensures InRange(|mem|, OptionsUpdates(l, value, 0))
    ensures OptionsIn(l, Apply(mem, OptionsUpdates(l, value, 0))) == value % Pow256(l.optionsSize)
  {
    OptionsInside(l, value, 0);
    RegionsInOrder(l, |mem|);
    var ws := OptionsUpdates(l, value, 0);
    assert InRange(|mem|, ws);
    var mem' := Apply(mem, ws);
    forall k: nat | k < l.optionsSize ensures mem'[l.OptionsAddr() + k] == OptionByte(value, l.optionsSize, k) {
      OptionsFinal(l, value, 0, k);
      ApplyIsFinal(mem, ws, l.OptionsAddr() + k);
    }
    ReadingGoesOn(l, mem', value, 0);
    PrefixIsMod(value, l.optionsSize);
  }
}
