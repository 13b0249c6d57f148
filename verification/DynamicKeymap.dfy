/** The dynamic keymap and macro area in EEPROM (quantum/dynamic_keymap.c:104-255). */
module DynamicKeymap {
  import opened Eeprom

  type uint16 = x: int | 0 <= x < 0x1_0000

  const KC_NO: uint16 := 0

  /** n * size, by repeated addition. */
  function Times(n: nat, size: nat): nat {
    if n == 0 then 0 else Times(n - 1, size) + size
  }

  lemma {:induction false} TimesIsProduct(n: nat, size: nat)
    ensures Times(n, size) == n * size
  {
    if n > 0 { TimesIsProduct(n - 1, size); }
  }

  /** Where VIA and the dynamic keymap keep their bytes.  `encoders` is 0 without an encoder
      map; `maxAddr` is the last address given to macros. */
  datatype Layout = Layout(magicAddr: nat, optionsSize: nat, customSize: nat,
                           layers: nat, rows: nat, cols: nat, encoders: nat, maxAddr: nat)
  {
    function OptionsAddr(): nat { magicAddr + 3 }
    function KeymapAddr(): nat { OptionsAddr() + optionsSize + customSize }
    function RowBytes(): nat { 2 * cols }
    function LayerBytes(): nat { Times(rows, RowBytes()) }
    function KeymapSize(): nat { Times(layers, LayerBytes()) }
    function EncoderAddr(): nat { KeymapAddr() + KeymapSize() }
    function EncoderBytes(): nat { 4 * encoders }
    function MacroAddr(): nat { EncoderAddr() + Times(layers, EncoderBytes()) }

    /** The compile-time checks on the configuration. */
    predicate Fits(size: nat) {
      && 1 <= optionsSize <= 4 && layers <= 0xFF && rows <= 0xFF && cols <= 0xFF && encoders <= 0xFF
      && MacroAddr() + 100 <= maxAddr < size <= 0x1_0000
    }

    function MacroSize(): nat
      requires MacroAddr() <= maxAddr
    {
      maxAddr - MacroAddr() + 1
    }

    predicate HasKey(layer: nat, row: nat, col: nat) { layer < layers && row < rows && col < cols }

    function KeyAddr(layer: nat, row: nat, col: nat): nat {
      KeymapAddr() + Times(layer, LayerBytes()) + Times(row, RowBytes()) + 2 * col
    }

    predicate HasEncoder(layer: nat, id: nat) { layer < layers && id < encoders }

    function EncoderKeyAddr(layer: nat, id: nat, clockwise: bool): nat {
      EncoderAddr() + Times(layer, EncoderBytes()) + 4 * id + if clockwise then 0 else 2
    }
  }

  // ---------------------------------------------------------- address arithmetic

  lemma {:induction false} Blocks(i: nat, j: nat, size: nat)
    requires i < j
    ensures Times(i, size) + size <= Times(j, size)
    decreases j
  {
    if i < j - 1 { Blocks(i, j - 1, size); }
  }

  /** Every key's two bytes lie in its row, its layer and the keymap. */
  lemma {:induction false} KeyInside(l: Layout, layer: nat, row: nat, col: nat)
    requires l.HasKey(layer, row, col)
    ensures l.KeyAddr(layer, row, 0) <= l.KeyAddr(layer, row, col) <= l.KeyAddr(layer, row, 0) + l.RowBytes() - 2
    ensures l.KeyAddr(layer, 0, 0) <= l.KeyAddr(layer, row, 0) <= l.KeyAddr(layer, 0, 0) + l.LayerBytes() - l.RowBytes()
    ensures l.KeymapAddr() <= l.KeyAddr(layer, 0, 0) <= l.EncoderAddr() - l.LayerBytes()
  {
    Blocks(row, l.rows, l.RowBytes());
    Blocks(layer, l.layers, l.LayerBytes());
  }

  /** Distinct keys never share bytes. */
  lemma {:induction false} KeysApart(l: Layout, layer: nat, row: nat, col: nat, layer': nat, row': nat, col': nat)
    requires l.HasKey(layer, row, col) && l.HasKey(layer', row', col')
    requires (layer, row, col) != (layer', row', col')
    ensures l.KeyAddr(layer, row, col) + 2 <= l.KeyAddr(layer', row', col')
         || l.KeyAddr(layer', row', col') + 2 <= l.KeyAddr(layer, row, col)
  {
    KeyInside(l, layer, row, col);
    KeyInside(l, layer', row', col');
    if layer < layer' { Blocks(layer, layer', l.LayerBytes()); }
    else if layer' < layer { Blocks(layer', layer, l.LayerBytes()); }
    else if row < row' { Blocks(row, row', l.RowBytes()); }
    else if row' < row { Blocks(row', row, l.RowBytes()); }
  }

  lemma {:induction false} EncoderInside(l: Layout, layer: nat, id: nat, clockwise: bool)
    requires l.HasEncoder(layer, id)
    ensures l.EncoderKeyAddr(layer, 0, true) <= l.EncoderKeyAddr(layer, id, clockwise)
         <= l.EncoderKeyAddr(layer, 0, true) + l.EncoderBytes() - 2
    ensures l.EncoderAddr() <= l.EncoderKeyAddr(layer, 0, true) <= l.MacroAddr() - l.EncoderBytes()
  {
    Blocks(layer, l.layers, l.EncoderBytes());
  }

  lemma {:induction false} ProductOfThree(a: nat, b: nat, c: nat)
    ensures Times(a, Times(b, 2 * c)) == a * b * c * 2
  {
    TimesIsProduct(b, 2 * c);
    TimesIsProduct(a, Times(b, 2 * c));
    assert a * (b * (2 * c)) == a * b * c * 2;
  }

  /** Where everything is: behind VIA's bytes the keys, layer by layer and row by row, two bytes each; then the
      encoders, layer by layer, two bytes for each direction; then the macros up to the last address. */
  lemma {:induction false} AddressesAre(l: Layout, layer: nat, row: nat, col: nat, id: nat)
    ensures l.OptionsAddr() == l.magicAddr + 3 && l.KeymapAddr() == l.magicAddr + 3 + l.optionsSize + l.customSize
    ensures l.KeyAddr(layer, row, col)
         == l.KeymapAddr() + layer * l.rows * l.cols * 2 + row * (l.cols * 2) + col * 2
    ensures l.EncoderAddr() == l.KeymapAddr() + l.layers * l.rows * l.cols * 2
    ensures l.EncoderKeyAddr(layer, id, true) == l.EncoderAddr() + layer * (l.encoders * 4) + id * 4
    ensures l.EncoderKeyAddr(layer, id, false) == l.EncoderKeyAddr(layer, id, true) + 2
    ensures l.MacroAddr() == l.EncoderAddr() + l.layers * (l.encoders * 4)
    ensures l.MacroAddr() <= l.maxAddr ==> l.MacroAddr() + l.MacroSize() == l.maxAddr + 1
  {
    ProductOfThree(layer, l.rows, l.cols);
    ProductOfThree(l.layers, l.rows, l.cols);
    TimesIsProduct(row, 2 * l.cols);
    TimesIsProduct(layer, 4 * l.encoders);
    TimesIsProduct(l.layers, 4 * l.encoders);
  }

  // ------------------------------------------------------------- keycodes in bytes

  function Hi(x: uint16): byte { x / 0x100 }
  function Lo(x: uint16): byte { x % 0x100 }
  function Word(hi: byte, lo: byte): uint16 { var h: int := hi; 0x100 * h + lo }

  function PutWord(addr: nat, x: uint16): seq<Update> { [Update(addr, Hi(x)), Update(addr + 1, Lo(x))] }

  /** Keycodes are stored with the more significant byte first. */
  lemma {:induction false} WordsAreBigEndian(addr: nat, x: uint16, hi: byte, lo: byte)
    ensures PutWord(addr, x) == [Update(addr, x / 256), Update(addr + 1, x % 256)]
    ensures Word(hi, lo) == 256 * (hi as int) + lo
  {
  }

  predicate HasWord(mem: seq<byte>, addr: nat, x: uint16) {
    addr + 1 < |mem| && mem[addr] == Hi(x) && mem[addr + 1] == Lo(x)
  }

  lemma {:induction false} PutWordPuts(mem: seq<byte>, addr: nat, x: uint16)
    requires addr + 1 < |mem|
    ensures Apply(mem, PutWord(addr, x)) == mem[addr := Hi(x)][addr + 1 := Lo(x)]
    ensures HasWord(Apply(mem, PutWord(addr, x)), addr, x)
  {
    var ws := PutWord(addr, x);
    assert ws[..1] == [Update(addr, Hi(x))] && ws[..1][..0] == [];
    assert Apply(mem, ws[..1]) == mem[addr := Hi(x)];
  }

  function KeycodeIn(l: Layout, mem: seq<byte>, layer: nat, row: nat, col: nat): uint16
    requires l.Fits(|mem|)
  {
    if !l.HasKey(layer, row, col) then KC_NO
    else
      KeyInside(l, layer, row, col);
      Word(mem[l.KeyAddr(layer, row, col)], mem[l.KeyAddr(layer, row, col) + 1])
  }

  function SetKeycodeUpdates(l: Layout, layer: nat, row: nat, col: nat, keycode: uint16): seq<Update> {
    if l.HasKey(layer, row, col) then PutWord(l.KeyAddr(layer, row, col), keycode) else []
  }

  function EncoderIn(l: Layout, mem: seq<byte>, layer: nat, id: nat, clockwise: bool): uint16
    requires l.Fits(|mem|)
  {
    if !l.HasEncoder(layer, id) then KC_NO
    else
      EncoderInside(l, layer, id, clockwise);
      Word(mem[l.EncoderKeyAddr(layer, id, clockwise)], mem[l.EncoderKeyAddr(layer, id, clockwise) + 1])
  }

  function SetEncoderUpdates(l: Layout, layer: nat, id: nat, clockwise: bool, keycode: uint16): seq<Update> {
    if l.HasEncoder(layer, id) then PutWord(l.EncoderKeyAddr(layer, id, clockwise), keycode) else []
  }

  /** What is out of range reads as no key, and setting it does nothing. */
  lemma {:induction false} OutOfRangeIsNoKey(l: Layout, mem: seq<byte>, layer: nat, row: nat, col: nat, id: nat,
                                             clockwise: bool, keycode: uint16)
    requires l.Fits(|mem|)
    ensures layer >= l.layers || row >= l.rows || col >= l.cols ==>
      KeycodeIn(l, mem, layer, row, col) == 0 && SetKeycodeUpdates(l, layer, row, col, keycode) == []
    ensures layer >= l.layers || id >= l.encoders ==>
      EncoderIn(l, mem, layer, id, clockwise) == 0 && SetEncoderUpdates(l, layer, id, clockwise, keycode) == []
  {
  }

  // ---------------------------------------------------------- the host's byte view

  /** The keymap as the host sees it: one array of bytes. */
  function KeymapBytes(l: Layout, mem: seq<byte>): (b: seq<byte>)
    requires l.Fits(|mem|)
    ensures |b| == l.KeymapSize()
  {
    mem[l.KeymapAddr()..l.EncoderAddr()]
  }

  /** Reading `size` bytes at `offset`, zeros past the end. */
  function Window(b: seq<byte>, offset: nat, size: nat): (w: seq<byte>)
    ensures |w| == size
  {
    seq(size, i requires 0 <= i => if offset + i < |b| then b[offset + i] else 0)
  }

  /** Writing `data` at `offset`, what falls past the end being ignored. */
  function Spliced(b: seq<byte>, offset: nat, data: seq<byte>): (b': seq<byte>)
    ensures |b'| == |b|
  {
    seq(|b|, i requires 0 <= i < |b| => if offset <= i < offset + |data| then data[i - offset] else b[i])
  }

  /** The updates dynamic_keymap_set_buffer makes for the first `n` bytes of `data`. */
  function SetBufferUpdates(l: Layout, offset: nat, data: seq<byte>, n: nat): seq<Update>
    requires n <= |data|
  {
    if n == 0 then []
    else SetBufferUpdates(l, offset, data, n - 1)
         + if offset + (n - 1) < l.KeymapSize() then [Update(l.KeymapAddr() + offset + (n - 1), data[n - 1])] else []
  }

  /** One byte written through the buffer view, or ignored past the end. */
  lemma {:induction false} OneByteSplices(l: Layout, mem: seq<byte>, before: seq<byte>, offset: nat, data: seq<byte>,
                                          n: nat)
    requires l.Fits(|mem|) && 0 < n <= |data| && |before| == l.KeymapSize()
    requires KeymapBytes(l, mem) == Spliced(before, offset, data[..n - 1])
    ensures var mem' :=
        if offset + (n - 1) < l.KeymapSize() then mem[l.KeymapAddr() + offset + (n - 1) := data[n - 1]] else mem;
      KeymapBytes(l, mem') == Spliced(before, offset, data[..n])
  {
    var k := offset + (n - 1);
    var mem' := if k < l.KeymapSize() then mem[l.KeymapAddr() + k := data[n - 1]] else mem;
    forall i | 0 <= i < |before| ensures KeymapBytes(l, mem')[i] == Spliced(before, offset, data[..n])[i] {
      assert KeymapBytes(l, mem)[i] == Spliced(before, offset, data[..n - 1])[i];
      if i != k { assert KeymapBytes(l, mem')[i] == KeymapBytes(l, mem)[i]; }
    }
  }

  lemma {:induction false} SetBufferSplices(l: Layout, mem: seq<byte>, offset: nat, data: seq<byte>, n: nat)
    requires l.Fits(|mem|) && n <= |data|
    ensures InRange(|mem|, SetBufferUpdates(l, offset, data, n))
    ensures var mem' := Apply(mem, SetBufferUpdates(l, offset, data, n));
      && KeymapBytes(l, mem') == Spliced(KeymapBytes(l, mem), offset, data[..n])
      && forall a | 0 <= a < |mem| && !(l.KeymapAddr() <= a < l.EncoderAddr()) :: mem'[a] == mem[a]
  {
    if n > 0 {
      SetBufferSplices(l, mem, offset, data, n - 1);
      var ws, ws' := SetBufferUpdates(l, offset, data, n - 1), SetBufferUpdates(l, offset, data, n);
      OneByteSplices(l, Apply(mem, ws), KeymapBytes(l, mem), offset, data, n);
      if offset + (n - 1) < l.KeymapSize() { assert ws'[..|ws|] == ws; } else { assert ws' == ws; }
    }
  }

  // ------------------------------------------------------------------- in place

  /** What the firmware was built with: keycodes in flash. */
  datatype Flash = Flash(keycode: (nat, nat, nat) -> uint16, encoder: (nat, nat, bool) -> uint16)

  function RowUpdates(l: Layout, f: Flash, layer: nat, row: nat, n: nat): seq<Update> {
    if n == 0 then []
    else RowUpdates(l, f, layer, row, n - 1) + SetKeycodeUpdates(l, layer, row, n - 1, f.keycode(layer, row, n - 1))
  }

  function LayerKeyUpdates(l: Layout, f: Flash, layer: nat, n: nat): seq<Update> {
    if n == 0 then [] else LayerKeyUpdates(l, f, layer, n - 1) + RowUpdates(l, f, layer, n - 1, l.cols)
  }

  function LayerEncoderUpdates(l: Layout, f: Flash, layer: nat, n: nat): seq<Update> {
    if n == 0 then []
    else LayerEncoderUpdates(l, f, layer, n - 1)
         + SetEncoderUpdates(l, layer, n - 1, true, f.encoder(layer, n - 1, true))
         + SetEncoderUpdates(l, layer, n - 1, false, f.encoder(layer, n - 1, false))
  }

  function LayerUpdates(l: Layout, f: Flash, layer: nat): seq<Update> {
    LayerKeyUpdates(l, f, layer, l.rows) + LayerEncoderUpdates(l, f, layer, l.encoders)
  }

  function ResetUpdates(l: Layout, f: Flash, n: nat): seq<Update> {
    if n == 0 then []
    else ResetUpdates(l, f, n - 1) + LayerUpdates(l, f, n - 1)
  }

  function MacroResetUpdates(l: Layout, n: nat): seq<Update> {
    if n == 0 then [] else MacroResetUpdates(l, n - 1) + [Update(l.MacroAddr() + (n - 1), 0)]
  }

  /** Updates made after updates made are updates made. */
  lemma {:induction false} Append(mem: seq<byte>, a: seq<Update>, b: seq<Update>, mem': seq<byte>, log: seq<Update>,
                                  log': seq<Update>)
    requires InRange(|mem|, a) && InRange(|mem|, b)
    requires mem' == Apply(Apply(mem, a), b) && log' == log + a + b
    ensures InRange(|mem|, a + b) && mem' == Apply(mem, a + b) && log' == log + (a + b)
  {
    ApplyConcat(mem, a, b);
  }

  class Keymap {
    const eeprom: Storage
    const layout: Layout

    constructor (eeprom: Storage, layout: Layout)
      requires layout.Fits(eeprom.cells.Length)
      ensures this.eeprom == eeprom && this.layout == layout && Valid()
    {
      this.eeprom, this.layout := eeprom, layout;
    }

    ghost predicate Valid() { layout.Fits(eeprom.cells.Length) }

    method GetKeycode(layer: nat, row: nat, col: nat) returns (keycode: uint16)
      requires Valid()
      ensures keycode == KeycodeIn(layout, eeprom.cells[..], layer, row, col)
    {
      if layer >= layout.layers || row >= layout.rows || col >= layout.cols { return KC_NO; }
      KeyInside(layout, layer, row, col);
      keycode := GetWord(layout.KeyAddr(layer, row, col));
    }

    method SetKeycode(layer: nat, row: nat, col: nat, keycode: uint16)
      requires Valid()
      modifies eeprom, eeprom.cells
      ensures Made(eeprom, SetKeycodeUpdates(layout, layer, row, col, keycode))
    {
      if layer >= layout.layers || row >= layout.rows || col >= layout.cols {
        assert eeprom.updates + [] == eeprom.updates;
        return;
      }
      KeyInside(layout, layer, row, col);
      SetWord(layout.KeyAddr(layer, row, col), keycode);
    }

    method GetWord(address: nat) returns (keycode: uint16)
      requires address + 1 < eeprom.cells.Length
      ensures keycode == Word(eeprom.cells[address], eeprom.cells[address + 1])
    {
      var hi := eeprom.ReadByte(address);
      var lo := eeprom.ReadByte(address + 1);
      keycode := Word(hi, lo);
    }

    method SetWord(address: nat, keycode: uint16)
      requires address + 1 < eeprom.cells.Length
      modifies eeprom, eeprom.cells
      ensures Made(eeprom, PutWord(address, keycode))
    {
      PutWordPuts(eeprom.cells[..], address, keycode);
      eeprom.UpdateByte(address, Hi(keycode));
      eeprom.UpdateByte(address + 1, Lo(keycode));
    }

    method SetEncoder(layer: nat, id: nat, clockwise: bool, keycode: uint16)
      requires Valid()
      modifies eeprom, eeprom.cells
      ensures Made(eeprom, SetEncoderUpdates(layout, layer, id, clockwise, keycode))
    {
      if layer >= layout.layers || id >= layout.encoders {
        assert eeprom.updates + [] == eeprom.updates;
        return;
      }
      EncoderInside(layout, layer, id, clockwise);
      SetWord(layout.EncoderKeyAddr(layer, id, clockwise), keycode);
    }

    method GetEncoder(layer: nat, id: nat, clockwise: bool) returns (keycode: uint16)
      requires Valid()
      ensures keycode == EncoderIn(layout, eeprom.cells[..], layer, id, clockwise)
    {
      if layer >= layout.layers || id >= layout.encoders { return KC_NO; }
      EncoderInside(layout, layer, id, clockwise);
      keycode := GetWord(layout.EncoderKeyAddr(layer, id, clockwise));
    }

    method GetBuffer(offset: uint16, size: uint16) returns (data: seq<byte>)
      requires Valid()
      ensures data == Window(KeymapBytes(layout, eeprom.cells[..]), offset, size)
    {
      data := [];
      var source := layout.KeymapAddr() + offset;
      var i := 0;
      while i < size
        invariant 0 <= i <= size && source == layout.KeymapAddr() + offset + i
        invariant data == Window(KeymapBytes(layout, eeprom.cells[..]), offset, size)[..i]
      {
        if offset + i < layout.KeymapSize() {
          var b := eeprom.ReadByte(source);
          data := data + [b];
        } else {
          data := data + [0];
        }
        source, i := source + 1, i + 1;
      }
    }

    method SetBuffer(offset: uint16, data: seq<byte>)
      requires Valid() && |data| < 0x1_0000
      modifies eeprom, eeprom.cells
      ensures Made(eeprom, SetBufferUpdates(layout, offset, data, |data|))
    {
      var target := layout.KeymapAddr() + offset;
      var i := 0;
      assert eeprom.updates + [] == eeprom.updates;
      while i < |data|
        invariant 0 <= i <= |data| && target == layout.KeymapAddr() + offset + i
        invariant Made(eeprom, SetBufferUpdates(layout, offset, data, i))
      {
        ghost var ws := SetBufferUpdates(layout, offset, data, i);
        if offset + i < layout.KeymapSize() {
          eeprom.UpdateByte(target, data[i]);
          assert (ws + [Update(target, data[i])])[..|ws|] == ws;
        } else {
          assert ws + [] == ws;
        }
        target, i := target + 1, i + 1;
      }
    }

    /** dynamic_keymap_reset: every key and encoder back to what is in flash. */
    method Reset(f: Flash)
      requires Valid()
      modifies eeprom, eeprom.cells
      ensures Made(eeprom, ResetUpdates(layout, f, layout.layers))
    {
      assert eeprom.updates + [] == eeprom.updates;
      var layer := 0;
      while layer < layout.layers
        invariant 0 <= layer <= layout.layers
        invariant Made(eeprom, ResetUpdates(layout, f, layer))
      {
        ghost var done := ResetUpdates(layout, f, layer);
        ResetLayer(f, layer);
        Append(old(eeprom.cells[..]), done, LayerUpdates(layout, f, layer), eeprom.cells[..], old(eeprom.updates),
          eeprom.updates);
        layer := layer + 1;
      }
    }

    method ResetLayer(f: Flash, layer: nat)
      requires Valid()
      modifies eeprom, eeprom.cells
      ensures Made(eeprom, LayerUpdates(layout, f, layer))
    {
      ghost var keys := LayerKeyUpdates(layout, f, layer, layout.rows);
      ResetLayerKeys(f, layer);
      ResetLayerEncoders(f, layer);
      Append(old(eeprom.cells[..]), keys, LayerEncoderUpdates(layout, f, layer, layout.encoders), eeprom.cells[..],
             old(eeprom.updates), eeprom.updates);
    }

    /** The loops over rows and columns. */
    method ResetLayerKeys(f: Flash, layer: nat)
      requires Valid()
      modifies eeprom, eeprom.cells
      ensures Made(eeprom, LayerKeyUpdates(layout, f, layer, layout.rows))
    {
      assert eeprom.updates + [] == eeprom.updates;
      var row := 0;
      while row < layout.rows
        invariant 0 <= row <= layout.rows
        invariant Made(eeprom, LayerKeyUpdates(layout, f, layer, row))
      {
        ghost var done := LayerKeyUpdates(layout, f, layer, row);
        ResetRow(f, layer, row);
        Append(old(eeprom.cells[..]), done, RowUpdates(layout, f, layer, row, layout.cols), eeprom.cells[..],
               old(eeprom.updates), eeprom.updates);
        row := row + 1;
      }
    }

    method ResetRow(f: Flash, layer: nat, row: nat)
      requires Valid()
      modifies eeprom, eeprom.cells
      ensures Made(eeprom, RowUpdates(layout, f, layer, row, layout.cols))
    {
      assert eeprom.updates + [] == eeprom.updates;
      var col := 0;
      while col < layout.cols
        invariant 0 <= col <= layout.cols
        invariant Made(eeprom, RowUpdates(layout, f, layer, row, col))
      {
        ghost var done := RowUpdates(layout, f, layer, row, col);
        SetKeycode(layer, row, col, f.keycode(layer, row, col));
        Append(old(eeprom.cells[..]), done, SetKeycodeUpdates(layout, layer, row, col, f.keycode(layer, row, col)),
               eeprom.cells[..], old(eeprom.updates), eeprom.updates);
        col := col + 1;
      }
    }

    method ResetLayerEncoders(f: Flash, layer: nat)
      requires Valid()
      modifies eeprom, eeprom.cells
      ensures Made(eeprom, LayerEncoderUpdates(layout, f, layer, layout.encoders))
    {
      assert eeprom.updates + [] == eeprom.updates;
      var id := 0;
      while id < layout.encoders
        invariant 0 <= id <= layout.encoders
        invariant Made(eeprom, LayerEncoderUpdates(layout, f, layer, id))
      {
        ghost var done := LayerEncoderUpdates(layout, f, layer, id);
        ghost var cw := SetEncoderUpdates(layout, layer, id, true, f.encoder(layer, id, true));
        SetEncoder(layer, id, true, f.encoder(layer, id, true));
        Append(old(eeprom.cells[..]), done, cw, eeprom.cells[..], old(eeprom.updates), eeprom.updates);
        SetEncoder(layer, id, false, f.encoder(layer, id, false));
        Append(old(eeprom.cells[..]), done + cw,
          SetEncoderUpdates(layout, layer, id, false, f.encoder(layer, id, false)),
               eeprom.cells[..], old(eeprom.updates), eeprom.updates);
        id := id + 1;
      }
    }

    /** dynamic_keymap_macro_reset. */
    method MacroReset()
      requires Valid()
      modifies eeprom, eeprom.cells
      ensures Made(eeprom, MacroResetUpdates(layout, layout.MacroSize()))
    {
      assert eeprom.updates + [] == eeprom.updates;
      var p, end := layout.MacroAddr(), layout.MacroAddr() + layout.MacroSize();
      while p != end
        invariant layout.MacroAddr() <= p <= end
        invariant Made(eeprom, MacroResetUpdates(layout, p - layout.MacroAddr()))
        decreases end - p
      {
        ghost var done := MacroResetUpdates(layout, p - layout.MacroAddr());
        eeprom.UpdateByte(p, 0);
        assert (done + [Update(p, 0)])[..|done|] == done;
        p := p + 1;
      }
    }
  }
}
