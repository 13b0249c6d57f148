/** The two views of the keymap agree: keycode by keycode and byte by byte, both read and
    write one big-endian array (quantum/dynamic_keymap.c:108-128, 170-196). */
module DynamicKeymapViews {
  import opened Eeprom
  import opened DynamicKeymap

  datatype KeymapOp =
    | SetKey(layer: nat, row: nat, col: nat, keycode: uint16)
    | SetBytes(offset: nat, data: seq<byte>)

  function UpdatesOf(l: Layout, op: KeymapOp): seq<Update> {
    match op
    case SetKey(layer, row, col, keycode) => SetKeycodeUpdates(l, layer, row, col, keycode)
    case SetBytes(offset, data) => SetBufferUpdates(l, offset, data, |data|)
  }

  /** Where a key's bytes are in the array. */
  function Offset(l: Layout, layer: nat, row: nat, col: nat): (k: nat)
    requires l.HasKey(layer, row, col)
    ensures k + 1 < l.KeymapSize() && l.KeyAddr(layer, row, col) == l.KeymapAddr() + k
  {
    KeyInside(l, layer, row, col);
    l.KeyAddr(layer, row, col) - l.KeymapAddr()
  }

  /** The operation on the array alone. */
  function OnArray(l: Layout, b: seq<byte>, op: KeymapOp): (b': seq<byte>)
    requires |b| == l.KeymapSize()
    ensures |b'| == |b|
  {
    match op
    case SetKey(layer, row, col, keycode) =>
      if l.HasKey(layer, row, col)
      then b[Offset(l, layer, row, col) := Hi(keycode)][Offset(l, layer, row, col) + 1 := Lo(keycode)]
      else b
    case SetBytes(offset, data) => Spliced(b, offset, data)
  }

  function RunArray(l: Layout, b: seq<byte>, ops: seq<KeymapOp>): (b': seq<byte>)
    requires |b| == l.KeymapSize()
    ensures |b'| == |b|
  {
    if ops == [] then b else OnArray(l, RunArray(l, b, ops[..|ops| - 1]), ops[|ops| - 1])
  }

  predicate SameOutside(l: Layout, mem: seq<byte>, mem': seq<byte>) {
    |mem'| == |mem| && forall a | 0 <= a < |mem| && !(l.KeymapAddr() <= a < l.EncoderAddr()) :: mem'[a] == mem[a]
  }

  /** Writing two bytes inside a slice writes them in the slice, and nowhere else. */
  lemma {:induction false} SliceUpdate(mem: seq<byte>, base: nat, end: nat, k: nat, hi: byte, lo: byte)
    requires base + k + 1 < end <= |mem|
    ensures var mem' := mem[base + k := hi][base + k + 1 := lo];
      && mem'[base..end] == mem[base..end][k := hi][k + 1 := lo]
      && forall a | 0 <= a < |mem| && !(base <= a < end) :: mem'[a] == mem[a]
  {
  }

  lemma {:induction false} SetKeyActsOnArray(l: Layout, mem: seq<byte>, layer: nat, row: nat, col: nat, keycode: uint16)
    requires l.Fits(|mem|) && l.HasKey(layer, row, col)
    ensures InRange(|mem|, SetKeycodeUpdates(l, layer, row, col, keycode))
    ensures var mem', k := Apply(mem, SetKeycodeUpdates(l, layer, row, col, keycode)), Offset(l, layer, row, col);
      KeymapBytes(l, mem') == KeymapBytes(l, mem)[k := Hi(keycode)][k + 1 := Lo(keycode)] && SameOutside(l, mem, mem')
  {
    var k := Offset(l, layer, row, col);
    var base, end := l.KeymapAddr(), l.EncoderAddr();
    PutWordPuts(mem, base + k, keycode);
    SliceUpdate(mem, base, end, k, Hi(keycode), Lo(keycode));
  }

  /** Each operation acts on the array, and on nothing outside the keymap. */
  lemma {:induction false} OpActsOnArray(l: Layout, mem: seq<byte>, op: KeymapOp)
    requires l.Fits(|mem|)
    ensures InRange(|mem|, UpdatesOf(l, op))
    ensures var mem' := Apply(mem, UpdatesOf(l, op));
      KeymapBytes(l, mem') == OnArray(l, KeymapBytes(l, mem), op) && SameOutside(l, mem, mem')
  {
    match op {
      case SetKey(layer, row, col, keycode) =>
        if l.HasKey(layer, row, col) { SetKeyActsOnArray(l, mem, layer, row, col, keycode); }
      case SetBytes(offset, data) =>
        SetBufferSplices(l, mem, offset, data, |data|);
        assert data[..|data|] == data;
    }
  }

  function RunMemory(l: Layout, mem: seq<byte>, ops: seq<KeymapOp>): (mem': seq<byte>)
    requires l.Fits(|mem|)
    ensures |mem'| == |mem|
  {
    if ops == [] then mem
    else
      var before := RunMemory(l, mem, ops[..|ops| - 1]);
      OpActsOnArray(l, before, ops[|ops| - 1]);
      Apply(before, UpdatesOf(l, ops[|ops| - 1]))
  }

  /** Under any interleaving of the two kinds of writes both views are of one array, and no
      byte outside the keymap changes. */
  lemma {:induction false} ViewsAgree(l: Layout, mem: seq<byte>, ops: seq<KeymapOp>)
    requires l.Fits(|mem|)
    ensures var mem' := RunMemory(l, mem, ops);
      && KeymapBytes(l, mem') == RunArray(l, KeymapBytes(l, mem), ops)
      && SameOutside(l, mem, mem')
  {
    if ops != [] {
      ViewsAgree(l, mem, ops[..|ops| - 1]);
      OpActsOnArray(l, RunMemory(l, mem, ops[..|ops| - 1]), ops[|ops| - 1]);
    }
  }

  /** Reading a keycode decodes the array big-endian. */
  lemma {:induction false} KeycodeDecodesArray(l: Layout, mem: seq<byte>, layer: nat, row: nat, col: nat)
    requires l.Fits(|mem|) && l.HasKey(layer, row, col)
    ensures var b, k := KeymapBytes(l, mem), Offset(l, layer, row, col);
      KeycodeIn(l, mem, layer, row, col) == Word(b[k], b[k + 1])
  {
    var b, k, base := KeymapBytes(l, mem), Offset(l, layer, row, col), l.KeymapAddr();
    assert b[k] == mem[base + k] && b[k + 1] == mem[base + (k + 1)];
  }

  lemma {:induction false} OffsetsApart(l: Layout, layer: nat, row: nat, col: nat, layer': nat, row': nat, col': nat)
    requires l.HasKey(layer, row, col) && l.HasKey(layer', row', col')
    requires (layer, row, col) != (layer', row', col')
    ensures Offset(l, layer, row, col) + 2 <= Offset(l, layer', row', col')
         || Offset(l, layer', row', col') + 2 <= Offset(l, layer, row, col)
  {
    KeysApart(l, layer, row, col, layer', row', col');
  }

  /** The host can compute any keycode from the bytes it reads. */
  lemma {:induction false} KeycodeFromBuffer(l: Layout, mem: seq<byte>, layer: nat, row: nat, col: nat, offset: nat,
                                             size: nat)
    requires l.Fits(|mem|) && l.HasKey(layer, row, col)
    requires offset <= Offset(l, layer, row, col) && Offset(l, layer, row, col) + 2 <= offset + size
    ensures var w, k := Window(KeymapBytes(l, mem), offset, size), Offset(l, layer, row, col) - offset;
      KeycodeIn(l, mem, layer, row, col) == Word(w[k], w[k + 1])
  {
    KeycodeDecodesArray(l, mem, layer, row, col);
  }

  /** A key reads back what was set, and no other key changes. */
  lemma {:induction false} SetKeyReadsBack(l: Layout, mem: seq<byte>, layer: nat, row: nat, col: nat, keycode: uint16,
                                          layer': nat, row': nat, col': nat)
    requires l.Fits(|mem|) && l.HasKey(layer, row, col) && l.HasKey(layer', row', col')
    ensures InRange(|mem|, SetKeycodeUpdates(l, layer, row, col, keycode))
    ensures var mem' := Apply(mem, SetKeycodeUpdates(l, layer, row, col, keycode));
      KeycodeIn(l, mem', layer', row', col')
      == if (layer', row', col') == (layer, row, col) then keycode else KeycodeIn(l, mem, layer', row', col')
  {
    SetKeyActsOnArray(l, mem, layer, row, col, keycode);
    var mem' := Apply(mem, SetKeycodeUpdates(l, layer, row, col, keycode));
    KeycodeDecodesArray(l, mem, layer', row', col');
    KeycodeDecodesArray(l, mem', layer', row', col');
    if (layer', row', col') != (layer, row, col) { OffsetsApart(l, layer, row, col, layer', row', col'); }
  }

  /** Bytes written through the buffer read back, zeros where there is no keymap. */
  lemma {:induction false} SetBytesReadsBack(l: Layout, mem: seq<byte>, offset: nat, data: seq<byte>, i: nat)
    requires l.Fits(|mem|) && i < |data|
    ensures InRange(|mem|, SetBufferUpdates(l, offset, data, |data|))
    ensures var mem' := Apply(mem, SetBufferUpdates(l, offset, data, |data|));
      Window(KeymapBytes(l, mem'), offset, |data|)[i] == if offset + i < l.KeymapSize() then data[i] else 0
  {
    OpActsOnArray(l, mem, SetBytes(offset, data));
  }
}
