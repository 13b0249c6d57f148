/** CRC-8, by table and bit by bit (quantum/crc.c). */
module Crc8 {

  /** The polynomial of the table, and the polynomial of the loop: they are not the same. */
  const TABLE_POLY: bv8 := 0x07
  const LOOP_POLY: bv8 := 0x31

  /** One step of the shift register. */
  function Shift(poly: bv8, c: bv8): bv8 {
    if c & 0x80 != 0 then (c << 1) ^ poly else c << 1
  }

  function Twice(f: bv8 -> bv8): bv8 -> bv8 { (c: bv8) => f(f(c)) }

  /** Eight steps: one byte. */
  function ByteStep(poly: bv8): bv8 -> bv8 { Twice(Twice(Twice((c: bv8) => Shift(poly, c)))) }

  function Shift8(poly: bv8, c: bv8): bv8 {
    Shift(poly, Shift(poly, Shift(poly, Shift(poly, Shift(poly, Shift(poly, Shift(poly, Shift(poly, c))))))))
  }

  lemma {:induction false} ByteStepIsShift8(poly: bv8, c: bv8)
    ensures ByteStep(poly)(c) == Shift8(poly, c)
  {
    var f := (c: bv8) => Shift(poly, c);
    var f2 := Twice(f);
    var f4 := Twice(f2);
    assert ByteStep(poly)(c) == f4(f4(c)) == f2(f2(f2(f2(c))));
  }

  function Xor(a: bv8, b: bv8): bv8 { a ^ b }

  /** The remainder of a message, `next` being what a byte does to the register. */
  function Remainder(next: bv8 -> bv8, start: bv8, data: seq<bv8>): bv8 {
    if data == [] then start else next(Xor(Remainder(next, start, data[..|data| - 1]), data[|data| - 1]))
  }

  const START: bv8 := 0xFF

  // ------------------------------------------------------------------------- the table

  function Row0(low: bv8): bv8 {
    if low == 0x0 then 0x00 else if low == 0x1 then 0x07 else if low == 0x2 then 0x0e else if low == 0x3 then 0x09 else
    if low == 0x4 then 0x1c else if low == 0x5 then 0x1b else if low == 0x6 then 0x12 else if low == 0x7 then 0x15 else
    if low == 0x8 then 0x38 else if low == 0x9 then 0x3f else if low == 0xa then 0x36 else if low == 0xb then 0x31 else
    if low == 0xc then 0x24 else if low == 0xd then 0x23 else if low == 0xe then 0x2a else 0x2d
  }

  function Row1(low: bv8): bv8 {
    if low == 0x0 then 0x70 else if low == 0x1 then 0x77 else if low == 0x2 then 0x7e else if low == 0x3 then 0x79 else
    if low == 0x4 then 0x6c else if low == 0x5 then 0x6b else if low == 0x6 then 0x62 else if low == 0x7 then 0x65 else
    if low == 0x8 then 0x48 else if low == 0x9 then 0x4f else if low == 0xa then 0x46 else if low == 0xb then 0x41 else
    if low == 0xc then 0x54 else if low == 0xd then 0x53 else if low == 0xe then 0x5a else 0x5d
  }

  function Row2(low: bv8): bv8 {
    if low == 0x0 then 0xe0 else if low == 0x1 then 0xe7 else if low == 0x2 then 0xee else if low == 0x3 then 0xe9 else
    if low == 0x4 then 0xfc else if low == 0x5 then 0xfb else if low == 0x6 then 0xf2 else if low == 0x7 then 0xf5 else
    if low == 0x8 then 0xd8 else if low == 0x9 then 0xdf else if low == 0xa then 0xd6 else if low == 0xb then 0xd1 else
    if low == 0xc then 0xc4 else if low == 0xd then 0xc3 else if low == 0xe then 0xca else 0xcd
  }

  function Row3(low: bv8): bv8 {
    if low == 0x0 then 0x90 else if low == 0x1 then 0x97 else if low == 0x2 then 0x9e else if low == 0x3 then 0x99 else
    if low == 0x4 then 0x8c else if low == 0x5 then 0x8b else if low == 0x6 then 0x82 else if low == 0x7 then 0x85 else
    if low == 0x8 then 0xa8 else if low == 0x9 then 0xaf else if low == 0xa then 0xa6 else if low == 0xb then 0xa1 else
    if low == 0xc then 0xb4 else if low == 0xd then 0xb3 else if low == 0xe then 0xba else 0xbd
  }

  function Row4(low: bv8): bv8 {
    if low == 0x0 then 0xc7 else if low == 0x1 then 0xc0 else if low == 0x2 then 0xc9 else if low == 0x3 then 0xce else
    if low == 0x4 then 0xdb else if low == 0x5 then 0xdc else if low == 0x6 then 0xd5 else if low == 0x7 then 0xd2 else
    if low == 0x8 then 0xff else if low == 0x9 then 0xf8 else if low == 0xa then 0xf1 else if low == 0xb then 0xf6 else
    if low == 0xc then 0xe3 else if low == 0xd then 0xe4 else if low == 0xe then 0xed else 0xea
  }

  function Row5(low: bv8): bv8 {
    if low == 0x0 then 0xb7 else if low == 0x1 then 0xb0 else if low == 0x2 then 0xb9 else if low == 0x3 then 0xbe else
    if low == 0x4 then 0xab else if low == 0x5 then 0xac else if low == 0x6 then 0xa5 else if low == 0x7 then 0xa2 else
    if low == 0x8 then 0x8f else if low == 0x9 then 0x88 else if low == 0xa then 0x81 else if low == 0xb then 0x86 else
    if low == 0xc then 0x93 else if low == 0xd then 0x94 else if low == 0xe then 0x9d else 0x9a
  }

  function Row6(low: bv8): bv8 {
    if low == 0x0 then 0x27 else if low == 0x1 then 0x20 else if low == 0x2 then 0x29 else if low == 0x3 then 0x2e else
    if low == 0x4 then 0x3b else if low == 0x5 then 0x3c else if low == 0x6 then 0x35 else if low == 0x7 then 0x32 else
    if low == 0x8 then 0x1f else if low == 0x9 then 0x18 else if low == 0xa then 0x11 else if low == 0xb then 0x16 else
    if low == 0xc then 0x03 else if low == 0xd then 0x04 else if low == 0xe then 0x0d else 0x0a
  }

  function Row7(low: bv8): bv8 {
    if low == 0x0 then 0x57 else if low == 0x1 then 0x50 else if low == 0x2 then 0x59 else if low == 0x3 then 0x5e else
    if low == 0x4 then 0x4b else if low == 0x5 then 0x4c else if low == 0x6 then 0x45 else if low == 0x7 then 0x42 else
    if low == 0x8 then 0x6f else if low == 0x9 then 0x68 else if low == 0xa then 0x61 else if low == 0xb then 0x66 else
    if low == 0xc then 0x73 else if low == 0xd then 0x74 else if low == 0xe then 0x7d else 0x7a
  }

  function Row8(low: bv8): bv8 {
    if low == 0x0 then 0x89 else if low == 0x1 then 0x8e else if low == 0x2 then 0x87 else if low == 0x3 then 0x80 else
    if low == 0x4 then 0x95 else if low == 0x5 then 0x92 else if low == 0x6 then 0x9b else if low == 0x7 then 0x9c else
    if low == 0x8 then 0xb1 else if low == 0x9 then 0xb6 else if low == 0xa then 0xbf else if low == 0xb then 0xb8 else
    if low == 0xc then 0xad else if low == 0xd then 0xaa else if low == 0xe then 0xa3 else 0xa4
  }

  function Row9(low: bv8): bv8 {
    if low == 0x0 then 0xf9 else if low == 0x1 then 0xfe else if low == 0x2 then 0xf7 else if low == 0x3 then 0xf0 else
    if low == 0x4 then 0xe5 else if low == 0x5 then 0xe2 else if low == 0x6 then 0xeb else if low == 0x7 then 0xec else
    if low == 0x8 then 0xc1 else if low == 0x9 then 0xc6 else if low == 0xa then 0xcf else if low == 0xb then 0xc8 else
    if low == 0xc then 0xdd else if low == 0xd then 0xda else if low == 0xe then 0xd3 else 0xd4
  }

  function Rowa(low: bv8): bv8 {
    if low == 0x0 then 0x69 else if low == 0x1 then 0x6e else if low == 0x2 then 0x67 else if low == 0x3 then 0x60 else
    if low == 0x4 then 0x75 else if low == 0x5 then 0x72 else if low == 0x6 then 0x7b else if low == 0x7 then 0x7c else
    if low == 0x8 then 0x51 else if low == 0x9 then 0x56 else if low == 0xa then 0x5f else if low == 0xb then 0x58 else
    if low == 0xc then 0x4d else if low == 0xd then 0x4a else if low == 0xe then 0x43 else 0x44
  }

  function Rowb(low: bv8): bv8 {
    if low == 0x0 then 0x19 else if low == 0x1 then 0x1e else if low == 0x2 then 0x17 else if low == 0x3 then 0x10 else
    if low == 0x4 then 0x05 else if low == 0x5 then 0x02 else if low == 0x6 then 0x0b else if low == 0x7 then 0x0c else
    if low == 0x8 then 0x21 else if low == 0x9 then 0x26 else if low == 0xa then 0x2f else if low == 0xb then 0x28 else
    if low == 0xc then 0x3d else if low == 0xd then 0x3a else if low == 0xe then 0x33 else 0x34
  }

  function Rowc(low: bv8): bv8 {
    if low == 0x0 then 0x4e else if low == 0x1 then 0x49 else if low == 0x2 then 0x40 else if low == 0x3 then 0x47 else
    if low == 0x4 then 0x52 else if low == 0x5 then 0x55 else if low == 0x6 then 0x5c else if low == 0x7 then 0x5b else
    if low == 0x8 then 0x76 else if low == 0x9 then 0x71 else if low == 0xa then 0x78 else if low == 0xb then 0x7f else
    if low == 0xc then 0x6a else if low == 0xd then 0x6d else if low == 0xe then 0x64 else 0x63
  }

  function Rowd(low: bv8): bv8 {
    if low == 0x0 then 0x3e else if low == 0x1 then 0x39 else if low == 0x2 then 0x30 else if low == 0x3 then 0x37 else
    if low == 0x4 then 0x22 else if low == 0x5 then 0x25 else if low == 0x6 then 0x2c else if low == 0x7 then 0x2b else
    if low == 0x8 then 0x06 else if low == 0x9 then 0x01 else if low == 0xa then 0x08 else if low == 0xb then 0x0f else
    if low == 0xc then 0x1a else if low == 0xd then 0x1d else if low == 0xe then 0x14 else 0x13
  }

  function Rowe(low: bv8): bv8 {
    if low == 0x0 then 0xae else if low == 0x1 then 0xa9 else if low == 0x2 then 0xa0 else if low == 0x3 then 0xa7 else
    if low == 0x4 then 0xb2 else if low == 0x5 then 0xb5 else if low == 0x6 then 0xbc else if low == 0x7 then 0xbb else
    if low == 0x8 then 0x96 else if low == 0x9 then 0x91 else if low == 0xa then 0x98 else if low == 0xb then 0x9f else
    if low == 0xc then 0x8a else if low == 0xd then 0x8d else if low == 0xe then 0x84 else 0x83
  }

  function Rowf(low: bv8): bv8 {
    if low == 0x0 then 0xde else if low == 0x1 then 0xd9 else if low == 0x2 then 0xd0 else if low == 0x3 then 0xd7 else
    if low == 0x4 then 0xc2 else if low == 0x5 then 0xc5 else if low == 0x6 then 0xcc else if low == 0x7 then 0xcb else
    if low == 0x8 then 0xe6 else if low == 0x9 then 0xe1 else if low == 0xa then 0xe8 else if low == 0xb then 0xef else
    if low == 0xc then 0xfa else if low == 0xd then 0xfd else if low == 0xe then 0xf4 else 0xf3
  }

  function CrcTable(i: bv8): bv8 {
    var high, low := i >> 4, i & 0x0F;
    if high == 0x0 then Row0(low) else
    if high == 0x1 then Row1(low) else
    if high == 0x2 then Row2(low) else
    if high == 0x3 then Row3(low) else
    if high == 0x4 then Row4(low) else
    if high == 0x5 then Row5(low) else
    if high == 0x6 then Row6(low) else
    if high == 0x7 then Row7(low) else
    if high == 0x8 then Row8(low) else
    if high == 0x9 then Row9(low) else
    if high == 0xa then Rowa(low) else
    if high == 0xb then Rowb(low) else
    if high == 0xc then Rowc(low) else
    if high == 0xd then Rowd(low) else
    if high == 0xe then Rowe(low) else
    Rowf(low)
  }

  lemma {:induction false} Row0IsEightSteps(low: bv8)
    requires low <= 0xf
    ensures Row0(low) == Shift8(TABLE_POLY, 0x00 | low)
  {
  }

  lemma {:induction false} Row1IsEightSteps(low: bv8)
    requires low <= 0xf
    ensures Row1(low) == Shift8(TABLE_POLY, 0x10 | low)
  {
  }

  lemma {:induction false} Row2IsEightSteps(low: bv8)
    requires low <= 0xf
    ensures Row2(low) == Shift8(TABLE_POLY, 0x20 | low)
  {
  }

  lemma {:induction false} Row3IsEightSteps(low: bv8)
    requires low <= 0xf
    ensures Row3(low) == Shift8(TABLE_POLY, 0x30 | low)
  {
  }

  lemma {:induction false} Row4IsEightSteps(low: bv8)
    requires low <= 0xf
    ensures Row4(low) == Shift8(TABLE_POLY, 0x40 | low)
  {
  }

  lemma {:induction false} Row5IsEightSteps(low: bv8)
    requires low <= 0xf
    ensures Row5(low) == Shift8(TABLE_POLY, 0x50 | low)
  {
  }

  lemma {:induction false} Row6IsEightSteps(low: bv8)
    requires low <= 0xf
    ensures Row6(low) == Shift8(TABLE_POLY, 0x60 | low)
  {
  }

  lemma {:induction false} Row7IsEightSteps(low: bv8)
    requires low <= 0xf
    ensures Row7(low) == Shift8(TABLE_POLY, 0x70 | low)
  {
  }

  lemma {:induction false} Row8IsEightSteps(low: bv8)
    requires low <= 0xf
    ensures Row8(low) == Shift8(TABLE_POLY, 0x80 | low)
  {
  }

  lemma {:induction false} Row9IsEightSteps(low: bv8)
    requires low <= 0xf
    ensures Row9(low) == Shift8(TABLE_POLY, 0x90 | low)
  {
  }

  lemma {:induction false} RowaIsEightSteps(low: bv8)
    requires low <= 0xf
    ensures Rowa(low) == Shift8(TABLE_POLY, 0xa0 | low)
  {
  }

  lemma {:induction false} RowbIsEightSteps(low: bv8)
    requires low <= 0xf
    ensures Rowb(low) == Shift8(TABLE_POLY, 0xb0 | low)
  {
  }

  lemma {:induction false} RowcIsEightSteps(low: bv8)
    requires low <= 0xf
    ensures Rowc(low) == Shift8(TABLE_POLY, 0xc0 | low)
  {
  }

  lemma {:induction false} RowdIsEightSteps(low: bv8)
    requires low <= 0xf
    ensures Rowd(low) == Shift8(TABLE_POLY, 0xd0 | low)
  {
  }

  lemma {:induction false} RoweIsEightSteps(low: bv8)
    requires low <= 0xf
    ensures Rowe(low) == Shift8(TABLE_POLY, 0xe0 | low)
  {
  }

  lemma {:induction false} RowfIsEightSteps(low: bv8)
    requires low <= 0xf
    ensures Rowf(low) == Shift8(TABLE_POLY, 0xf0 | low)
  {
  }

  lemma {:induction false} HalvesOf(i: bv8, high: bv8, low: bv8)
    requires high == i >> 4 && low == i & 0xf
    ensures high <= 0xf && low <= 0xf && i == (high << 4) | low
  {
  }

  /** Each entry is eight shift steps of polynomial 0x07. */
  lemma {:induction false} TableIsEightSteps(i: bv8)
    ensures CrcTable(i) == Shift8(TABLE_POLY, i)
  {
    var high, low := i >> 4, i & 0xf;
    HalvesOf(i, high, low);
    if high == 0x0 {
      Row0IsEightSteps(low);
    } else if high == 0x1 {
      Row1IsEightSteps(low);
    } else if high == 0x2 {
      Row2IsEightSteps(low);
    } else if high == 0x3 {
      Row3IsEightSteps(low);
    } else if high == 0x4 {
      Row4IsEightSteps(low);
    } else if high == 0x5 {
      Row5IsEightSteps(low);
    } else if high == 0x6 {
      Row6IsEightSteps(low);
    } else if high == 0x7 {
      Row7IsEightSteps(low);
    } else if high == 0x8 {
      Row8IsEightSteps(low);
    } else if high == 0x9 {
      Row9IsEightSteps(low);
    } else if high == 0xa {
      RowaIsEightSteps(low);
    } else if high == 0xb {
      RowbIsEightSteps(low);
    } else if high == 0xc {
      RowcIsEightSteps(low);
    } else if high == 0xd {
      RowdIsEightSteps(low);
    } else if high == 0xe {
      RoweIsEightSteps(low);
    } else {
      RowfIsEightSteps(low);
    }
  }

  // ------------------------------------------------------------------------- the loops

  lemma {:induction false} OneMoreByte(next: bv8 -> bv8, start: bv8, data: seq<bv8>, i: nat)
    requires i < |data|
    ensures Remainder(next, start, data[..i + 1]) == next(Xor(Remainder(next, start, data[..i]), data[i]))
  {
    assert data[..i + 1][..i] == data[..i];
  }

  /** crc8 with the table. */
  method Crc8Table(data: seq<bv8>) returns (crc: bv8)
    ensures crc == Remainder(ByteStep(TABLE_POLY), START, data)
  {
    crc := START;
    var i := 0;
    assert data[..0] == [];
    while i < |data|
      invariant 0 <= i <= |data| && crc == Remainder(ByteStep(TABLE_POLY), START, data[..i])
    {
      var index := crc ^ data[i];
      TableIsEightSteps(index);
      ByteStepIsShift8(TABLE_POLY, index);
      OneMoreByte(ByteStep(TABLE_POLY), START, data, i);
      crc := CrcTable(index);
      i := i + 1;
    }
    assert data[..|data|] == data;
  }

  function Shifts(poly: bv8, c: bv8, n: nat): bv8 {
    if n == 0 then c else Shift(poly, Shifts(poly, c, n - 1))
  }

  lemma {:induction false} EightShifts(poly: bv8, c: bv8)
    ensures Shifts(poly, c, 8) == Shift8(poly, c)
  {
    var c1 := Shift(poly, c);
    var c2 := Shift(poly, c1);
    var c3 := Shift(poly, c2);
    assert Shifts(poly, c, 0) == c;
    assert Shifts(poly, c, 1) == c1;
    assert Shifts(poly, c, 2) == c2;
    assert Shifts(poly, c, 3) == c3;
    assert Shifts(poly, c, 4) == Shift(poly, c3);
    assert Shifts(poly, c, 5) == Shift(poly, Shifts(poly, c, 4));
    assert Shifts(poly, c, 6) == Shift(poly, Shifts(poly, c, 5));
    assert Shifts(poly, c, 7) == Shift(poly, Shifts(poly, c, 6));
  }

  /** The inner loop of crc8 bit by bit. */
  method EightBits(whole: bv8) returns (crc: bv8)
    ensures crc == Shift8(LOOP_POLY, whole)
  {
    crc := whole;
    var j := 0;
    while j < 8
      invariant 0 <= j <= 8 && crc == Shifts(LOOP_POLY, whole, j)
    {
      if crc & 0x80 != 0 { crc := (crc << 1) ^ 0x31; } else { crc := crc << 1; }
      j := j + 1;
    }
    EightShifts(LOOP_POLY, whole);
  }

  /** crc8 bit by bit, in an 8-bit register. */
  method Crc8Loop(data: seq<bv8>) returns (crc: bv8)
    ensures crc == Remainder(ByteStep(LOOP_POLY), START, data)
  {
    crc := START;
    var i := 0;
    assert data[..0] == [];
    while i < |data|
      invariant 0 <= i <= |data| && crc == Remainder(ByteStep(LOOP_POLY), START, data[..i])
    {
      OneMoreByte(ByteStep(LOOP_POLY), START, data, i);
      crc := crc ^ data[i];
      ByteStepIsShift8(LOOP_POLY, crc);
      crc := EightBits(crc);
      i := i + 1;
    }
    assert data[..|data|] == data;
  }

  // ------------------------------------------------------------- a wider accumulator

  function ShiftWide(c: bv32): bv32 {
    if c & 0x80 != 0 then (c << 1) ^ 0x31 else c << 1
  }

  function Low(c: bv32): bv8 { (c & 0xFF) as bv8 }

  lemma {:induction false} LowOfShift(c: bv32)
    ensures Low(ShiftWide(c)) == Shift(LOOP_POLY, Low(c))
  {
  }

  lemma {:induction false} LowOfXor(c: bv32, d: bv8)
    ensures Low(c ^ d as bv32) == Low(c) ^ d
  {
  }

  method EightBitsWide(whole: bv32) returns (crc: bv32)
    ensures Low(crc) == Shift8(LOOP_POLY, Low(whole))
  {
    crc := whole;
    var j := 0;
    while j < 8
      invariant 0 <= j <= 8 && Low(crc) == Shifts(LOOP_POLY, Low(whole), j)
    {
      LowOfShift(crc);
      crc := ShiftWide(crc);
      j := j + 1;
    }
    EightShifts(LOOP_POLY, Low(whole));
  }

  /** crc8 bit by bit in a 32-bit register, which is never cut before the end: the same. */
  method Crc8LoopWide(data: seq<bv8>) returns (result: bv8)
    ensures result == Remainder(ByteStep(LOOP_POLY), START, data)
  {
    var crc: bv32 := 0xFF;
    var i := 0;
    assert data[..0] == [];
    while i < |data|
      invariant 0 <= i <= |data| && Low(crc) == Remainder(ByteStep(LOOP_POLY), START, data[..i])
    {
      OneMoreByte(ByteStep(LOOP_POLY), START, data, i);
      LowOfXor(crc, data[i]);
      crc := crc ^ data[i] as bv32;
      ByteStepIsShift8(LOOP_POLY, Low(crc));
      crc := EightBitsWide(crc);
      i := i + 1;
    }
    assert data[..|data|] == data;
    result := Low(crc);
  }
}
