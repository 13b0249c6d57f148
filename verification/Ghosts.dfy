/** Ghost keys in a matrix without diodes (quantum/keyboard.c:217-257). */
module Ghosts {
  import opened Arithmetic

  /** A keyboard: its sizes, the bits of a matrix row, and which places hold a key. */
  datatype Matrix = Matrix(rows: nat, cols: nat, width: nat, isKey: (nat, nat) -> bool) {
    predicate Valid() { cols <= width }
    predicate Fits(m: seq<nat>) { |m| == rows && forall i | 0 <= i < rows :: m[i] < Pow2(width) }
  }

  /** The real keys of a row's data, from column `col` on. */
  function RealFrom(k: Matrix, row: nat, data: nat, col: nat): nat
    requires col <= k.cols
    decreases k.cols - col
  {
    if col == k.cols then 0
    else (if k.isKey(row, col) && data % 2 == 1 then 1 else 0) + 2 * RealFrom(k, row, data / 2, col + 1)
  }

  function RealKeys(k: Matrix, row: nat, data: nat): nat { RealFrom(k, row, data, 0) }

  lemma {:induction false} RealFromBit(k: Matrix, row: nat, data: nat, col: nat, n: nat)
    requires col <= k.cols
    ensures Bit(RealFrom(k, row, data, col), n) == (col + n < k.cols && k.isKey(row, col + n) && Bit(data, n))
    decreases k.cols - col
  {
    if col == k.cols {
      ZeroBits(n);
    } else if n > 0 {
      assert RealFrom(k, row, data, col) / 2 == RealFrom(k, row, data / 2, col + 1);
      RealFromBit(k, row, data / 2, col + 1, n - 1);
    }
  }

  /** A real key is down. */
  predicate RealDown(k: Matrix, m: seq<nat>, row: nat, col: nat)
    requires row < |m|
  {
    col < k.cols && k.isKey(row, col) && Bit(m[row], col)
  }

  lemma {:induction false} RealKeysBit(k: Matrix, m: seq<nat>, row: nat, col: nat)
    requires row < |m|
    ensures Bit(RealKeys(k, row, m[row]), col) == RealDown(k, m, row, col)
  {
    RealFromBit(k, row, m[row], 0, col);
  }

  /** rowdata & (rowdata - 1), the subtraction wrapping at the width. */
  function ClearLowest(x: nat, width: nat): nat {
    And(x, if x == 0 then Pow2(width) - 1 else x - 1, width)
  }

  predicate MoreThanOne(x: nat, width: nat) { ClearLowest(x, width) != 0 }

  predicate TwoBits(x: nat, a: nat, b: nat) { a < b && Bit(x, a) && Bit(x, b) }

  /** The bit trick: something is left exactly when at least two bits are set. */
  lemma {:induction false} MoreThanOneIsTwoBits(x: nat, width: nat)
    requires x < Pow2(width)
    ensures MoreThanOne(x, width) <==> exists a: nat, b: nat :: TwoBits(x, a, b)
  {
    if x == 0 {
      forall a: nat ensures !Bit(x, a) { ZeroBits(a); }
      AndZero(Pow2(width) - 1, width);
    } else if x % 2 == 1 {
      assert (x - 1) / 2 == x / 2;
      AndSelf(x / 2, width - 1);
      if x / 2 > 0 {
        var b := SomeBit(x / 2, width - 1);
        assert Bit(x, b + 1);
        assert TwoBits(x, 0, b + 1);
      } else {
        forall a: nat, b: nat ensures !TwoBits(x, a, b) { if b > 0 { ZeroBits(b - 1); } }
      }
    } else {
      assert (x - 1) / 2 == x / 2 - 1;
      MoreThanOneIsTwoBits(x / 2, width - 1);
      if exists a: nat, b: nat :: TwoBits(x / 2, a, b) {
        var a: nat, b: nat :| TwoBits(x / 2, a, b);
        assert TwoBits(x, a + 1, b + 1);
      } else {
        forall a: nat, b: nat ensures !TwoBits(x, a, b) {
          if TwoBits(x, a, b) { assert TwoBits(x / 2, a - 1, b - 1); }
        }
      }
    }
  }

  lemma {:induction false} AndZero(b: nat, n: nat)
    ensures And(0, b, n) == 0
  {
  }

  lemma {:induction false} AndSelf(x: nat, n: nat)
    requires x < Pow2(n)
    ensures And(x, x, n) == x
  {
    if n > 0 { AndSelf(x / 2, n - 1); }
  }

  lemma {:induction false} SomeBit(x: nat, n: nat) returns (b: nat)
    requires 0 < x < Pow2(n)
    ensures Bit(x, b)
  {
    if x % 2 == 1 {
      b := 0;
    } else {
      var c := SomeBit(x / 2, n - 1);
      b := c + 1;
    }
  }

  // ------------------------------------------------------------------------- ghosts

  /** What has_ghost_in_row finds for a row of the scanned matrix. */
  predicate HasGhost(k: Matrix, m: seq<nat>, row: nat)
    requires row < |m|
  {
    MoreThanOne(RealKeys(k, row, m[row]), k.width)
    && exists i | 0 <= i < |m| && i != row ::
      MoreThanOne(And(RealKeys(k, i, m[i]), RealKeys(k, row, m[row]), k.width), k.width)
  }

  /** Two rows share two columns in which both hold a real key that is down. */
  predicate Share(k: Matrix, m: seq<nat>, i: nat, j: nat, a: nat, b: nat)
    requires i < |m| && j < |m|
  {
    a < b && RealDown(k, m, i, a) && RealDown(k, m, j, a) && RealDown(k, m, i, b) && RealDown(k, m, j, b)
  }

  lemma {:induction false} RealFits(k: Matrix, row: nat, data: nat, col: nat)
    requires k.Valid() && col <= k.cols
    ensures RealFrom(k, row, data, col) < Pow2(k.width - col)
    decreases k.cols - col
  {
    if col < k.cols { RealFits(k, row, data / 2, col + 1); }
  }

  lemma {:induction false} SharedBits(k: Matrix, m: seq<nat>, i: nat, row: nat)
    requires k.Valid() && i < |m| && row < |m|
    ensures MoreThanOne(And(RealKeys(k, i, m[i]), RealKeys(k, row, m[row]), k.width), k.width)
       <==> exists a: nat, b: nat :: Share(k, m, row, i, a, b)
  {
    var x, y := RealKeys(k, i, m[i]), RealKeys(k, row, m[row]);
    var z := And(x, y, k.width);
    RealFits(k, i, m[i], 0);
    MoreThanOneIsTwoBits(z, k.width);
    forall c: nat ensures Bit(z, c) == (RealDown(k, m, i, c) && RealDown(k, m, row, c)) {
      BitOfAnd(x, y, k.width, c);
      RealKeysBit(k, m, i, c);
      RealKeysBit(k, m, row, c);
    }
    if exists a: nat, b: nat :: TwoBits(z, a, b) {
      var a: nat, b: nat :| TwoBits(z, a, b);
      assert Share(k, m, row, i, a, b);
    }
    if exists a: nat, b: nat :: Share(k, m, row, i, a, b) {
      var a: nat, b: nat :| Share(k, m, row, i, a, b);
      assert TwoBits(z, a, b);
    }
  }

  /** A row has a ghost exactly when another row shares two of its real keys' columns. */
  lemma {:induction false} GhostExactlyWhenShared(k: Matrix, m: seq<nat>, row: nat)
    requires k.Valid() && row < |m|
    ensures HasGhost(k, m, row) <==> exists i: nat, a: nat, b: nat :: i < |m| && i != row && Share(k, m, row, i, a, b)
  {
    var y := RealKeys(k, row, m[row]);
    forall i: nat | i < |m| && i != row
      ensures MoreThanOne(And(RealKeys(k, i, m[i]), y, k.width), k.width) <==> exists a: nat, b: nat ::
        Share(k, m, row, i, a, b)
    {
      SharedBits(k, m, i, row);
    }
    RealFits(k, row, m[row], 0);
    MoreThanOneIsTwoBits(y, k.width);
    if exists i: nat, a: nat, b: nat :: i < |m| && i != row && Share(k, m, row, i, a, b) {
      var i: nat, a: nat, b: nat :| i < |m| && i != row && Share(k, m, row, i, a, b);
      RealKeysBit(k, m, row, a);
      RealKeysBit(k, m, row, b);
      assert TwoBits(y, a, b);
    }
  }

  /** Where one row has a ghost, so has the row it shares with. */
  lemma {:induction false} GhostsComeInPairs(k: Matrix, m: seq<nat>, row: nat) returns (other: nat)
    requires k.Valid() && row < |m| && HasGhost(k, m, row)
    ensures other < |m| && other != row && HasGhost(k, m, other)
  {
    GhostExactlyWhenShared(k, m, row);
    var i: nat, a: nat, b: nat :| i < |m| && i != row && Share(k, m, row, i, a, b);
    other := i;
    assert Share(k, m, other, row, a, b);
    GhostExactlyWhenShared(k, m, other);
  }

  // ----------------------------------------------------------------------- the loops

  method GetRealKeys(k: Matrix, row: nat, rowdata: nat) returns (out: nat)
    requires k.Valid()
    ensures out == RealKeys(k, row, rowdata)
  {
    out := 0;
    var col, mask, rest := 0, 1, rowdata;
    while col < k.cols
      invariant 0 <= col <= k.cols && mask == Pow2(col)
      invariant RealKeys(k, row, rowdata) == out + mask * RealFrom(k, row, rest, col)
    {
      ghost var more := RealFrom(k, row, rest / 2, col + 1);
      Doubled(mask, more);
      if k.isKey(row, col) && rest % 2 == 1 { out := out + mask; }
      col, mask, rest := col + 1, 2 * mask, rest / 2;
    }
  }

  lemma {:induction false} Doubled(mask: nat, x: nat)
    ensures mask * (2 * x) == 2 * mask * x && mask * (1 + 2 * x) == mask + 2 * mask * x
  {
  }

  method HasGhostInRow(k: Matrix, m: seq<nat>, row: nat) returns (ghosted: bool)
    requires k.Valid() && |m| == k.rows && row < k.rows
    ensures ghosted == HasGhost(k, m, row)
  {
    var rowdata := GetRealKeys(k, row, m[row]);
    if !MoreThanOne(rowdata, k.width) { return false; }
    var i := 0;
    while i < k.rows
      invariant 0 <= i <= k.rows
      invariant forall j | 0 <= j < i && j != row :: !MoreThanOne(And(RealKeys(k, j, m[j]), rowdata, k.width), k.width)
    {
      if i != row {
        var other := GetRealKeys(k, i, m[i]);
        if MoreThanOne(And(other, rowdata, k.width), k.width) { return true; }
      }
      i := i + 1;
    }
    return false;
  }
}
