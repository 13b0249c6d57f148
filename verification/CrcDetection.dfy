/** What CRC-8 guarantees (quantum/crc.c). */
module CrcDetection {
  import opened Crc8

  // ------------------------------------------------------------------------ linearity

  ghost predicate Linear(next: bv8 -> bv8) {
    forall a, b {:trigger next(Xor(a, b))} :: next(Xor(a, b)) == Xor(next(a), next(b))
  }

  lemma {:induction false} ShiftLinear(poly: bv8, a: bv8, b: bv8)
    ensures Shift(poly, Xor(a, b)) == Xor(Shift(poly, a), Shift(poly, b))
  {
    assert (a ^ b) << 1 == (a << 1) ^ (b << 1);
    TopBit(a, b);
    XorTwice(a << 1, b << 1, poly);
  }

  lemma {:induction false} TopBit(a: bv8, b: bv8)
    ensures (a ^ b) & 0x80 != 0 <==> (a & 0x80 != 0) != (b & 0x80 != 0)
  {
  }

  lemma {:induction false} XorTwice(a: bv8, b: bv8, p: bv8)
    ensures (a ^ p) ^ b == (a ^ b) ^ p && a ^ (b ^ p) == (a ^ b) ^ p && (a ^ p) ^ (b ^ p) == a ^ b
  {
  }

  lemma {:induction false} TwiceLinear(f: bv8 -> bv8)
    requires Linear(f)
    ensures Linear(Twice(f))
  {
    forall a, b ensures Twice(f)(Xor(a, b)) == Xor(Twice(f)(a), Twice(f)(b)) {
      assert f(Xor(a, b)) == Xor(f(a), f(b));
      assert f(Xor(f(a), f(b))) == Xor(f(f(a)), f(f(b)));
    }
  }

  lemma {:induction false} ByteStepLinear(poly: bv8)
    ensures Linear(ByteStep(poly))
  {
    var f := (c: bv8) => Shift(poly, c);
    forall a, b ensures f(Xor(a, b)) == Xor(f(a), f(b)) { ShiftLinear(poly, a, b); }
    TwiceLinear(f);
    TwiceLinear(Twice(f));
    TwiceLinear(Twice(Twice(f)));
  }

  function XorAll(x: seq<bv8>, y: seq<bv8>): (z: seq<bv8>)
    requires |x| == |y|
    ensures |z| == |x|
  {
    seq(|x|, i requires 0 <= i < |x| => Xor(x[i], y[i]))
  }

  lemma {:induction false} XorAssociates(a: bv8, b: bv8, c: bv8)
    ensures Xor(Xor(a, b), c) == Xor(a, Xor(b, c))
  {
  }

  lemma {:induction false} XorCommutes(a: bv8, b: bv8)
    ensures Xor(a, b) == Xor(b, a)
  {
  }

  lemma {:induction false} Shuffle(p: bv8, q: bv8, a: bv8, b: bv8)
    ensures Xor(Xor(p, q), Xor(a, b)) == Xor(Xor(p, a), Xor(q, b))
  {
    calc {
      Xor(Xor(p, q), Xor(a, b));
    == { XorAssociates(p, q, Xor(a, b)); }
      Xor(p, Xor(q, Xor(a, b)));
    == { XorAssociates(q, a, b); XorCommutes(q, a); }
      Xor(p, Xor(Xor(a, q), b));
    == { XorAssociates(a, q, b); }
      Xor(p, Xor(a, Xor(q, b)));
    == { XorAssociates(p, a, Xor(q, b)); }
      Xor(Xor(p, a), Xor(q, b));
    }
  }

  /** The remainder is linear in the start value and the message together. */
  lemma {:induction false} CrcXor(next: bv8 -> bv8, p: bv8, q: bv8, x: seq<bv8>, y: seq<bv8>)
    requires Linear(next) && |x| == |y|
    ensures Remainder(next, Xor(p, q), XorAll(x, y)) == Xor(Remainder(next, p, x), Remainder(next, q, y))
  {
    if x != [] {
      var n := |x| - 1;
      var z := XorAll(x, y);
      CrcXor(next, p, q, x[..n], y[..n]);
      assert z[..n] == XorAll(x[..n], y[..n]);
      LinearStep(next, Remainder(next, p, x[..n]), Remainder(next, q, y[..n]), x[n], y[n]);
    }
  }

  lemma {:induction false} LinearStep(next: bv8 -> bv8, cx: bv8, cy: bv8, a: bv8, b: bv8)
    requires Linear(next)
    ensures next(Xor(Xor(cx, cy), Xor(a, b))) == Xor(next(Xor(cx, a)), next(Xor(cy, b)))
  {
    Shuffle(cx, cy, a, b);
    assert next(Xor(Xor(cx, a), Xor(cy, b))) == Xor(next(Xor(cx, a)), next(Xor(cy, b)));
  }

  /** So a fixed start value makes it affine: the checksum of a combination of three messages
      of one length is the combination of their checksums. */
  lemma {:induction false} Affine(poly: bv8, x: seq<bv8>, y: seq<bv8>, z: seq<bv8>)
    requires |x| == |y| == |z|
    ensures Remainder(ByteStep(poly), START, XorAll(XorAll(x, y), z))
         == Xor(Xor(Remainder(ByteStep(poly), START, x), Remainder(ByteStep(poly), START, y)),
           Remainder(ByteStep(poly), START, z))
  {
    ByteStepLinear(poly);
    CrcXor(ByteStep(poly), START, START, x, y);
    CrcXor(ByteStep(poly), Xor(START, START), START, XorAll(x, y), z);
    assert Xor(Xor(START, START), START) == START;
  }

  // --------------------------------------------------------------------- short bursts

  /** A byte step loses nothing: only zero becomes zero. */
  ghost predicate KeepsNonZero(next: bv8 -> bv8) {
    next(0) == 0 && forall c | c != 0 :: next(c) != 0
  }

  /** Two bytes hold the 8-bit window `w`, the first its bits from `8 - s` up. */
  predicate Window(s: nat, w: bv8, first: bv8, second: bv8)
    requires s <= 8
  {
    first == w >> (8 - s) && second == w << s
  }

  /** The two polynomials of the source. */
  predicate Known(poly: bv8) { poly == TABLE_POLY || poly == LOOP_POLY }

  lemma {:induction false} StepKeepsNonZero(poly: bv8)
    requires Known(poly)
    ensures KeepsNonZero(ByteStep(poly))
  {
    ByteStepIsShift8(poly, 0);
    forall c: bv8 | c != 0 ensures ByteStep(poly)(c) != 0 {
      ByteStepIsShift8(poly, c);
      if poly == TABLE_POLY { assert Shift8(0x07, c) != 0; } else { assert Shift8(0x31, c) != 0; }
    }
  }

  lemma {:induction false} WindowSurvives(poly: bv8, s: nat, w: bv8, first: bv8, second: bv8)
    requires Known(poly) && s <= 8 && w != 0 && Window(s, w, first, second)
    ensures Xor(ByteStep(poly)(first), second) != 0
  {
    ByteStepIsShift8(poly, first);
    if poly == TABLE_POLY { TableWindow(s, w, first, second); } else { LoopWindow(s, w, first, second); }
  }

  lemma {:induction false} TableWindow(s: nat, w: bv8, first: bv8, second: bv8)
    requires s <= 8 && w != 0 && Window(s, w, first, second)
    ensures Shift8(0x07, first) ^ second != 0
  {
    match s {
      case 0 => case 1 => case 2 => case 3 => case 4 => case 5 => case 6 => case 7 => case _ =>
    }
  }

  lemma {:induction false} LoopWindow(s: nat, w: bv8, first: bv8, second: bv8)
    requires s <= 8 && w != 0 && Window(s, w, first, second)
    ensures Shift8(0x31, first) ^ second != 0
  {
    match s {
      case 0 => case 1 => case 2 => case 3 => case 4 => case 5 => case 6 => case 7 => case _ =>
    }
  }

  /** A non-zero remainder stays non-zero over zero bytes. */
  lemma {:induction false} ZerosKeepNonZero(next: bv8 -> bv8, start: bv8, zeros: seq<bv8>)
    requires KeepsNonZero(next) && forall i | 0 <= i < |zeros| :: zeros[i] == 0
    ensures Remainder(next, start, zeros) == 0 <==> start == 0
  {
    if zeros != [] {
      var n := |zeros| - 1;
      ZerosKeepNonZero(next, start, zeros[..n]);
      XorZero(Remainder(next, start, zeros[..n]));
    }
  }

  lemma {:induction false} XorZero(c: bv8)
    ensures Xor(c, 0) == c && Xor(0, c) == c
  {
  }

  lemma {:induction false} RemainderConcat(next: bv8 -> bv8, start: bv8, a: seq<bv8>, b: seq<bv8>)
    ensures Remainder(next, start, a + b) == Remainder(next, Remainder(next, start, a), b)
    decreases |b|
  {
    if b == [] {
      assert a + b == a;
    } else {
      var n := |b| - 1;
      assert (a + b)[..|a| + n] == a + b[..n] && (a + b)[|a| + n] == b[n];
      RemainderConcat(next, start, a, b[..n]);
    }
  }

  /** `e` is zero but for an 8-bit window, not all zero, at byte `k` and the next. */
  predicate Burst(e: seq<bv8>, k: nat, s: nat, w: bv8) {
    && s <= 8 && w != 0 && k + 1 < |e| && Window(s, w, e[k], e[k + 1])
    && forall i | 0 <= i < |e| && i != k && i != k + 1 :: e[i] == 0
  }

  lemma {:induction false} RemainderOfTwo(next: bv8 -> bv8, a: bv8, b: bv8)
    ensures Remainder(next, 0, [a, b]) == next(Xor(next(a), b))
  {
    assert [a, b][..1] == [a] && [a][..0] == [];
    XorZero(a);
    assert Remainder(next, 0, [a]) == next(Xor(0, a));
  }

  /** Two bytes that leave something, between zeros, leave something at the end. */
  lemma {:induction false} TwoBytesSurvive(next: bv8 -> bv8, e: seq<bv8>, k: nat)
    requires KeepsNonZero(next) && k + 1 < |e| && Xor(next(e[k]), e[k + 1]) != 0
    requires forall i | 0 <= i < |e| && i != k && i != k + 1 :: e[i] == 0
    ensures Remainder(next, 0, e) != 0
  {
    var before, two, after := e[..k], [e[k], e[k + 1]], e[k + 2..];
    assert e == before + two + after;
    ZerosKeepNonZero(next, 0, before);
    RemainderConcat(next, 0, before, two);
    RemainderConcat(next, 0, before + two, after);
    RemainderOfTwo(next, e[k], e[k + 1]);
    ZerosKeepNonZero(next, Remainder(next, 0, before + two), after);
  }

  lemma {:induction false} OneByteSurvives(next: bv8 -> bv8, e: seq<bv8>, k: nat)
    requires KeepsNonZero(next) && k < |e| && e[k] != 0
    requires forall i | 0 <= i < |e| && i != k :: e[i] == 0
    ensures Remainder(next, 0, e) != 0
  {
    var before, one, after := e[..k], [e[k]], e[k + 1..];
    assert e == before + one + after;
    ZerosKeepNonZero(next, 0, before);
    RemainderConcat(next, 0, before, one);
    RemainderConcat(next, 0, before + one, after);
    assert one[..0] == [];
    XorZero(e[k]);
    ZerosKeepNonZero(next, Remainder(next, 0, before + one), after);
  }

  lemma {:induction false} BurstHasRemainder(poly: bv8, e: seq<bv8>, k: nat, s: nat, w: bv8)
    requires Known(poly) && Burst(e, k, s, w)
    ensures Remainder(ByteStep(poly), 0, e) != 0
  {
    StepKeepsNonZero(poly);
    WindowSurvives(poly, s, w, e[k], e[k + 1]);
    TwoBytesSurvive(ByteStep(poly), e, k);
  }

  lemma {:induction false} NotEqual(a: bv8, b: bv8)
    ensures Xor(a, b) == 0 <==> a == b
  {
  }

  /** Messages whose difference leaves a remainder have different checksums, and only those. */
  lemma {:induction false} DifferExactlyWhen(next: bv8 -> bv8, x: seq<bv8>, y: seq<bv8>)
    requires Linear(next) && |x| == |y|
    ensures Remainder(next, START, x) != Remainder(next, START, y) <==> Remainder(next, 0, XorAll(x, y)) != 0
  {
    CrcXor(next, START, START, x, y);
    assert Xor(START, START) == 0;
    NotEqual(Remainder(next, START, x), Remainder(next, START, y));
  }

  /** No two messages that differ in a burst of at most eight bits have the same checksum. */
  lemma {:induction false} BurstsAreDetected(poly: bv8, x: seq<bv8>, y: seq<bv8>, k: nat, s: nat, w: bv8)
    requires Known(poly) && |x| == |y| && Burst(XorAll(x, y), k, s, w)
    ensures Remainder(ByteStep(poly), START, x) != Remainder(ByteStep(poly), START, y)
  {
    ByteStepLinear(poly);
    BurstHasRemainder(poly, XorAll(x, y), k, s, w);
    DifferExactlyWhen(ByteStep(poly), x, y);
  }

  lemma {:induction false} OneByteLeavesSomething(next: bv8 -> bv8, x: seq<bv8>, y: seq<bv8>, k: nat)
    requires KeepsNonZero(next) && |x| == |y| && k < |x| && x[k] != y[k]
    requires forall i | 0 <= i < |x| && i != k :: x[i] == y[i]
    ensures Remainder(next, 0, XorAll(x, y)) != 0
  {
    var e := XorAll(x, y);
    forall i | 0 <= i < |e| && i != k ensures e[i] == 0 { NotEqual(x[i], y[i]); }
    NotEqual(x[k], y[k]);
    OneByteSurvives(next, e, k);
  }

  /** Nor have two that differ in one byte only, be it the last. */
  lemma {:induction false} OneByteIsDetected(poly: bv8, x: seq<bv8>, y: seq<bv8>, k: nat)
    requires Known(poly) && |x| == |y| && k < |x| && x[k] != y[k]
    requires forall i | 0 <= i < |x| && i != k :: x[i] == y[i]
    ensures Remainder(ByteStep(poly), START, x) != Remainder(ByteStep(poly), START, y)
  {
    ByteStepLinear(poly);
    StepKeepsNonZero(poly);
    OneByteLeavesSomething(ByteStep(poly), x, y, k);
    DifferExactlyWhen(ByteStep(poly), x, y);
  }

  /** The byte steps of the two polynomials agree on two register values only. */
  lemma {:induction false} StepsAgreeExactlyWhen(c: bv8)
    ensures Shift8(TABLE_POLY, c) == Shift8(LOOP_POLY, c) <==> c == 0 || c == 0xED
  {
  }

  lemma {:induction false} RemainderOfOne(next: bv8 -> bv8, start: bv8, b: bv8)
    ensures Remainder(next, start, [b]) == next(Xor(start, b))
  {
    assert [b][..0] == [];
  }

  /** The two variants are different checksums: of the messages of one byte they agree on 0xFF and
      0x12 only. */
  lemma {:induction false} VariantsDiffer(b: bv8)
    ensures Remainder(ByteStep(TABLE_POLY), START, [b]) == Remainder(ByteStep(LOOP_POLY), START, [b])
       <==> b == 0xFF || b == 0x12
  {
    var c := Xor(START, b);
    RemainderOfOne(ByteStep(TABLE_POLY), START, b);
    RemainderOfOne(ByteStep(LOOP_POLY), START, b);
    ByteStepIsShift8(TABLE_POLY, c);
    ByteStepIsShift8(LOOP_POLY, c);
    StepsAgreeExactlyWhen(c);
    assert c == 0 <==> b == 0xFF;
    assert c == 0xED <==> b == 0x12;
  }
}
