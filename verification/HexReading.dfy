/** Which HEX texts are read, and what of them, whoever wrote them: in terms of the characters of their
    lines (util/uf2conv.py:168-200). */
module HexReading {
  import opened Uf2Format
  import opened IntelHex
  import opened Sequences

  // ---------------------------------------------------------------- what a text says

  const LOWER := "0123456789abcdef"
  const UPPER := "0123456789ABCDEF"

  /** `c` is the hexadecimal digit for `v`, in either case. */
  predicate IsDigitFor(c: char, v: int) { 0 <= v < 16 && (c == LOWER[v] || c == UPPER[v]) }

  /** What may stand in for one digit of a pair. */
  predicate IsBlank(c: char) { c == '\r' || c == '\n' }

  /** Two characters are a byte: two digits, or one and a blank on either side. */
  predicate IsByte(a: char, b: char, v: byte) {
    || (IsDigitFor(a, v / 16) && IsDigitFor(b, v % 16))
    || (IsDigitFor(a, v) && IsBlank(b))
    || (IsBlank(a) && IsDigitFor(b, v))
  }

  /** The line has these bytes behind its first character; a last character without a partner is not read. */
  predicate Spells(line: string, rec: seq<byte>) {
    && line != "" && |rec| == (|line| - 1) / 2
    && forall i | 0 <= i < |rec| :: IsByte(line[2 * i + 1], line[2 * i + 2], rec[i])
  }

  /** What a line comes to. */
  datatype Line = Empty | Remark | Record(bytes: seq<byte>) | Garbled

  ghost predicate Says(line: string, l: Line) {
    match l
    case Empty => line == ""
    case Remark => line != "" && line[0] != ':'
    case Record(bytes) => line != "" && line[0] == ':' && Spells(line, bytes)
    case Garbled => line != "" && line[0] == ':' && forall bytes :: !Spells(line, bytes)
  }

  ghost predicate AllSay(lines: seq<string>, ls: seq<Line>) {
    |lines| == |ls| && forall i | 0 <= i < |ls| :: Says(lines[i], ls[i])
  }

  /** Byte 3 is the type of a record, and the extended addresses need two bytes more. */
  predicate LongEnough(rec: seq<byte>) { |rec| > 3 && (rec[3] == 2 || rec[3] == 4 ==> |rec| > 5) }

  /** Remarks are passed over; empty lines fail. */
  predicate IsSound(l: Line) { l.Remark? || (l.Record? && LongEnough(l.bytes)) }

  predicate IsOfType(l: Line, n: byte) { l.Record? && |l.bytes| > 3 && l.bytes[3] == n }

  /** All lines up to the first end-of-file record are sound. */
  predicate AllSound(ls: seq<Line>) {
    ls == [] || (IsSound(ls[0]) && (IsOfType(ls[0], 1) || AllSound(ls[1..])))
  }

  /** These bytes from this address on. */
  function Put(at: nat, data: seq<byte>): seq<Write>
    decreases |data|
  {
    if data == [] then [] else [Write(at, data[0])] + Put(at + 1, data[1..])
  }

  function Word16(rec: seq<byte>, i: nat): nat
    requires i + 1 < |rec|
  {
    256 * rec[i] as int + rec[i + 1]
  }

  /** What the line makes of the base address. */
  function NextBase(l: Line, base: nat): nat {
    if !IsSound(l) then base
    else if IsOfType(l, 4) then 65536 * Word16(l.bytes, 4)
    else if IsOfType(l, 2) then 16 * Word16(l.bytes, 4)
    else base
  }

  /** The bytes of a data record but its first four and its last, the checksum. */
  function Puts(l: Line, base: nat): seq<Write> {
    if IsOfType(l, 0) && |l.bytes| > 5 then Put(base + Word16(l.bytes, 1), l.bytes[4..|l.bytes| - 1]) else []
  }

  /** All that the lines write, up to the first end-of-file record. */
  function Written(ls: seq<Line>, base: nat): seq<Write> {
    if ls == [] || IsOfType(ls[0], 1) then []
    else Puts(ls[0], base) + Written(ls[1..], NextBase(ls[0], base))
  }

  /** The address of the first data record before it. */
  function FirstAddress(ls: seq<Line>, base: nat): Option<int> {
    if ls == [] || IsOfType(ls[0], 1) then None
    else if IsOfType(ls[0], 0) then Some(base + Word16(ls[0].bytes, 1))
    else FirstAddress(ls[1..], NextBase(ls[0], base))
  }

  // ------------------------------------------------------------------------ one line

  lemma {:induction false} DigitsAreDigits(c: char)
    ensures IsHexDigit(c) ==> IsDigitFor(c, DigitValue(c))
    ensures forall v | IsDigitFor(c, v) :: IsHexDigit(c) && DigitValue(c) == v
    ensures IsBlank(c) ==> !IsHexDigit(c)
  {
  }

  lemma {:induction false} PairIsByteExactlyWhen(a: char, b: char, v: byte)
    ensures ParsePair(a, b) == Some(v) <==> IsByte(a, b, v)
  {
    DigitsAreDigits(a);
    DigitsAreDigits(b);
    if IsHexDigit(a) && IsHexDigit(b) { TwoDigits(DigitValue(a), DigitValue(b), v); }
  }

  lemma {:induction false} TwoDigits(x: nat, y: nat, v: byte)
    requires x < 16 && y < 16
    ensures 16 * x + y == v <==> x == v / 16 && y == v % 16
  {
  }

  /** The texts that are taken for HEX consist of digits in either case, colons and blanks. */
  lemma {:induction false} IsHexTextExactlyWhen(buf: string)
    ensures IsHexText(buf) <==> forall c | c in buf :: (exists v :: IsDigitFor(c, v)) || c == ':' || IsBlank(c)
  {
    forall i | 0 <= i < |buf| ensures IsHexDigit(buf[i]) <==> exists v :: IsDigitFor(buf[i], v) {
      DigitsAreDigits(buf[i]);
    }
    if forall c | c in buf :: (exists v :: IsDigitFor(c, v)) || c == ':' || IsBlank(c) {
      forall i | 0 <= i < |buf| ensures IsHexDigit(buf[i]) || buf[i] in ":\r\n" { assert buf[i] in buf; }
    }
  }

  /** The pairs from the one at `2 * k + 1` on. */
  predicate SpellsFrom(line: string, k: nat, rec: seq<byte>) {
    && line != "" && k + |rec| == (|line| - 1) / 2
    && forall i | 0 <= i < |rec| :: IsByte(line[2 * (k + i) + 1], line[2 * (k + i) + 2], rec[i])
  }

  lemma {:induction false} PairsSpellExactlyWhen(line: string, k: nat, rec: seq<byte>)
    requires line != "" && k <= (|line| - 1) / 2
    ensures ParsePairs(line, 2 * k + 1) == Some(rec) <==> SpellsFrom(line, k, rec)
    decreases |line| - k
  {
    if 2 * k + 2 >= |line| {
      assert SpellsFrom(line, k, rec) <==> rec == [];
    } else {
      if rec != [] {
        PairIsByteExactlyWhen(line[2 * k + 1], line[2 * k + 2], rec[0]);
        PairsSpellExactlyWhen(line, k + 1, rec[1..]);
        FirstOfPairs(line, k, rec);
        assert [rec[0]] + rec[1..] == rec;
      }
    }
  }

  lemma {:induction false} FirstOfPairs(line: string, k: nat, rec: seq<byte>)
    requires rec != [] && line != "" && 2 * k + 2 < |line|
    ensures SpellsFrom(line, k, rec)
       <==> IsByte(line[2 * k + 1], line[2 * k + 2], rec[0]) && SpellsFrom(line, k + 1, rec[1..])
  {
    if IsByte(line[2 * k + 1], line[2 * k + 2], rec[0]) && SpellsFrom(line, k + 1, rec[1..]) {
      forall i | 0 <= i < |rec| ensures IsByte(line[2 * (k + i) + 1], line[2 * (k + i) + 2], rec[i]) {
        if i > 0 { assert rec[i] == rec[1..][i - 1]; }
      }
    }
    if SpellsFrom(line, k, rec) {
      forall i | 0 <= i < |rec[1..]|
        ensures IsByte(line[2 * (k + 1 + i) + 1], line[2 * (k + 1 + i) + 2], rec[1..][i])
      {
        assert rec[1..][i] == rec[i + 1];
      }
    }
  }

  lemma {:induction false} LineSpellsExactlyWhen(line: string, rec: seq<byte>)
    requires line != ""
    ensures ParsePairs(line, 1) == Some(rec) <==> Spells(line, rec)
  {
    PairsSpellExactlyWhen(line, 0, rec);
  }

  lemma {:induction false} PutIsDataWrites(at: nat, data: seq<byte>)
    ensures Put(at, data) == DataWrites(at, data)
    decreases |data|
  {
    if data != [] {
      PutIsDataWrites(at + 1, data[1..]);
      assert DataWrites(at, data) == [Write(at, data[0])] + DataWrites(at + 1, data[1..]);
    }
  }

  /** Every line says one thing. */
  lemma {:induction false} LineSaysOneThing(line: string) returns (l: Line)
    ensures Says(line, l) && forall l' :: Says(line, l') ==> l' == l
  {
    if line == "" {
      l := Empty;
    } else if line[0] != ':' {
      l := Remark;
    } else {
      forall rec ensures ParsePairs(line, 1) == Some(rec) <==> Spells(line, rec) { LineSpellsExactlyWhen(line, rec); }
      l := if ParsePairs(line, 1).Some? then Record(ParsePairs(line, 1).value) else Garbled;
    }
  }

  /** The reader after a sound line. */
  function After(s: Hex, l: Line): Hex {
    Hex(NextBase(l, s.upper),
        if s.appStart.None? && IsOfType(l, 0) then Some(s.upper + Word16(l.bytes, 1)) else s.appStart,
        s.writes + Puts(l, s.upper), s.ended || IsOfType(l, 1))
  }

  lemma {:induction false} RecordIsRead(s: Hex, rec: seq<byte>)
    requires !s.ended
    ensures ReadRecord(s, rec) == if IsSound(Record(rec)) then Some(After(s, Record(rec))) else None
  {
    if |rec| > 5 && rec[3] == 0 { PutIsDataWrites(s.upper + Word16(rec, 1), rec[4..|rec| - 1]); }
    assert s.writes + [] == s.writes;
  }

  lemma {:induction false} LineIsRead(s: Hex, line: string, l: Line)
    requires !s.ended && Says(line, l)
    ensures ReadLine(s, line) == if IsSound(l) then Some(After(s, l)) else None
  {
    match l {
      case Record(rec) =>
        LineSpellsExactlyWhen(line, rec);
        RecordIsRead(s, rec);
      case Garbled =>
        if ParsePairs(line, 1).Some? { LineSpellsExactlyWhen(line, ParsePairs(line, 1).value); }
      case Empty =>
      case Remark => assert s.writes + [] == s.writes;
    }
  }

  // ----------------------------------------------------------------------- whole texts

  /** What has been read of the lines. */
  ghost predicate IsReadAs(s: Hex, ls: seq<Line>, o: Option<Hex>) {
    && (o.Some? <==> AllSound(ls))
    && (o.Some? ==>
          && o.value.writes == s.writes + Written(ls, s.upper)
          && o.value.appStart == if s.appStart.Some? then s.appStart else FirstAddress(ls, s.upper))
  }

  lemma {:induction false} OneMoreLine(s: Hex, ls: seq<Line>, o: Option<Hex>)
    requires ls != [] && IsSound(ls[0]) && !IsOfType(ls[0], 1) && IsReadAs(After(s, ls[0]), ls[1..], o)
    ensures IsReadAs(s, ls, o)
  {
    Reassociate(s.writes, Puts(ls[0], s.upper), Written(ls[1..], NextBase(ls[0], s.upper)));
  }

  lemma {:induction false} LastLine(s: Hex, ls: seq<Line>)
    requires ls == [] || (IsSound(ls[0]) && IsOfType(ls[0], 1))
    ensures IsReadAs(s, ls, Some(if ls == [] then s else After(s, ls[0])))
  {
    assert s.writes + [] == s.writes;
  }

  lemma {:induction false} LinesAreRead(s: Hex, lines: seq<string>, ls: seq<Line>)
    requires AllSay(lines, ls) && !s.ended
    ensures IsReadAs(s, ls, ReadLines(s, lines))
    decreases |lines|
  {
    if lines == [] {
      LastLine(s, ls);
    } else {
      LineIsRead(s, lines[0], ls[0]);
      if IsSound(ls[0]) {
        if IsOfType(ls[0], 1) {
          LastLine(s, ls);
        } else {
          LinesAreRead(After(s, ls[0]), lines[1..], ls[1..]);
          OneMoreLine(s, ls, ReadLines(After(s, ls[0]), lines[1..]));
        }
      }
    }
  }

  /** A text, each line of which says what it says, is read exactly when all lines up to the first end-of-file
      record are sound; and then what is written, and the start address, are what these lines say. */
  lemma {:induction false} TextIsReadExactlyWhen(buf: string, ls: seq<Line>)
    requires AllSay(Split(buf), ls)
    ensures ReadHex(buf).Some? <==> AllSound(ls)
    ensures AllSound(ls) ==>
      ReadHex(buf).value.writes == Written(ls, 0) && ReadHex(buf).value.appStart == FirstAddress(ls, 0)
  {
    LinesAreRead(NOTHING_READ, Split(buf), ls);
  }

  /** The lines are the text, cut at its newlines. */
  function Joined(lines: seq<string>): string
    requires lines != []
  {
    if |lines| == 1 then lines[0] else lines[0] + "\n" + Joined(lines[1..])
  }

  lemma {:induction false} LinesJoinToText(buf: string)
    ensures Joined(Split(buf)) == buf
    ensures forall i | 0 <= i < |Split(buf)| :: '\n' !in Split(buf)[i]
    decreases |buf|
  {
    if buf != "" {
      LinesJoinToText(buf[1..]);
      var rest := Split(buf[1..]);
      if buf[0] == '\n' {
        assert Split(buf)[1..] == rest;
      } else {
        assert Split(buf)[1..] == rest[1..];
        if |rest| > 1 {
          var more := Joined(rest[1..]);
          assert [buf[0]] + rest[0] + "\n" + more == [buf[0]] + (rest[0] + "\n" + more);
        }
      }
    }
  }
}
