/** Printing Intel HEX records as text and reading them back (util/uf2conv.py:174-200). */
module HexText {
  import opened Uf2Format
  import opened Uf2RoundTrip
  import opened Uf2Conv
  import opened IntelHex
  import opened HexImage

  type uint16 = x: int | 0 <= x < 0x1_0000

  // -------------------------------------------------------------- the reference

  /** The records of the specification that the converter understands. */
  datatype HexRecord =
    | Data(offset: uint16, bytes: seq<byte>)
    | EndOfFile
    | ExtendedSegment(base: uint16)
    | ExtendedLinear(base: uint16)

  /** A record's byte count is one byte. */
  predicate Printable(r: HexRecord) { r.Data? ==> |r.bytes| < 0x100 }

  /** The bytes a list of records puts into memory, up to the end-of-file record. */
  function Meaning(rs: seq<HexRecord>, upper: nat): seq<Write> {
    if rs == [] then []
    else
      match rs[0]
      case Data(offset, bytes) => DataWrites(upper + offset, bytes) + Meaning(rs[1..], upper)
      case ExtendedSegment(base) => Meaning(rs[1..], 0x10 * base)
      case ExtendedLinear(base) => Meaning(rs[1..], 0x1_0000 * base)
      case EndOfFile => []
  }

  // ----------------------------------------------------------------- the printer

  function Digit(v: nat): (c: char)
    requires v < 16
    ensures IsHexDigit(c) && DigitValue(c) == v && c != '\n'
  {
    if v < 10 then '0' + v as char else 'A' + (v - 10) as char
  }

  function PrintByte(b: byte): string { [Digit(b / 16), Digit(b % 16)] }

  function PrintBytes(bs: seq<byte>): (t: string)
    ensures |t| == 2 * |bs|
    ensures forall i | 0 <= i < |t| :: IsHexDigit(t[i]) && t[i] != '\n'
  {
    if bs == [] then "" else PrintByte(bs[0]) + PrintBytes(bs[1..])
  }

  function Hi(x: uint16): byte { x / 0x100 }
  function Lo(x: uint16): byte { x % 0x100 }

  function Sum(bs: seq<byte>): nat { if bs == [] then 0 else bs[0] as nat + Sum(bs[1..]) }

  function Checksum(bs: seq<byte>): byte { (0x100 - Sum(bs) % 0x100) % 0x100 }

  function Body(r: HexRecord): seq<byte>
    requires Printable(r)
  {
    match r
    case Data(offset, bytes) => [|bytes| as byte, Hi(offset), Lo(offset), 0] + bytes
    case EndOfFile => [0, 0, 0, 1]
    case ExtendedSegment(base) => [2, 0, 0, 2, Hi(base), Lo(base)]
    case ExtendedLinear(base) => [2, 0, 0, 4, Hi(base), Lo(base)]
  }

  function RecordBytes(r: HexRecord): seq<byte>
    requires Printable(r)
  {
    Body(r) + [Checksum(Body(r))]
  }

  /** One line without its newline; `cr` is empty, or a carriage return. */
  function PrintLine(r: HexRecord, cr: string): (t: string)
    requires Printable(r) && (cr == "" || cr == "\r")
    ensures t != "" && t[0] == ':' && '\n' !in t
  {
    ":" + PrintBytes(RecordBytes(r)) + cr
  }

  predicate AllPrintable(rs: seq<HexRecord>) { forall i | 0 <= i < |rs| :: Printable(rs[i]) }

  function PrintFile(rs: seq<HexRecord>, cr: string): string
    requires AllPrintable(rs) && (cr == "" || cr == "\r")
  {
    if rs == [] then "" else PrintLine(rs[0], cr) + "\n" + PrintFile(rs[1..], cr)
  }

  // ---------------------------------------------------------------- reading back

  lemma {:induction false} ParsePrintedPairs(before: string, bs: seq<byte>, cr: string)
    requires cr == "" || cr == "\r"
    ensures ParsePairs(before + PrintBytes(bs) + cr, |before|) == Some(bs)
    decreases |bs|
  {
    var line := before + PrintBytes(bs) + cr;
    if bs != [] {
      var rest := PrintBytes(bs[1..]);
      assert line == (before + PrintByte(bs[0])) + rest + cr;
      assert line[|before|] == Digit(bs[0] / 16) && line[|before| + 1] == Digit(bs[0] % 16);
      ParsePrintedPairs(before + PrintByte(bs[0]), bs[1..], cr);
      assert ParsePair(line[|before|], line[|before| + 1]) == Some(bs[0]);
      assert [bs[0]] + bs[1..] == bs;
    }
  }

  lemma {:induction false} Be16OfBytes(x: uint16)
    ensures Be16(Hi(x), Lo(x)) == x
  {
  }

  /** What reading a printed record does to the reader. */
  function Apply(s: Hex, r: HexRecord): Hex {
    match r
    case Data(offset, bytes) =>
      s.(appStart := if s.appStart.None? then Some(s.upper + offset) else s.appStart,
         writes := s.writes + DataWrites(s.upper + offset, bytes))
    case EndOfFile => s.(ended := true)
    case ExtendedSegment(base) => s.(upper := 0x10 * base)
    case ExtendedLinear(base) => s.(upper := 0x1_0000 * base)
  }

  lemma {:induction false} ReadDataRecord(s: Hex, offset: uint16, bytes: seq<byte>, check: byte)
    requires |bytes| < 0x100
    ensures ReadRecord(s, [|bytes| as byte, Hi(offset), Lo(offset), 0] + bytes + [check])
         == Some(Apply(s, Data(offset, bytes)))
  {
    Be16OfBytes(offset);
    var rec := [|bytes| as byte, Hi(offset), Lo(offset), 0] + bytes + [check];
    assert |rec| > 5 ==> rec[4..|rec| - 1] == bytes;
    assert |rec| <= 5 ==> bytes == [];
  }

  lemma {:induction false} ReadPrintedRecord(s: Hex, r: HexRecord)
    requires Printable(r)
    ensures ReadRecord(s, RecordBytes(r)) == Some(Apply(s, r))
  {
    match r {
      case Data(offset, bytes) => ReadDataRecord(s, offset, bytes, Checksum(Body(r)));
      case EndOfFile =>
      case ExtendedSegment(base) => Be16OfBytes(base);
      case ExtendedLinear(base) => Be16OfBytes(base);
    }
  }

  lemma {:induction false} ReadPrintedLine(s: Hex, r: HexRecord, cr: string)
    requires Printable(r) && (cr == "" || cr == "\r")
    ensures ReadLine(s, PrintLine(r, cr)) == Some(Apply(s, r))
  {
    ParsePrintedPairs(":", RecordBytes(r), cr);
    ReadPrintedRecord(s, r);
  }

  lemma {:induction false} SplitAtNewline(line: string, rest: string)
    requires '\n' !in line
    ensures Split(line + "\n" + rest) == [line] + Split(rest)
    decreases |line|
  {
    var text := line + "\n" + rest;
    if line == "" {
      assert text[1..] == rest;
    } else {
      assert text[1..] == line[1..] + "\n" + rest;
      SplitAtNewline(line[1..], rest);
      assert [line[0]] + line[1..] == line;
    }
  }

  predicate Ends(rs: seq<HexRecord>) { exists i | 0 <= i < |rs| :: rs[i].EndOfFile? }

  /** The reader after the records up to the end-of-file record. */
  function ApplyAll(s: Hex, rs: seq<HexRecord>): Hex
    decreases |rs|
  {
    if rs == [] || s.ended then s else ApplyAll(Apply(s, rs[0]), rs[1..])
  }

  /** A printed file is read back as its records; without an end-of-file record the empty
      text after the last newline makes the reader fail. */
  lemma {:induction false} ReadPrintedLines(s: Hex, rs: seq<HexRecord>, cr: string)
    requires AllPrintable(rs) && (cr == "" || cr == "\r")
    ensures ReadLines(s, Split(PrintFile(rs, cr))) == if s.ended || Ends(rs) then Some(ApplyAll(s, rs)) else None
    decreases |rs|
  {
    if rs == [] {
      assert Split("") == [""];
    } else if !s.ended {
      SplitAtNewline(PrintLine(rs[0], cr), PrintFile(rs[1..], cr));
      ReadPrintedLine(s, rs[0], cr);
      ReadPrintedLines(Apply(s, rs[0]), rs[1..], cr);
      EndsLater(rs);
    }
  }

  lemma {:induction false} EndsLater(rs: seq<HexRecord>)
    requires rs != []
    ensures Ends(rs) <==> rs[0].EndOfFile? || Ends(rs[1..])
  {
    if Ends(rs) && !rs[0].EndOfFile? {
      var i :| 0 <= i < |rs| && rs[i].EndOfFile?;
      assert rs[1..][i - 1].EndOfFile?;
    }
    if Ends(rs[1..]) {
      var i :| 0 <= i < |rs[1..]| && rs[1..][i].EndOfFile?;
      assert rs[i + 1].EndOfFile?;
    }
  }

  lemma {:induction false} ApplyAllWrites(s: Hex, rs: seq<HexRecord>)
    requires !s.ended
    ensures ApplyAll(s, rs).writes == s.writes + Meaning(rs, s.upper)
    decreases |rs|
  {
    if rs != [] {
      match rs[0] {
        case EndOfFile =>
        case _ => ApplyAllWrites(Apply(s, rs[0]), rs[1..]);
      }
    }
  }

  /** HEX text means what its records mean. */
  lemma {:induction false} TextMeansItsRecords(rs: seq<HexRecord>, cr: string)
    requires AllPrintable(rs) && (cr == "" || cr == "\r")
    ensures ReadHex(PrintFile(rs, cr)).Some? <==> Ends(rs)
    ensures Ends(rs) ==> ReadHex(PrintFile(rs, cr)).value.writes == Meaning(rs, 0)
  {
    ReadPrintedLines(NOTHING_READ, rs, cr);
    ApplyAllWrites(NOTHING_READ, rs);
  }

  /** From text to image: a printed HEX file, converted to UF2 and that to a binary. */
  lemma {:induction false} HexFileRoundTrip(rs: seq<HexRecord>, cr: string, wanted: uint32, family: uint32,
                                            device: uint32, appStart: int)
    requires AllPrintable(rs) && (cr == "" || cr == "\r") && Ends(rs)
    requires Meaning(rs, 0) != [] && Packable(PagesOf(Meaning(rs, 0))) && Accepts(wanted, family)
    ensures ReadHex(PrintFile(rs, cr)).Some?
    ensures var pages := PagesOf(ReadHex(PrintFile(rs, cr)).value.writes);
      && Packable(pages)
      && var r := Read(Encoded(pages, family, device), wanted, appStart);
         && (r.Some? <==> Ascending(Meaning(rs, 0)))
         && (r.Some? ==> r.value.outp == Image(Meaning(rs, 0)))
  {
    TextMeansItsRecords(rs, cr);
    HexRoundTrip(Meaning(rs, 0), wanted, family, device, appStart);
  }
}
