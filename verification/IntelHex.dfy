/** Intel HEX to UF2 (util/uf2conv.py:144-205).  The record types are those of the Intel
    Hexadecimal Object File Format Specification, Rev. A: Data (0), End of File (1),
    Extended Segment Address (2) and Extended Linear Address (4). */
module IntelHex {
  import opened Uf2Format

  // ----------------------------------------------------------- text to records

  predicate IsHexDigit(c: char) { '0' <= c <= '9' || 'a' <= c <= 'f' || 'A' <= c <= 'F' }

  function DigitValue(c: char): (v: nat)
    requires IsHexDigit(c)
    ensures v < 16
  {
    if c <= '9' then c as int - '0' as int
    else if 'a' <= c then c as int - 'a' as int + 10
    else c as int - 'A' as int + 10
  }

  /** The alphabet that `is_hex` lets through. */
  predicate IsHexText(buf: string) {
    forall i | 0 <= i < |buf| :: IsHexDigit(buf[i]) || buf[i] in ":\r\n"
  }

  /** int(pair, 16): surrounding white space is ignored, anything else raises. */
  function ParsePair(a: char, b: char): Option<byte> {
    if IsHexDigit(a) && IsHexDigit(b) then Some(16 * DigitValue(a) + DigitValue(b))
    else if IsHexDigit(a) && b in "\r\n" then Some(DigitValue(a))
    else if IsHexDigit(b) && a in "\r\n" then Some(DigitValue(b))
    else None
  }

  /** The byte pairs of a line from position `i` on. */
  function ParsePairs(line: string, i: nat): Option<seq<byte>>
    decreases |line| - i
  {
    if i + 1 >= |line| then Some([])
    else
      match (ParsePair(line[i], line[i + 1]), ParsePairs(line, i + 2))
      case (Some(v), Some(vs)) => Some([v] + vs)
      case _ => None
  }

  /** buf.split('\n'). */
  function Split(buf: string): (lines: seq<string>)
    ensures |lines| > 0
    decreases |buf|
  {
    if buf == "" then [""]
    else if buf[0] == '\n' then [""] + Split(buf[1..])
    else
      var rest := Split(buf[1..]);
      [[buf[0]] + rest[0]] + rest[1..]
  }

  // --------------------------------------------------------- records to writes

  /** One byte put at an address. */
  datatype Write = Write(addr: nat, value: byte)

  function DataWrites(addr: nat, data: seq<byte>): (ws: seq<Write>)
    ensures |ws| == |data|
  {
    seq(|data|, i requires 0 <= i < |data| => Write(addr + i, data[i]))
  }

  /** The variables of the line loop; the pages are a function of the bytes written so far. */
  datatype Hex = Hex(upper: nat, appStart: Option<int>, writes: seq<Write>, ended: bool)

  const NOTHING_READ := Hex(0, None, [], false)

  function Be16(hi: byte, lo: byte): nat { var h: int := hi; 0x100 * h + lo }

  /** The data bytes of a record, the checksum left out. */
  function DataOf(rec: seq<byte>): seq<byte> { if |rec| > 5 then rec[4..|rec| - 1] else [] }

  function ReadRecord(s: Hex, rec: seq<byte>): Option<Hex> {
    if |rec| <= 3 then None
    else if rec[3] == 4 then
      if |rec| <= 5 then None else Some(s.(upper := 0x1_0000 * Be16(rec[4], rec[5])))
    else if rec[3] == 2 then
      if |rec| <= 5 then None else Some(s.(upper := 0x10 * Be16(rec[4], rec[5])))
    else if rec[3] == 1 then Some(s.(ended := true))
    else if rec[3] == 0 then
      var addr := s.upper + Be16(rec[1], rec[2]);
      Some(s.(appStart := if s.appStart.None? then Some(addr) else s.appStart,
              writes := s.writes + DataWrites(addr, DataOf(rec))))
    else Some(s)
  }

  /** None is the exception: an empty line, a bad pair, or a record that is too short. */
  function ReadLine(s: Hex, line: string): Option<Hex> {
    if line == "" then None
    else if line[0] != ':' then Some(s)
    else
      match ParsePairs(line, 1)
      case None => None
      case Some(rec) => ReadRecord(s, rec)
  }

  function ReadLines(s: Hex, lines: seq<string>): Option<Hex>
    decreases |lines|
  {
    if lines == [] || s.ended then Some(s)
    else
      match ReadLine(s, lines[0])
      case None => None
      case Some(s') => ReadLines(s', lines[1..])
  }

  function ReadHex(buf: string): Option<Hex> { ReadLines(NOTHING_READ, Split(buf)) }

  // ----------------------------------------------------------- writes to pages

  function PageStart(addr: nat): nat { addr / PAGE_SIZE * PAGE_SIZE }

  /** A write goes to the current page, or opens a new one of zeros. */
  function PutByte(pages: seq<Page>, w: Write): (pages': seq<Page>)
    requires AllPages(pages)
    ensures AllPages(pages') && pages' != []
  {
    var last := |pages| - 1;
    if pages != [] && PageStart(pages[last].addr) == PageStart(w.addr) then
      pages[last := pages[last].(bytes := pages[last].bytes[w.addr % PAGE_SIZE := w.value])]
    else pages + [Page(PageStart(w.addr), Zeros(PAGE_SIZE)[w.addr % PAGE_SIZE := w.value])]
  }

  function PagesOf(writes: seq<Write>): (pages: seq<Page>)
    ensures AllPages(pages)
  {
    if writes == [] then [] else PutByte(PagesOf(writes[..|writes| - 1]), writes[|writes| - 1])
  }

  lemma {:induction false} PagesOfPush(writes: seq<Write>, w: Write)
    ensures PagesOf(writes + [w]) == PutByte(PagesOf(writes), w)
  {
    assert (writes + [w])[..|writes|] == writes;
  }

  // ------------------------------------------------------------- the converter

  class HexConverter {
    var appstartaddr: Option<int>
    var familyid: uint32
    var devicetype: uint32   // 0 for none

    constructor (family: uint32, device: uint32)
      ensures familyid == family && devicetype == device && appstartaddr == None
    {
      familyid, devicetype, appstartaddr := family, device, None;
    }

    /** convert_from_hex_to_uf2; None stands for an exception. */
    method ConvertFromHexToUf2(buf: string) returns (outp: Option<seq<byte>>)
      requires IsHexText(buf)
      modifies this`appstartaddr
      ensures match ReadHex(buf)
        case None => outp == None
        case Some(s) =>
          var pages := PagesOf(s.writes);
          appstartaddr == s.appStart
          && outp == if Packable(pages) then Some(Encoded(pages, familyid, devicetype)) else None
    {
      appstartaddr := None;
      var blocks, upper, ended := [], 0, false;
      var lines := Split(buf);
      var n := 0;
      ghost var s := NOTHING_READ;
      while n < |lines| && !ended
        invariant 0 <= n <= |lines|
        invariant s.upper == upper && s.appStart == appstartaddr && s.ended == ended && PagesOf(s.writes) == blocks
        invariant ReadHex(buf) == ReadLines(s, lines[n..])
        decreases |lines| - n
      {
        var line := lines[n];
        if line == "" { return None; }
        if line[0] == ':' {
          var rec := ParseLine(line);
          if rec == None { return None; }
          ghost var next := ReadRecord(s, rec.value);
          var ok;
          ok, upper, blocks, ended := ConvertRecord(upper, blocks, rec.value, s);
          if !ok { return None; }
          s := next.value;
        }
        assert lines[n..][1..] == lines[n + 1..];
        n := n + 1;
      }
      outp := Pack(blocks);
    }

    /** The body of the line loop for one record. */
    method ConvertRecord(upper: nat, blocks: seq<Page>, rec: seq<byte>, ghost s: Hex)
      returns (ok: bool, upper': nat, blocks': seq<Page>, ended: bool)
      requires s.upper == upper && s.appStart == appstartaddr && !s.ended && PagesOf(s.writes) == blocks
      modifies this`appstartaddr
      ensures ok <==> ReadRecord(s, rec).Some?
      ensures ok ==> var s' := ReadRecord(s, rec).value;
        s'.upper == upper' && s'.appStart == appstartaddr && s'.ended == ended && PagesOf(s'.writes) == blocks'
    {
      ok, upper', blocks', ended := true, upper, blocks, false;
      if |rec| <= 3 { ok := false; return; }
      var tp := rec[3];
      if tp == 4 {
        if |rec| <= 5 { ok := false; return; }
        upper' := 0x1_0000 * Be16(rec[4], rec[5]);
      } else if tp == 2 {
        if |rec| <= 5 { ok := false; return; }
        upper' := 0x10 * Be16(rec[4], rec[5]);
      } else if tp == 1 {
        ended := true;
      } else if tp == 0 {
        var addr := upper + Be16(rec[1], rec[2]);
        if appstartaddr == None { appstartaddr := Some(addr); }
        blocks' := PutData(blocks, addr, rec, s.writes);
      }
    }

    /** The loop that reads the pairs of a line. */
    method ParseLine(line: string) returns (rec: Option<seq<byte>>)
      ensures rec == ParsePairs(line, 1)
    {
      var i := 1;
      var out: seq<byte> := [];
      assert ParsePairs(line, 1).Some? ==> [] + ParsePairs(line, 1).value == ParsePairs(line, 1).value;
      while i < |line| - 1
        invariant 1 <= i
        invariant ParsePairs(line, 1)
               == match ParsePairs(line, i) case None => None case Some(vs) => Some(out + vs)
      {
        var v := ParsePair(line[i], line[i + 1]);
        if v == None { return None; }
        assert ParsePairs(line, i + 2).Some? ==>
          out + ([v.value] + ParsePairs(line, i + 2).value) == out + [v.value] + ParsePairs(line, i + 2).value;
        out := out + [v.value];
        i := i + 2;
      }
      assert out + [] == out;
      rec := Some(out);
    }

    /** One byte of the data: the `n`-th of all writes. */
    method PutNext(blocks: seq<Page>, addr: nat, value: byte, ghost all: seq<Write>, ghost n: nat)
      returns (blocks': seq<Page>)
      requires n < |all| && all[n] == Write(addr, value) && blocks == PagesOf(all[..n])
      ensures blocks' == PagesOf(all[..n + 1])
    {
      assert all[..n + 1] == all[..n] + [all[n]];
      PagesOfPush(all[..n], all[n]);
      blocks' := PutByte(blocks, Write(addr, value));
    }

    static lemma {:induction false} WritesOfRecord(writes: seq<Write>, start: nat, rec: seq<byte>)
      returns (all: seq<Write>)
      requires |rec| > 3
      ensures all == writes + DataWrites(start, DataOf(rec))
      ensures all[..|writes|] == writes && |all| == |writes| + (if |rec| > 5 then |rec| - 5 else 0)
    {
      all := writes + DataWrites(start, DataOf(rec));
    }

    /** The write of byte `i` of a data record. */
    static lemma {:induction false} WriteOfByte(writes: seq<Write>, start: nat, rec: seq<byte>, all: seq<Write>, i: nat)
      requires 4 <= i < |rec| - 1 && all == writes + DataWrites(start, DataOf(rec))
      ensures |writes| + (i - 4) < |all| && all[|writes| + (i - 4)] == Write(start + (i - 4), rec[i])
    {
      assert DataOf(rec)[i - 4] == rec[i];
    }

    /** The loop that stores the data bytes of a record. */
    method PutData(blocks: seq<Page>, start: nat, rec: seq<byte>, ghost writes: seq<Write>) returns (blocks': seq<Page>)
      requires |rec| > 3 && blocks == PagesOf(writes)
      ensures blocks' == PagesOf(writes + DataWrites(start, DataOf(rec)))
    {
      blocks' := blocks;
      ghost var all := WritesOfRecord(writes, start, rec);
      var addr, i := start, 4;
      ghost var n := |writes|;
      while i < |rec| - 1
        invariant 4 <= i && n == |writes| + (i - 4) && n <= |all|
        invariant i < |rec| - 1 || n == |all|
        invariant addr == start + (i - 4) && blocks' == PagesOf(all[..n])
      {
        WriteOfByte(writes, start, rec, all, i);
        blocks' := PutNext(blocks', addr, rec[i], all, n);
        n := n + 1;
        addr := addr + 1;
        i := i + 1;
      }
      assert all[..|all|] == all;
    }

    /** The loop that encodes the blocks; an address or count too large for its word raises. */
    method Pack(blocks: seq<Page>) returns (outp: Option<seq<byte>>)
      requires AllPages(blocks)
      ensures outp == if Packable(blocks) then Some(Encoded(blocks, familyid, devicetype)) else None
    {
      var out: seq<byte> := [];
      var i := 0;
      if |blocks| >= 0x1_0000_0000 { return None; }
      while i < |blocks|
        invariant 0 <= i <= |blocks| && PackablePrefix(blocks, i)
        invariant out == EncodedPrefix(blocks, i, familyid, devicetype)
      {
        if blocks[i].addr >= 0x1_0000_0000 { return None; }
        NextEncoded(blocks, i, familyid, devicetype);
        out := out + EncodedBlock(blocks[i], i, |blocks|, familyid, devicetype);
        i := i + 1;
      }
      outp := Some(out);
    }
  }
}
