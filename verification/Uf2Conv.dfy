/** Firmware image conversion between flat binaries and UF2 (util/uf2conv.py:37-166). */
module Uf2Conv {
  import opened Uf2Format

  const MAX_PADDING := 10 * 1024 * 1024
  const MAX_DATA := 476

  // ------------------------------------------------------------ reading blocks

  /** The variables of the reading loop; `appStart` is the global `appstartaddr`. */
  datatype Reader = Reader(curraddr: Option<int>, currFamily: Option<uint32>,
                           found: map<uint32, uint32>, outp: seq<byte>, appStart: int)

  /** Whether a reader asked for `wanted` keeps the data of a block with this header. */
  predicate Keeps(wanted: uint32, h: Header) {
    wanted == 0 || (Bit(h.flags, FLAG_FAMILY_ID) && wanted == h.family)
  }

  /** The reader's position at a block: a new family, or the first block, starts a new run. */
  function Positioned(r: Reader, wanted: uint32, h: Header): Reader {
    var known := if Bit(h.flags, FLAG_FAMILY_ID) && r.currFamily.None? then Some(h.family) else r.currFamily;
    if r.curraddr.None? || (Bit(h.flags, FLAG_FAMILY_ID) && known != Some(h.family)) then
      r.(currFamily := Some(h.family), curraddr := Some(h.addr),
         appStart := if wanted == 0 || wanted == h.family then h.addr else r.appStart)
    else r.(currFamily := known)
  }

  predicate PaddingOk(padding: int) { 0 <= padding <= MAX_PADDING && padding % 4 == 0 }

  function LowestAddr(found: map<uint32, uint32>, h: Header): map<uint32, uint32> {
    if !Bit(h.flags, FLAG_FAMILY_ID) then found
    else if h.family in found && found[h.family] <= h.addr then found
    else found[h.family := h.addr]
  }

  /** One block with its header unpacked.  None is the exception the code raises: on a bad
      magic number (where it means to skip), on oversized data, and on padding it will not
      produce. */
  function ReadUnpacked(r: Reader, wanted: uint32, h: Header, block: seq<byte>, last: bool): Option<Reader>
    requires |block| == BLOCK_SIZE
  {
    if h.magic0 != UF2_MAGIC_START0 || h.magic1 != UF2_MAGIC_START1 then None
    else if Bit(h.flags, FLAG_NOT_MAIN_FLASH) then Some(r)
    else if h.size > MAX_DATA then None
    else
      var p := Positioned(r, wanted, h);
      var padding := h.addr - p.curraddr.value;
      if !PaddingOk(padding) then None
      else
        var found := LowestAddr(p.found, h);
        if last && |found| > 1 && wanted == 0 then
          Some(Reader(Some(h.addr + h.size), p.currFamily, found, [], 0))
        else
          var data := if Keeps(wanted, h) then block[32..32 + h.size] else [];
          Some(Reader(Some(h.addr + h.size), p.currFamily, found, p.outp + Zeros(padding) + data, p.appStart))
  }

  function ReadBlock(r: Reader, wanted: uint32, block: seq<byte>, last: bool): Option<Reader>
    requires |block| == BLOCK_SIZE
  {
    ReadUnpacked(r, wanted, UnpackHeader(block), block, last)
  }

  function NumBlocks(buf: seq<byte>): nat { |buf| / BLOCK_SIZE }

  function BlockAt(buf: seq<byte>, i: nat): (block: seq<byte>)
    requires i < NumBlocks(buf)
    ensures |block| == BLOCK_SIZE
  {
    buf[BLOCK_SIZE * i..BLOCK_SIZE * i + BLOCK_SIZE]
  }

  function ReadFrom(buf: seq<byte>, wanted: uint32, i: nat, r: Reader): Option<Reader>
    requires i <= NumBlocks(buf)
    decreases NumBlocks(buf) - i
  {
    if i == NumBlocks(buf) then Some(r)
    else
      match ReadBlock(r, wanted, BlockAt(buf, i), i == NumBlocks(buf) - 1)
      case None => None
      case Some(r') => ReadFrom(buf, wanted, i + 1, r')
  }

  function Unread(appStart: int): Reader { Reader(None, None, map[], [], appStart) }

  /** convert_from_uf2 for the family `wanted`, 0 for any. */
  function Read(buf: seq<byte>, wanted: uint32, appStart: int): Option<Reader> {
    ReadFrom(buf, wanted, 0, Unread(appStart))
  }

  // -------------------------------------------------------------- writing pages

  /** The pages of a flat binary put at `base`, the last one filled up with zeros. */
  function PagesFrom(content: seq<byte>, base: nat): (pages: seq<Page>)
    ensures AllPages(pages) && |pages| == (|content| + 255) / 256
    ensures forall i | 0 <= i < |pages| :: pages[i].addr == base + PAGE_SIZE * i
    ensures forall i, j | 0 <= i < |pages| && 0 <= j < PAGE_SIZE ::
      pages[i].bytes[j] == if PAGE_SIZE * i + j < |content| then content[PAGE_SIZE * i + j] else 0
  {
    seq((|content| + 255) / 256, i requires 0 <= i =>
      Page(base + PAGE_SIZE * i, seq(PAGE_SIZE, j requires 0 <= j =>
        if PAGE_SIZE * i + j < |content| then content[PAGE_SIZE * i + j] else 0)))
  }

  // -------------------------------------------------------------- the converter

  class Converter {
    var appstartaddr: int
    var familyid: uint32

    constructor (base: int, family: uint32)
      ensures appstartaddr == base && familyid == family
    {
      appstartaddr, familyid := base, family;
    }

    /** None stands for the exception; the caller sees neither output nor progress then. */
    method ConvertFromUf2(buf: seq<byte>) returns (outp: Option<seq<byte>>)
      modifies this`appstartaddr
      ensures match Read(buf, familyid, old(appstartaddr))
        case None => outp == None
        case Some(r) => outp == Some(r.outp) && appstartaddr == r.appStart
    {
      var numblocks := |buf| / BLOCK_SIZE;
      var r := Unread(appstartaddr);
      var blockno := 0;
      while blockno < numblocks
        invariant blockno <= numblocks && r.appStart == appstartaddr
        invariant Read(buf, familyid, old(appstartaddr)) == ReadFrom(buf, familyid, blockno, r)
      {
        var block := buf[BLOCK_SIZE * blockno..BLOCK_SIZE * blockno + BLOCK_SIZE];
        assert block == BlockAt(buf, blockno);
        var next := ConvertBlock(r, UnpackHeader(block), block, blockno == numblocks - 1);
        if next == None { return None; }
        r := next.value;
        blockno := blockno + 1;
      }
      outp := Some(r.outp);
    }

    /** The body of the reading loop over its variables `r`. */
    method ConvertBlock(r: Reader, hd: Header, block: seq<byte>, last: bool) returns (next: Option<Reader>)
      requires |block| == BLOCK_SIZE && r.appStart == appstartaddr
      modifies this`appstartaddr
      ensures next == ReadUnpacked(r, familyid, hd, block, last)
      ensures next.Some? ==> appstartaddr == next.value.appStart
    {
      if hd.magic0 != UF2_MAGIC_START0 || hd.magic1 != UF2_MAGIC_START1 { return None; }
      if Bit(hd.flags, FLAG_NOT_MAIN_FLASH) { return Some(r); }
      if hd.size > MAX_DATA { return None; }
      var currfamilyid, curraddr := Position(r, hd);
      var padding := hd.addr - curraddr;
      if padding < 0 { return None; }
      if padding > MAX_PADDING { return None; }
      if padding % 4 != 0 { return None; }
      var outp := Pad(r.outp, padding);
      assert outp == outp + [];
      if Keeps(familyid, hd) { outp := outp + block[32..32 + hd.size]; }
      var families := NoteFamily(r.found, hd);
      if last && |families| > 1 && familyid == 0 {
        outp := [];
        appstartaddr := 0;
      }
      next := Some(Reader(Some(hd.addr + hd.size), currfamilyid, families, outp, appstartaddr));
    }

    /** A new family, or the first block, starts a new run. */
    method Position(r: Reader, hd: Header) returns (currfamilyid: Option<uint32>, curraddr: int)
      requires r.appStart == appstartaddr
      modifies this`appstartaddr
      ensures var p := Positioned(r, familyid, hd);
        p.currFamily == currfamilyid && p.curraddr == Some(curraddr) && p.appStart == appstartaddr
    {
      var hasFamily := Bit(hd.flags, FLAG_FAMILY_ID);
      var family, addr := r.currFamily, r.curraddr;
      if hasFamily && family == None { family := Some(hd.family); }
      if addr == None || (hasFamily && Some(hd.family) != family) {
        family := Some(hd.family);
        addr := Some(hd.addr);
        if familyid == 0 || familyid == hd.family { appstartaddr := hd.addr; }
      }
      currfamilyid, curraddr := family, addr.value;
    }

    /** The lowest address found for each family. */
    method NoteFamily(found: map<uint32, uint32>, hd: Header) returns (families: map<uint32, uint32>)
      ensures families == LowestAddr(found, hd)
    {
      families := found;
      if Bit(hd.flags, FLAG_FAMILY_ID) {
        if hd.family in families {
          if families[hd.family] > hd.addr { families := families[hd.family := hd.addr]; }
        } else {
          families := families[hd.family := hd.addr];
        }
      }
    }

    /** The loop that appends zero words. */
    method Pad(out: seq<byte>, padding: nat) returns (out': seq<byte>)
      requires padding % 4 == 0
      ensures out' == out + Zeros(padding)
    {
      out' := out;
      var left := padding;
      while left > 0
        invariant 0 <= left <= padding && left % 4 == 0
        invariant out' == out + Zeros(padding - left)
      {
        left := left - 4;
        out' := out' + [0, 0, 0, 0];
      }
    }

    /** convert_to_uf2; an address or count that does not fit its word raises. */
    method ConvertToUf2(content: seq<byte>) returns (outp: Option<seq<byte>>)
      ensures content == [] ==> outp == Some([])
      ensures content != [] && appstartaddr < 0 ==> outp == None
      ensures content != [] && appstartaddr >= 0 ==>
        var pages := PagesFrom(content, appstartaddr);
        outp == if Packable(pages) then Some(Encoded(pages, familyid, 0)) else None
    {
      var numblocks := (|content| + 255) / 256;
      if content != [] && appstartaddr < 0 { return None; }
      ghost var pages := if content == [] then [] else PagesFrom(content, appstartaddr);
      assert |pages| == numblocks;
      var out: seq<byte> := [];
      var blockno := 0;
      while blockno < numblocks
        invariant 0 <= blockno <= numblocks
        invariant PackablePrefix(pages, blockno) || (blockno == 0 && out == [])
        invariant PackablePrefix(pages, blockno) ==> out == EncodedPrefix(pages, blockno, familyid, 0)
      {
        var ptr := PAGE_SIZE * blockno;
        var addr := ptr + appstartaddr;
        assert pages[blockno].addr == addr;
        if addr >= 0x1_0000_0000 || numblocks >= 0x1_0000_0000 { return None; }
        var chunk := Chunk(content, ptr);
        assert chunk == pages[blockno].bytes;
        out := out + EncodedBlock(Page(addr, chunk), blockno, numblocks, familyid, 0);
        blockno := blockno + 1;
      }
      outp := Some(out);
    }

    /** The 256 bytes from `ptr` on, filled up with zeros one at a time. */
    method Chunk(content: seq<byte>, ptr: nat) returns (chunk: seq<byte>)
      requires ptr <= |content|
      ensures |chunk| == PAGE_SIZE
      ensures forall j | 0 <= j < PAGE_SIZE :: chunk[j] == if ptr + j < |content| then content[ptr + j] else 0
    {
      chunk := if ptr + PAGE_SIZE <= |content| then content[ptr..ptr + PAGE_SIZE] else content[ptr..];
      while |chunk| < PAGE_SIZE
        invariant |content| <= ptr + |chunk| || |chunk| == PAGE_SIZE
        invariant |chunk| <= PAGE_SIZE
        invariant forall j | 0 <= j < |chunk| :: chunk[j] == if ptr + j < |content| then content[ptr + j] else 0
      {
        chunk := chunk + [0];
      }
    }
  }
}
