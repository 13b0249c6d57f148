/** What reading a written UF2 file gives back (util/uf2conv.py:37-109, 121-166). */
module Uf2RoundTrip {
  import opened Uf2Format
  import opened Uf2Conv

  /** The distance from the end of page `i` to the start of the next. */
  function Gap(pages: seq<Page>, i: nat): int
    requires i + 1 < |pages|
  {
    pages[i + 1].addr - pages[i].addr - PAGE_SIZE
  }

  /** Pages the reader accepts: each starts at or after the end of the last, not too far on. */
  predicate SpacedPrefix(pages: seq<Page>, n: nat) {
    n <= |pages| && forall i | 0 <= i && i + 1 < n :: PaddingOk(Gap(pages, i))
  }

  predicate Spaced(pages: seq<Page>) { SpacedPrefix(pages, |pages|) }

  /** The first `n` pages one after the other, with the gaps between them filled with zeros. */
  function Flattened(pages: seq<Page>, n: nat): seq<byte>
    requires SpacedPrefix(pages, n)
  {
    if n == 0 then []
    else if n == 1 then pages[0].bytes
    else
      assert PaddingOk(Gap(pages, n - 2));
      Flattened(pages, n - 1) + Zeros(Gap(pages, n - 2)) + pages[n - 1].bytes
  }

  predicate Accepts(wanted: uint32, family: uint32) { wanted == 0 || wanted == family }

  lemma {:induction false} FlagBits(family: uint32, device: uint32)
    ensures !Bit(Flags(family, device), FLAG_NOT_MAIN_FLASH)
    ensures Bit(Flags(family, device), FLAG_FAMILY_ID) <==> family != 0
  {
  }

  /** The reader after `i` blocks of a file written from `pages`. */
  function AfterBlocks(pages: seq<Page>, i: nat, family: uint32): Reader
    requires 0 < i && SpacedPrefix(pages, i) && PackablePrefix(pages, i)
  {
    Reader(Some(pages[i - 1].addr + PAGE_SIZE), Some(family),
           if family == 0 then map[] else map[family := pages[0].addr],
           Flattened(pages, i), pages[0].addr)
  }

  function WrittenHeader(p: Page, blockNo: uint32, numBlocks: uint32, family: uint32, device: uint32): Header
    requires p.addr < 0x1_0000_0000
  {
    Header(UF2_MAGIC_START0, UF2_MAGIC_START1, Flags(family, device), p.addr, PAGE_SIZE, blockNo, numBlocks, family)
  }

  /** The reader with nothing behind it, at a written block. */
  lemma {:induction false} ReadFirstBlock(appStart: int, wanted: uint32, p: Page, h: Header, device: uint32,
                                          block: seq<byte>, last: bool)
    requires IsPage(p) && p.addr < 0x1_0000_0000 && |block| == BLOCK_SIZE && block[32..32 + PAGE_SIZE] == p.bytes
    requires h == WrittenHeader(p, h.blockNo, h.numBlocks, h.family, device)
    requires Accepts(wanted, h.family)
    ensures ReadUnpacked(Unread(appStart), wanted, h, block, last)
         == Some(Reader(Some(p.addr + PAGE_SIZE), Some(h.family),
                        if h.family == 0 then map[] else map[h.family := p.addr],
                        p.bytes, p.addr))
  {
    FlagBits(h.family, device);
    assert [] + Zeros(0) + p.bytes == p.bytes;
  }

  /** The reader after the blocks before, at a written block. */
  lemma {:induction false} ReadNextBlock(r: Reader, start: int, wanted: uint32, p: Page, h: Header, device: uint32,
                                         block: seq<byte>, last: bool)
    requires IsPage(p) && p.addr < 0x1_0000_0000 && |block| == BLOCK_SIZE && block[32..32 + PAGE_SIZE] == p.bytes
    requires h == WrittenHeader(p, h.blockNo, h.numBlocks, h.family, device)
    requires Accepts(wanted, h.family)
    requires r.curraddr.Some? && r.currFamily == Some(h.family) && 0 <= start < 0x1_0000_0000
    requires r.found == if h.family == 0 then map[] else map[h.family := start as uint32]
    requires start <= p.addr || p.addr < r.curraddr.value
    ensures var padding := p.addr - r.curraddr.value;
      ReadUnpacked(r, wanted, h, block, last)
      == if PaddingOk(padding)
         then Some(r.(curraddr := Some(p.addr + PAGE_SIZE), outp := r.outp + Zeros(padding) + p.bytes))
         else None
  {
    FlagBits(h.family, device);
  }

  /** Block `i` of a written file carries page `i`. */
  lemma {:induction false} BlockOfEncoded(pages: seq<Page>, i: nat, family: uint32, device: uint32)
    requires Packable(pages) && i < |pages|
    ensures NumBlocks(Encoded(pages, family, device)) == |pages|
    ensures var block := BlockAt(Encoded(pages, family, device), i);
      && UnpackHeader(block) == WrittenHeader(pages[i], i, |pages|, family, device)
      && block[32..32 + PAGE_SIZE] == pages[i].bytes
  {
    BlockOfPrefix(pages, |pages|, i, family, device);
    DecodedBlock(pages[i], i, |pages|, family, device);
  }

  /** One more page fits exactly when the gap before it is acceptable. */
  lemma {:induction false} SpacedStep(pages: seq<Page>, i: nat)
    requires 0 < i < |pages| && SpacedPrefix(pages, i)
    ensures SpacedPrefix(pages, i + 1) <==> PaddingOk(Gap(pages, i - 1))
    ensures SpacedPrefix(pages, i + 1) ==>
      Flattened(pages, i + 1) == Flattened(pages, i) + Zeros(Gap(pages, i - 1)) + pages[i].bytes
    ensures pages[0].addr <= pages[i - 1].addr
  {
    if i > 1 { assert PaddingOk(Gap(pages, i - 2)); }
    StartsLowest(pages, i - 1);
  }

  lemma {:induction false} StartsLowest(pages: seq<Page>, i: nat)
    requires i < |pages| && SpacedPrefix(pages, i)
    requires i > 0 ==> PaddingOk(Gap(pages, i - 1))
    ensures pages[0].addr <= pages[i].addr
  {
    if i > 0 {
      if i > 1 { assert PaddingOk(Gap(pages, i - 2)); }
      StartsLowest(pages, i - 1);
    }
  }

  lemma {:induction false} ReadOneMore(pages: seq<Page>, i: nat, wanted: uint32, family: uint32, device: uint32,
                                       block: seq<byte>, last: bool)
    requires Packable(pages) && 0 < i < |pages| && SpacedPrefix(pages, i) && Accepts(wanted, family)
    requires |block| == BLOCK_SIZE && block[32..32 + PAGE_SIZE] == pages[i].bytes
    requires UnpackHeader(block) == WrittenHeader(pages[i], i, |pages|, family, device)
    ensures SpacedPrefix(pages, i + 1) <==> PaddingOk(Gap(pages, i - 1))
    ensures ReadBlock(AfterBlocks(pages, i, family), wanted, block, last)
         == if SpacedPrefix(pages, i + 1) then Some(AfterBlocks(pages, i + 1, family)) else None
  {
    SpacedStep(pages, i);
    var r, h := AfterBlocks(pages, i, family), WrittenHeader(pages[i], i, |pages|, family, device);
    assert ReadBlock(r, wanted, block, last) == ReadUnpacked(r, wanted, h, block, last);
    ReadNextBlock(r, pages[0].addr, wanted, pages[i], h, device, block, last);
  }

  /** From block `i` on, the reader ends with the whole image, or fails at the first bad gap. */
  lemma {:induction false} ReadRest(pages: seq<Page>, i: nat, wanted: uint32, family: uint32, device: uint32)
    requires Packable(pages) && 0 < i <= |pages| && SpacedPrefix(pages, i) && Accepts(wanted, family)
    ensures ReadFrom(Encoded(pages, family, device), wanted, i, AfterBlocks(pages, i, family))
         == if Spaced(pages) then Some(AfterBlocks(pages, |pages|, family)) else None
    decreases |pages| - i
  {
    assert NumBlocks(Encoded(pages, family, device)) == |pages|;
    if i < |pages| {
      BlockOfEncoded(pages, i, family, device);
      ReadOneMore(pages, i, wanted, family, device, BlockAt(Encoded(pages, family, device), i), i == |pages| - 1);
      if SpacedPrefix(pages, i + 1) {
        ReadRest(pages, i + 1, wanted, family, device);
      }
    }
  }

  lemma {:induction false} ReadFirst(pages: seq<Page>, wanted: uint32, family: uint32, device: uint32, block: seq<byte>,
                                     last: bool, appStart: int)
    requires Packable(pages) && pages != [] && Accepts(wanted, family)
    requires |block| == BLOCK_SIZE && block[32..32 + PAGE_SIZE] == pages[0].bytes
    requires UnpackHeader(block) == WrittenHeader(pages[0], 0, |pages|, family, device)
    ensures ReadBlock(Unread(appStart), wanted, block, last) == Some(AfterBlocks(pages, 1, family))
  {
    ReadFirstBlock(appStart, wanted, pages[0], WrittenHeader(pages[0], 0, |pages|, family, device), device, block,
      last);
  }

  lemma {:induction false} ReadStarts(buf: seq<byte>, wanted: uint32, appStart: int, r: Reader)
    requires NumBlocks(buf) > 0
    requires ReadBlock(Unread(appStart), wanted, BlockAt(buf, 0), 0 == NumBlocks(buf) - 1) == Some(r)
    ensures Read(buf, wanted, appStart) == ReadFrom(buf, wanted, 1, r)
  {
  }

  /** Reading what was written for a family the reader accepts: the flat image and its start
      address if the gaps are acceptable, and a failure exactly when they are not. */
  lemma {:induction false} ReadOfWritten(pages: seq<Page>, wanted: uint32, family: uint32, device: uint32,
                                         appStart: int)
    requires Packable(pages) && pages != [] && Accepts(wanted, family)
    ensures var r := Read(Encoded(pages, family, device), wanted, appStart);
      && (r.Some? <==> Spaced(pages))
      && (r.Some? ==> r.value.outp == Flattened(pages, |pages|) && r.value.appStart == pages[0].addr)
  {
    BlockOfEncoded(pages, 0, family, device);
    ReadFirst(pages, wanted, family, device, BlockAt(Encoded(pages, family, device), 0), 0 == |pages| - 1, appStart);
    ReadStarts(Encoded(pages, family, device), wanted, appStart, AfterBlocks(pages, 1, family));
    ReadRest(pages, 1, wanted, family, device);
  }

  /** A flat binary filled up with zeros to whole pages. */
  function Padded(content: seq<byte>): (p: seq<byte>)
    ensures |p| % PAGE_SIZE == 0 && |p| - |content| < PAGE_SIZE && content <= p
  {
    content + Zeros((|content| + 255) / 256 * 256 - |content|)
  }

  lemma {:induction false} FlattenedContent(content: seq<byte>, base: nat, n: nat)
    requires n <= (|content| + 255) / 256
    ensures SpacedPrefix(PagesFrom(content, base), n)
    ensures Flattened(PagesFrom(content, base), n) == Padded(content)[..PAGE_SIZE * n]
  {
    var pages := PagesFrom(content, base);
    forall i | 0 <= i && i + 1 < n ensures Gap(pages, i) == 0 {}
    if n > 0 {
      FlattenedContent(content, base, n - 1);
      var before, p := Padded(content)[..PAGE_SIZE * (n - 1)], Padded(content);
      assert p[..PAGE_SIZE * n] == before + pages[n - 1].bytes;
      if n > 1 {
        assert Flattened(pages, n) == before + Zeros(Gap(pages, n - 2)) + pages[n - 1].bytes;
        assert Gap(pages, n - 2) == 0 && before + Zeros(0) == before;
      }
    }
  }

  /** convert_from_uf2 undoes convert_to_uf2: the binary comes back zero-padded to whole
      pages, with its base address, whatever the family. */
  lemma {:induction false} BinaryRoundTrip(content: seq<byte>, base: nat, wanted: uint32, family: uint32, appStart: int)
    requires content != [] && Packable(PagesFrom(content, base)) && Accepts(wanted, family)
    ensures var r := Read(Encoded(PagesFrom(content, base), family, 0), wanted, appStart);
      r.Some? && r.value.outp == Padded(content) && r.value.appStart == base
  {
    var pages := PagesFrom(content, base);
    FlattenedContent(content, base, |pages|);
    assert PAGE_SIZE * |pages| == |Padded(content)|;
    assert Padded(content)[..PAGE_SIZE * |pages|] == Padded(content);
    ReadOfWritten(pages, wanted, family, 0, appStart);
  }

  /** An empty file holds nothing. */
  lemma {:induction false} EmptyRoundTrip(wanted: uint32, appStart: int)
    ensures Read([], wanted, appStart) == Some(Unread(appStart))
  {
  }

  /** All gaps from before page `i` on. */
  function GapsFrom(pages: seq<Page>, i: nat): int
    decreases |pages| - i
  {
    if i >= |pages| then 0 else (if i == 0 then 0 else Gap(pages, i - 1)) + GapsFrom(pages, i + 1)
  }

  /** The gaps from before page `i` on are acceptable. */
  predicate SpacedFrom(pages: seq<Page>, i: nat) {
    forall k | 0 <= k && i <= k + 1 < |pages| :: PaddingOk(Gap(pages, k))
  }

  /** A block of a family that was not asked for leaves only the padding before it. */
  lemma {:induction false} OtherFamilyBlock(pages: seq<Page>, i: nat, r: Reader, wanted: uint32, family: uint32)
    requires Packable(pages) && i < |pages| && wanted != 0 && wanted != family
    requires i == 0 ==> r.curraddr.None? && r.currFamily.None?
    requires i > 0 ==> r.curraddr == Some(pages[i - 1].addr + PAGE_SIZE) && r.currFamily == Some(family)
    ensures NumBlocks(Encoded(pages, family, 0)) == |pages|
    ensures var r' := ReadBlock(r, wanted, BlockAt(Encoded(pages, family, 0), i), i == |pages| - 1);
      var gap := if i == 0 then 0 else Gap(pages, i - 1);
      && (r'.Some? <==> PaddingOk(gap))
      && (r'.Some? ==> r'.value.outp == r.outp + Zeros(gap) && r'.value.appStart == r.appStart
                       && r'.value.curraddr == Some(pages[i].addr + PAGE_SIZE) && r'.value.currFamily == Some(family))
  {
    BlockOfEncoded(pages, i, family, 0);
    FlagBits(family, 0);
  }

  lemma {:induction false} GapsOneMore(pages: seq<Page>, i: nat, outp: seq<byte>)
    requires i < |pages| && (i > 0 ==> PaddingOk(Gap(pages, i - 1)))
    requires SpacedFrom(pages, i + 1) ==> GapsFrom(pages, i + 1) >= 0
    ensures var gap := if i == 0 then 0 else Gap(pages, i - 1);
      && (SpacedFrom(pages, i) <==> SpacedFrom(pages, i + 1))
      && (SpacedFrom(pages, i + 1) ==>
            && GapsFrom(pages, i) == gap + GapsFrom(pages, i + 1)
            && outp + Zeros(gap) + Zeros(GapsFrom(pages, i + 1)) == outp + Zeros(GapsFrom(pages, i)))
  {
  }

  /** The reader of another family, before page `i`. */
  ghost predicate PassedBy(pages: seq<Page>, i: nat, r: Reader, family: uint32)
    requires i <= |pages|
  {
    if i == 0 then r.curraddr.None? && r.currFamily.None?
    else r.curraddr == Some(pages[i - 1].addr + PAGE_SIZE) && r.currFamily == Some(family)
  }

  lemma {:induction false} PassByOne(pages: seq<Page>, i: nat, r: Reader, wanted: uint32, family: uint32,
                                     buf: seq<byte>, end: Option<Reader>) returns (r': Option<Reader>, gap: int)
    requires Packable(pages) && i < |pages| && wanted != 0 && wanted != family && PassedBy(pages, i, r, family)
    requires buf == Encoded(pages, family, 0) && NumBlocks(buf) == |pages| && end == ReadFrom(buf, wanted, i, r)
    ensures gap == (if i == 0 then 0 else Gap(pages, i - 1)) && (r'.Some? <==> PaddingOk(gap))
    ensures r'.Some? ==>
      && PassedBy(pages, i + 1, r'.value, family)
      && r'.value.outp == r.outp + Zeros(gap) && r'.value.appStart == r.appStart
    ensures end == if r'.None? then None else ReadFrom(buf, wanted, i + 1, r'.value)
  {
    gap := if i == 0 then 0 else Gap(pages, i - 1);
    r' := ReadBlock(r, wanted, BlockAt(buf, i), i == |pages| - 1);
    OtherFamilyBlock(pages, i, r, wanted, family);
  }

  /** What a reader of another family ends with, from page `i` on. */
  ghost predicate EndsPadded(pages: seq<Page>, i: nat, r: Reader, end: Option<Reader>) {
    && (end.Some? <==> SpacedFrom(pages, i))
    && (end.Some? ==>
          && GapsFrom(pages, i) >= 0 && end.value.outp == r.outp + Zeros(GapsFrom(pages, i))
          && end.value.appStart == r.appStart)
  }

  lemma {:induction false} EndsPaddedBefore(pages: seq<Page>, i: nat, r: Reader, r': Reader, end: Option<Reader>)
    requires i < |pages| && EndsPadded(pages, i + 1, r', end)
    requires var gap := if i == 0 then 0 else Gap(pages, i - 1);
      PaddingOk(gap) && r'.outp == r.outp + Zeros(gap) && r'.appStart == r.appStart
    ensures EndsPadded(pages, i, r, end)
  {
    GapsOneMore(pages, i, r.outp);
  }

  lemma {:induction false} OtherFamilyRest(pages: seq<Page>, i: nat, r: Reader, wanted: uint32, family: uint32,
                                           buf: seq<byte>, end: Option<Reader>)
    requires Packable(pages) && i <= |pages| && wanted != 0 && wanted != family && PassedBy(pages, i, r, family)
    requires buf == Encoded(pages, family, 0) && NumBlocks(buf) == |pages| && end == ReadFrom(buf, wanted, i, r)
    ensures EndsPadded(pages, i, r, end)
    decreases |pages| - i
  {
    if i == |pages| {
      assert r.outp + Zeros(0) == r.outp;
    } else {
      var r', gap := PassByOne(pages, i, r, wanted, family, buf, end);
      if r'.Some? {
        OtherFamilyRest(pages, i + 1, r'.value, wanted, family, buf, end);
        EndsPaddedBefore(pages, i, r, r'.value, end);
      } else if i > 0 {
        assert !SpacedFrom(pages, i);
      }
    }
  }

  /** A reader asked for another family finds no data in the file, only zeros for its gaps, and keeps
      its start address; it fails exactly for the files the right reader fails for. */
  lemma {:induction false} OtherFamilyReadsNothing(pages: seq<Page>, wanted: uint32, family: uint32, appStart: int)
    requires Packable(pages) && wanted != 0 && wanted != family
    ensures var end := Read(Encoded(pages, family, 0), wanted, appStart);
      && (end.Some? <==> Spaced(pages))
      && (end.Some? ==> GapsFrom(pages, 0) >= 0 && end.value.outp == Zeros(GapsFrom(pages, 0))
                        && end.value.appStart == appStart)
  {
    if pages != [] { BlockOfEncoded(pages, 0, family, 0); }
    var buf := Encoded(pages, family, 0);
    OtherFamilyRest(pages, 0, Unread(appStart), wanted, family, buf, Read(buf, wanted, appStart));
    assert Spaced(pages) <==> SpacedFrom(pages, 0);
    if SpacedFrom(pages, 0) { assert [] + Zeros(GapsFrom(pages, 0)) == Zeros(GapsFrom(pages, 0)); }
  }
}
