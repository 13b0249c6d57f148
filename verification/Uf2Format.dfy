/** The UF2 container (UF2 specification, section "File format") as util/uf2conv.py writes
    and reads it: 512-byte blocks of eight little-endian words, up to 476 data bytes and a
    closing magic word. */
module Uf2Format {

  type byte = x: int | 0 <= x < 0x100
  type uint32 = x: int | 0 <= x < 0x1_0000_0000

  datatype Option<+T> = None | Some(value: T)

  const UF2_MAGIC_START0: uint32 := 0x0A324655
  const UF2_MAGIC_START1: uint32 := 0x9E5D5157
  const UF2_MAGIC_END: uint32 := 0x0AB16F30

  const FLAG_NOT_MAIN_FLASH: uint32 := 0x1
  const FLAG_FAMILY_ID: uint32 := 0x2000
  const FLAG_EXTENSION: uint32 := 0x8000

  const BLOCK_SIZE := 512
  const PAGE_SIZE := 256

  function Le32(x: uint32): (b: seq<byte>)
    ensures |b| == 4
  {
    [x % 0x100, x / 0x100 % 0x100, x / 0x1_0000 % 0x100, x / 0x100_0000]
  }

  function U32(b: seq<byte>): uint32
    requires |b| == 4
  {
    var w0: int, w1: int, w2: int, w3: int := b[0], b[1], b[2], b[3];
    w0 + 0x100 * w1 + 0x1_0000 * w2 + 0x100_0000 * w3
  }

  lemma {:induction false} FourBytes(x: nat)
    ensures x
      == x % 0x100 + 0x100 * (x / 0x100 % 0x100) + 0x1_0000 * (x / 0x1_0000 % 0x100) + 0x100_0000 * (x / 0x100_0000)
  {
    var a, b, c := x / 0x100, x / 0x1_0000, x / 0x100_0000;
    assert a / 0x100 == b && b / 0x100 == c;
    assert x == 0x100 * a + x % 0x100 && a == 0x100 * b + a % 0x100 && b == 0x100 * c + b % 0x100;
  }

  lemma {:induction false} U32OfLe32(x: uint32)
    ensures U32(Le32(x)) == x
  {
    FourBytes(x);
  }

  function Zeros(n: nat): (z: seq<byte>)
    ensures |z| == n && forall i | 0 <= i < n :: z[i] == 0
  {
    seq(n, i => 0)
  }

  predicate Bit(flags: uint32, bit: uint32)
    requires bit > 0
  {
    flags / bit % 2 == 1
  }

  /** The eight words in front of a block's data. */
  datatype Header = Header(magic0: uint32, magic1: uint32, flags: uint32, addr: uint32,
                           size: uint32, blockNo: uint32, numBlocks: uint32, family: uint32)

  function PackHeader(h: Header): (b: seq<byte>)
    ensures |b| == 32
  {
    Le32(h.magic0) + Le32(h.magic1) + Le32(h.flags) + Le32(h.addr)
    + Le32(h.size) + Le32(h.blockNo) + Le32(h.numBlocks) + Le32(h.family)
  }

  /** Word `i` of a block. */
  function Word(block: seq<byte>, i: nat): uint32
    requires 4 * i + 4 <= |block|
  {
    U32(block[4 * i..4 * i + 4])
  }

  function UnpackHeader(block: seq<byte>): Header
    requires |block| >= 32
  {
    Header(Word(block, 0), Word(block, 1), Word(block, 2), Word(block, 3),
           Word(block, 4), Word(block, 5), Word(block, 6), Word(block, 7))
  }

  lemma {:induction false} UnpackOfPack(h: Header, rest: seq<byte>)
    ensures UnpackHeader(PackHeader(h) + rest) == h
  {
    var b := PackHeader(h) + rest;
    U32OfLe32(h.magic0); U32OfLe32(h.magic1); U32OfLe32(h.flags); U32OfLe32(h.addr);
    U32OfLe32(h.size); U32OfLe32(h.blockNo); U32OfLe32(h.numBlocks); U32OfLe32(h.family);
    assert b[0..4] == Le32(h.magic0) && b[4..8] == Le32(h.magic1);
    assert b[8..12] == Le32(h.flags) && b[12..16] == Le32(h.addr);
    assert b[16..20] == Le32(h.size) && b[20..24] == Le32(h.blockNo);
    assert b[24..28] == Le32(h.numBlocks) && b[28..32] == Le32(h.family);
  }

  /** A page of 256 bytes at an address, which is what one block carries. */
  datatype Page = Page(addr: nat, bytes: seq<byte>)

  predicate IsPage(p: Page) { |p.bytes| == PAGE_SIZE }

  function Flags(family: uint32, device: uint32): uint32 {
    (if family != 0 then FLAG_FAMILY_ID else 0) + (if device != 0 then FLAG_EXTENSION else 0)
  }

  function Extension(device: uint32): (b: seq<byte>)
    ensures |b| <= 8
  {
    if device != 0 then [0x08, 0x29, 0xa7, 0xc8] + Le32(device) else []
  }

  /** The block carrying page `p` as number `blockNo` of `numBlocks`; no device type is 0. */
  function EncodedBlock(p: Page, blockNo: uint32, numBlocks: uint32, family: uint32, device: uint32): (b: seq<byte>)
    requires IsPage(p) && p.addr < 0x1_0000_0000
    ensures |b| == BLOCK_SIZE
  {
    PackHeader(Header(UF2_MAGIC_START0, UF2_MAGIC_START1, Flags(family, device), p.addr,
                      PAGE_SIZE, blockNo, numBlocks, family))
    + p.bytes + Extension(device) + Zeros(BLOCK_SIZE - 4 - 32 - PAGE_SIZE - |Extension(device)|)
    + Le32(UF2_MAGIC_END)
  }

  lemma {:induction false} DecodedBlock(p: Page, blockNo: uint32, numBlocks: uint32, family: uint32, device: uint32)
    requires IsPage(p) && p.addr < 0x1_0000_0000
    ensures var b := EncodedBlock(p, blockNo, numBlocks, family, device);
      && UnpackHeader(b) == Header(UF2_MAGIC_START0, UF2_MAGIC_START1, Flags(family, device), p.addr,
                                   PAGE_SIZE, blockNo, numBlocks, family)
      && b[32..32 + PAGE_SIZE] == p.bytes
  {
    var h := Header(UF2_MAGIC_START0, UF2_MAGIC_START1, Flags(family, device), p.addr,
                    PAGE_SIZE, blockNo, numBlocks, family);
    var rest := p.bytes + Extension(device) + Zeros(BLOCK_SIZE - 4 - 32 - PAGE_SIZE - |Extension(device)|)
                + Le32(UF2_MAGIC_END);
    assert EncodedBlock(p, blockNo, numBlocks, family, device) == PackHeader(h) + rest;
    UnpackOfPack(h, rest);
  }

  /** The little-endian word at byte `at`. */
  function WordAt(b: seq<byte>, at: nat): int
    requires at + 4 <= |b|
  {
    b[at] as int + 256 * b[at + 1] as int + 65536 * b[at + 2] as int + 16777216 * b[at + 3] as int
  }

  /** A header is read from the words where the specification puts them. */
  lemma {:induction false} HeaderLayout(block: seq<byte>)
    requires |block| == 512
    ensures UnpackHeader(block) == Header(WordAt(block, 0), WordAt(block, 4), WordAt(block, 8), WordAt(block, 12),
                                          WordAt(block, 16), WordAt(block, 20), WordAt(block, 24), WordAt(block, 28))
  {
  }

  /** The words of a header, byte by byte. */
  lemma {:induction false} PackedLayout(h: Header)
    ensures var b := PackHeader(h);
      && WordAt(b, 0) == h.magic0 && WordAt(b, 4) == h.magic1 && WordAt(b, 8) == h.flags && WordAt(b, 12) == h.addr
      && WordAt(b, 16) == h.size && WordAt(b, 20) == h.blockNo && WordAt(b, 24) == h.numBlocks
      && WordAt(b, 28) == h.family
  {
    U32OfLe32(h.magic0); U32OfLe32(h.magic1); U32OfLe32(h.flags); U32OfLe32(h.addr);
    U32OfLe32(h.size); U32OfLe32(h.blockNo); U32OfLe32(h.numBlocks); U32OfLe32(h.family);
  }

  lemma {:induction false} SameWord(a: seq<byte>, b: seq<byte>, at: nat, from: nat)
    requires at + 4 <= |a| && from + |a| <= |b| && b[from..from + |a|] == a
    ensures WordAt(b, from + at) == WordAt(a, at)
  {
    var part := b[from..from + |a|];
    assert part[at] == b[from + at] && part[at + 1] == b[from + at + 1];
    assert part[at + 2] == b[from + at + 2] && part[at + 3] == b[from + at + 3];
  }

  /** A block that is written: its magic words, flags and so on stand where the specification puts them, behind
      them the page, and behind that the device type, if there is one. */
  lemma {:induction false} BlockLayout(p: Page, blockNo: uint32, numBlocks: uint32, family: uint32, device: uint32)
    requires |p.bytes| == 256 && p.addr < 0x1_0000_0000
    ensures var b := EncodedBlock(p, blockNo, numBlocks, family, device);
      && |b| == 512
      && WordAt(b, 0) == 0x0A324655 && WordAt(b, 4) == 0x9E5D5157 && WordAt(b, 508) == 0x0AB16F30
      && WordAt(b, 8) == (if family != 0 then 0x2000 else 0) + (if device != 0 then 0x8000 else 0)
      && WordAt(b, 12) == p.addr && WordAt(b, 16) == 256
      && WordAt(b, 20) == blockNo && WordAt(b, 24) == numBlocks && WordAt(b, 28) == family
      && b[32..288] == p.bytes
      && (device != 0 ==> b[288..292] == [0x08, 0x29, 0xa7, 0xc8] && WordAt(b, 292) == device)
      && (forall i | (if device != 0 then 296 else 288) <= i < 508 :: b[i] == 0)
  {
    var h := Header(UF2_MAGIC_START0, UF2_MAGIC_START1, Flags(family, device), p.addr,
                    PAGE_SIZE, blockNo, numBlocks, family);
    var ext := Extension(device);
    PartsLayout(EncodedBlock(p, blockNo, numBlocks, family, device), h, p.bytes, ext,
                Zeros(BLOCK_SIZE - 4 - 32 - PAGE_SIZE - |ext|), device);
  }

  lemma {:induction false} PartsLayout(b: seq<byte>, h: Header, page: seq<byte>, ext: seq<byte>, zeros: seq<byte>,
                                       device: uint32)
    requires b == PackHeader(h) + page + ext + zeros + Le32(UF2_MAGIC_END)
    requires |page| == 256 && ext == Extension(device) && zeros == Zeros(220 - |ext|)
    ensures |b| == 512 && b[32..288] == page && WordAt(b, 508) == UF2_MAGIC_END
    ensures WordAt(b, 0) == h.magic0 && WordAt(b, 4) == h.magic1 && WordAt(b, 8) == h.flags && WordAt(b, 12) == h.addr
    ensures WordAt(b, 16) == h.size && WordAt(b, 20) == h.blockNo && WordAt(b, 24) == h.numBlocks
    ensures WordAt(b, 28) == h.family
    ensures device != 0 ==> b[288..292] == [0x08, 0x29, 0xa7, 0xc8] && WordAt(b, 292) == device
    ensures forall i | 288 <= i < 508 :: i < 288 + |ext| || b[i] == 0
  {
    var head, tail := PackHeader(h), Le32(UF2_MAGIC_END);
    BlockParts(b, head, page, ext, zeros, tail);
    PackedLayout(h);
    HeadWords(b, head);
    U32OfLe32(UF2_MAGIC_END);
    SameWord(tail, b, 0, 508);
    if device != 0 { ExtensionLayout(b, device); }
  }

  lemma {:induction false} ExtensionLayout(b: seq<byte>, device: uint32)
    requires device != 0 && |b| == 512 && b[288..296] == Extension(device)
    ensures b[288..292] == [0x08, 0x29, 0xa7, 0xc8] && WordAt(b, 292) == device
  {
    var ext := Extension(device);
    U32OfLe32(device);
    SameWord(ext, b, 4, 288);
    assert b[288] == b[288..296][0] && b[289] == b[288..296][1] && b[290] == b[288..296][2];
    assert b[291] == b[288..296][3];
  }

  lemma {:induction false} HeadWords(b: seq<byte>, head: seq<byte>)
    requires |head| == 32 && |b| == 512 && b[0..32] == head
    ensures WordAt(b, 0) == WordAt(head, 0) && WordAt(b, 4) == WordAt(head, 4) && WordAt(b, 8) == WordAt(head, 8)
    ensures WordAt(b, 12) == WordAt(head, 12) && WordAt(b, 16) == WordAt(head, 16)
    ensures WordAt(b, 20) == WordAt(head, 20) && WordAt(b, 24) == WordAt(head, 24)
    ensures WordAt(b, 28) == WordAt(head, 28)
  {
    SameWord(head, b, 0, 0);
    SameWord(head, b, 4, 0);
    SameWord(head, b, 8, 0);
    SameWord(head, b, 12, 0);
    SameWord(head, b, 16, 0);
    SameWord(head, b, 20, 0);
    SameWord(head, b, 24, 0);
    SameWord(head, b, 28, 0);
  }

  /** The five parts of a block. */
  lemma {:induction false} BlockParts(b: seq<byte>, head: seq<byte>, page: seq<byte>, ext: seq<byte>, zeros: seq<byte>,
                                      tail: seq<byte>)
    requires b == head + page + ext + zeros + tail
    requires |head| == 32 && |page| == 256 && |ext| + |zeros| == 220 && |tail| == 4
    ensures |b| == 512 && b[0..32] == head && b[32..288] == page && b[288..288 + |ext|] == ext
    ensures b[288 + |ext|..508] == zeros && b[508..512] == tail
    ensures forall i | 288 + |ext| <= i < 508 :: b[i] == zeros[i - 288 - |ext|]
  {
  }

  predicate AllPages(pages: seq<Page>) {
    forall i | 0 <= i < |pages| :: IsPage(pages[i])
  }

  /** Every header field of the first `n` blocks can be packed into its word. */
  predicate PackablePrefix(pages: seq<Page>, n: nat) {
    && |pages| < 0x1_0000_0000 && AllPages(pages) && n <= |pages|
    && forall i | 0 <= i < n :: pages[i].addr < 0x1_0000_0000
  }

  predicate Packable(pages: seq<Page>) { PackablePrefix(pages, |pages|) }

  /** The blocks of the first `n` of the pages. */
  function EncodedPrefix(pages: seq<Page>, n: nat, family: uint32, device: uint32): (b: seq<byte>)
    requires PackablePrefix(pages, n)
    ensures |b| == BLOCK_SIZE * n
  {
    if n == 0 then []
    else EncodedPrefix(pages, n - 1, family, device) + EncodedBlock(pages[n - 1], n - 1, |pages|, family, device)
  }

  lemma {:induction false} NextEncoded(pages: seq<Page>, n: nat, family: uint32, device: uint32)
    requires n < |pages| && PackablePrefix(pages, n + 1)
    ensures EncodedPrefix(pages, n + 1, family, device)
         == EncodedPrefix(pages, n, family, device) + EncodedBlock(pages[n], n, |pages|, family, device)
  {
  }

  function Encoded(pages: seq<Page>, family: uint32, device: uint32): (b: seq<byte>)
    requires Packable(pages)
    ensures |b| == BLOCK_SIZE * |pages|
  {
    EncodedPrefix(pages, |pages|, family, device)
  }

  lemma {:induction false} BlockOfPrefix(pages: seq<Page>, n: nat, i: nat, family: uint32, device: uint32)
    requires PackablePrefix(pages, n) && i < n
    ensures EncodedPrefix(pages, n, family, device)[BLOCK_SIZE * i..BLOCK_SIZE * i + BLOCK_SIZE]
         == EncodedBlock(pages[i], i, |pages|, family, device)
  {
    var all := EncodedPrefix(pages, n, family, device);
    var before := EncodedPrefix(pages, n - 1, family, device);
    if i < n - 1 {
      BlockOfPrefix(pages, n - 1, i, family, device);
      assert all[..|before|] == before;
      assert all[BLOCK_SIZE * i..BLOCK_SIZE * i + BLOCK_SIZE] == before[BLOCK_SIZE * i..BLOCK_SIZE * i + BLOCK_SIZE];
    }
  }
}
