/** For which files convert_from_uf2 ends, whatever they hold, and what it makes of them
    (util/uf2conv.py:37-109). */
module Uf2Reading {
  import opened Uf2Format
  import opened Uf2Conv
  import opened Uf2RoundTrip

  /** The headers of the blocks of a file. */
  function Headers(buf: seq<byte>): (hs: seq<Header>)
    ensures |hs| == NumBlocks(buf)
  {
    seq(NumBlocks(buf), i requires 0 <= i < NumBlocks(buf) => UnpackHeader(buf[512 * i..512 * i + 512]))
  }

  /** Blocks not meant for the main flash are passed over. */
  predicate IsSkipped(h: Header) { h.flags % 2 == 1 }

  predicate HasFamily(h: Header) { h.flags / 0x2000 % 2 == 1 }

  /** The family of the run that the first `n` blocks end in. */
  function FamilyBefore(hs: seq<Header>, n: nat): Option<uint32>
    requires n <= |hs|
  {
    if n == 0 then None
    else
      var h, before := hs[n - 1], FamilyBefore(hs, n - 1);
      if IsSkipped(h) then before
      else if before.None? || HasFamily(h) then Some(h.family) else before
  }

  /** Where the data of the first `n` blocks end. */
  function EndBefore(hs: seq<Header>, n: nat): Option<int>
    requires n <= |hs|
  {
    if n == 0 then None
    else if IsSkipped(hs[n - 1]) then EndBefore(hs, n - 1)
    else Some(hs[n - 1].addr + hs[n - 1].size)
  }

  /** Block `i` starts a run: it is the first, or has another family than the run before. */
  predicate StartsRun(hs: seq<Header>, i: nat)
    requires i < |hs|
  {
    var before := FamilyBefore(hs, i);
    before.None? || (HasFamily(hs[i]) && before != Some(hs[i].family))
  }

  /** Both magic words are there, and the data of a block that is not passed over have a legal size
      and start a run, or go on after the data before with a gap that can be padded. */
  predicate BlockReadable(hs: seq<Header>, i: nat)
    requires i < |hs|
  {
    var h, end := hs[i], EndBefore(hs, i);
    && h.magic0 == 0x0A324655 && h.magic1 == 0x9E5D5157
    && (IsSkipped(h) || (h.size <= 476 && (StartsRun(hs, i) || (end.Some? && CanBePadded(h.addr - end.value)))))
  }

  /** A gap of whole words, of at most 10 MiB. */
  predicate CanBePadded(gap: int) { 0 <= gap <= 0xA0_0000 && gap % 4 == 0 }

  predicate ReadableFrom(hs: seq<Header>, i: nat) { forall k | i <= k < |hs| :: BlockReadable(hs, k) }

  /** The reader stands where the first `i` blocks end. */
  ghost predicate StandsAt(hs: seq<Header>, i: nat, r: Reader)
    requires i <= |hs|
  {
    r.currFamily == FamilyBefore(hs, i) && r.curraddr == EndBefore(hs, i) && (r.curraddr.None? <==> r.currFamily.None?)
  }

  lemma {:induction false} BlockIsReadExactlyWhen(hs: seq<Header>, wanted: uint32, i: nat, r: Reader, block: seq<byte>,
                                                  last: bool)
    requires i < |hs| && StandsAt(hs, i, r) && |block| == BLOCK_SIZE
    ensures var r' := ReadUnpacked(r, wanted, hs[i], block, last);
      (r'.Some? <==> BlockReadable(hs, i)) && (r'.Some? ==> StandsAt(hs, i + 1, r'.value))
  {
  }

  /** One block, and how the reader goes on. */
  lemma {:induction false} NextBlock(buf: seq<byte>, hs: seq<Header>, wanted: uint32, i: nat, r: Reader)
    returns (r': Option<Reader>)
    requires hs == Headers(buf) && i < |hs| && StandsAt(hs, i, r)
    ensures r'.Some? <==> BlockReadable(hs, i)
    ensures r'.Some? ==> StandsAt(hs, i + 1, r'.value)
    ensures r' == ReadUnpacked(r, wanted, hs[i], BlockAt(buf, i), i == |hs| - 1)
    ensures ReadFrom(buf, wanted, i, r) == if r'.None? then None else ReadFrom(buf, wanted, i + 1, r'.value)
  {
    var block, last := BlockAt(buf, i), i == NumBlocks(buf) - 1;
    r' := ReadUnpacked(r, wanted, hs[i], block, last);
    BlockIsReadExactlyWhen(hs, wanted, i, r, block, last);
  }

  lemma {:induction false} ReadableStep(hs: seq<Header>, i: nat)
    requires i < |hs|
    ensures ReadableFrom(hs, i) <==> BlockReadable(hs, i) && ReadableFrom(hs, i + 1)
  {
  }

  lemma {:induction false} RestIsReadExactlyWhen(buf: seq<byte>, hs: seq<Header>, wanted: uint32, i: nat, r: Reader)
    requires hs == Headers(buf) && i <= |hs| && StandsAt(hs, i, r)
    ensures ReadFrom(buf, wanted, i, r).Some? <==> ReadableFrom(hs, i)
    decreases |hs| - i
  {
    if i < |hs| {
      ReadableStep(hs, i);
      var r' := NextBlock(buf, hs, wanted, i, r);
      if r'.Some? { RestIsReadExactlyWhen(buf, hs, wanted, i + 1, r'.value); }
    }
  }

  /** A file is converted, whatever family is asked for, exactly when every block has its magic words,
      a legal size, and a place at or not too far after the block before it: a bad magic number
      anywhere, which the code means to skip, ends the conversion. */
  lemma {:induction false} ReadsExactlyWhen(buf: seq<byte>, wanted: uint32, appStart: int)
    ensures Read(buf, wanted, appStart).Some? <==> forall i | 0 <= i < NumBlocks(buf) :: BlockReadable(Headers(buf), i)
  {
    RestIsReadExactlyWhen(buf, Headers(buf), wanted, 0, Unread(appStart));
  }

  // ---------------------------------------------------------------------- what is read

  /** The reader is asked for any family, or for that of the block. */
  predicate IsWanted(h: Header, wanted: uint32) { wanted == 0 || (HasFamily(h) && h.family == wanted) }

  /** How far a readable block begins behind the data before it; a new run begins anywhere. */
  function GapBefore(hs: seq<Header>, i: nat): nat
    requires i < |hs| && BlockReadable(hs, i) && !IsSkipped(hs[i])
  {
    if StartsRun(hs, i) then 0 else hs[i].addr - EndBefore(hs, i).value
  }

  /** The data of the first `n` blocks that are wanted, with the gaps before all that are not passed over. */
  function Image(buf: seq<byte>, hs: seq<Header>, wanted: uint32, n: nat): seq<byte>
    requires n <= |hs| == NumBlocks(buf) && ReadableFrom(hs, 0)
  {
    if n == 0 then []
    else
      var before, h, data := Image(buf, hs, wanted, n - 1), hs[n - 1], 512 * (n - 1) + 32;
      if IsSkipped(h) then before
      else before + Zeros(GapBefore(hs, n - 1)) + if IsWanted(h, wanted) then buf[data..data + h.size] else []
  }

  /** Where the last of the wanted runs among the first `n` blocks starts. */
  function Start(hs: seq<Header>, wanted: uint32, n: nat, appStart: int): int
    requires n <= |hs|
  {
    if n == 0 then appStart
    else
      var h := hs[n - 1];
      if !IsSkipped(h) && StartsRun(hs, n - 1) && (wanted == 0 || wanted == h.family) then h.addr
      else Start(hs, wanted, n - 1, appStart)
  }

  /** Blocks of two families, neither passed over. */
  ghost predicate IsMixed(hs: seq<Header>) {
    exists i, j | 0 <= i < |hs| && 0 <= j < |hs| :: IsOf(hs[i], hs[i].family) && IsOf(hs[j], hs[j].family)
      && hs[i].family != hs[j].family
  }

  predicate IsOf(h: Header, family: uint32) { !IsSkipped(h) && HasFamily(h) && h.family == family }

  /** All that was read is thrown away: no family was asked for, there are several, and the last block, at
      which this is found out, is not passed over. */
  ghost predicate IsDiscarded(hs: seq<Header>, wanted: uint32) {
    wanted == 0 && hs != [] && !IsSkipped(hs[|hs| - 1]) && IsMixed(hs)
  }

  /** Each family of the first `n` blocks with its lowest address. */
  ghost predicate IsFound(found: map<uint32, uint32>, hs: seq<Header>, n: nat)
    requires n <= |hs|
  {
    && (forall i | 0 <= i < n :: IsOf(hs[i], hs[i].family) ==>
          hs[i].family in found && found[hs[i].family] <= hs[i].addr)
    && forall f | f in found :: exists i :: 0 <= i < n && IsOf(hs[i], f) && hs[i].addr == found[f]
  }

  ghost predicate HasRead(buf: seq<byte>, hs: seq<Header>, wanted: uint32, appStart: int, i: nat, r: Reader)
    requires i <= |hs| == NumBlocks(buf) && ReadableFrom(hs, 0)
  {
    && StandsAt(hs, i, r) && IsFound(r.found, hs, i)
    && r.outp == (if i == |hs| && IsDiscarded(hs, wanted) then [] else Image(buf, hs, wanted, i))
    && r.appStart == (if i == |hs| && IsDiscarded(hs, wanted) then 0 else Start(hs, wanted, i, appStart))
  }

  lemma {:induction false} TwoKeys(m: map<uint32, uint32>)
    ensures |m| > 1 <==> exists f, g | f in m && g in m :: f != g
  {
    if f, g :| f in m && g in m && f != g { assert |m.Keys - {f} - {g}| == |m| - 2; }
    if |m| > 1 {
      var f :| f in m;
      assert |m.Keys - {f}| == |m| - 1;
      var g :| g in m.Keys - {f};
    }
  }

  lemma {:induction false} FoundIsMixed(found: map<uint32, uint32>, hs: seq<Header>)
    requires IsFound(found, hs, |hs|)
    ensures |found| > 1 <==> IsMixed(hs)
  {
    TwoKeys(found);
    if |found| > 1 {
      var f, g :| f in found && g in found && f != g;
      var i :| 0 <= i < |hs| && IsOf(hs[i], f) && hs[i].addr == found[f];
      var j :| 0 <= j < |hs| && IsOf(hs[j], g) && hs[j].addr == found[g];
      assert IsOf(hs[i], hs[i].family) && IsOf(hs[j], hs[j].family);
    }
  }

  lemma {:induction false} NoteKeepsFound(found: map<uint32, uint32>, hs: seq<Header>, i: nat)
    requires i < |hs| && IsFound(found, hs, i) && !IsSkipped(hs[i])
    ensures IsFound(LowestAddr(found, hs[i]), hs, i + 1)
  {
    var found' := LowestAddr(found, hs[i]);
    forall f | f in found' ensures exists k :: 0 <= k < i + 1 && IsOf(hs[k], f) && hs[k].addr == found'[f] {
      if f in found && found'[f] == found[f] {
        var k :| 0 <= k < i && IsOf(hs[k], f) && hs[k].addr == found[f];
      } else {
        assert IsOf(hs[i], f) && hs[i].addr == found'[f];
      }
    }
  }

  /** What one block adds to what is read. */
  lemma {:induction false} BlockAdds(hs: seq<Header>, wanted: uint32, i: nat, r: Reader, block: seq<byte>, last: bool)
    requires i < |hs| && StandsAt(hs, i, r) && |block| == BLOCK_SIZE && BlockReadable(hs, i) && !IsSkipped(hs[i])
    ensures var h, r' := hs[i], ReadUnpacked(r, wanted, hs[i], block, last);
      var thrown := last && wanted == 0 && |LowestAddr(r.found, h)| > 1;
      && r'.Some? && r'.value.found == LowestAddr(r.found, h)
      && r'.value.outp == (if thrown then []
                           else r.outp + Zeros(GapBefore(hs, i))
                                + if IsWanted(h, wanted) then block[32..32 + h.size] else [])
      && r'.value.appStart == if thrown then 0
                              else if StartsRun(hs, i) && (wanted == 0 || wanted == h.family) then h.addr
                              else r.appStart
  {
  }

  lemma {:induction false} ThrownExactlyWhen(found: map<uint32, uint32>, hs: seq<Header>, wanted: uint32, i: nat)
    requires i < |hs| && IsFound(found, hs, i + 1) && !IsSkipped(hs[i])
    ensures (i == |hs| - 1 && wanted == 0 && |found| > 1) <==> (i + 1 == |hs| && IsDiscarded(hs, wanted))
  {
    if i + 1 == |hs| { FoundIsMixed(found, hs); }
  }

  lemma {:induction false} PartOfPart(buf: seq<byte>, at: nat, n: nat, from: nat, to: nat)
    requires from <= to <= n && at + n <= |buf|
    ensures buf[at..at + n][from..to] == buf[at + from..at + to]
  {
    var inner, outer := buf[at..at + n][from..to], buf[at + from..at + to];
    forall k | 0 <= k < to - from ensures inner[k] == outer[k] { assert inner[k] == buf[at + from + k]; }
  }

  lemma {:induction false} ImageAdds(buf: seq<byte>, hs: seq<Header>, wanted: uint32, i: nat, block: seq<byte>)
    requires i < |hs| == NumBlocks(buf) && ReadableFrom(hs, 0) && block == BlockAt(buf, i)
    ensures Image(buf, hs, wanted, i + 1)
      == if IsSkipped(hs[i]) then Image(buf, hs, wanted, i)
         else Image(buf, hs, wanted, i) + Zeros(GapBefore(hs, i))
              + if IsWanted(hs[i], wanted) then block[32..32 + hs[i].size] else []
  {
    assert BlockReadable(hs, i);
    if !IsSkipped(hs[i]) { PartOfPart(buf, BLOCK_SIZE * i, BLOCK_SIZE, 32, 32 + hs[i].size); }
  }

  lemma {:induction false} BlockIsRead(buf: seq<byte>, hs: seq<Header>, wanted: uint32, appStart: int, i: nat,
                                       r: Reader, block: seq<byte>, r': Option<Reader>)
    requires i < |hs| == NumBlocks(buf) && ReadableFrom(hs, 0) && HasRead(buf, hs, wanted, appStart, i, r)
    requires |block| == BLOCK_SIZE && block == BlockAt(buf, i) && !IsSkipped(hs[i])
    requires r' == ReadUnpacked(r, wanted, hs[i], block, i == |hs| - 1)
    ensures r'.Some? && HasRead(buf, hs, wanted, appStart, i + 1, r'.value)
  {
    assert BlockReadable(hs, i);
    BlockIsReadExactlyWhen(hs, wanted, i, r, block, i == |hs| - 1);
    BlockAdds(hs, wanted, i, r, block, i == |hs| - 1);
    NoteKeepsFound(r.found, hs, i);
    ThrownExactlyWhen(LowestAddr(r.found, hs[i]), hs, wanted, i);
    ImageAdds(buf, hs, wanted, i, block);
  }

  lemma {:induction false} SkippedIsRead(buf: seq<byte>, hs: seq<Header>, wanted: uint32, appStart: int, i: nat,
                                         r: Reader)
    requires i < |hs| == NumBlocks(buf) && ReadableFrom(hs, 0) && HasRead(buf, hs, wanted, appStart, i, r)
    requires IsSkipped(hs[i])
    ensures HasRead(buf, hs, wanted, appStart, i + 1, r)
  {
  }

  lemma {:induction false} NextIsRead(buf: seq<byte>, hs: seq<Header>, wanted: uint32, appStart: int, i: nat, r: Reader)
    returns (r': Reader)
    requires hs == Headers(buf) && i < |hs| && ReadableFrom(hs, 0) && HasRead(buf, hs, wanted, appStart, i, r)
    ensures HasRead(buf, hs, wanted, appStart, i + 1, r')
    ensures ReadFrom(buf, wanted, i, r) == ReadFrom(buf, wanted, i + 1, r')
  {
    var next := NextBlock(buf, hs, wanted, i, r);
    assert BlockReadable(hs, i);
    r' := next.value;
    if IsSkipped(hs[i]) {
      SkippedIsRead(buf, hs, wanted, appStart, i, r);
    } else {
      BlockIsRead(buf, hs, wanted, appStart, i, r, BlockAt(buf, i), next);
    }
  }

  /** From the reader `r` at block `i` reading goes on with `r'`, which has the property. */
  ghost predicate GoesOn(f: (nat, Reader) -> Option<Reader>, p: (nat, Reader) -> bool, i: nat, r: Reader, r': Reader) {
    p(i + 1, r') && f(i, r) == f(i + 1, r')
  }

  lemma {:induction false} ReadsOn(f: (nat, Reader) -> Option<Reader>, p: (nat, Reader) -> bool, n: nat, i: nat,
                                   r: Reader)
    requires i <= n && p(i, r) && forall x :: f(n, x) == Some(x)
    requires forall k: nat, x | k < n && p(k, x) :: exists x' :: GoesOn(f, p, k, x, x')
    ensures f(i, r).Some? && p(n, f(i, r).value)
    decreases n - i
  {
    if i < n {
      var r' :| GoesOn(f, p, i, r, r');
      ReadsOn(f, p, n, i + 1, r');
    }
  }

  /** What is read from a block on, and what has been read before it, as functions. */
  ghost predicate Describes(buf: seq<byte>, hs: seq<Header>, wanted: uint32, appStart: int,
                            f: (nat, Reader) -> Option<Reader>, p: (nat, Reader) -> bool) {
    && hs == Headers(buf) && ReadableFrom(hs, 0)
    && (forall k: nat, x | k <= |hs| :: f(k, x) == ReadFrom(buf, wanted, k, x))
    && (forall k: nat, x | k <= |hs| :: p(k, x) <==> HasRead(buf, hs, wanted, appStart, k, x))
  }

  lemma {:induction false} NextGoesOn(buf: seq<byte>, hs: seq<Header>, wanted: uint32, appStart: int,
                                      f: (nat, Reader) -> Option<Reader>, p: (nat, Reader) -> bool, k: nat, x: Reader)
    requires Describes(buf, hs, wanted, appStart, f, p) && k < |hs| && p(k, x)
    ensures exists x' :: GoesOn(f, p, k, x, x')
  {
    var x' := NextIsRead(buf, hs, wanted, appStart, k, x);
    assert GoesOn(f, p, k, x, x');
  }

  lemma {:induction false} NothingIsLeft(buf: seq<byte>, hs: seq<Header>, wanted: uint32, appStart: int,
                                         f: (nat, Reader) -> Option<Reader>, p: (nat, Reader) -> bool, x: Reader)
    requires Describes(buf, hs, wanted, appStart, f, p)
    ensures f(|hs|, x) == Some(x)
  {
  }

  lemma {:induction false} RestIsRead(buf: seq<byte>, hs: seq<Header>, wanted: uint32, appStart: int, r: Reader,
                                      f: (nat, Reader) -> Option<Reader>, p: (nat, Reader) -> bool)
    requires Describes(buf, hs, wanted, appStart, f, p) && p(0, r)
    ensures f(0, r).Some? && p(|hs|, f(0, r).value)
  {
    forall k: nat, x | k < |hs| && p(k, x) ensures exists x' :: GoesOn(f, p, k, x, x') {
      NextGoesOn(buf, hs, wanted, appStart, f, p, k, x);
    }
    forall x ensures f(|hs|, x) == Some(x) { NothingIsLeft(buf, hs, wanted, appStart, f, p, x); }
    ReadsOn(f, p, |hs|, 0, r);
  }

  /** What is read of any file that is read, whoever wrote it: the wanted data with the gaps between them,
      and the start of the last wanted run, or nothing and 0. */
  lemma {:induction false} ReadsImage(buf: seq<byte>, wanted: uint32, appStart: int)
    requires ReadableFrom(Headers(buf), 0)
    ensures var hs, o := Headers(buf), Read(buf, wanted, appStart);
      && o.Some?
      && o.value.outp == (if IsDiscarded(hs, wanted) then [] else Image(buf, hs, wanted, |hs|))
      && o.value.appStart == (if IsDiscarded(hs, wanted) then 0 else Start(hs, wanted, |hs|, appStart))
  {
    var hs := Headers(buf);
    var p := (k: nat, x: Reader) => k <= |hs| && HasRead(buf, hs, wanted, appStart, k, x);
    var f := (k: nat, x: Reader) => if k <= |hs| then ReadFrom(buf, wanted, k, x) else None;
    RestIsRead(buf, hs, wanted, appStart, Unread(appStart), f, p);
  }

  // --------------------------------------------------- for instance, two files behind each other

  lemma {:induction false} BlockOfJoined(a: seq<byte>, b: seq<byte>, i: nat)
    requires |a| % BLOCK_SIZE == 0 && i < NumBlocks(a + b)
    ensures NumBlocks(a + b) == NumBlocks(a) + NumBlocks(b)
    ensures BlockAt(a + b, i) == if i < NumBlocks(a) then BlockAt(a, i) else BlockAt(b, i - NumBlocks(a))
  {
    if i < NumBlocks(a) {
      assert (a + b)[..|a|] == a;
      PartOfPart(a + b, 0, |a|, BLOCK_SIZE * i, BLOCK_SIZE * i + BLOCK_SIZE);
      assert (a + b)[0..|a|] == a;
    } else {
      var k := i - NumBlocks(a);
      assert (a + b)[|a|..|a| + |b|] == b;
      PartOfPart(a + b, |a|, |b|, BLOCK_SIZE * k, BLOCK_SIZE * k + BLOCK_SIZE);
      assert |a| + BLOCK_SIZE * k == BLOCK_SIZE * i;
    }
  }

  /** The headers of two written files, of families that are not 0 and differ. */
  ghost predicate AreJoined(hs: seq<Header>, ps: seq<Page>, qs: seq<Page>, f: uint32, g: uint32, device: uint32) {
    && Packable(ps) && Packable(qs) && |hs| == |ps| + |qs|
    && (forall i | 0 <= i < |ps| :: hs[i] == WrittenHeader(ps[i], i, |ps|, f, device))
    && (forall i | 0 <= i < |qs| :: hs[|ps| + i] == WrittenHeader(qs[i], i, |qs|, g, device))
  }

  lemma {:induction false} HeaderAt(buf: seq<byte>, k: nat)
    requires k < NumBlocks(buf)
    ensures Headers(buf)[k] == UnpackHeader(BlockAt(buf, k))
  {
  }

  lemma {:induction false} HeaderOfJoined(a: seq<byte>, b: seq<byte>, pages: seq<Page>, i: nat, family: uint32,
                                          device: uint32, second: bool)
    requires Packable(pages) && i < |pages| && |a| % BLOCK_SIZE == 0
    requires if second then b == Encoded(pages, family, device) else a == Encoded(pages, family, device)
    ensures var k := if second then NumBlocks(a) + i else i;
      k < NumBlocks(a + b) && UnpackHeader(BlockAt(a + b, k)) == WrittenHeader(pages[i], i, |pages|, family, device)
  {
    BlockOfEncoded(pages, i, family, device);
    BlockOfJoined(a, b, if second then NumBlocks(a) + i else i);
  }

  lemma {:induction false} HeadersOfOne(a: seq<byte>, b: seq<byte>, hs: seq<Header>, pages: seq<Page>, family: uint32,
                                        device: uint32, second: bool, at: nat)
    requires Packable(pages) && |a| % BLOCK_SIZE == 0 && at == if second then NumBlocks(a) else 0
    requires if second then b == Encoded(pages, family, device) else a == Encoded(pages, family, device)
    requires hs == Headers(a + b)
    requires at + |pages| <= |hs|
    ensures forall i | 0 <= i < |pages| :: hs[at + i] == WrittenHeader(pages[i], i, |pages|, family, device)
  {
    forall i | 0 <= i < |pages|
      ensures hs[at + i] == WrittenHeader(pages[i], i, |pages|, family, device)
    {
      HeaderOfJoined(a, b, pages, i, family, device, second);
      HeaderAt(a + b, at + i);
    }
  }

  lemma {:induction false} CountOfJoined(a: seq<byte>, b: seq<byte>, n: nat, m: nat)
    requires |a| == BLOCK_SIZE * n && |b| == BLOCK_SIZE * m
    ensures NumBlocks(a) == n && NumBlocks(a + b) == n + m
  {
  }

  lemma {:induction false} JoinedAreBefore(hs: seq<Header>, ps: seq<Page>, qs: seq<Page>, f: uint32, g: uint32,
                                           device: uint32, n: nat)
    requires AreJoined(hs, ps, qs, f, g, device) && f != 0 && g != 0 && 0 < n <= |hs|
    ensures FamilyBefore(hs, n) == Some(if n <= |ps| then f else g)
    ensures EndBefore(hs, n) == Some(hs[n - 1].addr + PAGE_SIZE)
    ensures !IsSkipped(hs[n - 1]) && IsOf(hs[n - 1], if n <= |ps| then f else g)
  {
    FlagBits(f, device);
    FlagBits(g, device);
    if n <= |ps| {
      assert hs[n - 1] == WrittenHeader(ps[n - 1], n - 1, |ps|, f, device);
    } else {
      assert hs[n - 1] == WrittenHeader(qs[n - 1 - |ps|], n - 1 - |ps|, |qs|, g, device);
    }
    if n > 1 { JoinedAreBefore(hs, ps, qs, f, g, device, n - 1); }
  }

  lemma {:induction false} JoinedAreReadable(hs: seq<Header>, ps: seq<Page>, qs: seq<Page>, f: uint32, g: uint32,
                                             device: uint32)
    requires AreJoined(hs, ps, qs, f, g, device) && f != 0 && g != 0 && f != g && Spaced(ps) && Spaced(qs)
    ensures ReadableFrom(hs, 0)
  {
    FlagBits(f, device);
    FlagBits(g, device);
    forall i | 0 <= i < |hs| ensures BlockReadable(hs, i) {
      if i > 0 { JoinedAreBefore(hs, ps, qs, f, g, device, i); }
      if i < |ps| {
        assert hs[i] == WrittenHeader(ps[i], i, |ps|, f, device);
        if i > 0 {
          assert PaddingOk(Gap(ps, i - 1));
          assert hs[i - 1] == WrittenHeader(ps[i - 1], i - 1, |ps|, f, device);
        }
      } else {
        var k := i - |ps|;
        assert hs[i] == WrittenHeader(qs[k], k, |qs|, g, device);
        if k > 0 {
          assert PaddingOk(Gap(qs, k - 1));
          assert hs[i - 1] == WrittenHeader(qs[k - 1], k - 1, |qs|, g, device);
        }
      }
    }
  }

  lemma {:induction false} JoinedIsDiscarded(hs: seq<Header>, ps: seq<Page>, qs: seq<Page>, f: uint32, g: uint32,
                                             device: uint32)
    requires AreJoined(hs, ps, qs, f, g, device) && f != 0 && g != 0 && f != g && Spaced(ps) && Spaced(qs)
    requires ps != [] && qs != []
    ensures ReadableFrom(hs, 0) && IsDiscarded(hs, 0)
  {
    JoinedAreReadable(hs, ps, qs, f, g, device);
    JoinedAreBefore(hs, ps, qs, f, g, device, 1);
    JoinedAreBefore(hs, ps, qs, f, g, device, |hs|);
    assert IsOf(hs[0], hs[0].family) && IsOf(hs[|hs| - 1], hs[|hs| - 1].family);
  }

  lemma {:induction false} JoinedReadsNothing(buf: seq<byte>, hs: seq<Header>, ps: seq<Page>, qs: seq<Page>, f: uint32,
                                              g: uint32, device: uint32, appStart: int)
    requires hs == Headers(buf) && AreJoined(hs, ps, qs, f, g, device)
    requires ps != [] && qs != [] && Spaced(ps) && Spaced(qs) && f != 0 && g != 0 && f != g
    ensures var o := Read(buf, 0, appStart); o.Some? && o.value.outp == [] && o.value.appStart == 0
  {
    JoinedIsDiscarded(hs, ps, qs, f, g, device);
    ReadsImage(buf, 0, appStart);
  }

  lemma {:induction false} FilesAreJoined(a: seq<byte>, b: seq<byte>, hs: seq<Header>, ps: seq<Page>, qs: seq<Page>,
                                          f: uint32, g: uint32, device: uint32)
    requires Packable(ps) && Packable(qs) && a == Encoded(ps, f, device) && b == Encoded(qs, g, device)
    requires hs == Headers(a + b)
    ensures AreJoined(hs, ps, qs, f, g, device)
  {
    CountOfJoined(a, b, |ps|, |qs|);
    HeadersOfOne(a, b, hs, ps, f, device, false, 0);
    HeadersOfOne(a, b, hs, qs, g, device, true, |ps|);
  }

  /** Two images `a` and `b` for different families in one file, read for no family in particular, are
      nothing, at 0. */
  lemma {:induction false} TwoFamiliesReadNothing(a: seq<byte>, b: seq<byte>, ps: seq<Page>, qs: seq<Page>, f: uint32,
                                                  g: uint32, device: uint32, appStart: int)
    requires Packable(ps) && Packable(qs) && a == Encoded(ps, f, device) && b == Encoded(qs, g, device)
    requires ps != [] && qs != [] && Spaced(ps) && Spaced(qs) && f != 0 && g != 0 && f != g
    ensures var o := Read(a + b, 0, appStart); o.Some? && o.value.outp == [] && o.value.appStart == 0
  {
    FilesAreJoined(a, b, Headers(a + b), ps, qs, f, g, device);
    JoinedReadsNothing(a + b, Headers(a + b), ps, qs, f, g, device, appStart);
  }

  lemma {:induction false} BlankHasNoMagic()
    ensures UnpackHeader(Zeros(BLOCK_SIZE)).magic0 == 0
  {
    assert Zeros(BLOCK_SIZE)[0..4] == [0, 0, 0, 0];
  }

  lemma {:induction false} BlankBehind(written: seq<byte>, n: nat)
    requires |written| == BLOCK_SIZE * n
    ensures NumBlocks(written + Zeros(BLOCK_SIZE)) == n + 1
    ensures BlockAt(written + Zeros(BLOCK_SIZE), n) == Zeros(BLOCK_SIZE)
  {
  }

  /** For instance a written file with a blank block behind it, which other readers skip. */
  lemma {:induction false} BlankBlockFails(pages: seq<Page>, family: uint32, device: uint32, wanted: uint32,
                                           appStart: int)
    requires Packable(pages)
    ensures Read(Encoded(pages, family, device) + Zeros(BLOCK_SIZE), wanted, appStart) == None
  {
    var written := Encoded(pages, family, device);
    EncodedIsWhole(pages, |pages|, family, device);
    BlankBehind(written, |pages|);
    BlankHasNoMagic();
    ReadsExactlyWhen(written + Zeros(BLOCK_SIZE), wanted, appStart);
    assert !BlockReadable(Headers(written + Zeros(BLOCK_SIZE)), |pages|);
  }

  lemma {:induction false} EncodedIsWhole(pages: seq<Page>, n: nat, family: uint32, device: uint32)
    requires Packable(pages) && n == |pages|
    ensures |Encoded(pages, family, device)| == BLOCK_SIZE * n
  {
  }
}
