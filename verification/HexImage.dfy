/** HEX to UF2 to binary: the flat memory image (util/uf2conv.py:37-109, 144-205). */
module HexImage {
  import opened Uf2Format
  import opened Uf2Conv
  import opened Uf2RoundTrip
  import opened IntelHex

  // ------------------------------------------------------ the reference: memory

  /** What is at address `a` after the writes: the last byte written there, else zero. */
  function ValueAt(ws: seq<Write>, a: nat): byte {
    if ws == [] then 0
    else if ws[|ws| - 1].addr == a then ws[|ws| - 1].value
    else ValueAt(ws[..|ws| - 1], a)
  }

  function PageNo(w: Write): nat { w.addr / PAGE_SIZE }

  /** The flat image from the first page written to the end of the last. */
  function Image(ws: seq<Write>): seq<byte>
    requires ws != []
  {
    var base, end := PAGE_SIZE * PageNo(ws[0]), PAGE_SIZE * (PageNo(ws[|ws| - 1]) + 1);
    if base > end then [] else seq<byte>(end - base, k requires 0 <= k => ValueAt(ws, base + k))
  }

  const MAX_PAGE_STEP := MAX_PADDING / PAGE_SIZE + 1

  /** From each write to the next, the page number stays, or grows by no more than the
      largest padding allows. */
  predicate Ascending(ws: seq<Write>) {
    forall i | 0 <= i && i + 1 < |ws| :: 0 <= PageNo(ws[i + 1]) - PageNo(ws[i]) <= MAX_PAGE_STEP
  }

  // ------------------------------------------------------------ pages of writes

  /** Page `i` holds its part of memory. */
  predicate Holds(ws: seq<Write>, p: Page)
    requires IsPage(p)
  {
    forall j | 0 <= j < PAGE_SIZE :: p.bytes[j] == ValueAt(ws, p.addr + j)
  }

  /** The pages are aligned, spaced, end where the last write went and start with the first. */
  predicate Aligned(pages: seq<Page>, ws: seq<Write>) {
    && |pages| > 0 && ws != [] && AllPages(pages)
    && (forall i | 0 <= i < |pages| :: pages[i].addr % PAGE_SIZE == 0)
    && pages[0].addr == PAGE_SIZE * PageNo(ws[0])
    && pages[|pages| - 1].addr == PAGE_SIZE * PageNo(ws[|ws| - 1])
  }

  lemma {:induction false} ValueAtPush(ws: seq<Write>, w: Write, a: nat)
    ensures ValueAt(ws + [w], a) == if w.addr == a then w.value else ValueAt(ws, a)
  {
    assert (ws + [w])[..|ws|] == ws;
  }

  lemma {:induction false} PageOfAddress(a: nat)
    ensures PageStart(a) == PAGE_SIZE * (a / PAGE_SIZE) && PageStart(a) % PAGE_SIZE == 0
    ensures PageStart(a) + a % PAGE_SIZE == a
  {
  }

  lemma {:induction false} PagesAreAligned(ws: seq<Write>)
    requires ws != []
    ensures Aligned(PagesOf(ws), ws)
  {
    var before, w := ws[..|ws| - 1], ws[|ws| - 1];
    PageOfAddress(w.addr);
    if before != [] {
      PagesAreAligned(before);
      PageOfAddress(PagesOf(before)[|PagesOf(before)| - 1].addr);
    }
  }

  /** Nothing but zeros from `lo` up to `hi`. */
  ghost predicate ZeroBetween(ws: seq<Write>, lo: nat, hi: nat) {
    forall a: nat | lo <= a < hi :: ValueAt(ws, a) == 0
  }

  /** Every page holds its part of memory, memory is zero between the pages and after the
      last one, and the gaps are what the reader accepts. */
  ghost predicate HoldsAll(pages: seq<Page>, ws: seq<Write>) {
    && Aligned(pages, ws) && Spaced(pages)
    && (forall i | 0 <= i < |pages| :: Holds(ws, pages[i]))
    && (forall i | 0 <= i && i + 1 < |pages| :: ZeroBetween(ws, pages[i].addr + PAGE_SIZE, pages[i + 1].addr))
    && (forall a: nat | a >= pages[|pages| - 1].addr + PAGE_SIZE :: ValueAt(ws, a) == 0)
  }

  lemma {:induction false} StepsOfPush(ws: seq<Write>)
    requires ws != [] && Ascending(ws)
    ensures Ascending(ws[..|ws| - 1])
    ensures |ws| > 1 ==> 0 <= PageNo(ws[|ws| - 1]) - PageNo(ws[|ws| - 2]) <= MAX_PAGE_STEP
  {
    var before := ws[..|ws| - 1];
    forall i | 0 <= i && i + 1 < |before| ensures 0 <= PageNo(before[i + 1]) - PageNo(before[i]) <= MAX_PAGE_STEP {
      assert before[i + 1] == ws[i + 1] && before[i] == ws[i];
    }
    if |ws| > 1 { assert PageNo(ws[|ws| - 2 + 1]) == PageNo(ws[|ws| - 1]); }
  }

  /** Pages never overlap, and the last one is the highest. */
  lemma {:induction false} LastIsHighest(pages: seq<Page>, i: nat)
    requires i + 1 < |pages| && Spaced(pages)
    ensures pages[i].addr + PAGE_SIZE <= pages[|pages| - 1].addr
    decreases |pages| - i
  {
    assert PaddingOk(Gap(pages, i));
    if i + 2 < |pages| { LastIsHighest(pages, i + 1); }
  }

  lemma {:induction false} WriteIntoLastPage(pages: seq<Page>, ws: seq<Write>, w: Write)
    requires HoldsAll(pages, ws) && PageStart(w.addr) == pages[|pages| - 1].addr
    ensures HoldsAll(PutByte(pages, w), ws + [w])
  {
    var pages', ws', last := PutByte(pages, w), ws + [w], |pages| - 1;
    PageOfAddress(w.addr);
    PageOfAddress(pages[last].addr);
    forall a: nat ensures ValueAt(ws', a) == if w.addr == a then w.value else ValueAt(ws, a) { ValueAtPush(ws, w, a); }
    forall i | 0 <= i < |pages'| ensures pages'[i].addr == pages[i].addr && Holds(ws', pages'[i]) {
      if i < last { LastIsHighest(pages, i); }
    }
    forall i | 0 <= i && i + 1 < |pages'| ensures ZeroBetween(ws', pages'[i].addr + PAGE_SIZE, pages'[i + 1].addr) {
      assert ZeroBetween(ws, pages[i].addr + PAGE_SIZE, pages[i + 1].addr);
      if i + 1 < last { LastIsHighest(pages, i + 1); }
    }
    forall i | 0 <= i && i + 1 < |pages'| ensures PaddingOk(Gap(pages', i)) { assert PaddingOk(Gap(pages, i)); }
    assert ws'[0] == ws[0] && ws'[|ws'| - 1] == w;
  }

  /** A page of zeros with one byte written, behind the others. */
  lemma {:induction false} NewPageHolds(pages: seq<Page>, ws: seq<Write>, w: Write)
    requires HoldsAll(pages, ws) && PageStart(w.addr) != pages[|pages| - 1].addr
    requires 0 <= PageNo(w) - PageNo(ws[|ws| - 1]) <= MAX_PAGE_STEP
    ensures var pages' := PutByte(pages, w);
      && |pages'| == |pages| + 1 && pages'[..|pages|] == pages && pages'[|pages|].addr == PAGE_SIZE * PageNo(w)
      && forall i | 0 <= i < |pages'| :: Holds(ws + [w], pages'[i])
  {
    var pages', ws', last := PutByte(pages, w), ws + [w], |pages| - 1;
    PageOfAddress(w.addr);
    PageOfAddress(pages[last].addr);
    forall a: nat ensures ValueAt(ws', a) == if w.addr == a then w.value else ValueAt(ws, a) { ValueAtPush(ws, w, a); }
    forall i | 0 <= i < |pages'| ensures Holds(ws', pages'[i]) {
      if i < last { LastIsHighest(pages, i); }
    }
  }

  /** Between the pages, the new one included, memory stays zero and the gaps stay small. */
  lemma {:induction false} GapBeforeNewPage(pages: seq<Page>, ws: seq<Write>, w: Write, i: nat)
    requires HoldsAll(pages, ws) && PageStart(w.addr) != pages[|pages| - 1].addr
    requires 0 <= PageNo(w) - PageNo(ws[|ws| - 1]) <= MAX_PAGE_STEP && i < |pages|
    ensures var pages' := PutByte(pages, w);
      && i + 1 < |pages'| && PaddingOk(Gap(pages', i))
      && ZeroBetween(ws + [w], pages'[i].addr + PAGE_SIZE, pages'[i + 1].addr)
  {
    var pages', last := PutByte(pages, w), |pages| - 1;
    PageOfAddress(w.addr);
    PageOfAddress(pages[last].addr);
    assert pages'[i] == pages[i];
    if i < last {
      assert pages'[i + 1] == pages[i + 1] && PaddingOk(Gap(pages, i));
      assert ZeroBetween(ws, pages[i].addr + PAGE_SIZE, pages[i + 1].addr);
      if i + 1 < last { LastIsHighest(pages, i + 1); }
    }
    forall a: nat | pages'[i].addr + PAGE_SIZE <= a < pages'[i + 1].addr ensures ValueAt(ws + [w], a) == 0 {
      ValueAtPush(ws, w, a);
    }
  }

  lemma {:induction false} WriteIntoNewPage(pages: seq<Page>, ws: seq<Write>, w: Write)
    requires HoldsAll(pages, ws) && PageStart(w.addr) != pages[|pages| - 1].addr
    requires 0 <= PageNo(w) - PageNo(ws[|ws| - 1]) <= MAX_PAGE_STEP
    ensures HoldsAll(PutByte(pages, w), ws + [w])
  {
    var pages', ws', last := PutByte(pages, w), ws + [w], |pages| - 1;
    NewPageHolds(pages, ws, w);
    PageOfAddress(w.addr);
    PageOfAddress(pages[last].addr);
    assert forall i | 0 <= i < |pages| :: pages'[i] == pages[i];
    forall i | 0 <= i && i + 1 < |pages'|
      ensures ZeroBetween(ws', pages'[i].addr + PAGE_SIZE, pages'[i + 1].addr) && PaddingOk(Gap(pages', i)) {
      GapBeforeNewPage(pages, ws, w, i);
    }
    forall a: nat | a >= pages'[last + 1].addr + PAGE_SIZE ensures ValueAt(ws', a) == 0 { ValueAtPush(ws, w, a); }
    assert ws'[0] == ws[0] && ws'[|ws'| - 1] == w;
  }

  lemma {:induction false} FirstWrite(w: Write)
    ensures HoldsAll(PagesOf([w]), [w])
  {
    PageOfAddress(w.addr);
    assert [w][..0] == [];
    var page := PagesOf([w])[0];
    assert PagesOf([w]) == [page];
    forall a: nat ensures ValueAt([w], a) == if w.addr == a then w.value else 0 { ValueAtPush([], w, a); }
    assert Holds([w], page);
  }

  lemma {:induction false} PagesHoldMemory(ws: seq<Write>)
    requires ws != [] && Ascending(ws)
    ensures HoldsAll(PagesOf(ws), ws)
  {
    var before, w := ws[..|ws| - 1], ws[|ws| - 1];
    StepsOfPush(ws);
    assert before + [w] == ws;
    if before == [] {
      assert ws == [w];
      FirstWrite(w);
    } else {
      PagesHoldMemory(before);
      if PageStart(w.addr) == PagesOf(before)[|PagesOf(before)| - 1].addr {
        WriteIntoLastPage(PagesOf(before), before, w);
      } else {
        assert before[|before| - 1] == ws[|ws| - 2];
        WriteIntoNewPage(PagesOf(before), before, w);
      }
    }
  }

  /** Gluing the pages and the gaps together gives memory, byte for byte. */
  lemma {:induction false} FlattenedIsMemory(pages: seq<Page>, ws: seq<Write>, n: nat)
    requires HoldsAll(pages, ws) && 0 < n <= |pages|
    ensures SpacedPrefix(pages, n) && pages[0].addr <= pages[n - 1].addr
    ensures |Flattened(pages, n)| == pages[n - 1].addr + PAGE_SIZE - pages[0].addr
    ensures forall k | 0 <= k < |Flattened(pages, n)| :: Flattened(pages, n)[k] == ValueAt(ws, pages[0].addr + k)
  {
    forall i | 0 <= i && i + 1 < n ensures PaddingOk(Gap(pages, i)) {}
    if n == 1 {
      assert Holds(ws, pages[0]);
    } else {
      FlattenedIsMemory(pages, ws, n - 1);
      assert PaddingOk(Gap(pages, n - 2));
      var before, gap, page := Flattened(pages, n - 1), Gap(pages, n - 2), pages[n - 1];
      assert Holds(ws, page) && ZeroBetween(ws, pages[n - 2].addr + PAGE_SIZE, pages[n - 2 + 1].addr);
      var all := before + Zeros(gap) + page.bytes;
      forall k | 0 <= k < |all| ensures all[k] == ValueAt(ws, pages[0].addr + k) {
        var a := pages[0].addr + k;
        if k < |before| {
        } else if k < |before| + gap {
          assert all[k] == 0;
        } else {
          assert all[k] == page.bytes[k - |before| - gap];
          assert a == page.addr + (k - |before| - gap);
        }
      }
    }
  }

  // ------------------------------------------------------------ out of order data

  /** Once a gap between two pages is bad it stays, so the reader refuses the file. */
  predicate HasBadGap(pages: seq<Page>) { exists i | 0 <= i && i + 1 < |pages| :: !PaddingOk(Gap(pages, i)) }

  lemma {:induction false} BadGapStays(pages: seq<Page>, w: Write)
    requires AllPages(pages) && HasBadGap(pages)
    ensures HasBadGap(PutByte(pages, w))
  {
    var i :| 0 <= i && i + 1 < |pages| && !PaddingOk(Gap(pages, i));
    assert Gap(PutByte(pages, w), i) == Gap(pages, i);
  }

  lemma {:induction false} BadStepMakesBadGap(ws: seq<Write>)
    requires !Ascending(ws)
    ensures HasBadGap(PagesOf(ws))
  {
    var before, w := ws[..|ws| - 1], ws[|ws| - 1];
    var i :| 0 <= i && i + 1 < |ws| && !(0 <= PageNo(ws[i + 1]) - PageNo(ws[i]) <= MAX_PAGE_STEP);
    if i + 1 < |before| {
      assert before[i + 1] == ws[i + 1] && before[i] == ws[i];
      BadStepMakesBadGap(before);
      BadGapStays(PagesOf(before), w);
    } else {
      PagesAreAligned(before);
      var pages := PagesOf(before);
      PageOfAddress(w.addr);
      PageOfAddress(pages[|pages| - 1].addr);
      assert before[|before| - 1] == ws[i];
      assert pages[|pages| - 1].addr == PAGE_SIZE * PageNo(ws[i]);
      assert Gap(PutByte(pages, w), |pages| - 1) == PAGE_SIZE * PageNo(w) - PAGE_SIZE * PageNo(ws[i]) - PAGE_SIZE;
    }
  }

  // --------------------------------------------------------------- the round trip

  lemma {:induction false} MemoryIsImage(pages: seq<Page>, ws: seq<Write>)
    requires HoldsAll(pages, ws)
    ensures Flattened(pages, |pages|) == Image(ws)
  {
    FlattenedIsMemory(pages, ws, |pages|);
  }

  lemma {:induction false} BadGapIsNotSpaced(pages: seq<Page>)
    requires HasBadGap(pages)
    ensures !Spaced(pages)
  {
    var i :| 0 <= i && i + 1 < |pages| && !PaddingOk(Gap(pages, i));
  }

  /** Converting HEX data to UF2 and that to a binary gives the flat memory image, later
      bytes winning and gaps zero, exactly when the page numbers ascend; else it fails. */
  lemma {:induction false} HexRoundTrip(ws: seq<Write>, wanted: uint32, family: uint32, device: uint32, appStart: int)
    requires ws != [] && Packable(PagesOf(ws)) && Accepts(wanted, family)
    ensures var r := Read(Encoded(PagesOf(ws), family, device), wanted, appStart);
      && (r.Some? <==> Ascending(ws))
      && (r.Some? ==> r.value.outp == Image(ws) && r.value.appStart == PAGE_SIZE * PageNo(ws[0]))
  {
    PagesAreAligned(ws);
    ReadOfWritten(PagesOf(ws), wanted, family, device, appStart);
    if Ascending(ws) {
      PagesHoldMemory(ws);
      MemoryIsImage(PagesOf(ws), ws);
    } else {
      BadStepMakesBadGap(ws);
      BadGapIsNotSpaced(PagesOf(ws));
    }
  }
}
