/** What the I2C EEPROM driver promises, whichever transfers fail, and for which blocks: those that
    lie in the bank that their start selects (drivers/eeprom/eeprom_i2c.c:81-133). */
module EepromI2cRuns {
  import opened Arithmetic
  import opened PagedMemory
  import opened EepromI2c

  /** The block lies in the bank that its start selects. */
  predicate InBank(c: Layout, addr: nat, len: nat) {
    c.bank(addr) * c.Span() <= addr && addr + len <= c.bank(addr) * c.Span() + c.Span()
  }

  lemma {:induction false} LocationInBank(c: Layout, addr: nat, target: nat)
    ensures c.Location(addr, target) == target
       <==> c.bank(addr) * c.Span() <= target < c.bank(addr) * c.Span() + c.Span()
  {
    var b, p := c.bank(addr), c.Span();
    if b * p <= target < b * p + p { Unique(target, p, b, target - b * p); }
  }

  /** If the I2C address carries all that the address bytes cannot, a block must not leave its bank. */
  lemma {:induction false} InBankExactlyWhen(c: Layout, addr: nat, len: nat)
    requires c.bank(addr) == addr / c.Span() && len > 0
    ensures InBank(c, addr, len) <==> addr / c.Span() == (addr + len - 1) / c.Span()
  {
    var q, p, last := addr / c.Span(), c.Span(), addr + len - 1;
    DivMod(addr, p);
    DivMod(last, p);
    if last < q * p + p { Unique(last, p, q, last - q * p); }
  }

  /** Of a transfer that breaks off, the header goes first, and of `n` bytes behind it as many as are left. */
  lemma {:induction false} PartArrives(t: Transfer, header: nat, n: nat)
    ensures Taken(t, header, n) == if t.Through? then n
                                   else if t.taken < header then 0
                                   else if t.taken - header < n then t.taken - header
                                   else n
  {
  }

  // -------------------------------------------------------- whichever transfers fail

  /** Every packet met an idle chip and stayed in its page. */
  predicate InOrder(packets: seq<Packet>, page: nat)
    requires page > 0
  {
    forall i | 0 <= i < |packets| :: packets[i].idle && InOnePage(packets[i].addr, |packets[i].data|, page)
  }

  predicate Covers(p: Packet, a: nat) { p.addr <= a < p.addr + p.taken }

  /** A packet brought a byte for the address. */
  ghost predicate Got(packets: seq<Packet>, a: nat) { exists i | 0 <= i < |packets| :: Covers(packets[i], a) }

  /** The new memory, packet by packet. */
  ghost predicate HasArrived(mem: seq<octet>, mem': seq<octet>, addr: nat, buf: seq<octet>, packets: seq<Packet>) {
    && |mem'| == |mem|
    && forall a | 0 <= a < |mem| ::
         mem'[a] == if addr <= a < addr + |buf| && Got(packets, a) then buf[a - addr] else mem[a]
  }

  /** All packets lie in the part that is written. */
  ghost predicate Within(packets: seq<Packet>, lo: nat, hi: nat) {
    forall i | 0 <= i < |packets| ::
      lo <= packets[i].addr && packets[i].taken <= |packets[i].data| && packets[i].addr + |packets[i].data| <= hi
  }

  function Since(s: State, s': State): seq<Packet> { if |s.log| <= |s'.log| then s'.log[|s.log|..] else [] }

  lemma {:induction false} GotOne(p: Packet, a: nat)
    ensures Got([p], a) <==> Covers(p, a)
  {
    assert [p][0] == p;
  }

  lemma {:induction false} GotConcat(a: seq<Packet>, b: seq<Packet>, x: nat)
    ensures Got(a + b, x) <==> Got(a, x) || Got(b, x)
  {
    if Got(a, x) {
      var i :| 0 <= i < |a| && Covers(a[i], x);
      assert (a + b)[i] == a[i];
    }
    if Got(b, x) {
      var i :| 0 <= i < |b| && Covers(b[i], x);
      assert (a + b)[|a| + i] == b[i];
    }
  }

  lemma {:induction false} OneHasArrived(mem: seq<octet>, mem': seq<octet>, p: Packet)
    requires p.taken <= |p.data| && mem' == Written(Eeprom, mem, p.addr, p.data[..p.taken])
    ensures HasArrived(mem, mem', p.addr, p.data, [p])
  {
    forall a | 0 <= a < |mem|
      ensures mem'[a] == if p.addr <= a < p.addr + |p.data| && Got([p], a) then p.data[a - p.addr] else mem[a]
    {
      GotOne(p, a);
    }
  }

  /** Between these two states, packets in order brought what they could of `buf`. */
  ghost predicate Wrote(c: Layout, s: State, s': State, addr: nat, buf: seq<octet>)
    requires c.Valid()
  {
    var packets := Since(s, s');
    && s.log <= s'.log && !s'.busy && InOrder(packets, c.page) && Within(packets, addr, addr + |buf|)
    && HasArrived(s.mem, s'.mem, addr, buf, packets)
  }

  lemma {:induction false} OnePacket(c: Layout, s: State, start: nat, target: nat, data: seq<octet>)
    requires c.Valid() && !s.busy && InOnePage(target, |data|, c.page) && c.Location(start, target) == target
    ensures Wrote(c, s, ChunkWriting(c, s, start, target, data), target, data)
  {
    var s', n := ChunkWriting(c, s, start, target, data), Taken(NextTransfer(s), c.addressSize, |data|);
    var p := Packet(target, data, n, true);
    assert s'.log == s.log + [p] && Since(s, s') == [p];
    InPageIsFlat(Eeprom, s.mem, target, data[..n], c.page);
    assert n == 0 ==> Written(Eeprom, s.mem, target, data[..n]) == s.mem;
    OneHasArrived(s.mem, s'.mem, p);
  }

  lemma {:induction false} BothArrived(mem: seq<octet>, mem1: seq<octet>, mem2: seq<octet>, addr: nat, buf: seq<octet>,
                                      n: nat, a: seq<Packet>, b: seq<Packet>)
    requires n <= |buf| && HasArrived(mem, mem1, addr, buf[..n], a) && HasArrived(mem1, mem2, addr + n, buf[n..], b)
    requires Within(a, addr, addr + n) && Within(b, addr + n, addr + |buf|)
    ensures HasArrived(mem, mem2, addr, buf, a + b)
  {
    forall x | 0 <= x < |mem|
      ensures mem2[x] == if addr <= x < addr + |buf| && Got(a + b, x) then buf[x - addr] else mem[x]
    {
      GotConcat(a, b, x);
    }
  }

  lemma {:induction false} BothWrote(c: Layout, s: State, s1: State, s': State, addr: nat, buf: seq<octet>, n: nat)
    requires c.Valid() && n <= |buf| && Wrote(c, s, s1, addr, buf[..n]) && Wrote(c, s1, s', addr + n, buf[n..])
    ensures Wrote(c, s, s', addr, buf)
  {
    assert Since(s, s') == Since(s, s1) + Since(s1, s');
    BothArrived(s.mem, s1.mem, s'.mem, addr, buf, n, Since(s, s1), Since(s1, s'));
  }

  lemma {:induction false} ChunksWrite(c: Layout, s: State, start: nat, target: nat, buf: seq<octet>, s': State)
    requires c.Valid() && !s.busy && s' == BlockWriting(c, s, start, target, buf)
    requires c.bank(start) * c.Span() <= target && target + |buf| <= c.bank(start) * c.Span() + c.Span()
    ensures Wrote(c, s, s', target, buf)
    decreases |buf|
  {
    if buf != [] {
      var n := ChunkLength(target, |buf|, c.page);
      var s1, rest := ChunkWriting(c, s, start, target, buf[..n]), buf[n..];
      NextChunk(c, s, start, target, buf, buf[..n], rest);
      LocationInBank(c, start, target);
      OnePacket(c, s, start, target, buf[..n]);
      ChunksWrite(c, s1, start, target + n, rest, s');
      BothWrote(c, s, s1, s', target, buf, n);
    }
  }

  /** eeprom_write_block, for a block in its bank: no packet leaves its page or meets a busy chip, and
      memory has, byte by byte, the new value where a packet brought it and the old one elsewhere. */
  lemma {:induction false} BlockWrites(c: Layout, s: State, addr: nat, buf: seq<octet>)
    requires c.Valid() && !s.busy && InBank(c, addr, |buf|)
    ensures Wrote(c, s, BlockWriting(c, s, addr, addr, buf), addr, buf)
  {
    ChunksWrite(c, s, addr, addr, buf, BlockWriting(c, s, addr, addr, buf));
  }

  // --------------------------------------------------- when every transfer gets through

  predicate AllThrough(script: seq<Transfer>, n: nat) {
    n <= |script| && forall i | 0 <= i < n :: script[i].Through?
  }

  /** Pages line up with banks. */
  predicate Whole(c: Layout) { c.Valid() && c.Span() % c.page == 0 }

  lemma {:induction false} ModAdd(x: nat, i: nat, p: nat)
    requires p > 0
    ensures (x % p + i) % p == (x + i) % p
  {
    DivMod(x, p);
    DivMod(x % p + i, p);
    var q, k, r := x / p, (x % p + i) / p, (x % p + i) % p;
    assert x + i == (q + k) * p + r by { assert q * p + k * p == (q + k) * p; }
    Unique(x + i, p, q + k, r);
  }

  /** Going on from where a write has come to. */
  lemma {:induction false} WrappedOn(a: nat, k: nat, i: nat, p: nat)
    requires p > 0
    ensures Wrapped(a, k + i, p) == Wrapped(Wrapped(a, k, p), i, p)
  {
    var w := Wrapped(a, k, p);
    DivMod(a, p);
    Unique(w, p, a / p, (a % p + k) % p);
    ModAdd(a % p + k, i, p);
  }

  lemma {:induction false} ProgrammedOn(mem: seq<octet>, a: nat, x: seq<octet>, y: seq<octet>, p: nat)
    requires p > 0
    ensures Programmed(Eeprom, mem, a, x + y, p)
         == Programmed(Eeprom, Programmed(Eeprom, mem, a, x, p), Wrapped(a, |x|, p), y, p)
  {
    if y == [] {
      assert x + y == x;
    } else {
      var last := |y| - 1;
      assert (x + y)[..|x + y| - 1] == x + y[..last];
      ProgrammedOn(mem, a, x, y[..last], p);
      WrappedOn(a, |x|, last, p);
    }
  }

  lemma {:induction false} Multiple(m: nat, d: nat, n: nat, page: nat)
    requires page > 0 && m * page + d < n * page
    ensures m * page + page <= n * page
  {
    if m >= n { Monotone(n, m, page); }
    Monotone(m + 1, n, page);
  }

  /** A page in a bank of `n` pages: the `m`-th page of the `q`-th bank. */
  lemma {:induction false} PageInBank(a: nat, q: nat, n: nat, m: nat, d: nat, page: nat)
    requires page > 0 && d < page && a == q * (n * page) + (m * page + d)
    ensures a % page == d
  {
    Expand(q, n, m, page);
    Unique(a, page, q * n + m, d);
  }

  /** The rest of a page lies in the bank. */
  lemma {:induction false} RoomInBank(a: nat, page: nat, p: nat)
    requires page > 0 && p > 0 && p % page == 0
    ensures a % p % page == a % page && a % p + (page - a % page) <= p
  {
    var q, r, n := a / p, a % p, p / page;
    var m, d := r / page, r % page;
    DivMod(a, p);
    DivMod(r, page);
    DivMod(p, page);
    PageInBank(a, q, n, m, d, page);
    Multiple(m, d, n, page);
  }

  /** Inside a page, it does not matter how far the chip's address counter would go. */
  lemma {:induction false} PageOrBank(mem: seq<octet>, a: nat, data: seq<octet>, page: nat, p: nat)
    requires page > 0 && p > 0 && p % page == 0 && InOnePage(a, |data|, page)
    ensures Programmed(Eeprom, mem, a, data, page) == Programmed(Eeprom, mem, a, data, p)
  {
    if data != [] {
      var last := |data| - 1;
      PageOrBank(mem, a, data[..last], page, p);
      RoomInBank(a, page, p);
      WrappedInPage(a, last, page);
      WrappedInPage(a, last, p);
    }
  }

  lemma {:induction false} NextLocation(c: Layout, start: nat, target: nat, n: nat)
    requires Whole(c)
    ensures c.Location(start, target) % c.page == target % c.page
    ensures c.Location(start, target + n) == Wrapped(c.Location(start, target), n, c.Span())
  {
    var b, p := c.bank(start), c.Span();
    var a := c.Location(start, target);
    Unique(a, p, b, target % p);
    RoomInBank(a, c.page, p);
    RoomInBank(target, c.page, p);
    ModAdd(target, n, p);
  }

  lemma {:induction false} ChunkWraps(c: Layout, s: State, start: nat, target: nat, data: seq<octet>)
    requires Whole(c) && !s.busy && AllThrough(s.script, 1) && InOnePage(target, |data|, c.page)
    ensures var s' := ChunkWriting(c, s, start, target, data);
      && s'.mem == Programmed(Eeprom, s.mem, c.Location(start, target), data, c.Span())
      && s'.script == s.script[1..] && !s'.busy
  {
    assert data[..|data|] == data;
    NextLocation(c, start, target, 0);
    PageOrBank(s.mem, c.Location(start, target), data, c.page, c.Span());
  }

  /** The first turn of the loop, and where it leaves off. */
  lemma {:induction false} FirstWraps(c: Layout, s: State, start: nat, target: nat, buf: seq<octet>, s': State)
    returns (n: nat, s1: State, rest: seq<octet>)
    requires Whole(c) && !s.busy && AllThrough(s.script, |buf|) && buf != []
    requires s' == BlockWriting(c, s, start, target, buf)
    ensures 0 < n <= |buf| && rest == buf[n..] && s' == BlockWriting(c, s1, start, target + n, rest)
    ensures s1.mem == Programmed(Eeprom, s.mem, c.Location(start, target), buf[..n], c.Span())
    ensures !s1.busy && AllThrough(s1.script, |rest|)
  {
    n := ChunkLength(target, |buf|, c.page);
    rest := buf[n..];
    s1 := ChunkWriting(c, s, start, target, buf[..n]);
    NextChunk(c, s, start, target, buf, buf[..n], rest);
    ChunkWraps(c, s, start, target, buf[..n]);
  }

  lemma {:induction false} ChunksWrap(c: Layout, s: State, start: nat, target: nat, buf: seq<octet>, s': State)
    requires Whole(c) && !s.busy && AllThrough(s.script, |buf|) && s' == BlockWriting(c, s, start, target, buf)
    ensures s'.mem == Programmed(Eeprom, s.mem, c.Location(start, target), buf, c.Span())
    decreases |buf|
  {
    if buf != [] {
      var n, s1, rest := FirstWraps(c, s, start, target, buf, s');
      ChunksWrap(c, s1, start, target + n, rest, s');
      NextLocation(c, start, target, n);
      assert buf[..n] + rest == buf;
      ProgrammedOn(s.mem, c.Location(start, target), buf[..n], rest, c.Span());
    }
  }

  /** eeprom_write_block makes one page of the bank that its start selects: what goes past the end of
      the bank overwrites its beginning. */
  lemma {:induction false} BlockWraps(c: Layout, s: State, addr: nat, buf: seq<octet>)
    requires Whole(c) && !s.busy && AllThrough(s.script, |buf|)
    ensures BlockWriting(c, s, addr, addr, buf).mem
         == Programmed(Eeprom, s.mem, c.Location(addr, addr), buf, c.Span())
  {
    ChunksWrap(c, s, addr, addr, buf, BlockWriting(c, s, addr, addr, buf));
  }

  ghost predicate WritesFlat(c: Layout, s: State, addr: nat, buf: seq<octet>)
    requires c.Valid()
  {
    BlockWriting(c, s, addr, addr, buf).mem == Written(Eeprom, s.mem, addr, buf)
  }

  /** A memory and a buffer, in a run in which every transfer gets through. */
  ghost predicate Undisturbed(s: State, buf: seq<octet>, size: nat, len: nat) {
    |s.mem| == size && |buf| == len && !s.busy && AllThrough(s.script, len)
  }

  lemma {:induction false} InBankIsFlat(c: Layout, s: State, addr: nat, buf: seq<octet>)
    requires Whole(c) && InBank(c, addr, |buf|) && buf != [] && Undisturbed(s, buf, |s.mem|, |buf|)
    ensures WritesFlat(c, s, addr, buf)
  {
    var b, p := c.bank(addr), c.Span();
    BlockWraps(c, s, addr, buf);
    LocationInBank(c, addr, addr);
    Unique(addr, p, b, addr - b * p);
    InPageIsFlat(Eeprom, s.mem, addr, buf, p);
  }

  /** A byte outside the bank that is selected does not arrive. */
  lemma {:induction false} OutsideStays(c: Layout, s: State, addr: nat, buf: seq<octet>, x: nat)
    requires Whole(c) && Undisturbed(s, buf, |s.mem|, |buf|) && x < |s.mem|
    requires !(c.bank(addr) * c.Span() <= x < c.bank(addr) * c.Span() + c.Span())
    ensures var mem := BlockWriting(c, s, addr, addr, buf).mem; |mem| == |s.mem| && mem[x] == s.mem[x]
  {
    BlockWraps(c, s, addr, buf);
    Unique(c.Location(addr, addr), c.Span(), c.bank(addr), addr % c.Span());
    CrossingIsLost(Eeprom, s.mem, c.Location(addr, addr), buf, c.Span(), x);
  }

  lemma {:induction false} OutsideIsLost(c: Layout, addr: nat, len: nat, size: nat) returns (s: State, buf: seq<octet>)
    requires Whole(c) && len > 0 && addr + len <= size && !InBank(c, addr, len)
    ensures Undisturbed(s, buf, size, len) && !WritesFlat(c, s, addr, buf)
  {
    s := State(seq(size, _ => 0), false, seq(len, _ => Through), []);
    buf := seq(len, _ => 1);
    var x := if addr < c.bank(addr) * c.Span() then addr else addr + len - 1;
    OutsideStays(c, s, addr, buf, x);
    assert Written(Eeprom, s.mem, addr, buf)[x] == 1;
  }

  /** Blocks are written as they should be, whatever memory and buffer hold, exactly when they lie in
      the bank that their start selects. */
  lemma {:induction false} FlatExactlyWhen(c: Layout, addr: nat, len: nat, size: nat)
    requires Whole(c) && len > 0 && addr + len <= size
    ensures (forall s, buf | Undisturbed(s, buf, size, len) :: WritesFlat(c, s, addr, buf)) <==> InBank(c, addr, len)
  {
    if InBank(c, addr, len) {
      forall s, buf | Undisturbed(s, buf, size, len) ensures WritesFlat(c, s, addr, buf) {
        InBankIsFlat(c, s, addr, buf);
      }
    } else {
      var s, buf := OutsideIsLost(c, addr, len, size);
    }
  }

  /** A 2 KB chip in banks of 256 bytes, as set in keyboards/tau4/config.h:22-27. */
  const BANKED := Layout(16, 1, (loc: nat) => loc / 0x100 % 8, 2048)

  /** Sixteen bytes across the end of bank 0: the last eight overwrite its beginning, and bank 1 gets
      nothing. */
  lemma {:induction false} CrossingOverwrites(s: State, buf: seq<octet>, mem': seq<octet>)
    requires Undisturbed(s, buf, 2048, 16) && mem' == BlockWriting(BANKED, s, 0xF8, 0xF8, buf).mem
    ensures |mem'| == 2048
    ensures mem'[0xF8..0x100] == buf[..8] && mem'[..8] == buf[8..] && mem'[0x100..0x108] == s.mem[0x100..0x108]
  {
    BankedLocation();
    BlockWraps(BANKED, s, 0xF8, buf);
    TwoHalves(s.mem, buf, mem');
  }

  lemma {:induction false} BankedLocation()
    ensures BANKED.Span() == 0x100 && Whole(BANKED) && BANKED.Location(0xF8, 0xF8) == 0xF8
  {
    assert Pow256(1) == 0x100 * Pow256(0);
  }

  lemma {:induction false} TwoHalves(mem: seq<octet>, buf: seq<octet>, mem': seq<octet>)
    requires |mem| == 2048 && |buf| == 16 && mem' == Programmed(Eeprom, mem, 0xF8, buf, 0x100)
    ensures mem'[0xF8..0x100] == buf[..8] && mem'[..8] == buf[8..] && mem'[0x100..0x108] == mem[0x100..0x108]
  {
    assert buf == buf[..8] + buf[8..];
    ProgrammedOn(mem, 0xF8, buf[..8], buf[8..], 0x100);
    InPageIsFlat(Eeprom, mem, 0xF8, buf[..8], 0x100);
    InPageIsFlat(Eeprom, Written(Eeprom, mem, 0xF8, buf[..8]), 0, buf[8..], 0x100);
  }

  // ---------------------------------------------------------------------------- reading

  /** What is in the buffer, if the chip got its address. */
  lemma {:induction false} BlockReads(c: Layout, s: State, addr: nat, into: seq<octet>)
    requires c.Valid() && !s.busy && s.script != [] && s.script[0].Through?
    ensures var n, data := Taken(NextTransfer(s.(script := s.script[1..])), 0, |into|), BlockReading(c, s, addr, into);
      && data[..n] == Fetched(c, s.mem, c.Location(addr, addr), |into|)[..n] && data[n..] == into[n..]
      && (|s.script| > 1 && s.script[1].Through? ==> n == |into|)
  {
  }

  ghost predicate FetchesFlat(c: Layout, mem: seq<octet>, addr: nat, len: nat)
    requires c.Valid() && addr + len <= |mem|
  {
    Fetched(c, mem, c.Location(addr, addr), len) == mem[addr..addr + len]
  }

  lemma {:induction false} FetchedAstray(c: Layout, addr: nat, len: nat, size: nat, i: nat) returns (mem: seq<octet>)
    requires c.Valid() && i < len && addr + len <= size && Wrapped(c.Location(addr, addr), i, c.reach) != addr + i
    ensures |mem| == size && !FetchesFlat(c, mem, addr, len)
  {
    mem := seq(size, k => if k == addr + i then 1 else 0);
    assert Fetched(c, mem, c.Location(addr, addr), len)[i] != 1;
    assert mem[addr..addr + len][i] == 1;
  }

  /** Blocks are read as they should be, whatever memory holds, exactly when their start selects the
      bank it lies in, and they end before the chip's address counter starts over: for a counter that
      stays in its bank, at the end of the bank. */
  lemma {:induction false} ReadsExactlyWhen(c: Layout, addr: nat, len: nat, size: nat)
    requires c.Valid() && len > 0 && addr + len <= size
    ensures (forall mem: seq<octet> | |mem| == size :: FetchesFlat(c, mem, addr, len))
       <==> InBank(c, addr, 1) && InOnePage(addr, len, c.reach)
  {
    LocationInBank(c, addr, addr);
    var a := c.Location(addr, addr);
    if a != addr {
      SmallMod(a % c.reach, c.reach);
      var mem := FetchedAstray(c, addr, len, size, 0);
    } else if !InOnePage(addr, len, c.reach) {
      var mem := FetchedAstray(c, addr, len, size, c.reach - addr % c.reach);
    } else {
      forall mem: seq<octet> | |mem| == size ensures FetchesFlat(c, mem, addr, len) {
        forall i | 0 <= i < len ensures Wrapped(addr, i, c.reach) == addr + i { WrappedInPage(addr, i, c.reach); }
      }
    }
  }

  // ------------------------------------------------------------------- when it ends

  /** The packet loops of a block all end exactly when pages are no longer than 255 bytes, or the block
      touches at most two pages, with at most 255 bytes in each. */
  lemma {:induction false} WriteEndsExactlyWhen(addr: nat, len: nat, page: nat)
    requires page > 0
    ensures ChunksEnd(addr, len, page)
       <==> page <= 0xFF || (var n := page - addr % page;
              if len <= n then len <= 0xFF else n <= 0xFF && len - n <= 0xFF)
    decreases len
  {
    if len > 0 {
      var n := ChunkLength(addr, len, page);
      if n < len { NextPageStarts(addr, page); }
      WriteEndsExactlyWhen(addr + n, len - n, page);
    }
  }

  lemma {:induction false} NextPageStarts(x: nat, page: nat)
    requires page > 0
    ensures (x + (page - x % page)) % page == 0
  {
    var q := x / page;
    DivMod(x, page);
    assert x + (page - x % page) == (q + 1) * page;
    Unique((q + 1) * page, page, q + 1, 0);
  }
}
