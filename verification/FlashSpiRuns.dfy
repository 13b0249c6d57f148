/** What the SPI flash driver promises, whatever the script of the bus and the chip
    (drivers/flash/flash_spi.c:72-376). */
module FlashSpiRuns {
  import opened Arithmetic
  import opened PagedMemory
  import opened SpiChip
  import opened FlashSpi

  ghost predicate Fits(g: Geometry, s: State) { g.page > 0 && |s.mem| <= Pow256(g.addressSize) }

  /** What happened between two states. */
  function Since(s: State, s': State): seq<Event> { if |s.log| <= |s'.log| then s'.log[|s.log|..] else [] }

  // --------------------------------------------------------------------- the busy wait

  /** The only thing a wait can note is a status read that looked idle while the chip was not;
      when it ends well the chip is still busy exactly in this case. */
  lemma {:induction false} WaitIsIdleExactlyWhen(s: State)
    ensures var w := Waiting(s);
      && w.chip.mem == s.mem && w.chip.enabled == s.enabled && s.log <= w.chip.log
      && (forall e | e in Since(s, w.chip) :: e == Misread)
      && (w.response == Success ==> (w.chip.busy <==> Misread in Since(s, w.chip)))
      && (w.chip.busy ==> s.busy)
    decreases |s.script|
  {
    var s1 := Started(s);
    if s1.now.start && !s1.now.expired && WipSet(StatusOf(s1)) {
      assert StatusTaken(s1) == s1;
      WaitIsIdleExactlyWhen(s1);
      assert Since(s, Waiting(s1).chip) == Since(s1, Waiting(s1).chip);
    } else if s1.now.start {
      assert Since(s, StatusTaken(s1)) == if s1.busy && !WipSet(StatusOf(s1)) then [Misread] else [];
    }
  }

  /** A status that looks idle whatever the chip does: a time-out does, its lowest bit being clear. */
  predicate LooksIdle(r: StatusRead) { r.TimedOut? || (r.Noise? && !WipSet(r.value)) }

  /** No status read of the script can be taken for idle. */
  predicate StatusesHold(script: seq<Answer>) { forall i | 0 <= i < |script| :: !LooksIdle(script[i].status) }

  /** Every single command byte arrives. */
  predicate CommandsArrive(script: seq<Answer>) { forall i | 0 <= i < |script| :: script[i].command }

  /** The bus starts, deadlines hold and transfers get through. */
  predicate Good(a: Answer) { a.start && !a.expired && a.Sent() }
  predicate GoodBus(script: seq<Answer>) { forall i | 0 <= i < |script| :: Good(script[i]) }

  /** A driver function that only takes answers from the script and notes events, and that on a good
      bus gets everything through and fails only when the script has run out. */
  ghost predicate Behaves(s: State, e: Ended) {
    && |e.chip.mem| == |s.mem| && s.log <= e.chip.log
    && (StatusesHold(s.script) ==> StatusesHold(e.chip.script) && Misread !in Since(s, e.chip))
    && (CommandsArrive(s.script) ==> CommandsArrive(e.chip.script) && CommandLost !in Since(s, e.chip))
    && (GoodBus(s.script) ==>
          && GoodBus(e.chip.script) && (e.response == Success || e.chip.script == [])
          && BrokenOff !in Since(s, e.chip) && Unsent !in Since(s, e.chip))
  }

  lemma {:induction false} StartBehaves(s: State)
    ensures var s1 := Started(s);
      && (StatusesHold(s.script) ==> StatusesHold(s1.script))
      && (CommandsArrive(s.script) ==> CommandsArrive(s1.script))
      && (GoodBus(s.script) ==> GoodBus(s1.script))
      && s1.log == s.log && s1.mem == s.mem && s1.enabled == s.enabled
      && (s1.busy ==> s.busy)
      && (!s1.now.start && GoodBus(s.script) ==> s1.script == [])
      && (s1.now.start ==> s.script != [] && s1.now == s.script[0])
  {
  }

  lemma {:induction false} WaitBehaves(s: State)
    ensures Behaves(s, Waiting(s))
    decreases |s.script|
  {
    var s1 := Started(s);
    StartBehaves(s);
    if s1.now.start && !s1.now.expired && WipSet(StatusOf(s1)) {
      WaitBehaves(StatusTaken(s1));
    } else if s1.now.start {
      assert Since(s, StatusTaken(s1)) == if s1.busy && !WipSet(StatusOf(s1)) then [Misread] else [];
    }
  }

  lemma {:induction false} EnableBehaves(s: State, on: bool)
    ensures var e := WriteEnabling(s, on);
      && Behaves(s, e) && e.chip.mem == s.mem
      && Since(s, e.chip) == (if e.response == Success && !e.chip.now.command then [CommandLost] else [])
      && (e.response == Success && CommandLost !in Since(s, e.chip) ==> e.chip.busy || e.chip.enabled == on)
      && (e.chip.busy ==> s.busy)
  {
    StartBehaves(s);
  }

  /** One after the other. */
  lemma {:induction false} BothBehave(s: State, first: Ended, second: Ended)
    requires Behaves(s, first) && first.response == Success && Behaves(first.chip, second)
    ensures Behaves(s, second) && Since(s, second.chip) == Since(s, first.chip) + Since(first.chip, second.chip)
  {
  }

  // ---------------------------------------------------------------------------- writing

  /** The bus takes the script's next answer, and the chip may have finished by then; of a part that breaks off
      arrives a prefix. */
  lemma {:induction false} ScriptDecides(s: State, p: Part, bytes: seq<octet>)
    ensures s.script != [] ==>
      Started(s) == s.(script := s.script[1..], now := s.script[0], busy := s.busy && !s.script[0].finished)
    ensures s.script == [] ==> Started(s) == s.(now := DEAD)
    ensures Cut(p, bytes) == if p.Whole? || p.n >= |bytes| then bytes else bytes[..p.n]
  {
  }

  /** A chip that is idle and enabled takes a program or an erase, and is busy and protected then; any other
      takes none. */
  lemma {:induction false} TakesExactlyWhenReady(g: Geometry, s: State, addr: nat, data: seq<octet>, size: nat)
    requires g.page > 0
    ensures var p := Programming(g, s, addr, data);
      if !s.busy && s.enabled then p.busy && !p.enabled && p.mem == Programmed(g.kind, s.mem, addr, data, g.page)
      else p.busy == s.busy && p.enabled == s.enabled && p.mem == s.mem
    ensures var e := Erasing(s, addr, size);
      if !s.busy && s.enabled then
        && e.busy && !e.enabled && |e.mem| == |s.mem|
        && forall i | 0 <= i < |s.mem| :: e.mem[i] == if addr <= i < addr + size then 0xFF else s.mem[i]
      else e.busy == s.busy && e.enabled == s.enabled && e.mem == s.mem
  {
  }

  /** Every program and erase found the chip idle, unless it had been taken for idle, and enabled,
      unless also a command had been lost. */
  ghost predicate InOrder(events: seq<Event>) {
    forall e | e in events && (e.Program? || e.Erase?) ::
      && (e.idle || Misread in events)
      && (e.enabled || Misread in events || CommandLost in events)
  }

  /** No program leaves its page. */
  ghost predicate WithinPages(events: seq<Event>, page: nat)
    requires page > 0
  {
    forall e | e in events && e.Program? :: InOnePage(e.addr, |e.data|, page)
  }

  /** How many bytes arrived at the chip. */
  function Taken(events: seq<Event>): nat {
    if events == [] then 0
    else
      var last := events[|events| - 1];
      Taken(events[..|events| - 1]) + if last.Program? then |last.data| else 0
  }

  lemma {:induction false} TakenConcat(a: seq<Event>, b: seq<Event>)
    ensures Taken(a + b) == Taken(a) + Taken(b)
  {
    if b == [] {
      assert a + b == a;
    } else {
      TakenConcat(a, b[..|b| - 1]);
      assert (a + b)[..|a + b| - 1] == a + b[..|b| - 1];
    }
  }

  lemma {:induction false} NothingTaken(events: seq<Event>)
    requires forall e | e in events :: !e.Program?
    ensures Taken(events) == 0
  {
    if events != [] {
      assert events[|events| - 1] in events;
      NothingTaken(events[..|events| - 1]);
    }
  }

  /** Nothing was misread and no command lost. */
  ghost predicate Clean(events: seq<Event>) { Misread !in events && CommandLost !in events }

  /** The writing of `buf` got as far as `Taken(events)` bytes, in order and within pages. */
  ghost predicate Writes(g: Geometry, s: State, e: Ended, addr: nat, buf: seq<octet>)
    requires g.page > 0
  {
    var events := Since(s, e.chip);
    && InOrder(events) && WithinPages(events, g.page) && Taken(events) <= |buf|
    && (e.response == Success ==> Taken(events) == |buf|)
    && (Clean(events) ==> e.chip.mem == Written(g.kind, s.mem, addr, buf[..Taken(events)]))
  }

  lemma {:induction false} WrittenNothing(kind: Kind, mem: seq<octet>, addr: nat)
    ensures Written(kind, mem, addr, []) == mem
  {
  }

  /** What arrives of the data. */
  function Arriving(s1: State, data: seq<octet>): (got: seq<octet>)
    ensures got <= data
  {
    if s1.now.start && s1.now.header.Whole? then Cut(s1.now.data, data) else []
  }

  /** The events of the transaction that programs one chunk. */
  function ProgramEvents(s1: State, addr: nat, data: seq<octet>): seq<Event> {
    var arriving := Arriving(s1, data);
    var program := if arriving == [] then [] else [Program(addr, arriving, !s1.busy, s1.enabled)];
    if !s1.now.start then []
    else if !s1.now.header.Whole? then [Unsent]
    else if s1.now.data.Whole? then program
    else [BrokenOff] + program
  }

  lemma {:induction false} TransactionEvents(g: Geometry, s: State, addr: nat, data: seq<octet>)
    requires Fits(g, s) && InOnePage(addr, |data|, g.page) && addr + |data| <= |s.mem| && data != []
    ensures var s1, e := Started(s), Transacting(g, s, addr, data);
      && s.log <= e.chip.log && Since(s, e.chip) == ProgramEvents(s1, addr, data) && e.chip.script == s1.script
      && (e.response == Success <==> s1.now.start && s1.now.Sent())
      && e.chip.mem == (if s1.Ready() then Programmed(g.kind, s.mem, addr, Arriving(s1, data), g.page) else s.mem)
  {
    SmallMod(addr, Pow256(g.addressSize));
  }

  /** What was lost, and then one program unless there was nothing left to program. */
  lemma {:induction false} AtMostOneProgram(losses: seq<Event>, addr: nat, got: seq<octet>, idle: bool, enabled: bool,
                                            page: nat)
    requires page > 0 && InOnePage(addr, |got|, page) && forall x | x in losses :: !x.Program?
    ensures var events := losses + if got == [] then [] else [Program(addr, got, idle, enabled)];
      WithinPages(events, page) && Taken(events) == |got|
  {
    var program := [Program(addr, got, idle, enabled)];
    NothingTaken(losses);
    assert losses + [] == losses && (losses + program)[..|losses|] == losses;
  }

  lemma {:induction false} ProgramTakes(s1: State, addr: nat, data: seq<octet>, events: seq<Event>, page: nat)
    requires page > 0 && InOnePage(addr, |data|, page) && events == ProgramEvents(s1, addr, data)
    ensures WithinPages(events, page) && Taken(events) == |Arriving(s1, data)|
    ensures Arriving(s1, data) == data[..|Arriving(s1, data)|]
  {
    var losses := if !s1.now.start || s1.now.Sent() then [] else if s1.now.header.Whole? then [BrokenOff] else [Unsent];
    var got := Arriving(s1, data);
    assert events == losses + if got == [] then [] else [Program(addr, got, !s1.busy, s1.enabled)];
    AtMostOneProgram(losses, addr, got, !s1.busy, s1.enabled, page);
  }

  lemma {:induction false} TransactionBehaves(g: Geometry, s: State, addr: nat, data: seq<octet>)
    requires Fits(g, s) && InOnePage(addr, |data|, g.page) && addr + |data| <= |s.mem| && data != []
    ensures Behaves(s, Transacting(g, s, addr, data)) && Clean(ProgramEvents(Started(s), addr, data))
  {
    StartBehaves(s);
    TransactionEvents(g, s, addr, data);
  }

  lemma {:induction false} TransactionMemory(g: Geometry, s: State, addr: nat, data: seq<octet>, got: seq<octet>)
    requires Fits(g, s) && InOnePage(addr, |data|, g.page) && addr + |data| <= |s.mem| && data != []
    requires !s.busy && s.enabled && got == Arriving(Started(s), data)
    ensures Transacting(g, s, addr, data).chip.mem == Written(g.kind, s.mem, addr, got)
  {
    StartBehaves(s);
    TransactionEvents(g, s, addr, data);
    InPageIsFlat(g.kind, s.mem, addr, got, g.page);
  }

  /** The transaction that programs one chunk. */
  lemma {:induction false} TransactionWrites(g: Geometry, s: State, addr: nat, data: seq<octet>, events: seq<Event>)
    requires Fits(g, s) && InOnePage(addr, |data|, g.page) && addr + |data| <= |s.mem| && data != []
    requires events == ProgramEvents(Started(s), addr, data)
    ensures var e := Transacting(g, s, addr, data);
      && Since(s, e.chip) == events && WithinPages(events, g.page) && Taken(events) <= |data|
      && (e.response == Success ==> Taken(events) == |data|)
      && (e.response != Success ==> Taken(events) == 0 || BrokenOff in events)
      && (!s.busy && s.enabled ==> e.chip.mem == Written(g.kind, s.mem, addr, data[..Taken(events)]))
  {
    TransactionEvents(g, s, addr, data);
    ProgramTakes(Started(s), addr, data, events, g.page);
    if !s.busy && s.enabled { TransactionMemory(g, s, addr, data, Arriving(Started(s), data)); }
  }

  /** The chip is idle and enabled, unless something was misread or lost on the way. */
  ghost predicate Prepared(s: State, p: Ended) {
    var events := Since(s, p.chip);
    && Behaves(s, p) && p.response == Success && p.chip.mem == s.mem && Taken(events) == 0
    && (forall x | x in events :: x == Misread || x == CommandLost)
    && (p.chip.busy ==> Misread in events)
    && (p.chip.busy || p.chip.enabled || CommandLost in events)
  }

  /** What a wait that ended well leaves. */
  ghost predicate Waited(s: State, w: Ended) {
    && Behaves(s, w) && w.response == Success && w.chip.mem == s.mem
    && (forall x | x in Since(s, w.chip) :: x == Misread)
    && (w.chip.busy ==> Misread in Since(s, w.chip))
  }

  /** A command byte that is sent after it: noted if it is lost. */
  lemma {:induction false} WaitedThenEnabled(s: State, w: Ended, p: Ended, lost: seq<Event>)
    requires Waited(s, w) && Behaves(w.chip, p) && p.response == Success && p.chip.mem == w.chip.mem
    requires Since(w.chip, p.chip) == lost && (lost == [] || lost == [CommandLost])
    requires (p.chip.busy ==> w.chip.busy) && (lost == [] ==> p.chip.busy || p.chip.enabled)
    ensures Prepared(s, p)
  {
    var waited := Since(s, w.chip);
    BothBehave(s, w, p);
    NothingTaken(waited + lost);
  }

  lemma {:induction false} WaitThenEnable(s: State, w: Ended, p: Ended)
    requires w == Waiting(s) && w.response == Success && p == WriteEnabling(w.chip, true) && p.response == Success
    ensures Prepared(s, p)
  {
    WaitIsIdleExactlyWhen(s);
    WaitBehaves(s);
    EnableBehaves(w.chip, true);
    WaitedThenEnabled(s, w, p, Since(w.chip, p.chip));
  }

  lemma {:induction false} ProgramIsInOrder(before: seq<Event>, s: State, addr: nat, data: seq<octet>)
    requires forall x | x in before :: x == Misread || x == CommandLost
    requires s.busy ==> Misread in before
    requires s.busy || s.enabled || CommandLost in before
    ensures InOrder(before + ProgramEvents(Started(s), addr, data))
  {
    var events := before + ProgramEvents(Started(s), addr, data);
    StartBehaves(s);
    if Misread in before { assert Misread in events; }
    if CommandLost in before { assert CommandLost in events; }
  }

  /** A chunk that ended early did so before any byte, or was broken off. */
  ghost predicate WritesChunk(g: Geometry, s: State, e: Ended, addr: nat, data: seq<octet>)
    requires g.page > 0
  {
    && Behaves(s, e) && Writes(g, s, e, addr, data)
    && (e.response != Success ==> Taken(Since(s, e.chip)) == 0 || BrokenOff in Since(s, e.chip))
  }

  /** The events of a chunk, `before` the program and `more` of it. */
  lemma {:induction false} ChunkEvents(g: Geometry, s: State, p: Ended, addr: nat, data: seq<octet>,
                                      before: seq<Event>, more: seq<Event>)
    requires g.page > 0 && Prepared(s, p) && before == Since(s, p.chip)
    requires more == ProgramEvents(Started(p.chip), addr, data) && WithinPages(more, g.page)
    ensures InOrder(before + more) && WithinPages(before + more, g.page) && Taken(before + more) == Taken(more)
    ensures Clean(before + more) ==> !p.chip.busy && p.chip.enabled
  {
    TakenConcat(before, more);
    ProgramIsInOrder(before, p.chip, addr, data);
    if Misread in before { assert Misread in before + more; }
    if CommandLost in before { assert CommandLost in before + more; }
  }

  lemma {:induction false} PreparedThenWrites(g: Geometry, s: State, p: Ended, e: Ended, addr: nat, data: seq<octet>)
    requires Fits(g, s) && InOnePage(addr, |data|, g.page) && addr + |data| <= |s.mem| && data != []
    requires Prepared(s, p) && e == Transacting(g, p.chip, addr, data)
    ensures WritesChunk(g, s, e, addr, data)
  {
    var before, more := Since(s, p.chip), ProgramEvents(Started(p.chip), addr, data);
    TransactionBehaves(g, p.chip, addr, data);
    TransactionWrites(g, p.chip, addr, data, more);
    ChunkEvents(g, s, p, addr, data, before, more);
    BothBehave(s, p, e);
  }

  /** Nothing is written if it did not come to the program. */
  lemma {:induction false} EndedBefore(g: Geometry, s: State, e: Ended, addr: nat, data: seq<octet>)
    requires g.page > 0 && Behaves(s, e) && e.response != Success && e.chip.mem == s.mem
    requires forall x | x in Since(s, e.chip) :: x == Misread || x == CommandLost
    ensures WritesChunk(g, s, e, addr, data)
  {
    WrittenNothing(g.kind, s.mem, addr);
    assert data[..0] == [];
    NothingTaken(Since(s, e.chip));
  }

  lemma {:induction false} ChunkWrites(g: Geometry, s: State, addr: nat, data: seq<octet>) returns (e: Ended)
    requires Fits(g, s) && InOnePage(addr, |data|, g.page) && addr + |data| <= |s.mem| && data != []
    ensures e == ChunkWriting(g, s, addr, data) && WritesChunk(g, s, e, addr, data)
  {
    var w := Waiting(s);
    e := w;
    WaitIsIdleExactlyWhen(s);
    WaitBehaves(s);
    if w.response != Success {
      EndedBefore(g, s, w, addr, data);
    } else {
      var p := WriteEnabling(w.chip, true);
      e := p;
      if p.response != Success {
        EnableBehaves(w.chip, true);
        BothBehave(s, w, p);
        EndedBefore(g, s, p, addr, data);
      } else {
        WaitThenEnable(s, w, p);
        e := Transacting(g, p.chip, addr, data);
        PreparedThenWrites(g, s, p, e, addr, data);
      }
    }
  }

  /** Where a write can end that was not broken off: at the end of a page, or of the buffer. */
  predicate ChunkEnd(addr: nat, n: nat, len: nat, page: nat)
    requires page > 0
  {
    n == 0 || n == len || (addr + n) % page == 0
  }

  lemma {:induction false} NextPage(x: nat, page: nat)
    requires page > 0
    ensures (x + (page - x % page)) % page == 0
  {
    var q := x / page;
    assert x == q * page + x % page;
    assert x + (page - x % page) == (q + 1) * page;
    Unique((q + 1) * page, page, q + 1, 0);
  }

  lemma {:induction false} InOrderConcat(a: seq<Event>, b: seq<Event>)
    requires InOrder(a) && InOrder(b)
    ensures InOrder(a + b)
  {
    forall e | e in a + b && (e.Program? || e.Erase?)
      ensures (e.idle || Misread in a + b) && (e.enabled || Misread in a + b || CommandLost in a + b)
    {
    }
  }

  /** A whole chunk, and then the rest. */
  lemma {:induction false} ChunkThenRest(g: Geometry, s: State, first: Ended, e: Ended, addr: nat, buf: seq<octet>,
                                         n: nat)
    requires g.page > 0 && n <= |buf| && addr + |buf| <= |s.mem|
    requires Behaves(s, first) && first.response == Success && Behaves(first.chip, e)
    requires Writes(g, s, first, addr, buf[..n]) && Writes(g, first.chip, e, addr + n, buf[n..])
    ensures Behaves(s, e) && Writes(g, s, e, addr, buf)
    ensures Since(s, e.chip) == Since(s, first.chip) + Since(first.chip, e.chip)
    ensures Taken(Since(s, e.chip)) == n + Taken(Since(first.chip, e.chip))
  {
    var a, b := Since(s, first.chip), Since(first.chip, e.chip);
    BothBehave(s, first, e);
    TakenConcat(a, b);
    InOrderConcat(a, b);
    if Clean(a + b) {
      assert Clean(a) && Clean(b);
      TwoWrites(g.kind, s.mem, first.chip.mem, e.chip.mem, addr, buf, n, Taken(b));
    }
  }

  lemma {:induction false} TwoWrites(kind: Kind, mem: seq<octet>, mem1: seq<octet>, mem2: seq<octet>, addr: nat,
                                    buf: seq<octet>, n: nat, k: nat)
    requires n <= |buf| && k <= |buf| - n && addr + |buf| <= |mem|
    requires mem1 == Written(kind, mem, addr, buf[..n][..n]) && mem2 == Written(kind, mem1, addr + n, buf[n..][..k])
    ensures mem2 == Written(kind, mem, addr, buf[..n + k])
  {
    assert buf[..n][..n] == buf[..n] && buf[..n] + buf[n..][..k] == buf[..n + k];
    WrittenTwice(kind, mem, addr, buf[..n], buf[n..][..k]);
  }

  lemma {:induction false} FirstChunkOnly(g: Geometry, s: State, e: Ended, addr: nat, buf: seq<octet>, n: nat)
    requires g.page > 0 && n <= |buf| && e.response != Success && Writes(g, s, e, addr, buf[..n])
    ensures Writes(g, s, e, addr, buf)
  {
    var k := Taken(Since(s, e.chip));
    assert buf[..n][..k] == buf[..k];
  }

  /** What is written, and where it stopped. */
  ghost predicate WritesChunks(g: Geometry, s: State, e: Ended, addr: nat, buf: seq<octet>)
    requires g.page > 0
  {
    Behaves(s, e) && Writes(g, s, e, addr, buf) && EndsWell(Since(s, e.chip), addr, |buf|, g.page)
  }

  /** A whole number of chunks arrived, unless a transfer broke off. */
  ghost predicate EndsWell(events: seq<Event>, addr: nat, len: nat, page: nat)
    requires page > 0
  {
    BrokenOff in events || ChunkEnd(addr, Taken(events), len, page)
  }

  lemma {:induction false} ChunkEndsGoOn(addr: nat, n: nat, k: nat, len: nat, page: nat)
    requires page > 0 && len > 0 && n == ChunkLength(addr, len, page) && ChunkEnd(addr + n, k, len - n, page)
    ensures ChunkEnd(addr, n + k, len, page)
  {
    if n < len { NextPage(addr, page); }
  }

  lemma {:induction false} NoChunks(g: Geometry, s: State, addr: nat)
    requires g.page > 0
    ensures WritesChunks(g, s, Ended(Success, s), addr, [])
  {
    WrittenNothing(g.kind, s.mem, addr);
    assert Since(s, s) == [];
  }

  /** The turn of the loop that writes the first `n` bytes did so, and `rest` is left to do. */
  ghost predicate WholeChunk(g: Geometry, s: State, first: Ended, addr: nat, buf: seq<octet>, n: nat, rest: seq<octet>)
    requires g.page > 0
  {
    && buf != [] && n == ChunkLength(addr, |buf|, g.page) && rest == buf[n..] && first.response == Success
    && Behaves(s, first) && Writes(g, s, first, addr, buf[..n])
  }

  /** `step` writes one chunk as the driver does. */
  ghost predicate StepWrites(g: Geometry, step: Step)
    requires g.page > 0
  {
    forall s: State, addr: nat, data: seq<octet> |
      Fits(g, s) && InOnePage(addr, |data|, g.page) && addr + |data| <= |s.mem| && data != [] ::
      WritesChunk(g, s, At(step, s, addr, data), addr, data)
  }

  lemma {:induction false} FlashStepWrites(g: Geometry)
    requires g.page > 0
    ensures StepWrites(g, FlashStep(g))
  {
    forall s: State, addr: nat, data: seq<octet> |
      Fits(g, s) && InOnePage(addr, |data|, g.page) && addr + |data| <= |s.mem| && data != []
      ensures WritesChunk(g, s, At(FlashStep(g), s, addr, data), addr, data)
    {
      var e := ChunkWrites(g, s, addr, data);
    }
  }

  lemma {:induction false} StepWritesOne(g: Geometry, step: Step, s: State, addr: nat, buf: seq<octet>, n: nat)
    requires Fits(g, s) && addr + |buf| <= |s.mem| && buf != [] && n == ChunkLength(addr, |buf|, g.page)
    requires StepWrites(g, step)
    ensures WritesChunk(g, s, step(s, addr, buf[..n]), addr, buf[..n])
  {
    assert WritesChunk(g, s, At(step, s, addr, buf[..n]), addr, buf[..n]);
  }

  /** The first turn of the loop: it fails, or the loop goes on with the rest. */
  lemma {:induction false} FirstChunk(g: Geometry, step: Step, s: State, addr: nat, buf: seq<octet>, e: Ended)
    returns (n: nat, first: Ended, rest: seq<octet>)
    requires Fits(g, s) && addr + |buf| <= |s.mem| && buf != [] && StepWrites(g, step)
    requires e == Looping(step, g.page, s, addr, buf)
    ensures if first.response != Success then e == first && WritesChunks(g, s, e, addr, buf)
            else
              && WholeChunk(g, s, first, addr, buf, n, rest) && e == Looping(step, g.page, first.chip, addr + n, rest)
              && Fits(g, first.chip) && addr + n + |rest| <= |first.chip.mem| && |rest| < |buf|
  {
    n := ChunkLength(addr, |buf|, g.page);
    rest := buf[n..];
    first := step(s, addr, buf[..n]);
    StepWritesOne(g, step, s, addr, buf, n);
    LoopTurn(step, g.page, s, addr, buf, buf[..n], rest, addr + n, first);
    if first.response != Success { FirstChunkOnly(g, s, first, addr, buf, n); }
  }

  lemma {:induction false} ChunksGoOn(g: Geometry, s: State, first: Ended, e: Ended, addr: nat, buf: seq<octet>,
                                     n: nat, rest: seq<octet>)
    requires Fits(g, s) && addr + |buf| <= |s.mem| && WholeChunk(g, s, first, addr, buf, n, rest)
    requires WritesChunks(g, first.chip, e, addr + n, rest)
    ensures WritesChunks(g, s, e, addr, buf)
  {
    ChunkThenRest(g, s, first, e, addr, buf, n);
    EndGoesOn(Since(s, first.chip), Since(first.chip, e.chip), Since(s, e.chip), addr, n, |buf|, |rest|, g.page);
  }

  lemma {:induction false} EndGoesOn(a: seq<Event>, b: seq<Event>, all: seq<Event>, addr: nat, n: nat, len: nat,
                                     left: nat, page: nat)
    requires page > 0 && len > 0 && n == ChunkLength(addr, len, page) && left == len - n
    requires all == a + b && Taken(all) == n + Taken(b) && EndsWell(b, addr + n, left, page)
    ensures EndsWell(all, addr, len, page)
  {
    if BrokenOff !in all { ChunkEndsGoOn(addr, n, Taken(b), len, page); }
  }

  lemma {:induction false} LoopWrites(g: Geometry, step: Step, s: State, addr: nat, buf: seq<octet>, e: Ended)
    requires Fits(g, s) && addr + |buf| <= |s.mem| && StepWrites(g, step)
    requires e == Looping(step, g.page, s, addr, buf)
    ensures WritesChunks(g, s, e, addr, buf)
    decreases |buf|
  {
    if buf == [] {
      NoChunks(g, s, addr);
    } else {
      var n, first, rest := FirstChunk(g, step, s, addr, buf, e);
      if first.response == Success {
        LoopWrites(g, step, first.chip, addr + n, rest, e);
        ChunksGoOn(g, s, first, e, addr, buf, n, rest);
      }
    }
  }

  /** The loop of flash_write_block: programs stay in their pages, and what ends early without a
      broken transfer ends at the end of a page. */
  lemma {:induction false} ChunksWrite(g: Geometry, s: State, addr: nat, buf: seq<octet>, e: Ended)
    requires Fits(g, s) && addr + |buf| <= |s.mem| && e == ChunksWriting(g, s, addr, buf)
    ensures WritesChunks(g, s, e, addr, buf)
  {
    FlashStepWrites(g);
    LoopWrites(g, FlashStep(g), s, addr, buf, e);
  }

  /** What comes after the last program: a wait and a single command. */
  ghost predicate Quiet(s: State, e: Ended) {
    && Behaves(s, e) && e.chip.mem == s.mem
    && forall x | x in Since(s, e.chip) :: x == Misread || x == CommandLost
  }

  lemma {:induction false} ThenQuiet(g: Geometry, s: State, first: Ended, e: Ended, addr: nat, buf: seq<octet>)
    requires g.page > 0 && WritesChunks(g, s, first, addr, buf) && first.response == Success && Quiet(first.chip, e)
    ensures WritesChunks(g, s, e, addr, buf)
  {
    var a, b := Since(s, first.chip), Since(first.chip, e.chip);
    BothBehave(s, first, e);
    TakenConcat(a, b);
    NothingTaken(b);
    InOrderConcat(a, b);
  }

  lemma {:induction false} WaitThenDisable(s: State, w: Ended, e: Ended)
    requires w == Waiting(s) && e == (if w.response == Success then WriteEnabling(w.chip, false) else w)
    ensures Quiet(s, e)
    ensures e.response == Success && Clean(Since(s, e.chip)) ==> !e.chip.busy && !e.chip.enabled
  {
    WaitIsIdleExactlyWhen(s);
    WaitBehaves(s);
    if w.response == Success {
      EnableBehaves(w.chip, false);
      BothBehave(s, w, e);
    }
  }

  /** flash_write_block: every program stays in its page and finds the chip idle and enabled, and
      memory is the old one with what arrived written in, unless a status was misread or a command
      lost; on success all of it arrived; on an error whole chunks did, unless a transfer broke off;
      and on a good bus only the end of the script is an error. */
  lemma {:induction false} BlockWrites(g: Geometry, s: State, addr: nat, buf: seq<octet>) returns (e: Ended)
    requires Fits(g, s) && addr + |buf| <= |s.mem|
    ensures e == BlockWriting(g, s, addr, buf) && WritesChunks(g, s, e, addr, buf)
    ensures e.response == Success && Clean(Since(s, e.chip)) ==> !e.chip.busy && !e.chip.enabled
  {
    var written := ChunksWriting(g, s, addr, buf);
    ChunksWrite(g, s, addr, buf, written);
    e := written;
    if written.response == Success {
      var w := Waiting(written.chip);
      e := if w.response == Success then WriteEnabling(w.chip, false) else w;
      WaitThenDisable(written.chip, w, e);
      ThenQuiet(g, s, written, e, addr, buf);
      BothBehave(s, written, e);
    }
  }

  /** What can be told from the script before the call: if no status in it can be taken for idle and
      no command gets lost, success means that the whole buffer is written. */
  lemma {:induction false} SuccessMeansWritten(g: Geometry, s: State, addr: nat, buf: seq<octet>)
    requires Fits(g, s) && addr + |buf| <= |s.mem| && StatusesHold(s.script) && CommandsArrive(s.script)
    ensures var e := BlockWriting(g, s, addr, buf);
      e.response == Success ==> e.chip.mem == Written(g.kind, s.mem, addr, buf) && !e.chip.busy && !e.chip.enabled
  {
    var e := BlockWrites(g, s, addr, buf);
    assert buf[..|buf|] == buf;
  }

  // ------------------------------------------------------------ when it goes unnoticed

  /** A command that is lost: WREN does not arrive, the program is ignored, and the driver reports
      success with nothing written. */
  lemma {:induction false} LostEnableIsSuccess(g: Geometry, s: State, addr: nat, data: seq<octet>)
    requires g.page > 0 && data != [] && InOnePage(addr, |data|, g.page) && !s.busy && !s.enabled
    requires |s.script| >= 5 && forall i | 0 <= i < 5 ::
      Good(s.script[i]) && s.script[i].status.Answered? && (s.script[i].command <==> i != 1)
    ensures var e := BlockWriting(g, s, addr, data); e.response == Success && e.chip.mem == s.mem
    ensures CommandLost in Since(s, BlockWriting(g, s, addr, data).chip)
  {
    var chip1 := s.(script := s.script[1..], now := s.script[0]);
    assert Waiting(s) == Ended(Success, chip1);
    var chip2 := chip1.(script := s.script[2..], now := s.script[1], log := s.log + [CommandLost]);
    assert WriteEnabling(chip1, true) == Ended(Success, chip2);
    var program := Program(Wired(g, addr), data, true, false);
    var chip3 := chip2.(script := s.script[3..], now := s.script[2], log := chip2.log + [program]);
    assert Transacting(g, chip2, addr, data) == Ended(Success, chip3);
    OneTurnIsAll(FlashStep(g), g.page, s, addr, data, chip3);
    var chip4 := chip3.(script := s.script[4..], now := s.script[3]);
    assert Waiting(chip3) == Ended(Success, chip4);
    assert chip4.log == s.log + [CommandLost, program];
  }

  /** A status read that times out: while an earlier write goes on, the driver programs a chip that
      is busy, which ignores it, and reports success. */
  lemma {:induction false} MisreadIsSuccess(g: Geometry, s: State, addr: nat, data: seq<octet>)
    requires g.page > 0 && data != [] && InOnePage(addr, |data|, g.page) && s.busy
    requires |s.script| >= 5 && forall i | 0 <= i < 5 ::
      Good(s.script[i]) && s.script[i].command && !s.script[i].finished && s.script[i].status.TimedOut?
    ensures var e := BlockWriting(g, s, addr, data); e.response == Success && e.chip.mem == s.mem
    ensures Program(Wired(g, addr), data, false, s.enabled) in Since(s, BlockWriting(g, s, addr, data).chip)
  {
    var chip1 := s.(script := s.script[1..], now := s.script[0], log := s.log + [Misread]);
    assert Waiting(s) == Ended(Success, chip1);
    var chip2 := chip1.(script := s.script[2..], now := s.script[1]);
    assert WriteEnabling(chip1, true) == Ended(Success, chip2);
    var program := Program(Wired(g, addr), data, false, s.enabled);
    var chip3 := chip2.(script := s.script[3..], now := s.script[2], log := chip2.log + [program]);
    assert Transacting(g, chip2, addr, data) == Ended(Success, chip3);
    OneTurnIsAll(FlashStep(g), g.page, s, addr, data, chip3);
    var chip4 := chip3.(script := s.script[4..], now := s.script[3], log := chip3.log + [Misread]);
    assert Waiting(chip3) == Ended(Success, chip4);
    assert chip4.log == s.log + [Misread, program, Misread];
  }

  // ---------------------------------------------------------------------------- reading

  /** The transaction that reads, after the wait `w`. */
  lemma {:induction false} ReadsAfterWait(g: Geometry, s: State, w: Ended, addr: nat, len: nat, e: Ended,
                                          buf: seq<octet>)
    requires Fits(g, s) && addr < |s.mem| && addr + len <= |s.mem|
    requires Behaves(s, w) && w.response == Success && w.chip.mem == s.mem
    requires var s1 := Started(w.chip);
      if !s1.now.start then e == Ended(Error, s1)
      else if !s1.now.Sent() then e == Ended(Error, Log(s1, Unsent))
      else (e, buf) == (Ended(Success, s1), Reading(s1, Wired(g, addr), len))
    ensures Behaves(s, e) && e.chip.mem == s.mem
    ensures Since(s, e.chip) == Since(s, w.chip) || Since(s, e.chip) == Since(s, w.chip) + [Unsent]
    ensures e.response == Success && !w.chip.busy ==> buf == s.mem[addr..addr + len]
  {
    StartBehaves(w.chip);
    BothBehave(s, w, e);
    SmallMod(addr, Pow256(g.addressSize));
  }

  /** flash_read_block: the bytes asked for unless a status was misread, or zeros with an error. */
  lemma {:induction false} BlockReads(g: Geometry, s: State, addr: nat, len: nat)
    requires Fits(g, s) && addr < |s.mem| && addr + len <= |s.mem|
    ensures var (e, buf) := BlockReading(g, s, addr, len); var events := Since(s, e.chip);
      && Behaves(s, e) && e.chip.mem == s.mem && (forall x | x in events :: x == Misread || x == Unsent)
      && (e.response == Success && Misread !in events ==> buf == s.mem[addr..addr + len])
      && (e.response != Success ==> forall i | 0 <= i < len :: buf[i] == 0)
  {
    var w := Waiting(s);
    var (e, buf) := BlockReading(g, s, addr, len);
    WaitIsIdleExactlyWhen(s);
    WaitBehaves(s);
    if w.response == Success { ReadsAfterWait(g, s, w, addr, len, e, buf); }
  }

  // ---------------------------------------------------------------------------- erasing

  /** An aligned unit that lies in the chip is refused exactly when it is the last one, and the chip ends before
      the 32-bit sum turns over. */
  lemma {:induction false} OnlyTheLastUnitIsRefused(addr: nat, unit: nat, size: nat)
    requires unit > 0 && addr % unit == 0 && addr + unit <= size <= 0x1_0000_0000
    ensures EraseRefused(addr, unit, size) <==> addr + unit == size < 0x1_0000_0000
  {
    if addr + unit < 0x1_0000_0000 { SmallMod(addr + unit, 0x1_0000_0000); }
  }

  /** The erasing was asked for in order, and memory is the old one or has `size` bytes from `a`
      erased, the latter on success, unless something was misread or lost. */
  ghost predicate Erases(s: State, e: Ended, a: nat, size: nat) {
    var events := Since(s, e.chip);
    && Behaves(s, e) && InOrder(events)
    && (Clean(events) ==> e.chip.mem == s.mem || e.chip.mem == Erased(s.mem, a, size))
    && (Clean(events) && e.response == Success ==> e.chip.mem == Erased(s.mem, a, size) && !e.chip.busy)
  }

  /** After waiting and enabling: the command `e1` noted, and the wait for its end. */
  lemma {:induction false} ErasesThenWaits(s: State, p: Ended, a: nat, size: nat)
    requires Prepared(s, p)
    ensures var s1 := Started(p.chip); s1.now.start ==> Erases(s, Waiting(Erasing(s1, a, size)), a, size)
  {
    var s1 := Started(p.chip);
    StartBehaves(p.chip);
    if s1.now.start {
      var s2 := Erasing(s1, a, size);
      var erase := Erase(a, size, !s1.busy, s1.enabled);
      var e := Waiting(s2);
      WaitIsIdleExactlyWhen(s2);
      WaitBehaves(s2);
      var asked := Ended(Success, s2);
      assert Since(p.chip, s2) == [erase];
      BothBehave(s, p, asked);
      BothBehave(s, asked, e);
      EraseIsInOrder(Since(s, p.chip), erase, Since(s2, e.chip), p.chip, s1);
    }
  }

  lemma {:induction false} EraseIsInOrder(before: seq<Event>, erase: Event, after: seq<Event>, s: State, s1: State)
    requires forall x | x in before :: x == Misread || x == CommandLost || x == Unsent
    requires forall x | x in after :: x == Misread
    requires erase.Erase? && (erase.idle || s.busy) && erase.enabled == s.enabled
    requires s.busy ==> Misread in before
    requires s.busy || s.enabled || CommandLost in before
    ensures InOrder(before + [erase] + after)
    ensures Clean(before + [erase] + after) ==> !s.busy && s.enabled && Misread !in after
  {
    var events := before + [erase] + after;
    if Misread in before { assert Misread in events; }
    if CommandLost in before { assert CommandLost in events; }
  }

  /** Waiting and enabling, however they end. */
  lemma {:induction false} Preparing(s: State) returns (w: Ended, p: Ended)
    ensures w == Waiting(s) && p == (if w.response == Success then WriteEnabling(w.chip, true) else w)
    ensures p.response == Success ==> Prepared(s, p)
    ensures p.response != Success ==> Quiet(s, p)
  {
    w := Waiting(s);
    p := w;
    WaitIsIdleExactlyWhen(s);
    WaitBehaves(s);
    if w.response == Success {
      p := WriteEnabling(w.chip, true);
      EnableBehaves(w.chip, true);
      BothBehave(s, w, p);
      if p.response == Success { WaitThenEnable(s, w, p); }
    }
  }

  lemma {:induction false} QuietErasesNothing(s: State, e: Ended, a: nat, size: nat)
    requires Quiet(s, e) && e.response != Success
    ensures Erases(s, e, a, size)
  {
  }

  /** The transaction that erases did not come about. */
  lemma {:induction false} NotAskedFor(s: State, p: Ended, e: Ended, a: nat, size: nat)
    requires Prepared(s, p) && Behaves(p.chip, e) && e.chip.mem == p.chip.mem && e.response != Success
    requires forall x | x in Since(p.chip, e.chip) :: x == Unsent
    ensures Erases(s, e, a, size)
  {
    BothBehave(s, p, e);
  }

  /** The header of the erase arrived, but its transfer failed: the driver gives up on an erase that goes on. */
  lemma {:induction false} ErasesUnheard(s: State, p: Ended, a: nat, size: nat)
    requires Prepared(s, p)
    requires Started(p.chip).now.start && !Started(p.chip).now.header.Whole?
    ensures Erases(s, Ended(Error, Erasing(Log(Started(p.chip), Unsent), a, size)), a, size)
  {
    var s1 := Started(p.chip);
    var s2 := Erasing(Log(s1, Unsent), a, size);
    var erase := Erase(a, size, !s1.busy, s1.enabled);
    StartBehaves(p.chip);
    assert Since(p.chip, s2) == [Unsent] + [erase];
    BothBehave(s, p, Ended(Error, s2));
    EraseIsInOrder(Since(s, p.chip) + [Unsent], erase, [], p.chip, s1);
    assert Since(s, s2) == Since(s, p.chip) + [Unsent] + [erase] + [];
  }

  /** The transaction that erases a unit. */
  lemma {:induction false} TransactionErases(g: Geometry, s: State, p: Ended, addr: nat, unit: nat)
    requires Prepared(s, p)
    ensures Erases(s, EraseTransacting(g, p.chip, addr, unit), Wired(g, addr), unit)
  {
    var s1, e := Started(p.chip), EraseTransacting(g, p.chip, addr, unit);
    if s1.now.start && s1.now.header.Whole? {
      ErasesThenWaits(s, p, Wired(g, addr), unit);
    } else if s1.now.start && s1.now.header.n > g.addressSize {
      ErasesUnheard(s, p, Wired(g, addr), unit);
    } else {
      StartBehaves(p.chip);
      NotAskedFor(s, p, e, Wired(g, addr), unit);
    }
  }

  /** flash_erase_sector and flash_erase_block: refused, or the unit is set to ones on success, and
      nothing in between on an error. */
  lemma {:induction false} UnitErases(g: Geometry, s: State, addr: nat, unit: nat)
    requires unit > 0
    ensures EraseRefused(addr, unit, |s.mem|) ==> UnitErasing(g, s, addr, unit) == Ended(Error, s)
    ensures !EraseRefused(addr, unit, |s.mem|) ==> Erases(s, UnitErasing(g, s, addr, unit), Wired(g, addr), unit)
  {
    if !EraseRefused(addr, unit, |s.mem|) {
      var w, p := Preparing(s);
      if p.response == Success {
        TransactionErases(g, s, p, addr, unit);
      } else {
        QuietErasesNothing(s, p, Wired(g, addr), unit);
      }
    }
  }

  lemma {:induction false} LostErasesAnything(s: State, e: Ended, a: nat, size: nat)
    requires Behaves(s, e) && CommandLost in Since(s, e.chip)
    requires forall x | x in Since(s, e.chip) :: x == Misread || x == CommandLost
    ensures Erases(s, e, a, size)
  {
  }

  lemma {:induction false} LosingBehaves(s: State, p: Ended, s1: State)
    requires Prepared(s, p) && s1 == Started(p.chip) && s1.now.start && !s1.now.command
    ensures var noted := Ended(Success, Log(s1, CommandLost));
      Behaves(s, noted) && Since(s, noted.chip) == Since(s, p.chip) + [CommandLost]
  {
    var noted := Ended(Success, Log(s1, CommandLost));
    StartBehaves(p.chip);
    assert Since(p.chip, noted.chip) == [CommandLost];
    BothBehave(s, p, noted);
  }

  /** The erase command was lost, and the driver waits for an erase that is not going on. */
  lemma {:induction false} EraseLost(s: State, noted: Ended, e: Ended, a: nat, size: nat)
    requires Behaves(s, noted) && noted.response == Success && e == Waiting(noted.chip)
    requires CommandLost in Since(s, noted.chip)
    requires forall x | x in Since(s, noted.chip) :: x == Misread || x == CommandLost
    ensures Erases(s, e, a, size)
  {
    WaitIsIdleExactlyWhen(noted.chip);
    WaitBehaves(noted.chip);
    BothBehave(s, noted, e);
    LostErasesAnything(s, e, a, size);
  }

  /** flash_erase_chip: all ones on success, unless a status was misread or a command lost. */
  lemma {:induction false} ChipErases(s: State)
    ensures Erases(s, ChipErasing(s), 0, |s.mem|)
  {
    var w, p := Preparing(s);
    var s1 := Started(p.chip);
    if p.response != Success {
      QuietErasesNothing(s, p, 0, |s.mem|);
    } else if s1.now.start && s1.now.command {
      ErasesThenWaits(s, p, 0, |s.mem|);
    } else if s1.now.start {
      var noted := Ended(Success, Log(s1, CommandLost));
      LosingBehaves(s, p, s1);
      EraseLost(s, noted, Waiting(noted.chip), 0, |s.mem|);
    } else {
      StartBehaves(p.chip);
      NotAskedFor(s, p, Ended(Error, s1), 0, |s.mem|);
    }
  }

  /** What is written to an erased range reads back. */
  lemma {:induction false} ErasedThenWritten(mem: seq<octet>, base: nat, unit: nat, addr: nat, buf: seq<octet>)
    requires base <= addr && addr + |buf| <= base + unit <= |mem|
    ensures Written(Flash, Erased(mem, base, unit), addr, buf)[addr..addr + |buf|] == buf
  {
    ReadBack(Flash, Erased(mem, base, unit), addr, buf);
  }
}
