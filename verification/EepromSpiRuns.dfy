/** What the SPI EEPROM driver promises, whatever the script of the bus and the chip
    (drivers/eeprom/eeprom_spi.c:59-217). */
module EepromSpiRuns {
  import opened Arithmetic
  import opened PagedMemory
  import opened SpiChip
  import opened FlashSpi
  import opened FlashSpiRuns
  import opened EepromSpi

  /** Nothing was misread, and all that was sent arrived. */
  ghost predicate AllArrived(events: seq<Event>) { Clean(events) && BrokenOff !in events && Unsent !in events }

  /** No command and no address byte was lost, so the chip knows what the data are for. */
  ghost predicate Located(events: seq<Event>) { CommandLost !in events && Unsent !in events }

  /** Writes were asked for in order, and within pages if they were located; when all that was sent
      arrived, memory has the bytes written in, whole chunks of them, and all of them if it came to the end. */
  ghost predicate Stores(g: Geometry, s: State, e: Ended, addr: nat, buf: seq<octet>)
    requires g.page > 0
  {
    var events := Since(s, e.chip);
    && Behaves(s, e) && InOrder(events) && (Located(events) ==> WithinPages(events, g.page))
    && (AllArrived(events) ==>
          && Taken(events) <= |buf| && ChunkEnd(addr, Taken(events), |buf|, g.page)
          && e.chip.mem == Written(g.kind, s.mem, addr, buf[..Taken(events)])
          && (e.response == Success ==> Taken(events) == |buf|))
  }

  // ------------------------------------------------------------------------- commands

  /** The commands of the chip, as bytes: 6 and 4 to enable and disable writes, 2 to write and 3 to read. */
  lemma {:induction false} CommandCodes(g: Geometry, s: State, addr: nat, data: seq<octet>, silent: octet)
    requires g.page > 0 && !s.busy && addr < Pow256(g.addressSize)
    ensures Heeding(g, s, [6]) == s.(enabled := true) && Heeding(g, s, [4]) == s.(enabled := false)
    ensures data != [] ==> Heeding(g, s, [2] + AddressOf(addr, g.addressSize) + data) == Programming(g, s, addr, data)
    ensures EepromSpi.Answered(g, s, [3] + AddressOf(addr, g.addressSize) + [0], silent)
         == if addr < |s.mem| then s.mem[addr] else silent
    ensures var busy := s.(busy := true); Heeding(g, busy, [6]) == busy && Heeding(g, busy, [4]) == busy
  {
    DecodeAddress(addr, g.addressSize);
    SmallMod(addr, Pow256(g.addressSize));
    var address := AddressOf(addr, g.addressSize);
    var write, read := [2] + address + data, [3] + address + [0];
    assert write[1..1 + g.addressSize] == address && write[1 + g.addressSize..] == data;
    assert read[1..1 + g.addressSize] == address;
  }

  // ------------------------------------------------------------------ one transaction

  function CommandLosses(s: State): seq<Event> { if s.now.command then [] else [CommandLost] }

  function PartLosses(p: Part, n: nat, e: Event): seq<Event> { if p.Whole? || p.n >= n then [] else [e] }

  /** What is lost of command, address and data. */
  function Losses(g: Geometry, s: State, len: nat): seq<Event> {
    CommandLosses(s) + PartLosses(s.now.header, g.addressSize, Unsent) + PartLosses(s.now.data, len, BrokenOff)
  }

  lemma {:induction false} SentIsNoted(g: Geometry, s: State, len: nat)
    ensures AllSent(g, s, len) == s.(log := s.log + Losses(g, s, len))
    ensures HeadSent(g, s).(log := []) == s.(log := [])
  {
    var losses := Losses(g, s, len);
    assert s.log + losses == s.log + CommandLosses(s) + PartLosses(s.now.header, g.addressSize, Unsent)
      + PartLosses(s.now.data, len, BrokenOff);
    assert s.log + [] == s.log;
  }

  /** What is asked of the chip by these bytes. */
  function Asked(g: Geometry, s: State, bytes: seq<octet>): seq<Event> {
    var n := 1 + g.addressSize;
    if IsStore(g, bytes) then [Program(Decode(bytes[1..n]), bytes[n..], !s.busy, s.enabled)] else []
  }

  /** The bytes of a write that arrive, and what they do. */
  function StoreBytes(g: Geometry, s1: State, addr: nat, data: seq<octet>): seq<octet> {
    Heading(g, s1.now, CMD_WRITE, addr) + Cut(s1.now.data, data)
  }

  function StoreEvents(g: Geometry, s1: State, addr: nat, data: seq<octet>): seq<Event> {
    if !s1.now.start then [] else Losses(g, s1, |data|) + Asked(g, s1, StoreBytes(g, s1, addr, data))
  }

  lemma {:induction false} HeedingIsAsked(g: Geometry, s: State, s2: State, bytes: seq<octet>)
    requires g.page > 0 && s2.(log := []) == s.(log := [])
    ensures var s3, n := Heeding(g, s2, bytes), 1 + g.addressSize;
      && s3.log == s2.log + Asked(g, s, bytes) && s3.script == s.script
      && s3.mem == (if IsStore(g, bytes) && s.Ready()
                    then Programmed(g.kind, s.mem, Decode(bytes[1..n]), bytes[n..], g.page) else s.mem)
  {
    assert s2.busy == s.busy && s2.enabled == s.enabled && s2.mem == s.mem && s2.script == s.script;
    assert s2.log + [] == s2.log;
  }

  lemma {:induction false} StoreHappens(g: Geometry, s: State, addr: nat, data: seq<octet>)
    requires g.page > 0
    ensures var s1, e, n := Started(s), StoreTransacting(g, s, addr, data), 1 + g.addressSize;
      var bytes := StoreBytes(g, s1, addr, data);
      && s.log <= e.chip.log && Since(s, e.chip) == StoreEvents(g, s1, addr, data) && e.chip.script == s1.script
      && (e.response == Success <==> s1.now.start)
      && e.chip.mem == (if s1.now.start && IsStore(g, bytes) && s1.Ready()
                        then Programmed(g.kind, s.mem, Decode(bytes[1..n]), bytes[n..], g.page) else s.mem)
  {
    var s1 := Started(s);
    var bytes := StoreBytes(g, s1, addr, data);
    SentIsNoted(g, s1, |data|);
    HeedingIsAsked(g, s1, AllSent(g, s1, |data|), bytes);
    if s1.now.start {
      var log := StoreTransacting(g, s, addr, data).chip.log;
      assert log == s.log + StoreEvents(g, s1, addr, data);
    }
  }

  /** The bytes of a write of which neither command nor address was lost. */
  lemma {:induction false} LocatedBytes(g: Geometry, s1: State, addr: nat, data: seq<octet>)
    requires s1.now.command && Cut(s1.now.header, AddressOf(addr, g.addressSize)) == AddressOf(addr, g.addressSize)
    ensures var bytes, n, got := StoreBytes(g, s1, addr, data), 1 + g.addressSize, Cut(s1.now.data, data);
      && (IsStore(g, bytes) <==> got != []) && |bytes| >= n && bytes[n..] == got
      && Decode(bytes[1..n]) == addr % Pow256(g.addressSize)
  {
    var bytes, n, address := StoreBytes(g, s1, addr, data), 1 + g.addressSize, AddressOf(addr, g.addressSize);
    DecodeAddress(addr, g.addressSize);
    assert bytes == [CMD_WRITE] + address + Cut(s1.now.data, data);
    assert bytes[1..n] == address;
  }

  lemma {:induction false} LocatedIsWhole(g: Geometry, s1: State, addr: nat, data: seq<octet>)
    requires s1.now.start && Located(StoreEvents(g, s1, addr, data))
    ensures s1.now.command && Cut(s1.now.header, AddressOf(addr, g.addressSize)) == AddressOf(addr, g.addressSize)
    ensures BrokenOff !in StoreEvents(g, s1, addr, data) ==> Cut(s1.now.data, data) == data
  {
    var events, p := StoreEvents(g, s1, addr, data), s1.now;
    assert !p.command ==> CommandLost in CommandLosses(s1) && CommandLost in events;
    assert !(p.header.Whole? || p.header.n >= g.addressSize) ==>
        Unsent in PartLosses(p.header, g.addressSize, Unsent) && Unsent in events;
    assert !(p.data.Whole? || p.data.n >= |data|) ==>
        BrokenOff in PartLosses(p.data, |data|, BrokenOff) && BrokenOff in events;
  }

  /** The events of a located write. */
  lemma {:induction false} LocatedEvents(g: Geometry, s1: State, addr: nat, data: seq<octet>)
    requires s1.now.start && Located(StoreEvents(g, s1, addr, data)) && addr < Pow256(g.addressSize)
    ensures var got := Cut(s1.now.data, data);
      StoreEvents(g, s1, addr, data) == PartLosses(s1.now.data, |data|, BrokenOff)
        + if got == [] then [] else [Program(addr, got, !s1.busy, s1.enabled)]
  {
    SmallMod(addr, Pow256(g.addressSize));
    LocatedIsWhole(g, s1, addr, data);
    LocatedBytes(g, s1, addr, data);
    var losses := PartLosses(s1.now.data, |data|, BrokenOff);
    assert [] + [] + losses == losses;
  }

  /** A located write stays in its page, and is whole if nothing broke off. */
  lemma {:induction false} LocatedTakes(g: Geometry, s1: State, addr: nat, data: seq<octet>, events: seq<Event>)
    requires g.page > 0 && InOnePage(addr, |data|, g.page) && data != [] && addr < Pow256(g.addressSize)
    requires s1.now.start && events == StoreEvents(g, s1, addr, data) && Located(events)
    ensures WithinPages(events, g.page)
    ensures BrokenOff !in events ==> Taken(events) == |data|
  {
    var got, losses := Cut(s1.now.data, data), PartLosses(s1.now.data, |data|, BrokenOff);
    LocatedEvents(g, s1, addr, data);
    AtMostOneProgram(losses, addr, got, !s1.busy, s1.enabled, g.page);
    if BrokenOff !in events { LocatedIsWhole(g, s1, addr, data); }
  }

  lemma {:induction false} StoreEventsAre(g: Geometry, s1: State, addr: nat, data: seq<octet>, x: Event)
    requires s1.now.start && x in StoreEvents(g, s1, addr, data)
    ensures Excused(s1, x)
  {
  }

  /** An event that the present answer explains. */
  predicate Excused(s1: State, x: Event) {
    x != Misread && (x == CommandLost ==> !s1.now.command) && (x in [Unsent, BrokenOff] ==> !s1.now.Sent())
  }

  /** A transaction that takes one answer and notes these events behaves. */
  lemma {:induction false} OneAnswerBehaves(s: State, e: Ended, events: seq<Event>)
    requires Started(s).now.start && s.log <= e.chip.log && Since(s, e.chip) == events && |e.chip.mem| == |s.mem|
    requires e.response == Success && e.chip.script == Started(s).script
    requires forall x | x in events :: Excused(Started(s), x)
    ensures Behaves(s, e)
  {
    StartBehaves(s);
  }

  lemma {:induction false} StoreBehaves(g: Geometry, s: State, addr: nat, data: seq<octet>)
    requires g.page > 0
    ensures Behaves(s, StoreTransacting(g, s, addr, data))
  {
    var s1, e := Started(s), StoreTransacting(g, s, addr, data);
    StoreHappens(g, s, addr, data);
    if s1.now.start {
      var events := StoreEvents(g, s1, addr, data);
      forall x | x in events ensures Excused(s1, x) { StoreEventsAre(g, s1, addr, data, x); }
      OneAnswerBehaves(s, e, events);
    } else {
      StartBehaves(s);
    }
  }

  /** What is stored when all of it arrived. */
  lemma {:induction false} StoredWhole(g: Geometry, s: State, addr: nat, data: seq<octet>)
    requires Fits(g, s) && InOnePage(addr, |data|, g.page) && addr + |data| <= |s.mem| && data != []
    requires Started(s).now.start && AllArrived(StoreEvents(g, Started(s), addr, data)) && !s.busy && s.enabled
    ensures StoreTransacting(g, s, addr, data).chip.mem == Written(g.kind, s.mem, addr, data)
  {
    StartBehaves(s);
    StoreHappens(g, s, addr, data);
    LocatedIsWhole(g, Started(s), addr, data);
    LocatedBytes(g, Started(s), addr, data);
    SmallMod(addr, Pow256(g.addressSize));
    InPageIsFlat(g.kind, s.mem, addr, data, g.page);
  }

  /** The events of the write transaction of one chunk, and what is stored. */
  ghost predicate StoresOne(g: Geometry, s: State, e: Ended, addr: nat, data: seq<octet>, events: seq<Event>)
    requires g.page > 0
  {
    && Since(s, e.chip) == events && (Located(events) ==> WithinPages(events, g.page))
    && (AllArrived(events) && e.response == Success ==>
          && Taken(events) == |data|
          && (!s.busy && s.enabled ==> e.chip.mem == Written(g.kind, s.mem, addr, data)))
    && (e.response != Success ==> events == [] && e.chip.mem == s.mem)
  }

  lemma {:induction false} StoreTransaction(g: Geometry, s: State, addr: nat, data: seq<octet>, e: Ended)
    returns (events: seq<Event>)
    requires Fits(g, s) && InOnePage(addr, |data|, g.page) && addr + |data| <= |s.mem| && data != []
    requires e == StoreTransacting(g, s, addr, data)
    ensures StoresOne(g, s, e, addr, data, events) && events == StoreEvents(g, Started(s), addr, data)
  {
    events := StoreEvents(g, Started(s), addr, data);
    StoreHappens(g, s, addr, data);
    if Started(s).now.start && Located(events) { LocatedTakes(g, Started(s), addr, data, events); }
    if Started(s).now.start && AllArrived(events) && !s.busy && s.enabled { StoredWhole(g, s, addr, data); }
  }

  lemma {:induction false} StoreIsInOrder(g: Geometry, before: seq<Event>, s: State, addr: nat, data: seq<octet>)
    requires forall x | x in before :: x == Misread || x == CommandLost
    requires s.busy ==> Misread in before
    requires s.busy || s.enabled || CommandLost in before
    ensures InOrder(before + StoreEvents(g, Started(s), addr, data))
  {
    var events := before + StoreEvents(g, Started(s), addr, data);
    StartBehaves(s);
    if Misread in before { assert Misread in events; }
    if CommandLost in before { assert CommandLost in events; }
  }

  /** The chip is prepared, and then one transaction is made. */
  lemma {:induction false} AfterPreparing(g: Geometry, s: State, p: Ended, e: Ended, addr: nat, data: seq<octet>,
                                          before: seq<Event>, more: seq<Event>)
    requires g.page > 0 && data != [] && Prepared(s, p) && Behaves(s, e) && before == Since(s, p.chip)
    requires StoresOne(g, p.chip, e, addr, data, more) && Since(s, e.chip) == before + more && InOrder(before + more)
    ensures Stores(g, s, e, addr, data)
  {
    TakenConcat(before, more);
    if Located(before + more) { assert Located(more); }
    if AllArrived(before + more) {
      assert AllArrived(before) && AllArrived(more);
      WrittenNothing(g.kind, s.mem, addr);
      assert data[..0] == [] && data[..|data|] == data;
    }
  }

  lemma {:induction false} PreparedThenStores(g: Geometry, s: State, p: Ended, e: Ended, addr: nat, data: seq<octet>)
    requires Fits(g, s) && InOnePage(addr, |data|, g.page) && addr + |data| <= |s.mem| && data != []
    requires Prepared(s, p) && e == StoreTransacting(g, p.chip, addr, data)
    ensures Stores(g, s, e, addr, data)
  {
    var more := StoreTransaction(g, p.chip, addr, data, e);
    StoreBehaves(g, p.chip, addr, data);
    BothBehave(s, p, e);
    StoreIsInOrder(g, Since(s, p.chip), p.chip, addr, data);
    AfterPreparing(g, s, p, e, addr, data, Since(s, p.chip), more);
  }

  /** Nothing is stored if it did not come to the write. */
  lemma {:induction false} EndedBeforeStore(g: Geometry, s: State, e: Ended, addr: nat, data: seq<octet>)
    requires g.page > 0 && Quiet(s, e) && e.response != Success
    ensures Stores(g, s, e, addr, data)
  {
    WrittenNothing(g.kind, s.mem, addr);
    assert data[..0] == [];
    NothingTaken(Since(s, e.chip));
  }

  lemma {:induction false} ChunkStores(g: Geometry, s: State, addr: nat, data: seq<octet>) returns (e: Ended)
    requires Fits(g, s) && InOnePage(addr, |data|, g.page) && addr + |data| <= |s.mem| && data != []
    ensures e == ChunkStoring(g, s, addr, data) && Stores(g, s, e, addr, data)
  {
    var w, p := Preparing(s);
    e := p;
    if p.response != Success {
      EndedBeforeStore(g, s, p, addr, data);
    } else {
      e := StoreTransacting(g, p.chip, addr, data);
      PreparedThenStores(g, s, p, e, addr, data);
    }
  }

  lemma {:induction false} OneChunkOfMany(g: Geometry, s: State, e: Ended, addr: nat, buf: seq<octet>, n: nat)
    requires g.page > 0 && n <= |buf| && e.response != Success && Stores(g, s, e, addr, buf[..n])
    requires AllArrived(Since(s, e.chip)) ==> Taken(Since(s, e.chip)) == 0
    ensures Stores(g, s, e, addr, buf)
  {
    assert buf[..n][..0] == buf[..0];
  }

  /** A chunk that did not come to its write left nothing. */
  lemma {:induction false} FailedChunkTakesNothing(g: Geometry, s: State, e: Ended, addr: nat, data: seq<octet>)
    requires Fits(g, s) && InOnePage(addr, |data|, g.page) && addr + |data| <= |s.mem| && data != []
    requires e == ChunkStoring(g, s, addr, data) && e.response != Success
    ensures Taken(Since(s, e.chip)) == 0
  {
    var w, p := Preparing(s);
    if p.response != Success {
      NothingTaken(Since(s, p.chip));
    } else {
      var more := StoreTransaction(g, p.chip, addr, data, e);
      StoreBehaves(g, p.chip, addr, data);
      BothBehave(s, p, e);
      TakenConcat(Since(s, p.chip), more);
    }
  }

  /** The turn of the loop that stores the first `n` bytes came to its write, and `rest` is left to do. */
  ghost predicate WholeStore(g: Geometry, s: State, first: Ended, addr: nat, buf: seq<octet>, n: nat, rest: seq<octet>)
    requires g.page > 0
  {
    && buf != [] && n == ChunkLength(addr, |buf|, g.page) && rest == buf[n..] && first.response == Success
    && Stores(g, s, first, addr, buf[..n])
  }

  /** Two parts of a run, and what is stored by both. */
  lemma {:induction false} BothStored(g: Geometry, mem: seq<octet>, mem1: seq<octet>, mem2: seq<octet>, addr: nat,
                                      buf: seq<octet>, n: nat, k: nat)
    requires g.page > 0 && buf != [] && n == ChunkLength(addr, |buf|, g.page) && k <= |buf| - n
    requires addr + |buf| <= |mem| && ChunkEnd(addr + n, k, |buf| - n, g.page)
    requires mem1 == Written(g.kind, mem, addr, buf[..n][..n]) && mem2 == Written(g.kind, mem1, addr + n, buf[n..][..k])
    ensures ChunkEnd(addr, n + k, |buf|, g.page) && mem2 == Written(g.kind, mem, addr, buf[..n + k])
  {
    TwoWrites(g.kind, mem, mem1, mem2, addr, buf, n, k);
    ChunkEndsGoOn(addr, n, k, |buf|, g.page);
  }

  /** A whole chunk, and then the rest. */
  lemma {:induction false} StoreThenRest(g: Geometry, s: State, first: Ended, e: Ended, addr: nat, buf: seq<octet>,
                                        n: nat, rest: seq<octet>)
    requires Fits(g, s) && addr + |buf| <= |s.mem| && WholeStore(g, s, first, addr, buf, n, rest)
    requires Stores(g, first.chip, e, addr + n, rest)
    ensures Stores(g, s, e, addr, buf)
  {
    var a, b := Since(s, first.chip), Since(first.chip, e.chip);
    BothBehave(s, first, e);
    TakenConcat(a, b);
    InOrderConcat(a, b);
    if Located(a + b) { assert Located(a) && Located(b); }
    if AllArrived(a + b) {
      assert AllArrived(a) && AllArrived(b);
      BothStored(g, s.mem, first.chip.mem, e.chip.mem, addr, buf, n, Taken(b));
    }
  }

  /** `step` stores one chunk as the driver does; failing, it leaves nothing. */
  ghost predicate StepStores(g: Geometry, step: Step)
    requires g.page > 0
  {
    forall s: State, addr: nat, data: seq<octet> |
      Fits(g, s) && InOnePage(addr, |data|, g.page) && addr + |data| <= |s.mem| && data != [] ::
      var e := At(step, s, addr, data);
      Stores(g, s, e, addr, data) && (e.response != Success ==> Taken(Since(s, e.chip)) == 0)
  }

  lemma {:induction false} EepromStepStores(g: Geometry)
    requires g.page > 0
    ensures StepStores(g, EepromStep(g))
  {
    forall s: State, addr: nat, data: seq<octet> |
      Fits(g, s) && InOnePage(addr, |data|, g.page) && addr + |data| <= |s.mem| && data != []
      ensures var e := At(EepromStep(g), s, addr, data);
        Stores(g, s, e, addr, data) && (e.response != Success ==> Taken(Since(s, e.chip)) == 0)
    {
      var e := ChunkStores(g, s, addr, data);
      if e.response != Success { FailedChunkTakesNothing(g, s, e, addr, data); }
    }
  }

  lemma {:induction false} StepStoresOne(g: Geometry, step: Step, s: State, addr: nat, buf: seq<octet>, n: nat)
    requires Fits(g, s) && addr + |buf| <= |s.mem| && buf != [] && n == ChunkLength(addr, |buf|, g.page)
    requires StepStores(g, step)
    ensures var e := step(s, addr, buf[..n]);
      Stores(g, s, e, addr, buf[..n]) && (e.response != Success ==> Taken(Since(s, e.chip)) == 0)
  {
    assert Stores(g, s, At(step, s, addr, buf[..n]), addr, buf[..n]);
  }

  /** The first turn of the loop: it fails, or the loop goes on with the rest. */
  lemma {:induction false} FirstStore(g: Geometry, step: Step, s: State, addr: nat, buf: seq<octet>, e: Ended)
    returns (n: nat, first: Ended, rest: seq<octet>)
    requires Fits(g, s) && addr + |buf| <= |s.mem| && buf != [] && StepStores(g, step)
    requires e == Looping(step, g.page, s, addr, buf)
    ensures if first.response != Success then e == first && Stores(g, s, e, addr, buf)
            else
              && WholeStore(g, s, first, addr, buf, n, rest) && e == Looping(step, g.page, first.chip, addr + n, rest)
              && Fits(g, first.chip) && addr + n + |rest| <= |first.chip.mem| && |rest| < |buf|
  {
    n := ChunkLength(addr, |buf|, g.page);
    rest := buf[n..];
    first := step(s, addr, buf[..n]);
    StepStoresOne(g, step, s, addr, buf, n);
    LoopTurn(step, g.page, s, addr, buf, buf[..n], rest, addr + n, first);
    if first.response != Success { OneChunkOfMany(g, s, first, addr, buf, n); }
  }

  lemma {:induction false} NoStores(g: Geometry, s: State, addr: nat)
    requires g.page > 0
    ensures Stores(g, s, Ended(Success, s), addr, [])
  {
    WrittenNothing(g.kind, s.mem, addr);
    assert Since(s, s) == [];
  }

  lemma {:induction false} LoopStores(g: Geometry, step: Step, s: State, addr: nat, buf: seq<octet>, e: Ended)
    requires Fits(g, s) && addr + |buf| <= |s.mem| && StepStores(g, step)
    requires e == Looping(step, g.page, s, addr, buf)
    ensures Stores(g, s, e, addr, buf)
    decreases |buf|
  {
    if buf == [] {
      NoStores(g, s, addr);
    } else {
      var n, first, rest := FirstStore(g, step, s, addr, buf, e);
      if first.response == Success {
        LoopStores(g, step, first.chip, addr + n, rest, e);
        StoreThenRest(g, s, first, e, addr, buf, n, rest);
      }
    }
  }

  lemma {:induction false} ChunksStore(g: Geometry, s: State, addr: nat, buf: seq<octet>, e: Ended)
    requires Fits(g, s) && addr + |buf| <= |s.mem| && e == ChunksStoring(g, s, addr, buf)
    ensures Stores(g, s, e, addr, buf)
  {
    EepromStepStores(g);
    LoopStores(g, EepromStep(g), s, addr, buf, e);
  }

  /** The write-disable at the end changes nothing of it. */
  lemma {:induction false} StoreThenQuiet(g: Geometry, s: State, first: Ended, e: Ended, addr: nat, buf: seq<octet>)
    requires g.page > 0 && Stores(g, s, first, addr, buf) && first.response == Success && Quiet(first.chip, e)
    ensures Stores(g, s, e, addr, buf)
  {
    var a, b := Since(s, first.chip), Since(first.chip, e.chip);
    BothBehave(s, first, e);
    TakenConcat(a, b);
    NothingTaken(b);
    InOrderConcat(a, b);
    if Located(a + b) { assert Located(a); }
    if AllArrived(a + b) { assert AllArrived(a); }
  }

  /** eeprom_write_block: no write meets a busy or protected chip, unless a status was misread or a
      command lost, or leaves its page, unless a command or an address was lost; and when all that was
      sent arrived, memory is the old one with the buffer spliced in, or whole chunks of it if the bus
      gave out. */
  lemma {:induction false} BlockStores(g: Geometry, s: State, addr: nat, buf: seq<octet>) returns (e: Ended)
    requires Fits(g, s) && addr + |buf| <= |s.mem|
    ensures e == BlockStoring(g, s, addr, buf) && Stores(g, s, e, addr, buf)
  {
    var stored := ChunksStoring(g, s, addr, buf);
    ChunksStore(g, s, addr, buf, stored);
    e := stored;
    if stored.response == Success {
      e := WriteEnabling(stored.chip, false);
      EnableBehaves(stored.chip, false);
      StoreThenQuiet(g, s, stored, e, addr, buf);
    }
  }

  /** What can be told from the script before the call: if the bus is good, no status can be taken for
      idle, no command gets lost, and the script lasts, the whole buffer is stored. */
  lemma {:induction false} GoodBusStoresAll(g: Geometry, s: State, addr: nat, buf: seq<octet>)
    requires Fits(g, s) && addr + |buf| <= |s.mem|
    requires GoodBus(s.script) && StatusesHold(s.script) && CommandsArrive(s.script)
    requires BlockStoring(g, s, addr, buf).chip.script != []
    ensures BlockStoring(g, s, addr, buf).chip.mem == Written(g.kind, s.mem, addr, buf)
  {
    var e := BlockStores(g, s, addr, buf);
    assert buf[..|buf|] == buf;
  }

  // -------------------------------------------------------------- when a command is lost

  /** A command being lost, the chip takes the first byte of the address for it: this is a write if it
      says so, and if data are left behind the rest of the address and one of them. */
  predicate Strays(g: Geometry, addr: nat, len: nat)
    requires g.addressSize > 0
  {
    addr / Pow256(g.addressSize - 1) % 0x100 == CMD_WRITE && len > 1
  }

  /** And this is where it goes. */
  function StrayAddress(g: Geometry, addr: nat, data: seq<octet>): nat
    requires g.addressSize > 0 && data != []
  {
    0x100 * (addr % Pow256(g.addressSize - 1)) + data[0]
  }

  lemma {:induction false} RestOfAddress(addr: nat, size: nat)
    requires size > 0
    ensures AddressOf(addr, size)[1..] == AddressOf(addr, size - 1)
  {
    if size > 1 {
      RestOfAddress(addr / 0x100, size - 1);
      assert AddressOf(addr, size)[1..] == AddressOf(addr / 0x100, size - 1)[1..] + [addr % 0x100];
    }
  }

  lemma {:induction false} StrayBytes(g: Geometry, addr: nat, data: seq<octet>, bytes: seq<octet>)
    requires g.addressSize > 0 && data != [] && bytes == AddressOf(addr, g.addressSize) + data
    ensures IsStore(g, bytes) <==> Strays(g, addr, |data|)
    ensures var n := 1 + g.addressSize;
      |bytes| >= n && Decode(bytes[1..n]) == StrayAddress(g, addr, data) && bytes[n..] == data[1..]
    ensures bytes != [CMD_WREN] && bytes != [CMD_WRDI]
  {
    var size := g.addressSize;
    FirstOfAddress(addr, size);
    RestOfAddress(addr, size);
    DecodeAddress(addr, size - 1);
    var part := bytes[1..1 + size];
    assert part == AddressOf(addr, size - 1) + [data[0]];
    assert part[..|part| - 1] == AddressOf(addr, size - 1);
  }

  /** What memory is after a transaction whose command was lost, and nothing else. */
  function AfterStray(g: Geometry, s: State, addr: nat, data: seq<octet>): seq<octet>
    requires g.page > 0 && g.addressSize > 0 && data != []
  {
    if Strays(g, addr, |data|) && s.Ready()
    then Programmed(g.kind, s.mem, StrayAddress(g, addr, data), data[1..], g.page)
    else s.mem
  }

  /** A lost write command: the chip is asked for a write exactly if the address begins with the code of
      that command and at least two bytes follow, and then a byte too short and somewhere else. */
  lemma {:induction false} LostCommandStoresExactlyWhen(g: Geometry, s: State, addr: nat, data: seq<octet>)
    requires g.page > 0 && g.addressSize > 0 && data != []
    requires Started(s).now.start && !Started(s).now.command && Started(s).now.Sent()
    ensures var e := StoreTransacting(g, s, addr, data);
      && e.response == Success && e.chip.mem == AfterStray(g, Started(s), addr, data)
      && ((exists x | x in Since(s, e.chip) :: x.Program?) <==> Strays(g, addr, |data|))
  {
    var s1 := Started(s);
    var bytes := StoreBytes(g, s1, addr, data);
    StoreHappens(g, s, addr, data);
    assert bytes == AddressOf(addr, g.addressSize) + data;
    StrayBytes(g, addr, data, bytes);
    var events := StoreEvents(g, s1, addr, data);
    assert events == [CommandLost] + Asked(g, s1, bytes);
    if Strays(g, addr, |data|) { assert Asked(g, s1, bytes)[0] in events; }
  }

  /** In the whole of eeprom_write_block it goes unnoticed. */
  lemma {:induction false} LostWriteIsUnnoticed(g: Geometry, s: State, addr: nat, data: seq<octet>)
    requires g.page > 0 && g.addressSize > 0 && data != [] && InOnePage(addr, |data|, g.page) && !s.busy
    requires |s.script| >= 4 && forall i | 0 <= i < 4 ::
      Good(s.script[i]) && s.script[i].status.Answered? && (s.script[i].command <==> i != 2)
    ensures var e := BlockStoring(g, s, addr, data);
      e.response == Success && e.chip.mem == AfterStray(g, s.(enabled := true), addr, data)
  {
    var chip1 := s.(script := s.script[1..], now := s.script[0]);
    assert Waiting(s) == Ended(Success, chip1);
    var chip2 := chip1.(script := s.script[2..], now := s.script[1], enabled := true);
    assert WriteEnabling(chip1, true) == Ended(Success, chip2);
    var e := StoreTransacting(g, chip2, addr, data);
    LostCommandStoresExactlyWhen(g, chip2, addr, data);
    StoreHappens(g, chip2, addr, data);
    assert Started(chip2).Ready() && Started(chip2).mem == s.mem;
    OneTurnIsAll(EepromStep(g), g.page, s, addr, data, e.chip);
    assert e.chip.script == s.script[3..];
    assert WriteEnabling(e.chip, false).response == Success && WriteEnabling(e.chip, false).chip.mem == e.chip.mem;
  }

  /** A write shorter than a page does not overwrite its own first byte. */
  lemma {:induction false} FirstOfFew(mem: seq<octet>, addr: nat, data: seq<octet>, page: nat)
    requires page > 0 && 0 < |data| <= page && addr < |mem|
    ensures Programmed(Eeprom, mem, addr, data, page)[addr] == data[0]
  {
    var last := |data| - 1;
    if last == 0 {
      SmallMod(addr % page, page);
    } else {
      FirstOfFew(mem, addr, data[..last], page);
      OtherByte(addr, last, page);
    }
  }

  lemma {:induction false} OtherByte(addr: nat, i: nat, page: nat)
    requires 0 < i < page
    ensures Wrapped(addr, i, page) != addr
  {
    var x := addr % page;
    if x + i < page { SmallMod(x + i, page); } else { Unique(x + i, page, 1, x + i - page); }
  }

  /** Fifteen bytes at most, at 0x1000 or a little later. */
  lemma {:induction false} StrayOverwrites(mem: seq<octet>, a: nat, data: seq<octet>)
    requires |mem| == 0x2000 && 0x1000 <= a < 0x1100 && 0 < |data| < 0x10
    ensures var mem' := Programmed(Eeprom, mem, a, data, 32);
      mem'[0x0210..0x0220] == mem[0x0210..0x0220] && mem'[a] == data[0]
  {
    var mem' := Programmed(Eeprom, mem, a, data, 32);
    forall x | 0x0210 <= x < 0x0220 ensures mem'[x] == mem[x] {
      CrossingIsLost(Eeprom, mem, a, data, 32, x);
    }
    FirstOfFew(mem, a, data, 32);
  }

  const WIDE := Geometry(Eeprom, 32, 2)

  /** For instance at 0x0210 of a chip with two address bytes: nothing is stored there, and the second
      byte of the data overwrites what the first one points at. */
  lemma {:induction false} LostWriteOverwrites(s: State, data: seq<octet>)
    requires |s.mem| == 0x2000 && !s.busy && 1 < |data| <= 0x10
    requires |s.script| >= 4 && forall i | 0 <= i < 4 ::
      Good(s.script[i]) && s.script[i].status.Answered? && (s.script[i].command <==> i != 2)
    ensures var e := BlockStoring(WIDE, s, 0x0210, data);
      && e.response == Success && |e.chip.mem| == 0x2000
      && e.chip.mem[0x0210..0x0220] == s.mem[0x0210..0x0220] && e.chip.mem[0x1000 + data[0] as int] == data[1]
  {
    WideAddress(data);
    LostWriteIsUnnoticed(WIDE, s, 0x0210, data);
    StrayOverwrites(s.mem, StrayAddress(WIDE, 0x0210, data), data[1..]);
  }

  lemma {:induction false} WideAddress(data: seq<octet>)
    requires |data| > 1
    ensures StrayAddress(WIDE, 0x0210, data) == 0x1000 + data[0] as int && Strays(WIDE, 0x0210, |data|)
  {
    assert Pow256(1) == 0x100 * Pow256(0);
  }

  // ---------------------------------------------------------------------------- reading

  function FetchBytes(g: Geometry, s1: State, addr: nat, len: nat): seq<octet> {
    Heading(g, s1.now, CMD_READ, addr) + Zeros(Lasts(s1.now.data, len))
  }

  lemma {:induction false} FetchHappens(g: Geometry, s: State, addr: nat, into: seq<octet>)
    requires g.page > 0 && Started(s).now.start
    ensures var s1, e, n := Started(s), FetchTransacting(g, s, addr, into).0, 1 + g.addressSize;
      var bytes := FetchBytes(g, s1, addr, |into|);
      && e.response == Success && s.log <= e.chip.log
      && Since(s, e.chip) == Losses(g, s1, |into|) + Asked(g, s1, bytes)
      && e.chip.mem == (if IsStore(g, bytes) && s1.Ready()
                        then Programmed(g.kind, s.mem, Decode(bytes[1..n]), bytes[n..], g.page) else s.mem)
  {
    var s1 := Started(s);
    var bytes := FetchBytes(g, s1, addr, |into|);
    SentIsNoted(g, s1, |into|);
    HeedingIsAsked(g, s1, AllSent(g, s1, |into|), bytes);
    var e := FetchTransacting(g, s, addr, into).0;
    assert e.chip.log == s.log + (Losses(g, s1, |into|) + Asked(g, s1, bytes));
  }

  /** The bytes of memory, if the read command and the address arrived. */
  lemma {:induction false} ReceivesMemory(g: Geometry, s: State, addr: nat, len: nat)
    requires !s.busy && addr + len <= |s.mem| <= Pow256(g.addressSize) && addr < |s.mem|
    ensures Received(g, s, [CMD_READ] + AddressOf(addr, g.addressSize), len) == s.mem[addr..addr + len]
  {
    var sent, n := [CMD_READ] + AddressOf(addr, g.addressSize), 1 + g.addressSize;
    DecodeAddress(addr, g.addressSize);
    SmallMod(addr, Pow256(g.addressSize));
    forall i | 0 <= i < len ensures Received(g, s, sent, len)[i] == s.mem[addr + i] {
      assert (sent + Zeros(i + 1))[1..n] == AddressOf(addr, g.addressSize);
    }
  }

  /** The read transaction: nothing is asked of the chip if the command arrived, and the bytes are those
      of memory if all did. */
  lemma {:induction false} TransactionFetches(g: Geometry, s: State, addr: nat, into: seq<octet>)
    requires Fits(g, s) && addr < |s.mem| && addr + |into| <= |s.mem| && Started(s).now.start
    ensures var (e, buf) := FetchTransacting(g, s, addr, into); var events := Since(s, e.chip);
      && s.log <= e.chip.log && e.response == Success
      && (CommandLost !in events || !s.enabled ==> e.chip.mem == s.mem)
      && (AllArrived(events) && !s.busy ==> buf == s.mem[addr..addr + |into|])
  {
    var s1 := Started(s);
    var (e, buf) := FetchTransacting(g, s, addr, into);
    var events := Since(s, e.chip);
    StartBehaves(s);
    FetchHappens(g, s, addr, into);
    assert CommandLosses(s1) <= events;
    if AllArrived(events) && !s.busy {
      assert PartLosses(s1.now.header, g.addressSize, Unsent) == [] by {
        assert forall x | x in PartLosses(s1.now.header, g.addressSize, Unsent) :: x in events;
      }
      assert PartLosses(s1.now.data, |into|, BrokenOff) == [] by {
        assert forall x | x in PartLosses(s1.now.data, |into|, BrokenOff) :: x in events;
      }
      SentIsNoted(g, s1, |into|);
      ReceivesMemory(g, HeadSent(g, s1), addr, |into|);
      assert s1.now.command && Heading(g, s1.now, CMD_READ, addr) == [CMD_READ] + AddressOf(addr, g.addressSize);
    }
  }

  /** How a read ended, and what is in the buffer. */
  ghost predicate Fetches(s: State, e: Ended, buf: seq<octet>, addr: nat)
    requires addr + |buf| <= |s.mem|
  {
    var events := Since(s, e.chip);
    && (e.response == Success && AllArrived(events) ==> buf == s.mem[addr..addr + |buf|])
    && (e.response != Success ==> buf == Zeros(|buf|))
    && (CommandLost !in events || !s.enabled ==> e.chip.mem == s.mem)
  }

  lemma {:induction false} ThenFetches(s: State, w: Ended, e: Ended, buf: seq<octet>, addr: nat)
    requires s.log <= w.chip.log <= e.chip.log && w.chip.mem == s.mem && w.chip.enabled == s.enabled
    requires addr + |buf| <= |s.mem| && e.response == Success && (w.chip.busy ==> Misread in Since(s, w.chip))
    requires var events := Since(w.chip, e.chip);
      && (CommandLost !in events || !s.enabled ==> e.chip.mem == s.mem)
      && (AllArrived(events) && !w.chip.busy ==> buf == s.mem[addr..addr + |buf|])
    ensures Fetches(s, e, buf, addr)
  {
    var a, b := Since(s, w.chip), Since(w.chip, e.chip);
    assert Since(s, e.chip) == a + b;
    if AllArrived(a + b) { assert AllArrived(b) && Misread !in a; }
    if CommandLost !in a + b { assert CommandLost !in b; }
  }

  /** eeprom_read_block: the bytes asked for, if nothing was misread and all arrived, or zeros if it did not
      come to the transaction; and memory stays, unless the chip was enabled and a command lost. */
  lemma {:induction false} BlockFetches(g: Geometry, s: State, addr: nat, into: seq<octet>)
    requires Fits(g, s) && addr < |s.mem| && addr + |into| <= |s.mem|
    ensures Fetches(s, BlockFetching(g, s, addr, into).0, BlockFetching(g, s, addr, into).1, addr)
    ensures |BlockFetching(g, s, addr, into).1| == |into|
  {
    var w := Waiting(s);
    WaitIsIdleExactlyWhen(s);
    if w.response == Success {
      StartBehaves(w.chip);
      if Started(w.chip).now.start {
        var (e, buf) := FetchTransacting(g, w.chip, addr, into);
        TransactionFetches(g, w.chip, addr, into);
        ThenFetches(s, w, e, buf, addr);
      }
    }
  }

  /** What did not arrive of a read leaves the buffer as it was. */
  lemma {:induction false} BrokenReadKeepsBuffer(g: Geometry, s: State, addr: nat, into: seq<octet>)
    requires g.page > 0 && Started(s).now.start && Started(s).now.data.First?
    ensures var n, buf := Started(s).now.data.n, FetchTransacting(g, s, addr, into).1;
      |buf| == |into| && forall i | n <= i < |into| :: buf[i] == into[i]
  {
  }

  /** So a read can write: on a chip that was left enabled, with the read command lost, exactly if the
      address begins with the code of the write command and at least two bytes are read. */
  lemma {:induction false} LostReadStoresExactlyWhen(g: Geometry, s: State, addr: nat, into: seq<octet>)
    requires g.page > 0 && g.addressSize > 0 && into != []
    requires Started(s).now.start && !Started(s).now.command && Started(s).now.Sent()
    ensures var e := FetchTransacting(g, s, addr, into).0;
      && e.response == Success && e.chip.mem == AfterStray(g, Started(s), addr, Zeros(|into|))
      && ((exists x | x in Since(s, e.chip) :: x.Program?) <==> Strays(g, addr, |into|))
  {
    var s1 := Started(s);
    var bytes := FetchBytes(g, s1, addr, |into|);
    FetchHappens(g, s, addr, into);
    assert bytes == AddressOf(addr, g.addressSize) + Zeros(|into|);
    StrayBytes(g, addr, Zeros(|into|), bytes);
    assert Losses(g, s1, |into|) == [CommandLost];
    var events := [CommandLost] + Asked(g, s1, bytes);
    if Strays(g, addr, |into|) { assert Asked(g, s1, bytes)[0] in events; }
  }

  /** For instance at 0x0210 again: what lies at 0x1000 is set to zero by a read. */
  lemma {:induction false} LostReadOverwrites(s: State, into: seq<octet>)
    requires |s.mem| == 0x2000 && !s.busy && s.enabled && 1 < |into| <= 0x10
    requires |s.script| >= 2 && forall i | 0 <= i < 2 ::
      Good(s.script[i]) && s.script[i].status.Answered? && (s.script[i].command <==> i == 0)
    ensures var e := BlockFetching(WIDE, s, 0x0210, into).0;
      e.response == Success && |e.chip.mem| == 0x2000 && e.chip.mem[0x1000] == 0
  {
    var chip1 := s.(script := s.script[1..], now := s.script[0]);
    assert Waiting(s) == Ended(Success, chip1);
    WideAddress(Zeros(|into|));
    LostReadStoresExactlyWhen(WIDE, chip1, 0x0210, into);
    FirstOfFew(s.mem, 0x1000, Zeros(|into|)[1..], 32);
  }
}
