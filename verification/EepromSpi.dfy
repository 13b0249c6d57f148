/** The SPI EEPROM driver (drivers/eeprom/eeprom_spi.c).  It waits and enables writes as the flash
    driver does, but it sends command, address and data one after the other without looking whether
    they arrive, and has no result to report.  The chip takes the first byte that arrives for the
    command, so what it does depends on what was lost. */
module EepromSpi {
  import opened PagedMemory
  import opened Sequences
  import opened SpiChip
  import opened FlashSpi

  const CMD_WREN: octet := 6
  const CMD_WRDI: octet := 4
  const CMD_READ: octet := 3
  const CMD_WRITE: octet := 2

  // ------------------------------------------------------------------------- the chip

  /** A write: command, address and at least one byte. */
  predicate IsStore(g: Geometry, bytes: seq<octet>) { |bytes| > 1 + g.addressSize && bytes[0] == CMD_WRITE }

  /** What the chip does when it is deselected, all these bytes having arrived. */
  function Heeding(g: Geometry, s: State, bytes: seq<octet>): State
    requires g.page > 0
  {
    if bytes == [CMD_WREN] || bytes == [CMD_WRDI] then if s.busy then s else s.(enabled := bytes[0] == CMD_WREN)
    else if IsStore(g, bytes) then
      Programming(g, s, Decode(bytes[1..1 + g.addressSize]), bytes[1 + g.addressSize..])
    else s
  }

  /** What the chip answers to the last of these bytes: memory, behind a read command and an address. */
  function Answered(g: Geometry, s: State, bytes: seq<octet>, silent: octet): octet {
    var n := 1 + g.addressSize;
    if s.busy || |bytes| <= n || bytes[0] != CMD_READ then silent
    else
      var a := Decode(bytes[1..n]) + |bytes| - n - 1;
      if a < |s.mem| then s.mem[a] else silent
  }

  // --------------------------------------------------------------- what arrives of it

  function CommandNoted(s: State): State { if s.now.command then s else Log(s, CommandLost) }

  function PartNoted(s: State, p: Part, n: nat, e: Event): State {
    if p.Whole? || p.n >= n then s else Log(s, e)
  }

  /** Command and address are sent, and what is lost is noted. */
  function HeadSent(g: Geometry, s: State): State { PartNoted(CommandNoted(s), s.now.header, g.addressSize, Unsent) }

  /** The data too. */
  function AllSent(g: Geometry, s: State, len: nat): State { PartNoted(HeadSent(g, s), s.now.data, len, BrokenOff) }

  /** The command and the address bytes that arrive. */
  function Heading(g: Geometry, a: Answer, command: octet, addr: nat): seq<octet> {
    (if a.command then [command] else []) + Cut(a.header, AddressOf(addr, g.addressSize))
  }

  // ------------------------------------------------------------------ the specification

  /** The write transaction. */
  function StoreTransacting(g: Geometry, s: State, addr: nat, data: seq<octet>): Ended
    requires g.page > 0
  {
    var s1 := Started(s);
    if !s1.now.start then Ended(Error, s1)
    else
      var bytes := Heading(g, s1.now, CMD_WRITE, addr) + Cut(s1.now.data, data);
      Ended(Success, Heeding(g, AllSent(g, s1, |data|), bytes))
  }

  /** One turn of the loop; a success is to have got as far as the write. */
  function ChunkStoring(g: Geometry, s: State, addr: nat, data: seq<octet>): Ended
    requires g.page > 0
  {
    var waited := Waiting(s);
    if waited.response != Success then waited
    else
      var enabled := WriteEnabling(waited.chip, true);
      if enabled.response != Success then enabled else StoreTransacting(g, enabled.chip, addr, data)
  }

  function EepromStep(g: Geometry): Step
    requires g.page > 0
  {
    (s: State, addr: nat, data: seq<octet>) => ChunkStoring(g, s, addr, data)
  }

  ghost predicate IsEepromStep(step: Step, g: Geometry)
    requires g.page > 0
  {
    forall s: State, addr: nat, data: seq<octet> :: At(step, s, addr, data) == ChunkStoring(g, s, addr, data)
  }

  function ChunksStoring(g: Geometry, s: State, addr: nat, buf: seq<octet>): Ended
    requires g.page > 0
  {
    Looping(EepromStep(g), g.page, s, addr, buf)
  }

  /** eeprom_write_block. */
  function BlockStoring(g: Geometry, s: State, addr: nat, buf: seq<octet>): Ended
    requires g.page > 0
  {
    var stored := ChunksStoring(g, s, addr, buf);
    if stored.response != Success then stored else WriteEnabling(stored.chip, false)
  }

  function Zeros(n: nat): (zeros: seq<octet>)
    ensures |zeros| == n
  {
    seq(n, _ => 0)
  }

  /** What is received behind what was sent: each byte is read by sending a zero. */
  function Received(g: Geometry, s: State, sent: seq<octet>, n: nat): (data: seq<octet>)
    ensures |data| == n
  {
    seq(n, i requires 0 <= i < n => Answered(g, s, sent + Zeros(i + 1), OnLine(s.now, i)))
  }

  /** How many bytes are read before the bus gives up. */
  function Lasts(p: Part, len: nat): (n: nat)
    ensures n <= len
  {
    if p.Whole? || p.n >= len then len else p.n
  }

  /** The read transaction into a buffer: whatever is received, and behind it what the buffer held. */
  function FetchTransacting(g: Geometry, s: State, addr: nat, into: seq<octet>): (r: (Ended, seq<octet>))
    requires g.page > 0
    ensures |r.1| == |into|
  {
    var s1 := Started(s);
    if !s1.now.start then (Ended(Error, s1), Zeros(|into|))
    else
      var sent, n := Heading(g, s1.now, CMD_READ, addr), Lasts(s1.now.data, |into|);
      var received := Received(g, HeadSent(g, s1), sent, n);
      (Ended(Success, Heeding(g, AllSent(g, s1, |into|), sent + Zeros(n))), received + into[n..])
  }

  /** eeprom_read_block: zeros if it does not come to the transaction. */
  function BlockFetching(g: Geometry, s: State, addr: nat, into: seq<octet>): (r: (Ended, seq<octet>))
    requires g.page > 0
    ensures |r.1| == |into|
  {
    var waited := Waiting(s);
    if waited.response != Success then (waited, Zeros(|into|)) else FetchTransacting(g, waited.chip, addr, into)
  }

  // -------------------------------------------------------------------------- the driver

  /** spi_write of a command; `bytes` is what has arrived at the chip. */
  method SendCommand(chip: Chip, command: octet) returns (bytes: seq<octet>)
    modifies chip`log
    ensures chip.View() == CommandNoted(old(chip.View()))
    ensures bytes == if chip.now.command then [command] else []
  {
    bytes := [command];
    if !chip.now.command {
      chip.Lose(CommandLost);
      bytes := [];
    }
  }

  /** spi_transmit of an address or of data. */
  method Send(chip: Chip, p: Part, part: seq<octet>, e: Event) returns (bytes: seq<octet>)
    modifies chip`log
    ensures chip.View() == PartNoted(old(chip.View()), p, |part|, e) && bytes == Cut(p, part)
  {
    bytes := part;
    if p.First? && p.n < |part| {
      chip.Lose(e);
      bytes := part[..p.n];
    }
  }

  /** spi_stop: the chip is deselected. */
  method Deselect(chip: Chip, bytes: seq<octet>)
    requires chip.Valid()
    modifies chip
    ensures chip.View() == Heeding(chip.geometry, old(chip.View()), bytes)
  {
    var n := 1 + chip.geometry.addressSize;
    if bytes == [CMD_WREN] || bytes == [CMD_WRDI] {
      if !chip.busy { chip.enabled := bytes[0] == CMD_WREN; }
    } else if |bytes| > n && bytes[0] == CMD_WRITE {
      chip.Store(Decode(bytes[1..n]), bytes[n..]);
    }
  }

  /** The write transaction of one chunk. */
  method Store(chip: Chip, addr: nat, data: seq<octet>) returns (response: Status)
    requires chip.Valid()
    modifies chip
    ensures Ended(response, chip.View()) == StoreTransacting(chip.geometry, old(chip.View()), addr, data)
  {
    var ok := chip.Start();
    if !ok { return Error; }
    var bytes := SendCommand(chip, CMD_WRITE);
    var address := AddressBytes(addr, chip.geometry.addressSize);
    var more := Send(chip, chip.now.header, address, Unsent);
    bytes := bytes + more;
    more := Send(chip, chip.now.data, data, BrokenOff);
    Deselect(chip, bytes + more);
    response := Success;
  }

  method WriteChunk(chip: Chip, addr: nat, data: seq<octet>) returns (response: Status)
    requires chip.Valid()
    modifies chip
    ensures Ended(response, chip.View()) == ChunkStoring(chip.geometry, old(chip.View()), addr, data)
  {
    response := WaitWhileBusy(chip);
    if response != Success { return; }
    response := WriteEnable(chip, true);
    if response != Success { return; }
    response := Store(chip, addr, data);
  }

  /** One turn of the loop, with `todo` left to write and `rest` after it. */
  method WriteNext(chip: Chip, target: nat, chunk: seq<octet>, ghost todo: seq<octet>, ghost rest: seq<octet>,
                   ghost next: nat, ghost step: Step)
    returns (response: Status)
    requires chip.Valid() && todo != [] && |chunk| == ChunkLength(target, |todo|, chip.geometry.page)
      && todo == chunk + rest
    requires next == target + |chunk| && IsEepromStep(step, chip.geometry)
    modifies chip
    ensures var g := chip.geometry;
      Looping(step, g.page, old(chip.View()), target, todo)
      == if response != Success then Ended(response, chip.View()) else Looping(step, g.page, chip.View(), next, rest)
  {
    ghost var g, s := chip.geometry, chip.View();
    response := WriteChunk(chip, target, chunk);
    assert At(step, s, target, chunk) == ChunkStoring(g, s, target, chunk);
    LoopTurn(step, g.page, s, target, todo, chunk, rest, next, Ended(response, chip.View()));
  }

  /** The loop of eeprom_write_block. */
  method WriteChunks(chip: Chip, addr: nat, buf: seq<octet>, ghost step: Step) returns (response: Status)
    requires chip.Valid() && IsEepromStep(step, chip.geometry)
    modifies chip
    ensures Ended(response, chip.View()) == Looping(step, chip.geometry.page, old(chip.View()), addr, buf)
  {
    var target, at, len := addr, 0, |buf|;
    var g := chip.geometry;
    ghost var e, todo := Looping(step, g.page, chip.View(), addr, buf), buf;
    while len > 0
      invariant 0 <= at && 0 <= len && 0 <= target && at + len == |buf| && todo == buf[at..]
      invariant Looping(step, g.page, chip.View(), target, todo) == e
    {
      var pageOffset := target % g.page;
      var writeLength := g.page - pageOffset;
      if writeLength > len { writeLength := len; }
      var chunk := buf[at..at + writeLength];
      ghost var rest := buf[at + writeLength..];
      NextPart(buf, at, writeLength);
      response := WriteNext(chip, target, chunk, todo, rest, target + writeLength, step);
      todo := rest;
      if response != Success { return; }
      target, at, len := target + writeLength, at + writeLength, len - writeLength;
    }
    response := Success;
  }

  /** eeprom_write_block. */
  method WriteBlock(chip: Chip, buf: seq<octet>, addr: nat)
    requires chip.Valid()
    modifies chip
    ensures chip.View() == BlockStoring(chip.geometry, old(chip.View()), addr, buf).chip
  {
    var response := WriteChunks(chip, addr, buf, EepromStep(chip.geometry));
    if response != Success { return; }
    var disabled := WriteEnable(chip, false);
  }

  /** spi_receive: bytes are read, a zero being sent for each, until all are there or the bus gives up. */
  method Receive(chip: Chip, sent: seq<octet>, into: seq<octet>) returns (data: seq<octet>, n: nat)
    modifies chip`log
    ensures chip.View() == PartNoted(old(chip.View()), chip.now.data, |into|, BrokenOff)
    ensures n == Lasts(chip.now.data, |into|)
    ensures data == Received(chip.geometry, old(chip.View()), sent, n) + into[n..]
  {
    data, n := into, 0;
    while n < |into| && (chip.now.data.Whole? || n < chip.now.data.n)
      invariant 0 <= n <= Lasts(chip.now.data, |into|) && chip.View() == old(chip.View())
      invariant data == Received(chip.geometry, chip.View(), sent, n) + into[n..]
    {
      ghost var before := Received(chip.geometry, chip.View(), sent, n);
      var s := State(chip.mem, chip.busy, chip.enabled, chip.script, chip.now, chip.log);
      var value := Answered(chip.geometry, s, sent + Zeros(n + 1), OnLine(chip.now, n));
      data := data[n := value];
      n := n + 1;
      assert Received(chip.geometry, chip.View(), sent, n) == before + [value];
    }
    if n < |into| { chip.Lose(BrokenOff); }
  }

  /** The read transaction. */
  method Fetch(chip: Chip, addr: nat, into: seq<octet>) returns (buf: seq<octet>)
    requires chip.Valid()
    modifies chip
    ensures var (e, data) := FetchTransacting(chip.geometry, old(chip.View()), addr, into);
      chip.View() == e.chip && buf == data
  {
    buf := Zeros(|into|);
    var ok := chip.Start();
    if !ok { return; }
    var bytes := SendCommand(chip, CMD_READ);
    var address := AddressBytes(addr, chip.geometry.addressSize);
    var more := Send(chip, chip.now.header, address, Unsent);
    bytes := bytes + more;
    var n: nat;
    buf, n := Receive(chip, bytes, into);
    Deselect(chip, bytes + Zeros(n));
  }

  /** eeprom_read_block. */
  method ReadBlock(chip: Chip, addr: nat, into: seq<octet>) returns (buf: seq<octet>)
    requires chip.Valid()
    modifies chip
    ensures var (e, data) := BlockFetching(chip.geometry, old(chip.View()), addr, into);
      chip.View() == e.chip && buf == data
  {
    buf := Zeros(|into|);
    var response := WaitWhileBusy(chip);
    if response != Success { return; }
    buf := Fetch(chip, addr, into);
  }
}
