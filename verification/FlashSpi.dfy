/** The SPI flash driver (drivers/flash/flash_spi.c).  Each method does what a function on the
    state of the chip says; what the driver promises is proved of these in FlashSpiRuns.dfy. */
module FlashSpi {
  import opened Arithmetic
  import opened PagedMemory
  import opened Sequences
  import opened SpiChip

  datatype Status = Success | Error | Timeout

  /** How a driver function ended, and the chip then. */
  datatype Ended = Ended(response: Status, chip: State)

  // ------------------------------------------------------------------ the specification

  function Waiting(s: State): Ended
    decreases |s.script|
  {
    var s1 := Started(s);
    if !s1.now.start then Ended(Error, s1)
    else if s1.now.expired then Ended(Timeout, StatusTaken(s1))
    else if WipSet(StatusOf(s1)) then Waiting(StatusTaken(s1))
    else Ended(Success, StatusTaken(s1))
  }

  function WriteEnabling(s: State, on: bool): Ended {
    var s1 := Started(s);
    if s1.now.start then Ended(Success, Enabling(s1, on)) else Ended(Error, s1)
  }

  /** The address as it arrives at the chip. */
  function Wired(g: Geometry, addr: nat): nat { addr % Pow256(g.addressSize) }

  function Transacting(g: Geometry, s: State, addr: nat, data: seq<octet>): Ended
    requires g.page > 0
  {
    var s1 := Started(s);
    if !s1.now.start then Ended(Error, s1)
    else Ended(if s1.now.Sent() then Success else Error, Transmitting(g, s1, Wired(g, addr), data))
  }

  /** One turn of the loop of flash_write_block: wait, enable, program. */
  function ChunkWriting(g: Geometry, s: State, addr: nat, data: seq<octet>): Ended
    requires g.page > 0
  {
    var waited := Waiting(s);
    if waited.response != Success then waited
    else
      var enabled := WriteEnabling(waited.chip, true);
      if enabled.response != Success then enabled else Transacting(g, enabled.chip, addr, data)
  }

  /** What a driver does for each chunk of a write. */
  type Step = (State, nat, seq<octet>) -> Ended

  /** One step, where a statement about all of them is used. */
  function At(step: Step, s: State, addr: nat, data: seq<octet>): Ended { step(s, addr, data) }

  /** Page by page, until a step fails or all is done: the loop of both SPI drivers. */
  function Looping(step: Step, page: nat, s: State, addr: nat, buf: seq<octet>): Ended
    requires page > 0
    decreases |buf|
  {
    if buf == [] then Ended(Success, s)
    else
      var n := ChunkLength(addr, |buf|, page);
      var first := step(s, addr, buf[..n]);
      if first.response != Success then first else Looping(step, page, first.chip, addr + n, buf[n..])
  }

  /** One turn of the loop, with `todo` left to write. */
  lemma {:induction false} LoopTurn(step: Step, page: nat, s: State, target: nat, todo: seq<octet>, chunk: seq<octet>,
                                    rest: seq<octet>, next: nat, first: Ended)
    requires page > 0 && todo != [] && |chunk| == ChunkLength(target, |todo|, page) && todo == chunk + rest
    requires next == target + |chunk| && first == step(s, target, chunk)
    ensures Looping(step, page, s, target, todo)
         == if first.response != Success then first else Looping(step, page, first.chip, next, rest)
  {
    assert todo[..|chunk|] == chunk && todo[|chunk|..] == rest;
  }

  /** A write that fits its page takes one turn. */
  lemma {:induction false} OneTurnIsAll(step: Step, page: nat, s: State, addr: nat, data: seq<octet>, s': State)
    requires page > 0 && data != [] && InOnePage(addr, |data|, page) && step(s, addr, data) == Ended(Success, s')
    ensures Looping(step, page, s, addr, data) == Ended(Success, s')
  {
    assert data + [] == data;
    LoopTurn(step, page, s, addr, data, data, [], addr + |data|, Ended(Success, s'));
  }

  function FlashStep(g: Geometry): Step
    requires g.page > 0
  {
    (s: State, addr: nat, data: seq<octet>) => ChunkWriting(g, s, addr, data)
  }

  ghost predicate IsFlashStep(step: Step, g: Geometry)
    requires g.page > 0
  {
    forall s: State, addr: nat, data: seq<octet> :: At(step, s, addr, data) == ChunkWriting(g, s, addr, data)
  }

  function ChunksWriting(g: Geometry, s: State, addr: nat, buf: seq<octet>): Ended
    requires g.page > 0
  {
    Looping(FlashStep(g), g.page, s, addr, buf)
  }

  function BlockWriting(g: Geometry, s: State, addr: nat, buf: seq<octet>): Ended
    requires g.page > 0
  {
    var written := ChunksWriting(g, s, addr, buf);
    if written.response != Success then written
    else
      var waited := Waiting(written.chip);
      if waited.response != Success then waited else WriteEnabling(waited.chip, false)
  }

  /** flash_read_block: how it ended, and what is in the buffer. */
  function BlockReading(g: Geometry, s: State, addr: nat, len: nat): (r: (Ended, seq<octet>))
    ensures |r.1| == len
  {
    var zeros := seq<octet>(len, _ => 0);
    var waited := Waiting(s);
    if waited.response != Success then (waited, zeros)
    else
      var s1 := Started(waited.chip);
      if !s1.now.start then (Ended(Error, s1), zeros)
      else if !s1.now.Sent() then (Ended(Error, Log(s1, Unsent)), zeros)
      else (Ended(Success, s1), Reading(s1, Wired(g, addr), len))
  }

  /** The address check of flash_erase_sector and flash_erase_block, in 32 bits. */
  predicate EraseRefused(addr: nat, unit: nat, size: nat)
    requires unit > 0
  {
    (addr + unit) % 0x1_0000_0000 >= size || addr % unit != 0
  }

  /** The header of an erase, command and address; it may have arrived although the transfer failed. */
  function EraseTransacting(g: Geometry, s: State, addr: nat, unit: nat): Ended {
    var s1 := Started(s);
    if !s1.now.start then Ended(Error, s1)
    else if s1.now.header.Whole? then Waiting(Erasing(s1, Wired(g, addr), unit))
    else if s1.now.header.n <= g.addressSize then Ended(Error, Log(s1, Unsent))
    else Ended(Error, Erasing(Log(s1, Unsent), Wired(g, addr), unit))
  }

  function UnitErasing(g: Geometry, s: State, addr: nat, unit: nat): Ended
    requires unit > 0
  {
    if EraseRefused(addr, unit, |s.mem|) then Ended(Error, s)
    else
      var waited := Waiting(s);
      if waited.response != Success then waited
      else
        var enabled := WriteEnabling(waited.chip, true);
        if enabled.response != Success then enabled else EraseTransacting(g, enabled.chip, addr, unit)
  }

  /** The chip erase command is a single byte, sent without looking whether it arrives. */
  function ChipErasing(s: State): Ended {
    var waited := Waiting(s);
    if waited.response != Success then waited
    else
      var enabled := WriteEnabling(waited.chip, true);
      if enabled.response != Success then enabled
      else
        var s1 := Started(enabled.chip);
        if !s1.now.start then Ended(Error, s1)
        else Waiting(if s1.now.command then Erasing(s1, 0, |s1.mem|) else Log(s1, CommandLost))
  }

  // -------------------------------------------------------------------------- the driver

  method WaitWhileBusy(chip: Chip) returns (response: Status)
    modifies chip
    ensures Ended(response, chip.View()) == Waiting(old(chip.View()))
  {
    var busy := true;
    while busy
      invariant busy ==> Waiting(chip.View()) == Waiting(old(chip.View()))
      invariant !busy ==> Ended(Success, chip.View()) == Waiting(old(chip.View()))
      decreases |chip.script| + if busy then 1 else 0
    {
      var ok := chip.Start();
      if !ok { return Error; }
      var status := chip.ReadStatus();
      var passed := chip.DeadlinePassed();
      if passed { return Timeout; }
      busy := WipSet(status);
    }
    response := Success;
  }

  method WriteEnable(chip: Chip, on: bool) returns (response: Status)
    modifies chip
    ensures Ended(response, chip.View()) == WriteEnabling(old(chip.View()), on)
  {
    var ok := chip.Start();
    if !ok { return Error; }
    chip.SetWriteEnable(on);
    response := Success;
  }

  /** The page program of one chunk: header and data in one transaction. */
  method Transmit(chip: Chip, addr: nat, data: seq<octet>) returns (response: Status)
    requires chip.Valid()
    modifies chip
    ensures Ended(response, chip.View()) == Transacting(chip.geometry, old(chip.View()), addr, data)
  {
    var address := AddressBytes(addr, chip.geometry.addressSize);
    var ok := chip.Start();
    if !ok { return Error; }
    var status := chip.TakeProgram(address, data);
    response := if status == 0 then Success else Error;
  }

  method WriteChunk(chip: Chip, addr: nat, data: seq<octet>) returns (response: Status)
    requires chip.Valid()
    modifies chip
    ensures Ended(response, chip.View()) == ChunkWriting(chip.geometry, old(chip.View()), addr, data)
  {
    response := WaitWhileBusy(chip);
    if response != Success { return; }
    response := WriteEnable(chip, true);
    if response != Success { return; }
    response := Transmit(chip, addr, data);
  }

  /** One turn of the loop, with `todo` left to write and `rest` after it. */
  method WriteNext(chip: Chip, target: nat, chunk: seq<octet>, ghost todo: seq<octet>, ghost rest: seq<octet>,
                   ghost next: nat, ghost step: Step)
    returns (response: Status)
    requires chip.Valid() && todo != [] && |chunk| == ChunkLength(target, |todo|, chip.geometry.page)
      && todo == chunk + rest
    requires next == target + |chunk| && IsFlashStep(step, chip.geometry)
    modifies chip
    ensures var g := chip.geometry;
      Looping(step, g.page, old(chip.View()), target, todo)
      == if response != Success then Ended(response, chip.View()) else Looping(step, g.page, chip.View(), next, rest)
  {
    ghost var g, s := chip.geometry, chip.View();
    response := WriteChunk(chip, target, chunk);
    assert At(step, s, target, chunk) == ChunkWriting(g, s, target, chunk);
    LoopTurn(step, g.page, s, target, todo, chunk, rest, next, Ended(response, chip.View()));
  }

  /** The loop of flash_write_block. */
  method WriteChunks(chip: Chip, addr: nat, buf: seq<octet>, ghost step: Step) returns (response: Status)
    requires chip.Valid() && IsFlashStep(step, chip.geometry)
    modifies chip
    ensures Ended(response, chip.View()) == Looping(step, chip.geometry.page, old(chip.View()), addr, buf)
  {
    var target, at, len := addr, 0, |buf|;
    var g := chip.geometry;
    ghost var e, todo := Looping(step, g.page, chip.View(), addr, buf), buf;
    while len > 0
      invariant 0 <= at && 0 <= len && 0 <= target && at + len == |buf| && todo == buf[at..]
      invariant Looping(step, g.page, chip.View(), target, todo) == e
    {
      var pageOffset := target % g.page;
      var writeLength := g.page - pageOffset;
      if writeLength > len { writeLength := len; }
      var chunk := buf[at..at + writeLength];
      ghost var rest := buf[at + writeLength..];
      NextPart(buf, at, writeLength);
      response := WriteNext(chip, target, chunk, todo, rest, target + writeLength, step);
      todo := rest;
      if response != Success { return; }
      target, at, len := target + writeLength, at + writeLength, len - writeLength;
    }
    response := Success;
  }

  /** flash_write_block. */
  method WriteBlock(chip: Chip, addr: nat, buf: seq<octet>) returns (response: Status)
    requires chip.Valid()
    modifies chip
    ensures Ended(response, chip.View()) == BlockWriting(chip.geometry, old(chip.View()), addr, buf)
  {
    response := WriteChunks(chip, addr, buf, FlashStep(chip.geometry));
    if response != Success { return; }
    response := WaitWhileBusy(chip);
    if response != Success { return; }
    response := WriteEnable(chip, false);
  }

  /** flash_read_block. */
  method ReadBlock(chip: Chip, addr: nat, len: nat) returns (response: Status, buf: seq<octet>)
    requires chip.Valid()
    modifies chip
    ensures (Ended(response, chip.View()), buf) == BlockReading(chip.geometry, old(chip.View()), addr, len)
  {
    buf := seq<octet>(len, _ => 0);
    response := WaitWhileBusy(chip);
    if response != Success { return; }
    var address := AddressBytes(addr, chip.geometry.addressSize);
    var ok := chip.Start();
    if !ok { return Error, buf; }
    if !chip.now.Sent() {
      chip.Lose(Unsent);
      return Error, buf;
    }
    buf := chip.TakeRead(address, len);
    response := Success;
  }

  /** flash_erase_sector and flash_erase_block, which differ in the unit only. */
  method EraseUnit(chip: Chip, addr: nat, unit: nat) returns (response: Status)
    requires chip.Valid() && unit > 0 && addr < 0x1_0000_0000
    modifies chip
    ensures Ended(response, chip.View()) == UnitErasing(chip.geometry, old(chip.View()), addr, unit)
  {
    if (addr + unit) % 0x1_0000_0000 >= |chip.mem| || addr % unit != 0 { return Error; }
    response := WaitWhileBusy(chip);
    if response != Success { return; }
    response := WriteEnable(chip, true);
    if response != Success { return; }
    var address := AddressBytes(addr, chip.geometry.addressSize);
    var ok := chip.Start();
    if !ok { return Error; }
    if !chip.now.header.Whole? {
      chip.Lose(Unsent);
      if chip.now.header.n > chip.geometry.addressSize { chip.TakeErase(Decode(address), unit); }
      return Error;
    }
    chip.TakeErase(Decode(address), unit);
    response := WaitWhileBusy(chip);
  }

  /** flash_erase_chip. */
  method EraseChip(chip: Chip) returns (response: Status)
    modifies chip
    ensures Ended(response, chip.View()) == ChipErasing(old(chip.View()))
  {
    response := WaitWhileBusy(chip);
    if response != Success { return; }
    response := WriteEnable(chip, true);
    if response != Success { return; }
    var ok := chip.Start();
    if !ok { return Error; }
    if chip.now.command { chip.TakeErase(0, |chip.mem|); } else { chip.Lose(CommandLost); }
    response := WaitWhileBusy(chip);
  }
}
