/** The I2C EEPROM driver (drivers/eeprom/eeprom_i2c.c), which does not look at the results of its
    transfers: a script says which of them get through.  A chip larger than its address bytes
    can tell takes the rest of the location from the I2C address, in banks; the driver makes
    that address once, from where the block starts (drivers/eeprom/eeprom_i2c.h:88-103). */
module EepromI2c {
  import opened Arithmetic
  import opened PagedMemory
  import opened Sequences

  /** How a transfer went: if it fails, after so many bytes, `noise` being what a read gets that
      was not addressed. */
  datatype Transfer = Through | Failed(taken: nat, noise: seq<octet>)

  /** A write sent to the chip, and how much of its data the chip took. */
  datatype Packet = Packet(addr: nat, data: seq<octet>, taken: nat, idle: bool)

  /** The chip: while a write is going on it answers nothing. */
  datatype State = State(mem: seq<octet>, busy: bool, script: seq<Transfer>, log: seq<Packet>)

  /** The settings: `bank` is the part of EXTERNAL_EEPROM_I2C_ADDRESS that the chip looks at, and
      `reach` how far its address counter goes in a read before it starts over. */
  datatype Layout = Layout(page: nat, addressSize: nat, bank: nat -> nat, reach: nat) {
    predicate Valid() { page > 0 && reach > 0 }

    /** How much the address bytes can tell apart. */
    function Span(): (n: nat)
      ensures n > 0
    {
      Pow256(addressSize)
    }

    /** Where the chip finds `target`, if the I2C address was made from `start`. */
    function Location(start: nat, target: nat): nat { bank(start) * Span() + target % Span() }
  }

  /** A script that has run out is a dead bus. */
  function NextTransfer(s: State): Transfer { if s.script == [] then Failed(0, []) else s.script[0] }

  function Rest(script: seq<Transfer>): seq<Transfer> { if script == [] then [] else script[1..] }

  /** How many of `n` bytes get through behind a header; a failing transfer may break off anywhere. */
  function Taken(t: Transfer, header: nat, n: nat): (k: nat)
    ensures k <= n
  {
    if t.Through? || t.taken >= header + n then n else if t.taken <= header then 0 else t.taken - header
  }

  /** A packet is an address and data. */
  function Transmitting(c: Layout, s: State, a: nat, data: seq<octet>): State
    requires c.Valid()
  {
    var n := if s.busy then 0 else Taken(NextTransfer(s), c.addressSize, |data|);
    var s1 := s.(script := Rest(s.script), log := s.log + [Packet(a, data, n, !s.busy)]);
    if n == 0 then s1 else s1.(mem := Programmed(Eeprom, s.mem, a, data[..n], c.page), busy := true)
  }

  /** A packet, and wait_ms for the chip's write time. */
  function ChunkWriting(c: Layout, s: State, start: nat, target: nat, data: seq<octet>): State
    requires c.Valid()
  {
    Transmitting(c, s, c.Location(start, target), data).(busy := false)
  }

  /** The loop of eeprom_write_block, for a block that starts at `start`. */
  function BlockWriting(c: Layout, s: State, start: nat, target: nat, buf: seq<octet>): State
    requires c.Valid()
    decreases |buf|
  {
    if buf == [] then s
    else
      var n := ChunkLength(target, |buf|, c.page);
      BlockWriting(c, ChunkWriting(c, s, start, target, buf[..n]), start, target + n, buf[n..])
  }

  /** One turn of the loop, with `todo` left to write. */
  lemma {:induction false} NextChunk(c: Layout, s: State, start: nat, target: nat, todo: seq<octet>, chunk: seq<octet>,
                                    rest: seq<octet>)
    requires c.Valid() && todo == chunk + rest && todo != [] && |chunk| == ChunkLength(target, |todo|, c.page)
    ensures BlockWriting(c, s, start, target, todo)
         == BlockWriting(c, ChunkWriting(c, s, start, target, chunk), start, target + |chunk|, rest)
  {
    assert todo[..|chunk|] == chunk && todo[|chunk|..] == rest;
  }

  /** Reading on from a location: at the end of its reach the counter starts over. */
  function Fetched(c: Layout, mem: seq<octet>, a: nat, len: nat): (data: seq<octet>)
    requires c.Valid()
    ensures |data| == len
  {
    seq(len, i requires 0 <= i < len =>
      if Wrapped(a, i, c.reach) < |mem| then mem[Wrapped(a, i, c.reach)] else 0xFF)
  }

  /** What eeprom_read_block leaves in a buffer that held `into`: neither of its transfers is checked. */
  function BlockReading(c: Layout, s: State, addr: nat, into: seq<octet>): (data: seq<octet>)
    requires c.Valid()
    ensures |data| == |into|
  {
    var first, second := NextTransfer(s), NextTransfer(s.(script := Rest(s.script)));
    if s.busy then into
    else if first.Through? then
      var n := Taken(second, 0, |into|);
      Fetched(c, s.mem, c.Location(addr, addr), |into|)[..n] + into[n..]
    else if |first.noise| <= |into| then first.noise + into[|first.noise|..]
    else first.noise[..|into|]
  }

  class Chip {
    const layout: Layout
    var mem: seq<octet>
    var busy: bool
    var script: seq<Transfer>
    var log: seq<Packet>

    ghost predicate Valid()
      reads this
    {
      layout.Valid()
    }

    ghost function View(): State
      reads this
    {
      State(mem, busy, script, log)
    }

    constructor (layout: Layout, mem: seq<octet>, script: seq<Transfer>)
      requires layout.Valid()
      ensures Valid() && View() == State(mem, false, script, [])
    {
      this.layout, this.mem, this.script := layout, mem, script;
      busy, log := false, [];
    }

    method Next() returns (t: Transfer)
      modifies this`script
      ensures t == NextTransfer(old(View())) && script == Rest(old(script))
    {
      t := Failed(0, []);
      if script != [] { t, script := script[0], script[1..]; }
    }

    /** The I2C address selects the bank, and the packet begins with the address in it. */
    method Transmit(bank: nat, packet: seq<octet>)
      requires Valid() && |packet| >= layout.addressSize
      modifies this`mem, this`busy, this`script, this`log
      ensures var size := layout.addressSize;
        var a := bank * layout.Span() + Decode(packet[..size]);
        View() == Transmitting(layout, old(View()), a, packet[size..])
    {
      var size := layout.addressSize;
      var a, data := bank * layout.Span() + Decode(packet[..size]), packet[size..];
      var t := Next();
      var n := if busy then 0 else Taken(t, size, |data|);
      log := log + [Packet(a, data, n, !busy)];
      if n > 0 {
        mem := Programmed(Eeprom, mem, a, data[..n], layout.page);
        busy := true;
      }
    }

    method WaitWriteTime()
      modifies this`busy
      ensures !busy
    {
      busy := false;
    }

    /** The address is sent, and bytes are read on from there into a buffer. */
    method Read(bank: nat, address: seq<octet>, into: seq<octet>, ghost addr: nat) returns (data: seq<octet>)
      requires Valid() && layout.Location(addr, addr) == bank * layout.Span() + Decode(address)
      modifies this`script
      ensures data == BlockReading(layout, old(View()), addr, into)
    {
      var addressed := Next();
      var received := Next();
      if busy { return into; }
      if addressed.Failed? {
        var noise := addressed.noise;
        return if |noise| <= |into| then noise + into[|noise|..] else noise[..|into|];
      }
      var n := Taken(received, 0, |into|);
      data := Fetched(layout, mem, bank * layout.Span() + Decode(address), |into|)[..n] + into[n..];
    }
  }

  /** fill_target_address: the first bytes of the packet. */
  method FillTargetAddress(buffer: array<octet>, addr: nat, size: nat)
    requires size <= buffer.Length
    modifies buffer
    ensures Decode(buffer[..size]) == addr % Pow256(size)
    ensures buffer[size..] == old(buffer[size..])
  {
    var p, i := addr, 0;
    while i < size
      invariant 0 <= i <= size && p == addr / Pow256(i)
      invariant Decode(buffer[size - i..size]) == addr % Pow256(i)
      invariant buffer[size..] == old(buffer[size..])
    {
      ghost var t := buffer[size - i..size];
      buffer[size - 1 - i] := p % 0x100;
      assert buffer[size - (i + 1)..size] == [p % 0x100] + t;
      OneMoreByte(addr, i, p, t);
      p, i := p / 0x100, i + 1;
    }
    assert buffer[0..size] == buffer[..size];
  }

  /** Address and data into the packet buffer.  The 8-bit loop index has to reach the end of the chunk. */
  method FillPacket(completePacket: array<octet>, addr: nat, size: nat, data: seq<octet>)
    requires |data| <= 0xFF && size + |data| <= completePacket.Length
    modifies completePacket
    ensures Decode(completePacket[..size]) == addr % Pow256(size) && completePacket[size..size + |data|] == data
  {
    FillTargetAddress(completePacket, addr, size);
    ghost var header := completePacket[..size];
    var i := 0;
    while i < |data|
      invariant 0 <= i <= |data| <= 0xFF
      invariant completePacket[..size] == header && completePacket[size..size + i] == data[..i]
    {
      completePacket[size + i] := data[i];
      i := i + 1;
    }
  }

  /** The 8-bit index of the packet loop after `n` increments. */
  function IndexAfter(n: nat): octet { n % 0x100 }

  /** It reaches the end of a chunk exactly when the chunk has at most 255 bytes. */
  lemma {:induction false} PacketLoopEndsExactlyWhen(len: nat)
    ensures (exists n: nat :: IndexAfter(n) >= len) <==> len <= 0xFF
  {
    if len <= 0xFF { assert IndexAfter(len) >= len; }
  }

  /** The packet loop ends for every chunk of the block. */
  predicate ChunksEnd(target: nat, len: nat, page: nat)
    requires page > 0
    decreases len
  {
    len == 0 || (
      var n := ChunkLength(target, len, page);
      n <= 0xFF && ChunksEnd(target + n, len - n, page))
  }

  lemma {:induction false} EndsOn(target: nat, len: nat, page: nat, n: nat)
    requires page > 0 && len > 0 && n == ChunkLength(target, len, page) && ChunksEnd(target, len, page)
    ensures n <= 0xFF && ChunksEnd(target + n, len - n, page)
  {
  }

  /** One turn of the loop, in the packet buffer that all turns share. */
  method WriteChunk(chip: Chip, completePacket: array<octet>, addr: nat, target: nat, data: seq<octet>)
    requires chip.Valid() && |data| <= chip.layout.page && |data| <= 0xFF
    requires completePacket.Length == chip.layout.addressSize + chip.layout.page
    modifies chip, completePacket
    ensures chip.Valid() && chip.View() == ChunkWriting(chip.layout, old(chip.View()), addr, target, data)
  {
    var size := chip.layout.addressSize;
    FillPacket(completePacket, target, size, data);
    var packet := completePacket[..size + |data|];
    assert packet[..size] == completePacket[..size] && packet[size..] == data;
    chip.Transmit(chip.layout.bank(addr), packet);
    chip.WaitWriteTime();
  }

  /** The rest of a block as a function of where it is written, and whether its packet loops end. */
  ghost predicate IsRest(c: Layout, addr: nat, write: (State, nat, seq<octet>) -> State, ends: (nat, nat) -> bool)
    requires c.Valid()
  {
    && (forall s: State, target: nat, todo: seq<octet> ::
          write(s, target, todo) == BlockWriting(c, s, addr, target, todo))
    && (forall target: nat, len: nat :: ends(target, len) == ChunksEnd(target, len, c.page))
  }

  /** One turn of the loop of eeprom_write_block: the rest is left to do. */
  method WriteNext(chip: Chip, completePacket: array<octet>, addr: nat, target: nat, chunk: seq<octet>,
                   ghost todo: seq<octet>, ghost rest: seq<octet>,
                   ghost write: (State, nat, seq<octet>) -> State, ghost ends: (nat, nat) -> bool)
    requires chip.Valid() && completePacket.Length == chip.layout.addressSize + chip.layout.page
    requires todo == chunk + rest && todo != [] && |chunk| == ChunkLength(target, |todo|, chip.layout.page)
    requires IsRest(chip.layout, addr, write, ends) && ends(target, |todo|)
    modifies chip, completePacket
    ensures write(old(chip.View()), target, todo) == write(chip.View(), target + |chunk|, rest)
    ensures ends(target + |chunk|, |rest|)
  {
    ghost var c, s := chip.layout, chip.View();
    EndsOn(target, |todo|, c.page, |chunk|);
    NextChunk(c, s, addr, target, todo, chunk, rest);
    WriteChunk(chip, completePacket, addr, target, chunk);
  }

  /** The loop of eeprom_write_block. */
  method WriteChunks(chip: Chip, completePacket: array<octet>, buf: seq<octet>, addr: nat,
                     ghost write: (State, nat, seq<octet>) -> State, ghost ends: (nat, nat) -> bool)
    requires chip.Valid() && completePacket.Length == chip.layout.addressSize + chip.layout.page
    requires IsRest(chip.layout, addr, write, ends) && ends(addr, |buf|)
    modifies chip, completePacket
    ensures chip.View() == write(old(chip.View()), addr, buf)
  {
    var c := chip.layout;
    var target, at, len := addr, 0, |buf|;
    ghost var todo := buf;
    while len > 0
      invariant 0 <= at && 0 <= len && 0 <= target && at + len == |buf| && todo == buf[at..]
      invariant ends(target, |todo|) && write(chip.View(), target, todo) == write(old(chip.View()), addr, buf)
    {
      var pageOffset := target % c.page;
      var writeLength := c.page - pageOffset;
      if writeLength > len { writeLength := len; }
      var chunk := buf[at..at + writeLength];
      ghost var rest := buf[at + writeLength..];
      NextPart(buf, at, writeLength);
      WriteNext(chip, completePacket, addr, target, chunk, todo, rest, write, ends);
      todo := rest;
      target, at, len := target + writeLength, at + writeLength, len - writeLength;
    }
    NothingLeft(c, addr, write, ends, chip.View(), target);
  }

  lemma {:induction false} NothingLeft(c: Layout, addr: nat, write: (State, nat, seq<octet>) -> State,
                                       ends: (nat, nat) -> bool, s: State, target: nat)
    requires c.Valid() && IsRest(c, addr, write, ends)
    ensures write(s, target, []) == s
  {
  }

  /** eeprom_write_block. */
  method WriteBlock(chip: Chip, buf: seq<octet>, addr: nat)
    requires chip.Valid() && ChunksEnd(addr, |buf|, chip.layout.page)
    modifies chip
    ensures chip.View() == BlockWriting(chip.layout, old(chip.View()), addr, addr, buf)
  {
    var c := chip.layout;
    var completePacket := new octet[c.addressSize + c.page](_ => 0);
    ghost var write := (s: State, target: nat, todo: seq<octet>) => BlockWriting(c, s, addr, target, todo);
    ghost var ends := (target: nat, len: nat) => ChunksEnd(target, len, c.page);
    WriteChunks(chip, completePacket, buf, addr, write, ends);
  }

  /** eeprom_read_block, into a buffer. */
  method ReadBlock(chip: Chip, into: seq<octet>, addr: nat) returns (buf: seq<octet>)
    requires chip.Valid()
    modifies chip`script
    ensures buf == BlockReading(chip.layout, old(chip.View()), addr, into)
  {
    var packet := new octet[chip.layout.addressSize](_ => 0);
    FillTargetAddress(packet, addr, chip.layout.addressSize);
    assert packet[..chip.layout.addressSize] == packet[..];
    buf := chip.Read(chip.layout.bank(addr), packet[..], into, addr);
  }
}
