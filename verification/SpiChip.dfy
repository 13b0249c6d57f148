/** A memory chip on an SPI bus, as the drivers see it, with a script for everything the
    drivers cannot control: whether the bus starts, how long the chip is busy, what gets lost
    on the wire and when the deadline has passed.  A script that has run out is a dead bus. */
module SpiChip {
  import opened PagedMemory

  /** What a status read brings: the chip's answer, noise in its place, or an error of the bus. */
  datatype StatusRead = Answered | Noise(value: octet) | Failed | TimedOut

  /** How much of a transfer gets through: all of it, or it fails after the first `n` bytes. */
  datatype Part = Whole | First(n: nat)

  /** One transaction: `command` says whether a command byte sent on its own arrives, `header` and
      `data` how much of what is sent together does, and `line` is what is read from a silent chip. */
  datatype Answer = Answer(start: bool, finished: bool, command: bool, header: Part, data: Part, status: StatusRead,
                           expired: bool, line: seq<octet>)
  {
    /** Header and data get through, as far as the driver can tell. */
    predicate Sent() { header.Whole? && data.Whole? }
  }

  const DEAD: Answer := Answer(false, false, false, First(0), First(0), Failed, true, [])

  /** What happened at the chip. */
  datatype Event =
    | Program(addr: nat, data: seq<octet>, idle: bool, enabled: bool)
    | Erase(addr: nat, size: nat, idle: bool, enabled: bool)
    | Misread        // a status read looked like "not busy" while the chip was
    | CommandLost    // a command byte did not arrive, and the driver could not know
    | BrokenOff      // a data transfer broke off
    | Unsent         // the header of a transfer did not get through

  datatype Geometry = Geometry(kind: Kind, page: nat, addressSize: nat)

  datatype State = State(mem: seq<octet>, busy: bool, enabled: bool, script: seq<Answer>, now: Answer,
                         log: seq<Event>) {
    predicate Ready() { !busy && enabled }
  }

  /** The lowest bit of a status, negative numbers being two's complement. */
  predicate WipSet(status: int) { status % 2 == 1 }

  // ------------------------------------------------------------------ one transaction

  /** spi_start: the bus takes the next answer, by which time the chip may have finished. */
  function Started(s: State): State {
    if s.script == [] then s.(now := DEAD)
    else s.(script := s.script[1..], now := s.script[0], busy := s.busy && !s.script[0].finished)
  }

  function StatusOf(s: State): int {
    match s.now.status
    case Answered => (if s.busy then 1 else 0) + (if s.enabled then 2 else 0)
    case Noise(value) => value
    case Failed => -1
    case TimedOut => -2
  }

  function Log(s: State, e: Event): State { s.(log := s.log + [e]) }

  function StatusTaken(s: State): State { if s.busy && !WipSet(StatusOf(s)) then Log(s, Misread) else s }

  /** WREN and WRDI; a busy chip ignores them. */
  function Enabling(s: State, on: bool): State {
    if !s.now.command then Log(s, CommandLost) else if s.busy then s else s.(enabled := on)
  }

  /** Page program: a chip that is busy or protected ignores it. */
  function Programming(g: Geometry, s: State, a: nat, data: seq<octet>): State
    requires g.page > 0
  {
    var s1 := Log(s, Program(a, data, !s.busy, s.enabled));
    if s.Ready() then s1.(mem := Programmed(g.kind, s.mem, a, data, g.page), busy := true, enabled := false) else s1
  }

  /** The part of a transfer that arrives. */
  function Cut(p: Part, bytes: seq<octet>): (got: seq<octet>)
    ensures got <= bytes && (p.Whole? ==> got == bytes)
  {
    if p.Whole? || p.n >= |bytes| then bytes else bytes[..p.n]
  }

  /** A header in one transfer, then the data in another if that went well; no data, no program. */
  function Transmitting(g: Geometry, s: State, a: nat, data: seq<octet>): State
    requires g.page > 0
  {
    var arriving := Cut(s.now.data, data);
    if !s.now.header.Whole? then Log(s, Unsent)
    else if s.now.data.Whole? then Programming(g, s, a, data)
    else if arriving == [] then Log(s, BrokenOff)
    else Programming(g, Log(s, BrokenOff), a, arriving)
  }

  function Erased(mem: seq<octet>, addr: nat, size: nat): (mem': seq<octet>)
    ensures |mem'| == |mem|
  {
    seq(|mem|, i requires 0 <= i < |mem| => if addr <= i < addr + size then 0xFF else mem[i])
  }

  /** Sector, block or chip erase; a chip that is busy or protected ignores it. */
  function Erasing(s: State, a: nat, size: nat): State {
    var s1 := Log(s, Erase(a, size, !s.busy, s.enabled));
    if s.Ready() then s1.(mem := Erased(s.mem, a, size), busy := true, enabled := false) else s1
  }

  /** What is read in the `i`-th byte of a silent chip. */
  function OnLine(a: Answer, i: nat): octet { if i < |a.line| then a.line[i] else 0xFF }

  /** Reading on from an address; a busy chip is silent. */
  function Reading(s: State, a: nat, n: nat): (data: seq<octet>)
    ensures |data| == n
  {
    seq(n, i requires 0 <= i < n => if !s.busy && a + i < |s.mem| then s.mem[a + i] else OnLine(s.now, i))
  }

  // -------------------------------------------------------------------------- the chip

  class Chip {
    const geometry: Geometry
    var mem: seq<octet>
    var busy: bool
    var enabled: bool
    var script: seq<Answer>
    var now: Answer
    var log: seq<Event>

    ghost predicate Valid()
      reads this
    {
      geometry.page > 0
    }

    ghost function View(): State
      reads this
    {
      State(mem, busy, enabled, script, now, log)
    }

    constructor (geometry: Geometry, mem: seq<octet>, script: seq<Answer>)
      requires geometry.page > 0
      ensures Valid() && this.geometry == geometry && View() == State(mem, false, false, script, DEAD, [])
    {
      this.geometry, this.mem, this.script := geometry, mem, script;
      busy, enabled, now, log := false, false, DEAD, [];
    }

    method Start() returns (ok: bool)
      modifies this`busy, this`script, this`now
      ensures View() == Started(old(View())) && ok == now.start
    {
      if script == [] {
        now := DEAD;
      } else {
        now, script := script[0], script[1..];
        if now.finished { busy := false; }
      }
      ok := now.start;
    }

    method ReadStatus() returns (status: int)
      modifies this`log
      ensures View() == StatusTaken(old(View())) && status == StatusOf(old(View()))
    {
      match now.status {
        case Answered => status := (if busy then 1 else 0) + if enabled then 2 else 0;
        case Noise(value) => status := value;
        case Failed => status := -1;
        case TimedOut => status := -2;
      }
      if busy && !WipSet(status) { log := log + [Misread]; }
    }

    method DeadlinePassed() returns (passed: bool)
      ensures passed == now.expired
    {
      passed := now.expired;
    }

    method SetWriteEnable(on: bool)
      modifies this`enabled, this`log
      ensures View() == Enabling(old(View()), on)
    {
      if !now.command { log := log + [CommandLost]; } else if !busy { enabled := on; }
    }

    method Store(a: nat, data: seq<octet>)
      requires Valid()
      modifies this`mem, this`busy, this`enabled, this`log
      ensures View() == Programming(geometry, old(View()), a, data)
    {
      log := log + [Program(a, data, !busy, enabled)];
      if !busy && enabled {
        mem := Programmed(geometry.kind, mem, a, data, geometry.page);
        busy, enabled := true, false;
      }
    }

    /** Page program: the address bytes, then the data; zero if all of it got through. */
    method TakeProgram(address: seq<octet>, data: seq<octet>) returns (status: int)
      requires Valid()
      modifies this`mem, this`busy, this`enabled, this`log
      ensures View() == Transmitting(geometry, old(View()), Decode(address), data)
      ensures status == 0 <==> now.Sent()
    {
      var a, arriving := Decode(address), Cut(now.data, data);
      status := -1;
      if !now.header.Whole? {
        Lose(Unsent);
      } else if now.data.Whole? {
        Store(a, data);
        status := 0;
      } else {
        Lose(BrokenOff);
        if arriving != [] { Store(a, arriving); }
      }
    }

    method TakeErase(a: nat, size: nat)
      modifies this`mem, this`busy, this`enabled, this`log
      ensures View() == Erasing(old(View()), a, size)
    {
      log := log + [Erase(a, size, !busy, enabled)];
      if !busy && enabled {
        mem := Erased(mem, a, size);
        busy, enabled := true, false;
      }
    }

    /** A command or header that does not arrive. */
    method Lose(e: Event)
      modifies this`log
      ensures View() == Log(old(View()), e)
    {
      log := log + [e];
    }

    method TakeRead(address: seq<octet>, n: nat) returns (data: seq<octet>)
      ensures data == Reading(View(), Decode(address), n)
    {
      data := Reading(State(mem, busy, enabled, script, now, log), Decode(address), n);
    }
  }
}
