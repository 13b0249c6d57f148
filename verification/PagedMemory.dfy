/** Memory chips that are written page by page: what a chip does with a write that would
    leave its page, and when that is the flat write the caller wanted. */
module PagedMemory {
  import opened Arithmetic

  type octet = x: int | 0 <= x < 0x100

  /** Flash can only clear bits; an EEPROM stores the new byte. */
  datatype Kind = Flash | Eeprom

  function Combine(kind: Kind, was: octet, now: octet): octet {
    if kind == Flash then And(was, now, 8) else now
  }

  /** The flat store: `data` combined into `mem` from `addr` on. */
  function Written(kind: Kind, mem: seq<octet>, addr: nat, data: seq<octet>): (mem': seq<octet>)
    ensures |mem'| == |mem|
  {
    seq(|mem|, i requires 0 <= i < |mem| =>
      if addr <= i < addr + |data| then Combine(kind, mem[i], data[i - addr]) else mem[i])
  }

  /** What is stored, bit by bit: in flash a bit is set only if it was, in an EEPROM bytes are replaced. */
  lemma {:induction false} WrittenBits(mem: seq<octet>, addr: nat, data: seq<octet>, i: nat, b: nat)
    requires addr <= i < addr + |data| && i < |mem| && b < 8
    ensures Bit(Written(Flash, mem, addr, data)[i], b) == (Bit(mem[i], b) && Bit(data[i - addr], b))
    ensures Written(Eeprom, mem, addr, data)[i] == data[i - addr]
  {
    BitOfAnd(mem[i], data[i - addr], 8, b);
  }

  /** Where a chip puts the i-th byte of a write: past the end of the page it goes on at the
      start of the same page. */
  function Wrapped(addr: nat, i: nat, page: nat): nat
    requires page > 0
  {
    addr - addr % page + (addr % page + i) % page
  }

  /** What the chip does with a write. */
  function Programmed(kind: Kind, mem: seq<octet>, addr: nat, data: seq<octet>, page: nat): (mem': seq<octet>)
    requires page > 0
    ensures |mem'| == |mem|
  {
    if data == [] then mem
    else
      var before := Programmed(kind, mem, addr, data[..|data| - 1], page);
      var a := Wrapped(addr, |data| - 1, page);
      if a < |mem| then before[a := Combine(kind, before[a], data[|data| - 1])] else before
  }

  predicate InOnePage(addr: nat, n: nat, page: nat)
    requires page > 0
  {
    addr % page + n <= page
  }

  /** How much of a write the drivers send at once: up to the end of the page. */
  function ChunkLength(addr: nat, len: nat, page: nat): (n: nat)
    requires page > 0 && len > 0
    ensures 0 < n <= len && InOnePage(addr, n, page)
  {
    var room := page - addr % page;
    if room > len then len else room
  }

  lemma {:induction false} WrappedInPage(addr: nat, i: nat, page: nat)
    requires page > 0 && addr % page + i < page
    ensures Wrapped(addr, i, page) == addr + i
  {
    SmallMod(addr % page + i, page);
  }

  /** Within one page, the chip does the flat write. */
  lemma {:induction false} InPageIsFlat(kind: Kind, mem: seq<octet>, addr: nat, data: seq<octet>, page: nat)
    requires page > 0 && InOnePage(addr, |data|, page)
    ensures Programmed(kind, mem, addr, data, page) == Written(kind, mem, addr, data)
  {
    if data != [] {
      var n := |data| - 1;
      InPageIsFlat(kind, mem, addr, data[..n], page);
      WrappedInPage(addr, n, page);
    }
  }

  /** A write that leaves its page does not reach the next one: its bytes stay as they were. */
  lemma {:induction false} CrossingIsLost(kind: Kind, mem: seq<octet>, addr: nat, data: seq<octet>, page: nat, a: nat)
    requires page > 0 && a < |mem| && !(addr - addr % page <= a < addr - addr % page + page)
    ensures Programmed(kind, mem, addr, data, page)[a] == mem[a]
  {
    if data != [] {
      CrossingIsLost(kind, mem, addr, data[..|data| - 1], page, a);
      assert addr - addr % page <= Wrapped(addr, |data| - 1, page) < addr - addr % page + page;
    }
  }

  /** Two flat writes, the second right after the first, are one. */
  lemma {:induction false} WrittenTwice(kind: Kind, mem: seq<octet>, addr: nat, a: seq<octet>, b: seq<octet>)
    requires addr + |a| + |b| <= |mem|
    ensures Written(kind, Written(kind, mem, addr, a), addr + |a|, b) == Written(kind, mem, addr, a + b)
  {
    var first := Written(kind, mem, addr, a);
    forall i | 0 <= i < |mem| ensures Written(kind, first, addr + |a|, b)[i] == Written(kind, mem, addr, a + b)[i] {
      if addr <= i < addr + |a| { assert (a + b)[i - addr] == a[i - addr]; }
      else if addr + |a| <= i < addr + |a| + |b| { assert (a + b)[i - addr] == b[i - addr - |a|]; }
    }
  }

  /** The bytes read back after a flat write, where the memory allowed it. */
  lemma {:induction false} ReadBack(kind: Kind, mem: seq<octet>, addr: nat, data: seq<octet>)
    requires addr + |data| <= |mem|
    requires kind == Flash ==> forall i | addr <= i < addr + |data| :: mem[i] == 0xFF
    ensures Written(kind, mem, addr, data)[addr..addr + |data|] == data
  {
    forall i | 0 <= i < |data| ensures Written(kind, mem, addr, data)[addr + i] == data[i] {
      if kind == Flash { ErasedTakesAnything(data[i], 8); }
    }
  }

  function Ones(n: nat): nat { if n == 0 then 0 else 2 * Ones(n - 1) + 1 }

  lemma {:induction false} ErasedTakesAnything(b: nat, n: nat)
    requires b <= Ones(n)
    ensures And(Ones(n), b, n) == b
  {
    if n > 0 { ErasedTakesAnything(b / 2, n - 1); }
  }

  /** Writing the same bytes to flash again changes nothing. */
  lemma {:induction false} FlashWriteTwice(mem: seq<octet>, addr: nat, data: seq<octet>)
    ensures Written(Flash, Written(Flash, mem, addr, data), addr, data) == Written(Flash, mem, addr, data)
  {
    var once := Written(Flash, mem, addr, data);
    forall i | 0 <= i < |mem| ensures Written(Flash, once, addr, data)[i] == once[i] {
      if addr <= i < addr + |data| { AndTwice(mem[i], data[i - addr], 8); }
    }
  }

  lemma {:induction false} AndTwice(a: nat, b: nat, n: nat)
    ensures And(And(a, b, n), b, n) == And(a, b, n)
  {
    if n > 0 { AndTwice(a / 2, b / 2, n - 1); }
  }

  // -------------------------------------------------------------------- addresses

  /** A big-endian number. */
  function Decode(bytes: seq<octet>): nat {
    if bytes == [] then 0 else 0x100 * Decode(bytes[..|bytes| - 1]) + bytes[|bytes| - 1]
  }

  /** The low bytes of an address, most significant first. */
  function AddressOf(addr: nat, size: nat): (bytes: seq<octet>)
    ensures |bytes| == size
    decreases size
  {
    if size == 0 then [] else AddressOf(addr / 0x100, size - 1) + [addr % 0x100]
  }

  lemma {:induction false} DecodeAddress(addr: nat, size: nat)
    ensures Decode(AddressOf(addr, size)) == addr % Pow256(size)
    decreases size
  {
    if size > 0 {
      DecodeAddress(addr / 0x100, size - 1);
      assert AddressOf(addr, size)[..size - 1] == AddressOf(addr / 0x100, size - 1);
      NextDigit(addr, Pow256(size - 1), 0x100);
    }
  }

  lemma {:induction false} FirstOfAddress(addr: nat, size: nat)
    requires size > 0
    ensures AddressOf(addr, size)[0] == addr / Pow256(size - 1) % 0x100
  {
    if size > 1 {
      FirstOfAddress(addr / 0x100, size - 1);
      NextDigit(addr, Pow256(size - 2), 0x100);
    }
  }

  /** The address bytes sent to the chip: the loop of fill_target_address,
      spi_eeprom_transmit_address and spi_flash_transaction. */
  method AddressBytes(addr: nat, size: nat) returns (bytes: seq<octet>)
    ensures bytes == AddressOf(addr, size) && Decode(bytes) == addr % Pow256(size)
  {
    var buffer := new octet[size](_ => 0);
    var left, i := addr, 0;
    while i < size
      invariant 0 <= i <= size && buffer.Length == size && 0 <= left
      invariant AddressOf(addr, size) == AddressOf(left, size - i) + buffer[size - i..]
    {
      ghost var t := buffer[size - i..];
      buffer[size - 1 - i] := left % 0x100;
      assert buffer[size - (i + 1)..] == [left % 0x100] + t;
      left, i := left / 0x100, i + 1;
    }
    bytes := buffer[..];
    assert buffer[0..] == bytes;
    DecodeAddress(addr, size);
  }

  lemma {:induction false} OneMoreByte(addr: nat, i: nat, left: nat, t: seq<octet>)
    requires |t| == i && left == addr / Pow256(i) && Decode(t) == addr % Pow256(i)
    ensures left / 0x100 == addr / Pow256(i + 1) && Decode([left % 0x100] + t) == addr % Pow256(i + 1)
  {
    DecodeFront(left % 0x100, t);
    NextDigit(addr, 0x100, Pow256(i));
  }

  lemma {:induction false} DecodeFront(b: octet, t: seq<octet>)
    ensures Decode([b] + t) == b * Pow256(|t|) + Decode(t)
  {
    if t == [] {
      assert [b] + t == [b] && [b][..0] == [];
    } else {
      assert ([b] + t)[..|t|] == [b] + t[..|t| - 1];
      DecodeFront(b, t[..|t| - 1]);
      Distribute(b, Pow256(|t| - 1));
    }
  }

  lemma {:induction false} Distribute(b: nat, p: nat)
    ensures 0x100 * (b * p) == b * (0x100 * p)
  {
  }
}
