/** Byte-addressed storage and what an interrupted sequence of byte updates leaves behind. */
module Eeprom {

  type byte = x: int | 0 <= x < 0x100

  datatype Update = Update(addr: nat, value: byte)

  predicate InRange(size: nat, ws: seq<Update>) {
    forall i | 0 <= i < |ws| :: ws[i].addr < size
  }

  /** The memory after the updates, in order. */
  function Apply(mem: seq<byte>, ws: seq<Update>): (mem': seq<byte>)
    requires InRange(|mem|, ws)
    ensures |mem'| == |mem|
  {
    if ws == [] then mem
    else
      var w := ws[|ws| - 1];
      Apply(mem, ws[..|ws| - 1])[w.addr := w.value]
  }

  predicate Touches(ws: seq<Update>, a: nat) { exists i | 0 <= i < |ws| :: ws[i].addr == a }

  /** The last update of `a`. */
  function LastValue(ws: seq<Update>, a: nat): byte
    requires Touches(ws, a)
  {
    if ws[|ws| - 1].addr == a then ws[|ws| - 1].value
    else
      assert Touches(ws[..|ws| - 1], a) by {
        var i :| 0 <= i < |ws| && ws[i].addr == a;
        assert ws[..|ws| - 1][i].addr == a;
      }
      LastValue(ws[..|ws| - 1], a)
  }

  lemma {:induction false} ApplyAt(mem: seq<byte>, ws: seq<Update>, a: nat)
    requires InRange(|mem|, ws) && a < |mem|
    ensures Apply(mem, ws)[a] == if Touches(ws, a) then LastValue(ws, a) else mem[a]
  {
    if ws != [] {
      var earlier := ws[..|ws| - 1];
      ApplyAt(mem, earlier, a);
      if Touches(earlier, a) {
        var i :| 0 <= i < |earlier| && earlier[i].addr == a;
        assert ws[i].addr == a;
      }
      if Touches(ws, a) && ws[|ws| - 1].addr != a {
        var i :| 0 <= i < |ws| && ws[i].addr == a;
        assert earlier[i].addr == a;
      }
      if ws[|ws| - 1].addr == a { assert Touches(ws, a); }
    }
  }

  lemma {:induction false} ApplyConcat(mem: seq<byte>, a: seq<Update>, b: seq<Update>)
    requires InRange(|mem|, a) && InRange(|mem|, b)
    ensures InRange(|mem|, a + b)
    ensures Apply(mem, a + b) == Apply(Apply(mem, a), b)
    decreases |b|
  {
    if b == [] {
      assert a + b == a;
    } else {
      assert (a + b)[..|a + b| - 1] == a + b[..|b| - 1];
      ApplyConcat(mem, a, b[..|b| - 1]);
    }
  }

  /** Updates made before are forgotten where the later ones reach. */
  lemma {:induction false} RedoneUpdatesWin(mem: seq<byte>, early: seq<Update>, ws: seq<Update>)
    requires InRange(|mem|, early) && InRange(|mem|, ws)
    requires forall i | 0 <= i < |early| :: Touches(ws, early[i].addr)
    ensures Apply(Apply(mem, early), ws) == Apply(mem, ws)
  {
    forall a: nat | a < |mem| ensures Apply(Apply(mem, early), ws)[a] == Apply(mem, ws)[a] {
      ApplyAt(mem, early, a);
      ApplyAt(Apply(mem, early), ws, a);
      ApplyAt(mem, ws, a);
    }
  }

  /** The device: its bytes, and every update made to it in order. */
  class Storage {
    const cells: array<byte>
    ghost var updates: seq<Update>

    constructor (size: nat)
      ensures fresh(cells) && cells.Length == size && updates == []
    {
      cells := new byte[size](_ => 0xFF);
      updates := [];
    }

    method ReadByte(addr: nat) returns (value: byte)
      requires addr < cells.Length
      ensures value == cells[addr]
    {
      value := cells[addr];
    }

    method UpdateByte(addr: nat, value: byte)
      requires addr < cells.Length
      modifies this, cells
      ensures updates == old(updates) + [Update(addr, value)]
      ensures cells[..] == old(cells[..])[addr := value]
    {
      if cells[addr] != value { cells[addr] := value; }
      updates := updates + [Update(addr, value)];
    }
  }

  /** The method that ended here made exactly the updates `ws`, and nothing else happened. */
  twostate predicate Made(e: Storage, ws: seq<Update>)
    reads e, e.cells
  {
    && InRange(e.cells.Length, ws)
    && e.updates == old(e.updates) + ws
    && e.cells[..] == Apply(old(e.cells[..]), ws)
  }
}
