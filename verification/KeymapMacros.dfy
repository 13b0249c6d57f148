/** Sending a stored macro (quantum/dynamic_keymap.c:257-340): finding the id-th string in the
    macro buffer, cutting it into tokens and handing each to the sender. */
module KeymapMacros {
  import opened Eeprom
  import opened DynamicKeymap

  const PREFIX: byte := 1
  const DELAY_CODE: byte := 4
  const BAR: byte := 124

  predicate IsKeyCode(c: byte) { 1 <= c <= 3 }

  /** What was handed to the sender, chunk by chunk, and whether a byte past the end of the
      macro buffer was read.  The model stops at such a read. */
  datatype Outcome = Outcome(chunks: seq<seq<byte>>, overran: bool)

  function After(chunk: seq<byte>, o: Outcome): Outcome { Outcome([chunk] + o.chunks, o.overran) }

  /** A C string: what comes before the first null. */
  function CString(data: seq<byte>): (s: seq<byte>)
    ensures |s| <= |data|
  {
    if data == [] || data[0] == 0 then [] else [data[0]] + CString(data[1..])
  }

  type Scratch = d: seq<byte> | |d| == 8 && d[7] == 0 witness [0, 0, 0, 0, 0, 0, 0, 0]

  /** One token: it is in `data` and the rest of the macro buffer follows; or the end of the
      macro, or a null in the middle of a token; or a read past the end of the buffer. */
  datatype Step = Chunk(rest: seq<byte>, data: Scratch) | Stop | Overrun

  /** Reading a delay's digits into data[i..]; `s` is what is left of the macro buffer. */
  function ScanDelay(s: seq<byte>, i: nat, data: Scratch): (r: Step)
    requires 2 <= i <= 6
    ensures r.Chunk? ==> |r.rest| < |s|
    decreases 7 - i
  {
    if s == [] then Overrun
    else if s[0] == 0 then Stop
    else if s[0] == BAR then Chunk(s[1..], data[i := BAR][i + 1 := 0])
    else if i == 6 then Stop
    else ScanDelay(s[1..], i + 1, data[i := s[0]])
  }

  /** Reading the key of a tap, press or release. */
  function ReadingKey(s: seq<byte>, data: Scratch): (r: Step)
    ensures r.Chunk? ==> |r.rest| < |s|
  {
    if s == [] then Overrun
    else if s[0] == 0 then Stop
    else Chunk(s[1..], data[2 := s[0]][3 := 0])
  }

  /** Reading one token; `data` is what earlier tokens left behind. */
  function Token(s: seq<byte>, data: Scratch): (r: Step)
    ensures r.Chunk? ==> |r.rest| < |s|
  {
    if s == [] then Overrun
    else if s[0] == 0 then Stop
    else if s[0] != PREFIX then Chunk(s[1..], data[0 := s[0]][1 := 0])
    else if |s| == 1 then Overrun
    else if s[1] == 0 then Stop
    else
      var d1: Scratch := data[0 := PREFIX][1 := s[1]];
      if IsKeyCode(s[1]) then ReadingKey(s[2..], d1)
      else if s[1] == DELAY_CODE then ScanDelay(s[2..], 2, d1)
      else Chunk(s[2..], d1)
  }

  /** Sending from a point in the macro buffer on. */
  function Sending(s: seq<byte>, data: Scratch): Outcome
    decreases |s|
  {
    match Token(s, data)
    case Overrun => Outcome([], true)
    case Stop => Outcome([], false)
    case Chunk(rest, d) => After(CString(d), Sending(rest, d))
  }

  const CLEAR: Scratch := [0, 0, 0, 0, 0, 0, 0, 0]

  /** What follows the first `id` nulls, if there are that many. */
  datatype Rest = Rest(s: seq<byte>) | NoSuchMacro

  function Skip(s: seq<byte>, id: nat): Rest
    decreases |s|
  {
    if id == 0 then Rest(s)
    else if s == [] then NoSuchMacro
    else Skip(s[1..], if s[0] == 0 then id - 1 else id)
  }

  /** dynamic_keymap_macro_send on the bytes of the macro buffer. */
  function MacroSend(b: seq<byte>, count: nat, id: nat): Outcome
    requires b != []
  {
    if id >= count || b[|b| - 1] != 0 then Outcome([], false)
    else
      match Skip(b, id)
      case NoSuchMacro => Outcome([], false)
      case Rest(s) => Sending(s, CLEAR)
  }

  // ------------------------------------------------------------------- the method

  function MacroBytes(l: Layout, mem: seq<byte>): (b: seq<byte>)
    requires l.Fits(|mem|)
    ensures |b| == l.MacroSize()
  {
    mem[l.MacroAddr()..l.MacroAddr() + l.MacroSize()]
  }

  /** The sender: a device that records what it was given. */
  class Sender {
    var sent: seq<seq<byte>>
    var overran: bool

    constructor ()
      ensures sent == [] && !overran
    {
      sent, overran := [], false;
    }

    method SendString(data: array<byte>)
      requires data.Length == 8
      modifies this
      ensures sent == old(sent) + [CString(data[..])] && overran == old(overran)
    {
      var s: seq<byte> := [];
      var i := 0;
      while i < 8 && data[i] != 0
        invariant 0 <= i <= 8
        invariant CString(data[..]) == s + CString(data[i..])
      {
        assert data[i..][1..] == data[i + 1..];
        assert s + ([data[i]] + CString(data[i + 1..])) == s + [data[i]] + CString(data[i + 1..]);
        s, i := s + [data[i]], i + 1;
      }
      assert CString(data[i..]) == [];
      assert s + [] == s;
      sent := sent + [s];
    }
  }

  /** The sender has been given what `o` says, on top of what it was given `before`. */
  predicate Given(before: seq<seq<byte>>, sent: seq<seq<byte>>, overran: bool, o: Outcome) {
    sent == before + o.chunks && overran == o.overran
  }

  lemma {:induction false} OneMoreChunk(before: seq<seq<byte>>, sent: seq<seq<byte>>, overran: bool, chunk: seq<byte>,
                                        o: Outcome)
    requires Given(before + [chunk], sent, overran, o)
    ensures Given(before, sent, overran, After(chunk, o))
  {
    assert before + [chunk] + o.chunks == before + ([chunk] + o.chunks);
  }

  class Macros {
    const keymap: Keymap
    const sender: Sender

    constructor (keymap: Keymap, sender: Sender)
      ensures this.keymap == keymap && this.sender == sender
    {
      this.keymap, this.sender := keymap, sender;
    }

    ghost function Buffer(): (b: seq<byte>)
      requires keymap.Valid()
      reads keymap.eeprom, keymap.eeprom.cells
      ensures |b| == keymap.layout.MacroSize()
    {
      MacroBytes(keymap.layout, keymap.eeprom.cells[..])
    }

    method ReadMacroByte(p: nat) returns (value: byte)
      requires keymap.Valid() && p < keymap.layout.MacroSize()
      ensures value == Buffer()[p]
    {
      value := keymap.eeprom.ReadByte(keymap.layout.MacroAddr() + p);
    }

    method SendMacro(count: nat, id: nat)
      requires keymap.Valid()
      modifies sender
      ensures var o := MacroSend(Buffer(), count, id);
        sender.sent == old(sender.sent) + o.chunks && sender.overran == (old(sender.overran) || o.overran)
    {
      var size := keymap.layout.MacroSize();
      ghost var buffer := Buffer();
      assert sender.sent + [] == sender.sent;
      if id >= count { return; }
      var last := ReadMacroByte(size - 1);
      if last != 0 { return; }
      var p, left := 0, id;
      assert buffer[0..] == buffer;
      while left > 0
        invariant 0 <= p <= size
        invariant Skip(buffer[p..], left) == Skip(buffer, id)
        invariant sender.sent == old(sender.sent) && sender.overran == old(sender.overran) && buffer == Buffer()
        decreases size - p
      {
        if p == size { return; }
        var b := ReadMacroByte(p);
        assert buffer[p..][1..] == buffer[p + 1..];
        if b == 0 { left := left - 1; }
        p := p + 1;
      }
      var data := new byte[8](_ => 0);
      assert data[..] == CLEAR;
      var overran := SendFrom(p, data, buffer);
      sender.overran := sender.overran || overran;
    }

    /** The sending loop. */
    method SendFrom(start: nat, data: array<byte>, ghost buffer: seq<byte>) returns (overran: bool)
      requires keymap.Valid() && buffer == Buffer() && start <= |buffer|
      requires data.Length == 8 && data[7] == 0 && data != keymap.eeprom.cells
      modifies sender, data
      ensures Given(old(sender.sent), sender.sent, overran, Sending(buffer[start..], old(data[..])))
      ensures sender.overran == old(sender.overran)
    {
      var p := start;
      ghost var want := Sending(buffer[start..], data[..]);
      while true
        invariant start <= p <= |buffer| && data[7] == 0 && sender.overran == old(sender.overran) && buffer == Buffer()
        invariant forall sent, over ::
          Given(sender.sent, sent, over, Sending(buffer[p..], data[..])) ==> Given(old(sender.sent), sent, over, want)
        decreases |buffer| - p
      {
        ghost var todo := Sending(buffer[p..], data[..]);
        var more, over, next := ReadToken(p, data, buffer);
        if !more {
          assert sender.sent + [] == sender.sent;
          assert Given(sender.sent, sender.sent, over, todo);
          return over;
        }
        ghost var before, chunk, rest := sender.sent, CString(data[..]), Sending(buffer[next..], data[..]);
        assert todo == After(chunk, rest);
        sender.SendString(data);
        forall sent, over | Given(sender.sent, sent, over, rest) ensures Given(before, sent, over, todo) {
          OneMoreChunk(before, sent, over, chunk, rest);
        }
        p := next;
      }
    }

    /** What the reading methods report about a step. */
    ghost predicate Reported(step: Step, buffer: seq<byte>, more: bool, overran: bool, next: nat, data: seq<byte>) {
      match step
      case Chunk(rest, d) => more && next <= |buffer| && rest == buffer[next..] && d == data
      case Stop => !more && !overran
      case Overrun => !more && overran
    }

    lemma {:induction false} TokenStep(buffer: seq<byte>, p: nat, d: Scratch)
      requires p < |buffer|
      ensures Token(buffer[p..], d) ==
        if buffer[p] == 0 then Stop
        else if buffer[p] != PREFIX then Chunk(buffer[p + 1..], d[0 := buffer[p]][1 := 0])
        else if p + 1 == |buffer| then Overrun
        else if buffer[p + 1] == 0 then Stop
        else
          var d1: Scratch := d[0 := PREFIX][1 := buffer[p + 1]];
          if IsKeyCode(buffer[p + 1]) then ReadingKey(buffer[p + 2..], d1)
          else if buffer[p + 1] == DELAY_CODE then ScanDelay(buffer[p + 2..], 2, d1)
          else Chunk(buffer[p + 2..], d1)
    {
      assert buffer[p..][1..] == buffer[p + 1..];
      if p + 1 < |buffer| { assert buffer[p..][2..] == buffer[p + 2..]; }
    }

    /** Reading one token into `data`: `more` if there is one to send, `overran` if a byte
        past the end of the macro buffer was asked for. */
    method ReadToken(p: nat, data: array<byte>, ghost buffer: seq<byte>) returns (more: bool, overran: bool, next: nat)
      requires keymap.Valid() && buffer == Buffer() && p <= |buffer|
      requires data.Length == 8 && data[7] == 0 && data != keymap.eeprom.cells
      modifies data
      ensures data[7] == 0 && Reported(Token(buffer[p..], old(data[..])), buffer, more, overran, next, data[..])
    {
      if p == keymap.layout.MacroSize() { return false, true, p; }
      ghost var d: Scratch := data[..];
      TokenStep(buffer, p, d);
      var b := ReadMacroByte(p);
      data[0], data[1] := b, 0;
      assert data[..] == d[0 := b][1 := 0];
      if b == 0 { return false, false, p; }
      if b != PREFIX { return true, false, p + 1; }
      if p + 1 == keymap.layout.MacroSize() { return false, true, p; }
      b := ReadMacroByte(p + 1);
      data[1] := b;
      assert data[..] == d[0 := PREFIX][1 := b];
      if b == 0 { return false, false, p; }
      if IsKeyCode(b) {
        more, overran, next := ReadKey(p + 2, data, buffer);
      } else if b == DELAY_CODE {
        more, overran, next := ReadDelay(p + 2, data, buffer);
      } else {
        return true, false, p + 2;
      }
    }

    method ReadKey(p: nat, data: array<byte>, ghost buffer: seq<byte>) returns (more: bool, overran: bool, next: nat)
      requires keymap.Valid() && buffer == Buffer() && p <= |buffer|
      requires data.Length == 8 && data[7] == 0 && data != keymap.eeprom.cells
      modifies data
      ensures data[7] == 0 && Reported(ReadingKey(buffer[p..], old(data[..])), buffer, more, overran, next, data[..])
    {
      if p == keymap.layout.MacroSize() { return false, true, p; }
      ghost var s, d := buffer[p..], data[..];
      var b := ReadMacroByte(p);
      data[2] := b;
      if b == 0 { return false, false, p; }
      data[3] := 0;
      assert data[..] == d[2 := b][3 := 0] && s[1..] == buffer[p + 1..];
      return true, false, p + 1;
    }

    method ReadDelay(start: nat, data: array<byte>, ghost buffer: seq<byte>)
      returns (more: bool, overran: bool, next: nat)
      requires keymap.Valid() && buffer == Buffer() && start <= |buffer|
      requires data.Length == 8 && data[7] == 0 && data != keymap.eeprom.cells
      modifies data
      ensures data[7] == 0
        && Reported(ScanDelay(buffer[start..], 2, old(data[..])), buffer, more, overran, next, data[..])
    {
      var i, p := 2, start;
      ghost var want := ScanDelay(buffer[start..], 2, data[..]);
      while true
        invariant 2 <= i <= 6 && start <= p <= |buffer| && data[7] == 0 && buffer == Buffer()
        invariant ScanDelay(buffer[p..], i, data[..]) == want
        decreases 6 - i
      {
        if p == keymap.layout.MacroSize() { return false, true, p; }
        ghost var d: Scratch := data[..];
        var b := ReadMacroByte(p);
        data[i] := b;
        assert data[..] == d[i := b];
        DelayStep(buffer, p, i, d, b);
        if b == 0 { return false, false, p; }
        if b == BAR {
          data[i + 1] := 0;
          assert data[..] == d[i := b][i + 1 := 0];
          return true, false, p + 1;
        }
        if i == 6 { return false, false, p; }
        i, p := i + 1, p + 1;
      }
    }

    lemma {:induction false} DelayStep(buffer: seq<byte>, p: nat, i: nat, d: Scratch, b: byte)
      requires 2 <= i <= 6 && p < |buffer| && buffer[p] == b
      ensures ScanDelay(buffer[p..], i, d) ==
        if b == 0 then Stop else if b == BAR then Chunk(buffer[p + 1..], d[i := BAR][i + 1 := 0])
        else if i == 6 then Stop else ScanDelay(buffer[p + 1..], i + 1, d[i := b])
    {
      assert buffer[p..][1..] == buffer[p + 1..];
    }
  }
}
