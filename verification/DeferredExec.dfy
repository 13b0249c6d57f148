/** The deferred-execution table (quantum/deferred_exec.c): tokens from an 8-bit counter,
    deadlines on the wrapped 32-bit clock. */
module DeferredExec {

  type uint8 = x: int | 0 <= x < 0x100
  type uint32 = x: int | 0 <= x < 0x1_0000_0000

  const INVALID_TOKEN: uint8 := 0
  const NULL: nat := 0

  /** A table entry.  Callbacks and their arguments are opaque values, NULL being 0. */
  datatype Entry = Entry(token: uint8, triggerTime: uint32, callback: nat, arg: nat)
  const FREE := Entry(INVALID_TOKEN, 0, NULL, NULL)

  /** A call of a callback: what it was given and the delay it returned. */
  datatype Invocation = Invocation(token: uint8, callback: nat, arg: nat, triggerTime: uint32, delay: uint32)

  /** What callbacks return may depend on everything they were given so far. */
  type Callbacks = (seq<Invocation>, nat, nat, uint32) -> uint32

  function Wrap32(x: int): uint32 { x % 0x1_0000_0000 }

  /** The 32-bit difference read as a signed number. */
  function SignedDiff(a: uint32, b: uint32): (d: int)
    ensures -0x8000_0000 <= d < 0x8000_0000
  {
    var d := Wrap32(a - b);
    if d < 0x8000_0000 then d else d - 0x1_0000_0000
  }

  // ------------------------------------------------------------------- tokens

  predicate CanBeUsed(table: seq<Entry>, token: uint8) {
    token != INVALID_TOKEN && forall i | 0 <= i < |table| :: table[i].token != token
  }

  function Advance(token: uint8, n: nat): uint8 { (token + n) % 0x100 }

  lemma {:induction false} AdvanceOne(token: uint8, n: nat)
    ensures (Advance(token, n) + 1) % 0x100 == Advance(token, n + 1)
  {
  }

  /** The counter is back at its first value after exactly 256 steps. */
  lemma {:induction false} AdvanceReturns(token: uint8, n: nat)
    requires 1 < n <= 257
    ensures Advance(token, n) == Advance(token, 1) <==> n == 257
  {
  }

  /** The first usable token `n` or more steps after `token`, all 256 values tried once. */
  function FindToken(table: seq<Entry>, token: uint8, n: nat): (found: uint8)
    requires n <= 257
    ensures found == INVALID_TOKEN || CanBeUsed(table, found)
    decreases 257 - n
  {
    if n == 257 then INVALID_TOKEN
    else if CanBeUsed(table, Advance(token, n)) then Advance(token, n)
    else FindToken(table, token, n + 1)
  }

  // --------------------------------------------------------------- operations

  datatype Scheduler = Scheduler(table: seq<Entry>, current: uint8, last: uint32, log: seq<Invocation>)

  /** The first slot holding `token`, or the table size. */
  function SlotOf(table: seq<Entry>, token: uint8, i: nat): (k: nat)
    requires i <= |table|
    ensures i <= k <= |table|
    ensures k < |table| ==> table[k].token == token
    ensures forall j | i <= j < k :: table[j].token != token
    decreases |table| - i
  {
    if i == |table| || table[i].token == token then i else SlotOf(table, token, i + 1)
  }

  function Defer(s: Scheduler, now: uint32, delay: uint32, callback: nat, arg: nat): (Scheduler, uint8) {
    if |s.table| == 0 || delay == 0 || callback == NULL then (s, INVALID_TOKEN)
    else
      var k := SlotOf(s.table, INVALID_TOKEN, 0);
      if k == |s.table| then (s, INVALID_TOKEN)
      else
        var token := FindToken(s.table, s.current, 1);
        if token == INVALID_TOKEN then (s.(current := Advance(s.current, 1)), INVALID_TOKEN)
        else (s.(table := s.table[k := Entry(token, Wrap32(now + delay), callback, arg)], current := token), token)
  }

  function Extend(s: Scheduler, now: uint32, token: uint8, delay: uint32): (Scheduler, bool) {
    if |s.table| == 0 || delay == 0 || token == INVALID_TOKEN then (s, false)
    else
      var k := SlotOf(s.table, token, 0);
      if k == |s.table| then (s, false)
      else (s.(table := s.table[k := s.table[k].(triggerTime := Wrap32(now + delay))]), true)
  }

  function Cancel(s: Scheduler, token: uint8): (Scheduler, bool) {
    if |s.table| == 0 || token == INVALID_TOKEN then (s, false)
    else
      var k := SlotOf(s.table, token, 0);
      if k == |s.table| then (s, false) else (s.(table := s.table[k := FREE]), true)
  }

  predicate IsDue(e: Entry, now: uint32) {
    e.token != INVALID_TOKEN && SignedDiff(e.triggerTime, now) <= 0
  }

  /** What a due entry becomes when its callback returned `delay`. */
  function Requeued(e: Entry, delay: uint32): Entry {
    if delay > 0 then e.(triggerTime := Wrap32(e.triggerTime + delay)) else FREE
  }

  function Invoke(e: Entry, log: seq<Invocation>, cb: Callbacks): Invocation {
    Invocation(e.token, e.callback, e.arg, e.triggerTime, cb(log, e.callback, e.arg, e.triggerTime))
  }

  /** The slots from `i` on, in one pass. */
  function Pass(table: seq<Entry>, i: nat, now: uint32, log: seq<Invocation>, cb: Callbacks)
    : (r: (seq<Entry>, seq<Invocation>))
    requires i <= |table|
    ensures |r.0| == |table| && log <= r.1
    decreases |table| - i
  {
    if i == |table| then (table, log)
    else if IsDue(table[i], now) then
      var call := Invoke(table[i], log, cb);
      Pass(table[i := Requeued(table[i], call.delay)], i + 1, now, log + [call], cb)
    else Pass(table, i + 1, now, log, cb)
  }

  predicate TaskRuns(s: Scheduler, now: uint32) { SignedDiff(now, s.last) > 0 }

  function Task(s: Scheduler, now: uint32, cb: Callbacks): Scheduler {
    if TaskRuns(s, now) then
      var (table, log) := Pass(s.table, 0, now, s.log, cb);
      s.(table := table, last := now, log := log)
    else s
  }

  // --------------------------------------------------------- the table in place

  class Executors {
    const table: array<Entry>
    var currentToken: uint8
    var lastExecution: uint32
    var log: seq<Invocation>

    constructor (count: nat)
      ensures fresh(table) && View() == Scheduler(seq(count, i => FREE), 0, 0, [])
    {
      table := new Entry[count](_ => FREE);
      currentToken, lastExecution, log := 0, 0, [];
      new;
      assert table[..] == seq(count, i => FREE);
    }

    ghost function View(): Scheduler
      reads this, table
    {
      Scheduler(table[..], currentToken, lastExecution, log)
    }

    method TokenCanBeUsed(token: uint8) returns (usable: bool)
      ensures usable == CanBeUsed(table[..], token)
    {
      if token == INVALID_TOKEN { return false; }
      var i := 0;
      while i < table.Length
        invariant 0 <= i <= table.Length
        invariant forall j | 0 <= j < i :: table[j].token != token
      {
        if table[i].token == token {
          assert table[..][i].token == token;
          return false;
        }
        i := i + 1;
      }
      return true;
    }

    method AllocateToken() returns (token: uint8)
      modifies this`currentToken
      ensures token == FindToken(table[..], old(currentToken), 1)
      ensures currentToken == if token == INVALID_TOKEN then Advance(old(currentToken), 1) else token
    {
      ghost var start: uint8 := currentToken;
      ghost var n: nat := 1;
      AdvanceOne(start, 0);
      currentToken := (currentToken + 1) % 0x100;
      var first: uint8 := currentToken;
      var usable := TokenCanBeUsed(currentToken);
      while !usable
        invariant 1 <= n <= 256 && currentToken == Advance(start, n) && first == Advance(start, 1)
        invariant usable == CanBeUsed(table[..], currentToken)
        invariant FindToken(table[..], start, 1) == FindToken(table[..], start, n)
        decreases 256 - n
      {
        AdvanceOne(start, n);
        currentToken := (currentToken + 1) % 0x100;
        n := n + 1;
        AdvanceReturns(start, n);
        if currentToken == first { return INVALID_TOKEN; }
        usable := TokenCanBeUsed(currentToken);
      }
      return currentToken;
    }

    method DeferExec(now: uint32, delay: uint32, callback: nat, arg: nat) returns (token: uint8)
      modifies this`currentToken, table
      ensures (View(), token) == Defer(old(View()), now, delay, callback, arg)
    {
      if table.Length == 0 || delay == 0 || callback == NULL { return INVALID_TOKEN; }
      var i := 0;
      while i < table.Length
        invariant 0 <= i <= table.Length && View() == old(View())
        invariant SlotOf(table[..], INVALID_TOKEN, 0) == SlotOf(table[..], INVALID_TOKEN, i)
      {
        if table[i].token == INVALID_TOKEN {
          token := AllocateToken();
          if token == INVALID_TOKEN { return INVALID_TOKEN; }
          ghost var before := table[..];
          table[i] := Entry(currentToken, Wrap32(now + delay), callback, arg);
          assert table[..] == before[i := table[i]];
          return currentToken;
        }
        i := i + 1;
      }
      return INVALID_TOKEN;
    }

    method ExtendDeferredExec(now: uint32, token: uint8, delay: uint32) returns (ok: bool)
      modifies table
      ensures (View(), ok) == Extend(old(View()), now, token, delay)
    {
      if table.Length == 0 || delay == 0 || token == INVALID_TOKEN { return false; }
      var i := 0;
      while i < table.Length
        invariant 0 <= i <= table.Length && View() == old(View())
        invariant SlotOf(table[..], token, 0) == SlotOf(table[..], token, i)
      {
        if table[i].token == token {
          ghost var before := table[..];
          table[i] := table[i].(triggerTime := Wrap32(now + delay));
          assert table[..] == before[i := table[i]];
          return true;
        }
        i := i + 1;
      }
      return false;
    }

    method CancelDeferredExec(token: uint8) returns (ok: bool)
      modifies table
      ensures (View(), ok) == Cancel(old(View()), token)
    {
      if table.Length == 0 || token == INVALID_TOKEN { return false; }
      var i := 0;
      while i < table.Length
        invariant 0 <= i <= table.Length && View() == old(View())
        invariant SlotOf(table[..], token, 0) == SlotOf(table[..], token, i)
      {
        if table[i].token == token {
          ghost var before := table[..];
          table[i] := FREE;
          assert table[..] == before[i := FREE];
          return true;
        }
        i := i + 1;
      }
      return false;
    }

    method DeferredExecTask(now: uint32, cb: Callbacks)
      modifies this`lastExecution, this`log, table
      ensures View() == Task(old(View()), now, cb)
    {
      if SignedDiff(now, lastExecution) > 0 {
        ghost var before := View();
        lastExecution := now;
        var i := 0;
        while i < table.Length
          invariant 0 <= i <= table.Length && lastExecution == now && currentToken == before.current
          invariant Pass(before.table, 0, now, before.log, cb) == Pass(table[..], i, now, log, cb)
        {
          if table[i].token != INVALID_TOKEN && SignedDiff(table[i].triggerTime, now) <= 0 {
            ghost var entries := table[..];
            var entry := table[i];
            var delay := cb(log, entry.callback, entry.arg, entry.triggerTime);
            log := log + [Invocation(entry.token, entry.callback, entry.arg, entry.triggerTime, delay)];
            if delay > 0 {
              table[i] := entry.(triggerTime := Wrap32(entry.triggerTime + delay));
            } else {
              table[i] := FREE;
            }
            assert table[..] == entries[i := Requeued(entry, delay)];
          }
          i := i + 1;
        }
      }
    }
  }
}
