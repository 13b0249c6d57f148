/** Scheduling on the wrapped clock against an unbounded one (quantum/deferred_exec.c:75-151). */
module DeferredClock {
  import opened DeferredExec
  import opened DeferredTokens

  const HALF := 0x8000_0000

  // ------------------------------------------------------- the wrapped comparison

  /** An entry due at the true time `d` is found due at the true time `t` exactly when it
      is, as long as the two are within half the clock's range. */
  lemma {:induction false} DueExactlyInWindow(e: Entry, d: nat, t: nat)
    requires e.token != INVALID_TOKEN && e.triggerTime == Wrap32(d)
    requires d < t + HALF && t <= d + HALF
    ensures IsDue(e, Wrap32(t)) <==> d <= t
  {
    WrapOfDifference(d, t);
  }

  /** However late the entry is, it is never found due too early. */
  lemma {:induction false} NeverEarly(e: Entry, d: nat, t: nat)
    requires IsDue(e, Wrap32(t)) && e.triggerTime == Wrap32(d) && d < t + HALF
    ensures d <= t
  {
    WrapOfDifference(d, t);
  }

  lemma {:induction false} WrapOfDifference(a: nat, b: nat)
    ensures Wrap32(Wrap32(a) - Wrap32(b)) == Wrap32(a - b)
  {
    var m := 0x1_0000_0000;
    assert a - b == (Wrap32(a) - Wrap32(b)) + m * (a / m - b / m);
  }

  /** A poll less than half the clock's range after the last one runs a pass unless it is in
      the same millisecond. */
  lemma {:induction false} PollRunsAPass(s: Scheduler, last: nat, t: nat)
    requires s.last == Wrap32(last) && last <= t < last + HALF
    ensures TaskRuns(s, Wrap32(t)) <==> t > last
  {
    WrapOfDifference(t, last);
  }

  // -------------------------------------------------------------- one pass

  /** The tokens of the entries due at `now`, in slot order, from slot `i` on. */
  function DueTokens(table: seq<Entry>, i: nat, now: uint32): seq<uint8>
    requires i <= |table|
    decreases |table| - i
  {
    if i == |table| then []
    else (if IsDue(table[i], now) then [table[i].token] else []) + DueTokens(table, i + 1, now)
  }

  function TokensOf(log: seq<Invocation>): (ts: seq<uint8>)
    ensures |ts| == |log| && forall i | 0 <= i < |log| :: ts[i] == log[i].token
  {
    seq(|log|, i requires 0 <= i < |log| => log[i].token)
  }

  lemma {:induction false} DueTokensElsewhere(table: seq<Entry>, k: nat, e: Entry, i: nat, now: uint32)
    requires k < i <= |table|
    ensures DueTokens(table[k := e], i, now) == DueTokens(table, i, now)
    decreases |table| - i
  {
    if i < |table| { DueTokensElsewhere(table, k, e, i + 1, now); }
  }

  lemma {:induction false} OneMoreToken(log: seq<Invocation>, call: Invocation, rest: seq<uint8>)
    ensures TokensOf(log + [call]) + rest == TokensOf(log) + ([call.token] + rest)
  {
    assert TokensOf(log + [call]) == TokensOf(log) + [call.token];
  }

  /** A pass calls exactly the callbacks that were due when it began, in slot order. */
  lemma {:induction false} PassCallsTheDue(table: seq<Entry>, i: nat, now: uint32, log: seq<Invocation>, cb: Callbacks)
    requires i <= |table|
    ensures TokensOf(Pass(table, i, now, log, cb).1) == TokensOf(log) + DueTokens(table, i, now)
    decreases |table| - i
  {
    if i < |table| {
      if IsDue(table[i], now) {
        var call := Invoke(table[i], log, cb);
        PassCallsTheDue(table[i := Requeued(table[i], call.delay)], i + 1, now, log + [call], cb);
        DueTokensElsewhere(table, i, Requeued(table[i], call.delay), i + 1, now);
        OneMoreToken(log, call, DueTokens(table, i + 1, now));
      } else {
        PassCallsTheDue(table, i + 1, now, log, cb);
        assert [] + DueTokens(table, i + 1, now) == DueTokens(table, i + 1, now);
      }
    } else {
      assert TokensOf(log) + [] == TokensOf(log);
    }
  }

  lemma {:induction false} DueTokensAreLater(table: seq<Entry>, i: nat, now: uint32, t: uint8)
    requires i <= |table| && t in DueTokens(table, i, now)
    ensures exists k | i <= k < |table| :: table[k].token == t && IsDue(table[k], now)
    decreases |table| - i
  {
    if !(IsDue(table[i], now) && table[i].token == t) {
      DueTokensAreLater(table, i + 1, now, t);
    }
  }

  /** So no callback runs twice in a pass. */
  lemma {:induction false} AtMostOncePerPass(table: seq<Entry>, i: nat, now: uint32)
    requires i <= |table| && Distinct(table)
    ensures forall a, b | 0 <= a < b < |DueTokens(table, i, now)| ::
      DueTokens(table, i, now)[a] != DueTokens(table, i, now)[b]
    decreases |table| - i
  {
    if i < |table| {
      AtMostOncePerPass(table, i + 1, now);
      if IsDue(table[i], now) && table[i].token in DueTokens(table, i + 1, now) {
        DueTokensAreLater(table, i + 1, now, table[i].token);
      }
    }
  }

  lemma {:induction false} TaskCallsEachOnce(s: Scheduler, now: uint32, cb: Callbacks)
    requires Distinct(s.table) && TaskRuns(s, now)
    ensures var s' := Task(s, now, cb);
      && TokensOf(s'.log) == TokensOf(s.log) + DueTokens(s.table, 0, now)
      && forall a, b | |s.log| <= a < b < |s'.log| :: s'.log[a].token != s'.log[b].token
  {
    PassCallsTheDue(s.table, 0, now, s.log, cb);
    AtMostOncePerPass(s.table, 0, now);
    var s', due := Task(s, now, cb), DueTokens(s.table, 0, now);
    forall a, b | |s.log| <= a < b < |s'.log| ensures s'.log[a].token != s'.log[b].token {
      assert s'.log[a].token == TokensOf(s'.log)[a] == due[a - |s.log|];
      assert s'.log[b].token == TokensOf(s'.log)[b] == due[b - |s.log|];
    }
  }

  // ------------------------------------------------------ never after cancellation

  lemma {:induction false} LogGrows(s: Scheduler, ops: seq<Op>)
    ensures s.log <= RunFrom(s, ops).log
  {
    if ops != [] { LogGrows(s, ops[..|ops| - 1]); }
  }

  /** The new calls of one step are all of tokens that were live. */
  lemma {:induction false} StepCallsTheLive(s: Scheduler, op: Op)
    ensures forall j | |s.log| <= j < |Step(s, op).log| :: Step(s, op).log[j].token in Live(s.table)
  {
    if op.DoTask? && TaskRuns(s, op.now) {
      PassCallsTheDue(s.table, 0, op.now, s.log, op.cb);
      var s' := Step(s, op);
      forall j | |s.log| <= j < |s'.log| ensures s'.log[j].token in Live(s.table) {
        assert s'.log[j].token == TokensOf(s'.log)[j];
        DueTokensAreLater(s.table, 0, op.now, s'.log[j].token);
      }
    }
  }

  /** While a token that is not live is not handed out again, its callback never runs. */
  lemma {:induction false} NeverCalledUnlessLive(s: Scheduler, ops: seq<Op>, t: uint8)
    requires Distinct(s.table) && t !in Live(s.table) && t != INVALID_TOKEN
    requires forall i | 0 <= i < |ops| :: Issued(RunFrom(s, ops[..i]), ops[i]) != t
    ensures var s' := RunFrom(s, ops);
      && Distinct(s'.table) && t !in Live(s'.table)
      && forall j | |s.log| <= j < |s'.log| :: s'.log[j].token != t
  {
    if ops != [] {
      var earlier, op := ops[..|ops| - 1], ops[|ops| - 1];
      forall i | 0 <= i < |earlier| ensures Issued(RunFrom(s, earlier[..i]), earlier[i]) != t {
        assert earlier[..i] == ops[..i];
      }
      NeverCalledUnlessLive(s, earlier, t);
      assert Issued(RunFrom(s, ops[..|ops| - 1]), op) != t;
      StepFreesOrIssues(RunFrom(s, earlier), op);
      StepCallsTheLive(RunFrom(s, earlier), op);
      LogGrows(s, earlier);
    }
  }

  /** Cancelling succeeds exactly for live tokens, and the token is then not live. */
  lemma {:induction false} CancelKills(s: Scheduler, t: uint8)
    requires Distinct(s.table)
    ensures Cancel(s, t).1 <==> t in Live(s.table)
    ensures Live(Cancel(s, t).0.table) == Live(s.table) - {t}
  {
    var k := SlotOf(s.table, t, 0);
    if t != INVALID_TOKEN && k < |s.table| {
      var table' := s.table[k := FREE];
      forall v | v in Live(s.table) - {t} ensures v in Live(table') {
        var i :| 0 <= i < |s.table| && s.table[i].token == v;
        assert table'[i].token == v;
      }
    }
  }

  lemma {:induction false} NeverCalledAfterCancel(s: Scheduler, t: uint8, ops: seq<Op>)
    requires Distinct(s.table) && Cancel(s, t).1
    requires forall i | 0 <= i < |ops| :: Issued(RunFrom(Cancel(s, t).0, ops[..i]), ops[i]) != t
    ensures forall j | |s.log| <= j < |RunFrom(Cancel(s, t).0, ops).log| ::
      RunFrom(Cancel(s, t).0, ops).log[j].token != t
  {
    CancelKills(s, t);
    StepFreesOrIssues(s, DoCancel(t));
    assert Cancel(s, t).0.log == s.log;
    NeverCalledUnlessLive(Cancel(s, t).0, ops, t);
  }
}
