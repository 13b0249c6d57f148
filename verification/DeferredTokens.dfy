/** Tokens over whole runs: live ones are distinct, allocation fails only when every value
    is live, and a value comes back late (quantum/deferred_exec.c:16-73, 95-151). */
module DeferredTokens {
  import opened DeferredExec

  datatype Op =
    | DoDefer(now: uint32, delay: uint32, callback: nat, arg: nat)
    | DoExtend(now: uint32, token: uint8, delay: uint32)
    | DoCancel(token: uint8)
    | DoTask(now: uint32, cb: Callbacks)

  function Step(s: Scheduler, op: Op): Scheduler {
    match op
    case DoDefer(now, delay, callback, arg) => Defer(s, now, delay, callback, arg).0
    case DoExtend(now, token, delay) => Extend(s, now, token, delay).0
    case DoCancel(token) => Cancel(s, token).0
    case DoTask(now, cb) => Task(s, now, cb)
  }

  /** The token an operation hands out, if any. */
  function Issued(s: Scheduler, op: Op): uint8 {
    if op.DoDefer? then Defer(s, op.now, op.delay, op.callback, op.arg).1 else INVALID_TOKEN
  }

  function RunFrom(s: Scheduler, ops: seq<Op>): Scheduler {
    if ops == [] then s else Step(RunFrom(s, ops[..|ops| - 1]), ops[|ops| - 1])
  }

  /** How many operations of the run handed out a token. */
  function Allocations(s: Scheduler, ops: seq<Op>): nat {
    if ops == [] then 0
    else Allocations(s, ops[..|ops| - 1])
         + if Issued(RunFrom(s, ops[..|ops| - 1]), ops[|ops| - 1]) != INVALID_TOKEN then 1 else 0
  }

  function Live(table: seq<Entry>): set<uint8> {
    set i | 0 <= i < |table| && table[i].token != INVALID_TOKEN :: table[i].token
  }

  predicate Distinct(table: seq<Entry>) {
    forall i, j | 0 <= i < j < |table| :: table[i].token == table[j].token ==> table[i].token == INVALID_TOKEN
  }

  // ------------------------------------------------------------- what a pass does

  /** Slots keep their token or become free. */
  predicate OnlyFrees(before: seq<Entry>, after: seq<Entry>) {
    |before| == |after| && forall i | 0 <= i < |before| ::
      after[i].token == before[i].token || after[i].token == INVALID_TOKEN
  }

  lemma {:induction false} PassOnlyFrees(table: seq<Entry>, i: nat, now: uint32, log: seq<Invocation>, cb: Callbacks)
    requires i <= |table|
    ensures OnlyFrees(table, Pass(table, i, now, log, cb).0)
    decreases |table| - i
  {
    if i < |table| {
      if IsDue(table[i], now) {
        var call := Invoke(table[i], log, cb);
        PassOnlyFrees(table[i := Requeued(table[i], call.delay)], i + 1, now, log + [call], cb);
      } else {
        PassOnlyFrees(table, i + 1, now, log, cb);
      }
    }
  }

  lemma {:induction false} FreeingKeepsDistinct(before: seq<Entry>, after: seq<Entry>)
    requires OnlyFrees(before, after) && Distinct(before)
    ensures Distinct(after) && Live(after) <= Live(before)
  {
  }

  /** Every operation either frees tokens, or hands one out that was not live. */
  lemma {:induction false} StepFreesOrIssues(s: Scheduler, op: Op)
    requires Distinct(s.table)
    ensures var s', t := Step(s, op), Issued(s, op);
      && |s'.table| == |s.table| && Distinct(s'.table)
      && (t == INVALID_TOKEN ==> Live(s'.table) <= Live(s.table))
      && (t != INVALID_TOKEN ==>
            && t !in Live(s.table) && t == FindToken(s.table, s.current, 1) && s'.current == t
            && Live(s'.table) == Live(s.table) + {t})
  {
    var s' := Step(s, op);
    match op {
      case DoDefer(now, delay, callback, arg) =>
        var k, t := SlotOf(s.table, INVALID_TOKEN, 0), Issued(s, op);
        if t != INVALID_TOKEN {
          assert s'.table[k].token == t;
          assert Live(s'.table) == Live(s.table) + {t} by {
            forall i | 0 <= i < |s.table| && s.table[i].token != INVALID_TOKEN
              ensures s.table[i].token in Live(s'.table) {
              assert s'.table[i] == s.table[i];
            }
          }
        }
      case DoExtend(now, token, delay) => FreeingKeepsDistinct(s.table, s'.table);
      case DoCancel(token) => FreeingKeepsDistinct(s.table, s'.table);
      case DoTask(now, cb) =>
        PassOnlyFrees(s.table, 0, now, s.log, cb);
        FreeingKeepsDistinct(s.table, s'.table);
    }
  }

  /** In every reachable state the live tokens are non-zero and pairwise distinct. */
  lemma {:induction false} LiveTokensAreDistinct(count: nat, ops: seq<Op>)
    ensures var s := RunFrom(Scheduler(seq(count, i => FREE), 0, 0, []), ops);
      |s.table| == count && Distinct(s.table) && INVALID_TOKEN !in Live(s.table)
  {
    if ops != [] {
      LiveTokensAreDistinct(count, ops[..|ops| - 1]);
      StepFreesOrIssues(RunFrom(Scheduler(seq(count, i => FREE), 0, 0, []), ops[..|ops| - 1]), ops[|ops| - 1]);
    }
  }

  // ---------------------------------------------------------- when it can fail

  lemma {:induction false} UsableIsNotLive(table: seq<Entry>, t: uint8)
    ensures CanBeUsed(table, t) <==> t != INVALID_TOKEN && t !in Live(table)
  {
  }

  /** The search returns the first usable value it meets. */
  lemma {:induction false} FindsFirst(table: seq<Entry>, token: uint8, n: nat) returns (d: nat)
    requires n <= 257
    ensures n <= d <= 257
    ensures forall m | n <= m < d :: !CanBeUsed(table, Advance(token, m))
    ensures FindToken(table, token, n) == if d == 257 then INVALID_TOKEN else Advance(token, d)
    ensures d < 257 ==> CanBeUsed(table, Advance(token, d))
    decreases 257 - n
  {
    if n == 257 || CanBeUsed(table, Advance(token, n)) {
      d := n;
    } else {
      d := FindsFirst(table, token, n + 1);
    }
  }

  lemma {:induction false} StepsTo(token: uint8, t: uint8) returns (m: nat)
    ensures 1 <= m <= 256 && Advance(token, m) == t
  {
    m := if t > token then t - token else t - token + 256;
  }

  /** Allocation fails exactly when all 255 values are live. */
  lemma {:induction false} FailsOnlyWhenAllLive(table: seq<Entry>, token: uint8)
    ensures FindToken(table, token, 1) == INVALID_TOKEN <==> forall t: uint8 | t != INVALID_TOKEN :: t in Live(table)
  {
    var d := FindsFirst(table, token, 1);
    if d == 257 {
      forall t: uint8 | t != INVALID_TOKEN ensures t in Live(table) {
        var m := StepsTo(token, t);
        UsableIsNotLive(table, t);
      }
    } else {
      UsableIsNotLive(table, Advance(token, d));
    }
  }

  lemma {:induction false} LiveIsSmall(table: seq<Entry>)
    ensures |Live(table)| <= |table|
  {
    if table != [] {
      var rest, last := table[..|table| - 1], table[|table| - 1];
      LiveIsSmall(rest);
      assert Live(table) <= Live(rest) + {last.token} by {
        forall t | t in Live(table) ensures t in Live(rest) + {last.token} {
          var i :| 0 <= i < |table| && table[i].token == t;
          if i < |rest| { assert rest[i].token == t && t in Live(rest); }
        }
      }
      SubsetIsSmaller(Live(table), Live(rest) + {last.token});
    }
  }

  lemma {:induction false} SubsetIsSmaller<T>(a: set<T>, b: set<T>)
    requires a <= b
    ensures |a| <= |b|
  {
    assert b == a + (b - a);
  }

  // ------------------------------------------------------- how soon a value returns

  predicate IsBelow(v: uint8, n: nat) { v < n }

  function Below(n: nat): set<uint8> { set v: uint8 | IsBelow(v, n) }

  lemma {:induction false} BelowHas(n: nat)
    requires n <= 256
    ensures |Below(n)| == n
  {
    if n == 0 {
      assert Below(0) == {};
    } else {
      BelowHas(n - 1);
      var m: uint8 := n - 1;
      assert IsBelow(m, n) && !IsBelow(m, n - 1);
      assert forall v: uint8 | v != m :: IsBelow(v, n) <==> IsBelow(v, n - 1);
      assert Below(n) == Below(n - 1) + {m};
    }
  }

  predicate IsOther(t: uint8, v: uint8) { v != INVALID_TOKEN && v != t }

  /** The values 1 to 255 without `t`. */
  function Others(t: uint8): set<uint8> { set v: uint8 | IsOther(t, v) }

  lemma {:induction false} OthersAre254(t: uint8)
    requires t != INVALID_TOKEN
    ensures |Others(t)| == 254
  {
    BelowHas(256);
    assert forall v: uint8 :: IsBelow(v, 256) && (IsOther(t, v) || v == t || v == INVALID_TOKEN);
    assert Below(256) == Others(t) + {INVALID_TOKEN, t};
  }

  /** How many steps of the counter lead from `t` to `v`. */
  function StepsFrom(t: uint8, v: uint8): nat { (v - t) % 0x100 }

  /** The counter has not come back to `t` yet: what lies behind it was handed out since or
      was live then, and what is live ahead of it was live then. */
  ghost predicate SameLap(s: Scheduler, t: uint8, liveThen: set<uint8>, issued: set<uint8>) {
    && (forall v: uint8 | v in Others(t) && StepsFrom(t, v) <= StepsFrom(t, s.current) :: v in issued + liveThen)
    && (forall v | v in Live(s.table) && StepsFrom(t, v) > StepsFrom(t, s.current) :: v in liveThen)
  }

  lemma {:induction false} StepsAdd(t: uint8, current: uint8, m: nat)
    requires StepsFrom(t, current) + m < 256
    ensures StepsFrom(t, Advance(current, m)) == StepsFrom(t, current) + m
  {
  }

  lemma {:induction false} Between(t: uint8, current: uint8, v: uint8) returns (m: nat)
    requires StepsFrom(t, v) > StepsFrom(t, current)
    ensures 1 <= m < 256 - StepsFrom(t, current) && Advance(current, m) == v
    ensures StepsFrom(t, v) == StepsFrom(t, current) + m
  {
    m := StepsFrom(t, v) - StepsFrom(t, current);
  }

  /** Everything has been handed out or was live: that many allocations there were. */
  lemma {:induction false} LapIsLong(t: uint8, liveThen: set<uint8>, issued: set<uint8>, n: nat, k: nat)
    requires t != INVALID_TOKEN && t in liveThen && |liveThen| <= k && |issued| <= n
    requires Others(t) <= issued + liveThen
    ensures n >= 255 - k
  {
    OthersAre254(t);
    SubsetIsSmaller(Others(t), issued + (liveThen - {t}));
    assert |issued + (liveThen - {t})| <= |issued| + |liveThen - {t}|;
  }

  /** The counter moves on to `next`, `d` steps ahead, past unusable values only. */
  lemma {:induction false} LapStep(s: Scheduler, s': Scheduler, t: uint8, liveThen: set<uint8>, issued: set<uint8>,
                                   d: nat)
    requires SameLap(s, t, liveThen, issued) && t != INVALID_TOKEN && t in liveThen
    requires 1 <= d <= 256 && forall m | 1 <= m < d :: !CanBeUsed(s.table, Advance(s.current, m))
    requires s'.current == Advance(s.current, d) && Live(s'.table) == Live(s.table) + {s'.current}
    ensures StepsFrom(t, s.current) + d < 256 ==> SameLap(s', t, liveThen, issued + {s'.current})
    ensures StepsFrom(t, s.current) + d >= 256 ==> Others(t) <= issued + liveThen
  {
    var p := StepsFrom(t, s.current);
    if p + d < 256 {
      StepsAdd(t, s.current, d);
      forall v: uint8 | v in Others(t) && StepsFrom(t, v) <= p + d ensures v in issued + {s'.current} + liveThen {
        if StepsFrom(t, v) > p {
          var m := Between(t, s.current, v);
          UsableIsNotLive(s.table, v);
        }
      }
    } else {
      forall v: uint8 | v in Others(t) ensures v in issued + liveThen {
        if StepsFrom(t, v) > p {
          var m := Between(t, s.current, v);
          UsableIsNotLive(s.table, v);
        }
      }
    }
  }

  /** With room among the 255 values, the counter moves only when a token is handed out. */
  lemma {:induction false} CounterStands(s: Scheduler, op: Op)
    requires Issued(s, op) == INVALID_TOKEN && |s.table| < 255
    ensures Step(s, op).current == s.current
  {
    if op.DoDefer? {
      FailsOnlyWhenAllLive(s.table, s.current);
      LiveIsSmall(s.table);
      if forall t: uint8 | t != INVALID_TOKEN :: t in Live(s.table) {
        OthersAre254(1);
        SubsetIsSmaller(Others(1) + {1}, Live(s.table));
      }
    }
  }

  /** Over any run after `t` was handed out: either the counter is still in the same lap, or
      there were at least 255 - k allocations. */
  lemma {:induction false} LapOrLong(s: Scheduler, ops: seq<Op>, t: uint8) returns (issued: set<uint8>)
    requires Distinct(s.table) && t in Live(s.table) && s.current == t && |s.table| < 255
    ensures var s' := RunFrom(s, ops);
      && |s'.table| == |s.table| && Distinct(s'.table) && |issued| <= Allocations(s, ops)
      && (SameLap(s', t, Live(s.table), issued) || Allocations(s, ops) >= 255 - |s.table|)
  {
    if ops == [] {
      issued := {};
    } else {
      var earlier, op := ops[..|ops| - 1], ops[|ops| - 1];
      var before, after := RunFrom(s, earlier), RunFrom(s, ops);
      issued := LapOrLong(s, earlier, t);
      StepFreesOrIssues(before, op);
      if Issued(before, op) == INVALID_TOKEN {
        CounterStands(before, op);
      } else if SameLap(before, t, Live(s.table), issued) {
        issued := LapGoesOn(s, before, op, t, issued, Allocations(s, earlier));
      }
    }
  }

  /** One more allocation in the lap: the lap goes on, or it has been long. */
  lemma {:induction false} LapGoesOn(s: Scheduler, before: Scheduler, op: Op, t: uint8, issued: set<uint8>, n: nat)
    returns (issued': set<uint8>)
    requires Distinct(s.table) && t in Live(s.table) && |s.table| < 255 && |issued| <= n
    requires Distinct(before.table) && |before.table| == |s.table| && Issued(before, op) != INVALID_TOKEN
    requires SameLap(before, t, Live(s.table), issued)
    ensures |issued'| <= n + 1 && (SameLap(Step(before, op), t, Live(s.table), issued') || n + 1 >= 255 - |s.table|)
  {
    StepFreesOrIssues(before, op);
    var after := Step(before, op);
    var d := FindsFirst(before.table, before.current, 1);
    LapStep(before, after, t, Live(s.table), issued, d);
    issued' := issued;
    if StepsFrom(t, before.current) + d >= 256 {
      LiveIsSmall(s.table);
      LapIsLong(t, Live(s.table), issued, n, |s.table|);
    } else {
      issued' := issued + {after.current};
    }
  }

  /** In one table of `k` slots a token value is handed out again only after at least
      255 - k other allocations. */
  lemma {:induction false} TokensComeBackLate(s: Scheduler, ops: seq<Op>, op: Op, t: uint8)
    requires Distinct(s.table) && t in Live(s.table) && s.current == t
    requires t != INVALID_TOKEN && Issued(RunFrom(s, ops), op) == t
    ensures Allocations(s, ops) >= 255 - |s.table|
  {
    if |s.table| < 255 {
      var issued := LapOrLong(s, ops, t);
      var before := RunFrom(s, ops);
      if SameLap(before, t, Live(s.table), issued) {
        StepFreesOrIssues(before, op);
        var d := FindsFirst(before.table, before.current, 1);
        assert Advance(before.current, d) == t;
        if StepsFrom(t, before.current) + d < 256 { StepsAdd(t, before.current, d); }
        LapStep(before, Step(before, op), t, Live(s.table), issued, d);
        LiveIsSmall(s.table);
        LapIsLong(t, Live(s.table), issued, Allocations(s, ops), |s.table|);
      }
    }
  }

  /** The state right after a token is handed out is one the bound speaks about. */
  lemma {:induction false} HandedOutIsCurrent(s: Scheduler, op: Op)
    requires Distinct(s.table) && Issued(s, op) != INVALID_TOKEN
    ensures var s' := Step(s, op);
      Distinct(s'.table) && Issued(s, op) in Live(s'.table) && s'.current == Issued(s, op)
  {
    StepFreesOrIssues(s, op);
  }

  // ------------------------------------------------------------ what an operation does

  /** A value that cannot be handed out. */
  ghost predicate IsTaken(table: seq<Entry>, t: int) { t == 0 || exists i :: 0 <= i < |table| && table[i].token == t }

  function TokenAfter(current: uint8, m: nat): int { (current + m) % 0x100 }

  lemma {:induction false} TakenExactlyWhen(table: seq<Entry>, t: uint8)
    ensures CanBeUsed(table, t) <==> !IsTaken(table, t)
  {
  }

  /** The token found is the first value after the counter that is not taken, if there is one. */
  lemma {:induction false} TokenExactlyWhen(table: seq<Entry>, current: uint8) returns (d: nat)
    ensures var t := FindToken(table, current, 1);
      && (t != 0 <==> exists v: uint8 :: !IsTaken(table, v))
      && (t != 0 ==>
            && 1 <= d <= 256 && t == TokenAfter(current, d) && !IsTaken(table, t)
            && forall m: nat | 1 <= m < d :: IsTaken(table, TokenAfter(current, m)))
  {
    d := FindsFirst(table, current, 1);
    forall v: uint8 ensures CanBeUsed(table, v) <==> !IsTaken(table, v) { TakenExactlyWhen(table, v); }
    forall m: nat | 1 <= m < d ensures IsTaken(table, TokenAfter(current, m)) {
      assert !CanBeUsed(table, Advance(current, m));
    }
    if d == 257 {
      forall v: uint8 ensures IsTaken(table, v) {
        var m := StepsTo(current, v);
        assert !CanBeUsed(table, Advance(current, m));
      }
    }
  }

  ghost predicate HasFreeSlot(table: seq<Entry>) { exists i :: 0 <= i < |table| && table[i].token == 0 }

  /** Deferring hands out a token if and only if there is a delay, a callback, a free slot and a value that is
      not taken; the first free slot gets the token, the deadline on the wrapped clock and the callback, and
      no other slot changes. */
  lemma {:induction false} DeferExactlyWhen(s: Scheduler, now: uint32, delay: uint32, callback: nat, arg: nat)
    returns (k: nat)
    ensures var (s', t) := Defer(s, now, delay, callback, arg);
      && (t != 0 <==> delay > 0 && callback != 0 && HasFreeSlot(s.table) && exists v: uint8 :: !IsTaken(s.table, v))
      && s'.last == s.last && s'.log == s.log
      && (t == 0 ==>
            && s'.table == s.table
            && s'.current == if delay > 0 && callback != 0 && HasFreeSlot(s.table) then TokenAfter(s.current, 1)
                             else s.current)
      && (t != 0 ==>
            && k < |s.table| && s.table[k].token == 0 && (forall j | 0 <= j < k :: s.table[j].token != 0)
            && s'.table == s.table[k := Entry(t, (now + delay) % 0x1_0000_0000, callback, arg)]
            && s'.current == t && t == FindToken(s.table, s.current, 1))
  {
    k := SlotOf(s.table, INVALID_TOKEN, 0);
    var d := TokenExactlyWhen(s.table, s.current);
  }

  /** Extending succeeds if and only if the token is live and there is a delay; it sets the deadline of the
      token's slot anew, and changes nothing else. */
  lemma {:induction false} ExtendExactlyWhen(s: Scheduler, now: uint32, token: uint8, delay: uint32)
    requires Distinct(s.table)
    ensures var (s', ok) := Extend(s, now, token, delay);
      && (ok <==> token in Live(s.table) && delay > 0)
      && s' == s.(table := s'.table) && |s'.table| == |s.table|
      && forall i | 0 <= i < |s.table| ::
           s'.table[i] == if ok && s.table[i].token == token
                          then s.table[i].(triggerTime := (now + delay) % 0x1_0000_0000) else s.table[i]
  {
    var k := SlotOf(s.table, token, 0);
  }

  /** Cancelling succeeds if and only if the token is live; it frees the token's slot, and changes nothing else. */
  lemma {:induction false} CancelExactlyWhen(s: Scheduler, token: uint8)
    requires Distinct(s.table)
    ensures var (s', ok) := Cancel(s, token);
      && (ok <==> token in Live(s.table))
      && s' == s.(table := s'.table) && |s'.table| == |s.table|
      && forall i | 0 <= i < |s.table| ::
           s'.table[i] == if ok && s.table[i].token == token then Entry(0, 0, 0, 0) else s.table[i]
  {
    var k := SlotOf(s.table, token, 0);
  }
}
