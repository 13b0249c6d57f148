/** How late a callback can be: polled at most `g` milliseconds apart, and with callbacks that ask
    for no delay shorter than that, at most `g` (quantum/deferred_exec.c:118-151). */
module DeferredPunctual {
  import opened DeferredExec
  import opened DeferredTokens
  import opened DeferredClock
  import opened DeferredDrift

  /** The true time of the last poll, or of the start. */
  function LastPoll(xs: seq<TimedOp>): nat {
    if xs == [] then 0
    else if xs[|xs| - 1].op.DoTask? then xs[|xs| - 1].t
    else LastPoll(xs[..|xs| - 1])
  }

  /** Every poll comes at most `g` after the one before. */
  predicate PolledEvery(xs: seq<TimedOp>, g: nat) {
    forall i | 0 <= i < |xs| && xs[i].op.DoTask? :: xs[i].t <= LastPoll(xs[..i]) + g
  }

  /** Callbacks end, or ask for a delay of at least `g`. */
  predicate Spaced(log: seq<Invocation>, g: nat) {
    forall j | 0 <= j < |log| :: log[j].delay == 0 || g <= log[j].delay
  }

  function StartOf(count: nat): Scheduler { Scheduler(seq(count, i => FREE), 0, 0, []) }

  function LastTime(xs: seq<TimedOp>): nat { if xs == [] then 0 else xs[|xs| - 1].t }

  /** What holds of a run holds of it without its last operation. */
  lemma {:induction false} WithoutLast(xs: seq<TimedOp>, g: nat)
    requires xs != [] && WellTimed(xs) && PolledEvery(xs, g)
    ensures var earlier, x := xs[..|xs| - 1], xs[|xs| - 1];
      && WellTimed(earlier) && PolledEvery(earlier, g) && LastTime(earlier) <= x.t
      && (x.op.DoTask? ==> x.t <= LastPoll(earlier) + g)
  {
    var earlier := xs[..|xs| - 1];
    forall i | 0 <= i && i + 1 < |earlier| ensures earlier[i].t <= earlier[i + 1].t {
      assert xs[i].t <= xs[i + 1].t;
    }
    forall i | 0 <= i < |earlier| && earlier[i].op.DoTask? ensures earlier[i].t <= LastPoll(earlier[..i]) + g {
      assert earlier[..i] == xs[..i] && xs[i].op.DoTask?;
    }
    if earlier != [] { assert xs[|earlier| - 1].t <= xs[|earlier| - 1 + 1].t; }
  }

  lemma {:induction false} StepSetsLast(s: Scheduler, x: TimedOp, last: nat, g: nat)
    requires s.last == Wrap32(last) && ReadsClock(x) && g < HALF
    requires last <= x.t && (x.op.DoTask? ==> x.t <= last + g)
    ensures Step(s, x.op).last == Wrap32(if x.op.DoTask? then x.t else last)
  {
    if x.op.DoTask? { PollRunsAPass(s, last, x.t); }
  }

  /** The wrapped time that deferred_exec_task remembers is that of the last poll. */
  lemma {:induction false} RemembersLastPoll(count: nat, xs: seq<TimedOp>, g: nat)
    requires WellTimed(xs) && PolledEvery(xs, g) && g < HALF
    ensures RunTimed(StartOf(count), xs).last == Wrap32(LastPoll(xs)) && LastPoll(xs) <= LastTime(xs)
  {
    if xs != [] {
      var earlier, x := xs[..|xs| - 1], xs[|xs| - 1];
      WithoutLast(xs, g);
      RemembersLastPoll(count, earlier, g);
      StepSetsLast(RunTimed(StartOf(count), earlier), x, LastPoll(earlier), g);
    }
  }

  /** On the true clock: a poll at `t` does nothing in the millisecond of the one before, and later it
      calls exactly what is due, unless a slot lags by half the clock's range. */
  lemma {:induction false} PollCallsUnlessLagging(count: nat, xs: seq<TimedOp>, g: nat, t: nat, cb: Callbacks)
    requires WellTimed(xs) && PolledEvery(xs, g) && g < HALF && LastTime(xs) <= t <= LastPoll(xs) + g
    requires ShortLog(RunTimed(StartOf(count), xs).log)
    ensures var s, tracks := RunTimed(StartOf(count), xs), FollowRun(StartOf(count), xs).tracks;
      && (forall k | 0 <= k < |s.table| && s.table[k].token != INVALID_TOKEN :: Within(tracks[k].calls, |s.log|))
      && (t == LastPoll(xs) ==> Task(s, Wrap32(t), cb) == s)
      && (t > LastPoll(xs) && NoneLags(s.table, s.log, tracks, t) ==>
            TokensOf(Task(s, Wrap32(t), cb).log) == TokensOf(s.log) + TrulyDue(s.table, s.log, tracks, 0, t))
  {
    RemembersLastPoll(count, xs, g);
    PollRunsAPass(RunTimed(StartOf(count), xs), LastPoll(xs), t);
    PassCallsWhatIsDue(count, xs, t, cb);
  }

  // -------------------------------------------------------------------- how late a slot is

  /** No live slot was due before `p`; those before the `i`-th not before `t`. */
  predicate Pending(table: seq<Entry>, log: seq<Invocation>, tracks: seq<Track>, i: nat, p: nat, t: nat) {
    |tracks| == |table| && forall k | 0 <= k < |table| && table[k].token != INVALID_TOKEN ::
      Within(tracks[k].calls, |log|) && Deadline(log, tracks[k]) >= if k < i then t else p
  }

  /** The `j`-th call was made at most `g` after its true deadline. */
  predicate IsPunctual(log: seq<Invocation>, j: nat, due: Due, g: nat)
    requires j < |log|
  {
    Within(due.track.calls, j) && due.at <= Deadline(log[..j], due.track) + g
  }

  predicate AllPunctual(log: seq<Invocation>, dues: seq<Due>, g: nat) {
    |dues| == |log| && forall j | 0 <= j < |log| :: IsPunctual(log, j, dues[j], g)
  }

  lemma {:induction false} OneMorePunctual(log: seq<Invocation>, dues: seq<Due>, g: nat, call: Invocation, due: Due)
    requires AllPunctual(log, dues, g)
    requires Within(due.track.calls, |log|) && due.at <= Deadline(log, due.track) + g
    ensures AllPunctual(log + [call], dues + [due], g)
  {
    var log' := log + [call];
    assert log'[..|log|] == log;
    forall j | 0 <= j < |log| ensures IsPunctual(log', j, (dues + [due])[j], g) {
      assert log'[..j] == log[..j] && IsPunctual(log, j, dues[j], g);
    }
  }

  /** The slot that was called is due again after the pass, if at all. */
  lemma {:induction false} OneMorePending(table: seq<Entry>, log: seq<Invocation>, tracks: seq<Track>, i: nat, p: nat,
                                         t: nat, g: nat, call: Invocation)
    requires i < |table| && table[i].token != INVALID_TOKEN && Pending(table, log, tracks, i, p, t)
    requires t <= p + g && (call.delay == 0 || g <= call.delay)
    ensures var tr := tracks[i];
      Pending(table[i := Requeued(table[i], call.delay)], log + [call], tracks[i := tr.(calls := tr.calls + [|log|])],
              i + 1, p, t)
  {
    DeadlineMovesOn(log, tracks[i], call);
    forall k | 0 <= k < |table| && k != i && table[k].token != INVALID_TOKEN
      ensures Within(tracks[k].calls, |log + [call]|) && Deadline(log + [call], tracks[k]) == Deadline(log, tracks[k])
    {
      ReturnedStable(log, [call], tracks[k].calls);
    }
  }

  /** A slot that is not found due is not due. */
  lemma {:induction false} NotDuePending(table: seq<Entry>, log: seq<Invocation>, tracks: seq<Track>, i: nat, p: nat,
                                        t: nat, g: nat)
    requires i < |table| && !IsDue(table[i], Wrap32(t)) && Pending(table, log, tracks, i, p, t)
    requires SlotsTracked(table, log, tracks, t) && t <= p + g && g < HALF
    ensures Pending(table, log, tracks, i + 1, p, t)
  {
    if table[i].token != INVALID_TOKEN {
      assert Tracks(log, table[i], tracks[i], t);
      DueExactlyInWindow(table[i], Deadline(log, tracks[i]), t);
    }
  }

  lemma {:induction false} PassIsPunctual(table: seq<Entry>, i: nat, t: nat, log: seq<Invocation>, cb: Callbacks,
                                         sh: Shadow, p: nat, g: nat)
    requires i <= |table| && SlotsTracked(table, log, sh.tracks, t) && LogOnTime(log, sh.dues, t)
    requires Pending(table, log, sh.tracks, i, p, t) && AllPunctual(log, sh.dues, g) && t <= p + g && g < HALF
    requires ShortLog(Pass(table, i, Wrap32(t), log, cb).1) && Spaced(Pass(table, i, Wrap32(t), log, cb).1, g)
    ensures var (table', log') := Pass(table, i, Wrap32(t), log, cb);
      var sh' := PassShadow(table, i, t, log, cb, sh);
      Pending(table', log', sh'.tracks, |table|, t, t) && AllPunctual(log', sh'.dues, g)
    decreases |table| - i
  {
    if i < |table| {
      if IsDue(table[i], Wrap32(t)) {
        var call, tr := Invoke(table[i], log, cb), sh.tracks[i];
        var (_, log') := Pass(table[i := Requeued(table[i], call.delay)], i + 1, Wrap32(t), log + [call], cb);
        assert log + [call] <= log' && log'[|log|] == call;
        OneCall(table, i, t, log, sh, call);
        OneMorePending(table, log, sh.tracks, i, p, t, g, call);
        OneMorePunctual(log, sh.dues, g, call, Due(t, tr));
        PassIsPunctual(table[i := Requeued(table[i], call.delay)], i + 1, t, log + [call], cb,
                       Shadow(sh.tracks[i := tr.(calls := tr.calls + [|log|])], sh.dues + [Due(t, tr)]), p, g);
      } else {
        NotDuePending(table, log, sh.tracks, i, p, t, g);
        PassIsPunctual(table, i + 1, t, log, cb, sh, p, g);
      }
    }
  }

  // ------------------------------------------------------------------------ whole runs

  predicate Punctual(s: Scheduler, sh: Shadow, p: nat, g: nat) {
    Pending(s.table, s.log, sh.tracks, 0, p, p) && AllPunctual(s.log, sh.dues, g)
  }

  lemma {:induction false} TaskIsPunctual(s: Scheduler, sh: Shadow, x: TimedOp, p: nat, g: nat)
    requires Follows(s, sh, x.t) && Punctual(s, sh, p, g) && s.last == Wrap32(p) && ReadsClock(x) && x.op.DoTask?
    requires p <= x.t <= p + g && g < HALF && ShortLog(Step(s, x.op).log) && Spaced(Step(s, x.op).log, g)
    ensures Punctual(Step(s, x.op), FollowStep(s, sh, x), x.t, g)
  {
    PollRunsAPass(s, p, x.t);
    if TaskRuns(s, x.op.now) { PassIsPunctual(s.table, 0, x.t, s.log, x.op.cb, sh, p, g); }
  }

  /** A slot that is set, or freed. */
  lemma {:induction false} SetIsPunctual(s: Scheduler, sh: Shadow, x: TimedOp, p: nat, g: nat)
    requires Follows(s, sh, x.t) && Punctual(s, sh, p, g) && !x.op.DoTask? && p <= x.t
    ensures Punctual(Step(s, x.op), FollowStep(s, sh, x), p, g)
  {
    assert Returned(s.log, []) == 0;
  }

  lemma {:induction false} LogsAreShort(s: Scheduler, op: Op, g: nat)
    requires ShortLog(Step(s, op).log) && Spaced(Step(s, op).log, g)
    ensures ShortLog(s.log) && Spaced(s.log, g)
  {
    StepLogGrows(s, op);
    forall j | 0 <= j < |s.log| ensures s.log[j] == Step(s, op).log[j] {}
  }

  lemma {:induction false} RunIsPunctual(count: nat, xs: seq<TimedOp>, g: nat)
    requires WellTimed(xs) && PolledEvery(xs, g) && g < HALF
    requires ShortLog(RunTimed(StartOf(count), xs).log) && Spaced(RunTimed(StartOf(count), xs).log, g)
    ensures Punctual(RunTimed(StartOf(count), xs), FollowRun(StartOf(count), xs), LastPoll(xs), g)
  {
    if xs != [] {
      var earlier, x := xs[..|xs| - 1], xs[|xs| - 1];
      var s, sh := RunTimed(StartOf(count), earlier), FollowRun(StartOf(count), earlier);
      WithoutLast(xs, g);
      LogsAreShort(s, x.op, g);
      RunIsPunctual(count, earlier, g);
      RemembersLastPoll(count, earlier, g);
      NoDrift(count, earlier);
      LaterStillFollows(s, sh, LastTime(earlier), x.t);
      if x.op.DoTask? {
        TaskIsPunctual(s, sh, x, LastPoll(earlier), g);
      } else {
        SetIsPunctual(s, sh, x, LastPoll(earlier), g);
      }
    }
  }

  /** Over any run on the true clock that is polled at most `g` apart, `g` being less than half the
      clock's range, and whose callbacks ask for no delay shorter than `g`: every call came at or after
      its true deadline and at most `g` after it, and no live slot is later than that. */
  lemma {:induction false} EveryCallIsPunctual(count: nat, xs: seq<TimedOp>, g: nat, j: nat)
    requires WellTimed(xs) && PolledEvery(xs, g) && g < HALF
    requires ShortLog(RunTimed(StartOf(count), xs).log) && Spaced(RunTimed(StartOf(count), xs).log, g)
    requires j < |RunTimed(StartOf(count), xs).log|
    ensures var log, dues := RunTimed(StartOf(count), xs).log, FollowRun(StartOf(count), xs).dues;
      && j < |dues| && Within(dues[j].track.calls, j)
      && Deadline(log[..j], dues[j].track) <= dues[j].at <= Deadline(log[..j], dues[j].track) + g
  {
    RunIsPunctual(count, xs, g);
    NoDrift(count, xs);
    var log, dues := RunTimed(StartOf(count), xs).log, FollowRun(StartOf(count), xs).dues;
    assert IsPunctual(log, j, dues[j], g) && OnTime(log, j, dues[j]);
  }

  /** Then no slot lags, and the next poll calls exactly what is due by the true clock. */
  lemma {:induction false} PollCallsWhatIsDue(count: nat, xs: seq<TimedOp>, g: nat, t: nat, cb: Callbacks)
    requires WellTimed(xs) && PolledEvery(xs, g) && g < HALF && LastTime(xs) <= t <= LastPoll(xs) + g
    requires ShortLog(RunTimed(StartOf(count), xs).log) && Spaced(RunTimed(StartOf(count), xs).log, g)
    ensures var s, tracks := RunTimed(StartOf(count), xs), FollowRun(StartOf(count), xs).tracks;
      && (forall k | 0 <= k < |s.table| && s.table[k].token != INVALID_TOKEN ::
            Within(tracks[k].calls, |s.log|) && t <= Deadline(s.log, tracks[k]) + g)
      && (t == LastPoll(xs) ==> Task(s, Wrap32(t), cb) == s)
      && (t > LastPoll(xs) ==>
            TokensOf(Task(s, Wrap32(t), cb).log) == TokensOf(s.log) + TrulyDue(s.table, s.log, tracks, 0, t))
  {
    RunIsPunctual(count, xs, g);
    PollCallsUnlessLagging(count, xs, g, t, cb);
  }
}
