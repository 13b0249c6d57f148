/** No drift: over any run each callback is called at or after its true deadline, with its
    starting time plus all its delays so far (quantum/deferred_exec.c:62-67, 84-88, 126-148). */
module DeferredDrift {
  import opened DeferredExec
  import opened DeferredTokens
  import opened DeferredClock

  /** What a slot has been through since it was last set: when, with which delay, and which
      calls (positions in the log) came since. */
  datatype Track = Track(start: nat, first: nat, calls: seq<nat>)

  predicate CallsIn(calls: seq<nat>, log: seq<Invocation>, token: uint8) {
    forall i | 0 <= i < |calls| :: calls[i] < |log| && log[calls[i]].token == token
  }

  predicate Within(calls: seq<nat>, n: nat) { forall i | 0 <= i < |calls| :: calls[i] < n }

  /** The delays those calls returned, added up. */
  function Returned(log: seq<Invocation>, calls: seq<nat>): nat
    requires Within(calls, |log|)
  {
    if calls == [] then 0 else Returned(log, calls[..|calls| - 1]) + log[calls[|calls| - 1]].delay
  }

  /** The true deadline, on a clock that does not wrap. */
  function Deadline(log: seq<Invocation>, tr: Track): nat
    requires Within(tr.calls, |log|)
  {
    tr.start + tr.first + Returned(log, tr.calls)
  }

  /** A logged call: the true time of the pass, and what its slot had been through. */
  datatype Due = Due(at: nat, track: Track)

  datatype Shadow = Shadow(tracks: seq<Track>, dues: seq<Due>)

  // --------------------------------------------------------- following an operation

  datatype TimedOp = TimedOp(t: nat, op: Op)

  /** The operation reads the clock at its true time. */
  predicate ReadsClock(x: TimedOp) { !x.op.DoCancel? ==> x.op.now == Wrap32(x.t) }

  predicate ShortDelay(op: Op) { op.DoDefer? || op.DoExtend? ==> op.delay < HALF }

  predicate ShortLog(log: seq<Invocation>) { forall j | 0 <= j < |log| :: log[j].delay < HALF }

  function PassShadow(table: seq<Entry>, i: nat, t: nat, log: seq<Invocation>, cb: Callbacks, sh: Shadow): (sh': Shadow)
    requires i <= |table| == |sh.tracks|
    ensures |sh'.tracks| == |table|
    decreases |table| - i
  {
    if i == |table| then sh
    else if IsDue(table[i], Wrap32(t)) then
      var call := Invoke(table[i], log, cb);
      var tr := sh.tracks[i];
      PassShadow(table[i := Requeued(table[i], call.delay)], i + 1, t, log + [call], cb,
                 Shadow(sh.tracks[i := tr.(calls := tr.calls + [|log|])], sh.dues + [Due(t, tr)]))
    else PassShadow(table, i + 1, t, log, cb, sh)
  }

  function FollowStep(s: Scheduler, sh: Shadow, x: TimedOp): (sh': Shadow)
    requires |sh.tracks| == |s.table|
    ensures |sh'.tracks| == |s.table|
  {
    match x.op
    case DoDefer(_, delay, _, _) =>
      if Issued(s, x.op) == INVALID_TOKEN then sh
      else sh.(tracks := sh.tracks[SlotOf(s.table, INVALID_TOKEN, 0) := Track(x.t, delay, [])])
    case DoExtend(now, token, delay) =>
      if Extend(s, now, token, delay).1
        then sh.(tracks := sh.tracks[SlotOf(s.table, token, 0) := Track(x.t, delay, [])]) else sh
    case DoCancel(_) => sh
    case DoTask(now, cb) =>
      if TaskRuns(s, now) then PassShadow(s.table, 0, x.t, s.log, cb, sh) else sh
  }

  // ------------------------------------------------------------------ the invariant

  /** A live slot's wrapped deadline is its true one, which is less than half a range ahead. */
  predicate Tracks(log: seq<Invocation>, e: Entry, tr: Track, t: nat) {
    && CallsIn(tr.calls, log, e.token) && Within(tr.calls, |log|)
    && e.triggerTime == Wrap32(Deadline(log, tr))
    && Deadline(log, tr) < t + HALF
  }

  /** A logged call was given its true deadline, wrapped, and not before that deadline. */
  predicate OnTime(log: seq<Invocation>, j: nat, due: Due)
    requires j < |log|
  {
    && CallsIn(due.track.calls, log[..j], log[j].token) && Within(due.track.calls, j)
    && log[j].triggerTime == Wrap32(Deadline(log[..j], due.track))
    && Deadline(log[..j], due.track) <= due.at
  }

  predicate SlotsTracked(table: seq<Entry>, log: seq<Invocation>, tracks: seq<Track>, t: nat) {
    |tracks| == |table| && forall i | 0 <= i < |table| && table[i].token != INVALID_TOKEN ::
      Tracks(log, table[i], tracks[i], t)
  }

  predicate LogOnTime(log: seq<Invocation>, dues: seq<Due>, t: nat) {
    |dues| == |log| && forall j | 0 <= j < |log| :: OnTime(log, j, dues[j]) && dues[j].at <= t
  }

  predicate Follows(s: Scheduler, sh: Shadow, t: nat) {
    SlotsTracked(s.table, s.log, sh.tracks, t) && LogOnTime(s.log, sh.dues, t)
  }

  lemma {:induction false} ReturnedStable(log: seq<Invocation>, more: seq<Invocation>, calls: seq<nat>)
    requires Within(calls, |log|)
    ensures Returned(log + more, calls) == Returned(log, calls)
  {
    if calls != [] { ReturnedStable(log, more, calls[..|calls| - 1]); }
  }

  lemma {:induction false} ReturnedPush(log: seq<Invocation>, calls: seq<nat>, c: nat)
    requires Within(calls, |log|) && c < |log|
    ensures Within(calls + [c], |log|) && Returned(log, calls + [c]) == Returned(log, calls) + log[c].delay
  {
    assert (calls + [c])[..|calls|] == calls;
  }

  lemma {:induction false} TracksStable(log: seq<Invocation>, call: Invocation, e: Entry, tr: Track, t: nat)
    requires Tracks(log, e, tr, t)
    ensures Tracks(log + [call], e, tr, t)
  {
    ReturnedStable(log, [call], tr.calls);
  }

  lemma {:induction false} OnTimeStable(log: seq<Invocation>, call: Invocation, j: nat, due: Due)
    requires j < |log| && OnTime(log, j, due)
    ensures OnTime(log + [call], j, due)
  {
    assert (log + [call])[..j] == log[..j];
  }

  lemma {:induction false} WrapAdd(a: nat, b: nat)
    ensures Wrap32(Wrap32(a) + b) == Wrap32(a + b)
  {
    var m := 0x1_0000_0000;
    assert a + b == (Wrap32(a) + b) + m * (a / m);
  }

  /** One more call of the slot, which moves its true deadline on by the delay returned. */
  lemma {:induction false} DeadlineMovesOn(log: seq<Invocation>, tr: Track, call: Invocation)
    requires Within(tr.calls, |log|)
    ensures var tr' := tr.(calls := tr.calls + [|log|]);
      Within(tr'.calls, |log + [call]|) && Deadline(log + [call], tr') == Deadline(log, tr) + call.delay
  {
    ReturnedStable(log, [call], tr.calls);
    ReturnedPush(log + [call], tr.calls, |log|);
  }

  lemma {:induction false} CallsInPush(calls: seq<nat>, log: seq<Invocation>, call: Invocation)
    requires CallsIn(calls, log, call.token)
    ensures CallsIn(calls + [|log|], log + [call], call.token)
  {
  }

  /** The slot that was called, put back for its next delay. */
  lemma {:induction false} CalledSlotTracks(log: seq<Invocation>, e: Entry, tr: Track, t: nat, call: Invocation)
    requires Tracks(log, e, tr, t) && IsDue(e, Wrap32(t)) && call.token == e.token && 0 < call.delay < HALF
    ensures Tracks(log + [call], Requeued(e, call.delay), tr.(calls := tr.calls + [|log|]), t)
  {
    NeverEarly(e, Deadline(log, tr), t);
    DeadlineMovesOn(log, tr, call);
    CallsInPush(tr.calls, log, call);
    WrapAdd(Deadline(log, tr), call.delay);
  }

  /** The table after the call of slot `i`. */
  lemma {:induction false} CalledTableTracks(table: seq<Entry>, i: nat, t: nat, log: seq<Invocation>,
                                             tracks: seq<Track>,
                                             call: Invocation)
    requires i < |table| && IsDue(table[i], Wrap32(t)) && SlotsTracked(table, log, tracks, t)
    requires call.token == table[i].token && call.delay < HALF
    ensures SlotsTracked(table[i := Requeued(table[i], call.delay)], log + [call],
                         tracks[i := tracks[i].(calls := tracks[i].calls + [|log|])], t)
  {
    var table' := table[i := Requeued(table[i], call.delay)];
    var tracks' := tracks[i := tracks[i].(calls := tracks[i].calls + [|log|])];
    forall k | 0 <= k < |table'| && table'[k].token != INVALID_TOKEN
      ensures Tracks(log + [call], table'[k], tracks'[k], t) {
      if k != i {
        TracksStable(log, call, table[k], tracks[k], t);
      } else {
        CalledSlotTracks(log, table[i], tracks[i], t, call);
      }
    }
  }

  /** The log after the call of an entry that was due. */
  lemma {:induction false} CalledOnTime(e: Entry, tr: Track, t: nat, log: seq<Invocation>, dues: seq<Due>,
                                        call: Invocation)
    requires Tracks(log, e, tr, t) && IsDue(e, Wrap32(t)) && LogOnTime(log, dues, t)
    requires call.token == e.token && call.triggerTime == e.triggerTime
    ensures LogOnTime(log + [call], dues + [Due(t, tr)], t)
  {
    NeverEarly(e, Deadline(log, tr), t);
    forall j | 0 <= j < |log + [call]| ensures OnTime(log + [call], j, (dues + [Due(t, tr)])[j]) {
      if j < |log| { OnTimeStable(log, call, j, dues[j]); } else { assert (log + [call])[..j] == log; }
    }
  }

  lemma {:induction false} OneCall(table: seq<Entry>, i: nat, t: nat, log: seq<Invocation>, sh: Shadow,
                                   call: Invocation)
    requires i < |table| && IsDue(table[i], Wrap32(t))
    requires SlotsTracked(table, log, sh.tracks, t) && LogOnTime(log, sh.dues, t)
    requires call.token == table[i].token && call.triggerTime == table[i].triggerTime && call.delay < HALF
    ensures var tr := sh.tracks[i];
      && SlotsTracked(table[i := Requeued(table[i], call.delay)], log + [call],
        sh.tracks[i := tr.(calls := tr.calls + [|log|])], t)
      && LogOnTime(log + [call], sh.dues + [Due(t, tr)], t)
  {
    assert Tracks(log, table[i], sh.tracks[i], t);
    CalledTableTracks(table, i, t, log, sh.tracks, call);
    CalledOnTime(table[i], sh.tracks[i], t, log, sh.dues, call);
  }

  lemma {:induction false} PassFollows(table: seq<Entry>, i: nat, t: nat, log: seq<Invocation>, cb: Callbacks,
                                       sh: Shadow)
    requires i <= |table| && SlotsTracked(table, log, sh.tracks, t) && LogOnTime(log, sh.dues, t)
    requires ShortLog(Pass(table, i, Wrap32(t), log, cb).1)
    ensures var (table', log') := Pass(table, i, Wrap32(t), log, cb);
      var sh' := PassShadow(table, i, t, log, cb, sh);
      SlotsTracked(table', log', sh'.tracks, t) && LogOnTime(log', sh'.dues, t)
    decreases |table| - i
  {
    if i < |table| {
      if IsDue(table[i], Wrap32(t)) {
        var call, tr := Invoke(table[i], log, cb), sh.tracks[i];
        var (table', log') := Pass(table[i := Requeued(table[i], call.delay)], i + 1, Wrap32(t), log + [call], cb);
        assert log + [call] <= log' && log'[|log|] == call;
        OneCall(table, i, t, log, sh, call);
        PassFollows(table[i := Requeued(table[i], call.delay)], i + 1, t, log + [call], cb,
                    Shadow(sh.tracks[i := tr.(calls := tr.calls + [|log|])], sh.dues + [Due(t, tr)]));
      } else {
        PassFollows(table, i + 1, t, log, cb, sh);
      }
    }
  }

  lemma {:induction false} LaterStillFollows(s: Scheduler, sh: Shadow, t: nat, t': nat)
    requires Follows(s, sh, t) && t <= t'
    ensures Follows(s, sh, t')
  {
    forall i | 0 <= i < |s.table| && s.table[i].token != INVALID_TOKEN
      ensures Tracks(s.log, s.table[i], sh.tracks[i], t') {
      assert Tracks(s.log, s.table[i], sh.tracks[i], t);
    }
  }

  /** A slot that is set anew. */
  lemma {:induction false} SetSlotTracks(table: seq<Entry>, log: seq<Invocation>, tracks: seq<Track>, t: nat, k: nat,
                                         e: Entry, delay: nat)
    requires k < |table| && SlotsTracked(table, log, tracks, t)
    requires delay < HALF && e.triggerTime == Wrap32(Wrap32(t) + delay)
    ensures SlotsTracked(table[k := e], log, tracks[k := Track(t, delay, [])], t)
  {
    WrapAdd(t, delay);
    assert Returned(log, []) == 0;
    forall i | 0 <= i < |table| && i != k && table[i].token != INVALID_TOKEN
      ensures Tracks(log, table[i], tracks[i], t) {}
  }

  lemma {:induction false} DeferFollows(s: Scheduler, sh: Shadow, x: TimedOp)
    requires x.op.DoDefer? && Follows(s, sh, x.t) && ReadsClock(x) && ShortDelay(x.op)
    ensures Follows(Step(s, x.op), FollowStep(s, sh, x), x.t)
  {
    if Issued(s, x.op) != INVALID_TOKEN {
      var k := SlotOf(s.table, INVALID_TOKEN, 0);
      SetSlotTracks(s.table, s.log, sh.tracks, x.t, k, Step(s, x.op).table[k], x.op.delay);
    }
  }

  lemma {:induction false} ExtendFollows(s: Scheduler, sh: Shadow, x: TimedOp)
    requires x.op.DoExtend? && Follows(s, sh, x.t) && ReadsClock(x) && ShortDelay(x.op)
    ensures Follows(Step(s, x.op), FollowStep(s, sh, x), x.t)
  {
    if Extend(s, x.op.now, x.op.token, x.op.delay).1 {
      var k := SlotOf(s.table, x.op.token, 0);
      SetSlotTracks(s.table, s.log, sh.tracks, x.t, k, Step(s, x.op).table[k], x.op.delay);
    }
  }

  lemma {:induction false} CancelFollows(s: Scheduler, sh: Shadow, x: TimedOp)
    requires x.op.DoCancel? && Follows(s, sh, x.t)
    ensures Follows(Step(s, x.op), FollowStep(s, sh, x), x.t)
  {
  }

  lemma {:induction false} StepFollows(s: Scheduler, sh: Shadow, x: TimedOp)
    requires Follows(s, sh, x.t) && ReadsClock(x) && ShortDelay(x.op) && ShortLog(Step(s, x.op).log)
    ensures Follows(Step(s, x.op), FollowStep(s, sh, x), x.t)
  {
    match x.op {
      case DoDefer(_, _, _, _) => DeferFollows(s, sh, x);
      case DoExtend(_, _, _) => ExtendFollows(s, sh, x);
      case DoCancel(_) => CancelFollows(s, sh, x);
      case DoTask(now, cb) =>
        if TaskRuns(s, now) { PassFollows(s.table, 0, x.t, s.log, cb, sh); }
    }
  }

  // --------------------------------------------------------------------- whole runs

  function RunTimed(s: Scheduler, xs: seq<TimedOp>): Scheduler {
    if xs == [] then s else Step(RunTimed(s, xs[..|xs| - 1]), xs[|xs| - 1].op)
  }

  function FollowRun(s: Scheduler, xs: seq<TimedOp>): (sh: Shadow)
    ensures |sh.tracks| == |RunTimed(s, xs).table|
  {
    if xs == [] then Shadow(seq(|s.table|, i => Track(0, 0, [])), [])
    else
      StepKeepsSize(RunTimed(s, xs[..|xs| - 1]), xs[|xs| - 1].op);
      FollowStep(RunTimed(s, xs[..|xs| - 1]), FollowRun(s, xs[..|xs| - 1]), xs[|xs| - 1])
  }

  lemma {:induction false} StepKeepsSize(s: Scheduler, op: Op)
    ensures |Step(s, op).table| == |s.table|
  {
  }

  predicate TimesAscend(xs: seq<TimedOp>) { forall i | 0 <= i && i + 1 < |xs| :: xs[i].t <= xs[i + 1].t }

  predicate WellTimed(xs: seq<TimedOp>) {
    TimesAscend(xs) && forall i | 0 <= i < |xs| :: ReadsClock(xs[i]) && ShortDelay(xs[i].op)
  }

  lemma {:induction false} StepLogGrows(s: Scheduler, op: Op)
    ensures s.log <= Step(s, op).log
  {
  }

  /** Over any run from an empty table whose delays are below 2^31, on a clock that only goes
      forward: every call came at or after its true deadline, and was given its start plus
      the sum of its delays so far, wrapped; and every live slot is set for its own. */
  lemma {:induction false} NoDrift(count: nat, xs: seq<TimedOp>)
    requires WellTimed(xs)
    requires ShortLog(RunTimed(Scheduler(seq(count, i => FREE), 0, 0, []), xs).log)
    ensures var s0 := Scheduler(seq(count, i => FREE), 0, 0, []);
      Follows(RunTimed(s0, xs), FollowRun(s0, xs), if xs == [] then 0 else xs[|xs| - 1].t)
  {
    var s0 := Scheduler(seq(count, i => FREE), 0, 0, []);
    if xs != [] {
      var earlier, x := xs[..|xs| - 1], xs[|xs| - 1];
      var before, sh := RunTimed(s0, earlier), FollowRun(s0, earlier);
      StepLogGrows(before, x.op);
      assert ShortLog(before.log) by {
        forall j | 0 <= j < |before.log| ensures before.log[j].delay < HALF {
          assert before.log[j] == RunTimed(s0, xs).log[j];
        }
      }
      forall i | 0 <= i && i + 1 < |earlier| ensures earlier[i].t <= earlier[i + 1].t {
        assert xs[i].t <= xs[i + 1].t;
      }
      NoDrift(count, earlier);
      if earlier != [] { assert xs[|earlier| - 1].t <= xs[|earlier| - 1 + 1].t; }
      LaterStillFollows(before, sh, if earlier == [] then 0 else earlier[|earlier| - 1].t, x.t);
      StepFollows(before, sh, x);
    }
  }

  // --------------------------------------------------------- what a pass calls

  /** The tokens of the live slots from `i` on whose true deadline has come. */
  function TrulyDue(table: seq<Entry>, log: seq<Invocation>, tracks: seq<Track>, i: nat, t: nat): seq<uint8>
    requires i <= |table| == |tracks|
    requires forall k | 0 <= k < |table| && table[k].token != INVALID_TOKEN :: Within(tracks[k].calls, |log|)
    decreases |table| - i
  {
    if i == |table| then []
    else
      (if table[i].token != INVALID_TOKEN && Deadline(log, tracks[i]) <= t then [table[i].token] else [])
      + TrulyDue(table, log, tracks, i + 1, t)
  }

  /** No live slot is half a range late. */
  predicate NoneLags(table: seq<Entry>, log: seq<Invocation>, tracks: seq<Track>, t: nat)
    requires |table| == |tracks|
    requires forall k | 0 <= k < |table| && table[k].token != INVALID_TOKEN :: Within(tracks[k].calls, |log|)
  {
    forall k | 0 <= k < |table| && table[k].token != INVALID_TOKEN :: t <= Deadline(log, tracks[k]) + HALF
  }

  lemma {:induction false} FoundDueExactlyWhenDue(table: seq<Entry>, log: seq<Invocation>, tracks: seq<Track>, i: nat,
                                                  t: nat)
    requires i <= |table| && SlotsTracked(table, log, tracks, t) && NoneLags(table, log, tracks, t)
    ensures DueTokens(table, i, Wrap32(t)) == TrulyDue(table, log, tracks, i, t)
    decreases |table| - i
  {
    if i < |table| {
      FoundDueExactlyWhenDue(table, log, tracks, i + 1, t);
      if table[i].token != INVALID_TOKEN {
        assert Tracks(log, table[i], tracks[i], t);
        DueExactlyInWindow(table[i], Deadline(log, tracks[i]), t);
      }
    }
  }

  /** After any such run, a poll at the true time `t` calls exactly the callbacks of the live slots
      whose true deadline has come, each once and in slot order, if no slot is half a range late. */
  lemma {:induction false} PassCallsWhatIsDue(count: nat, xs: seq<TimedOp>, t: nat, cb: Callbacks)
    requires WellTimed(xs) && (xs != [] ==> xs[|xs| - 1].t <= t)
    requires ShortLog(RunTimed(Scheduler(seq(count, i => FREE), 0, 0, []), xs).log)
    ensures var s0 := Scheduler(seq(count, i => FREE), 0, 0, []);
      var s, tracks := RunTimed(s0, xs), FollowRun(s0, xs).tracks;
      && (forall k | 0 <= k < |s.table| && s.table[k].token != INVALID_TOKEN :: Within(tracks[k].calls, |s.log|))
      && (TaskRuns(s, Wrap32(t)) && NoneLags(s.table, s.log, tracks, t) ==>
            TokensOf(Task(s, Wrap32(t), cb).log) == TokensOf(s.log) + TrulyDue(s.table, s.log, tracks, 0, t))
  {
    var s0 := Scheduler(seq(count, i => FREE), 0, 0, []);
    var s, sh := RunTimed(s0, xs), FollowRun(s0, xs);
    NoDrift(count, xs);
    LaterStillFollows(s, sh, if xs == [] then 0 else xs[|xs| - 1].t, t);
    if TaskRuns(s, Wrap32(t)) && NoneLags(s.table, s.log, sh.tracks, t) {
      FoundDueExactlyWhenDue(s.table, s.log, sh.tracks, 0, t);
      PassCallsTheDue(s.table, 0, Wrap32(t), s.log, cb);
    }
  }
}
