/** The line of what the resolver holds back, on the true clock, and how it moves up: with every
    tick each event that has waited longer than any term comes nearer to being processed
    (quantum/action_tapping.c:80-113, 165-440). */
module TappingPace {
  import opened KeyEvents
  import opened Tapping
  import opened TappingConservation
  import opened TappingDecisions
  import opened TappingArrivals
  import opened TappingVerdicts

  /** What the tapping key adds to the wait of those behind it: 2 while it is undecided, 1 while it
      is released and may still be tapped again. */
  function Weight(s: State): nat {
    if s.Undecided() then 2 else if s.IsReset() || s.tapping.event.pressed then 0 else 1
  }

  /** The true times at which the undecided key and the waiting events arrived. */
  datatype Line = Line(weight: nat, key: nat, waiting: seq<nat>)

  function TimesOf(at: seq<nat>, ns: seq<nat>): (xs: seq<nat>)
    requires AllBelow(ns, |at|)
    ensures |xs| == |ns| && forall i | 0 <= i < |xs| :: xs[i] == at[ns[i]]
  {
    seq(|ns|, i requires 0 <= i < |ns| => at[ns[i]])
  }

  function LineOf(at: seq<nat>, s: State, a: Ages): Line
    requires AllBelow(a.waiting, |at|) && (s.Undecided() ==> a.key < |at|)
  {
    Line(Weight(s), if s.Undecided() then at[a.key] else 0, TimesOf(at, a.waiting))
  }

  predicate Ascending(xs: seq<nat>) { forall i, j | 0 <= i < j < |xs| :: xs[i] <= xs[j] }

  /** The undecided key came before what waits, or in the same millisecond. */
  predicate KeyLeads(l: Line) { l.weight == 2 ==> forall i | 0 <= i < |l.waiting| :: l.key <= l.waiting[i] }

  // ------------------------------------------------------------------ the pace of a line

  /** No term is longer than `term`, and no two ticks are further apart than `gap`. */
  datatype Limits = Limits(term: nat, gap: nat)

  const RANKS := 22

  /** How many more ticks the `i`-th waiting event can need. */
  function Rank(l: Line, i: nat): nat { 3 * i + l.weight + 2 }

  /** An event of time `x` and this rank, the last tick having been at `tick`: it has lost no more
      ticks after the longest term than it has left behind. */
  predicate Bounded(lim: Limits, x: nat, rank: int, tick: nat) {
    tick + rank * lim.gap <= x + lim.term + (RANKS + 1) * lim.gap
  }

  predicate IsOld(lim: Limits, x: nat, now: nat) { x + lim.term <= now }

  /** Every old event is bounded, with `d` ticks to spare. */
  predicate Paced(lim: Limits, l: Line, tick: nat, d: int, now: nat) {
    && (forall i | 0 <= i < |l.waiting| && IsOld(lim, l.waiting[i], now) ::
          Bounded(lim, l.waiting[i], Rank(l, i) + d, tick))
    && (l.weight == 2 && IsOld(lim, l.key, now) ==> Bounded(lim, l.key, 1 + d, tick))
  }

  lemma {:induction false} FewerTicks(lim: Limits, x: nat, fewer: int, rank: int, tick: nat)
    requires Bounded(lim, x, rank, tick) && fewer <= rank
    ensures Bounded(lim, x, fewer, tick)
  {
    var more := rank - fewer;
    assert more * lim.gap >= 0;
    assert rank * lim.gap == fewer * lim.gap + more * lim.gap;
  }

  /** The same line further up: each rank is lower by `up`. */
  lemma {:induction false} MovesUp(lim: Limits, l: Line, l': Line, k: nat, up: int, tick: nat, d: int, now: nat)
    requires Paced(lim, l, tick, d, now) && k <= |l.waiting| && l'.waiting == l.waiting[k..]
    requires forall i | 0 <= i < |l'.waiting| :: Rank(l', i) + up <= Rank(l, i + k)
    requires l'.weight == 2 && IsOld(lim, l'.key, now) ==> Bounded(lim, l'.key, 1 + d + up, tick)
    ensures Paced(lim, l', tick, d + up, now)
  {
    forall i | 0 <= i < |l'.waiting| && IsOld(lim, l'.waiting[i], now)
      ensures Bounded(lim, l'.waiting[i], Rank(l', i) + (d + up), tick)
    {
      FewerTicks(lim, l'.waiting[i], Rank(l', i) + (d + up), Rank(l, i + k) + d, tick);
    }
  }

  /** The line as it is, with less to spare. */
  lemma {:induction false} LessToSpare(lim: Limits, l: Line, tick: nat, d: int, less: int, now: nat)
    requires Paced(lim, l, tick, d, now) && less <= d
    ensures Paced(lim, l, tick, less, now)
  {
    if l.weight == 2 && IsOld(lim, l.key, now) { FewerTicks(lim, l.key, 1 + less, 1 + d, tick); }
    MovesUp(lim, l, l, 0, less - d, tick, d, now);
  }

  // ------------------------------------------------------------------ one round of draining

  /** What offering the first waiting event does to the line. */
  predicate Round(l: Line, done: bool, l': Line)
    requires l.waiting != []
  {
    && l'.waiting == (if done then l.waiting[1..] else l.waiting)
    && if l.weight == 2 then (if l'.weight == 2 then l'.key == l.key else !done && l'.weight == 0)
       else if l'.weight == 2 then done && l'.key == l.waiting[0]
       else if done then l'.weight <= 1 else l.weight == 1 && l'.weight == 0
  }

  /** Nobody loses by a round, and if nothing was undecided everybody gains a tick. */
  lemma {:induction false} RoundMovesUp(lim: Limits, l: Line, done: bool, l': Line, tick: nat, d: int, now: nat)
    requires l.waiting != [] && Round(l, done, l') && Paced(lim, l, tick, d, now) && l.weight <= 2
    ensures Paced(lim, l', tick, d, now) && (l.weight != 2 ==> Paced(lim, l', tick, d + 1, now))
  {
    var up, k := if l.weight == 2 then 0 else 1, if done then 1 else 0;
    if l'.weight == 2 && IsOld(lim, l'.key, now) && l.weight != 2 {
      FewerTicks(lim, l'.key, 1 + d + up, Rank(l, 0) + d, tick);
    }
    MovesUp(lim, l, l', k, up, tick, d, now);
    LessToSpare(lim, l', tick, d + up, d, now);
  }

  lemma {:induction false} RoundKeepsLead(l: Line, done: bool, l': Line)
    requires l.waiting != [] && Round(l, done, l') && Ascending(l.waiting) && KeyLeads(l)
    ensures Ascending(l'.waiting) && KeyLeads(l')
  {
  }

  // ---------------------------------------------------------------- what the resolver does

  /** How a step changes the weight, `o` being its outcome. */
  ghost predicate Weighs(s: State, r: Record, o: Outcome) {
    if s.Undecided() then o.state.Undecided() || (!o.done && Weight(o.state) == 0)
    else if o.state.Undecided() then o.done && !r.event.IsTick()
    else if o.done then r.event.IsTick() ==> o.state == s
    else Weight(s) == 1 && Weight(o.state) == 0
  }

  lemma {:induction false} StepWeighs(c: Config, s: State, r: Record)
    ensures Weighs(s, r, ProcessTapping(c, s, r))
  {
  }

  /** The numbers are those of arrivals whose times are known. */
  ghost predicate Timed(at: seq<nat>, es: seq<Event>, s: State, a: Ages) {
    && Numbered(es, s, a) && |es| <= |at|
    && (forall i, j | 0 <= i < j < |at| :: at[i] <= at[j])
    && (forall i | 0 <= i < |es| :: es[i].time == at[i] % 0x1_0000)
  }

  lemma {:induction false} WaitsAscending(at: seq<nat>, es: seq<Event>, s: State, a: Ages)
    requires Timed(at, es, s, a)
    ensures AllBelow(a.waiting, |at|) && (s.Undecided() ==> a.key < |at|)
    ensures Ascending(LineOf(at, s, a).waiting) && |LineOf(at, s, a).waiting| == |s.buffer|
    ensures LineOf(at, s, a).weight <= 2 && (LineOf(at, s, a).weight == 2 <==> s.Undecided())
  {
  }

  lemma {:induction false} RoundIsRound(c: Config, at: seq<nat>, es: seq<Event>, s: State, a: Ages, s1: State, a1: Ages)
    requires Timed(at, es, s, a) && Timed(at, es, s1, a1) && s.buffer != []
    requires ProcessTapping(c, s, s.buffer[0]).state.buffer != []
    requires s1 == AfterRound(ProcessTapping(c, s, s.buffer[0])) && a1 == AgesAfterRound(c, s, a)
    ensures AllBelow(a.waiting, |at|) && (s.Undecided() ==> a.key < |at|)
    ensures AllBelow(a1.waiting, |at|) && (s1.Undecided() ==> a1.key < |at|)
    ensures Round(LineOf(at, s, a), ProcessTapping(c, s, s.buffer[0]).done, LineOf(at, s1, a1))
  {
    WaitsAscending(at, es, s, a);
    WaitsAscending(at, es, s1, a1);
    StepWeighs(c, s, s.buffer[0]);
  }

  /** One round on the line. */
  lemma {:induction false} LineRound(c: Config, at: seq<nat>, es: seq<Event>, s: State, a: Ages, l: Line)
    returns (s1: State, a1: Ages, done: bool, l1: Line)
    requires Known(c, es, s, a) && Timed(at, es, s, a) && s.buffer != []
    requires AllBelow(a.waiting, |at|) && (s.Undecided() ==> a.key < |at|) && l == LineOf(at, s, a)
    ensures Known(c, es, s1, a1) && Timed(at, es, s1, a1) && l.waiting != [] && Round(l, done, l1)
    ensures AllBelow(a1.waiting, |at|) && (s1.Undecided() ==> a1.key < |at|) && l1 == LineOf(at, s1, a1)
    ensures Drain(c, s) == (if done then Drain(c, s1) else s1)
    ensures |a1.waiting| == |s1.buffer| && DrainAges(c, s, a) == (if done then DrainAges(c, s1, a1) else a1)
    ensures done == ProcessTapping(c, s, s.buffer[0]).done && (done ==> |s1.buffer| < |s.buffer|)
    ensures |s1.buffer| <= |s.buffer|
    ensures (l1.weight == 2) == ProcessTapping(c, s, s.buffer[0]).state.Undecided()
  {
    KeepsWaitingEvents(c, s, s.buffer[0]);
    s1, a1, done := ExactRound(c, es, s, a);
    done := ProcessTapping(c, s, s.buffer[0]).done;
    RoundIsRound(c, at, es, s, a, s1, a1);
    l1 := LineOf(at, s1, a1);
  }

  /** A whole line and its numbers. */
  ghost predicate IsLine(c: Config, at: seq<nat>, es: seq<Event>, s: State, a: Ages, l: Line) {
    && Known(c, es, s, a) && Timed(at, es, s, a)
    && AllBelow(a.waiting, |at|) && (s.Undecided() ==> a.key < |at|) && l == LineOf(at, s, a)
  }

  lemma {:induction false} DrainKeepsPace(c: Config, at: seq<nat>, es: seq<Event>, s: State, a: Ages, l: Line,
                                         lim: Limits, tick: nat, d: int, now: nat) returns (l': Line)
    requires IsLine(c, at, es, s, a, l) && KeyLeads(l) && Paced(lim, l, tick, d, now)
    ensures IsLine(c, at, es, Drain(c, s), DrainAges(c, s, a), l') && KeyLeads(l') && Paced(lim, l', tick, d, now)
    ensures l.weight != 2 ==> Paced(lim, l', tick, d + 1, now)
    ensures |l'.waiting| <= |l.waiting|
    decreases |s.buffer|
  {
    l' := l;
    WaitsAscending(at, es, s, a);
    if s.buffer != [] {
      var s1, a1, done, l1 := LineRound(c, at, es, s, a, l);
      RoundMovesUp(lim, l, done, l1, tick, d, now);
      RoundKeepsLead(l, done, l1);
      l' := l1;
      if done {
        l' := DrainKeepsPace(c, at, es, s1, a1, l1, lim, tick, if l.weight != 2 then d + 1 else d, now);
        if l.weight != 2 { LessToSpare(lim, l', tick, d + 1, d, now); }
      }
    }
  }
}
