/** How long the resolver can hold an event back: with ticks at most `gap` apart and no term longer
    than `term`, never longer than the term and 23 gaps (quantum/action_tapping.c:80-113, 341-349;
    quantum/keyboard.c:507-560). */
module TappingPunctual {
  import opened KeyEvents
  import opened Tapping
  import opened TappingConservation
  import opened TappingDecisions
  import opened TappingArrivals
  import opened TappingVerdicts
  import opened TappingLater
  import opened TappingPace

  /** No key has a longer term. */
  ghost predicate TermsAtMost(c: Config, term: nat) {
    forall calls: seq<Call>, r: Record :: c.tappingTerm(calls, r) <= term
  }

  /** All that is held can be told apart from what is still to come, by the 16-bit clock. */
  predicate Recent(l: Line, lim: Limits, now: nat) {
    && (forall i | 0 <= i < |l.waiting| :: l.waiting[i] <= now && now + lim.term <= l.waiting[i] + 0x1_0000)
    && (l.weight == 2 ==> l.key <= now && now + lim.term <= l.key + 0x1_0000)
  }

  // -------------------------------------------------------------------------- arriving

  /** What offering an arrival at `now` does to the line. */
  predicate Offered(l: Line, now: nat, isTick: bool, l0: Line) {
    && l0.weight <= 2
    && (l0.waiting == l.waiting || (!isTick && l0.waiting == l.waiting + [now]) || (l0.waiting == [] && l0.weight == 0))
    && if l.weight == 2 then if l0.weight == 2 then l0.key == l.key else l0.weight == 0
       else if l0.weight == 2 then !isTick && l0.key == now && l0.waiting == l.waiting
       else isTick ==> l0 == l || l0.weight < l.weight
  }

  lemma {:induction false} OfferIsTimed(c: Config, at: seq<nat>, earlier: seq<Event>, s: State, a: Ages, e: Event)
    requires Known(c, earlier, s, a) && Timed(at, earlier, s, a)
    requires |earlier| < |at| && e.time == at[|earlier|] % 0x1_0000
    ensures Known(c, earlier + [e], Offer(c, s, Fresh(e)), OfferAges(c, s, a, Fresh(e), |earlier|))
    ensures Timed(at, earlier + [e], Offer(c, s, Fresh(e)), OfferAges(c, s, a, Fresh(e), |earlier|))
  {
    OfferIsRightExactlyWhen(c, earlier, s, a, e);
  }

  lemma {:induction false} OfferedLine(c: Config, at: seq<nat>, earlier: seq<Event>, s: State, a: Ages, e: Event,
                                       l: Line)
    returns (s0: State, a0: Ages, l0: Line)
    requires IsLine(c, at, earlier, s, a, l)
    requires |earlier| < |at| && e.time == at[|earlier|] % 0x1_0000
    ensures s0 == Offer(c, s, Fresh(e)) && a0 == OfferAges(c, s, a, Fresh(e), |earlier|)
    ensures IsLine(c, at, earlier + [e], s0, a0, l0) && Offered(l, at[|earlier|], e.IsTick(), l0)
    ensures |l0.waiting| <= |l.waiting| || |l0.waiting| <= BUFFER_CAPACITY
  {
    var r, n := Fresh(e), |earlier|;
    s0, a0 := Offer(c, s, r), OfferAges(c, s, a, r, n);
    OfferIsTimed(c, at, earlier, s, a, e);
    WaitsAscending(at, earlier, s, a);
    WaitsAscending(at, earlier + [e], s0, a0);
    l0 := LineOf(at, s0, a0);
    StepWeighs(c, s, r);
    StepKeepsPlaces(c, s, r);
    OfferedWaits(c, at, s, a, r, n);
  }

  lemma {:induction false} OfferedWaits(c: Config, at: seq<nat>, s: State, a: Ages, r: Record, n: nat)
    requires |a.waiting| == |s.buffer| && AllBelow(a.waiting, |at|) && n < |at|
    requires AllBelow(OfferAges(c, s, a, r, n).waiting, |at|)
    ensures var o := ProcessTapping(c, s, r);
      var xs, xs0 := TimesOf(at, a.waiting), TimesOf(at, OfferAges(c, s, a, r, n).waiting);
      if o.done || r.event.IsTick() then xs0 == xs && Offer(c, s, r).tapping == o.state.tapping
      else if OverflowsOn(c, s, r) then xs0 == [] && Offer(c, s, r).tapping == ZERO_RECORD
      else xs0 == xs + [at[n]] && |xs| < BUFFER_CAPACITY && Offer(c, s, r).tapping == o.state.tapping
  {
    KeepsWaitingEvents(c, s, r);
  }

  /** The 16-bit distance of two true times. */
  lemma {:induction false} Distance(a: nat, b: nat)
    requires b <= a < b + 0x1_0000
    ensures TimerDiff16(a % 0x1_0000, b % 0x1_0000) == a - b
    ensures a > b ==> TimerDiff16(b % 0x1_0000, a % 0x1_0000) == 0x1_0000 - (a - b)
  {
    TrueDifference(b, a);
    assert TimerDiff16(a % 0x1_0000, b % 0x1_0000) == a - b;
    if a > b { assert (b % 0x1_0000 - a % 0x1_0000 + (a - b)) % 0x1_0000 == 0; }
  }

  /** What is outside the term of the undecided key settles it, and draining stops. */
  lemma {:induction false} OutsideSettles(c: Config, s: State, r: Record, x: nat, now: nat, term: nat)
    requires s.Undecided() && TermsAtMost(c, term) && term > 0
    requires s.tapping.event.time == x % 0x1_0000 && r.event.time == now % 0x1_0000
    requires x + term <= now < x + 0x1_0000 || now < x <= now + 0x1_0000 - term
    ensures !ProcessTapping(c, s, r).done && Weight(ProcessTapping(c, s, r).state) == 0
    ensures !ProcessTapping(c, s, r).state.Undecided()
  {
    assert c.tappingTerm(s.calls, s.tapping) <= term;
    if x <= now { Distance(now, x); } else { Distance(x, now); }
  }

  // ------------------------------------------------------------------ a call with a tick

  /** After the tick itself: everything gained a tick, or is not old, or gains one by draining. */
  predicate Ticked(lim: Limits, l0: Line, tick: nat, now: nat) {
    Paced(lim, l0, tick, 1, now) || (l0.weight != 2 && Paced(lim, l0, tick, 0, now))
  }

  lemma {:induction false} TickMovesUp(lim: Limits, l: Line, l0: Line, tick: nat, now: nat)
    requires Paced(lim, l, tick, 0, now) && KeyLeads(l) && Offered(l, now, true, l0)
    requires l0.weight == 2 ==> !IsOld(lim, l.key, now)
    ensures Ticked(lim, l0, tick, now) && KeyLeads(l0)
  {
    if l0.weight == 2 {
      assert forall i | 0 <= i < |l0.waiting| :: !IsOld(lim, l0.waiting[i], now);
    } else if l0.waiting == l.waiting && l0.weight < l.weight {
      MovesUp(lim, l, l0, 0, 1, tick, 0, now);
    }
  }

  lemma {:induction false} TickedDrains(c: Config, at: seq<nat>, es: seq<Event>, s: State, a: Ages, l: Line,
                                        lim: Limits, tick: nat, now: nat) returns (l': Line)
    requires IsLine(c, at, es, s, a, l) && KeyLeads(l) && Ticked(lim, l, tick, now)
    ensures IsLine(c, at, es, Drain(c, s), DrainAges(c, s, a), l') && KeyLeads(l') && Paced(lim, l', tick, 1, now)
    ensures |l'.waiting| <= |l.waiting|
  {
    if Paced(lim, l, tick, 1, now) {
      l' := DrainKeepsPace(c, at, es, s, a, l, lim, tick, 1, now);
    } else {
      l' := DrainKeepsPace(c, at, es, s, a, l, lim, tick, 0, now);
    }
  }

  /** The tick at `now` counts. */
  lemma {:induction false} NextTick(lim: Limits, l: Line, tick: nat, now: nat)
    requires Paced(lim, l, tick, 1, now) && now <= tick + lim.gap
    ensures Paced(lim, l, now, 0, now)
  {
    forall i | 0 <= i < |l.waiting| && IsOld(lim, l.waiting[i], now)
      ensures Bounded(lim, l.waiting[i], Rank(l, i), now)
    {
      assert (Rank(l, i) + 1) * lim.gap == Rank(l, i) * lim.gap + lim.gap;
    }
    if l.weight == 2 && IsOld(lim, l.key, now) { assert 2 * lim.gap == lim.gap + lim.gap; }
  }

  lemma {:induction false} TickKeepsPace(c: Config, at: seq<nat>, earlier: seq<Event>, s: State, a: Ages, l: Line,
                                         e: Event, lim: Limits, tick: nat) returns (l': Line)
    requires IsLine(c, at, earlier, s, a, l) && |earlier| < |at| && e.time == at[|earlier|] % 0x1_0000
    requires e.IsTick() && TermsAtMost(c, lim.term) && lim.term > 0 && KeyLeads(l) && at[|earlier|] <= tick + lim.gap
    requires Paced(lim, l, tick, 0, at[|earlier|]) && Recent(l, lim, at[|earlier|]) && |l.waiting| <= BUFFER_CAPACITY
    ensures IsLine(c, at, earlier + [e], ActionTappingProcess(c, s, Fresh(e)),
                   CallAges(c, s, a, Fresh(e), |earlier|), l')
    ensures KeyLeads(l') && Paced(lim, l', at[|earlier|], 0, at[|earlier|]) && |l'.waiting| <= BUFFER_CAPACITY
  {
    var now := at[|earlier|];
    var s0, a0, l0 := OfferedLine(c, at, earlier, s, a, e, l);
    if l.weight == 2 && IsOld(lim, l.key, now) { OutsideSettles(c, s, Fresh(e), l.key, now, lim.term); }
    assert l0.weight == 2 ==> s0.Undecided();
    TickMovesUp(lim, l, l0, tick, now);
    l' := TickedDrains(c, at, earlier + [e], s0, a0, l0, lim, tick, now);
    NextTick(lim, l', tick, now);
  }

  // ----------------------------------------------------------- a call with another event

  /** If the line has not just got a new key, nobody loses more than draining makes up for. */
  lemma {:induction false} OfferedLosesLittle(lim: Limits, l: Line, l0: Line, tick: nat, now: nat)
    requires Paced(lim, l, tick, 0, now) && Offered(l, now, false, l0) && lim.term > 0
    requires l.weight == 2 || l0.weight != 2
    ensures Paced(lim, l0, tick, 0, now) || (l0.weight != 2 && Paced(lim, l0, tick, -1, now))
  {
    var d := if l.weight == 0 && l0.weight == 1 then -1 else 0;
    forall i | 0 <= i < |l0.waiting| && IsOld(lim, l0.waiting[i], now)
      ensures Bounded(lim, l0.waiting[i], Rank(l0, i) + d, tick)
    {
      FewerTicks(lim, l.waiting[i], Rank(l0, i) + d, Rank(l, i), tick);
    }
  }

  /** A new key that what waits first has outlived: it is settled at once. */
  lemma {:induction false} NewKeyIsSettled(c: Config, at: seq<nat>, es: seq<Event>, s: State, a: Ages, l0: Line,
                                          term: nat, now: nat)
    returns (l': Line)
    requires IsLine(c, at, es, s, a, l0) && TermsAtMost(c, term) && term > 0
    requires l0.weight == 2 && l0.key == now && l0.waiting != []
    requires l0.waiting[0] < now && now + term <= l0.waiting[0] + 0x1_0000
    ensures IsLine(c, at, es, Drain(c, s), DrainAges(c, s, a), l') && l'.weight == 0 && l'.waiting == l0.waiting
  {
    WaitsAscending(at, es, s, a);
    var s1, a1, done, l1 := LineRound(c, at, es, s, a, l0);
    FirstIsOutside(c, at, es, s, a, l0, term, now);
    l' := l1;
  }

  lemma {:induction false} FirstIsOutside(c: Config, at: seq<nat>, es: seq<Event>, s: State, a: Ages, l0: Line,
                                         term: nat, now: nat)
    requires IsLine(c, at, es, s, a, l0) && TermsAtMost(c, term) && term > 0
    requires l0.weight == 2 && l0.key == now && s.buffer != [] && l0.waiting != []
    requires l0.waiting[0] < now && now + term <= l0.waiting[0] + 0x1_0000
    ensures var o := ProcessTapping(c, s, s.buffer[0]); !o.done && !o.state.Undecided()
  {
    assert s.buffer[0].event.time == l0.waiting[0] % 0x1_0000;
    OutsideSettles(c, s, s.buffer[0], now, l0.waiting[0], term);
  }

  /** What has just come is not old. */
  lemma {:induction false} NewIsPaced(lim: Limits, l: Line, tick: nat, now: nat)
    requires lim.term > 0 && l.key == now && (forall i | 0 <= i < |l.waiting| :: l.waiting[i] >= now)
    ensures Paced(lim, l, tick, 0, now) && KeyLeads(l)
  {
  }

  /** A settled key leaves the line as it was. */
  lemma {:induction false} SettledIsPaced(lim: Limits, l: Line, l': Line, tick: nat, now: nat)
    requires Paced(lim, l, tick, 0, now) && l'.waiting == l.waiting && l'.weight == 0
    ensures Paced(lim, l', tick, 0, now) && KeyLeads(l')
  {
    assert l.waiting[0..] == l.waiting;
    MovesUp(lim, l, l', 0, 0, tick, 0, now);
  }

  lemma {:induction false} StartKeepsPace(c: Config, at: seq<nat>, es: seq<Event>, s: State, a: Ages, l: Line, l0: Line,
                                         lim: Limits, tick: nat, now: nat)
    returns (l': Line)
    requires IsLine(c, at, es, s, a, l0) && TermsAtMost(c, lim.term) && lim.term > 0
    requires l.weight < 2 && l0.weight == 2 && l0.key == now && l0.waiting == l.waiting && Ascending(l.waiting)
    requires Paced(lim, l, tick, 0, now) && Recent(l, lim, now)
    ensures IsLine(c, at, es, Drain(c, s), DrainAges(c, s, a), l') && KeyLeads(l') && Paced(lim, l', tick, 0, now)
    ensures |l'.waiting| <= |l.waiting|
  {
    if l.waiting != [] && l.waiting[0] < now {
      l' := NewKeyIsSettled(c, at, es, s, a, l0, lim.term, now);
      SettledIsPaced(lim, l, l', tick, now);
    } else {
      NewIsPaced(lim, l0, tick, now);
      l' := DrainKeepsPace(c, at, es, s, a, l0, lim, tick, 0, now);
    }
  }

  lemma {:induction false} EventKeepsPace(c: Config, at: seq<nat>, earlier: seq<Event>, s: State, a: Ages, l: Line,
                                          e: Event, lim: Limits, tick: nat) returns (l': Line)
    requires IsLine(c, at, earlier, s, a, l) && |earlier| < |at| && e.time == at[|earlier|] % 0x1_0000
    requires !e.IsTick() && TermsAtMost(c, lim.term) && lim.term > 0 && KeyLeads(l)
    requires Paced(lim, l, tick, 0, at[|earlier|]) && Recent(l, lim, at[|earlier|]) && |l.waiting| <= BUFFER_CAPACITY
    ensures IsLine(c, at, earlier + [e], ActionTappingProcess(c, s, Fresh(e)),
                   CallAges(c, s, a, Fresh(e), |earlier|), l')
    ensures KeyLeads(l') && Paced(lim, l', tick, 0, at[|earlier|]) && |l'.waiting| <= BUFFER_CAPACITY
  {
    var now, es := at[|earlier|], earlier + [e];
    WaitsAscending(at, earlier, s, a);
    var s0, a0, l0 := OfferedLine(c, at, earlier, s, a, e, l);
    if l.weight != 2 && l0.weight == 2 {
      l' := StartKeepsPace(c, at, es, s0, a0, l, l0, lim, tick, now);
    } else {
      OfferedLosesLittle(lim, l, l0, tick, now);
      if Paced(lim, l0, tick, 0, now) {
        l' := DrainKeepsPace(c, at, es, s0, a0, l0, lim, tick, 0, now);
      } else {
        l' := DrainKeepsPace(c, at, es, s0, a0, l0, lim, tick, -1, now);
      }
    }
  }

  // ------------------------------------------------------------------------ whole runs

  /** The true time of the last tick, or of the start. */
  function LastTick(es: seq<Event>, at: seq<nat>): nat
    requires |es| <= |at|
  {
    if es == [] then 0
    else if es[|es| - 1].IsTick() then at[|es| - 1]
    else LastTick(es[..|es| - 1], at)
  }

  /** Whatever arrives, the last tick is at most `gap` ago. */
  predicate TicksEvery(es: seq<Event>, at: seq<nat>, gap: nat)
    requires |es| <= |at|
  {
    forall k | 0 <= k < |es| :: at[k] <= LastTick(es[..k], at) + gap
  }

  /** The longest that anything is held. */
  function Longest(lim: Limits): nat { lim.term + (RANKS + 1) * lim.gap }

  /** Nothing in the line is bounded by less than it has waited. */
  predicate Steady(lim: Limits, l: Line, tick: nat) {
    && (forall i | 0 <= i < |l.waiting| :: Bounded(lim, l.waiting[i], Rank(l, i), tick))
    && (l.weight == 2 ==> Bounded(lim, l.key, 1, tick))
  }

  lemma {:induction false} YoungIsBounded(lim: Limits, x: nat, rank: nat, tick: nat, now: nat)
    requires !IsOld(lim, x, now) && tick <= now && rank <= RANKS + 1
    ensures Bounded(lim, x, rank, tick)
  {
    assert (RANKS + 1 - rank) * lim.gap >= 0;
    assert (RANKS + 1) * lim.gap == rank * lim.gap + (RANKS + 1 - rank) * lim.gap;
  }

  lemma {:induction false} PacedIsSteady(lim: Limits, l: Line, tick: nat, now: nat)
    requires Paced(lim, l, tick, 0, now) && tick <= now && |l.waiting| <= BUFFER_CAPACITY && l.weight <= 2
    ensures Steady(lim, l, tick)
  {
    forall i | 0 <= i < |l.waiting| ensures Bounded(lim, l.waiting[i], Rank(l, i), tick) {
      if !IsOld(lim, l.waiting[i], now) { YoungIsBounded(lim, l.waiting[i], Rank(l, i), tick, now); }
    }
    if l.weight == 2 && !IsOld(lim, l.key, now) { YoungIsBounded(lim, l.key, 1, tick, now); }
  }

  lemma {:induction false} BoundedIsHeldShortly(lim: Limits, x: nat, rank: nat, tick: nat, now: nat)
    requires Bounded(lim, x, rank, tick) && rank > 0 && now <= tick + lim.gap
    ensures now <= x + Longest(lim)
  {
    assert (rank - 1) * lim.gap >= 0;
    assert rank * lim.gap == lim.gap + (rank - 1) * lim.gap;
  }

  /** Nothing in the line has waited for longer than the longest. */
  predicate HeldShortly(lim: Limits, l: Line, now: nat) {
    && (forall i | 0 <= i < |l.waiting| :: now <= l.waiting[i] + Longest(lim))
    && (l.weight == 2 ==> now <= l.key + Longest(lim))
  }

  lemma {:induction false} SteadyIsHeldShortly(lim: Limits, l: Line, tick: nat, now: nat)
    requires Steady(lim, l, tick) && now <= tick + lim.gap
    ensures HeldShortly(lim, l, now) && Paced(lim, l, tick, 0, now)
  {
    forall i | 0 <= i < |l.waiting| ensures now <= l.waiting[i] + Longest(lim) {
      BoundedIsHeldShortly(lim, l.waiting[i], Rank(l, i), tick, now);
    }
    if l.weight == 2 { BoundedIsHeldShortly(lim, l.key, 1, tick, now); }
  }

  /** The run is on the true clock, ticks and terms keep to the limits, and these are small enough for
      the 16-bit clock. */
  ghost predicate WellPaced(c: Config, es: seq<Event>, at: seq<nat>, lim: Limits) {
    && Stamped(es, at) && TicksEvery(es, at, lim.gap) && TermsAtMost(c, lim.term)
    && lim.term > 0 && Longest(lim) + lim.term <= 0x1_0000
  }

  /** The line after a run. */
  ghost predicate IsLineAfter(c: Config, es: seq<Event>, at: seq<nat>, lim: Limits, l: Line)
    requires |es| <= |at|
  {
    && IsLine(c, at, es, Run(c, es), RunAges(c, es), l)
    && KeyLeads(l) && Steady(lim, l, LastTick(es, at)) && |l.waiting| <= BUFFER_CAPACITY
  }

  lemma {:induction false} NothingYet(c: Config, at: seq<nat>, lim: Limits) returns (l: Line)
    requires forall i, j | 0 <= i < j < |at| :: at[i] <= at[j]
    ensures IsLineAfter(c, [], at, lim, l)
  {
    EveryCallIsJustified(c, []);
    l := LineOf(at, Run(c, []), RunAges(c, []));
  }

  lemma {:induction false} StillRecent(c: Config, earlier: seq<Event>, at: seq<nat>, lim: Limits, l: Line)
    requires |earlier| < |at| && IsLineAfter(c, earlier, at, lim, l) && Longest(lim) + lim.term <= 0x1_0000
    requires at[|earlier|] <= LastTick(earlier, at) + lim.gap
    ensures HeldShortly(lim, l, at[|earlier|]) && Recent(l, lim, at[|earlier|])
    ensures Paced(lim, l, LastTick(earlier, at), 0, at[|earlier|])
  {
    SteadyIsHeldShortly(lim, l, LastTick(earlier, at), at[|earlier|]);
  }

  lemma {:induction false} LastTickOneMore(earlier: seq<Event>, e: Event, at: seq<nat>)
    requires |earlier| < |at|
    ensures LastTick(earlier + [e], at) == if e.IsTick() then at[|earlier|] else LastTick(earlier, at)
  {
    assert (earlier + [e])[..|earlier|] == earlier;
  }

  lemma {:induction false} LastTickIsPast(es: seq<Event>, at: seq<nat>)
    requires |es| < |at| && forall i, j | 0 <= i < j < |at| :: at[i] <= at[j]
    ensures LastTick(es, at) <= at[|es|]
  {
    if es != [] && !es[|es| - 1].IsTick() {
      LastTickIsPast(es[..|es| - 1], at);
      assert at[|es| - 1] <= at[|es|];
    }
  }

  lemma {:induction false} OneMoreArrival(c: Config, earlier: seq<Event>, e: Event, at: seq<nat>, lim: Limits, l: Line)
    returns (l': Line)
    requires |earlier| < |at| && IsLineAfter(c, earlier, at, lim, l) && e.time == at[|earlier|] % 0x1_0000
    requires TermsAtMost(c, lim.term) && lim.term > 0 && Longest(lim) + lim.term <= 0x1_0000
    requires at[|earlier|] <= LastTick(earlier, at) + lim.gap
    ensures IsLineAfter(c, earlier + [e], at, lim, l')
  {
    var s, a, tick, now := Run(c, earlier), RunAges(c, earlier), LastTick(earlier, at), at[|earlier|];
    StillRecent(c, earlier, at, lim, l);
    LastTickOneMore(earlier, e, at);
    LastTickIsPast(earlier, at);
    RunOneMore(c, earlier, e);
    if e.IsTick() {
      l' := TickKeepsPace(c, at, earlier, s, a, l, e, lim, tick);
      WaitsAscending(at, earlier + [e], Run(c, earlier + [e]), RunAges(c, earlier + [e]));
      PacedIsSteady(lim, l', now, now);
    } else {
      l' := EventKeepsPace(c, at, earlier, s, a, l, e, lim, tick);
      WaitsAscending(at, earlier + [e], Run(c, earlier + [e]), RunAges(c, earlier + [e]));
      PacedIsSteady(lim, l', tick, now);
    }
  }

  /** Every line of the run is steady. */
  lemma {:induction false} RunKeepsPace(c: Config, es: seq<Event>, at: seq<nat>, lim: Limits, k: nat) returns (l: Line)
    requires WellPaced(c, es, at, lim) && k <= |es|
    ensures IsLineAfter(c, es[..k], at, lim, l)
  {
    if k == 0 {
      l := NothingYet(c, at, lim);
      assert es[..0] == [];
    } else {
      var before := RunKeepsPace(c, es, at, lim, k - 1);
      assert es[..k - 1] + [es[k - 1]] == es[..k];
      l := OneMoreArrival(c, es[..k - 1], es[k - 1], at, lim, before);
    }
  }

  /** All that the resolver holds when the `k`-th event arrives has been held for no longer than the
      longest term and 23 gaps between ticks. */
  lemma {:induction false} EverythingIsHeldShortly(c: Config, es: seq<Event>, at: seq<nat>, lim: Limits, k: nat)
    requires WellPaced(c, es, at, lim) && k < |es|
    ensures var s, a := Run(c, es[..k]), RunAges(c, es[..k]);
      && Numbered(es[..k], s, a)
      && (forall i | 0 <= i < |a.waiting| :: at[k] <= at[a.waiting[i]] + Longest(lim))
      && (s.Undecided() ==> at[k] <= at[a.key] + Longest(lim))
  {
    var l := RunKeepsPace(c, es, at, lim, k);
    StillRecent(c, es[..k], at, lim, l);
    WaitsAscending(at, es[..k], Run(c, es[..k]), RunAges(c, es[..k]));
    forall i | 0 <= i < |RunAges(c, es[..k]).waiting|
      ensures at[k] <= at[RunAges(c, es[..k]).waiting[i]] + Longest(lim)
    {
      assert l.waiting[i] == at[RunAges(c, es[..k]).waiting[i]];
    }
  }

  /** So nothing is held for a turn of the 16-bit clock. */
  lemma {:induction false} TicksKeepItShort(c: Config, es: seq<Event>, at: seq<nat>, lim: Limits)
    requires WellPaced(c, es, at, lim)
    ensures NothingHeldLong(c, es, at)
  {
    forall k | 0 <= k < |es| ensures Young(at, k, Run(c, es[..k]), RunAges(c, es[..k])) {
      EverythingIsHeldShortly(c, es, at, lim, k);
    }
  }

  /** Terms are true times, on any run with ticks and terms within the limits. */
  lemma {:induction false} TermsAreTrueWithTicks(c: Config, es: seq<Event>, at: seq<nat>, lim: Limits, i: nat)
    requires WellPaced(c, es, at, lim) && NoCallErrs(c, es)
    requires i < |Run(c, es).calls| && Run(c, es).calls[i].origin.OfTappingKey?
    ensures |RunAges(c, es).decisions| == |Run(c, es).calls| && RunAges(c, es).decisions[i].Settled?
    ensures var calls, d := Run(c, es).calls, RunAges(c, es).decisions[i];
      var r := calls[i].record;
      && d.press < d.cause < |es| && AllBelow(d.others, |es|) && at[d.press] <= at[d.cause]
      && (r.tap.count == 1 ==> at[d.cause] - at[d.press] < c.tappingTerm(calls[..i], Uncounted(r)))
      && (r.tap.count == 0 ==>
            || at[d.cause] - at[d.press] >= c.tappingTerm(calls[..i], r)
            || Nests(c, Arrivals(es, d.others), calls[..i], r, es[d.cause])
            || Interrupts(c, calls[..i], r, es[d.cause]))
  {
    TicksKeepItShort(c, es, at, lim);
    TermsAreTrueTimes(c, es, at, i);
  }

  // ------------------------------------------------------------- all is processed in the end

  /** `e` has not arrived for longer than anything is held. */
  predicate LongAgo(es: seq<Event>, at: seq<nat>, lim: Limits, k: nat, e: Event)
    requires k < |es| <= |at|
  {
    forall i | 0 <= i < k && es[i] == e :: at[i] + Longest(lim) < at[k]
  }

  lemma {:induction false} NoneAmong(rs: seq<Record>, e: Event)
    requires forall i | 0 <= i < |rs| :: rs[i].event != e
    ensures Occurrences(rs, e) == 0
  {
    if rs != [] { NoneAmong(rs[1..], e); }
  }

  /** Every key event is processed in the end, as often as it arrived, unless an overflow dropped it:
      at the latest when the longest term and 23 gaps have passed. */
  lemma {:induction false} EverythingIsProcessed(c: Config, es: seq<Event>, at: seq<nat>, lim: Limits, k: nat, e: Event)
    requires WellPaced(c, es, at, lim) && k < |es| && LongAgo(es, at, lim, k, e)
    ensures Held(Run(c, es[..k]), e) == 0
    ensures Processed(Run(c, es[..k]).calls, e) + Dropped(c, es[..k], e) == Arrived(es[..k], e)
  {
    var s, a := Run(c, es[..k]), RunAges(c, es[..k]);
    EverythingIsHeldShortly(c, es, at, lim, k);
    forall i | 0 <= i < |s.buffer| ensures s.buffer[i].event != e {
      assert es[..k][a.waiting[i]] == es[a.waiting[i]];
    }
    NoneAmong(s.buffer, e);
    if s.Undecided() { assert es[..k][a.key] == es[a.key]; }
    ExactlyOnce(c, es[..k], e);
  }
}
