/** One-shot keys and reports over runs (quantum/action_util.c:169-203, 259-296, 403-451). */
module OneShotRuns {
  import opened OneShot

  function Run(st: State, ops: seq<Op>): State {
    if ops == [] then st else Apply(Run(st, ops[..|ops| - 1]), ops[|ops| - 1])
  }

  // ---------------------------------------------------------------- one-shot modifiers

  predicate TouchesOneshotMods(op: Op) {
    op.SetOneshotMods? || op.AddOneshotMods? || op.DelOneshotMods? || op.ClearOneshotMods?
  }

  /** A report with a key down was made. */
  predicate KeyReported(st: State, ops: seq<Op>) {
    exists i | 0 <= i < |ops| :: ops[i].SendReport? && HasAnyKey(Run(st, ops[..i]).keys)
  }

  lemma {:induction false} KeyReportedOne(st: State, ops: seq<Op>)
    requires ops != []
    ensures var earlier, last := ops[..|ops| - 1], ops[|ops| - 1];
      KeyReported(st, ops) <==> KeyReported(st, earlier) || (last.SendReport? && HasAnyKey(Run(st, earlier).keys))
  {
    var earlier := ops[..|ops| - 1];
    if KeyReported(st, earlier) {
      var i :| 0 <= i < |earlier| && earlier[i].SendReport? && HasAnyKey(Run(st, earlier[..i]).keys);
      assert ops[..i] == earlier[..i] && ops[i] == earlier[i];
    }
    if KeyReported(st, ops) {
      var i :| 0 <= i < |ops| && ops[i].SendReport? && HasAnyKey(Run(st, ops[..i]).keys);
      if i < |earlier| { assert ops[..i] == earlier[..i] && ops[i] == earlier[i]; } else { assert ops[..i] == earlier; }
    }
  }

  /** A queued mask is pending until a report with a key down, and gone from then on. */
  lemma {:induction false} PendingUntilKeyReported(st: State, ops: seq<Op>)
    requires forall i | 0 <= i < |ops| :: !TouchesOneshotMods(ops[i])
    ensures Run(st, ops).oneshot == if KeyReported(st, ops) then {} else st.oneshot
  {
    if ops != [] {
      PendingUntilKeyReported(st, ops[..|ops| - 1]);
      KeyReportedOne(st, ops);
      assert !TouchesOneshotMods(ops[|ops| - 1]);
    }
  }

  /** So the mask is in every report up to and including the first with a key down, unless a
      key override suppresses it, and no later report owes anything to it. */
  lemma {:induction false} MaskInReportsUpToFirstKey(st: State, ops: seq<Op>)
    requires forall i | 0 <= i < |ops| :: !TouchesOneshotMods(ops[i])
    ensures var now := Run(st, ops);
      && (!KeyReported(st, ops) ==> st.oneshot - now.suppressed <= Current(now).mods)
      && (KeyReported(st, ops) ==> Current(now) == Current(now.(oneshot := {})))
      && Run(st, ops + [SendReport]).lastReport == Current(now)
  {
    PendingUntilKeyReported(st, ops);
    assert (ops + [SendReport])[..|ops|] == ops;
  }

  // ------------------------------------------------------------------- reports to the host

  /** What the host last heard: nothing is as good as an empty report. */
  function LastHeard(first: Report, sent: seq<Report>): Report {
    if sent == [] then first else sent[|sent| - 1]
  }

  predicate AllNews(first: Report, sent: seq<Report>) {
    forall i | 0 <= i < |sent| :: sent[i] != LastHeard(first, sent[..i])
  }

  /** In every run, no report repeats the one before it, the driver knows which was the last,
      and sending leaves the host with the current report. */
  lemma {:induction false} HostHearsEveryChangeOnce(st: State, first: Report, ops: seq<Op>)
    requires AllNews(first, st.sent) && st.lastReport == LastHeard(first, st.sent)
    ensures var now := Run(st, ops); AllNews(first, now.sent) && now.lastReport == LastHeard(first, now.sent)
    ensures ops != [] && ops[|ops| - 1] == SendReport ==>
      LastHeard(first, Run(st, ops).sent) == Current(Run(st, ops[..|ops| - 1]))
  {
    if ops != [] {
      HostHearsEveryChangeOnce(st, first, ops[..|ops| - 1]);
      OneOpHeard(Run(st, ops[..|ops| - 1]), first, ops[|ops| - 1]);
    }
  }

  lemma {:induction false} OneOpHeard(st: State, first: Report, op: Op)
    requires AllNews(first, st.sent) && st.lastReport == LastHeard(first, st.sent)
    ensures AllNews(first, Apply(st, op).sent) && Apply(st, op).lastReport == LastHeard(first, Apply(st, op).sent)
    ensures op == SendReport ==> LastHeard(first, Apply(st, op).sent) == Current(st)
  {
    if op == SendReport {
      if Current(st) != st.lastReport { OneMoreReport(first, st.sent, Current(st)); }
    } else {
      assert Apply(st, op).sent == st.sent && Apply(st, op).lastReport == st.lastReport;
    }
  }

  lemma {:induction false} OneMoreReport(first: Report, sent: seq<Report>, r: Report)
    requires AllNews(first, sent) && r != LastHeard(first, sent)
    ensures AllNews(first, sent + [r])
  {
    forall i | 0 <= i < |sent + [r]| ensures (sent + [r])[i] != LastHeard(first, (sent + [r])[..i]) {
      assert (sent + [r])[..i] == sent[..i];
      assert sent[..|sent|] == sent;
    }
  }

  // ------------------------------------------------------------- why a modifier is reported

  /** Whether one-shot keys are enabled after the operations. */
  function EnabledAfter(enabled: bool, ops: seq<Op>): bool {
    if ops == [] then enabled
    else
      var last := ops[|ops| - 1];
      if last.EnableOneshot? then last.active else EnabledAfter(enabled, ops[..|ops| - 1])
  }

  /** Of the operations that add or delete this modifier the last one adds it. */
  function HeldAfter(ops: seq<Op>, m: nat): bool {
    if ops == [] then false
    else
      var earlier, last := ops[..|ops| - 1], ops[|ops| - 1];
      if last.AddMods? && m in last.mods then true
      else if last.DelMods? && m in last.mods then false
      else HeldAfter(earlier, m)
  }

  /** The weak modifiers set last. */
  function WeakAfter(ops: seq<Op>): Mask {
    if ops == [] then {}
    else if ops[|ops| - 1].SetWeakMods? then ops[|ops| - 1].mods
    else WeakAfter(ops[..|ops| - 1])
  }

  /** The keys set last. */
  function KeysAfter(ops: seq<Op>): seq<nat> {
    if ops == [] then []
    else if ops[|ops| - 1].SetKeys? then ops[|ops| - 1].keys
    else KeysAfter(ops[..|ops| - 1])
  }

  /** The overriding modifiers set last, and those suppressed. */
  function OverridesAfter(ops: seq<Op>): (o: (Mask, Mask)) {
    if ops == [] then ({}, {})
    else if ops[|ops| - 1].SetOverrides? then (ops[|ops| - 1].weakOverride, ops[|ops| - 1].suppressed)
    else OverridesAfter(ops[..|ops| - 1])
  }

  /** The modifier was queued, and no report with a key down and no other operation took it back.  Setting
      the queue does nothing while one-shot keys are disabled. */
  function QueuedAfter(ops: seq<Op>, m: nat): bool {
    if ops == [] then false
    else
      var earlier, last := ops[..|ops| - 1], ops[|ops| - 1];
      match last
      case SetOneshotMods(mods) => if EnabledAfter(true, earlier) then m in mods else QueuedAfter(earlier, m)
      case AddOneshotMods(mods) => m in mods || QueuedAfter(earlier, m)
      case DelOneshotMods(mods) => m !in mods && QueuedAfter(earlier, m)
      case ClearOneshotMods => false
      case SendReport => (forall k | k in KeysAfter(earlier) :: k == 0) && QueuedAfter(earlier, m)
      case _ => QueuedAfter(earlier, m)
  }

  const FRESH := State({}, {}, {}, {}, [], {}, NONE, true, Report({}, []), [], [])

  /** The state is what was asked for, operation by operation. */
  ghost predicate IsAsAsked(ops: seq<Op>, st: State, m: nat) {
    && (m in st.held <==> HeldAfter(ops, m))
    && st.weak == WeakAfter(ops) && st.keys == KeysAfter(ops) && st.enabled == EnabledAfter(true, ops)
    && (st.weakOverride, st.suppressed) == OverridesAfter(ops)
    && (m in st.oneshot <==> QueuedAfter(ops, m))
  }

  lemma {:induction false} NoKeyIsDown(keys: seq<nat>)
    ensures HasAnyKey(keys) <==> !forall k | k in keys :: k == 0
  {
    if HasAnyKey(keys) {
      var i :| 0 <= i < |keys| && keys[i] != 0;
      assert keys[i] in keys;
    }
  }

  lemma {:induction false} StateIsAsAsked(ops: seq<Op>, m: nat)
    ensures IsAsAsked(ops, Run(FRESH, ops), m)
  {
    if ops != [] {
      StateIsAsAsked(ops[..|ops| - 1], m);
      NextIsAsAsked(ops, Run(FRESH, ops[..|ops| - 1]), m);
    }
  }

  lemma {:induction false} NextIsAsAsked(ops: seq<Op>, st: State, m: nat)
    requires ops != [] && IsAsAsked(ops[..|ops| - 1], st, m)
    ensures IsAsAsked(ops, Apply(st, ops[|ops| - 1]), m)
  {
    var earlier := ops[..|ops| - 1];
    match ops[|ops| - 1] {
      case SendReport => NoKeyIsDown(KeysAfter(earlier));
      case ClearOneshotLayerState(_) =>
      case EnableOneshot(_) =>
      case _ =>
    }
  }

  /** In every run, a modifier is in the report made last if and only if it is an overriding one, or is not
      suppressed and was added and not deleted since, or is weak, or queued; and the keys are those set. */
  lemma {:induction false} ReportedExactlyWhen(ops: seq<Op>, m: nat)
    ensures var report := Run(FRESH, ops + [SendReport]).lastReport;
      && (m in report.mods <==>
            || m in OverridesAfter(ops).0
            || (m !in OverridesAfter(ops).1 && (HeldAfter(ops, m) || m in WeakAfter(ops) || QueuedAfter(ops, m))))
      && report.keys == KeysAfter(ops)
  {
    StateIsAsAsked(ops, m);
    assert (ops + [SendReport])[..|ops|] == ops;
  }

  lemma {:induction false} StaysHeld(before: seq<Op>, mods: Mask, after: seq<Op>, m: nat)
    requires m in mods && forall i | 0 <= i < |after| :: !(after[i].DelMods? && m in after[i].mods)
    ensures HeldAfter(before + [AddMods(mods)] + after, m)
  {
    var ops := before + [AddMods(mods)] + after;
    if after != [] {
      var earlier := after[..|after| - 1];
      assert ops[..|ops| - 1] == before + [AddMods(mods)] + earlier;
      assert ops[|ops| - 1] == after[|after| - 1];
      StaysHeld(before, mods, earlier, m);
    }
  }

  /** A modifier once added is in every report until it is deleted, unless it is suppressed then. */
  lemma {:induction false} HeldIsReported(before: seq<Op>, mods: Mask, after: seq<Op>, m: nat)
    requires m in mods && forall i | 0 <= i < |after| :: !(after[i].DelMods? && m in after[i].mods)
    requires m !in OverridesAfter(before + [AddMods(mods)] + after).1
    ensures m in Run(FRESH, before + [AddMods(mods)] + after + [SendReport]).lastReport.mods
  {
    StaysHeld(before, mods, after, m);
    ReportedExactlyWhen(before + [AddMods(mods)] + after, m);
  }

  // ---------------------------------------------------------------------- one-shot layer

  /** The state bits an operation clears; switching one-shot keys on or off counts as another key. */
  function Clears(enabled: bool, op: Op): Mask {
    if op.ClearOneshotLayerState? then op.state
    else if op.EnableOneshot? && op.active != enabled then OTHER_KEY_PRESSED
    else {}
  }

  /** The state bits cleared by the operations, one-shot keys being enabled before them. */
  function Cleared(ops: seq<Op>): Mask {
    if ops == [] then {}
    else
      var earlier := ops[..|ops| - 1];
      Cleared(earlier) + Clears(EnabledAfter(true, earlier), ops[|ops| - 1])
  }

  /** The `i`-th operation clears the last of the state bits. */
  ghost predicate LastBitAt(state: Mask, ops: seq<Op>, i: nat) {
    i < |ops| && !(state <= Cleared(ops[..i])) && state <= Cleared(ops[..i + 1])
  }

  /** The last of the state bits is cleared, and one-shot keys are enabled then. */
  ghost predicate SwitchedOff(state: Mask, ops: seq<Op>) {
    exists i: nat :: LastBitAt(state, ops, i) && EnabledAfter(true, ops[..i + 1])
  }

  lemma {:induction false} ClearedGrows(ops: seq<Op>, i: nat, j: nat)
    requires i <= j <= |ops|
    ensures Cleared(ops[..i]) <= Cleared(ops[..j])
  {
    if i < j {
      ClearedGrows(ops, i, j - 1);
      assert ops[..j][..j - 1] == ops[..j - 1];
    }
  }

  lemma {:induction false} OneLastBit(state: Mask, ops: seq<Op>, i: nat, j: nat)
    requires LastBitAt(state, ops, i) && LastBitAt(state, ops, j)
    ensures i == j
  {
    if i < j { ClearedGrows(ops, i + 1, j); }
    if j < i { ClearedGrows(ops, j + 1, i); }
  }

  /** One more operation switches the layer off exactly when it clears the last bit, enabled. */
  lemma {:induction false} SwitchedOffOneMore(state: Mask, earlier: seq<Op>, op: Op)
    ensures var ops := earlier + [op];
      && Cleared(ops) == Cleared(earlier) + Clears(EnabledAfter(true, earlier), op)
      && EnabledAfter(true, ops) == (if op.EnableOneshot? then op.active else EnabledAfter(true, earlier))
      && (SwitchedOff(state, ops) <==>
            (SwitchedOff(state, earlier)
             || (!(state <= Cleared(earlier)) && state <= Cleared(ops) && EnabledAfter(true, ops))))
  {
    var ops := earlier + [op];
    assert ops[..|earlier|] == earlier && ops[..|earlier| + 1] == ops;
    forall i: nat | i <= |earlier| ensures ops[..i] == earlier[..i] {}
    if SwitchedOff(state, earlier) {
      var i: nat :| LastBitAt(state, earlier, i) && EnabledAfter(true, earlier[..i + 1]);
      assert LastBitAt(state, ops, i);
    }
    if SwitchedOff(state, ops) {
      var i: nat :| LastBitAt(state, ops, i) && EnabledAfter(true, ops[..i + 1]);
      if i < |earlier| { assert LastBitAt(state, earlier, i); }
    } else if !(state <= Cleared(earlier)) && state <= Cleared(ops) {
      assert LastBitAt(state, ops, |earlier|);
    }
  }

  lemma {:induction false} SwitchedOffIsCleared(state: Mask, ops: seq<Op>)
    requires SwitchedOff(state, ops)
    ensures state <= Cleared(ops)
  {
    var i: nat :| LastBitAt(state, ops, i) && EnabledAfter(true, ops[..i + 1]);
    ClearedGrows(ops, i + 1, |ops|);
    assert ops[..|ops|] == ops;
  }

  lemma {:induction false} NothingLeft(a: Mask, b: Mask)
    ensures a <= b <==> a - b == {}
  {
    if !(a <= b) {
      var x :| x in a && x !in b;
      assert x in a - b;
    }
    if a - b == {} {
      forall x | x in a ensures x in b { assert x !in a - b; }
    }
  }

  /** What is left of a one-shot layer: its remaining bits, nothing once it is switched off, or
      its number without bits once they are gone and it was not. */
  function Pending(layer: nat, state: Mask, cleared: Mask, off: bool): OneshotLayer {
    if off then NONE else OneshotLayer(layer, state - cleared)
  }

  function OffOps(layer: nat, off: bool): seq<LayerOp> { if off then [LayerOff(layer)] else [] }

  /** One clearing of state bits, `done` being cleared already. */
  lemma {:induction false} ClearOnce(st: State, log: seq<LayerOp>, layer: nat, state: Mask, done: Mask, more: Mask,
                                     off: bool)
    requires state != {} && (off ==> state <= done)
    requires st.layerOps == log + OffOps(layer, off) && st.oneshotLayer == Pending(layer, state, done, off)
    ensures var off' := off || (!(state <= done) && state <= done + more && st.enabled);
      var now := AfterClearLayer(st, more);
      && now.layerOps == log + OffOps(layer, off') && now.oneshotLayer == Pending(layer, state, done + more, off')
      && now.enabled == st.enabled
  {
    NothingLeft(state, done);
    NothingLeft(state, done + more);
    if off {
      assert {} - more == {};
    } else {
      assert state - done - more == state - (done + more);
      assert log + [] == log;
    }
  }

  /** A one-shot layer is switched off at most once, and exactly when one-shot keys are enabled at
      the operation that clears the last of its state bits, whatever is enabled or disabled in between. */
  lemma {:induction false} LayerOffExactlyOnce(st: State, layer: nat, state: Mask, ops: seq<Op>)
    requires st.enabled && layer < 0x20 && state != {}
    requires forall i | 0 <= i < |ops| :: !ops[i].SetOneshotLayer?
    ensures var now := Run(Apply(st, SetOneshotLayer(layer, state)), ops);
      && now.enabled == EnabledAfter(true, ops)
      && now.layerOps == st.layerOps + [LayerOn(layer)] + OffOps(layer, SwitchedOff(state, ops))
      && now.oneshotLayer == Pending(layer, state, Cleared(ops), SwitchedOff(state, ops))
  {
    var log := st.layerOps + [LayerOn(layer)];
    if ops == [] {
      assert state - {} == state && log + [] == log;
      assert !SwitchedOff(state, []);
    } else {
      var earlier, op := ops[..|ops| - 1], ops[|ops| - 1];
      LayerOffExactlyOnce(st, layer, state, earlier);
      assert earlier + [op] == ops && !op.SetOneshotLayer?;
      SwitchedOffOneMore(state, earlier, op);
      if SwitchedOff(state, earlier) { SwitchedOffIsCleared(state, earlier); }
      AfterOneMore(Run(Apply(st, SetOneshotLayer(layer, state)), earlier), log, layer, state, earlier, op);
    }
  }

  lemma {:induction false} AfterOneMore(st: State, log: seq<LayerOp>, layer: nat, state: Mask, earlier: seq<Op>, op: Op)
    requires state != {} && !op.SetOneshotLayer? && st.enabled == EnabledAfter(true, earlier)
    requires SwitchedOff(state, earlier) ==> state <= Cleared(earlier)
    requires st.layerOps == log + OffOps(layer, SwitchedOff(state, earlier))
    requires st.oneshotLayer == Pending(layer, state, Cleared(earlier), SwitchedOff(state, earlier))
    ensures var now, more := Apply(st, op), Clears(st.enabled, op);
      var off := SwitchedOff(state, earlier)
                 || (!(state <= Cleared(earlier)) && state <= Cleared(earlier) + more && now.enabled);
      && now.layerOps == log + OffOps(layer, off)
        && now.oneshotLayer == Pending(layer, state, Cleared(earlier) + more, off)
      && now.enabled == if op.EnableOneshot? then op.active else st.enabled
  {
    var more := Clears(st.enabled, op);
    if op.ClearOneshotLayerState? || (op.EnableOneshot? && op.active != st.enabled) {
      ClearOnce(if op.EnableOneshot? then st.(enabled := op.active) else st,
                log, layer, state, Cleared(earlier), more, SwitchedOff(state, earlier));
    } else {
      assert Cleared(earlier) + {} == Cleared(earlier);
    }
  }

  /** Cleared for good by the `i`-th operation, the layer is switched off, then or at any later time,
      exactly when one-shot keys are enabled at that operation. */
  lemma {:induction false} DisabledLeavesLayerOn(st: State, layer: nat, state: Mask, ops: seq<Op>, i: nat)
    requires st.enabled && layer < 0x20 && state != {} && LastBitAt(state, ops, i)
    requires forall k | 0 <= k < |ops| :: !ops[k].SetOneshotLayer?
    ensures Run(Apply(st, SetOneshotLayer(layer, state)), ops).layerOps
         == st.layerOps + [LayerOn(layer)] + OffOps(layer, EnabledAfter(true, ops[..i + 1]))
  {
    LayerOffExactlyOnce(st, layer, state, ops);
    if SwitchedOff(state, ops) {
      var k: nat :| LastBitAt(state, ops, k) && EnabledAfter(true, ops[..k + 1]);
      OneLastBit(state, ops, i, k);
    }
  }

  // ------------------------------------------------------- the two bits of a one-shot key

  /** The `i`-th operation is the first to clear the bit. */
  ghost predicate FirstClears(ops: seq<Op>, bit: nat, i: nat) {
    i < |ops| && bit !in Cleared(ops[..i]) && bit in Cleared(ops[..i + 1])
  }

  function Later(i: nat, j: nat): nat { if i < j then j else i }

  /** Release and other key have come, one-shot keys being enabled at the later of the two. */
  ghost predicate BothInTime(ops: seq<Op>) {
    exists i: nat, j: nat :: BothEnabledAt(ops, i, j)
  }

  ghost predicate BothEnabledAt(ops: seq<Op>, i: nat, j: nat) {
    FirstClears(ops, 0, i) && FirstClears(ops, 1, j) && EnabledAfter(true, ops[..Later(i, j) + 1])
  }

  lemma {:induction false} SwitchedOffExactlyWhen(ops: seq<Op>)
    ensures SwitchedOff(START, ops) <==> BothInTime(ops)
  {
    if i: nat, j: nat :| BothEnabledAt(ops, i, j) {
      BothBits(ops, i, j);
    }
    if SwitchedOff(START, ops) {
      var k: nat :| LastBitAt(START, ops, k) && EnabledAfter(true, ops[..k + 1]);
      var i := FirstClearing(ops, 0, k + 1);
      var j := FirstClearing(ops, 1, k + 1);
      BothBits(ops, i, j);
      OneLastBit(START, ops, Later(i, j), k);
      assert BothEnabledAt(ops, i, j);
    }
  }

  /** The usual case: the layer is switched off exactly when both the release and another key have
      come, in either order, and one-shot keys are enabled at the later of the two. */
  lemma {:induction false} EitherOrderSwitchesOff(st: State, layer: nat, ops: seq<Op>)
    requires st.enabled && layer < 0x20
    requires forall i | 0 <= i < |ops| :: !ops[i].SetOneshotLayer?
    ensures Run(Apply(st, SetOneshotLayer(layer, START)), ops).layerOps
         == st.layerOps + [LayerOn(layer)] + OffOps(layer, BothInTime(ops))
  {
    LayerOffExactlyOnce(st, layer, START, ops);
    SwitchedOffExactlyWhen(ops);
  }

  lemma {:induction false} BothBits(ops: seq<Op>, i: nat, j: nat)
    requires FirstClears(ops, 0, i) && FirstClears(ops, 1, j)
    ensures LastBitAt(START, ops, Later(i, j))
  {
    var k := Later(i, j);
    ClearedGrows(ops, i + 1, k + 1);
    ClearedGrows(ops, j + 1, k + 1);
    assert 0 in START && 1 in START;
  }

  lemma {:induction false} FirstClearing(ops: seq<Op>, bit: nat, n: nat) returns (i: nat)
    requires n <= |ops| && bit in Cleared(ops[..n])
    ensures i < n && FirstClears(ops, bit, i)
  {
    assert ops[..0] == [];
    i := n - 1;
    if bit in Cleared(ops[..i]) { i := FirstClearing(ops, bit, i); }
  }

  /** The key released, one-shot keys switched off and on again: switching off was the other key,
      while disabled, and the layer stays on whatever is cleared later. */
  lemma {:induction false} ALayerIsStuck(st: State)
    requires st.enabled
    ensures var ops :=
      [ClearOneshotLayerState(PRESSED), EnableOneshot(false), EnableOneshot(true), ClearOneshotLayerState(START)];
      var now := Run(Apply(st, SetOneshotLayer(3, START)), ops);
      now.enabled && now.layerOps == st.layerOps + [LayerOn(3)]
  {
    var st0 := Apply(st, SetOneshotLayer(3, START));
    var ops := [ClearOneshotLayerState(PRESSED), EnableOneshot(false), EnableOneshot(true),
      ClearOneshotLayerState(START)];
    assert ops[..4] == ops && ops[..4][..3] == ops[..3] && ops[..3][..2] == ops[..2] && ops[..2][..1] == ops[..1];
    assert ops[..1][..0] == [] && Run(st0, []) == st0;
    assert START - PRESSED == OTHER_KEY_PRESSED && OTHER_KEY_PRESSED - OTHER_KEY_PRESSED == {};
    assert Run(st0, ops[..1]).oneshotLayer == OneshotLayer(3, OTHER_KEY_PRESSED);
    assert Run(st0, ops[..2]).oneshotLayer == OneshotLayer(3, {});
  }

  /** Switched off and on again before the release, the release switches the layer off. */
  lemma {:induction false} DisabledMeanwhile(st: State)
    requires st.enabled
    ensures var ops := [EnableOneshot(false), EnableOneshot(true), ClearOneshotLayerState(PRESSED)];
      Run(Apply(st, SetOneshotLayer(3, START)), ops).layerOps == st.layerOps + [LayerOn(3), LayerOff(3)]
  {
    var st0 := Apply(st, SetOneshotLayer(3, START));
    var ops := [EnableOneshot(false), EnableOneshot(true), ClearOneshotLayerState(PRESSED)];
    assert ops[..3] == ops && ops[..3][..2] == ops[..2] && ops[..2][..1] == ops[..1];
    assert ops[..1][..0] == [] && Run(st0, []) == st0;
    assert START - OTHER_KEY_PRESSED == PRESSED && PRESSED - OTHER_KEY_PRESSED == PRESSED && PRESSED - PRESSED == {};
    assert Run(st0, ops[..1]).oneshotLayer == OneshotLayer(3, PRESSED);
    assert Run(st0, ops[..2]).oneshotLayer == OneshotLayer(3, PRESSED);
    assert st.layerOps + [LayerOn(3)] + [LayerOff(3)] == st.layerOps + [LayerOn(3), LayerOff(3)];
  }
}
