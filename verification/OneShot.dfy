/** Modifiers, one-shot modifiers, the one-shot layer and the keyboard report
    (quantum/action_util.c), with time-outs off. */
module OneShot {

  /** Modifier masks and one-shot layer states are sets of bits. */
  type Mask = set<nat>

  const PRESSED: Mask := {0}
  const OTHER_KEY_PRESSED: Mask := {1}
  const START: Mask := {0, 1}

  datatype Report = Report(mods: Mask, keys: seq<nat>)

  predicate HasAnyKey(keys: seq<nat>) { exists i | 0 <= i < |keys| :: keys[i] != 0 }

  /** oneshot_layer_data: five bits of layer, three of state. */
  datatype OneshotLayer = OneshotLayer(layer: nat, state: Mask)

  const NONE: OneshotLayer := OneshotLayer(0, {})

  datatype LayerOp = LayerOn(layer: nat) | LayerOff(layer: nat)

  /** `sent` is what went to the host, `layerOps` what was asked of the layers. */
  datatype State = State(held: Mask, weak: Mask, weakOverride: Mask, suppressed: Mask, keys: seq<nat>,
                         oneshot: Mask, oneshotLayer: OneshotLayer, enabled: bool,
                         lastReport: Report, sent: seq<Report>, layerOps: seq<LayerOp>)

  datatype Op =
    | AddMods(mods: Mask)
    | DelMods(mods: Mask)
    | SetWeakMods(mods: Mask)
    | SetOverrides(weakOverride: Mask, suppressed: Mask)
    | SetKeys(keys: seq<nat>)
    | SetOneshotMods(mods: Mask)
    | AddOneshotMods(mods: Mask)
    | DelOneshotMods(mods: Mask)
    | ClearOneshotMods
    | SendReport
    | SetOneshotLayer(layer: nat, state: Mask)
    | ClearOneshotLayerState(state: Mask)
    | EnableOneshot(active: bool)

  /** What send_keyboard_report puts into the report. */
  function Current(st: State): Report {
    Report((st.held + st.weak + st.oneshot - st.suppressed) + st.weakOverride, st.keys)
  }

  function AfterSend(st: State): State {
    var report := Current(st);
    var st1 := if HasAnyKey(st.keys) then st.(oneshot := {}) else st;
    if report != st.lastReport then st1.(lastReport := report, sent := st.sent + [report]) else st1
  }

  function AfterClearLayer(st: State, state: Mask): State {
    var left := st.oneshotLayer.(state := st.oneshotLayer.state - state);
    if left.state == {} && left != st.oneshotLayer && st.enabled
    then st.(oneshotLayer := NONE, layerOps := st.layerOps + [LayerOff(left.layer)])
    else st.(oneshotLayer := left)
  }

  function Apply(st: State, op: Op): State {
    match op
    case AddMods(mods) => st.(held := st.held + mods)
    case DelMods(mods) => st.(held := st.held - mods)
    case SetWeakMods(mods) => st.(weak := mods)
    case SetOverrides(weakOverride, suppressed) => st.(weakOverride := weakOverride, suppressed := suppressed)
    case SetKeys(keys) => st.(keys := keys)
    case SetOneshotMods(mods) => if st.enabled then st.(oneshot := mods) else st
    case AddOneshotMods(mods) => st.(oneshot := st.oneshot + mods)
    case DelOneshotMods(mods) => st.(oneshot := st.oneshot - mods)
    case ClearOneshotMods => st.(oneshot := {})
    case SendReport => AfterSend(st)
    case SetOneshotLayer(layer, state) =>
      var st1 := st.(layerOps := st.layerOps + [LayerOn(layer)]);
      if st.enabled then st1.(oneshotLayer := OneshotLayer(layer % 0x20, state)) else st1
    case ClearOneshotLayerState(state) => AfterClearLayer(st, state)
    case EnableOneshot(active) =>
      if active != st.enabled then AfterClearLayer(st.(enabled := active), OTHER_KEY_PRESSED) else st
  }

  lemma {:induction false} DisjointMasks(a: Mask, b: Mask)
    requires a * b == {}
    ensures a - b == a
  {
    forall x | x in a ensures x !in b { assert x !in a * b; }
  }

  lemma {:induction false} AfterSendIs(st: State, report: Report)
    requires report == Current(st)
    ensures Apply(st, SendReport) == st.(oneshot := if HasAnyKey(st.keys) then {} else st.oneshot, lastReport := report,
      sent := st.sent + if report != st.lastReport then [report] else [])
  {
    assert st.sent + [] == st.sent;
  }

  /** The modifiers of a report, bit by bit; without one-shot modifiers the union is left out. */
  lemma {:induction false} ReportBits(held: Mask, weak: Mask, oneshot: Mask, suppressed: Mask, weakOverride: Mask,
                                      mods: Mask)
    requires mods == (if oneshot != {} then held + weak + oneshot else held + weak) - suppressed + weakOverride
    ensures mods == (held + weak + oneshot - suppressed) + weakOverride
    ensures forall m :: m in mods <==>
      m in weakOverride || (m !in suppressed && (m in held || m in weak || m in oneshot))
  {
    assert oneshot == {} ==> held + weak + oneshot == held + weak;
  }

  class Util {
    var realMods: Mask
    var weakMods: Mask
    var weakOverrideMods: Mask
    var suppressedMods: Mask
    var keyboardReport: Report
    var oneshotMods: Mask
    var oneshotLayerData: OneshotLayer
    var oneshotEnable: bool
    var lastReport: Report
    var sent: seq<Report>
    var layerOps: seq<LayerOp>

    ghost function Value(): State
      reads this
    {
      State(realMods, weakMods, weakOverrideMods, suppressedMods, keyboardReport.keys, oneshotMods, oneshotLayerData,
            oneshotEnable, lastReport, sent, layerOps)
    }

    constructor ()
      ensures Value() == State({}, {}, {}, {}, [], {}, NONE, true, Report({}, []), [], [])
    {
      realMods, weakMods, weakOverrideMods, suppressedMods, oneshotMods := {}, {}, {}, {}, {};
      keyboardReport, lastReport := Report({}, []), Report({}, []);
      oneshotLayerData, oneshotEnable, sent, layerOps := NONE, true, [], [];
    }

    method AddOneshotMods(mods: Mask)
      modifies this`oneshotMods
      ensures Value() == Apply(old(Value()), Op.AddOneshotMods(mods))
    {
      if oneshotMods * mods != mods {
        oneshotMods := oneshotMods + mods;
      } else {
        assert oneshotMods + mods == oneshotMods;
      }
    }

    method DelOneshotMods(mods: Mask)
      modifies this`oneshotMods
      ensures Value() == Apply(old(Value()), Op.DelOneshotMods(mods))
    {
      if oneshotMods * mods != {} {
        oneshotMods := oneshotMods - mods;
      } else {
        DisjointMasks(oneshotMods, mods);
      }
    }

    method SetOneshotMods(mods: Mask)
      modifies this`oneshotMods
      ensures Value() == Apply(old(Value()), Op.SetOneshotMods(mods))
    {
      if oneshotEnable {
        if oneshotMods != mods { oneshotMods := mods; }
      }
    }

    method ClearOneshotMods()
      modifies this`oneshotMods
      ensures Value() == Apply(old(Value()), Op.ClearOneshotMods)
    {
      if oneshotMods != {} { oneshotMods := {}; }
    }

    method SendKeyboardReport()
      modifies this`keyboardReport, this`oneshotMods, this`lastReport, this`sent
      ensures Value() == Apply(old(Value()), SendReport)
      ensures forall m :: m in keyboardReport.mods <==>
        || m in old(weakOverrideMods)
        || (m !in old(suppressedMods) && (m in old(realMods) || m in old(weakMods) || m in old(oneshotMods)))
      ensures keyboardReport.keys == old(keyboardReport.keys) && lastReport == keyboardReport
    {
      keyboardReport := keyboardReport.(mods := realMods);
      keyboardReport := keyboardReport.(mods := keyboardReport.mods + weakMods);
      if oneshotMods != {} {
        keyboardReport := keyboardReport.(mods := keyboardReport.mods + oneshotMods);
        if HasAnyKey(keyboardReport.keys) { ClearOneshotMods(); }
      }
      keyboardReport := keyboardReport.(mods := keyboardReport.mods - suppressedMods);
      keyboardReport := keyboardReport.(mods := keyboardReport.mods + weakOverrideMods);
      ReportBits(realMods, weakMods, old(oneshotMods), suppressedMods, weakOverrideMods, keyboardReport.mods);
      Propagate();
      AfterSendIs(old(Value()), keyboardReport);
    }

    /** Only a report that differs from the last goes to the host. */
    method Propagate()
      modifies this`lastReport, this`sent
      ensures lastReport == keyboardReport
      ensures sent == old(sent) + if keyboardReport != old(lastReport) then [keyboardReport] else []
    {
      assert sent + [] == sent;
      if keyboardReport != lastReport {
        lastReport := keyboardReport;
        sent := sent + [keyboardReport];
      }
    }

    method SetOneshotLayer(layer: nat, state: Mask)
      modifies this`oneshotLayerData, this`layerOps
      ensures Value() == Apply(old(Value()), Op.SetOneshotLayer(layer, state))
      ensures layerOps == old(layerOps) + [LayerOn(layer)]
      ensures oneshotLayerData == if oneshotEnable then OneshotLayer(layer % 32, state) else old(oneshotLayerData)
    {
      if oneshotEnable {
        oneshotLayerData := OneshotLayer(layer % 0x20, state);
        layerOps := layerOps + [LayerOn(layer)];
      } else {
        layerOps := layerOps + [LayerOn(layer)];
      }
    }

    method ResetOneshotLayer()
      modifies this`oneshotLayerData
      ensures oneshotLayerData == NONE
    {
      oneshotLayerData := NONE;
    }

    method ClearOneshotLayerState(state: Mask)
      modifies this`oneshotLayerData, this`layerOps
      ensures Value() == Apply(old(Value()), Op.ClearOneshotLayerState(state))
    {
      var startState := oneshotLayerData;
      oneshotLayerData := oneshotLayerData.(state := oneshotLayerData.state - state);
      if oneshotLayerData.state == {} && startState != oneshotLayerData && oneshotEnable {
        layerOps := layerOps + [LayerOff(oneshotLayerData.layer)];
        ResetOneshotLayer();
      }
    }

    method OneshotSet(active: bool)
      modifies this`oneshotEnable, this`oneshotLayerData, this`layerOps
      ensures Value() == Apply(old(Value()), EnableOneshot(active))
    {
      if oneshotEnable != active {
        oneshotEnable := active;
        ClearOneshotLayerState(OTHER_KEY_PRESSED);
      }
    }
  }
}
