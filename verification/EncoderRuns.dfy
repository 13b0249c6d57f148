/** What the steps of an encoder add up to (quantum/encoder.c:60, 189-292). */
module EncoderRuns {
  import opened Arithmetic
  import opened Encoder

  // ------------------------------------------------------- pulses and steps are conserved

  /** One encoder over a run of pin readings: the net number of steps, and the pulses they
      are worth. */
  datatype Track = Track(enc: Enc, steps: int, worth: int)

  function Worth(resolution: nat, steps: int): int {
    if steps > 0 then resolution else if steps < 0 then -(resolution as int) else 0
  }

  function Run(e: Enc, resolution: nat, pins: seq<Status>): Track
    requires 0 < resolution < 0x100
  {
    if pins == [] then Track(e, 0, 0)
    else After(Run(e, resolution, pins[..|pins| - 1]), resolution, pins[|pins| - 1])
  }

  function After(t: Track, resolution: nat, now: Status): Track
    requires 0 < resolution < 0x100
  {
    var r := Read(t.enc, resolution, now);
    Track(r.enc, t.steps + r.steps, t.worth + Worth(resolution, r.steps))
  }

  /** The sum of the table's entries over the run, from a last status on. */
  function Pulses(from: Status, pins: seq<Status>): int {
    if pins == [] then 0
    else Pulses(from, pins[..|pins| - 1]) + Lut(LastStatus(from, pins[..|pins| - 1]), pins[|pins| - 1])
  }

  function LastStatus(from: Status, pins: seq<Status>): Status {
    if pins == [] then from else pins[|pins| - 1]
  }

  function StatusOf(e: Enc): Status { e.state % 4 }

  lemma {:induction false} NoChangeNoPulse(s: Status)
    ensures Lut(s, s) == 0
  {
  }

  lemma {:induction false} ShiftedStatus(state: uint8, now: Status)
    ensures Shifted(state, now) % 4 == now && LutOf(Shifted(state, now)) == Lut(state % 4, now)
  {
    var low: nat := state as int % 0x40;
    TopBitsLost(state);
    LowFour(low, now);
    LowTwo(state);
    assert Shifted(state, now) == low * 4 + now;
  }

  lemma {:induction false} LowTwo(s: nat)
    ensures s % 0x40 % 4 == s % 4
  {
  }

  lemma {:induction false} LowFour(s: nat, now: nat)
    requires now < 4
    ensures (s * 4 + now) % 4 == now && (s * 4 + now) % 0x10 == s % 4 * 4 + now
  {
    assert s == s / 4 * 4 + s % 4;
    assert s * 4 + now == s / 4 * 0x10 + (s % 4 * 4 + now);
  }

  lemma {:induction false} TopBitsLost(s: int)
    ensures s * 4 % 0x100 == s % 0x40 * 4
  {
    assert s == s / 0x40 * 0x40 + s % 0x40;
  }

  /** What one pulse does, with room for it. */
  lemma {:induction false} PulseConserves(pulses: int, resolution: nat, lut: int)
    requires 0 < resolution < 0x80 && -(resolution as int) < pulses < resolution && -1 <= lut <= 1
    ensures WrapI8(pulses + lut) == pulses + lut && -0x80 <= Remainder(pulses + lut, resolution) < 0x80
    ensures Remainder(pulses + lut, resolution)
         == if pulses + lut == resolution || pulses + lut == -(resolution as int) then 0 else pulses + lut
  {
    var p := pulses + lut;
    Unique(resolution, resolution, 1, 0);
    if 0 <= p < resolution { SmallMod(p, resolution); }
    if -(resolution as int) < p < 0 { SmallMod(-p, resolution); }
  }

  lemma {:induction false} UpdateConserves(e: Enc, resolution: nat, state: uint8)
    requires 0 < resolution < 0x80 && -(resolution as int) < e.pulses < resolution && -1 <= LutOf(state) <= 1
    ensures var r := Update(e, resolution, state);
      && -1 <= r.steps <= 1 && Worth(resolution, r.steps) + r.enc.pulses == e.pulses + LutOf(state)
      && -(resolution as int) < r.enc.pulses < resolution && r.enc.state == state
      && r.enc.value == WrapU8(e.value as int + r.steps)
  {
    PulseConserves(e.pulses, resolution, LutOf(state));
  }

  /** What one reading does to the pulses, as a sum. */
  lemma {:induction false} ReadConserves(e: Enc, resolution: nat, now: Status)
    requires 0 < resolution < 0x80 && -(resolution as int) < e.pulses < resolution
    ensures var r := Read(e, resolution, now);
      && StatusOf(r.enc) == now && -1 <= r.steps <= 1
      && Worth(resolution, r.steps) + r.enc.pulses == e.pulses + Lut(StatusOf(e), now)
      && -(resolution as int) < r.enc.pulses < resolution
      && r.enc.value == WrapU8(e.value as int + r.steps)
  {
    ShiftedStatus(e.state, now);
    NoChangeNoPulse(now);
    WrapTwice(e.value, 0);
    if e.state % 4 != now { UpdateConserves(e, resolution, Shifted(e.state, now)); }
  }

  lemma {:induction false} WrapTwice(v: int, s: int)
    ensures WrapU8(WrapU8(v) as int + s) == WrapU8(v + s)
  {
  }

  lemma {:induction false} WrapKept(v: uint8)
    ensures WrapU8(v) == v
  {
  }

  /** So far the steps, and the pulses left over, are what the table added up to. */
  predicate Conserved(t: Track, resolution: nat, value: uint8, last: Status, sum: int) {
    && StatusOf(t.enc) == last && t.worth + t.enc.pulses == sum
    && -(resolution as int) < t.enc.pulses < resolution
    && t.enc.value == WrapU8(value as int + t.steps)
  }

  lemma {:induction false} OneMoreReading(t: Track, resolution: nat, value: uint8, last: Status, sum: int, now: Status)
    requires 0 < resolution < 0x80 && Conserved(t, resolution, value, last, sum)
    ensures Conserved(After(t, resolution, now), resolution, value, now, sum + Lut(last, now))
  {
    ReadConserves(t.enc, resolution, now);
    WrapTwice(value as int + t.steps, Read(t.enc, resolution, now).steps);
  }

  lemma {:induction false} RunIsConserved(e: Enc, resolution: nat, pins: seq<Status>)
    requires 0 < resolution < 0x80 && -(resolution as int) < e.pulses < resolution
    ensures Conserved(Run(e, resolution, pins), resolution, e.value, LastStatus(StatusOf(e), pins),
                      e.pulses + Pulses(StatusOf(e), pins))
  {
    if pins == [] {
      WrapKept(e.value);
    } else {
      var earlier, now := pins[..|pins| - 1], pins[|pins| - 1];
      RunIsConserved(e, resolution, earlier);
      OneMoreReading(Run(e, resolution, earlier), resolution, e.value, LastStatus(StatusOf(e), earlier),
                     e.pulses + Pulses(StatusOf(e), earlier), now);
    }
  }

  lemma {:induction false} OneMoreWorth(m: int, n: int, s: int)
    requires -1 <= s <= 1
    ensures m * (n + s) == m * n + if s > 0 then m else if s < 0 then -m else 0
  {
  }

  lemma {:induction false} WorthOfRun(e: Enc, resolution: nat, pins: seq<Status>)
    requires 0 < resolution < 0x80 && -(resolution as int) < e.pulses < resolution
    ensures Run(e, resolution, pins).worth == resolution * Run(e, resolution, pins).steps
  {
    if pins != [] {
      var earlier, now := pins[..|pins| - 1], pins[|pins| - 1];
      WorthOfRun(e, resolution, earlier);
      RunIsConserved(e, resolution, earlier);
      var t := Run(e, resolution, earlier);
      ReadConserves(t.enc, resolution, now);
      OneMoreWorth(resolution, t.steps, Read(t.enc, resolution, now).steps);
    }
  }

  /** Over any run, steps times resolution, and the pulses left over, are what the table
      added up to; less than a step is left over, and the 8-bit value counts the steps. */
  lemma {:induction false} PulsesAreConserved(e: Enc, resolution: nat, pins: seq<Status>)
    requires 0 < resolution < 0x80 && -(resolution as int) < e.pulses < resolution
    ensures var t := Run(e, resolution, pins);
      && resolution * t.steps + t.enc.pulses == e.pulses + Pulses(StatusOf(e), pins)
      && -(resolution as int) < t.enc.pulses < resolution
      && t.enc.value == WrapU8(e.value as int + t.steps)
  {
    RunIsConserved(e, resolution, pins);
    WorthOfRun(e, resolution, pins);
  }

  /** With any finer resolution the 128th pulse upward wraps, and the sum is lost: a
      resolution below 128 is exactly what conservation takes. */
  lemma {:induction false} TooFineAResolution(resolution: nat, value: uint8, state: uint8, now: Status)
    requires 0x80 <= resolution < 0x100 && state % 4 != now && Lut(state % 4, now) == 1
    ensures var r := Read(Enc(state, 0x7F, value), resolution, now);
      Worth(resolution, r.steps) + r.enc.pulses != 0x7F + 1
  {
    ShiftedStatus(state, now);
    assert WrapI8(0x80) == -0x80;
    if resolution > 0x80 { SmallMod(0x80, resolution); } else { Unique(0x80, 0x80, 1, 0); }
  }

  // ------------------------------------------------------------------------ Gray code

  /** The position of a status in the cycle of a turning encoder. */
  function Position(s: Status): (p: int)
    ensures 0 <= p < 4
  {
    if s == 0 then 0 else if s == 2 then 1 else if s == 3 then 2 else 3
  }

  /** Both pins change: a status was missed. */
  predicate BothChange(was: Status, now: Status) { was + now == 3 }

  lemma {:induction false} LutIsDisplacement(was: Status, now: Status)
    ensures (Lut(was, now) + (if BothChange(was, now) then 2 else 0) - (Position(now) - Position(was))) % 4 == 0
  {
  }

  function Missed(from: Status, pins: seq<Status>): nat {
    if pins == [] then 0
    else
      Missed(from, pins[..|pins| - 1])
      + if BothChange(LastStatus(from, pins[..|pins| - 1]), pins[|pins| - 1]) then 1 else 0
  }

  lemma {:induction false} BothAreCycles(a: int, b: int)
    requires a % 4 == 0 && b % 4 == 0
    ensures (a + b) % 4 == 0
  {
  }

  lemma {:induction false} PulsesAndMissed(from: Status, pins: seq<Status>)
    ensures (Pulses(from, pins) + 2 * Missed(from, pins) - (Position(LastStatus(from, pins)) - Position(from))) % 4 == 0
  {
    if pins != [] {
      var earlier, now := pins[..|pins| - 1], pins[|pins| - 1];
      var last := LastStatus(from, earlier);
      PulsesAndMissed(from, earlier);
      LutIsDisplacement(last, now);
      BothAreCycles(Pulses(from, earlier) + 2 * Missed(from, earlier) - (Position(last) - Position(from)),
                    Lut(last, now) + (if BothChange(last, now) then 2 else 0) - (Position(now) - Position(last)));
    }
  }

  /** The pulses agree with how far the encoder has turned, modulo a full cycle, exactly when
      an even number of statuses was missed; so always when none was. */
  lemma {:induction false} PulsesFollowTheEncoder(from: Status, pins: seq<Status>)
    ensures (Pulses(from, pins) - (Position(LastStatus(from, pins)) - Position(from))) % 4 == 0
      <==> Missed(from, pins) % 2 == 0
  {
    PulsesAndMissed(from, pins);
  }

  // ---------------------------------------------------------------------- split keyboards

  /** Between two syncs the other half makes `moved` steps. */
  datatype Split = Split(slave: uint8, master: uint8, moved: int, emitted: int)

  /** One sync of an encoder of the other half; see Encoders.UpdateRaw. */
  function Sync(s: Split, d: int): Split {
    var slave := WrapU8(s.slave as int + d);
    Split(slave, slave, s.moved + d, s.emitted + WrapI8(slave as int - s.master))
  }

  function SyncRun(s: Split, moves: seq<int>): Split {
    if moves == [] then s else Sync(SyncRun(s, moves[..|moves| - 1]), moves[|moves| - 1])
  }

  /** A sync emits exactly what the other half moved, exactly when that fits eight bits. */
  lemma {:induction false} SyncExactlyWhenItFits(s: Split, d: int)
    requires s.slave == s.master
    ensures Sync(s, d).slave == Sync(s, d).master
    ensures Sync(s, d).emitted - s.emitted == d <==> -0x80 <= d < 0x80
    ensures (Sync(s, d).emitted - s.emitted - d) % 0x100 == 0
  {
    WrapDifference(s.slave, d);
  }

  lemma {:induction false} WrapDifference(v: uint8, d: int)
    ensures WrapI8(WrapU8(v as int + d) as int - v) == WrapI8(d)
    ensures WrapI8(d) == d <==> -0x80 <= d < 0x80
    ensures (WrapI8(d) - d) % 0x100 == 0
  {
  }

  /** Over any run in which every move fits eight bits, the master emits what the slave moved,
      although both count in eight bits only. */
  lemma {:induction false} MasterFollowsSlave(s: Split, moves: seq<int>)
    requires s.slave == s.master && s.moved == s.emitted
    requires forall i | 0 <= i < |moves| :: -0x80 <= moves[i] < 0x80
    ensures var t := SyncRun(s, moves); t.slave == t.master && t.moved == t.emitted
  {
    if moves != [] {
      MasterFollowsSlave(s, moves[..|moves| - 1]);
      SyncExactlyWhenItFits(SyncRun(s, moves[..|moves| - 1]), moves[|moves| - 1]);
    }
  }

  // ----------------------------------------------------------------- what the log says

  /** The steps of one encoder in a log: those up less those down. */
  function Net(log: seq<Step>, index: nat): int {
    if log == [] then 0
    else
      var last := log[|log| - 1];
      Net(log[..|log| - 1], index) + if last.index != index then 0 else if last.up then 1 else -1
  }

  lemma {:induction false} NetOfSteps(log: seq<Step>, index: nat, n: int, k: nat)
    ensures Net(log + Steps(index, n), k) == Net(log, k) + if k == index then n else 0
    decreases if n < 0 then -n else n
  {
    if n == 0 {
      assert log + [] == log;
    } else {
      var n', s := if n > 0 then n - 1 else n + 1, Step(index, n > 0);
      NetOfSteps(log, index, n', k);
      assert log + (Steps(index, n') + [s]) == log + Steps(index, n') + [s];
      assert (log + Steps(index, n') + [s])[..|log + Steps(index, n')|] == log + Steps(index, n');
    }
  }

  lemma {:induction false} NetAppended(log: seq<Step>, done: seq<Step>, index: nat, n: int, k: nat)
    ensures Net(log + (done + Steps(index, n)), k) == Net(log + done, k) + if k == index then n else 0
  {
    assert log + (done + Steps(index, n)) == log + done + Steps(index, n);
    NetOfSteps(log + done, index, n, k);
  }

  lemma {:induction false} JoinedNet(log: seq<Step>, counts: seq<int>, hand: nat, n: nat, k: nat)
    requires n <= |counts| && k < |counts|
    ensures Net(log + JoinSteps(counts, hand, n), k + hand) == Net(log, k + hand) + if k < n then counts[k] else 0
  {
    if n == 0 {
      assert log + [] == log;
    } else {
      JoinedNet(log, counts, hand, n - 1, k);
      NetAppended(log, JoinSteps(counts, hand, n - 1), n - 1 + hand, counts[n - 1], k + hand);
    }
  }

  /** Catching up makes, for each encoder, the steps its two values are apart. */
  lemma {:induction false} CatchUpIsTheDifference(log: seq<Step>, values: seq<uint8>, slave: seq<uint8>, hand: nat,
                                                  k: nat)
    requires k < |values| == |slave|
    ensures Net(log + JoinSteps(CatchUpCounts(values, slave), hand, |values|), k + hand)
      == Net(log, k + hand) + WrapI8(slave[k] as int - values[k])
  {
    JoinedNet(log, CatchUpCounts(values, slave), hand, |values|, k);
  }

  /** Reading makes, for each encoder, the steps of its own reading. */
  lemma {:induction false} ReadIsTheSteps(log: seq<Step>, encs: seq<Enc>, resolutions: seq<nat>, pins: seq<Status>,
                                          hand: nat, k: nat)
    requires |encs| <= |pins| && |encs| <= |resolutions| && GoodResolutions(resolutions) && k < |encs|
    ensures Net(log + JoinSteps(ReadCounts(encs, resolutions, pins), hand, |encs|), k + hand)
         == Net(log, k + hand) + Read(encs[k], resolutions[k], pins[k]).steps
  {
    JoinedNet(log, ReadCounts(encs, resolutions, pins), hand, |encs|, k);
  }
}
