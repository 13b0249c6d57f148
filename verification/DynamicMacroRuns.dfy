/** What is played is what was recorded, over any run (quantum/dynamic_macro.h:77-260). */
module DynamicMacroRuns {
  import opened KeyEvents
  import opened DynamicMacro

  // --------------------------------------------------------------- what gets recorded

  function DropLeadingReleases(rs: seq<Record>): seq<Record> {
    if rs == [] || rs[0].IsPress() then rs else DropLeadingReleases(rs[1..])
  }

  function Take(rs: seq<Record>, n: nat): (t: seq<Record>)
    ensures |t| <= n && t <= rs
  {
    if |rs| <= n then rs else rs[..n]
  }

  /** Recording the records of a run, one after the other. */
  function Recorded(taken: seq<Record>, capacity: nat, rs: seq<Record>): seq<Record>
    decreases |rs|
  {
    if rs == [] then taken else Recorded(Record1(taken, capacity, rs[0]), capacity, rs[1..])
  }

  lemma {:induction false} RecordedOn(taken: seq<Record>, capacity: nat, rs: seq<Record>)
    requires taken != [] && |taken| <= capacity
    ensures Recorded(taken, capacity, rs) == Take(taken + rs, capacity)
    decreases |rs|
  {
    if rs == [] {
      assert taken + rs == taken;
    } else if |taken| < capacity {
      RecordedOn(taken + [rs[0]], capacity, rs[1..]);
      assert taken + [rs[0]] + rs[1..] == taken + rs;
    } else {
      RecordedOn(taken, capacity, rs[1..]);
      assert Take(taken + rs[1..], capacity) == taken == Take(taken + rs, capacity);
    }
  }

  /** Recording keeps what follows the leading releases, as far as it fits. */
  lemma {:induction false} RecordedIsPrefix(capacity: nat, rs: seq<Record>)
    ensures Recorded([], capacity, rs) == Take(DropLeadingReleases(rs), capacity)
    decreases |rs|
  {
    if rs == [] {
    } else if !rs[0].IsPress() {
      RecordedIsPrefix(capacity, rs[1..]);
    } else if capacity == 0 {
      NoRoom(rs);
    } else {
      RecordedOn([rs[0]], capacity, rs[1..]);
      assert [] + [rs[0]] == [rs[0]] && [rs[0]] + rs[1..] == rs;
    }
  }

  lemma {:induction false} NoRoom(rs: seq<Record>)
    ensures Recorded([], 0, rs) == []
    decreases |rs|
  {
    if rs != [] { NoRoom(rs[1..]); }
  }

  predicate EndsWithRelease(m: seq<Record>) { m == [] || !m[|m| - 1].IsPress() }
  predicate StartsWithPress(m: seq<Record>) { m == [] || m[0].IsPress() }

  /** Trimming keeps the longest prefix that is empty or ends with a release. */
  lemma {:induction false} TrimIsLongest(taken: seq<Record>)
    ensures Trim(taken) <= taken && EndsWithRelease(Trim(taken))
    ensures forall k | |Trim(taken)| < k <= |taken| :: !EndsWithRelease(taken[..k])
  {
    if taken != [] && taken[|taken| - 1].IsPress() {
      var shorter := taken[..|taken| - 1];
      TrimIsLongest(shorter);
      forall k | |Trim(taken)| < k <= |taken| ensures !EndsWithRelease(taken[..k]) {
        if k <= |shorter| { assert taken[..k] == shorter[..k]; } else { assert taken[..k] == taken; }
      }
    }
  }

  // ------------------------------------------------------------------------------ runs

  function Run(size: nat, st: State, inputs: seq<Input>): State {
    if inputs == [] then st else Process(size, Run(size, st, inputs[..|inputs| - 1]), inputs[|inputs| - 1]).state
  }

  /** A saved macro: empty, or from a press to a release. */
  predicate Saved(m: seq<Record>) { StartsWithPress(m) && EndsWithRelease(m) }

  predicate Healthy(size: nat, st: State) {
    match st
    case Idle(one, two) => Saved(one) && Saved(two) && |one| + |two| <= size
    case Recording(_, taken, other) => StartsWithPress(taken) && Saved(other) && |taken| + |other| <= size
  }

  lemma {:induction false} StopStaysHealthy(size: nat, st: State)
    requires Healthy(size, st) && st.Recording?
    ensures Healthy(size, Stopped(st))
  {
    TrimIsLongest(st.taken);
  }

  lemma {:induction false} StepStaysHealthy(size: nat, st: State, input: Input)
    requires Healthy(size, st)
    ensures Healthy(size, Process(size, st, input).state)
  {
    if st.Recording? { StopStaysHealthy(size, st); }
  }

  /** Macros saved are empty or go from a press to a release, and all there is fits in the
      buffer, in every run. */
  lemma {:induction false} AlwaysHealthy(size: nat, st: State, inputs: seq<Input>)
    requires Healthy(size, st)
    ensures Healthy(size, Run(size, st, inputs))
  {
    if inputs != [] {
      var before := Run(size, st, inputs[..|inputs| - 1]);
      AlwaysHealthy(size, st, inputs[..|inputs| - 1]);
      StepStaysHealthy(size, before, inputs[|inputs| - 1]);
    }
  }

  predicate IsStart(which: Which, i: Input)
  {
    !i.record.IsPress() && i.keycode == if which == One then Start1 else Start2
  }
  predicate IsStop(i: Input) { i.record.IsPress() && i.keycode == Stop }
  predicate IsPlay(which: Which, i: Input) { !i.record.IsPress() && i.keycode == if which == One then Play1 else Play2 }

  /** The records of the inputs that are recorded: all but stop and play keys. */
  function Keys(inputs: seq<Input>): seq<Record> {
    if inputs == [] then []
    else
      var last := inputs[|inputs| - 1];
      Keys(inputs[..|inputs| - 1])
      + if last.keycode == Stop || last.keycode == Play1 || last.keycode == Play2 then [] else [last.record]
  }

  lemma {:induction false} RecordedAppend(taken: seq<Record>, capacity: nat, rs: seq<Record>, r: Record)
    ensures Recorded(taken, capacity, rs + [r]) == Record1(Recorded(taken, capacity, rs), capacity, r)
    decreases |rs|
  {
    if rs == [] {
      assert rs + [r] == [r];
      assert [r][1..] == [];
    } else {
      assert (rs + [r])[1..] == rs[1..] + [r];
      RecordedAppend(Record1(taken, capacity, rs[0]), capacity, rs[1..], r);
    }
  }

  /** Until it is stopped, a recording takes in every key. */
  lemma {:induction false} RecordingGoesOn(size: nat, which: Which, other: seq<Record>, inputs: seq<Input>)
    requires forall i | 0 <= i < |inputs| :: !IsStop(inputs[i])
    ensures Run(size, Recording(which, [], other), inputs)
      == Recording(which, Recorded([], Room(size, other), Keys(inputs)), other)
  {
    if inputs != [] {
      var earlier, last := inputs[..|inputs| - 1], inputs[|inputs| - 1];
      RecordingGoesOn(size, which, other, earlier);
      RecordedAppend([], Room(size, other), Keys(earlier), last.record);
      assert Keys(earlier) + [] == Keys(earlier);
      assert !IsStop(last);
    }
  }

  function MacroOf(st: State, which: Which): seq<Record>
    requires st.Idle? || st.which != which
  {
    match st
    case Idle(one, two) => if which == One then one else two
    case Recording(_, _, other) => other
  }

  /** As long as a macro is not recorded anew, it stays as it is. */
  lemma {:induction false} MacroKept(size: nat, st: State, which: Which, inputs: seq<Input>)
    requires st.Idle? || st.which != which
    requires forall i | 0 <= i < |inputs| :: !IsStart(which, inputs[i])
    ensures var st' := Run(size, st, inputs);
      (st'.Idle? || st'.which != which) && MacroOf(st', which) == MacroOf(st, which)
  {
    if inputs != [] {
      MacroKept(size, st, which, inputs[..|inputs| - 1]);
      assert !IsStart(which, inputs[|inputs| - 1]);
    }
  }

  lemma {:induction false} RunConcat(size: nat, st: State, a: seq<Input>, b: seq<Input>)
    ensures Run(size, st, a + b) == Run(size, Run(size, st, a), b)
    decreases |b|
  {
    if b == [] {
      assert a + b == a;
    } else {
      assert (a + b)[..|a + b| - 1] == a + b[..|b| - 1];
      RunConcat(size, st, a, b[..|b| - 1]);
    }
  }

  /** The macro that a recording session saves. */
  function Session(size: nat, other: seq<Record>, middle: seq<Input>): seq<Record> {
    Trim(Take(DropLeadingReleases(Keys(middle)), Room(size, other)))
  }

  /** A recording, from its start to the first stop, saves exactly the keys in between that
      fit, without releases at the front and presses at the end; the other macro is untouched. */
  lemma {:induction false} RecordingSaves(size: nat, st: State, which: Which, start: Input, middle: seq<Input>,
                                          stop: Input)
    requires st.Idle? && IsStart(which, start) && IsStop(stop)
    requires forall i | 0 <= i < |middle| :: !IsStop(middle[i])
    ensures var st' := Run(size, st, [start] + middle + [stop]);
      var other := MacroOf(st, if which == One then Two else One);
      st'.Idle? && MacroOf(st', which) == Session(size, other, middle)
      && MacroOf(st', if which == One then Two else One) == other
  {
    var other := MacroOf(st, if which == One then Two else One);
    assert Run(size, st, [start]) == Recording(which, [], other) by { assert [start][..0] == []; }
    RunConcat(size, st, [start], middle);
    RunConcat(size, st, [start] + middle, [stop]);
    RecordingGoesOn(size, which, other, middle);
    RecordedIsPrefix(Room(size, other), Keys(middle));
    assert [stop][..0] == [];
  }

  /** Recorded, then anything but a new recording of the same macro, then played: what is
      played is what was recorded. */
  lemma {:induction false} PlaysWhatWasRecorded(size: nat, st: State, which: Which, start: Input, middle: seq<Input>,
                                                stop: Input,
                                               later: seq<Input>, play: Input)
    requires st.Idle? && IsStart(which, start) && IsStop(stop) && IsPlay(which, play)
    requires forall i | 0 <= i < |middle| :: !IsStop(middle[i])
    requires forall i | 0 <= i < |later| :: !IsStart(which, later[i])
    requires Run(size, st, [start] + middle + [stop] + later).Idle?
    ensures Process(size, Run(size, st, [start] + middle + [stop] + later), play).played
         == Session(size, MacroOf(st, if which == One then Two else One), middle)
  {
    RecordingSaves(size, st, which, start, middle, stop);
    RunConcat(size, st, [start] + middle + [stop], later);
    MacroKept(size, Run(size, st, [start] + middle + [stop]), which, later);
  }

  /** A key goes on to be handled as usual unless it starts a recording or plays a macro by its release, or,
      during a recording, is a stop or play key; and only the release of a play key plays. */
  lemma {:induction false} PassedOnExactlyWhen(size: nat, st: State, input: Input)
    ensures var o := Process(size, st, input);
      && (o.pass <==>
            if st.Recording? then input.keycode !in {Stop, Play1, Play2}
            else input.record.event.pressed || input.keycode !in {Start1, Start2, Play1, Play2})
      && (o.played != [] ==> st.Idle? && !input.record.event.pressed && input.keycode in {Play1, Play2})
  {
  }
}
