/** What the reported changes add up to, over any run of scans (quantum/keyboard.c:507-560). */
module MatrixRuns {
  import opened Arithmetic
  import opened Ghosts
  import opened MatrixTask

  /** Whether a key is down after the changes: what the last change of it said. */
  predicate Down(changes: seq<Change>, row: nat, col: nat) {
    if changes == [] then false
    else
      var last := changes[|changes| - 1];
      if last.row == row && last.col == col then last.pressed else Down(changes[..|changes| - 1], row, col)
  }

  lemma {:induction false} DownOne(before: seq<Change>, c: Change, row: nat, col: nat)
    ensures Down(before + [c], row, col) == if c.row == row && c.col == col then c.pressed else Down(before, row, col)
  {
    assert (before + [c])[..|before|] == before;
  }

  /** Every change turns a key from one state to the other. */
  predicate Alternates(before: seq<Change>, more: seq<Change>) {
    forall i | 0 <= i < |more| :: more[i].pressed != Down(before + more[..i], more[i].row, more[i].col)
  }

  lemma {:induction false} AlternatesFirst(before: seq<Change>, c: Change, rest: seq<Change>)
    requires c.pressed != Down(before, c.row, c.col) && Alternates(before + [c], rest)
    ensures Alternates(before, [c] + rest)
  {
    var more := [c] + rest;
    forall i | 0 <= i < |more| ensures more[i].pressed != Down(before + more[..i], more[i].row, more[i].col) {
      if i == 0 { assert before + more[..0] == before; }
      else { assert before + more[..i] == before + [c] + rest[..i - 1]; }
    }
  }

  lemma {:induction false} AlternatesConcat(before: seq<Change>, a: seq<Change>, b: seq<Change>)
    requires Alternates(before, a) && Alternates(before + a, b)
    ensures Alternates(before, a + b)
  {
    var more := a + b;
    forall i | 0 <= i < |more| ensures more[i].pressed != Down(before + more[..i], more[i].row, more[i].col) {
      if i < |a| { assert more[..i] == a[..i]; }
      else { assert before + more[..i] == before + a + b[..i - |a|]; }
    }
  }

  lemma {:induction false} HigherBits(x: nat, col: nat, c: nat)
    requires col < c
    ensures Bit(x, c - col) == Bit(x / 2, c - (col + 1))
  {
  }

  /** The changes of a row bring each of its keys to where it is now, and no other key. */
  lemma {:induction false} RowFolds(before: seq<Change>, row: nat, now: nat, was: nat, col: nat, cols: nat, r: nat,
                                    c: nat)
    requires col <= cols
    ensures Down(before + RowChanges(row, now, was, col, cols), r, c)
         == if r == row && col <= c < cols && Bit(now, c - col) != Bit(was, c - col)
            then Bit(now, c - col) else Down(before, r, c)
    decreases cols - col
  {
    if col == cols {
      assert before + [] == before;
    } else {
      var rest := RowChanges(row, now / 2, was / 2, col + 1, cols);
      if col < c { HigherBits(now, col, c); HigherBits(was, col, c); }
      if now % 2 != was % 2 {
        var change := Change(row, col, now % 2 == 1);
        RowFolds(before + [change], row, now / 2, was / 2, col + 1, cols, r, c);
        FoldOne(before, change, rest, r, c);
      } else {
        assert [] + rest == rest;
        RowFolds(before, row, now / 2, was / 2, col + 1, cols, r, c);
      }
    }
  }

  lemma {:induction false} FoldOne(before: seq<Change>, change: Change, rest: seq<Change>, r: nat, c: nat)
    ensures Down(before + ([change] + rest), r, c) == Down(before + [change] + rest, r, c)
    ensures Down(before + [change], r, c)
         == if change.row == r && change.col == c then change.pressed else Down(before, r, c)
  {
    assert before + ([change] + rest) == before + [change] + rest;
    DownOne(before, change, r, c);
  }

  lemma {:induction false} RowAlternates(before: seq<Change>, row: nat, now: nat, was: nat, col: nat, cols: nat)
    requires col <= cols && forall c: nat | col <= c < cols :: Down(before, row, c) == Bit(was, c - col)
    ensures Alternates(before, RowChanges(row, now, was, col, cols))
    decreases cols - col
  {
    if col < cols {
      var rest := RowChanges(row, now / 2, was / 2, col + 1, cols);
      forall c: nat | col + 1 <= c < cols
        ensures Down(before, row, c) == Bit(was / 2, c - col - 1)
      {
        assert Bit(was, c - col) == Bit(was / 2, c - col - 1);
      }
      assert Down(before, row, col) == Bit(was, 0);
      if now % 2 != was % 2 {
        var change := Change(row, col, now % 2 == 1);
        forall c: nat | col + 1 <= c < cols
          ensures Down(before + [change], row, c) == Bit(was / 2, c - col - 1)
        {
          DownOne(before, change, row, c);
        }
        RowAlternates(before + [change], row, now / 2, was / 2, col + 1, cols);
        AlternatesFirst(before, change, rest);
      } else {
        RowAlternates(before, row, now / 2, was / 2, col + 1, cols);
        assert [] + rest == rest;
      }
    }
  }

  /** The remembered matrix is what the changes say. */
  predicate Agrees(k: Matrix, changes: seq<Change>, previous: seq<nat>) {
    |previous| == k.rows && forall row, col | 0 <= row < k.rows && 0 <= col < k.cols ::
      Bit(previous[row], col) == Down(changes, row, col)
  }

  /** One more row of a scan keeps the agreement. */
  lemma {:induction false} RowKeepsAgreement(k: Matrix, before: seq<Change>, p: seq<nat>, row: nat, now: nat)
    requires Agrees(k, before, p) && row < k.rows
    ensures var more := RowChanges(row, now, p[row], 0, k.cols);
      Agrees(k, before + more, p[row := now]) && Alternates(before, more)
  {
    var more := RowChanges(row, now, p[row], 0, k.cols);
    forall r, c | 0 <= r < k.rows && 0 <= c < k.cols ensures Bit(p[row := now][r], c) == Down(before + more, r, c) {
      RowFolds(before, row, now, p[row], 0, k.cols, r, c);
    }
    forall c: nat | 0 <= c < k.cols
      ensures Down(before, row, c) == Bit(p[row], c - 0)
    {
      assert Bit(p[row], c) == Down(before, row, c);
    }
    RowAlternates(before, row, now, p[row], 0, k.cols);
  }

  lemma {:induction false} ScanKeepsAgreement(k: Matrix, before: seq<Change>, m: seq<nat>, previous: seq<nat>, n: nat)
    requires Agrees(k, before, previous) && |m| == k.rows && n <= k.rows
    ensures Agrees(k, before + Reported(k, m, previous, n), Remembered(k, m, previous, n))
    ensures Alternates(before, Reported(k, m, previous, n))
  {
    if n == 0 {
      assert before + [] == before && Remembered(k, m, previous, 0) == previous;
    } else {
      ScanKeepsAgreement(k, before, m, previous, n - 1);
      var done, p := Reported(k, m, previous, n - 1), Remembered(k, m, previous, n - 1);
      RememberedOne(k, m, previous, n);
      if TakesOver(k, m, previous, n - 1) {
        OneMoreRow(k, before, done, p, n - 1, m[n - 1]);
      } else {
        assert done + [] == done;
      }
    }
  }

  lemma {:induction false} RememberedOne(k: Matrix, m: seq<nat>, previous: seq<nat>, n: nat)
    requires |previous| == |m| && 0 < n <= |m|
    ensures var p := Remembered(k, m, previous, n - 1);
      p[n - 1] == previous[n - 1]
      && Remembered(k, m, previous, n) == if TakesOver(k, m, previous, n - 1) then p[n - 1 := m[n - 1]] else p
  {
  }

  lemma {:induction false} OneMoreRow(k: Matrix, before: seq<Change>, done: seq<Change>, p: seq<nat>, row: nat,
                                      now: nat)
    requires Agrees(k, before + done, p) && Alternates(before, done) && row < k.rows
    ensures var more := RowChanges(row, now, p[row], 0, k.cols);
      Agrees(k, before + (done + more), p[row := now]) && Alternates(before, done + more)
  {
    var more := RowChanges(row, now, p[row], 0, k.cols);
    RowKeepsAgreement(k, before + done, p, row, now);
    assert before + done + more == before + (done + more);
    AlternatesConcat(before, done, more);
  }

  // ---------------------------------------------------------------------------- runs

  predicate ValidRun(k: Matrix, scans: seq<Scan>) { forall i | 0 <= i < |scans| :: |scans[i].m| == k.rows }

  function Run(k: Matrix, scans: seq<Scan>): (st: State)
    requires ValidRun(k, scans)
    ensures |st.previous| == k.rows
  {
    if scans == [] then State(seq(k.rows, _ => 0), [], [], 0)
    else AfterScan(k, Run(k, scans[..|scans| - 1]), scans[|scans| - 1])
  }

  /** In every run the changes add up to the remembered matrix, each of them turning its key
      over; and all of them are acted upon as long as key processing is on. */
  lemma {:induction false} ChangesAddUp(k: Matrix, scans: seq<Scan>)
    requires ValidRun(k, scans)
    ensures var st := Run(k, scans);
      && Agrees(k, st.changes, st.previous) && Alternates([], st.changes)
      && ((forall i | 0 <= i < |scans| :: scans[i].processKeypress) ==> st.executed == st.changes)
  {
    if scans == [] {
      forall row, col | 0 <= row < k.rows && 0 <= col < k.cols
        ensures Bit(seq<nat>(k.rows, _ => 0)[row], col) == Down([], row, col) { ZeroBits(col); }
    } else {
      var earlier, s := scans[..|scans| - 1], scans[|scans| - 1];
      ChangesAddUp(k, earlier);
      var st := Run(k, earlier);
      if s.canRead {
        ScanKeepsAgreement(k, st.changes, s.m, st.previous, k.rows);
        assert [] + st.changes == st.changes;
        AlternatesConcat([], st.changes, Reported(k, s.m, st.previous, k.rows));
      }
    }
  }

  /** After a scan, every row without a ghost stands as it was scanned, and a row with a ghost
      as it stood before: a change is withheld as long as the ghost lasts, and not lost. */
  lemma {:induction false} WithheldNotLost(k: Matrix, scans: seq<Scan>, row: nat, col: nat)
    requires ValidRun(k, scans) && scans != [] && scans[|scans| - 1].canRead && row < k.rows && col < k.cols
    ensures var m := scans[|scans| - 1].m;
      Down(Run(k, scans).changes, row, col)
      == if HasGhost(k, m, row) then Down(Run(k, scans[..|scans| - 1]).changes, row, col) else Bit(m[row], col)
  {
    var earlier, m := scans[..|scans| - 1], scans[|scans| - 1].m;
    ChangesAddUp(k, scans);
    ChangesAddUp(k, earlier);
    var before, st := Run(k, earlier), Run(k, scans);
    assert st.previous[row] == if TakesOver(k, m, before.previous, row) then m[row] else before.previous[row];
    assert Bit(st.previous[row], col) == Down(st.changes, row, col);
    assert Bit(before.previous[row], col) == Down(before.changes, row, col);
  }

  /** Scans in which a row with a ghost stays as it is. */
  predicate KeepGhost(k: Matrix, more: seq<Scan>, row: nat, bits: nat)
    requires ValidRun(k, more) && row < k.rows
  {
    forall i | 0 <= i < |more| :: more[i].canRead && more[i].m[row] == bits && HasGhost(k, more[i].m, row)
  }

  /** A scan leaves a row with a ghost behind. */
  lemma {:induction false} ScanLeavesBehind(k: Matrix, st: State, s: Scan, row: nat)
    requires |st.previous| == k.rows && |s.m| == k.rows && row < k.rows && HasGhost(k, s.m, row)
    ensures AfterScan(k, st, s).previous[row] == st.previous[row]
  {
    assert !TakesOver(k, s.m, st.previous, row);
  }

  /** The state after more scans. */
  function RunOn(k: Matrix, st: State, more: seq<Scan>): (st': State)
    requires ValidRun(k, more) && |st.previous| == k.rows
    ensures |st'.previous| == k.rows
  {
    if more == [] then st else AfterScan(k, RunOn(k, st, more[..|more| - 1]), more[|more| - 1])
  }

  lemma {:induction false} RowStaysBehind(k: Matrix, st: State, more: seq<Scan>, row: nat, bits: nat)
    requires ValidRun(k, more) && |st.previous| == k.rows && row < k.rows && KeepGhost(k, more, row, bits)
    ensures RunOn(k, st, more).previous[row] == st.previous[row]
  {
    if more != [] {
      var earlier, s := more[..|more| - 1], more[|more| - 1];
      RowStaysBehind(k, st, earlier, row, bits);
      ScanLeavesBehind(k, RunOn(k, st, earlier), s, row);
    }
  }

  /** As long as a ghost withholds a change, no scan asks for a tick: the clock that drives tapping terms
      stands still. */
  lemma {:induction false} NoTicksWhileWithheld(k: Matrix, st: State, more: seq<Scan>, row: nat, bits: nat, i: nat)
    requires ValidRun(k, more) && |st.previous| == k.rows && row < k.rows && st.previous[row] != bits
    requires KeepGhost(k, more, row, bits) && i < |more|
    ensures !AsksForTick(more[i].canRead, more[i].m, RunOn(k, st, more[..i]).previous)
  {
    RowStaysBehind(k, st, more[..i], row, bits);
  }

  /** No row has a ghost. */
  predicate GhostFree(k: Matrix, m: seq<nat>)
    requires |m| == k.rows
  {
    forall row | 0 <= row < k.rows :: !HasGhost(k, m, row)
  }

  /** Every scan asks for at most one tick.  One that asks for none finds a row that differs from what is
      remembered, and every such row has a ghost or is taken over. */
  lemma {:induction false} TickUnlessSomethingDiffers(k: Matrix, st: State, s: Scan)
    requires |st.previous| == k.rows && |s.m| == k.rows
    ensures var st' := AfterScan(k, st, s);
      && st.ticks <= st'.ticks <= st.ticks + 1
      && (st'.ticks == st.ticks ==>
            && s.canRead && (exists row :: 0 <= row < k.rows && s.m[row] != st.previous[row])
            && forall row | 0 <= row < k.rows ::
                 if HasGhost(k, s.m, row) then st'.previous[row] == st.previous[row] else st'.previous[row] == s.m[row])
  {
    if forall row | 0 <= row < k.rows :: s.m[row] == st.previous[row] { assert s.m == st.previous; }
  }

  /** Of two scans in a row of the same matrix without ghosts the second asks for a tick. */
  lemma {:induction false} SecondScanTicks(k: Matrix, st: State, first: Scan, second: Scan)
    requires |st.previous| == k.rows && first.canRead && |first.m| == k.rows && GhostFree(k, first.m)
    requires second.m == first.m
    ensures var st1 := AfterScan(k, st, first); AfterScan(k, st1, second).ticks == st1.ticks + 1
  {
    assert Remembered(k, first.m, st.previous, k.rows) == first.m;
  }

  /** So a matrix that stays as it is, without ghosts, gets a tick with every scan after the first. */
  lemma {:induction false} StillMatrixTicks(k: Matrix, st: State, more: seq<Scan>, m: seq<nat>)
    requires |st.previous| == k.rows == |m| && GhostFree(k, m) && more != [] && more[0].canRead
    requires forall i | 0 <= i < |more| :: more[i].m == m
    ensures RunOn(k, st, more).ticks >= st.ticks + |more| - 1
    ensures RunOn(k, st, more).previous == m
  {
    var earlier, s := more[..|more| - 1], more[|more| - 1];
    if earlier == [] {
      assert more == [s];
      TickUnlessSomethingDiffers(k, st, s);
    } else {
      StillMatrixTicks(k, st, earlier, m);
    }
    assert AfterScan(k, RunOn(k, st, earlier), s).previous == m;
  }
}
