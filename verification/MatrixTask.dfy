/** Scanning the matrix for changes (quantum/keyboard.c:507-560). */
module MatrixTask {
  import opened Ghosts
  import opened Sequences

  datatype Change = Change(row: nat, col: nat, pressed: bool)

  /** The changes of a row from column `col` on, `now` and `was` being what is left of the row. */
  function RowChanges(row: nat, now: nat, was: nat, col: nat, cols: nat): seq<Change>
    requires col <= cols
    decreases cols - col
  {
    if col == cols then []
    else (if now % 2 != was % 2 then [Change(row, col, now % 2 == 1)] else [])
         + RowChanges(row, now / 2, was / 2, col + 1, cols)
  }

  /** Whether the scan takes over a row. */
  predicate TakesOver(k: Matrix, m: seq<nat>, previous: seq<nat>, row: nat)
    requires row < |m| && |previous| == |m|
  {
    m[row] != previous[row] && !HasGhost(k, m, row)
  }

  /** The scan calls generate_tick_event. */
  predicate AsksForTick(canRead: bool, m: seq<nat>, previous: seq<nat>) { !canRead || m == previous }

  /** The matrix that is remembered after a scan of the first `n` rows. */
  function Remembered(k: Matrix, m: seq<nat>, previous: seq<nat>, n: nat): (p: seq<nat>)
    requires |previous| == |m| && n <= |m|
    ensures |p| == |m|
  {
    seq(|m|, row requires 0 <= row < |m| => if row < n && TakesOver(k, m, previous, row) then m[row] else previous[row])
  }

  /** The changes reported by a scan of the first `n` rows. */
  function Reported(k: Matrix, m: seq<nat>, previous: seq<nat>, n: nat): seq<Change>
    requires |previous| == |m| && n <= |m|
  {
    if n == 0 then []
    else Reported(k, m, previous, n - 1)
         + if TakesOver(k, m, previous, n - 1) then RowChanges(n - 1, m[n - 1], previous[n - 1], 0, k.cols) else []
  }

  /** The changes that are acted upon. */
  function Acted(processKeypress: bool, reported: seq<Change>): seq<Change> {
    if processKeypress then reported else []
  }

  datatype Scan = Scan(canRead: bool, m: seq<nat>, processKeypress: bool)

  /** The remembered matrix, all changes, the changes acted upon, and how often a tick was asked for. */
  datatype State = State(previous: seq<nat>, changes: seq<Change>, executed: seq<Change>, ticks: nat)

  /** matrix_task on one scan. */
  function AfterScan(k: Matrix, st: State, s: Scan): State
    requires |st.previous| == k.rows && |s.m| == k.rows
  {
    var ticks := if AsksForTick(s.canRead, s.m, st.previous) then st.ticks + 1 else st.ticks;
    if !s.canRead then st.(ticks := ticks)
    else
      var reported := Reported(k, s.m, st.previous, k.rows);
      State(Remembered(k, s.m, st.previous, k.rows), st.changes + reported,
            st.executed + if s.processKeypress then reported else [], ticks)
  }

  lemma {:induction false} ActedOn(processKeypress: bool, before: seq<Change>, acted: seq<Change>, done: seq<Change>,
                                  more: seq<Change>)
    ensures before + done + more == before + (done + more)
    ensures acted + Acted(processKeypress, done) + Acted(processKeypress, more)
         == acted + Acted(processKeypress, done + more)
  {
    Reassociate(before, done, more);
    Reassociate(acted, done, more);
    assert acted + [] + [] == acted + [];
  }

  /** A row is judged as if no row before it had been taken over. */
  lemma {:induction false} RememberedNext(k: Matrix, m: seq<nat>, previous: seq<nat>, n: nat)
    requires |previous| == |m| && n < |m|
    ensures var now := Remembered(k, m, previous, n);
      && now[n] == previous[n] && (TakesOver(k, m, now, n) <==> TakesOver(k, m, previous, n))
      && Remembered(k, m, previous, n + 1) == now[n := if TakesOver(k, m, previous, n) then m[n] else previous[n]]
  {
  }

  /** The changes reported of one row. */
  function RowReported(k: Matrix, m: seq<nat>, previous: seq<nat>, row: nat): (more: seq<Change>)
    requires |previous| == |m| && row < |m|
    ensures Reported(k, m, previous, row + 1) == Reported(k, m, previous, row) + more
  {
    if TakesOver(k, m, previous, row) then RowChanges(row, m[row], previous[row], 0, k.cols) else []
  }

  class Scanner {
    const matrix: Matrix
    const matrixPrevious: array<nat>
    /** Every change seen, and those passed on to be acted upon. */
    var changes: seq<Change>
    var executed: seq<Change>
    /** How often generate_tick_event was called. */
    var tickCalls: nat

    ghost predicate Valid()
      reads this
    {
      matrix.Valid() && matrixPrevious.Length == matrix.rows
    }

    ghost function Value(): State
      reads this, matrixPrevious
    {
      State(matrixPrevious[..], changes, executed, tickCalls)
    }

    constructor (matrix: Matrix)
      requires matrix.Valid()
      ensures Valid() && fresh(matrixPrevious) && this.matrix == matrix
      ensures matrixPrevious[..] == seq(matrix.rows, _ => 0) && changes == [] && executed == [] && tickCalls == 0
    {
      this.matrix := matrix;
      matrixPrevious := new nat[matrix.rows](_ => 0);
      changes, executed, tickCalls := [], [], 0;
    }

    /** matrix_task on the scanned matrix `m`. */
    method Task(canRead: bool, m: seq<nat>, processKeypress: bool) returns (matrixChanged: bool)
      requires Valid() && |m| == matrix.rows
      modifies this, matrixPrevious
      ensures Valid() && Value() == AfterScan(matrix, old(Value()), Scan(canRead, m, processKeypress))
      ensures matrixPrevious[..] == if canRead then Remembered(matrix, m, old(matrixPrevious[..]), |m|)
        else old(matrixPrevious[..])
      ensures var reported := if canRead then Reported(matrix, m, old(matrixPrevious[..]), |m|) else [];
        && changes == old(changes) + reported
        && executed == old(executed) + if processKeypress then reported else []
      ensures matrixChanged == (canRead && m != old(matrixPrevious[..]))
      ensures tickCalls == old(tickCalls) + if !canRead || m == old(matrixPrevious[..]) then 1 else 0
    {
      assert changes + [] == changes && executed + [] == executed;
      if !canRead {
        tickCalls := tickCalls + 1;
        return false;
      }
      ghost var previous := matrixPrevious[..];
      matrixChanged := false;
      var row := 0;
      while row < matrix.rows && !matrixChanged
        invariant 0 <= row <= matrix.rows
        invariant !matrixChanged ==> m[..row] == previous[..row]
        invariant matrixChanged ==> m != previous
        invariant matrixPrevious[..] == previous && changes == old(changes) && executed == old(executed)
        invariant tickCalls == old(tickCalls)
      {
        matrixChanged := matrixPrevious[row] != m[row];
        row := row + 1;
      }
      if !matrixChanged {
        assert m == previous;
        NothingReported(matrix, m, |m|);
        tickCalls := tickCalls + 1;
        return;
      }
      ScanRows(m, processKeypress);
    }

    /** One turn of the loop, `previous` being the matrix that was remembered before it. */
    method ScanRow(m: seq<nat>, row: nat, processKeypress: bool, ghost previous: seq<nat>)
      requires Valid() && row < |m| == matrix.rows && |previous| == |m|
      requires matrixPrevious[..] == Remembered(matrix, m, previous, row)
      modifies this`changes, this`executed, matrixPrevious
      ensures matrixPrevious[..] == Remembered(matrix, m, previous, row + 1)
      ensures changes == old(changes) + RowReported(matrix, m, previous, row)
      ensures executed == old(executed) + Acted(processKeypress, RowReported(matrix, m, previous, row))
    {
      RememberedNext(matrix, m, previous, row);
      assert changes + [] == changes && executed + [] == executed;
      var currentRow := m[row];
      assert matrixPrevious[row] == matrixPrevious[..][row];
      if currentRow != matrixPrevious[row] {
        var ghosted := HasGhostInRow(matrix, m, row);
        if !ghosted {
          ReportRow(row, currentRow, processKeypress);
          matrixPrevious[row] := currentRow;
        }
      }
    }

    method ScanRows(m: seq<nat>, processKeypress: bool)
      requires Valid() && |m| == matrix.rows
      modifies this`changes, this`executed, matrixPrevious
      ensures Valid() && matrixPrevious[..] == Remembered(matrix, m, old(matrixPrevious[..]), |m|)
      ensures var reported := Reported(matrix, m, old(matrixPrevious[..]), |m|);
        && changes == old(changes) + reported
        && executed == old(executed) + Acted(processKeypress, reported)
    {
      ghost var previous, before, acted := matrixPrevious[..], changes, executed;
      ghost var reported := Reported(matrix, m, previous, 0);
      assert changes + [] == changes && executed + [] == executed && Remembered(matrix, m, previous, 0) == previous;
      var row := 0;
      while row < matrix.rows
        invariant 0 <= row <= matrix.rows && reported == Reported(matrix, m, previous, row)
        invariant matrixPrevious[..] == Remembered(matrix, m, previous, row)
        invariant changes == before + reported && executed == acted + Acted(processKeypress, reported)
      {
        ghost var more := RowReported(matrix, m, previous, row);
        ScanRow(m, row, processKeypress, previous);
        ActedOn(processKeypress, before, acted, reported, more);
        reported := reported + more;
        row := row + 1;
      }
    }

    method ReportRow(row: nat, now: nat, processKeypress: bool)
      requires Valid() && row < matrix.rows
      modifies this`changes, this`executed
      ensures var reported := RowChanges(row, now, matrixPrevious[row], 0, matrix.cols);
        && changes == old(changes) + reported
        && executed == old(executed) + Acted(processKeypress, reported)
    {
      var was := matrixPrevious[row];
      var col, nowRest, wasRest := 0, now, was;
      ghost var done: seq<Change> := [];
      assert changes + [] == changes && executed + [] == executed
        && [] + RowChanges(row, now, was, 0, matrix.cols) == RowChanges(row, now, was, 0, matrix.cols);
      while col < matrix.cols
        invariant 0 <= col <= matrix.cols
        invariant RowChanges(row, now, was, 0, matrix.cols)
          == done + RowChanges(row, nowRest, wasRest, col, matrix.cols)
        invariant changes == old(changes) + done
        invariant executed == old(executed) + if processKeypress then done else []
      {
        var keyPressed := nowRest % 2 == 1;
        ghost var rest := RowChanges(row, nowRest / 2, wasRest / 2, col + 1, matrix.cols);
        if nowRest % 2 != wasRest % 2 {
          var change := Change(row, col, keyPressed);
          OneMoreChange(old(changes), done, change, rest);
          OneMoreChange(old(executed), done, change, rest);
          if processKeypress { executed := executed + [change]; }
          changes := changes + [change];
          done := done + [change];
        } else {
          assert [] + rest == rest;
        }
        col, nowRest, wasRest := col + 1, nowRest / 2, wasRest / 2;
      }
      assert done + [] == done;
    }

    lemma {:induction false} OneMoreChange(log: seq<Change>, done: seq<Change>, c: Change, rest: seq<Change>)
      ensures log + done + [c] == log + (done + [c]) && done + ([c] + rest) == done + [c] + rest
    {
    }
  }

  lemma {:induction false} NothingReported(k: Matrix, m: seq<nat>, n: nat)
    requires n <= |m|
    ensures Reported(k, m, m, n) == [] && Remembered(k, m, m, n) == m
  {
    if n > 0 { NothingReported(k, m, n - 1); }
  }
}
