/** A release agrees with its press over any run (quantum/action_layer.c:232-317). */
module ActionLayerRuns {
  import opened LayerBits
  import opened ActionLayer

  datatype Event =
    | Press(key: Key)
    | Release(key: Key)
    | SetLayers(layers: Bits)
    | SetDefaults(defaults: Bits)
    | DisableCache(disabled: bool)

  predicate ValidEvent(board: Board, e: Event) {
    match e
    case Press(key) => board.Known(key)
    case Release(key) => board.Known(key)
    case SetLayers(layers) => |layers| == board.width
    case SetDefaults(defaults) => |defaults| == board.width
    case DisableCache(_) => true
  }

  predicate ValidRun(board: Board, events: seq<Event>) {
    forall i | 0 <= i < |events| :: ValidEvent(board, events[i])
  }

  predicate IsMatrixKey(board: Board, key: Key) { key.row < board.rows && key.col < board.cols }

  /** A direction of an encoder, in a build with an encoder map. */
  predicate IsEncoderKey(board: Board, key: Key) {
    !IsMatrixKey(board, key) && board.encoders > 0 && (key.row == 252 || key.row == 253)
  }

  /** Keys of the matrix and encoder directions have entries, and no others. */
  lemma {:induction false} EntriesExactlyWhen(board: Board, key: Key)
    ensures board.Slot(key).MatrixSlot? <==> IsMatrixKey(board, key)
    ensures board.Slot(key).EncoderSlot? <==> IsEncoderKey(board, key)
    ensures IsMatrixKey(board, key) ==> board.Slot(key) == MatrixSlot(key.row * board.cols + key.col)
    ensures IsEncoderKey(board, key) ==> board.Slot(key) == EncoderSlot(key.col)
  {
  }

  function Step(board: Board, st: State, e: Event): (st': State)
    requires board.Valid() && Fits(board, st) && ValidEvent(board, e)
    ensures Fits(board, st')
  {
    match e
    case Press(key) => StoreFits(board, st, true, key); AfterStore(board, st, true, key)
    case Release(key) => AfterStore(board, st, false, key)
    case SetLayers(layers) => st.(layers := layers)
    case SetDefaults(defaults) => st.(defaults := defaults)
    case DisableCache(disabled) => st.(disabled := disabled)
  }

  /** The state before event `n` of the run. */
  function At(board: Board, st: State, events: seq<Event>, n: nat): (st': State)
    requires board.Valid() && Fits(board, st) && ValidRun(board, events) && n <= |events|
    ensures Fits(board, st')
  {
    if n == 0 then st else Step(board, At(board, st, events, n - 1), events[n - 1])
  }

  /** What event `n`, a press or a release, makes the keyboard do. */
  function ActionAt(board: Board, st: State, events: seq<Event>, n: nat): Action
    requires board.Valid() && Fits(board, st) && ValidRun(board, events) && n < |events|
    requires events[n].Press? || events[n].Release?
  {
    board.keymap(UsedLayer(board, At(board, st, events, n), events[n].Press?, events[n].key), events[n].key)
  }

  /** Event `e` stores a layer in the entry of `key`. */
  predicate StoresFor(board: Board, st: State, e: Event, key: Key) {
    e.Press? && !st.disabled && board.Slot(e.key) == board.Slot(key)
  }

  /** Storing for another key does not touch an entry. */
  lemma {:induction false} OtherEntriesKept(board: Board, st: State, e: Event, key: Key)
    requires board.Valid() && Fits(board, st) && ValidEvent(board, e) && board.Known(key)
    requires !StoresFor(board, st, e, key)
    ensures Recall(board, Step(board, st, e), key) == Recall(board, st, key)
  {
    if board.Slot(key).MatrixSlot? { SlotInRange(board, key); }
  }

  lemma {:induction false} StoredIsRecalled(board: Board, st: State, e: Event, key: Key)
    requires board.Valid() && Fits(board, st) && ValidEvent(board, e) && board.Known(key) && board.Slot(key) != NoSlot
    requires StoresFor(board, st, e, key)
    ensures Recall(board, Step(board, st, e), key) == CurrentLayer(board, st, e.key)
  {
    if board.Slot(key).MatrixSlot? { SlotInRange(board, key); }
  }

  /** What is recalled is the layer of the last press stored in the entry. */
  lemma {:induction false} RecallsLastPress(board: Board, st: State, events: seq<Event>, j: nat, n: nat, key: Key)
    requires board.Valid() && Fits(board, st) && ValidRun(board, events) && j < n <= |events|
    requires board.Known(key) && board.Slot(key) != NoSlot
    requires StoresFor(board, At(board, st, events, j), events[j], key)
    requires forall i | j < i < n :: !StoresFor(board, At(board, st, events, i), events[i], key)
    ensures Recall(board, At(board, st, events, n), key) == CurrentLayer(board, At(board, st, events, j), events[j].key)
  {
    var before := At(board, st, events, n - 1);
    if j == n - 1 {
      StoredIsRecalled(board, before, events[j], key);
    } else {
      RecallsLastPress(board, st, events, j, n - 1, key);
      OtherEntriesKept(board, before, events[n - 1], key);
    }
    StepToNext(board, st, events, n);
  }

  lemma {:induction false} StepToNext(board: Board, st: State, events: seq<Event>, n: nat)
    requires board.Valid() && Fits(board, st) && ValidRun(board, events) && 0 < n <= |events|
    ensures At(board, st, events, n) == Step(board, At(board, st, events, n - 1), events[n - 1])
  {
  }

  /** A key of the matrix does on release what it did at its last press, whatever other keys
      and layers did in between. */
  lemma {:induction false} ReleaseAgreesWithPress(board: Board, st: State, events: seq<Event>, j: nat, n: nat)
    requires board.Valid() && Fits(board, st) && ValidRun(board, events) && j < n < |events|
    requires events[j].Press? && events[n] == Release(events[j].key) && IsMatrixKey(board, events[j].key)
    requires forall i | j < i < n :: events[i] != events[j]
    requires forall i | j <= i <= n :: !At(board, st, events, i).disabled
    ensures ActionAt(board, st, events, n) == ActionAt(board, st, events, j)
  {
    var key := events[j].key;
    forall i | j < i < n ensures !StoresFor(board, At(board, st, events, i), events[i], key) {
      if events[i].Press? && board.Slot(events[i].key) == board.Slot(key) { SlotsApart(board, events[i].key, key); }
    }
    RecallsLastPress(board, st, events, j, n, key);
  }

  /** The two directions of an encoder share an entry, and no other key has it. */
  lemma {:induction false} EntryIsShared(board: Board, a: Key, b: Key)
    requires IsEncoderKey(board, a) && board.Slot(b) == board.Slot(a)
    ensures a.row in {252, 253} && b.col == a.col && (b == a || b.row + a.row == 505)
  {
  }

  /** Event `k` is the last press of the encoder's other direction between `j` and `n`. */
  ghost predicate TurnedBackLast(board: Board, events: seq<Event>, j: nat, k: nat, n: nat)
    requires n <= |events| && j < n && events[j].Press?
  {
    && j < k < n && events[k].Press? && events[k].key != events[j].key
    && board.Slot(events[k].key) == board.Slot(events[j].key)
    && forall i | k < i < n && events[i].Press? :: board.Slot(events[i].key) != board.Slot(events[j].key)
  }

  /** Event `k` was found on a layer where the key of `j` has another action than it was pressed with. */
  ghost predicate OnAnotherAction(board: Board, st: State, events: seq<Event>, j: nat, k: nat)
    requires board.Valid() && Fits(board, st) && ValidRun(board, events) && j < |events| && k < |events|
    requires events[j].Press? && events[k].Press?
  {
    board.keymap(CurrentLayer(board, At(board, st, events, k), events[k].key), events[j].key)
    != ActionAt(board, st, events, j)
  }

  lemma {:induction false} LastOtherTurn(board: Board, events: seq<Event>, j: nat, n: nat, key: Key) returns (k: nat)
    requires j < n <= |events| && events[j] == Press(key)
    ensures j <= k < n && events[k].Press? && board.Slot(events[k].key) == board.Slot(key)
    ensures forall i | k < i < n && events[i].Press? :: board.Slot(events[i].key) != board.Slot(key)
  {
    k := n - 1;
    if k > j && !(events[k].Press? && board.Slot(events[k].key) == board.Slot(key)) {
      k := LastOtherTurn(board, events, j, n - 1, key);
    }
  }

  /** A step of an encoder is released with another action than it was pressed with exactly when the
      encoder was turned back in between, last found on a layer that has another action for it. */
  lemma {:induction false} EncoderReleaseAgreesExactlyWhen(board: Board, st: State, events: seq<Event>, j: nat, n: nat)
    requires board.Valid() && Fits(board, st) && ValidRun(board, events) && j < n < |events|
    requires events[j].Press? && events[n] == Release(events[j].key) && IsEncoderKey(board, events[j].key)
    requires forall i | j < i < n :: events[i] != events[j]
    requires forall i | j <= i <= n :: !At(board, st, events, i).disabled
    ensures ActionAt(board, st, events, n) != ActionAt(board, st, events, j) <==>
      exists k: nat :: TurnedBackLast(board, events, j, k, n) && OnAnotherAction(board, st, events, j, k)
  {
    var key := events[j].key;
    var k := LastOtherTurn(board, events, j, n, key);
    RecallsLastPress(board, st, events, k, n, key);
    if k > j {
      assert events[k] != events[j];
      assert TurnedBackLast(board, events, j, k, n);
    }
    forall i: nat | TurnedBackLast(board, events, j, i, n) ensures i == k {}
  }

  /** A key without an entry is released on layer 0. */
  lemma {:induction false} NoEntryMeansLayerZero(board: Board, st: State, events: seq<Event>, n: nat)
    requires board.Valid() && Fits(board, st) && ValidRun(board, events) && n < |events|
    requires events[n].Release? && !At(board, st, events, n).disabled
    requires !IsMatrixKey(board, events[n].key) && !IsEncoderKey(board, events[n].key)
    ensures ActionAt(board, st, events, n) == board.keymap(0, events[n].key)
  {
  }

  /** Layer `r` is active, holds an action for the key, and no higher active layer does. */
  predicate Topmost(board: Board, active: Bits, key: Key, r: nat)
    requires board.maxLayer <= |active|
  {
    r < board.maxLayer && active[r] && board.keymap(r, key) != 1
    && forall i | r < i < board.maxLayer :: active[i] ==> board.keymap(i, key) == 1
  }

  predicate AllTransparent(board: Board, active: Bits, key: Key)
    requires board.maxLayer <= |active|
  {
    forall i | 0 <= i < board.maxLayer :: active[i] ==> board.keymap(i, key) == 1
  }

  /** A press, and while the cache is disabled a release, does what the topmost active layer that is not
      transparent for the key says, and what layer 0 says if there is none. */
  lemma {:induction false} PressUsesTopmostLayer(board: Board, st: State, events: seq<Event>, n: nat)
    requires board.Valid() && Fits(board, st) && ValidRun(board, events) && n < |events|
    requires events[n].Press? || (events[n].Release? && At(board, st, events, n).disabled)
    ensures var key, active := events[n].key, Or(At(board, st, events, n).layers, At(board, st, events, n).defaults);
      || (exists r: nat :: Topmost(board, active, key, r) && ActionAt(board, st, events, n) == board.keymap(r, key))
      || (AllTransparent(board, active, key) && ActionAt(board, st, events, n) == board.keymap(0, key))
  {
    var here, key := At(board, st, events, n), events[n].key;
    var active := Or(here.layers, here.defaults);
    TopLayerIsTopmost(board, active, key, board.maxLayer);
    var r := TopLayer(board, active, key, board.maxLayer);
    if !AllTransparent(board, active, key) { assert Topmost(board, active, key, r); }
  }
}
