/** Layers and the source-layer cache (quantum/action_layer.c). */
module ActionLayer {
  import opened Arithmetic
  import opened LayerBits

  datatype Key = Key(row: nat, col: nat)

  const KEYLOC_ENCODER_CW := 253
  const KEYLOC_ENCODER_CCW := 252

  type Action = nat
  const ACTION_TRANSPARENT: Action := 1

  /** A build: its sizes and its keymap; `encoders` is 0 without an encoder map. */
  datatype Board = Board(width: nat, layerBits: nat, maxLayer: nat, rows: nat, cols: nat, encoders: nat,
                         keymap: (nat, Key) -> Action)
  {
    predicate Valid() {
      && ((width == 8 && layerBits == 3) || (width == 16 && layerBits == 4) || (width == 32 && layerBits == 5))
      && maxLayer <= width && 0 < cols
    }

    /** The cache entry of a key: one per key of the matrix, and one per encoder, shared by
        its two directions. */
    function Slot(key: Key): Slot {
      if key.row < rows && key.col < cols then MatrixSlot(key.row * cols + key.col)
      else if encoders > 0 && (key.row == KEYLOC_ENCODER_CW || key.row == KEYLOC_ENCODER_CCW) then EncoderSlot(key.col)
      else NoSlot
    }

    /** What the source takes for granted of an encoder event. */
    predicate Known(key: Key) {
      Slot(key).EncoderSlot? ==> key.col < encoders
    }
  }

  datatype Slot = MatrixSlot(entry: nat) | EncoderSlot(entry: nat) | NoSlot

  /** The topmost active layer below `i` whose action is not transparent, else 0. */
  function TopLayer(board: Board, active: Bits, key: Key, i: nat): nat
    requires i <= |active|
  {
    if i == 0 then 0
    else if active[i - 1] && board.keymap(i - 1, key) != ACTION_TRANSPARENT then i - 1
    else TopLayer(board, active, key, i - 1)
  }

  lemma {:induction false} TopLayerIsTopmost(board: Board, active: Bits, key: Key, i: nat)
    requires i <= |active|
    ensures var r := TopLayer(board, active, key, i);
      && (forall j | r < j < i :: active[j] ==> board.keymap(j, key) == ACTION_TRANSPARENT)
      && ((r < i && active[r] && board.keymap(r, key) != ACTION_TRANSPARENT)
          || (r == 0 && forall j | 0 <= j < i :: active[j] ==> board.keymap(j, key) == ACTION_TRANSPARENT))
  {
    if i > 0 { TopLayerIsTopmost(board, active, key, i - 1); }
  }

  // -------------------------------------------------------------- the bit-sliced cache

  function Mask(bit: nat): bv8 {
    match bit
    case 0 => 0x01 case 1 => 0x02 case 2 => 0x04 case 3 => 0x08
    case 4 => 0x10 case 5 => 0x20 case 6 => 0x40 case _ => 0x80
  }

  lemma {:induction false} MasksApart(a: nat, b: nat)
    requires a < 8 && b < 8 && a != b
    ensures Mask(a) & Mask(b) == 0 && Mask(a) != 0
  {
  }

  /** cell ^= (-(bit) ^ cell) & mask. */
  function SetBit(cell: bv8, mask: bv8, bit: bool): bv8 {
    var all: bv8 := if bit then 0xFF else 0;
    cell ^ ((all ^ cell) & mask)
  }

  lemma {:induction false} SetBitSets(cell: bv8, mask: bv8, bit: bool)
    requires mask != 0
    ensures (SetBit(cell, mask, bit) & mask != 0) == bit
  {
    var c := SetBit(cell, mask, bit);
    if bit { assert c & mask == mask; } else { assert c & mask == 0; }
  }

  lemma {:induction false} SetBitKeeps(cell: bv8, mask: bv8, bit: bool, other: bv8)
    requires mask & other == 0
    ensures SetBit(cell, mask, bit) & other == cell & other
  {
  }

  /** Bit `n` of the layer stored for an entry. */
  ghost predicate StoredBit(cache: array2<bv8>, entry: nat, n: nat)
    requires entry / 8 < cache.Length0 && n < cache.Length1
    reads cache
  {
    cache[entry / 8, n] & Mask(entry % 8) != 0
  }

  /** The stored layers are those in `layers`, one per entry. */
  ghost predicate Stores(cache: array2<bv8>, layers: seq<nat>)
    reads cache
  {
    && |layers| <= 8 * cache.Length0
    && forall e, n | 0 <= e < |layers| && 0 <= n < cache.Length1 :: StoredBit(cache, e, n) == Bit(layers[e], n)
  }

  lemma {:induction false} SetBitAt(cell: bv8, bit: bool, at: nat, other: nat)
    requires at < 8 && other < 8
    ensures (SetBit(cell, Mask(at), bit) & Mask(other) != 0) == if other == at then bit else cell & Mask(other) != 0
  {
    if other == at {
      MasksApart(at, if at == 0 then 1 else 0);
      SetBitSets(cell, Mask(at), bit);
    } else {
      MasksApart(at, other);
      SetBitKeeps(cell, Mask(at), bit, Mask(other));
    }
  }

  /** One cell of one entry. */
  method UpdateCell(bit: bool, entry: nat, n: nat, cache: array2<bv8>)
    requires entry / 8 < cache.Length0 && n < cache.Length1
    modifies cache
    ensures forall e: nat, k: nat | e < 8 * cache.Length0 && k < cache.Length1 ::
      StoredBit(cache, e, k) == if e == entry && k == n then bit else old(StoredBit(cache, e, k))
  {
    var storageIdx, storageBit := entry / 8, entry % 8;
    ghost var was := cache[storageIdx, n];
    cache[storageIdx, n] := SetBit(cache[storageIdx, n], Mask(storageBit), bit);
    forall e: nat, k: nat | e < 8 * cache.Length0 && k < cache.Length1
      ensures StoredBit(cache, e, k) == if e == entry && k == n then bit else old(StoredBit(cache, e, k))
    {
      if e / 8 == storageIdx && k == n {
        SetBitAt(was, bit, storageBit, e % 8);
      } else {
        assert cache[e / 8, k] == old(cache[e / 8, k]);
      }
    }
  }

  /** update_source_layers_cache_impl. */
  method UpdateCacheImpl(layer: nat, entry: nat, cache: array2<bv8>, ghost layers: seq<nat>)
    requires Stores(cache, layers) && entry < |layers|
    modifies cache
    ensures Stores(cache, layers[entry := layer])
  {
    var n := 0;
    while n < cache.Length1
      invariant 0 <= n <= cache.Length1
      invariant forall e, k | 0 <= e < |layers| && 0 <= k < cache.Length1 ::
        StoredBit(cache, e, k) == Bit(if e == entry && k < n then layer else layers[e], k)
    {
      UpdateCell(Bit(layer, n), entry, n, cache);
      n := n + 1;
    }
  }

  /** read_source_layers_cache_impl: the layer, as far as the cache has bits for it. */
  method ReadCacheImpl(entry: nat, cache: array2<bv8>, ghost layers: seq<nat>) returns (layer: nat)
    requires Stores(cache, layers) && entry < |layers|
    ensures layer == layers[entry] % Pow2(cache.Length1)
  {
    layer := 0;
    var n, weight := 0, 1;
    while n < cache.Length1
      invariant 0 <= n <= cache.Length1 && weight == Pow2(n)
      invariant layer == layers[entry] % Pow2(n)
    {
      assert StoredBit(cache, entry, n) == Bit(layers[entry], n);
      BitIsDigit(layers[entry], n);
      NextDigit(layers[entry], 2, Pow2(n));
      if cache[entry / 8, n] & Mask(entry % 8) != 0 { layer := layer + weight; }
      n, weight := n + 1, 2 * weight;
    }
  }

  // ---------------------------------------------------------------- the specification

  /** The layers and the cache, an entry being the layer of the press it remembers. */
  datatype State = State(layers: Bits, defaults: Bits, keys: seq<nat>, encoders: seq<nat>, disabled: bool)

  predicate Fits(board: Board, st: State) {
    && |st.layers| == board.width && |st.defaults| == board.width
    && |st.keys| == board.rows * board.cols && |st.encoders| == board.encoders
    && (forall i | 0 <= i < |st.keys| :: st.keys[i] < board.width)
    && (forall i | 0 <= i < |st.encoders| :: st.encoders[i] < board.width)
  }

  function CurrentLayer(board: Board, st: State, key: Key): nat
    requires board.Valid() && Fits(board, st)
  {
    TopLayer(board, Or(st.layers, st.defaults), key, board.maxLayer)
  }

  lemma {:induction false} SlotInRange(board: Board, key: Key)
    requires key.row < board.rows && key.col < board.cols
    ensures key.row * board.cols + key.col < board.rows * board.cols
  {
    Monotone(key.row + 1, board.rows, board.cols);
    assert (key.row + 1) * board.cols == key.row * board.cols + board.cols;
  }

  /** Distinct keys of the matrix have distinct entries. */
  lemma {:induction false} SlotsApart(board: Board, a: Key, b: Key)
    requires board.cols > 0 && board.Slot(a).MatrixSlot? && board.Slot(a) == board.Slot(b)
    ensures a == b
  {
    Unique(a.row * board.cols + a.col, board.cols, a.row, a.col);
    Unique(b.row * board.cols + b.col, board.cols, b.row, b.col);
  }

  function Remember(board: Board, st: State, key: Key, layer: nat): State
    requires board.Valid() && Fits(board, st) && board.Known(key)
  {
    match board.Slot(key)
    case MatrixSlot(n) => SlotInRange(board, key); st.(keys := st.keys[n := layer])
    case EncoderSlot(n) => st.(encoders := st.encoders[n := layer])
    case NoSlot => st
  }

  function Recall(board: Board, st: State, key: Key): nat
    requires board.Valid() && Fits(board, st) && board.Known(key)
  {
    match board.Slot(key)
    case MatrixSlot(n) => SlotInRange(board, key); st.keys[n]
    case EncoderSlot(n) => st.encoders[n]
    case NoSlot => 0
  }

  /** The layer that store_or_get_action takes the action from. */
  function UsedLayer(board: Board, st: State, pressed: bool, key: Key): nat
    requires board.Valid() && Fits(board, st) && board.Known(key)
  {
    if st.disabled || pressed then CurrentLayer(board, st, key) else Recall(board, st, key)
  }

  function AfterStore(board: Board, st: State, pressed: bool, key: Key): State
    requires board.Valid() && Fits(board, st) && board.Known(key)
  {
    if !st.disabled && pressed then Remember(board, st, key, CurrentLayer(board, st, key)) else st
  }

  lemma {:induction false} TopLayerBelow(board: Board, active: Bits, key: Key, i: nat)
    requires i <= |active|
    ensures TopLayer(board, active, key, i) < i || TopLayer(board, active, key, i) == 0
  {
    if i > 0 { TopLayerBelow(board, active, key, i - 1); }
  }

  lemma {:induction false} StoreFits(board: Board, st: State, pressed: bool, key: Key)
    requires board.Valid() && Fits(board, st) && board.Known(key)
    ensures Fits(board, AfterStore(board, st, pressed, key))
    ensures CurrentLayer(board, st, key) < board.width
  {
    TopLayerBelow(board, Or(st.layers, st.defaults), key, board.maxLayer);
    if board.Slot(key).MatrixSlot? { SlotInRange(board, key); }
  }

  // ----------------------------------------------------------------------- in place

  class Layers {
    const board: Board
    var layerState: Bits
    var defaultLayerState: Bits
    var disableActionCache: bool
    const sourceLayersCache: array2<bv8>
    const encoderSourceLayersCache: array2<bv8>
    ghost var keys: seq<nat>
    ghost var encoders: seq<nat>

    ghost predicate Valid()
      reads this, sourceLayersCache, encoderSourceLayersCache
    {
      && board.Valid() && Fits(board, Value()) && sourceLayersCache != encoderSourceLayersCache
      && sourceLayersCache.Length1 == board.layerBits && encoderSourceLayersCache.Length1 == board.layerBits
      && Stores(sourceLayersCache, keys) && Stores(encoderSourceLayersCache, encoders)
    }

    ghost function Value(): State
      reads this
    {
      State(layerState, defaultLayerState, keys, encoders, disableActionCache)
    }

    constructor (board: Board)
      requires board.Valid()
      ensures Valid() && fresh(sourceLayersCache) && fresh(encoderSourceLayersCache)
      ensures this.board == board
      ensures Value()
        == State(Zero(board.width), Zero(board.width), seq(board.rows * board.cols, _ => 0),
          seq(board.encoders, _ => 0), false)
    {
      this.board := board;
      layerState, defaultLayerState, disableActionCache := Zero(board.width), Zero(board.width), false;
      var keyCache := new bv8[(board.rows * board.cols + 7) / 8, board.layerBits]((_, _) => 0);
      var encoderCache := new bv8[(board.encoders + 7) / 8, board.layerBits]((_, _) => 0);
      sourceLayersCache, encoderSourceLayersCache := keyCache, encoderCache;
      keys, encoders := seq(board.rows * board.cols, _ => 0), seq(board.encoders, _ => 0);
      new;
      forall n: nat ensures !Bit(0, n) { Arithmetic.ZeroBits(n); }
    }

    method LayerSwitchGetLayer(key: Key) returns (layer: nat)
      requires Valid()
      ensures layer == CurrentLayer(board, Value(), key)
    {
      var layers := Or(layerState, defaultLayerState);
      var i := board.maxLayer - 1;
      while i >= 0
        invariant -1 <= i < board.maxLayer
        invariant TopLayer(board, layers, key, board.maxLayer) == TopLayer(board, layers, key, i + 1)
      {
        if layers[i] {
          var action := board.keymap(i, key);
          if action != ACTION_TRANSPARENT { return i; }
        }
        i := i - 1;
      }
      return 0;
    }

    method UpdateSourceLayersCache(key: Key, layer: nat)
      requires Valid() && board.Known(key) && layer < board.width
      modifies this`keys, this`encoders, sourceLayersCache, encoderSourceLayersCache
      ensures Valid() && Value() == Remember(board, old(Value()), key, layer)
    {
      if key.row < board.rows && key.col < board.cols {
        SlotInRange(board, key);
        var entry := key.row * board.cols + key.col;
        UpdateCacheImpl(layer, entry, sourceLayersCache, keys);
        keys := keys[entry := layer];
      } else if board.encoders > 0 && (key.row == KEYLOC_ENCODER_CW || key.row == KEYLOC_ENCODER_CCW) {
        UpdateCacheImpl(layer, key.col, encoderSourceLayersCache, encoders);
        encoders := encoders[key.col := layer];
      }
    }

    method ReadSourceLayersCache(key: Key) returns (layer: nat)
      requires Valid() && board.Known(key)
      ensures layer == Recall(board, Value(), key)
    {
      WidthIsPower();
      if key.row < board.rows && key.col < board.cols {
        SlotInRange(board, key);
        var entry := key.row * board.cols + key.col;
        layer := ReadCacheImpl(entry, sourceLayersCache, keys);
        SmallMod(keys[entry], board.width);
      } else if board.encoders > 0 && (key.row == KEYLOC_ENCODER_CW || key.row == KEYLOC_ENCODER_CCW) {
        layer := ReadCacheImpl(key.col, encoderSourceLayersCache, encoders);
        SmallMod(encoders[key.col], board.width);
      } else {
        layer := 0;
      }
    }

    /** The cache has enough bits for every layer. */
    lemma {:induction false} WidthIsPower()
      requires board.Valid()
      ensures board.width == Pow2(board.layerBits)
    {
      assert Pow2(1) == 2 && Pow2(2) == 4 && Pow2(3) == 8 && Pow2(4) == 16 && Pow2(5) == 32;
    }

    method StoreOrGetAction(pressed: bool, key: Key) returns (action: Action)
      requires Valid() && board.Known(key)
      modifies this`keys, this`encoders, sourceLayersCache, encoderSourceLayersCache
      ensures Valid() && Value() == AfterStore(board, old(Value()), pressed, key)
      ensures action == board.keymap(UsedLayer(board, old(Value()), pressed, key), key)
    {
      StoreFits(board, Value(), pressed, key);
      if disableActionCache {
        var current := LayerSwitchGetLayer(key);
        return board.keymap(current, key);
      }
      var layer;
      if pressed {
        layer := LayerSwitchGetLayer(key);
        UpdateSourceLayersCache(key, layer);
      } else {
        layer := ReadSourceLayersCache(key);
      }
      action := board.keymap(layer, key);
    }

    method LayerStateSet(state: Bits)
      requires Valid() && |state| == board.width
      modifies this`layerState
      ensures Valid() && Value() == old(Value()).(layers := state)
    {
      layerState := state;
    }

    method LayerOn(layer: nat)
      requires Valid()
      modifies this`layerState
      ensures Valid() && Value() == old(Value()).(layers := layerState)
      ensures forall i | 0 <= i < board.width :: layerState[i] == (old(layerState)[i] || i == layer)
    {
      LayerStateSet(Or(layerState, Single(board.width, layer)));
    }

    method LayerOff(layer: nat)
      requires Valid()
      modifies this`layerState
      ensures Valid() && Value() == old(Value()).(layers := layerState)
      ensures forall i | 0 <= i < board.width :: layerState[i] == (old(layerState)[i] && i != layer)
    {
      LayerStateSet(LayerBits.And(layerState, Not(Single(board.width, layer))));
    }

    method LayerInvert(layer: nat)
      requires Valid()
      modifies this`layerState
      ensures Valid() && Value() == old(Value()).(layers := layerState)
      ensures forall i | 0 <= i < board.width ::
        layerState[i] == (if i == layer then !old(layerState)[i] else old(layerState)[i])
    {
      LayerStateSet(Xor(layerState, Single(board.width, layer)));
    }

    method LayerMove(layer: nat)
      requires Valid()
      modifies this`layerState
      ensures Valid() && Value() == old(Value()).(layers := layerState)
      ensures forall i | 0 <= i < board.width :: layerState[i] == (i == layer)
    {
      LayerStateSet(Single(board.width, layer));
    }
  }
}
