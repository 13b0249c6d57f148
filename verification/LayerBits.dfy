/** Layer states: bit vectors of 8, 16 or 32 layers (quantum/action_layer.h:49-72). */
module LayerBits {

  /** Element i is bit i. */
  type Bits = seq<bool>

  function Zero(width: nat): (b: Bits)
    ensures |b| == width
  {
    seq(width, _ => false)
  }

  /** (layer_state_t)1 << layer, cut to the width. */
  function Single(width: nat, layer: nat): (b: Bits)
    ensures |b| == width
  {
    seq(width, i => i == layer)
  }

  function Or(a: Bits, b: Bits): (c: Bits)
    requires |a| == |b|
    ensures |c| == |a|
  {
    seq(|a|, i requires 0 <= i < |a| => a[i] || b[i])
  }

  function And(a: Bits, b: Bits): (c: Bits)
    requires |a| == |b|
    ensures |c| == |a|
  {
    seq(|a|, i requires 0 <= i < |a| => a[i] && b[i])
  }

  function Xor(a: Bits, b: Bits): (c: Bits)
    requires |a| == |b|
    ensures |c| == |a|
  {
    seq(|a|, i requires 0 <= i < |a| => a[i] != b[i])
  }

  function Not(a: Bits): (c: Bits)
    ensures |c| == |a|
  {
    seq(|a|, i requires 0 <= i < |a| => !a[i])
  }
}
