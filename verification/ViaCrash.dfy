/** An interrupted re-initialisation is never mistaken for a finished one
    (quantum/via.c:92-117; quantum/dynamic_keymap.c:153-168, 248-255). */
module ViaCrash {
  import opened Eeprom
  import opened DynamicKeymap
  import opened Via

  // ------------------------------------------------------------ where updates go

  predicate Inside(ws: seq<Update>, lo: nat, hi: nat) {
    forall i | 0 <= i < |ws| :: lo <= ws[i].addr < hi
  }

  lemma {:induction false} InsideBoth(a: seq<Update>, b: seq<Update>, lo: nat, hi: nat)
    requires Inside(a, lo, hi) && Inside(b, lo, hi)
    ensures Inside(a + b, lo, hi)
  {
  }

  lemma {:induction false} InsideWider(ws: seq<Update>, lo: nat, hi: nat, lo': nat, hi': nat)
    requires Inside(ws, lo, hi) && lo' <= lo && hi <= hi'
    ensures Inside(ws, lo', hi')
  {
  }

  lemma {:induction false} OptionsInside(l: Layout, value: nat, i: nat)
    requires i <= l.optionsSize
    ensures Inside(OptionsUpdates(l, value, i), l.OptionsAddr(), l.OptionsAddr() + l.optionsSize - i)
    decreases l.optionsSize - i
  {
    if i < l.optionsSize { OptionsInside(l, value / 0x100, i + 1); }
  }

  lemma {:induction false} RowInside(l: Layout, f: Flash, layer: nat, row: nat, n: nat)
    requires n <= l.cols && layer < l.layers && row < l.rows
    ensures Inside(RowUpdates(l, f, layer, row, n), l.KeyAddr(layer, row, 0), l.KeyAddr(layer, row, 0) + 2 * n)
  {
    if n > 0 { RowInside(l, f, layer, row, n - 1); }
  }

  lemma {:induction false} LayerKeysInside(l: Layout, f: Flash, layer: nat, n: nat)
    requires n <= l.rows && layer < l.layers
    ensures Inside(LayerKeyUpdates(l, f, layer, n), l.KeymapAddr(), l.EncoderAddr())
  {
    if n > 0 {
      LayerKeysInside(l, f, layer, n - 1);
      RowInside(l, f, layer, n - 1, l.cols);
      if l.cols > 0 { KeyInside(l, layer, n - 1, 0); }
    }
  }

  lemma {:induction false} LayerEncodersInside(l: Layout, f: Flash, layer: nat, n: nat)
    requires n <= l.encoders && layer < l.layers
    ensures Inside(LayerEncoderUpdates(l, f, layer, n), l.EncoderAddr(), l.MacroAddr())
  {
    if n > 0 {
      LayerEncodersInside(l, f, layer, n - 1);
      EncoderInside(l, layer, n - 1, true);
      EncoderInside(l, layer, n - 1, false);
    }
  }

  lemma {:induction false} LayerInside(l: Layout, f: Flash, layer: nat)
    requires layer < l.layers
    ensures Inside(LayerUpdates(l, f, layer), l.KeymapAddr(), l.MacroAddr())
  {
    var lo, mid, hi := l.KeymapAddr(), l.EncoderAddr(), l.MacroAddr();
    var keys, encoders := LayerKeyUpdates(l, f, layer, l.rows), LayerEncoderUpdates(l, f, layer, l.encoders);
    LayerKeysInside(l, f, layer, l.rows);
    LayerEncodersInside(l, f, layer, l.encoders);
    InsideWider(keys, lo, mid, lo, hi);
    InsideWider(encoders, mid, hi, lo, hi);
    InsideBoth(keys, encoders, lo, hi);
  }

  lemma {:induction false} ResetInside(l: Layout, f: Flash, n: nat)
    requires n <= l.layers
    ensures Inside(ResetUpdates(l, f, n), l.KeymapAddr(), l.MacroAddr())
  {
    if n > 0 {
      ResetInside(l, f, n - 1);
      LayerInside(l, f, n - 1);
      InsideBoth(ResetUpdates(l, f, n - 1), LayerUpdates(l, f, n - 1), l.KeymapAddr(), l.MacroAddr());
    }
  }

  lemma {:induction false} MacroInside(l: Layout, n: nat)
    ensures Inside(MacroResetUpdates(l, n), l.MacroAddr(), l.MacroAddr() + n)
    ensures |MacroResetUpdates(l, n)| == n
  {
    if n > 0 { MacroInside(l, n - 1); }
  }

  lemma {:induction false} RegionsInOrder(l: Layout, size: nat)
    requires l.Fits(size)
    ensures l.OptionsAddr() + l.optionsSize <= l.KeymapAddr() <= l.EncoderAddr() <= l.MacroAddr()
    ensures l.MacroAddr() + l.MacroSize() <= size
  {
  }

  lemma {:induction false} ThreeInside(a: seq<Update>, b: seq<Update>, c: seq<Update>, lo: nat, hi: nat)
    requires Inside(a, lo, hi) && Inside(b, lo, hi) && Inside(c, lo, hi)
    ensures Inside(a + b + c, lo, hi)
  {
    InsideBoth(a, b, lo, hi);
    InsideBoth(a + b, c, lo, hi);
  }

  /** Nothing between invalidating and validating touches the magic number. */
  lemma {:induction false} BodyInside(fw: Firmware, size: nat)
    requires fw.layout.Fits(size)
    ensures Inside(BodyUpdates(fw), fw.layout.OptionsAddr(), size)
  {
    var l := fw.layout;
    RegionsInOrder(l, size);
    OptionsInside(l, fw.optionsDefault, 0);
    ResetInside(l, fw.flash, l.layers);
    MacroInside(l, l.MacroSize());
    var lo := l.OptionsAddr();
    var options, keys, macros := OptionsUpdates(l, fw.optionsDefault, 0), ResetUpdates(l, fw.flash, l.layers),
                                 MacroResetUpdates(l, l.MacroSize());
    InsideWider(options, lo, lo + l.optionsSize, lo, size);
    InsideWider(keys, l.KeymapAddr(), l.MacroAddr(), lo, size);
    InsideWider(macros, l.MacroAddr(), l.MacroAddr() + l.MacroSize(), lo, size);
    ThreeInside(options, keys, macros, lo, size);
  }

  lemma {:induction false} InitInRange(fw: Firmware, size: nat)
    requires fw.layout.Fits(size)
    ensures InRange(size, InitUpdates(fw))
  {
    BodyInside(fw, size);
  }

  // ---------------------------------------------------------------- crash states

  lemma {:induction false} LastValueIs(ws: seq<Update>, a: nat, i: nat)
    requires i < |ws| && ws[i].addr == a && forall j | i < j < |ws| :: ws[j].addr != a
    ensures Touches(ws, a) && LastValue(ws, a) == ws[i].value
  {
    if i < |ws| - 1 { LastValueIs(ws[..|ws| - 1], a, i); }
  }

  /** Memory after the first `n` updates. */
  function Crashed(fw: Firmware, mem: seq<byte>, n: nat): (mem': seq<byte>)
    requires fw.layout.Fits(|mem|) && n <= |InitUpdates(fw)|
    ensures |mem'| == |mem|
  {
    InitInRange(fw, |mem|);
    Apply(mem, InitUpdates(fw)[..n])
  }

  /** Between the first update and the last, one of the magic bytes is still erased. */
  lemma {:induction false} HalfWayIsErased(fw: Firmware, mem: seq<byte>, n: nat)
    requires fw.layout.Fits(|mem|) && 0 < n < |InitUpdates(fw)|
    ensures Crashed(fw, mem, n)[fw.layout.magicAddr] == 0xFF || Crashed(fw, mem, n)[fw.layout.magicAddr + 2] == 0xFF
  {
    var ws, a := InitUpdates(fw), fw.layout.magicAddr;
    var done := ws[..n];
    InitInRange(fw, |mem|);
    BodyInside(fw, |mem|);
    assert ws[0] == Update(a, 0xFF) && ws[2] == Update(a + 2, 0xFF);
    assert forall i | 3 <= i < |ws| - 3 :: ws[i] == BodyUpdates(fw)[i - 3];
    assert ws[|ws| - 3].addr == a && ws[|ws| - 2].addr == a + 1 && ws[|ws| - 1].addr == a + 2;
    if n <= |ws| - 3 {
      LastValueIs(done, a, 0);
      ApplyAt(mem, done, a);
    } else {
      LastValueIs(done, a + 2, 2);
      ApplyAt(mem, done, a + 2);
    }
  }

  lemma {:induction false} ErasedIsInvalid(fw: Firmware, mem: seq<byte>)
    requires fw.layout.Fits(|mem|) && IsDate(fw.date)
    requires mem[fw.layout.magicAddr] == 0xFF || mem[fw.layout.magicAddr + 2] == 0xFF
    ensures !MagicOk(fw, mem)
  {
    var a := fw.layout.magicAddr;
    MagicIsNotErased(fw.date, 0);
    MagicIsNotErased(fw.date, 2);
    assert mem[a..a + 3][0] == mem[a] && mem[a..a + 3][2] == mem[a + 2];
  }

  /** At every point of the initialisation a valid magic number means that the memory is
      exactly the old one, or exactly the complete reset image. */
  lemma {:induction false} CrashSafe(fw: Firmware, mem: seq<byte>, n: nat)
    requires fw.layout.Fits(|mem|) && IsDate(fw.date) && n <= |InitUpdates(fw)|
    requires MagicOk(fw, Crashed(fw, mem, n))
    ensures Crashed(fw, mem, n) == mem || Crashed(fw, mem, n) == Crashed(fw, mem, |InitUpdates(fw)|)
  {
    if 0 < n < |InitUpdates(fw)| {
      HalfWayIsErased(fw, mem, n);
      ErasedIsInvalid(fw, Crashed(fw, mem, n));
    } else if n == 0 {
      assert InitUpdates(fw)[..0] == [];
    }
  }

  // ------------------------------------------------------------------------ boots

  function ResetImage(fw: Firmware, mem: seq<byte>): (mem': seq<byte>)
    requires fw.layout.Fits(|mem|)
    ensures |mem'| == |mem|
  {
    Crashed(fw, mem, |InitUpdates(fw)|)
  }

  lemma {:induction false} ResetImageIsValid(fw: Firmware, mem: seq<byte>)
    requires fw.layout.Fits(|mem|)
    ensures MagicOk(fw, ResetImage(fw, mem))
  {
    var ws, a := InitUpdates(fw), fw.layout.magicAddr;
    InitInRange(fw, |mem|);
    assert ws[..|ws|] == ws;
    forall k | 0 <= k < 3 ensures ResetImage(fw, mem)[a + k] == Magic(fw.date)[k] {
      LastValueIs(ws, a + k, |ws| - 3 + k);
      ApplyAt(mem, ws, a + k);
    }
  }

  /** Starting the reset again after an interruption gives the same image. */
  lemma {:induction false} ResetAgain(fw: Firmware, mem: seq<byte>, n: nat)
    requires fw.layout.Fits(|mem|) && n <= |InitUpdates(fw)|
    ensures ResetImage(fw, Crashed(fw, mem, n)) == ResetImage(fw, mem)
  {
    var ws := InitUpdates(fw);
    InitInRange(fw, |mem|);
    assert ws[..|ws|] == ws;
    forall i | 0 <= i < n ensures Touches(ws, ws[..n][i].addr) { assert ws[i].addr == ws[..n][i].addr; }
    RedoneUpdatesWin(mem, ws[..n], ws);
  }

  /** A boot that is cut off after `n` updates, if it makes any. */
  function InterruptedBoot(fw: Firmware, mem: seq<byte>, n: nat): (mem': seq<byte>)
    requires fw.layout.Fits(|mem|)
    ensures |mem'| == |mem|
  {
    if MagicOk(fw, mem) then mem
    else Crashed(fw, mem, if n <= |InitUpdates(fw)| then n else |InitUpdates(fw)|)
  }

  function InterruptedBoots(fw: Firmware, mem: seq<byte>, cuts: seq<nat>): (mem': seq<byte>)
    requires fw.layout.Fits(|mem|)
    ensures |mem'| == |mem|
  {
    if cuts == [] then mem
    else InterruptedBoot(fw, InterruptedBoots(fw, mem, cuts[..|cuts| - 1]), cuts[|cuts| - 1])
  }

  function CompletedBoot(fw: Firmware, mem: seq<byte>): seq<byte>
    requires fw.layout.Fits(|mem|)
  {
    if MagicOk(fw, mem) then mem else ResetImage(fw, mem)
  }

  /** One interrupted boot never changes what a completed boot will find or make. */
  lemma {:induction false} InterruptionIsHarmless(fw: Firmware, mem: seq<byte>, n: nat)
    requires fw.layout.Fits(|mem|) && IsDate(fw.date)
    ensures CompletedBoot(fw, InterruptedBoot(fw, mem, n)) == CompletedBoot(fw, mem)
  {
    if !MagicOk(fw, mem) {
      var k := if n <= |InitUpdates(fw)| then n else |InitUpdates(fw)|;
      ResetAgain(fw, mem, k);
      if MagicOk(fw, Crashed(fw, mem, k)) { CrashSafe(fw, mem, k); }
    }
  }

  /** Any number of interrupted boots and one completed one end all-old or all-reset. */
  lemma {:induction false} AllOldOrAllReset(fw: Firmware, mem: seq<byte>, cuts: seq<nat>)
    requires fw.layout.Fits(|mem|) && IsDate(fw.date)
    ensures CompletedBoot(fw, InterruptedBoots(fw, mem, cuts)) == if MagicOk(fw, mem) then mem else ResetImage(fw, mem)
    ensures MagicOk(fw, CompletedBoot(fw, InterruptedBoots(fw, mem, cuts)))
  {
    ResetImageIsValid(fw, mem);
    if cuts != [] {
      AllOldOrAllReset(fw, mem, cuts[..|cuts| - 1]);
      InterruptionIsHarmless(fw, InterruptedBoots(fw, mem, cuts[..|cuts| - 1]), cuts[|cuts| - 1]);
    }
  }
}
