/** VIA's use of EEPROM and its crash-safe re-initialisation (quantum/via.c:60-144). */
module Via {
  import opened Eeprom
  import opened DynamicKeymap
  import opened Sequences

  /** A build date as the build writes it, "YYYY-MM-DD-hh:mm:ss"; the digits used are these. */
  datatype BuildDate = BuildDate(year: (char, char), month: (char, char), day: (char, char))

  predicate IsDigit(c: char) { '0' <= c <= '9' }

  predicate IsDate(d: BuildDate) {
    IsDigit(d.year.0) && IsDigit(d.year.1) && IsDigit(d.month.0) && IsDigit(d.month.1) && IsDigit(d.day.0)
      && IsDigit(d.day.1)
  }

  /** The low four bits of each character, packed. */
  function Bcd(p: (char, char)): byte { p.0 as int % 16 * 16 + p.1 as int % 16 }

  function Magic(d: BuildDate): (m: seq<byte>)
    ensures |m| == 3
  {
    [Bcd(d.year), Bcd(d.month), Bcd(d.day)]
  }

  const ERASED: seq<byte> := [0xFF, 0xFF, 0xFF]

  lemma {:induction false} MagicIsNotErased(d: BuildDate, i: nat)
    requires IsDate(d) && i < 3
    ensures Magic(d)[i] != 0xFF
  {
  }

  /** Each magic byte is two digits of the date, four bits each: year, month, day. */
  lemma {:induction false} MagicSpellsDate(d: BuildDate)
    requires '0' <= d.year.0 <= '9' && '0' <= d.year.1 <= '9' && '0' <= d.month.0 <= '9' && '0' <= d.month.1 <= '9'
    requires '0' <= d.day.0 <= '9' && '0' <= d.day.1 <= '9'
    ensures IsDate(d)
    ensures Magic(d)[0] == 16 * (d.year.0 as int - '0' as int) + (d.year.1 as int - '0' as int)
    ensures Magic(d)[1] == 16 * (d.month.0 as int - '0' as int) + (d.month.1 as int - '0' as int)
    ensures Magic(d)[2] == 16 * (d.day.0 as int - '0' as int) + (d.day.1 as int - '0' as int)
  {
  }

  /** So builds of different days have different magic. */
  lemma {:induction false} MagicTellsDates(d: BuildDate, e: BuildDate)
    requires IsDate(d) && IsDate(e)
    ensures Magic(d) == Magic(e) <==> d == e
  {
    SameDigits(d.year, e.year);
    SameDigits(d.month, e.month);
    SameDigits(d.day, e.day);
    if Magic(d) == Magic(e) {
      assert Magic(d)[0] == Magic(e)[0] && Magic(d)[1] == Magic(e)[1] && Magic(d)[2] == Magic(e)[2];
    }
  }

  lemma {:induction false} SameDigits(p: (char, char), q: (char, char))
    requires IsDigit(p.0) && IsDigit(p.1) && IsDigit(q.0) && IsDigit(q.1)
    ensures Bcd(p) == Bcd(q) <==> p == q
  {
    var a, b, c, d := p.0 as int % 16, p.1 as int % 16, q.0 as int % 16, q.1 as int % 16;
    assert a == p.0 as int - '0' as int && b == p.1 as int - '0' as int;
    assert c == q.0 as int - '0' as int && d == q.1 as int - '0' as int;
    if a * 16 + b == c * 16 + d { assert a == (a * 16 + b) / 16 && c == (c * 16 + d) / 16; }
  }

  datatype Firmware = Firmware(layout: Layout, date: BuildDate, flash: Flash, optionsDefault: nat)

  predicate MagicOk(fw: Firmware, mem: seq<byte>)
    requires fw.layout.Fits(|mem|)
  {
    mem[fw.layout.magicAddr..fw.layout.magicAddr + 3] == Magic(fw.date)
  }

  /** The three updates of via_eeprom_set_valid. */
  function MagicUpdates(l: Layout, m: seq<byte>): seq<Update>
    requires |m| == 3
  {
    [Update(l.magicAddr, m[0]), Update(l.magicAddr + 1, m[1]), Update(l.magicAddr + 2, m[2])]
  }

  /** The updates of via_set_layout_options from byte `i` on, least significant byte first. */
  function OptionsUpdates(l: Layout, value: nat, i: nat): seq<Update>
    requires i <= l.optionsSize
    decreases l.optionsSize - i
  {
    if i == l.optionsSize then []
    else [Update(l.OptionsAddr() + l.optionsSize - 1 - i, value % 0x100)] + OptionsUpdates(l, value / 0x100, i + 1)
  }

  /** The bytes from `i` on, most significant first, continuing `value`. */
  function OptionsFrom(l: Layout, mem: seq<byte>, i: nat, value: nat): nat
    requires l.Fits(|mem|) && i <= l.optionsSize
    decreases l.optionsSize - i
  {
    if i == l.optionsSize then value else OptionsFrom(l, mem, i + 1, 0x100 * value + mem[l.OptionsAddr() + i])
  }

  function OptionsIn(l: Layout, mem: seq<byte>): nat
    requires l.Fits(|mem|)
  {
    OptionsFrom(l, mem, 0, 0)
  }

  /** What comes between invalidating and validating. */
  function BodyUpdates(fw: Firmware): seq<Update>
    requires fw.layout.MacroAddr() <= fw.layout.maxAddr
  {
    OptionsUpdates(fw.layout, fw.optionsDefault, 0)
    + ResetUpdates(fw.layout, fw.flash, fw.layout.layers)
    + MacroResetUpdates(fw.layout, fw.layout.MacroSize())
  }

  /** Every update of eeconfig_init_via, in order. */
  function InitUpdates(fw: Firmware): seq<Update>
    requires fw.layout.MacroAddr() <= fw.layout.maxAddr
  {
    MagicUpdates(fw.layout, ERASED) + BodyUpdates(fw) + MagicUpdates(fw.layout, Magic(fw.date))
  }

  class ViaStore {
    const firmware: Firmware
    const eeprom: Storage
    const keymap: Keymap

    ghost predicate Valid() {
      && firmware.layout.Fits(eeprom.cells.Length) && keymap.eeprom == eeprom && keymap.layout == firmware.layout
      && firmware.optionsDefault < 0x1_0000_0000
    }

    constructor (firmware: Firmware, eeprom: Storage)
      requires firmware.layout.Fits(eeprom.cells.Length) && firmware.optionsDefault < 0x1_0000_0000
      ensures Valid() && this.firmware == firmware && this.eeprom == eeprom
    {
      this.firmware, this.eeprom := firmware, eeprom;
      keymap := new Keymap(eeprom, firmware.layout);
    }

    method IsValid() returns (valid: bool)
      requires Valid()
      ensures valid == MagicOk(firmware, eeprom.cells[..])
    {
      var m, a := Magic(firmware.date), firmware.layout.magicAddr;
      var b0 := eeprom.ReadByte(a);
      var b1 := eeprom.ReadByte(a + 1);
      var b2 := eeprom.ReadByte(a + 2);
      valid := b0 == m[0] && b1 == m[1] && b2 == m[2];
      assert eeprom.cells[..][a..a + 3] == [b0, b1, b2];
    }

    method SetValid(valid: bool)
      requires Valid()
      modifies eeprom, eeprom.cells
      ensures Made(eeprom, MagicUpdates(firmware.layout, if valid then Magic(firmware.date) else ERASED))
    {
      var m := if valid then Magic(firmware.date) else ERASED;
      var a := firmware.layout.magicAddr;
      eeprom.UpdateByte(a, m[0]);
      eeprom.UpdateByte(a + 1, m[1]);
      eeprom.UpdateByte(a + 2, m[2]);
      ghost var ws := MagicUpdates(firmware.layout, m);
      assert ws[..2][..1] == ws[..1] && ws[..1][..0] == [];
      assert Apply(old(eeprom.cells[..]), ws[..1]) == old(eeprom.cells[..])[a := m[0]];
      assert Apply(old(eeprom.cells[..]), ws[..2]) == old(eeprom.cells[..])[a := m[0]][a + 1 := m[1]];
    }

    method SetLayoutOptions(value: nat)
      requires Valid()
      modifies eeprom, eeprom.cells
      ensures Made(eeprom, OptionsUpdates(firmware.layout, value, 0))
    {
      var l := firmware.layout;
      var target := l.OptionsAddr() + l.optionsSize - 1;
      var left, i := value, 0;
      ghost var done: seq<Update> := [];
      assert eeprom.updates + [] == eeprom.updates;
      assert [] + OptionsUpdates(l, value, 0) == OptionsUpdates(l, value, 0);
      while i < l.optionsSize
        invariant 0 <= i <= l.optionsSize && target == l.OptionsAddr() + l.optionsSize - 1 - i
        invariant OptionsUpdates(l, value, 0) == done + OptionsUpdates(l, left, i)
        invariant Made(eeprom, done)
      {
        SetOneByte(target, left % 0x100, done, old(eeprom.cells[..]), old(eeprom.updates));
        Reassociate(done, [Update(target, left % 0x100)], OptionsUpdates(l, left / 0x100, i + 1));
        done := done + [Update(target, left % 0x100)];
        left := left / 0x100;
        target, i := target - 1, i + 1;
      }
      assert done + [] == done;
    }

    method SetOneByte(target: nat, value: byte, ghost done: seq<Update>, ghost mem: seq<byte>, ghost log: seq<Update>)
      requires Valid() && target < eeprom.cells.Length
      requires InRange(|mem|, done) && eeprom.cells[..] == Apply(mem, done) && eeprom.updates == log + done
      modifies eeprom, eeprom.cells
      ensures InRange(|mem|, done + [Update(target, value)])
      ensures eeprom.cells[..] == Apply(mem, done + [Update(target, value)])
      ensures eeprom.updates == log + (done + [Update(target, value)])
    {
      eeprom.UpdateByte(target, value);
      assert (done + [Update(target, value)])[..|done|] == done;
    }

    method GetLayoutOptions() returns (value: nat)
      requires Valid()
      ensures value == OptionsIn(firmware.layout, eeprom.cells[..])
    {
      value := 0;
      var l := firmware.layout;
      var source, i := l.OptionsAddr(), 0;
      while i < l.optionsSize
        invariant 0 <= i <= l.optionsSize && source == l.OptionsAddr() + i
        invariant OptionsIn(l, eeprom.cells[..]) == OptionsFrom(l, eeprom.cells[..], i, value)
      {
        var b := eeprom.ReadByte(source);
        value := 0x100 * value + b;
        source, i := source + 1, i + 1;
      }
    }

    /** eeconfig_init_via. */
    method EeconfigInitVia()
      requires Valid()
      modifies eeprom, eeprom.cells
      ensures Made(eeprom, InitUpdates(firmware))
    {
      ghost var mem, log := eeprom.cells[..], eeprom.updates;
      ghost var erase := MagicUpdates(firmware.layout, ERASED);
      SetValid(false);
      InitBody();
      Append(mem, erase, BodyUpdates(firmware), eeprom.cells[..], log, eeprom.updates);
      SetValid(true);
      Append(mem, erase + BodyUpdates(firmware), MagicUpdates(firmware.layout, Magic(firmware.date)),
             eeprom.cells[..], log, eeprom.updates);
    }

    method InitBody()
      requires Valid()
      modifies eeprom, eeprom.cells
      ensures Made(eeprom, BodyUpdates(firmware))
    {
      ghost var mem, log := eeprom.cells[..], eeprom.updates;
      ghost var options := OptionsUpdates(firmware.layout, firmware.optionsDefault, 0);
      SetLayoutOptions(firmware.optionsDefault);
      keymap.Reset(firmware.flash);
      ghost var keys := ResetUpdates(firmware.layout, firmware.flash, firmware.layout.layers);
      Append(mem, options, keys, eeprom.cells[..], log, eeprom.updates);
      keymap.MacroReset();
      Append(mem, options + keys, MacroResetUpdates(firmware.layout, firmware.layout.MacroSize()),
             eeprom.cells[..], log, eeprom.updates);
    }

    /** via_init, without the keyboard's hooks. */
    method Init()
      requires Valid()
      modifies eeprom, eeprom.cells
      ensures if MagicOk(firmware, old(eeprom.cells[..])) then Made(eeprom, []) else Made(eeprom, InitUpdates(firmware))
    {
      assert eeprom.updates + [] == eeprom.updates;
      var valid := IsValid();
      if !valid { EeconfigInitVia(); }
    }
  }
}
