/** What sending a macro means: the id-th null-terminated string of the buffer, token by token
    (quantum/dynamic_keymap.c:257-340). */
module KeymapMacroTokens {
  import opened Eeprom
  import opened KeymapMacros

  // ------------------------------------------------------- the strings of the buffer

  /** The null-terminated strings of the buffer, in order; what follows the last null is dropped. */
  function Strings(b: seq<byte>): seq<seq<byte>> {
    Split(b, [])
  }

  /** The strings of `b`, the first of which starts with `head`. */
  function Split(b: seq<byte>, head: seq<byte>): seq<seq<byte>> {
    if b == [] then []
    else if b[0] == 0 then [head] + Split(b[1..], [])
    else Split(b[1..], head + [b[0]])
  }

  lemma {:induction false} SplitHead(b: seq<byte>, head: seq<byte>)
    ensures |Split(b, head)| == |Strings(b)|
    ensures Split(b, head) == if Strings(b) == [] then [] else [head + Strings(b)[0]] + Strings(b)[1..]
  {
    if b == [] {
    } else if b[0] == 0 {
      assert head + [] == head;
    } else {
      SplitHead(b[1..], head + [b[0]]);
      SplitHead(b[1..], [] + [b[0]]);
      if Strings(b[1..]) != [] {
        assert head + [b[0]] + Strings(b[1..])[0] == head + ([b[0]] + Strings(b[1..])[0]);
        assert [] + [b[0]] + Strings(b[1..])[0] == [b[0]] + Strings(b[1..])[0];
      }
    }
  }

  predicate NoNull(s: seq<byte>) { forall i | 0 <= i < |s| :: s[i] != 0 }

  /** A buffer starts with its first string and a null. */
  lemma {:induction false} FirstString(b: seq<byte>)
    requires Strings(b) != []
    ensures NoNull(Strings(b)[0])
    ensures Strings(b)[0] + [0] <= b && Strings(b)[1..] == Strings(b[|Strings(b)[0]| + 1..])
  {
    if b[0] == 0 {
    } else {
      SplitHead(b[1..], [] + [b[0]]);
      FirstString(b[1..]);
      var m := Strings(b[1..])[0];
      assert Strings(b)[0] == [b[0]] + m;
      assert b[1..][|m| + 1..] == b[|m| + 2..];
      assert m + [0] == b[1..][..|m| + 1];
      assert [b[0]] + m + [0] == b[..|m| + 2];
    }
  }

  /** Skipping `id` nulls: no such macro, or exactly the end of the buffer, or the start of
      the id-th string. */
  lemma {:induction false} SkipFinds(b: seq<byte>, id: nat)
    requires b == [] || b[|b| - 1] == 0
    ensures id > |Strings(b)| ==> Skip(b, id) == NoSuchMacro
    ensures id == |Strings(b)| ==> Skip(b, id) == Rest([])
    ensures id < |Strings(b)| ==> Skip(b, id).Rest? && Strings(b)[id] + [0] <= Skip(b, id).s && NoNull(Strings(b)[id])
    decreases |b|
  {
    if b == [] {
    } else if id == 0 {
      NonEmpty(b);
      FirstString(b);
    } else if b[0] == 0 {
      SkipFinds(b[1..], id - 1);
    } else {
      SkipFinds(b[1..], id);
      SplitHead(b[1..], [] + [b[0]]);
    }
  }

  lemma {:induction false} NonEmpty(b: seq<byte>)
    requires b != [] && b[|b| - 1] == 0
    ensures Strings(b) != []
  {
    if b[0] != 0 {
      NonEmpty(b[1..]);
      SplitHead(b[1..], [] + [b[0]]);
    }
  }

  // ------------------------------------------------------------------------- tokens

  /** The codes of the format: what a code follows, a delay, and the end of its digits. */
  const SS_PREFIX: byte := 1
  const SS_DELAY: byte := 4
  const SS_BAR: byte := 124

  /** Tap, press and release. */
  predicate TakesKey(code: byte) { code == 1 || code == 2 || code == 3 }

  datatype Token =
    | Char(c: byte)
    | Key(code: byte, key: byte)
    | Delay(digits: seq<byte>)

  predicate ValidToken(t: Token) {
    match t
    case Char(c) => c != 0 && c != SS_PREFIX
    case Key(code, key) => TakesKey(code) && key != 0
    case Delay(digits) => |digits| <= 4 && forall i | 0 <= i < |digits| :: digits[i] != 0 && digits[i] != SS_BAR
  }

  function Encode(t: Token): (s: seq<byte>)
    ensures s != []
  {
    match t
    case Char(c) => [c]
    case Key(code, key) => [SS_PREFIX, code, key]
    case Delay(digits) => [SS_PREFIX, SS_DELAY] + digits + [SS_BAR]
  }

  predicate ValidTokens(ts: seq<Token>) { forall i | 0 <= i < |ts| :: ValidToken(ts[i]) }

  function Chunks(ts: seq<Token>): (cs: seq<seq<byte>>)
    ensures |cs| == |ts|
  {
    if ts == [] then [] else [Encode(ts[0])] + Chunks(ts[1..])
  }

  function Flatten(cs: seq<seq<byte>>): seq<byte> {
    if cs == [] then [] else cs[0] + Flatten(cs[1..])
  }

  /** What may be left of a string that breaks off inside a token, or has a delay of more
      than four characters. */
  predicate BrokenOff(s: seq<byte>) {
    s != [] && s[0] == SS_PREFIX &&
    (|s| == 1 || (TakesKey(s[1]) && |s| == 2)
     || (s[1] == SS_DELAY && forall i | 2 <= i < |s| && i <= 6 :: s[i] != SS_BAR))
  }

  /** What starts with a code after the prefix that the sender does not know. */
  predicate Unknown(s: seq<byte>) {
    |s| >= 2 && s[0] == SS_PREFIX && s[1] != 0 && !TakesKey(s[1]) && s[1] != SS_DELAY
  }

  lemma {:induction false} CStringOf(s: seq<byte>, data: seq<byte>)
    requires NoNull(s) && s + [0] <= data
    ensures CString(data) == s
  {
    if s != [] {
      assert s[1..] + [0] <= data[1..] by {
        assert data[..|s| + 1] == s + [0];
        assert data[1..][..|s|] == data[..|s| + 1][1..];
      }
      assert data[0] == s[0];
      CStringOf(s[1..], data[1..]);
    } else {
      assert data[..1] == [0];
    }
  }

  /** From `i` on the scratch buffer holds the delay, its bar and a null, and what was there before. */
  ghost predicate HoldsDelay(d: Scratch, data: Scratch, digits: seq<byte>, i: nat)
    requires i + |digits| <= 6
  {
    && (forall k | 0 <= k < i :: d[k] == data[k])
    && (forall k | 0 <= k < |digits| :: d[i + k] == digits[k])
    && d[i + |digits|] == SS_BAR && d[i + |digits| + 1] == 0
  }

  lemma {:induction false} HoldsOneMore(d: Scratch, data: Scratch, digits: seq<byte>, i: nat)
    requires digits != [] && i + |digits| <= 6 && HoldsDelay(d, data[i := digits[0]], digits[1..], i + 1)
    ensures HoldsDelay(d, data, digits, i)
  {
    forall k | 0 <= k < |digits| ensures d[i + k] == digits[k] {
      if k > 0 { assert d[i + 1 + (k - 1)] == digits[1..][k - 1]; }
    }
  }

  /** Reading the digits of a delay up to its bar. */
  lemma {:induction false} ScanReadsDigits(digits: seq<byte>, rest: seq<byte>, i: nat, data: Scratch)
    requires 2 <= i && i + |digits| <= 6
    requires forall k | 0 <= k < |digits| :: digits[k] != 0 && digits[k] != SS_BAR
    ensures var r := ScanDelay(digits + [SS_BAR] + rest, i, data);
      r.Chunk? && r.rest == rest && HoldsDelay(r.data, data, digits, i)
    decreases |digits|
  {
    var s := digits + [SS_BAR] + rest;
    if digits == [] {
      assert s[1..] == rest && s[0] == SS_BAR;
    } else {
      assert s[0] == digits[0] && s[1..] == digits[1..] + [SS_BAR] + rest;
      ScanReadsDigits(digits[1..], rest, i + 1, data[i := s[0]]);
      HoldsOneMore(ScanDelay(s, i, data).data, data, digits, i);
    }
  }

  /** The string that starts at the first of the digits. */
  lemma {:induction false} DelayString(d: Scratch, data: Scratch, digits: seq<byte>)
    requires |digits| <= 4 && HoldsDelay(d, data, digits, 2) && NoNull(digits)
    ensures CString(d[2..]) == digits + [SS_BAR]
  {
    var t := digits + [SS_BAR];
    forall k | 0 <= k < |t + [0]| ensures d[2..][k] == (t + [0])[k] {
      if k < |digits| { assert d[2 + k] == digits[k]; }
    }
    assert t + [0] == d[2..][..|t + [0]|];
    CStringOf(t, d[2..]);
  }

  lemma {:induction false} DelayReadsItself(digits: seq<byte>, rest: seq<byte>, data: Scratch)
    requires ValidToken(Delay(digits))
    ensures var r := KeymapMacros.Token(Encode(Delay(digits)) + rest, data);
      && r.Chunk? && r.rest == rest
      && CString(r.data) == Encode(Delay(digits)) && CString(r.data[2..]) == digits + [SS_BAR]
  {
    var t := Encode(Delay(digits));
    var r := KeymapMacros.Token(t + rest, data);
    assert (t + rest)[2..] == digits + [SS_BAR] + rest;
    ScanReadsDigits(digits, rest, 2, data[0 := SS_PREFIX][1 := SS_DELAY]);
    DelayString(r.data, data[0 := SS_PREFIX][1 := SS_DELAY], digits);
    TwoThenRest(r.data);
  }

  lemma {:induction false} TwoThenRest(d: seq<byte>)
    requires |d| >= 2 && d[0] != 0 && d[1] != 0
    ensures CString(d) == [d[0], d[1]] + CString(d[2..])
  {
    assert d[1..][1..] == d[2..];
    assert CString(d) == [d[0]] + CString(d[1..]);
    assert CString(d[1..]) == [d[1]] + CString(d[2..]);
    assert [d[0]] + ([d[1]] + CString(d[2..])) == [d[0], d[1]] + CString(d[2..]);
  }

  /** A token is read as itself, whatever earlier tokens left in the scratch buffer. */
  lemma {:induction false} TokenReadsItself(t: Token, rest: seq<byte>, data: Scratch)
    requires ValidToken(t)
    ensures var r := KeymapMacros.Token(Encode(t) + rest, data);
      r.Chunk? && r.rest == rest && CString(r.data) == Encode(t)
  {
    var s := Encode(t) + rest;
    var r := KeymapMacros.Token(s, data);
    match t {
      case Char(c) =>
        assert s[1..] == rest;
        CStringOf(Encode(t), r.data);
      case Key(code, key) =>
        assert s[2..][1..] == rest;
        CStringOf(Encode(t), r.data);
      case Delay(digits) =>
        DelayReadsItself(digits, rest, data);
    }
  }

  /** A delay that does not end in time stops the sending. */
  lemma {:induction false} ScanStops(s: seq<byte>, i: nat, data: Scratch, more: seq<byte>)
    requires 2 <= i <= 6 && NoNull(s) && forall k | 0 <= k < |s| && i + k <= 6 :: s[k] != SS_BAR
    ensures ScanDelay(s + [0] + more, i, data) == Stop
    decreases |s|
  {
    var b := s + [0] + more;
    if s != [] && i < 6 {
      assert b[1..] == s[1..] + [0] + more;
      ScanStops(s[1..], i + 1, data[i := b[0]], more);
    }
  }

  lemma {:induction false} BrokenOffStops(s: seq<byte>, data: Scratch, more: seq<byte>)
    requires (s == [] || BrokenOff(s)) && NoNull(s)
    ensures KeymapMacros.Token(s + [0] + more, data) == Stop
  {
    var b := s + [0] + more;
    if |s| >= 2 && s[1] == SS_DELAY {
      assert b[2..] == s[2..] + [0] + more;
      ScanStops(s[2..], 2, data[0 := SS_PREFIX][1 := SS_DELAY], more);
    }
  }

  /** Whole tokens are sent, one chunk each, up to where the string ends or breaks off. */
  lemma {:induction false} SendsTokens(ts: seq<Token>, tail: seq<byte>, more: seq<byte>, data: Scratch)
    requires ValidTokens(ts) && (tail == [] || BrokenOff(tail)) && NoNull(tail)
    ensures Sending(Flatten(Chunks(ts)) + tail + [0] + more, data) == Outcome(Chunks(ts), false)
    decreases |ts|
  {
    var b := Flatten(Chunks(ts)) + tail + [0] + more;
    if ts == [] {
      assert b == tail + [0] + more;
      BrokenOffStops(tail, data, more);
    } else {
      var rest := Flatten(Chunks(ts[1..])) + tail + [0] + more;
      assert b == Encode(ts[0]) + rest;
      TokenReadsItself(ts[0], rest, data);
      SendsTokens(ts[1..], tail, more, KeymapMacros.Token(b, data).data);
    }
  }

  /** A string cut into its tokens and what is left. */
  datatype Cut = Cut(ts: seq<Token>, tail: seq<byte>)

  /** The first bar from `n` on, or the end. */
  function DelayEnd(s: seq<byte>, n: nat): (k: nat)
    requires n <= |s|
    ensures n <= k <= |s| && (k < |s| ==> s[k] == SS_BAR) && forall i | n <= i < k :: s[i] != SS_BAR
    decreases |s| - n
  {
    if n == |s| || s[n] == SS_BAR then n else DelayEnd(s, n + 1)
  }

  function Parse(s: seq<byte>): (c: Cut)
    requires NoNull(s)
    ensures ValidTokens(c.ts) && NoNull(c.tail) && (c.tail == [] || BrokenOff(c.tail) || Unknown(c.tail))
    ensures Flatten(Chunks(c.ts)) + c.tail == s
    decreases |s|, 0
  {
    if s == [] then Cut([], [])
    else if s[0] != SS_PREFIX then Then(Char(s[0]), s[1..], s)
    else if |s| >= 3 && TakesKey(s[1]) then Then(Key(s[1], s[2]), s[3..], s)
    else if |s| >= 2 && s[1] == SS_DELAY && DelayEnd(s, 2) < |s| && DelayEnd(s, 2) <= 6 then
      var n := DelayEnd(s, 2);
      Then(Delay(s[2..n]), s[n + 1..], s)
    else Cut([], s)
  }

  lemma {:induction false} FlattenOneMore(t: Token, ts: seq<Token>, tail: seq<byte>)
    ensures Flatten(Chunks([t] + ts)) + tail == Encode(t) + (Flatten(Chunks(ts)) + tail)
  {
    assert ([t] + ts)[1..] == ts;
    assert ([Encode(t)] + Chunks(ts))[1..] == Chunks(ts);
    assert Encode(t) + Flatten(Chunks(ts)) + tail == Encode(t) + (Flatten(Chunks(ts)) + tail);
  }

  function Then(t: Token, rest: seq<byte>, s: seq<byte>): (c: Cut)
    requires NoNull(s) && NoNull(rest) && ValidToken(t) && s == Encode(t) + rest
    ensures ValidTokens(c.ts) && NoNull(c.tail) && (c.tail == [] || BrokenOff(c.tail) || Unknown(c.tail))
    ensures Flatten(Chunks(c.ts)) + c.tail == s
    decreases |rest|, 1
  {
    var c := Parse(rest);
    FlattenOneMore(t, c.ts, c.tail);
    Cut([t] + c.ts, c.tail)
  }

  // ------------------------------------------------------------------- main results

  /** What the sender is given for a macro whose codes are all known: its tokens, one chunk
      each, up to the end of the string or to where it breaks off. */
  lemma {:induction false} SendsTheMacro(b: seq<byte>, count: nat, id: nat)
    requires b != [] && b[|b| - 1] == 0 && id < count && id < |Strings(b)|
    ensures NoNull(Strings(b)[id])
    ensures var c := Parse(Strings(b)[id]); !Unknown(c.tail) ==> MacroSend(b, count, id) == Outcome(Chunks(c.ts), false)
  {
    SkipFinds(b, id);
    var m, s := Strings(b)[id], Skip(b, id).s;
    var c := Parse(m);
    if !Unknown(c.tail) {
      var more := s[|m| + 1..];
      assert s == m + [0] + more;
      SendsTokens(c.ts, c.tail, more, CLEAR);
    }
  }

  /** The chunks joined are a prefix of the id-th string, and all of it exactly when the
      string is made of whole tokens. */
  lemma {:induction false} WholeStringExactlyWhenComplete(b: seq<byte>, count: nat, id: nat)
    requires b != [] && b[|b| - 1] == 0 && id < count && id < |Strings(b)|
    ensures NoNull(Strings(b)[id])
    ensures var m, c := Strings(b)[id], Parse(Strings(b)[id]);
      !Unknown(c.tail) ==>
        (Flatten(MacroSend(b, count, id).chunks) <= m
          && (Flatten(MacroSend(b, count, id).chunks) == m <==> c.tail == []))
  {
    SendsTheMacro(b, count, id);
    var m, c := Strings(b)[id], Parse(Strings(b)[id]);
    assert m == Flatten(Chunks(c.ts)) + c.tail;
  }

  /** Any sequence of valid tokens, stored as the id-th string, is sent as it is. */
  lemma {:induction false} StoredTokensAreSent(before: seq<byte>, ts: seq<Token>, more: seq<byte>, b: seq<byte>,
                                               count: nat)
    requires ValidTokens(ts) && (before == [] || before[|before| - 1] == 0) && |Strings(before)| < count
    requires b == before + (Flatten(Chunks(ts)) + [] + [0] + more) && b[|b| - 1] == 0
    ensures MacroSend(b, count, |Strings(before)|) == Outcome(Chunks(ts), false)
  {
    SkipPast(before, Flatten(Chunks(ts)) + [] + [0] + more, |Strings(before)|);
    SendsTokens(ts, [], more, CLEAR);
  }

  lemma {:induction false} SkipPast(before: seq<byte>, s: seq<byte>, id: nat)
    requires (before == [] || before[|before| - 1] == 0) && id == |Strings(before)|
    ensures Skip(before + s, id) == Rest(s)
    decreases |before|
  {
    if before == [] {
      assert before + s == s;
    } else {
      NonEmpty(before);
      assert (before + s)[1..] == before[1..] + s;
      SplitHead(before[1..], [] + [before[0]]);
      SkipPast(before[1..], s, if before[0] == 0 then id - 1 else id);
    }
  }

  /** One token read from a string with a null behind it stops at the null or before. */
  lemma {:induction false} TokenStaysInside(s: seq<byte>, more: seq<byte>, data: Scratch) returns (k: nat)
    requires NoNull(s)
    ensures var r, r' := KeymapMacros.Token(s + [0] + more, data), KeymapMacros.Token(s + [0], data);
      || (r == Stop && r' == Stop)
      || (r.Chunk? && r'.Chunk? && r.data == r'.data && 0 < k <= |s| && r.rest == s[k..] + [0] + more
        && r'.rest == s[k..] + [0])
  {
    k := 1;
    var b, b' := s + [0] + more, s + [0];
    if s == [] { return; }
    assert b[1..] == s[1..] + [0] + more && b'[1..] == s[1..] + [0];
    if s[0] == SS_PREFIX && |s| >= 2 {
      k := 2;
      assert b[2..] == s[2..] + [0] + more && b'[2..] == s[2..] + [0];
      if TakesKey(s[1]) {
        k := 3;
        if |s| >= 3 { assert b[2..][1..] == s[3..] + [0] + more && b'[2..][1..] == s[3..] + [0]; }
      } else if s[1] == SS_DELAY {
        var n := ScanStaysInside(s[2..], 2, more, data[0 := SS_PREFIX][1 := SS_DELAY]);
        k := 2 + n;
        if n <= |s| - 2 { assert s[2..][n..] == s[k..]; }
      }
    }
  }

  lemma {:induction false} ScanStaysInside(s: seq<byte>, i: nat, more: seq<byte>, data: Scratch) returns (n: nat)
    requires NoNull(s) && 2 <= i <= 6
    ensures var r, r' := ScanDelay(s + [0] + more, i, data), ScanDelay(s + [0], i, data);
      || (r == Stop && r' == Stop)
      || (r.Chunk? && r'.Chunk? && r.data == r'.data && 0 < n <= |s| && r.rest == s[n..] + [0] + more
        && r'.rest == s[n..] + [0])
    decreases |s|
  {
    n := 1;
    if s != [] {
      assert (s + [0] + more)[1..] == s[1..] + [0] + more && (s + [0])[1..] == s[1..] + [0];
      if s[0] != SS_BAR && i < 6 {
        var m := ScanStaysInside(s[1..], i + 1, more, data[i := s[0]]);
        n := m + 1;
        if m <= |s| - 1 { assert s[1..][m..] == s[n..]; }
      }
    }
  }

  /** Nothing past a string's null is ever read: what is sent does not depend on it. */
  lemma {:induction false} NeverPastTheTerminator(s: seq<byte>, more: seq<byte>, data: Scratch)
    requires NoNull(s)
    ensures Sending(s + [0] + more, data) == Sending(s + [0], data) && !Sending(s + [0], data).overran
    decreases |s|
  {
    var k := TokenStaysInside(s, more, data);
    var r := KeymapMacros.Token(s + [0], data);
    if r.Chunk? { NeverPastTheTerminator(s[k..], more, r.data); }
  }

  /** The sender runs past the macro buffer exactly when the buffer holds exactly `id` nulls. */
  lemma {:induction false} OverrunsExactlyWhen(b: seq<byte>, count: nat, id: nat)
    requires b != []
    ensures MacroSend(b, count, id).overran <==> id < count && b[|b| - 1] == 0 && id == |Strings(b)|
    ensures b[|b| - 1] == 0 && id > |Strings(b)| ==> MacroSend(b, count, id) == Outcome([], false)
  {
    if id < count && b[|b| - 1] == 0 {
      SkipFinds(b, id);
      if id < |Strings(b)| {
        var m, s := Strings(b)[id], Skip(b, id).s;
        assert s == m + [0] + s[|m| + 1..];
        NeverPastTheTerminator(m, s[|m| + 1..], CLEAR);
      }
    }
  }

  // ---------------------------------------------------------------- codes nobody knows

  predicate UnknownCode(code: byte) { code != 0 && !TakesKey(code) && code != SS_DELAY }

  /** What a token leaves in the scratch buffer behind the code. */
  function Payload(t: Token): seq<byte> {
    match t
    case Char(_) => []
    case Key(_, key) => [key]
    case Delay(digits) => digits + [SS_BAR]
  }

  /** What is left there after the tokens: the key or delay of the last one that had any. */
  function Leftover(ts: seq<Token>, before: seq<byte>): seq<byte> {
    if ts == [] then before else Leftover(ts[1..], if ts[0].Char? then before else Payload(ts[0]))
  }

  lemma {:induction false} TokenLeaves(t: Token, rest: seq<byte>, data: Scratch)
    requires ValidToken(t)
    ensures var r := KeymapMacros.Token(Encode(t) + rest, data);
      r.Chunk? && CString(r.data[2..]) == if t.Char? then CString(data[2..]) else Payload(t)
  {
    TokenReadsItself(t, rest, data);
    var s := Encode(t) + rest;
    var r := KeymapMacros.Token(s, data);
    match t {
      case Char(c) =>
        assert r.data[2..] == data[2..];
      case Key(code, key) =>
        assert s[2..][0] == key;
        CStringOf([key], r.data[2..]);
      case Delay(digits) =>
        DelayReadsItself(digits, rest, data);
    }
  }

  lemma {:induction false} UnknownIsSent(code: byte, more: seq<byte>, data: Scratch)
    requires UnknownCode(code)
    ensures var o := Sending([SS_PREFIX, code] + more, data);
      o.chunks != [] && o.chunks[0] == [SS_PREFIX, code] + CString(data[2..])
  {
    var d := data[0 := SS_PREFIX][1 := code];
    TwoThenRest(d);
    assert d[2..] == data[2..];
  }

  /** Known tokens and then a code the sender does not know: it goes out with what the last key or
      delay before it left behind. */
  lemma {:induction false} UnknownAfterTokens(ts: seq<Token>, code: byte, more: seq<byte>, data: Scratch)
    requires ValidTokens(ts) && UnknownCode(code)
    ensures var o := Sending(Flatten(Chunks(ts)) + [SS_PREFIX, code] + more, data);
      |o.chunks| > |ts| && o.chunks[..|ts|] == Chunks(ts)
      && o.chunks[|ts|] == [SS_PREFIX, code] + Leftover(ts, CString(data[2..]))
    decreases |ts|
  {
    var b := Flatten(Chunks(ts)) + [SS_PREFIX, code] + more;
    if ts == [] {
      assert b == [SS_PREFIX, code] + more;
      UnknownIsSent(code, more, data);
    } else {
      var rest := Flatten(Chunks(ts[1..])) + [SS_PREFIX, code] + more;
      assert b == Encode(ts[0]) + rest;
      TokenReadsItself(ts[0], rest, data);
      TokenLeaves(ts[0], rest, data);
      UnknownAfterTokens(ts[1..], code, more, KeymapMacros.Token(b, data).data);
    }
  }

  lemma {:induction false} LeftoverExactlyWhen(ts: seq<Token>, before: seq<byte>)
    requires ValidTokens(ts)
    ensures Leftover(ts, before) == [] <==> before == [] && forall i | 0 <= i < |ts| :: ts[i].Char?
    decreases |ts|
  {
    if ts != [] {
      LeftoverExactlyWhen(ts[1..], if ts[0].Char? then before else Payload(ts[0]));
      assert forall i | 0 < i < |ts| :: ts[i] == ts[1..][i - 1];
      if ts[0].Char? && !(forall i | 0 <= i < |ts[1..]| :: ts[1..][i].Char?) {
        var i :| 0 <= i < |ts[1..]| && !ts[1..][i].Char?;
        assert !ts[i + 1].Char?;
      }
    }
  }

  /** What is sent for the macro that starts behind `before`. */
  lemma {:induction false} SendsFrom(before: seq<byte>, s: seq<byte>, b: seq<byte>, count: nat)
    requires (before == [] || before[|before| - 1] == 0) && |Strings(before)| < count
    requires b == before + s && b != [] && b[|b| - 1] == 0
    ensures MacroSend(b, count, |Strings(before)|) == Sending(s, CLEAR)
  {
    SkipPast(before, s, |Strings(before)|);
  }

  lemma {:induction false} UnknownFromClear(ts: seq<Token>, code: byte, more: seq<byte>, o: Outcome)
    requires ValidTokens(ts) && UnknownCode(code)
    requires o == Sending(Flatten(Chunks(ts)) + [SS_PREFIX, code] + more, CLEAR)
    ensures |o.chunks| > |ts| && o.chunks[..|ts|] == Chunks(ts)
    ensures o.chunks[|ts|] == [SS_PREFIX, code] + Leftover(ts, [])
  {
    assert CString(CLEAR[2..]) == [];
    UnknownAfterTokens(ts, code, more, CLEAR);
  }

  /** In a macro of known tokens and then an unknown code, the code goes out alone exactly when none
      of the tokens is a key or a delay. */
  lemma {:induction false} UnknownCodeSendsLeftovers(before: seq<byte>, ts: seq<Token>, code: byte, more: seq<byte>,
                                                    b: seq<byte>, count: nat)
    requires ValidTokens(ts) && UnknownCode(code)
    requires (before == [] || before[|before| - 1] == 0) && |Strings(before)| < count
    requires b == before + (Flatten(Chunks(ts)) + [SS_PREFIX, code] + more) && b[|b| - 1] == 0
    ensures var o := MacroSend(b, count, |Strings(before)|);
      && |o.chunks| > |ts| && o.chunks[..|ts|] == Chunks(ts)
      && o.chunks[|ts|] == [SS_PREFIX, code] + Leftover(ts, [])
      && (o.chunks[|ts|] == [SS_PREFIX, code] <==> forall i | 0 <= i < |ts| :: ts[i].Char?)
  {
    SendsFrom(before, Flatten(Chunks(ts)) + [SS_PREFIX, code] + more, b, count);
    UnknownFromClear(ts, code, more, MacroSend(b, count, |Strings(before)|));
    LeftoverExactlyWhen(ts, []);
  }

  /** For instance: after a tap of any key, an unknown code sends that key once more. */
  lemma {:induction false} LeftoverKeyIsSentAgain(key: byte, code: byte, data: Scratch)
    requires key != 0 && code > SS_DELAY
    ensures var o := Sending(Encode(Key(1, key)) + [SS_PREFIX, code, 0], data);
      |o.chunks| > 1 && o.chunks[0] == Encode(Key(1, key)) && o.chunks[1] == [SS_PREFIX, code, key]
  {
    var ts := [Key(1, key)];
    UnknownAfterTokens(ts, code, [0], data);
    assert ts[1..] == [] && Flatten(Chunks(ts)) == Encode(Key(1, key)) + [];
    assert Encode(Key(1, key)) + [] + [SS_PREFIX, code] + [0] == Encode(Key(1, key)) + [SS_PREFIX, code, 0];
    assert Leftover(ts, CString(data[2..])) == [key] && [SS_PREFIX, code] + [key] == [SS_PREFIX, code, key];
    assert Chunks(ts)[0] == Sending(Encode(Key(1, key)) + [SS_PREFIX, code, 0], data).chunks[..1][0];
  }
}
