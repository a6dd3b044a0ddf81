/** JSON strings: the printer's escapes, the reader's string loop, and the
    grammar of RFC 8259 section 7 the two agree on. */
module Text {
  import opened Bytes
  import Utf8

  // ---- printing ----

  function HexDigit(n: nat): byte
    requires n < 16
  {
    if n < 10 then ZERO + n else 0x61 + (n - 10)
  }

  function EscByte(c: byte): bytes
  {
    if c == QUOTE then [BACKSLASH, QUOTE]
    else if c == BACKSLASH then [BACKSLASH, BACKSLASH]
    else if c == 0x08 then [BACKSLASH, 0x62]
    else if c == 0x0C then [BACKSLASH, 0x66]
    else if c == 0x0A then [BACKSLASH, 0x6E]
    else if c == 0x0D then [BACKSLASH, 0x72]
    else if c == 0x09 then [BACKSLASH, 0x74]
    else if c < 0x20 then [BACKSLASH, LOWER_U, ZERO, ZERO, HexDigit(c / 16), HexDigit(c % 16)]
    else [c]
  }

  /** s escaped, in front of tail. */
  function Escaped(s: bytes, tail: bytes): bytes
  {
    if s == [] then tail else EscByte(s[0]) + Escaped(s[1..], tail)
  }

  /** s as a JSON string, in front of tail. */
  function Quoted(s: bytes, tail: bytes): bytes { [QUOTE] + Escaped(s, [QUOTE] + tail) }

  lemma {:induction false} EscapedAppends(s: bytes, t: bytes, tail: bytes)
    ensures Escaped(s, t + tail) == Escaped(s, t) + tail
  {
    if s != [] {
      EscapedAppends(s[1..], t, tail);
      assert EscByte(s[0]) + (Escaped(s[1..], t) + tail) == (EscByte(s[0]) + Escaped(s[1..], t)) + tail;
    }
  }

  lemma {:induction false} QuotedAppends(s: bytes, t: bytes, tail: bytes)
    ensures Quoted(s, t + tail) == Quoted(s, t) + tail
  {
    assert [QUOTE] + (t + tail) == ([QUOTE] + t) + tail;
    EscapedAppends(s, [QUOTE] + t, tail);
  }

  lemma {:induction false} EscapedGrows(s: bytes, c: byte, tail: bytes)
    ensures Escaped(s + [c], tail) == Escaped(s, EscByte(c) + tail)
  {
    if s == [] {
      assert s + [c] == [c];
    } else {
      assert (s + [c])[1..] == s[1..] + [c];
      EscapedGrows(s[1..], c, tail);
    }
  }

  lemma {:induction false} EscStep(s: bytes, i: nat)
    requires i < |s|
    ensures Escaped(s[..i + 1], []) == Escaped(s[..i], []) + EscByte(s[i])
  {
    assert s[..i + 1] == s[..i] + [s[i]];
    EscapedGrows(s[..i], s[i], []);
    assert EscByte(s[i]) + [] == [] + EscByte(s[i]);
    EscapedAppends(s[..i], [], EscByte(s[i]));
  }

  lemma {:induction false} EscEnd(s: bytes)
    ensures Quoted(s, []) == [QUOTE] + Escaped(s, []) + [QUOTE]
  {
    assert [QUOTE] + [] == [] + [QUOTE];
    EscapedAppends(s, [], [QUOTE]);
  }

  /** The printer's loop: it appends, byte by byte, the quoted string. */
  method Esc(out: bytes, s: bytes) returns (r: bytes)
    ensures r == out + Quoted(s, [])
  {
    r := out + [QUOTE];
    ghost var text: bytes := [];
    for i := 0 to |s|
      invariant text == Escaped(s[..i], [])
      invariant r == out + ([QUOTE] + text)
    {
      EscStep(s, i);
      var more := EscByte(s[i]);
      assert out + ([QUOTE] + text) + more == out + ([QUOTE] + (text + more));
      r := r + more;
      text := text + more;
    }
    assert s[..|s|] == s;
    EscEnd(s);
    assert out + ([QUOTE] + text) + [QUOTE] == out + ([QUOTE] + text + [QUOTE]);
    r := r + [QUOTE];
  }

  // ---- reading ----

  function HexValue(c: byte): int
  {
    if ZERO <= c <= NINE then c - ZERO
    else if 0x61 <= c <= 0x66 then c - 0x61 + 10
    else if 0x41 <= c <= 0x46 then c - 0x41 + 10
    else -1
  }

  predicate IsHex(c: byte) { HexValue(c) >= 0 }

  function Hex(q: bytes): (u: nat)
    requires |q| == 4 && forall i :: 0 <= i < 4 ==> IsHex(q[i])
    ensures u <= 0xFFFF
  {
    var a, b, c, d := HexValue(q[0]), HexValue(q[1]), HexValue(q[2]), HexValue(q[3]);
    assert IsHex(q[0]) && IsHex(q[1]) && IsHex(q[2]) && IsHex(q[3]);
    ((a * 16 + b) * 16 + c) * 16 + d
  }

  /** The first k digits, the way a reader gathers them. */
  function HexSoFar(q: bytes, k: nat): nat
    requires k <= |q| && forall i :: 0 <= i < k ==> IsHex(q[i])
  {
    if k == 0 then 0
    else
      assert IsHex(q[k - 1]);
      HexSoFar(q, k - 1) * 16 + HexValue(q[k - 1])
  }

  lemma {:induction false} HexGathers(q: bytes)
    requires |q| == 4 && forall i :: 0 <= i < 4 ==> IsHex(q[i])
    ensures HexSoFar(q, 4) == Hex(q)
  {
    assert HexSoFar(q, 1) == HexValue(q[0]);
    assert HexSoFar(q, 2) == HexSoFar(q, 1) * 16 + HexValue(q[1]);
    assert HexSoFar(q, 3) == HexSoFar(q, 2) * 16 + HexValue(q[2]);
  }

  lemma {:induction false} HexSoFarOfPrefix(s: bytes, k: nat)
    requires k <= 4 <= |s| && forall i :: 0 <= i < k ==> IsHex(s[i])
    ensures HexSoFar(s[..4], k) == HexSoFar(s, k)
  {
    if k > 0 {
      HexSoFarOfPrefix(s, k - 1);
    }
  }

  lemma {:induction false} HexOfPrefix(s: bytes)
    requires |s| >= 4 && forall i :: 0 <= i < 4 ==> IsHex(s[i])
    ensures HexSoFar(s, 4) == Hex(s[..4])
  {
    HexSoFarOfPrefix(s, 4);
    HexGathers(s[..4]);
  }

  function Hex4(s: bytes): (r: Parsed<nat>)
    ensures r.Ok? ==> r.value <= 0xFFFF && |r.rest| < |s|
  {
    if |s| >= 4 && IsHex(s[0]) && IsHex(s[1]) && IsHex(s[2]) && IsHex(s[3])
    then Ok(Hex(s[..4]), s[4..]) else Refused(BadString, s)
  }

  predicate IsHighSurrogate(u: int) { 0xD800 <= u <= 0xDBFF }

  predicate IsLowSurrogate(u: int) { 0xDC00 <= u <= 0xDFFF }

  function JoinSurrogates(hi: int, lo: int): (cp: int)
    requires IsHighSurrogate(hi) && IsLowSurrogate(lo)
    ensures 0x10000 <= cp <= 0x10FFFF
  {
    0x10000 + (hi - 0xD800) * 1024 + (lo - 0xDC00)
  }

  /** The byte a one-letter escape stands for. */
  function Unescape(c: byte): Option<byte>
  {
    if c == QUOTE || c == BACKSLASH || c == SLASH then Some(c)
    else if c == 0x62 then Some(0x08)
    else if c == 0x66 then Some(0x0C)
    else if c == 0x6E then Some(0x0A)
    else if c == 0x72 then Some(0x0D)
    else if c == 0x74 then Some(0x09)
    else None
  }

  /** After a backslash and u: four digits, or two surrogates. */
  function UnicodeEscape(s: bytes): (r: Parsed<bytes>)
    ensures r.Ok? ==> |r.rest| < |s|
  {
    match Hex4(s)
    case Refused(w, rest) => Refused(w, rest)
    case Ok(u, rest) =>
      if IsLowSurrogate(u) then Refused(BadString, rest)
      else if IsHighSurrogate(u) then
        if |rest| < 2 || rest[0] != BACKSLASH || rest[1] != LOWER_U then Refused(BadString, rest)
        else
          match Hex4(rest[2..])
          case Refused(w, rest') => Refused(w, rest')
          case Ok(lo, rest') =>
            if !IsLowSurrogate(lo) then Refused(BadString, rest')
            else Ok(Utf8.AppendRune(JoinSurrogates(u, lo)), rest')
      else Ok(Utf8.AppendRune(u), rest)
  }

  /** One escape, from its backslash on: the bytes it adds. */
  function Escape(s: bytes): (r: Parsed<bytes>)
    requires s != []
    ensures r.Ok? ==> |r.rest| < |s|
  {
    if |s| == 1 then Refused(Malformed, [])
    else if Unescape(s[1]).Some? then Ok([Unescape(s[1]).value], s[2..])
    else if s[1] == LOWER_U then UnicodeEscape(s[2..])
    else Refused(BadString, s[2..])
  }

  /** The string loop: s is what is left, out what was read. */
  function Body(s: bytes, out: bytes): (r: Parsed<bytes>)
    ensures r.Ok? ==> |r.rest| < |s| && Utf8.Valid(r.value)
    decreases |s|
  {
    if s == [] then Refused(Malformed, s)
    else if s[0] == QUOTE then
      if Utf8.Valid(out) then Ok(out, s[1..]) else Refused(BadString, s[1..])
    else if s[0] < 0x20 then Refused(BadString, s)
    else if s[0] == BACKSLASH then
      match Escape(s)
      case Refused(w, rest) => Refused(w, rest)
      case Ok(more, rest) => Body(rest, out + more)
    else Body(s[1..], out + [s[0]])
  }

  function Str(s: bytes): (r: Parsed<bytes>)
    ensures r.Ok? ==> |r.rest| < |s| && Utf8.Valid(r.value)
  {
    if At(s) != QUOTE then Refused(WrongType, s) else Body(s[1..], [])
  }

  // ---- the grammar ----

  /** One character of a string as it may be spelled. */
  datatype Ch = Plain(c: byte) | Short(letter: byte) | Four(q: bytes) | Pair(hi: bytes, lo: bytes)

  predicate IsQuad(q: bytes) { |q| == 4 && forall i :: 0 <= i < 4 ==> IsHex(q[i]) }

  predicate ChOk(ch: Ch)
  {
    match ch
    case Plain(c) => c >= 0x20 && c != QUOTE && c != BACKSLASH
    case Short(l) => Unescape(l).Some?
    case Four(q) => IsQuad(q) && !IsHighSurrogate(Hex(q)) && !IsLowSurrogate(Hex(q))
    case Pair(hi, lo) => IsQuad(hi) && IsQuad(lo) && IsHighSurrogate(Hex(hi)) && IsLowSurrogate(Hex(lo))
  }

  type char_ = ch: Ch | ChOk(ch) witness Plain(SPACE)

  function ChText(ch: char_, tail: bytes): bytes
  {
    match ch
    case Plain(c) => [c] + tail
    case Short(l) => [BACKSLASH, l] + tail
    case Four(q) => [BACKSLASH, LOWER_U, q[0], q[1], q[2], q[3]] + tail
    case Pair(hi, lo) => [BACKSLASH, LOWER_U, hi[0], hi[1], hi[2], hi[3], BACKSLASH, LOWER_U, lo[0], lo[1], lo[2], lo[3]] + tail
  }

  function ChMeans(ch: char_): bytes
  {
    match ch
    case Plain(c) => [c]
    case Short(l) => [Unescape(l).value]
    case Four(q) => Utf8.AppendRune(Hex(q))
    case Pair(hi, lo) => Utf8.AppendRune(JoinSurrogates(Hex(hi), Hex(lo)))
  }

  function Spelled(chs: seq<char_>, tail: bytes): bytes
  {
    if chs == [] then tail else ChText(chs[0], Spelled(chs[1..], tail))
  }

  function Meaning(chs: seq<char_>): bytes
  {
    if chs == [] then [] else ChMeans(chs[0]) + Meaning(chs[1..])
  }

  /** A whole string token. */
  function StrText(chs: seq<char_>, tail: bytes): bytes { [QUOTE] + Spelled(chs, [QUOTE] + tail) }

  /** Four digits after a backslash and a u, and what follows them. */
  lemma {:induction false} UnicodeStarts(q: bytes, tail: bytes, s: bytes)
    requires |q| == 4 && s == [BACKSLASH, LOWER_U, q[0], q[1], q[2], q[3]] + tail
    ensures s[2..][..4] == q && s[2..][4..] == tail
  {
  }

  /** A pair is two of them. */
  lemma {:induction false} PairSplits(hi: bytes, lo: bytes, tail: bytes) returns (r: bytes)
    requires |hi| == |lo| == 4
    ensures r == [BACKSLASH, LOWER_U, lo[0], lo[1], lo[2], lo[3]] + tail
    ensures [BACKSLASH, LOWER_U, hi[0], hi[1], hi[2], hi[3], BACKSLASH, LOWER_U, lo[0], lo[1], lo[2], lo[3]] + tail
            == [BACKSLASH, LOWER_U, hi[0], hi[1], hi[2], hi[3]] + r
  {
    r := [BACKSLASH, LOWER_U, lo[0], lo[1], lo[2], lo[3]] + tail;
  }

  /** One spelled character goes through the loop as its meaning. */
  lemma {:induction false} ChReads(ch: char_, tail: bytes, out: bytes)
    ensures Body(ChText(ch, tail), out) == Body(tail, out + ChMeans(ch))
  {
    var s := ChText(ch, tail);
    match ch
    case Plain(c) =>
      assert s[1..] == tail;
    case Short(l) =>
      assert s[2..] == tail;
    case Four(q) =>
      UnicodeStarts(q, tail, s);
      assert Escape(s) == Ok(ChMeans(ch), tail);
    case Pair(hi, lo) =>
      var r := PairSplits(hi, lo, tail);
      UnicodeStarts(hi, r, s);
      UnicodeStarts(lo, tail, r);
      assert Escape(s) == Ok(ChMeans(ch), tail);
  }

  lemma {:induction false} SpelledReads(chs: seq<char_>, tail: bytes, out: bytes)
    ensures Body(Spelled(chs, [QUOTE] + tail), out) ==
            if Utf8.Valid(out + Meaning(chs)) then Ok(out + Meaning(chs), tail) else Refused(BadString, tail)
  {
    if chs == [] {
      assert out + Meaning(chs) == out;
      assert ([QUOTE] + tail)[1..] == tail;
    } else {
      ChReads(chs[0], Spelled(chs[1..], [QUOTE] + tail), out);
      SpelledReads(chs[1..], tail, out + ChMeans(chs[0]));
      assert out + ChMeans(chs[0]) + Meaning(chs[1..]) == out + Meaning(chs);
    }
  }

  /** Every spelling of well-formed text is read as that text. */
  lemma {:induction false} StrReads(chs: seq<char_>, tail: bytes)
    ensures Str(StrText(chs, tail)) ==
            if Utf8.Valid(Meaning(chs)) then Ok(Meaning(chs), tail) else Refused(BadString, tail)
  {
    SpelledReads(chs, tail, []);
    assert [] + Meaning(chs) == Meaning(chs);
    assert StrText(chs, tail)[1..] == Spelled(chs, [QUOTE] + tail);
  }

  lemma {:induction false} Quad(t: bytes)
    requires Hex4(t).Ok?
    ensures IsQuad(t[..4]) && Hex4(t) == Ok(Hex(t[..4]), t[4..])
    ensures t == [t[..4][0], t[..4][1], t[..4][2], t[..4][3]] + t[4..]
  {
  }

  lemma {:induction false} UnicodeEscapeIsCh(t: bytes) returns (ch: char_)
    requires UnicodeEscape(t).Ok?
    ensures [BACKSLASH, LOWER_U] + t == ChText(ch, UnicodeEscape(t).rest) && ChMeans(ch) == UnicodeEscape(t).value
  {
    Quad(t);
    var t4 := t[4..];
    if IsHighSurrogate(Hex(t[..4])) {
      var u := t4[2..];
      assert t4 == [BACKSLASH, LOWER_U] + u;
      Quad(u);
      ch := Pair(t[..4], u[..4]);
    } else {
      ch := Four(t[..4]);
    }
  }

  lemma {:induction false} EscapeIsCh(s: bytes) returns (ch: char_)
    requires s != [] && s[0] == BACKSLASH && Escape(s).Ok?
    ensures s == ChText(ch, Escape(s).rest) && ChMeans(ch) == Escape(s).value
  {
    assert s == [s[0], s[1]] + s[2..];
    if Unescape(s[1]).Some? {
      ch := Short(s[1]);
    } else {
      ch := UnicodeEscapeIsCh(s[2..]);
    }
  }

  lemma {:induction false} BodyIsSpelled(s: bytes, out: bytes) returns (chs: seq<char_>)
    requires Body(s, out).Ok?
    ensures s == Spelled(chs, [QUOTE] + Body(s, out).rest)
    ensures Body(s, out).value == out + Meaning(chs)
    decreases |s|
  {
    if s[0] == QUOTE {
      chs := [];
      assert s == [QUOTE] + s[1..];
    } else if s[0] == BACKSLASH {
      var ch := EscapeIsCh(s);
      var more := BodyIsSpelled(Escape(s).rest, out + Escape(s).value);
      chs := [ch] + more;
      assert chs[1..] == more;
    } else {
      var more := BodyIsSpelled(s[1..], out + [s[0]]);
      chs := [Plain(s[0])] + more;
      assert chs[1..] == more;
      assert s == [s[0]] + s[1..];
    }
  }

  /** Whatever is read as a string is a spelling of the text it is read as. */
  lemma {:induction false} StrIsSpelled(s: bytes) returns (chs: seq<char_>)
    requires Str(s).Ok?
    ensures s == StrText(chs, Str(s).rest) && Str(s).value == Meaning(chs)
  {
    chs := BodyIsSpelled(s[1..], []);
    assert [] + Meaning(chs) == Meaning(chs);
    assert s == [QUOTE] + s[1..];
  }

  /** The string reader accepts exactly the string tokens of RFC 8259 section 7
      whose text is well-formed, and answers that text. */
  lemma {:induction false} StrExactly(s: bytes, v: bytes, rest: bytes)
    ensures Str(s) == Ok(v, rest) <==>
            exists chs: seq<char_> :: s == StrText(chs, rest) && Meaning(chs) == v && Utf8.Valid(v)
  {
    if Str(s) == Ok(v, rest) {
      var chs := StrIsSpelled(s);
      assert s == StrText(chs, rest) && Meaning(chs) == v && Utf8.Valid(v);
    }
    forall chs: seq<char_> | s == StrText(chs, rest) && Meaning(chs) == v && Utf8.Valid(v)
      ensures Str(s) == Ok(v, rest)
    {
      StrReads(chs, rest);
    }
  }

  // ---- the printer's own spelling ----

  /** The escape the printer chooses for a byte, as a character of the grammar. */
  function Chosen(c: byte): (ch: char_)
    ensures ChMeans(ch) == [c]
  {
    if c == QUOTE || c == BACKSLASH then Short(c)
    else if c == 0x08 then Short(0x62)
    else if c == 0x0C then Short(0x66)
    else if c == 0x0A then Short(0x6E)
    else if c == 0x0D then Short(0x72)
    else if c == 0x09 then Short(0x74)
    else if c < 0x20 then
      var q := [ZERO, ZERO, HexDigit(c / 16), HexDigit(c % 16)];
      assert Hex(q) == c;
      Four(q)
    else Plain(c)
  }

  lemma {:induction false} EscapedIsSpelled(s: bytes, tail: bytes) returns (chs: seq<char_>)
    ensures Escaped(s, tail) == Spelled(chs, tail) && Meaning(chs) == s
  {
    if s == [] {
      chs := [];
    } else {
      var more := EscapedIsSpelled(s[1..], tail);
      chs := [Chosen(s[0])] + more;
      assert chs[1..] == more;
      assert EscByte(s[0]) + Escaped(s[1..], tail) == ChText(Chosen(s[0]), Escaped(s[1..], tail));
    }
  }

  /** What the printer quotes, the reader reads back, unless it was no UTF-8. */
  lemma {:induction false} QuotedReads(s: bytes, tail: bytes)
    ensures Str(Quoted(s, tail)) == if Utf8.Valid(s) then Ok(s, tail) else Refused(BadString, tail)
  {
    var chs := EscapedIsSpelled(s, [QUOTE] + tail);
    StrReads(chs, tail);
  }

  // ---- digits, escapes and pairs, as the standards list them ----

  /** A digit in either case. */
  lemma {:induction false} HexDigitsExactly(c: byte, n: nat)
    requires n < 16
    ensures HexValue(c) == n <==> c == "0123456789abcdef"[n] as int || c == "0123456789ABCDEF"[n] as int
  {
  }

  /** The letters and what they stand for, in the order of section 7 of RFC 8259. */
  const LETTERS: string := "\"\\/bfnrt"
  const MEANT: bytes := [0x22, 0x5C, 0x2F, 0x08, 0x0C, 0x0A, 0x0D, 0x09]

  lemma {:induction false} EscapesExactly(l: byte, c: byte)
    ensures Unescape(l) == Some(c) <==> exists i :: 0 <= i < 8 && l == LETTERS[i] as int && c == MEANT[i]
  {
    forall i | 0 <= i < 8 ensures Unescape(LETTERS[i] as int) == Some(MEANT[i]) {
    }
    if Unescape(l) == Some(c) {
      var i :=
        if l == 0x22 then 0 else if l == 0x5C then 1 else if l == 0x2F then 2 else if l == 0x62 then 3
        else if l == 0x66 then 4 else if l == 0x6E then 5 else if l == 0x72 then 6 else 7;
      assert l == LETTERS[i] as int && c == MEANT[i];
    }
  }

  /** The four digits of a code unit, highest first, each in either case. */
  predicate Spells(q: bytes, u: nat)
  {
    && |q| == 4 && u <= 0xFFFF
    && HexValue(q[0]) == u / 4096 && HexValue(q[1]) == u / 256 % 16 && HexValue(q[2]) == u / 16 % 16 && HexValue(q[3]) == u % 16
  }

  lemma {:induction false} SpelledUnit(q: bytes, u: nat)
    requires Spells(q, u)
    ensures IsQuad(q) && Hex(q) == u
  {
    assert u / 256 == u / 16 / 16 && u / 4096 == u / 16 / 16 / 16;
  }

  /** A code point below the supplementary planes, escaped. */
  lemma {:induction false} EscapedUnitReads(cp: nat, q: bytes, tail: bytes)
    requires Spells(q, cp) && Utf8.IsScalar(cp)
    ensures IsQuad(q) && Hex(q) == cp
    ensures Str(StrText([Four(q)], tail)) == Ok(Utf8.AppendRune(cp), tail)
  {
    SpelledUnit(q, cp);
    OneReads(Four(q), cp, tail);
  }

  /** The two surrogates of section 2.1 of RFC 2781, of ten bits each. */
  predicate SurrogatesOf(cp: nat, hi: nat, lo: nat)
  {
    0x10000 <= cp <= 0x10FFFF && hi == 0xD800 + (cp - 0x10000) / 1024 && lo == 0xDC00 + (cp - 0x10000) % 1024
  }

  lemma {:induction false} SurrogatesJoin(cp: nat, hi: nat, lo: nat)
    requires SurrogatesOf(cp, hi, lo)
    ensures IsHighSurrogate(hi) && IsLowSurrogate(lo) && JoinSurrogates(hi, lo) == cp && Utf8.IsScalar(cp)
  {
  }

  /** A code point of the supplementary planes, escaped as its two surrogates. */
  lemma {:induction false} EscapedPairReads(cp: nat, hi: nat, lo: nat, p: bytes, q: bytes, tail: bytes)
    requires SurrogatesOf(cp, hi, lo) && Spells(p, hi) && Spells(q, lo)
    ensures IsQuad(p) && IsQuad(q) && IsHighSurrogate(Hex(p)) && IsLowSurrogate(Hex(q)) && Utf8.IsScalar(cp)
    ensures Str(StrText([Pair(p, q)], tail)) == Ok(Utf8.AppendRune(cp), tail)
  {
    SurrogatesJoin(cp, hi, lo);
    SpelledUnit(p, hi);
    SpelledUnit(q, lo);
    OneReads(Pair(p, q), cp, tail);
  }

  lemma {:induction false} OneReads(ch: char_, cp: int, tail: bytes)
    requires Utf8.IsScalar(cp) && ChMeans(ch) == Utf8.AppendRune(cp)
    ensures Str(StrText([ch], tail)) == Ok(Utf8.AppendRune(cp), tail)
  {
    StrReads([ch], tail);
    OneMeans(ch);
    Utf8.RuneIsValid(cp);
  }

  lemma {:induction false} OneMeans(ch: char_)
    ensures Meaning([ch]) == ChMeans(ch)
  {
    assert [ch][1..] == [];
  }

  /** Every code point of the supplementary planes is joined from the pair of
      surrogates of RFC 2781, and from no other. */
  lemma {:induction false} SurrogatesAreABijection(cp: int)
    requires 0x10000 <= cp <= 0x10FFFF
    ensures forall h, l | IsHighSurrogate(h) && IsLowSurrogate(l) :: JoinSurrogates(h, l) == cp <==> SurrogatesOf(cp, h, l)
    ensures exists hi, lo :: IsHighSurrogate(hi) && IsLowSurrogate(lo) && SurrogatesOf(cp, hi, lo)
  {
    var hi, lo := 0xD800 + (cp - 0x10000) / 1024, 0xDC00 + (cp - 0x10000) % 1024;
    SurrogatesJoin(cp, hi, lo);
    forall h, l | IsHighSurrogate(h) && IsLowSurrogate(l) && JoinSurrogates(h, l) == cp ensures SurrogatesOf(cp, h, l) {
      assert (h - 0xD800) * 1024 + (l - 0xDC00) == cp - 0x10000;
    }
  }

  // ---- why a string is refused ----

  lemma {:induction false} SpelledGoesOn(chs: seq<char_>, x: bytes, out: bytes)
    ensures Body(Spelled(chs, x), out) == Body(x, out + Meaning(chs))
  {
    if chs == [] {
      assert out + Meaning(chs) == out;
    } else {
      ChReads(chs[0], Spelled(chs[1..], x), out);
      SpelledGoesOn(chs[1..], x, out + ChMeans(chs[0]));
      assert out + ChMeans(chs[0]) + Meaning(chs[1..]) == out + Meaning(chs);
    }
  }

  /** x starts neither with a character of the grammar nor with the closing quote. */
  ghost predicate StartsNothing(x: bytes)
  {
    (x == [] || x[0] != QUOTE) && forall ch: char_, tail: bytes :: x != ChText(ch, tail)
  }

  lemma {:induction false} UnicodeRefuses(s: bytes)
    ensures UnicodeEscape(s).Refused? ==> UnicodeEscape(s).word == BadString
  {
  }

  lemma {:induction false} PlainStarts(x: bytes)
    requires x != [] && x[0] >= 0x20 && x[0] != QUOTE && x[0] != BACKSLASH
    ensures !StartsNothing(x)
  {
    assert x == ChText(Plain(x[0]), x[1..]);
  }

  lemma {:induction false} EscapeStarts(x: bytes)
    requires x != [] && x[0] == BACKSLASH && Escape(x).Ok?
    ensures !StartsNothing(x)
  {
    var ch := EscapeIsCh(x);
  }

  lemma {:induction false} EscapeRefuses(x: bytes)
    requires x != [] && x[0] == BACKSLASH && Escape(x).Refused?
    ensures Escape(x).word == if x == [BACKSLASH] then Malformed else BadString
  {
    if |x| > 1 {
      UnicodeRefuses(x[2..]);
    } else {
      assert x == [BACKSLASH];
    }
  }

  lemma {:induction false} OnlyEscapesBreak(x: bytes)
    requires StartsNothing(x) && x != [] && x[0] >= 0x20
    ensures x[0] == BACKSLASH && Escape(x).Refused?
  {
    if x[0] != BACKSLASH {
      PlainStarts(x);
    } else if Escape(x).Ok? {
      EscapeStarts(x);
    }
  }

  lemma {:induction false} NothingIsRefused(x: bytes, out: bytes)
    requires StartsNothing(x)
    ensures Body(x, out).Refused? && Body(x, out).word == if x == [] || x == [BACKSLASH] then Malformed else BadString
  {
    if x != [] && x[0] >= 0x20 {
      OnlyEscapesBreak(x);
      EscapeRefuses(x);
    }
  }

  /** Over all texts that do not go on as the grammar says: a string that breaks off is
      malformed, and one that holds a control byte, an unknown escape, half a pair or
      fewer than four digits is a bad string. */
  lemma {:induction false} BrokenStringIsRefused(chs: seq<char_>, x: bytes)
    requires StartsNothing(x)
    ensures var r := Str([QUOTE] + Spelled(chs, x));
            r.Refused? && r.word == if x == [] || x == [BACKSLASH] then Malformed else BadString
  {
    SpelledGoesOn(chs, x, []);
    assert ([QUOTE] + Spelled(chs, x))[1..] == Spelled(chs, x);
    NothingIsRefused(x, [] + Meaning(chs));
  }

  // ---- no spelling is shorter than the printer's ----

  /** Printed, a byte that needs an escape takes two bytes or six, any other one. */
  function Cost(b: bytes): nat
  {
    if b == [] then 0
    else
      Cost(b[1..]) +
      if b[0] in MEANT && b[0] != SLASH then 2 else if b[0] < 0x20 then 6 else 1
  }

  lemma {:induction false} EscapedCosts(b: bytes)
    ensures |Escaped(b, [])| == Cost(b)
  {
    if b != [] {
      EscapedCosts(b[1..]);
    }
  }

  lemma {:induction false} CostJoins(a: bytes, b: bytes)
    ensures Cost(a + b) == Cost(a) + Cost(b)
  {
    if a == [] {
      assert a + b == b;
    } else {
      assert (a + b)[1..] == a[1..] + b;
      CostJoins(a[1..], b);
    }
  }

  lemma {:induction false} HighBytesCost(b: bytes)
    requires forall i :: 0 <= i < |b| ==> b[i] >= 0x80
    ensures Cost(b) == |b|
  {
    if b != [] {
      HighBytesCost(b[1..]);
    }
  }

  lemma {:induction false} RuneCosts(cp: nat)
    requires cp <= 0x10FFFF
    ensures Cost(Utf8.AppendRune(cp)) <= if cp < 0x10000 then 6 else 12
  {
    if cp >= 0x80 {
      Utf8.RuneLayout(cp);
      HighBytesCost(Utf8.AppendRune(cp));
    } else {
      assert [cp][1..] == [];
    }
  }

  lemma {:induction false} ChCosts(ch: char_)
    ensures Cost(ChMeans(ch)) <= |ChText(ch, [])|
  {
    match ch
    case Plain(c) => assert [c][1..] == [];
    case Short(l) =>
      var c := Unescape(l).value;
      EscapesExactly(l, c);
      assert [c][1..] == [];
    case Four(q) => RuneCosts(Hex(q));
    case Pair(hi, lo) => RuneCosts(JoinSurrogates(Hex(hi), Hex(lo)));
  }

  lemma {:induction false} ChLonger(ch: char_, tail: bytes)
    ensures |ChText(ch, tail)| == |ChText(ch, [])| + |tail|
  {
  }

  /** Of all spellings of a text the printer's is a shortest one. */
  lemma {:induction false} PrintedIsShortest(chs: seq<char_>)
    ensures |Escaped(Meaning(chs), [])| <= |Spelled(chs, [])|
  {
    EscapedCosts(Meaning(chs));
    if chs != [] {
      PrintedIsShortest(chs[1..]);
      EscapedCosts(Meaning(chs[1..]));
      CostJoins(ChMeans(chs[0]), Meaning(chs[1..]));
      ChCosts(chs[0]);
      ChLonger(chs[0], Spelled(chs[1..], []));
    }
  }
}
