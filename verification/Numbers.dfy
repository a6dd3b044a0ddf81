/** Integers on the wire: the printer, the guarded reader, and the number
    walker, against the number grammar of RFC 8259 section 6. */
module Numbers {
  import opened Bytes
  import opened Powers

  const INT64_MAX: int := 0x7FFF_FFFF_FFFF_FFFF
  const INT64_MIN: int := -0x8000_0000_0000_0000

  predicate IsInt64(n: int) { INT64_MIN <= n <= INT64_MAX }

  /** The largest accumulator the reader multiplies by ten again. */
  const GUARD: int := 922337203685477580

  // ---- decimal digits ----

  predicate AllDigits(ds: bytes) { forall i :: 0 <= i < |ds| ==> IsDigit(ds[i]) }

  /** The value of ds read after u. */
  function Value(ds: bytes, u: nat): nat
    requires AllDigits(ds)
  {
    if ds == [] then u else Value(ds[1..], u * 10 + (ds[0] - ZERO))
  }

  /** The decimal digits of u, most significant first; none for zero. */
  function Digits(u: nat): (ds: bytes)
    ensures AllDigits(ds)
  {
    if u == 0 then [] else Digits(u / 10) + [ZERO + u % 10]
  }

  /** The canonical spelling of n, in front of tail. */
  function NumText(n: int, tail: bytes): bytes
  {
    if n == 0 then [ZERO] + tail
    else if n < 0 then [MINUS] + (Digits(-n) + tail)
    else Digits(n) + tail
  }

  lemma {:induction false} ValueAppends(ds: bytes, c: byte, u: nat)
    requires AllDigits(ds) && IsDigit(c)
    ensures AllDigits(ds + [c]) && Value(ds + [c], u) == Value(ds, u) * 10 + (c - ZERO)
  {
    if ds == [] {
      assert ds + [c] == [c];
    } else {
      assert (ds + [c])[1..] == ds[1..] + [c];
      ValueAppends(ds[1..], c, u * 10 + (ds[0] - ZERO));
    }
  }

  lemma {:induction false} DigitsSpell(u: nat)
    ensures Value(Digits(u), 0) == u
    ensures u > 0 ==> Digits(u) != [] && Digits(u)[0] != ZERO
  {
    if u > 0 {
      DigitsSpell(u / 10);
      ValueAppends(Digits(u / 10), ZERO + u % 10, 0);
    }
  }

  /** Digits without a leading zero are the digits of their value. */
  lemma {:induction false} DigitsAreCanonical(ds: bytes)
    requires AllDigits(ds) && ds != [] && ds[0] != ZERO
    ensures Value(ds, 0) > 0 && ds == Digits(Value(ds, 0))
    decreases |ds|
  {
    var init, c := ds[..|ds| - 1], ds[|ds| - 1];
    assert ds == init + [c];
    ValueAppends(init, c, 0);
    if init != [] {
      DigitsAreCanonical(init);
      assert (Value(init, 0) * 10 + (c - ZERO)) / 10 == Value(init, 0);
    } else {
      assert Digits(0) == [];
    }
  }

  lemma {:induction false} ValueGrows(ds: bytes, u: nat)
    requires AllDigits(ds)
    ensures Value(ds, u) >= u
    ensures ds != [] ==> Value(ds, u) >= u * 10
  {
    if ds != [] {
      ValueGrows(ds[1..], u * 10 + (ds[0] - ZERO));
    }
  }

  newtype uint64 = x: int | 0 <= x < 0x1_0000_0000_0000_0000

  /** u has at most k digits. */
  predicate HasRoom(u: nat, k: nat) { u < Pow10(k) }

  lemma {:induction false} RoomFor64Bits(u: uint64)
    ensures HasRoom(u as int, 20)
  {
    assert Pow10(5) == 100000;
    assert Pow10(10) == 10 * 10 * 10 * 10 * 10 * Pow10(5);
    assert Pow10(15) == 10 * 10 * 10 * 10 * 10 * Pow10(10);
    assert Pow10(20) == 10 * 10 * 10 * 10 * 10 * Pow10(15);
  }

  lemma {:induction false} DigitFits(u: nat, k: nat)
    requires u > 0 && HasRoom(u, k)
    ensures k > 0 && HasRoom(u / 10, k - 1)
  {
  }

  lemma {:induction false} DigitsPeel(u: nat, done: bytes)
    requires u > 0
    ensures Digits(u) + done == Digits(u / 10) + ([ZERO + u % 10] + done)
  {
    assert (Digits(u / 10) + [ZERO + u % 10]) + done == Digits(u / 10) + ([ZERO + u % 10] + done);
  }

  /** The lowest digit of a magnitude, and what is left of it. */
  method PopDigit(u: uint64) returns (c: byte, q: uint64)
    ensures c == ZERO + u as int % 10 && q as int == u as int / 10
  {
    c := ZERO + (u % 10) as int;
    q := u / 10;
  }

  /** The printer's loop: digits go into the buffer from its end. */
  method FillDigits(d: array<byte>, n: uint64) returns (p: nat)
    requires d.Length == 24
    modifies d
    ensures p <= 24 && d[p..] == Digits(n as int)
  {
    p := 24;
    var u := n;
    ghost var all := Digits(n as int);
    RoomFor64Bits(u);
    NoTail(all);
    assert d[p..] == [];
    while u > 0
      invariant 4 <= p <= 24
      invariant HasRoom(u as int, p - 4)
      invariant all == Digits(u as int) + d[p..]
    {
      DigitsPeel(u as int, d[p..]);
      DigitFits(u as int, p - 4);
      ghost var done := d[p..];
      p := p - 1;
      d[p], u := PopDigit(u);
      assert d[p..] == [d[p]] + done;
    }
  }

  /** The printer. The magnitude is taken in unsigned arithmetic, where the least int64 has one. */
  method Num(out: bytes, n: int) returns (r: bytes)
    requires IsInt64(n)
    ensures r == out + NumText(n, [])
  {
    if n == 0 {
      return out + [ZERO];
    }
    var d := new byte[24];
    var u: uint64 := if n < 0 then (-n) as uint64 else n as uint64;
    var p := FillDigits(d, u);
    r := if n < 0 then out + [MINUS] else out;
    r := r + d[p..];
    assert d[p..] + [] == d[p..];
  }

  // ---- the guarded reader ----

  /** The reader's digit loop from accumulator u. */
  function Gather(s: bytes, u: nat): (r: Parsed<nat>)
    ensures r.Ok? ==> |r.rest| <= |s|
  {
    if s == [] || !IsDigit(s[0]) then Ok(u, s)
    else if u > GUARD then Refused(NumberSpelling, s)
    else Gather(s[1..], u * 10 + (s[0] - ZERO))
  }

  /** What may not follow an integer. */
  predicate Continues(s: bytes) { s != [] && (s[0] == DOT || s[0] == LOWER_E || s[0] == UPPER_E || IsDigit(s[0])) }

  /** After the sign: the magnitude, before it is judged. */
  function Magnitude(s: bytes): (r: Parsed<nat>)
    requires s != [] && IsDigit(s[0])
    ensures r.Ok? ==> |r.rest| < |s|
  {
    if s[0] == ZERO then Ok(0, s[1..]) else
      assert Gather(s, 0) == Gather(s[1..], s[0] - ZERO);
      Gather(s, 0)
  }

  /** Range and spelling of what was gathered. */
  function Judge(neg: bool, u: nat, rest: bytes, min: int, max: int): Parsed<int>
  {
    if Continues(rest) then Refused(NumberSpelling, rest)
    else if neg && u == 0 then Refused(NumberSpelling, rest)
    else if !(neg && u == 0x8000_0000_0000_0000) && u > 0x7FFF_FFFF_FFFF_FFFF then Refused(NumberSpelling, rest)
    else
      var n: int := if neg then 0 - u else u;
      if n < min || n > max then Refused(NumberSpelling, rest) else Ok(n, rest)
  }

  function Integer(s: bytes, min: int, max: int): (r: Parsed<int>)
    ensures r.Ok? ==> |r.rest| < |s|
  {
    if At(s) != MINUS && !IsDigit(At(s)) then Refused(WrongType, s)
    else
      var neg := At(s) == MINUS;
      var t := if neg then s[1..] else s;
      if !IsDigit(At(t)) then Refused(Malformed, t)
      else
        match Magnitude(t)
        case Refused(w, rest) => Refused(w, rest)
        case Ok(u, rest) => Judge(neg, u, rest, min, max)
  }

  /** Gathering stops at the first byte that is no digit, with the value of
      the digits before it, as long as that value does not pass the guard. */
  lemma {:induction false} GatherReads(ds: bytes, rest: bytes, u: nat)
    requires AllDigits(ds)
    requires rest == [] || !IsDigit(rest[0])
    ensures Value(ds, u) <= GUARD * 10 + 9 ==> Gather(ds + rest, u) == Ok(Value(ds, u), rest)
    ensures Value(ds, u) > GUARD * 10 + 9 && u <= GUARD * 10 + 9 ==>
              Gather(ds + rest, u).Refused? && Gather(ds + rest, u).word == NumberSpelling
  {
    if ds == [] {
      assert ds + rest == rest;
    } else {
      var s := ds + rest;
      assert s[1..] == ds[1..] + rest;
      ValueGrows(ds, u);
      if u <= GUARD {
        GatherReads(ds[1..], rest, u * 10 + (ds[0] - ZERO));
      }
    }
  }

  lemma {:induction false} GatherIsDigits(s: bytes, u: nat) returns (ds: bytes)
    requires Gather(s, u).Ok?
    ensures AllDigits(ds) && s == ds + Gather(s, u).rest
    ensures Gather(s, u).value == Value(ds, u)
    ensures Gather(s, u).rest == [] || !IsDigit(Gather(s, u).rest[0])
  {
    if s == [] || !IsDigit(s[0]) {
      ds := [];
    } else {
      var c := s[0];
      var more := GatherIsDigits(s[1..], u * 10 + (c - ZERO));
      ds := [c] + more;
      assert ds[1..] == more;
      assert s == [c] + s[1..];
      assert Value(ds, u) == Value(more, u * 10 + (c - ZERO));
    }
  }

  /** A canonical magnitude is read back. */
  lemma {:induction false} MagnitudeReads(u: nat, rest: bytes)
    requires u <= GUARD * 10 + 9
    requires !Continues(rest)
    ensures var ds := if u == 0 then [ZERO] else Digits(u);
            IsDigit(At(ds + rest)) && Magnitude(ds + rest) == Ok(u, rest)
  {
    if u == 0 {
      assert ([ZERO] + rest)[1..] == rest;
    } else {
      DigitsSpell(u);
      GatherReads(Digits(u), rest, 0);
    }
  }

  /** A magnitude that is read is canonical, or a digit follows it. */
  lemma {:induction false} MagnitudeIsCanonical(s: bytes)
    requires s != [] && IsDigit(s[0]) && Magnitude(s).Ok?
    ensures var u, rest := Magnitude(s).value, Magnitude(s).rest;
            s == (if u == 0 then [ZERO] else Digits(u)) + rest
  {
    if s[0] == ZERO {
      assert s == [ZERO] + s[1..];
    } else {
      var ds := GatherIsDigits(s, 0);
      DigitsAreCanonical(ds);
    }
  }

  /** The reader of a sign and what has a magnitude. */
  lemma {:induction false} IntegerOf(s: bytes, neg: bool, t: bytes, u: nat, rest: bytes, min: int, max: int)
    requires t != [] && IsDigit(t[0]) && Magnitude(t) == Ok(u, rest) && s == if neg then [MINUS] + t else t
    ensures Integer(s, min, max) == Judge(neg, u, rest, min, max)
  {
    assert neg ==> s[1..] == t;
  }

  lemma {:induction false} JudgeReads(n: int, rest: bytes, min: int, max: int)
    requires IsInt64(n) && !Continues(rest)
    ensures Judge(n < 0, if n < 0 then -n else n, rest, min, max)
            == if min <= n <= max then Ok(n, rest) else Refused(NumberSpelling, rest)
  {
  }

  lemma {:induction false} NumTextIs(n: int, rest: bytes) returns (m: nat, t: bytes)
    ensures m == (if n < 0 then -n else n) && t == (if m == 0 then [ZERO] else Digits(m)) + rest
    ensures NumText(n, rest) == if n < 0 then [MINUS] + t else t
  {
    m := if n < 0 then -n else n;
    t := (if m == 0 then [ZERO] else Digits(m)) + rest;
  }

  lemma {:induction false} IntegerReads(n: int, rest: bytes, min: int, max: int)
    requires IsInt64(n) && !Continues(rest)
    ensures Integer(NumText(n, rest), min, max) ==
            if min <= n <= max then Ok(n, rest) else Refused(NumberSpelling, rest)
  {
    var m, t := NumTextIs(n, rest);
    MagnitudeReads(m, rest);
    assert t != [];
    IntegerOf(NumText(n, rest), n < 0, t, m, rest, min, max);
    JudgeReads(n, rest, min, max);
  }

  /** What Integer does once it has a magnitude. */
  lemma {:induction false} IntegerUnfolds(s: bytes, min: int, max: int)
    requires Integer(s, min, max).Ok?
    ensures var neg := At(s) == MINUS;
            var t := if neg then s[1..] else s;
            && t != [] && IsDigit(t[0]) && Magnitude(t).Ok?
            && Judge(neg, Magnitude(t).value, Magnitude(t).rest, min, max) == Integer(s, min, max)
            && s == (if neg then [MINUS] else []) + t
  {
    assert At(s) == MINUS ==> s == [MINUS] + s[1..];
  }

  lemma {:induction false} IntegerIsCanonical(s: bytes, min: int, max: int)
    requires Integer(s, min, max).Ok?
    ensures var n, rest := Integer(s, min, max).value, Integer(s, min, max).rest;
            IsInt64(n) && min <= n <= max && s == NumText(n, rest) && !Continues(rest)
  {
    IntegerUnfolds(s, min, max);
    MagnitudeIsCanonical(if At(s) == MINUS then s[1..] else s);
  }

  /** The reader accepts exactly the canonical spellings of the int64 values
      between min and max, and answers the value; so it inverts the printer. */
  lemma {:induction false} IntegerExactly(s: bytes, min: int, max: int, n: int, rest: bytes)
    requires IsInt64(min) && IsInt64(max)
    ensures Integer(s, min, max) == Ok(n, rest) <==>
            IsInt64(n) && min <= n <= max && s == NumText(n, rest) && !Continues(rest)
  {
    if Integer(s, min, max) == Ok(n, rest) {
      IntegerIsCanonical(s, min, max);
    } else if IsInt64(n) && min <= n <= max && s == NumText(n, rest) && !Continues(rest) {
      IntegerReads(n, rest, min, max);
    }
  }

  // ---- the digit-count reader of the Python codec ----

  function TakeDigits(s: bytes): bytes
  {
    if s == [] || !IsDigit(s[0]) then [] else [s[0]] + TakeDigits(s[1..])
  }

  lemma {:induction false} TakeDigitsSplits(s: bytes)
    ensures AllDigits(TakeDigits(s)) && |TakeDigits(s)| <= |s|
    ensures s == TakeDigits(s) + s[|TakeDigits(s)|..]
    ensures !IsDigit(At(s[|TakeDigits(s)|..]))
    ensures s != [] && IsDigit(s[0]) ==> TakeDigits(s) != [] && TakeDigits(s)[0] == s[0]
  {
    if s != [] && IsDigit(s[0]) {
      var more := TakeDigits(s[1..]);
      TakeDigitsSplits(s[1..]);
      HeadJoins(s, more, s[1..][|more|..]);
      DigitInFront(s[0], more);
      assert s[|TakeDigits(s)|..] == s[1..][|more|..];
    }
  }

  /** A single zero, or all the digits there are. */
  function RunOf(t: bytes): bytes { if At(t) == ZERO then [ZERO] else TakeDigits(t) }

  /** Range and spelling of a run: at most nineteen digits, converted at once. */
  function PyJudge(neg: bool, ds: bytes, rest: bytes, min: int, max: int): Parsed<int>
    requires AllDigits(ds)
  {
    if Continues(rest) || |ds| > 19 then Refused(NumberSpelling, rest)
    else if neg && Value(ds, 0) == 0 then Refused(NumberSpelling, rest)
    else
      var n: int := if neg then 0 - Value(ds, 0) else Value(ds, 0);
      if n < min || n > max then Refused(NumberSpelling, rest) else Ok(n, rest)
  }

  function PyInteger(s: bytes, min: int, max: int): Parsed<int>
  {
    if At(s) != MINUS && !IsDigit(At(s)) then Refused(WrongType, s)
    else
      var neg := At(s) == MINUS;
      var t := if neg then s[1..] else s;
      if !IsDigit(At(t)) then Refused(Malformed, t)
      else
        TakeDigitsSplits(t);
        PyJudge(neg, RunOf(t), t[|RunOf(t)|..], min, max)
  }

  lemma {:induction false} ValueAtLeast(ds: bytes, u: nat)
    requires AllDigits(ds)
    ensures Value(ds, u) >= u * Pow10(|ds|)
  {
    if ds != [] {
      var v := u * 10 + (ds[0] - ZERO);
      ValueAtLeast(ds[1..], v);
      assert v * Pow10(|ds| - 1) >= u * 10 * Pow10(|ds| - 1) by {
        MulMono(v, u * 10, Pow10(|ds| - 1));
      }
    }
  }

  /** More than nineteen digits after a non-zero one spell no int64. */
  lemma {:induction false} TooLong(ds: bytes)
    requires AllDigits(ds) && |ds| > 19 && ds[0] != ZERO
    ensures Value(ds, 0) > 0x8000_0000_0000_0000
  {
    var v := ds[0] - ZERO;
    assert Value(ds, 0) == Value(ds[1..], v);
    ValueAtLeast(ds[1..], v);
    Pow10Grows(19, |ds| - 1);
    MulMono(v, 1, Pow10(|ds| - 1));
    assert Pow10(19) == 10 * 10 * 10 * 10 * 10 * 10 * 10 * 10 * 10 * 10 * Pow10(9);
  }

  /** The two readers accept the same spellings with the same value, and refuse
      the rest with the same word. */
  lemma {:induction false} PyIntegerAgrees(s: bytes, min: int, max: int)
    requires IsInt64(min) && IsInt64(max)
    ensures Integer(s, min, max).Ok? || PyInteger(s, min, max).Ok? ==> PyInteger(s, min, max) == Integer(s, min, max)
    ensures Integer(s, min, max).Refused? ==> PyInteger(s, min, max).Refused? && PyInteger(s, min, max).word == Integer(s, min, max).word
  {
    if At(s) == MINUS || IsDigit(At(s)) {
      var neg := At(s) == MINUS;
      var t := if neg then s[1..] else s;
      if IsDigit(At(t)) {
        if t[0] == ZERO {
          assert Value([ZERO], 0) == 0;
        } else {
          TakeDigitsSplits(t);
          var ds := TakeDigits(t);
          GatherReads(ds, t[|ds|..], 0);
          if |ds| > 19 {
            TooLong(ds);
          }
        }
      }
    }
  }

  // ---- the walker ----

  function SkipDigits(s: bytes): (r: bytes)
    ensures |r| <= |s|
    ensures r == [] || !IsDigit(r[0])
  {
    if s != [] && IsDigit(s[0]) then SkipDigits(s[1..]) else s
  }

  function SomeDigits(s: bytes): (r: Parsed<()>)
    ensures r.Ok? ==> |r.rest| < |s|
  {
    if s == [] || !IsDigit(s[0]) then Refused(NumberSpelling, s) else Ok((), SkipDigits(s[1..]))
  }

  function SkipWhole(s: bytes): (r: Parsed<()>)
    ensures r.Ok? ==> |r.rest| < |s|
  {
    if At(s) == ZERO then Ok((), s[1..])
    else if IsDigit(At(s)) then Ok((), SkipDigits(s[1..]))
    else Refused(NumberSpelling, s)
  }

  function SkipFraction(s: bytes): (r: Parsed<()>)
    ensures r.Ok? ==> |r.rest| <= |s|
  {
    if At(s) == DOT then SomeDigits(s[1..]) else Ok((), s)
  }

  function SkipExponent(s: bytes): (r: Parsed<()>)
    ensures r.Ok? ==> |r.rest| <= |s|
  {
    if At(s) == LOWER_E || At(s) == UPPER_E then
      SomeDigits(if At(s[1..]) == PLUS || At(s[1..]) == MINUS then s[2..] else s[1..])
    else Ok((), s)
  }

  function SkipNumber(s: bytes): (r: Parsed<()>)
    ensures r.Ok? ==> |r.rest| < |s|
  {
    match SkipWhole(if At(s) == MINUS then s[1..] else s)
    case Refused(w, rest) => Refused(w, rest)
    case Ok(_, s1) =>
      match SkipFraction(s1)
      case Refused(w, rest) => Refused(w, rest)
      case Ok(_, s2) => SkipExponent(s2)
  }

  // ---- the grammar of numbers ----

  datatype Exp = NoExp | Exp(e: byte, sign: bytes, ds: bytes)
  datatype Number = Number(neg: bool, whole: bytes, frac: bytes, exp: Exp)

  predicate NumberOk(n: Number)
  {
    && AllDigits(n.whole) && n.whole != [] && (n.whole[0] == ZERO ==> |n.whole| == 1)
    && AllDigits(n.frac)
    && (n.exp.Exp? ==>
          && (n.exp.e == LOWER_E || n.exp.e == UPPER_E)
          && (n.exp.sign == [] || n.exp.sign == [PLUS] || n.exp.sign == [MINUS])
          && AllDigits(n.exp.ds) && n.exp.ds != [])
  }

  type number = n: Number | NumberOk(n) witness Number(false, [ZERO], [], NoExp)

  function ExpText(e: Exp, tail: bytes): bytes
  {
    match e case NoExp => tail case Exp(c, sign, ds) => [c] + (sign + (ds + tail))
  }

  function FracText(frac: bytes, tail: bytes): bytes
  {
    if frac == [] then tail else [DOT] + (frac + tail)
  }

  function NumberText(n: number, tail: bytes): bytes
  {
    (if n.neg then [MINUS] else []) + (n.whole + FracText(n.frac, ExpText(n.exp, tail)))
  }

  /** What may follow a number for it to end there: not what would go on with it. A
      lone zero may be followed by a digit. */
  predicate Stops(n: number, tail: bytes)
  {
    && (n.whole != [ZERO] || n.frac != [] || n.exp.Exp? ==> !IsDigit(At(tail)))
    && (n.exp.NoExp? ==> At(tail) != LOWER_E && At(tail) != UPPER_E)
    && (n.exp.NoExp? && n.frac == [] ==> At(tail) != DOT)
  }

  lemma {:induction false} SkipDigitsReads(ds: bytes, rest: bytes)
    requires AllDigits(ds) && (rest == [] || !IsDigit(rest[0]))
    ensures SkipDigits(ds + rest) == rest
  {
    if ds == [] {
      assert ds + rest == rest;
    } else {
      assert (ds + rest)[1..] == ds[1..] + rest;
      SkipDigitsReads(ds[1..], rest);
    }
  }

  lemma {:induction false} SomeDigitsReads(ds: bytes, rest: bytes)
    requires AllDigits(ds) && ds != [] && (rest == [] || !IsDigit(rest[0]))
    ensures SomeDigits(ds + rest) == Ok((), rest)
  {
    assert (ds + rest)[1..] == ds[1..] + rest;
    SkipDigitsReads(ds[1..], rest);
  }

  lemma {:induction false} ExponentReads(e: Exp, n: number, tail: bytes)
    requires e == n.exp && (if e.Exp? then !IsDigit(At(tail)) else At(tail) != LOWER_E && At(tail) != UPPER_E)
    ensures SkipExponent(ExpText(e, tail)) == Ok((), tail)
  {
    if e.Exp? {
      var t, body := ExpText(e, tail), e.ds + tail;
      assert t[1..] == e.sign + body;
      if e.sign != [] {
        assert t[2..] == (e.sign + body)[1..] == body;
      } else {
        NoTail(body);
      }
      SomeDigitsReads(e.ds, tail);
    }
  }

  lemma {:induction false} FractionReads(n: number, rest: bytes)
    requires if n.frac != [] then !IsDigit(At(rest)) else At(rest) != DOT
    ensures SkipFraction(FracText(n.frac, rest)) == Ok((), rest)
  {
    if n.frac != [] {
      assert FracText(n.frac, rest)[1..] == n.frac + rest;
      SomeDigitsReads(n.frac, rest);
    }
  }

  lemma {:induction false} WholeReads(n: number, rest: bytes)
    requires n.whole != [ZERO] ==> !IsDigit(At(rest))
    ensures SkipWhole(n.whole + rest) == Ok((), rest)
    ensures At(n.whole + rest) == n.whole[0]
  {
    var s := n.whole + rest;
    assert s[1..] == n.whole[1..] + rest;
    if s[0] == ZERO {
      assert n.whole == [ZERO] && s[1..] == rest;
    } else {
      SkipDigitsReads(n.whole[1..], rest);
    }
  }

  lemma {:induction false} NumberStarts(n: number, tail: bytes)
    ensures At(NumberText(n, tail)) == MINUS || IsDigit(At(NumberText(n, tail)))
  {
    assert (n.whole + FracText(n.frac, ExpText(n.exp, tail)))[0] == n.whole[0];
  }

  /** Every number of the grammar is walked to its end. */
  lemma {:induction false} NumberReads(n: number, tail: bytes)
    requires Stops(n, tail)
    ensures SkipNumber(NumberText(n, tail)) == Ok((), tail)
    ensures At(NumberText(n, tail)) == MINUS || IsDigit(At(NumberText(n, tail)))
  {
    var t2 := ExpText(n.exp, tail);
    var t1 := FracText(n.frac, t2);
    ExponentReads(n.exp, n, tail);
    FractionReads(n, t2);
    WholeReads(n, t1);
    var s := NumberText(n, tail);
    if n.neg {
      assert s[1..] == n.whole + t1;
    } else {
      assert s == n.whole + t1;
    }
  }

  /** A point or an exponent's start, which digits must follow. */
  predicate IsMark(n: number, mark: bytes)
  {
    && n.exp.NoExp? && mark != []
    && (mark[0] == DOT ==> mark == [DOT] && n.frac == [])
    && (mark[0] != DOT ==> (mark[0] == LOWER_E || mark[0] == UPPER_E) && (mark[1..] == [] || mark[1..] == [PLUS] || mark[1..] == [MINUS]))
  }

  /** No digit, nor the sign that an exponent may still take. */
  predicate NoDigit(mark: bytes, x: bytes)
  {
    !IsDigit(At(x)) && (mark == [LOWER_E] || mark == [UPPER_E] ==> At(x) != PLUS && At(x) != MINUS)
  }

  lemma {:induction false} MarkIsRefused(n: number, mark: bytes, x: bytes)
    requires IsMark(n, mark) && NoDigit(mark, x)
    ensures if mark[0] == DOT then SkipFraction(mark + x) == Refused(NumberSpelling, x) else SkipExponent(mark + x) == Refused(NumberSpelling, x)
  {
    var t := mark + x;
    if |mark| == 1 {
      assert t[1..] == x;
    } else {
      assert t[1] == mark[1..][0] && t[2..] == x;
    }
  }

  /** A number whose point or exponent has no digits is refused there. */
  lemma {:induction false} MarkNeedsDigits(n: number, mark: bytes, x: bytes)
    requires IsMark(n, mark) && NoDigit(mark, x)
    ensures SkipNumber(NumberText(n, mark + x)) == Refused(NumberSpelling, x)
  {
    var t := mark + x;
    var t1 := FracText(n.frac, t);
    MarkIsRefused(n, mark, x);
    if mark[0] != DOT {
      FractionReads(n, t);
    }
    WholeReads(n, t1);
    var s := NumberText(n, t);
    assert s == (if n.neg then [MINUS] else []) + (n.whole + t1);
    if n.neg {
      assert s[1..] == n.whole + t1;
    } else {
      assert s == n.whole + t1;
    }
  }

  /** A sign without a digit is no number and no integer, with different words; and what
      starts with neither is of another type. */
  lemma {:induction false} BareSignIsRefused(x: bytes, s: bytes, min: int, max: int)
    requires !IsDigit(At(x)) && s == [MINUS] + x
    ensures SkipNumber(s) == Refused(NumberSpelling, x) && Integer(s, min, max) == Refused(Malformed, x)
    ensures At(x) != MINUS ==> Integer(x, min, max) == Refused(WrongType, x)
  {
    assert s[1..] == x;
  }

  lemma {:induction false} SkipDigitsSplits(s: bytes) returns (ds: bytes)
    ensures AllDigits(ds) && s == ds + SkipDigits(s)
  {
    if s != [] && IsDigit(s[0]) {
      var more := SkipDigitsSplits(s[1..]);
      ds := [s[0]] + more;
      HeadJoins(s, more, SkipDigits(s[1..]));
    } else {
      ds := [];
    }
  }

  lemma {:induction false} DigitInFront(c: byte, more: bytes)
    requires IsDigit(c) && AllDigits(more)
    ensures AllDigits([c] + more) && ([c] + more)[0] == c
  {
  }

  lemma {:induction false} SomeDigitsSplits(s: bytes) returns (ds: bytes)
    requires SomeDigits(s).Ok?
    ensures AllDigits(ds) && ds != [] && s == ds + SomeDigits(s).rest
    ensures ds[0] == s[0]
  {
    var more := SkipDigitsSplits(s[1..]);
    var rest := SomeDigits(s).rest;
    ds := [s[0]] + more;
    HeadJoins(s, more, rest);
    DigitInFront(s[0], more);
  }

  lemma {:induction false} ExponentSplits(s: bytes) returns (e: Exp)
    requires SkipExponent(s).Ok?
    ensures s == ExpText(e, SkipExponent(s).rest)
    ensures var rest := SkipExponent(s).rest;
            if e.Exp? then !IsDigit(At(rest)) else rest == s && At(s) != LOWER_E && At(s) != UPPER_E
    ensures NumberOk(Number(false, [ZERO], [], e))
  {
    if At(s) == LOWER_E || At(s) == UPPER_E {
      var signed := At(s[1..]) == PLUS || At(s[1..]) == MINUS;
      var sign := if signed then [s[1]] else [];
      var ds := SomeDigitsSplits(if signed then s[2..] else s[1..]);
      e := Exp(s[0], sign, ds);
      var body := ds + SomeDigits(if signed then s[2..] else s[1..]).rest;
      if signed {
        assert s[1..][1..] == s[2..];
        HeadJoins(s[1..], [], body);
      }
      NoTail(body);
      HeadJoins(s, sign, body);
    } else {
      e := NoExp;
    }
  }

  lemma {:induction false} WholeSplits(t: bytes) returns (whole: bytes)
    requires SkipWhole(t).Ok?
    ensures AllDigits(whole) && whole != [] && (whole[0] == ZERO ==> |whole| == 1)
    ensures t == whole + SkipWhole(t).rest && (whole == [ZERO] || !IsDigit(At(SkipWhole(t).rest)))
  {
    assert t == [t[0]] + t[1..];
    if At(t) == ZERO {
      whole := [ZERO];
    } else {
      var more := SkipDigitsSplits(t[1..]);
      whole := [t[0]] + more;
      HeadJoins(t, more, SkipDigits(t[1..]));
    }
  }

  lemma {:induction false} FractionSplits(t: bytes) returns (frac: bytes)
    requires SkipFraction(t).Ok?
    ensures AllDigits(frac) && t == FracText(frac, SkipFraction(t).rest)
    ensures var rest := SkipFraction(t).rest; if frac != [] then !IsDigit(At(rest)) else rest == t && At(t) != DOT
  {
    frac := [];
    if At(t) == DOT {
      frac := SomeDigitsSplits(t[1..]);
      assert t == [DOT] + t[1..];
    }
  }

  /** The parts of a number after its sign. */
  lemma {:induction false} UnsignedSplits(t: bytes) returns (whole: bytes, frac: bytes, e: Exp)
    requires SkipWhole(t).Ok? && SkipFraction(SkipWhole(t).rest).Ok?
    requires SkipExponent(SkipFraction(SkipWhole(t).rest).rest).Ok?
    ensures var rest := SkipExponent(SkipFraction(SkipWhole(t).rest).rest).rest;
            && NumberOk(Number(false, whole, frac, e)) && Stops(Number(false, whole, frac, e), rest)
            && t == whole + FracText(frac, ExpText(e, rest))
  {
    whole := WholeSplits(t);
    frac := FractionSplits(SkipWhole(t).rest);
    e := ExponentSplits(SkipFraction(SkipWhole(t).rest).rest);
  }

  /** Whatever is walked as a number is a number of the grammar, that ends there. */
  lemma {:induction false} NumberSplits(s: bytes) returns (n: number)
    requires SkipNumber(s).Ok?
    ensures s == NumberText(n, SkipNumber(s).rest) && Stops(n, SkipNumber(s).rest)
  {
    var neg := At(s) == MINUS;
    var t := if neg then s[1..] else s;
    var whole, frac, e := UnsignedSplits(t);
    n := Number(neg, whole, frac, e);
    SignJoins(s);
  }

  lemma {:induction false} SignJoins(s: bytes)
    ensures var neg := At(s) == MINUS; s == (if neg then [MINUS] else []) + if neg then s[1..] else s
  {
    if At(s) == MINUS {
      assert s == [MINUS] + s[1..];
    } else {
      NoTail(s);
    }
  }

  /** Canonical spellings of integers are numbers of the grammar. */
  lemma {:induction false} NumTextIsNumber(n: int, rest: bytes) returns (v: number)
    ensures NumberText(v, rest) == NumText(n, rest)
  {
    var m := if n < 0 then -n else n;
    DigitsSpell(m);
    v := Number(n < 0, if m == 0 then [ZERO] else Digits(m), [], NoExp);
  }

  /** Whatever is read as an integer is walked as a number, to the same byte. */
  lemma {:induction false} IntegerIsNumber(s: bytes, min: int, max: int)
    requires Integer(s, min, max).Ok?
    ensures SkipNumber(s) == Ok((), Integer(s, min, max).rest)
  {
    IntegerIsCanonical(s, min, max);
    var n, rest := Integer(s, min, max).value, Integer(s, min, max).rest;
    var v := NumTextIsNumber(n, rest);
    NumberReads(v, rest);
  }
}
