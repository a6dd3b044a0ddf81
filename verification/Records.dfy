/** The record codec: decoders and encoders generated from one definition, the
    records of the resolver service, and what decoding owes to walking. */
module Records {
  import opened Bytes
  import opened Text
  import opened Numbers
  import opened Skip
  import Utf8

  // ---- the imported request codec ----

  /** The codec of the download request, which this codec imports: encoding at a
      depth gives bytes or panics with a refusal, decoding is at a depth under
      a limit. */
  datatype Codec<!R> = Codec(encode: (R, int) -> Option<bytes>, decode: (bytes, int, int) -> Parsed<R>)

  const DEPTH_LIMIT: int := 64

  /** What it accepts is walked to the same byte, and what is walked it never
      refuses for its depth. */
  ghost predicate DecodesAsWalked<R>(c: Codec<R>, s: bytes, d: int, lim: int)
  {
    var r := c.decode(s, d, lim);
    && (r.Ok? ==> SkipValue(Ws(s), d, lim) == Ok((), r.rest))
    && (r.Refused? && SkipValue(Ws(s), d, lim).Ok? ==> r.word != DepthExceeded)
  }

  /** What it encodes starts an object and is decoded to the same request,
      leaving what follows. */
  ghost predicate DecodesBack<R>(c: Codec<R>, r: R, d: int, tail: bytes)
  {
    c.encode(r, d).Some? ==>
      && At(c.encode(r, d).value) == LBRACE
      && c.decode(c.encode(r, d).value + tail, d, DEPTH_LIMIT) == Ok(r, tail)
  }

  ghost predicate Contract<R(!new)>(c: Codec<R>)
  {
    && (forall s: bytes, d: int, lim: int :: 0 <= d && 1 <= lim <= DEPTH_LIMIT ==> DecodesAsWalked(c, s, d, lim))
    && (forall r: R, d: int, tail: bytes :: DecodesBack(c, r, d, tail))
  }

  // ---- schemas ----

  datatype Kind = KText | KInt32 | KFlag | KOpaque | KOutcome | KRequest | KRecord(fields: seq<Field>)
  datatype Field = Field(name: bytes, kind: Kind, required: bool)

  /** A decoded value. An outcome is its numeric tag. */
  datatype Datum<R> =
    | DText(text: bytes) | DInt(n: int) | DFlag(b: bool) | DOpaque(raw: bytes)
    | DOutcome(tag: nat) | DRequest(request: R) | DRecord(fields: map<bytes, Datum<R>>)

  function FieldOf(fields: seq<Field>, name: bytes): (r: Option<Field>)
    ensures r.Some? ==> r.value in fields && r.value.name == name
    ensures r.None? ==> forall f :: f in fields ==> f.name != name
  {
    if fields == [] then None
    else if fields[0].name == name then Some(fields[0])
    else FieldOf(fields[1..], name)
  }

  predicate Complete<T>(fields: seq<Field>, m: map<bytes, T>)
  {
    forall f :: f in fields && f.required ==> f.name in m
  }

  const INT32_MIN: int := -2147483648
  const INT32_MAX: int := 2147483647

  // ---- outcomes ----

  const RESOLVED: bytes := Ascii("resolved")
  const INVALID: bytes := Ascii("invalid")
  const UNAVAILABLE: bytes := Ascii("unavailable")
  const UNSUPPORTED_MAPPING: bytes := Ascii("unsupported_mapping")
  const FORBIDDEN: bytes := Ascii("forbidden")

  /** The wire word of an outcome's tag; tags start at one. */
  function WireName(tag: nat): Option<bytes>
  {
    match tag
    case 1 => Some(RESOLVED)
    case 2 => Some(INVALID)
    case 3 => Some(UNAVAILABLE)
    case 4 => Some(UNSUPPORTED_MAPPING)
    case 5 => Some(FORBIDDEN)
    case _ => None
  }

  function ParseOutcome(word: bytes): Option<nat>
  {
    if word == RESOLVED then Some(1)
    else if word == INVALID then Some(2)
    else if word == UNAVAILABLE then Some(3)
    else if word == UNSUPPORTED_MAPPING then Some(4)
    else if word == FORBIDDEN then Some(5)
    else None
  }

  lemma {:induction false} OutcomeWordLengths()
    ensures |RESOLVED| == 8 && |INVALID| == 7 && |UNAVAILABLE| == 11 && |UNSUPPORTED_MAPPING| == 19 && |FORBIDDEN| == 9
  {
  }

  lemma {:induction false} OutcomeWordsAreAscii(tag: nat)
    ensures WireName(tag).Some? ==> IsAscii(WireName(tag).value)
  {
  }

  /** A word names a member exactly when it is that member's word. */
  lemma {:induction false} OutcomeWords(tag: nat, word: bytes)
    ensures ParseOutcome(word) == Some(tag) <==> WireName(tag) == Some(word)
  {
    OutcomeWordLengths();
  }

  /** The words by tag. */
  lemma {:induction false} OutcomeTable(tag: nat)
    ensures WireName(tag) ==
            if tag == 0 || tag > 5 then None
            else Some(Ascii(["resolved", "invalid", "unavailable", "unsupported_mapping", "forbidden"][tag - 1]))
  {
  }

  // ---- decoding ----

  function Boolean(s: bytes): (r: Parsed<bool>)
    ensures r.Ok? ==> |r.rest| < |s|
  {
    if At(s) == TRUE[0] then
      match Literal(s, TRUE) case Refused(w, rest) => Refused(w, rest) case Ok(_, rest) => Ok(true, rest)
    else if At(s) == FALSE[0] then
      match Literal(s, FALSE) case Refused(w, rest) => Refused(w, rest) case Ok(_, rest) => Ok(false, rest)
    else Refused(WrongType, s)
  }

  function Outcome(s: bytes): (r: Parsed<nat>)
    ensures r.Ok? ==> |r.rest| < |s|
  {
    match Str(s)
    case Refused(w, rest) => Refused(w, rest)
    case Ok(word, rest) =>
      match ParseOutcome(word) case None => Refused(BadEnum, rest) case Some(tag) => Ok(tag, rest)
  }

  /** The bytes a walked value spans. */
  function RawValue(s: bytes, d: int, lim: int): (r: Parsed<bytes>)
    ensures r.Ok? ==> |r.rest| < |s|
  {
    match SkipValue(s, d, lim)
    case Refused(w, rest) => Refused(w, rest)
    case Ok(_, rest) => Ok(s[..|s| - |rest|], rest)
  }

  /** A member's name and colon, up to its value. */
  function MemberName(s: bytes): (r: Parsed<bytes>)
    ensures r.Ok? ==> |r.rest| < |s|
  {
    if At(s) != QUOTE then Refused(Malformed, s)
    else
      match Str(s)
      case Refused(w, rest) => Refused(w, rest)
      case Ok(k, rest) =>
        var t := Ws(rest);
        if At(t) != COLON then Refused(Malformed, t) else Ok(k, Ws(t[1..]))
  }

  function Decode<R(!new)>(c: Codec<R>, k: Kind, s: bytes, d: int, lim: int): (r: Parsed<Datum<R>>)
    requires Contract(c) && 0 <= d && 1 <= lim <= DEPTH_LIMIT
    ensures r.Ok? ==> |r.rest| < |s|
    decreases |s|, 0
  {
    match k
    case KText => (match Str(s) case Refused(w, rest) => Refused(w, rest) case Ok(v, rest) => Ok(DText(v), rest))
    case KInt32 =>
      (match Integer(s, INT32_MIN, INT32_MAX) case Refused(w, rest) => Refused(w, rest) case Ok(v, rest) => Ok(DInt(v), rest))
    case KFlag => (match Boolean(s) case Refused(w, rest) => Refused(w, rest) case Ok(v, rest) => Ok(DFlag(v), rest))
    case KOpaque =>
      (match RawValue(s, d, lim) case Refused(w, rest) => Refused(w, rest) case Ok(v, rest) => Ok(DOpaque(v), rest))
    case KOutcome => (match Outcome(s) case Refused(w, rest) => Refused(w, rest) case Ok(v, rest) => Ok(DOutcome(v), rest))
    case KRequest =>
      assert DecodesAsWalked(c, s, d, lim);
      (match c.decode(s, d, lim) case Refused(w, rest) => Refused(w, rest) case Ok(v, rest) => Ok(DRequest(v), rest))
    case KRecord(fields) =>
      if At(s) != LBRACE then Refused(WrongType, s)
      else if d + 1 > lim then Refused(DepthExceeded, s)
      else
        var t := Ws(s[1..]);
        if At(t) == RBRACE then Close(fields, map[], t) else DecodeMembers(c, fields, t, d + 1, lim, map[])
  }

  /** One member and the white space after it: what is decoded then. m is what
      was decoded before, and its names are the ones seen. */
  function DecodeMember<R(!new)>(c: Codec<R>, fields: seq<Field>, s: bytes, d: int, lim: int, m: map<bytes, Datum<R>>): (r: Parsed<map<bytes, Datum<R>>>)
    requires Contract(c) && 0 <= d && 1 <= lim <= DEPTH_LIMIT
    ensures r.Ok? ==> |r.rest| < |s|
    decreases |s|, 1
  {
    match MemberName(Ws(s))
    case Refused(w, rest) => Refused(w, rest)
    case Ok(name, t) =>
      match FieldOf(fields, name)
      case None => Refused(UnknownField, t)
      case Some(f) =>
        if name in m then Refused(DuplicateField, t)
        else
          match Decode(c, f.kind, t, d, lim)
          case Refused(w, rest) => Refused(w, rest)
          case Ok(x, rest) => Ok(m[name := x], Ws(rest))
  }

  /** The members of a record up to and with its closing byte. */
  function DecodeMembers<R(!new)>(c: Codec<R>, fields: seq<Field>, s: bytes, d: int, lim: int, m: map<bytes, Datum<R>>): (r: Parsed<Datum<R>>)
    requires Contract(c) && 0 <= d && 1 <= lim <= DEPTH_LIMIT
    ensures r.Ok? ==> |r.rest| < |s|
    decreases |s|, 2
  {
    match DecodeMember(c, fields, s, d, lim, m)
    case Refused(w, rest) => Refused(w, rest)
    case Ok(m', u) =>
      if At(u) == COMMA then DecodeMembers(c, fields, u[1..], d, lim, m') else Close(fields, m', u)
  }

  function Close<R>(fields: seq<Field>, m: map<bytes, Datum<R>>, s: bytes): (r: Parsed<Datum<R>>)
    ensures r.Ok? ==> |r.rest| < |s|
  {
    if At(s) != RBRACE then Refused(Malformed, s)
    else if !Complete(fields, m) then Refused(MissingField, s[1..])
    else Ok(DRecord(m), s[1..])
  }

  // ---- decoding refines walking ----

  /** Whatever a decoder accepts, the walker accepts, to the same byte. */
  lemma {:induction false} DecodeIsWalked<R(!new)>(c: Codec<R>, k: Kind, s: bytes, d: int, lim: int)
    requires Contract(c) && 0 <= d && 1 <= lim <= DEPTH_LIMIT
    requires !IsWs(At(s))
    requires Decode(c, k, s, d, lim).Ok?
    ensures SkipValue(s, d, lim) == Ok((), Decode(c, k, s, d, lim).rest)
    decreases |s|, 0
  {
    match k
    case KRequest =>
      assert DecodesAsWalked(c, s, d, lim);
      assert Ws(s) == s;
    case KRecord(fields) =>
      var t := Ws(s[1..]);
      if At(t) != RBRACE {
        MembersAreWalked(c, fields, t, d + 1, lim, map[]);
        var none: map<bytes, Datum<R>> := map[];
          assert none.Keys == {};
      }
    case _ => ScalarIsWalked(c, k, s, d, lim);
  }

  lemma {:induction false} ScalarIsWalked<R(!new)>(c: Codec<R>, k: Kind, s: bytes, d: int, lim: int)
    requires Contract(c) && 0 <= d && 1 <= lim <= DEPTH_LIMIT
    requires !k.KRequest? && !k.KRecord?
    requires Decode(c, k, s, d, lim).Ok?
    ensures SkipValue(s, d, lim) == Ok((), Decode(c, k, s, d, lim).rest)
  {
    match k
    case KText =>
    case KOutcome =>
    case KOpaque => assert SkipValue(s, d, lim).value == ();
    case KFlag =>
    case KInt32 => IntegerIsNumber(s, INT32_MIN, INT32_MAX);
  }

  lemma {:induction false} MembersAreWalked<R(!new)>(c: Codec<R>, fields: seq<Field>, s: bytes, d: int, lim: int, m: map<bytes, Datum<R>>)
    requires Contract(c) && 0 <= d && 1 <= lim <= DEPTH_LIMIT
    requires DecodeMembers(c, fields, s, d, lim, m).Ok?
    ensures SkipElems(s, true, d, lim, m.Keys) == Ok((), DecodeMembers(c, fields, s, d, lim, m).rest)
    decreases |s|, 1
  {
    var name, t := MemberName(Ws(s)).value, MemberName(Ws(s)).rest;
    var k := FieldOf(fields, name).value.kind;
    DecodeIsWalked(c, k, t, d, lim);
    var x, rest := Decode(c, k, t, d, lim).value, Decode(c, k, t, d, lim).rest;
    var u := Ws(rest);
    assert m[name := x].Keys == m.Keys + {name};
    if At(u) == COMMA {
      MembersAreWalked(c, fields, u[1..], d, lim, m[name := x]);
    }
  }

  /** Bytes the walker accepted at a depth never make a decoder at that depth
      refuse for the depth. */
  lemma {:induction false} WalkedIsShallow<R(!new)>(c: Codec<R>, k: Kind, s: bytes, d: int, lim: int)
    requires Contract(c) && 0 <= d && 1 <= lim <= DEPTH_LIMIT
    requires !IsWs(At(s))
    requires SkipValue(s, d, lim).Ok?
    ensures Decode(c, k, s, d, lim).Refused? ==> Decode(c, k, s, d, lim).word != DepthExceeded
    decreases |s|, 0
  {
    match k
    case KText => StrNeverTooDeep(s);
    case KOutcome => StrNeverTooDeep(s);
    case KInt32 => GatherNeverTooDeep(s);
    case KRequest =>
      assert DecodesAsWalked(c, s, d, lim);
      assert Ws(s) == s;
    case KRecord(fields) =>
      if At(s) == LBRACE {
        var t := Ws(s[1..]);
        if At(t) != RBRACE {
          var none: map<bytes, Datum<R>> := map[];
          assert none.Keys == {};
          WalkedMembersAreShallow(c, fields, t, d + 1, lim, map[]);
        }
      }
    case _ =>
  }

  lemma {:induction false} WalkedMembersAreShallow<R(!new)>(c: Codec<R>, fields: seq<Field>, s: bytes, d: int, lim: int, m: map<bytes, Datum<R>>)
    requires Contract(c) && 0 <= d && 1 <= lim <= DEPTH_LIMIT
    requires SkipElems(s, true, d, lim, m.Keys).Ok?
    ensures var r := DecodeMembers(c, fields, s, d, lim, m); r.Refused? ==> r.word != DepthExceeded
    decreases |s|, 1
  {
    if MemberName(Ws(s)).Refused? {
      StrNeverTooDeep(Ws(s));
    } else {
      var name, t := MemberName(Ws(s)).value, MemberName(Ws(s)).rest;
      if FieldOf(fields, name).Some? && name !in m {
        var k := FieldOf(fields, name).value.kind;
        WalkedIsShallow(c, k, t, d, lim);
        if Decode(c, k, t, d, lim).Ok? {
          DecodeIsWalked(c, k, t, d, lim);
          var x, rest := Decode(c, k, t, d, lim).value, Decode(c, k, t, d, lim).rest;
          assert m[name := x].Keys == m.Keys + {name};
          if At(Ws(rest)) == COMMA {
            WalkedMembersAreShallow(c, fields, Ws(rest)[1..], d, lim, m[name := x]);
          }
        }
      }
    }
  }

  lemma {:induction false} BodyNeverTooDeep(s: bytes, out: bytes)
    ensures Body(s, out).Refused? ==> Body(s, out).word == Malformed || Body(s, out).word == BadString
    decreases |s|
  {
    if s != [] && s[0] != QUOTE && s[0] >= 0x20 {
      if s[0] != BACKSLASH {
        BodyNeverTooDeep(s[1..], out + [s[0]]);
      } else if Escape(s).Ok? {
        BodyNeverTooDeep(Escape(s).rest, out + Escape(s).value);
      }
    }
  }

  lemma {:induction false} StrNeverTooDeep(s: bytes)
    ensures Str(s).Refused? ==> Str(s).word in {Malformed, BadString, WrongType}
  {
    if At(s) == QUOTE {
      BodyNeverTooDeep(s[1..], []);
    }
  }

  lemma {:induction false} GatherRefuses(s: bytes, u: nat)
    ensures Gather(s, u).Refused? ==> Gather(s, u).word == NumberSpelling
  {
    if s != [] && IsDigit(s[0]) && u <= GUARD {
      GatherRefuses(s[1..], u * 10 + (s[0] - ZERO));
    }
  }

  lemma {:induction false} GatherNeverTooDeep(s: bytes)
    ensures var r := Integer(s, INT32_MIN, INT32_MAX); r.Refused? ==> r.word in {WrongType, Malformed, NumberSpelling}
  {
    var t := if At(s) == MINUS then s[1..] else s;
    GatherRefuses(t, 0);
  }
}
