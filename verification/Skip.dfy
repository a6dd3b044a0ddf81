/** The depth-bounded walker of opaque JSON values, sound and complete for the
    grammar of RFC 8259 sections 2 to 7 with unique member names. */
module Skip {
  import opened Bytes
  import opened Text
  import opened Numbers
  import Utf8

  const TRUE: bytes := [0x74, 0x72, 0x75, 0x65]
  const FALSE: bytes := [0x66, 0x61, 0x6C, 0x73, 0x65]
  const NULL: bytes := [0x6E, 0x75, 0x6C, 0x6C]

  function Literal(s: bytes, word: bytes): (r: Parsed<()>)
    ensures r.Ok? && word != [] ==> |r.rest| < |s|
  {
    if |word| <= |s| && s[..|word|] == word then Ok((), s[|word|..]) else Refused(Malformed, s)
  }

  function Opener(obj: bool): byte { if obj then LBRACE else LBRACKET }

  function Shut(obj: bool): byte { if obj then RBRACE else RBRACKET }

  /** One value at nesting depth d under limit lim. */
  function SkipValue(s: bytes, d: int, lim: int): (r: Parsed<()>)
    ensures r.Ok? ==> |r.rest| < |s|
    decreases |s|, 0
  {
    var c := At(s);
    if c == QUOTE then
      match Str(s) case Refused(w, rest) => Refused(w, rest) case Ok(_, rest) => Ok((), rest)
    else if c == LBRACE || c == LBRACKET then
      var obj := c == LBRACE;
      if d + 1 > lim then Refused(DepthExceeded, s)
      else
        var t := Ws(s[1..]);
        if At(t) == Shut(obj) then Ok((), t[1..]) else SkipElems(t, obj, d + 1, lim, {})
    else if c == TRUE[0] then Literal(s, TRUE)
    else if c == FALSE[0] then Literal(s, FALSE)
    else if c == NULL[0] then Literal(s, NULL)
    else if c == MINUS || IsDigit(c) then SkipNumber(s)
    else Refused(Malformed, s)
  }

  /** One element of a container, and the white space after it: the names seen then. */
  function SkipElem(s: bytes, obj: bool, d: int, lim: int, seen: set<bytes>): (r: Parsed<set<bytes>>)
    ensures r.Ok? ==> |r.rest| < |s|
    decreases |s|, 1
  {
    match SkipName(Ws(s), obj, seen)
    case Refused(w, rest) => Refused(w, rest)
    case Ok(seen', t) =>
      match SkipValue(t, d, lim)
      case Refused(w, rest) => Refused(w, rest)
      case Ok(_, rest) => Ok(seen', Ws(rest))
  }

  /** The elements of a container up to and with its closing byte. */
  function SkipElems(s: bytes, obj: bool, d: int, lim: int, seen: set<bytes>): (r: Parsed<()>)
    ensures r.Ok? ==> |r.rest| < |s|
    decreases |s|, 2
  {
    match SkipElem(s, obj, d, lim, seen)
    case Refused(w, rest) => Refused(w, rest)
    case Ok(seen', u) =>
      if At(u) == COMMA then SkipElems(u[1..], obj, d, lim, seen')
      else if At(u) != Shut(obj) then Refused(Malformed, u)
      else Ok((), u[1..])
  }

  /** A member name and its colon; nothing in an array. */
  function SkipName(s: bytes, obj: bool, seen: set<bytes>): (r: Parsed<set<bytes>>)
    ensures r.Ok? ==> |r.rest| <= |s|
  {
    if !obj then Ok(seen, s)
    else if At(s) != QUOTE then Refused(Malformed, s)
    else
      match Str(s)
      case Refused(w, rest) => Refused(w, rest)
      case Ok(k, rest) =>
        if k in seen then Refused(DuplicateKey, rest)
        else
          var t := Ws(rest);
          if At(t) != COLON then Refused(Malformed, t) else Ok(seen + {k}, Ws(t[1..]))
  }

  // ---- the grammar ----

  type ws = w: bytes | AllWs(w)

  datatype Key = NoKey | Key(chs: seq<char_>, mid1: ws, mid2: ws)

  datatype Value =
    | VStr(chs: seq<char_>)
    | VNum(n: number)
    | VTrue | VFalse | VNull
    | VEmpty(obj: bool, pad: ws)
    | VFull(obj: bool, elems: Elems)

  datatype Elems =
    | Last(pre: ws, key: Key, v: Value, post: ws)
    | More(pre: ws, key: Key, v: Value, post: ws, next: Elems)

  predicate ValueOk(v: Value)
  {
    match v
    case VStr(chs) => Utf8.Valid(Meaning(chs))
    case VFull(obj, e) => ElemsOk(e, obj, {})
    case _ => true
  }

  /** The names of an object's members are well-formed and new to seen. */
  predicate KeyOk(k: Key, obj: bool, seen: set<bytes>)
  {
    if obj then k.Key? && Utf8.Valid(Meaning(k.chs)) && Meaning(k.chs) !in seen else k.NoKey?
  }

  function Named(k: Key): set<bytes> { if k.Key? then {Meaning(k.chs)} else {} }

  predicate ElemsOk(e: Elems, obj: bool, seen: set<bytes>)
  {
    && KeyOk(e.key, obj, seen)
    && ValueOk(e.v)
    && (e.More? ==> ElemsOk(e.next, obj, seen + Named(e.key)))
  }

  function Height(v: Value): nat
  {
    match v
    case VEmpty(_, _) => 1
    case VFull(_, e) => 1 + ElemsHeight(e)
    case _ => 0
  }

  function ElemsHeight(e: Elems): nat
  {
    if e.More? && ElemsHeight(e.next) > Height(e.v) then ElemsHeight(e.next) else Height(e.v)
  }

  /** Nesting of v from depth d on stays within lim. */
  predicate Fits(v: Value, d: int, lim: int) { Height(v) == 0 || d + Height(v) <= lim }

  function KeyText(k: Key, tail: bytes): bytes
  {
    match k
    case NoKey => tail
    case Key(chs, mid1, mid2) => StrText(chs, mid1 + ([COLON] + (mid2 + tail)))
  }

  function ValueText(v: Value, tail: bytes): bytes
  {
    match v
    case VStr(chs) => StrText(chs, tail)
    case VNum(n) => NumberText(n, tail)
    case VTrue => TRUE + tail
    case VFalse => FALSE + tail
    case VNull => NULL + tail
    case VEmpty(obj, pad) => [Opener(obj)] + (pad + ([Shut(obj)] + tail))
    case VFull(obj, e) => [Opener(obj)] + ElemsText(e, [Shut(obj)] + tail)
  }

  function ElemsText(e: Elems, tail: bytes): bytes
  {
    e.pre + KeyText(e.key, ValueText(e.v, e.post + (match e case Last(_, _, _, _) => tail case More(_, _, _, _, next) => [COMMA] + ElemsText(next, tail))))
  }

  /** What may follow a value for it to end where the grammar ends it. */
  predicate Ends(v: Value, tail: bytes) { v.VNum? ==> Stops(v.n, tail) }

  // ---- completeness ----

  /** No value starts with white space, a closing byte or a comma. */
  lemma {:induction false} ValueStarts(v: Value, tail: bytes)
    ensures var t := ValueText(v, tail);
            t != [] && !IsWs(t[0]) && t[0] != RBRACE && t[0] != RBRACKET && t[0] != COMMA && t[0] != COLON
  {
    match v
    case VNum(n) => NumberStarts(n, tail);
    case _ =>
  }

  lemma {:induction false} NameReads(k: Key, obj: bool, seen: set<bytes>, tail: bytes)
    requires KeyOk(k, obj, seen)
    requires tail == [] || !IsWs(tail[0])
    ensures SkipName(KeyText(k, tail), obj, seen) == Ok(seen + Named(k), tail)
  {
    if obj {
      var t := [COLON] + (k.mid2 + tail);
      StrReads(k.chs, k.mid1 + t);
      WsSkips(k.mid1, t);
      assert t[1..] == k.mid2 + tail;
      WsSkips(k.mid2, tail);
    } else {
      assert seen + Named(k) == seen;
    }
  }

  /** The text after a value of a container ends it. */
  lemma {:induction false} AfterElem(v: Value, post: ws, c: byte, tail: bytes)
    requires c == COMMA || c == RBRACE || c == RBRACKET
    ensures Ends(v, post + ([c] + tail))
    ensures Ws(post + ([c] + tail)) == [c] + tail
  {
    WsSkips(post, [c] + tail);
  }

  /** Every value of the grammar is walked to its end. */
  lemma {:induction false} SkipReads(v: Value, tail: bytes, d: int, lim: int)
    requires ValueOk(v) && Fits(v, d, lim) && Ends(v, tail)
    ensures SkipValue(ValueText(v, tail), d, lim) == Ok((), tail)
    decreases v, 0
  {
    var s := ValueText(v, tail);
    match v
    case VStr(chs) => StrReads(chs, tail);
    case VNum(n) => NumberReads(n, tail);
    case VTrue => assert s[..4] == TRUE && s[4..] == tail;
    case VFalse => assert s[..5] == FALSE && s[5..] == tail;
    case VNull => assert s[..4] == NULL && s[4..] == tail;
    case VEmpty(obj, pad) =>
      assert s[1..] == pad + ([Shut(obj)] + tail);
      WsSkips(pad, [Shut(obj)] + tail);
    case VFull(obj, e) =>
      assert s[1..] == ElemsText(e, [Shut(obj)] + tail);
      ElemsStart(e, obj, {}, [Shut(obj)] + tail);
      SkipElemsReads(e, obj, {}, tail, d + 1, lim);
      SkipElemsWs(s[1..], obj, d + 1, lim, {});
  }

  lemma {:induction false} ElemsStart(e: Elems, obj: bool, seen: set<bytes>, tail: bytes)
    requires ElemsOk(e, obj, seen)
    ensures At(Ws(ElemsText(e, tail))) != Shut(obj)
  {
    var body := ElemsText(e, tail)[|e.pre|..];
    assert ElemsText(e, tail) == e.pre + body;
    ValueStarts(e.v, e.post + (match e case Last(_, _, _, _) => tail case More(_, _, _, _, next) => [COMMA] + ElemsText(next, tail)));
    WsSkips(e.pre, body);
  }

  lemma {:induction false} WsTwice(s: bytes)
    ensures Ws(Ws(s)) == Ws(s)
  {
  }

  lemma {:induction false} SkipElemsWs(s: bytes, obj: bool, d: int, lim: int, seen: set<bytes>)
    ensures SkipElems(Ws(s), obj, d, lim, seen) == SkipElems(s, obj, d, lim, seen)
  {
    WsTwice(s);
  }

  lemma {:induction false} SkipElemsReads(e: Elems, obj: bool, seen: set<bytes>, tail: bytes, d: int, lim: int)
    requires ElemsOk(e, obj, seen) && d + ElemsHeight(e) <= lim
    ensures SkipElems(ElemsText(e, [Shut(obj)] + tail), obj, d, lim, seen) == Ok((), tail)
    decreases e, 1
  {
    var close := [Shut(obj)] + tail;
    var after := if e.More? then [COMMA] + ElemsText(e.next, close) else close;
    var value := ValueText(e.v, e.post + after);
    ValueStarts(e.v, e.post + after);
    AfterElem(e.v, e.post, after[0], after[1..]);
    assert after == [after[0]] + after[1..];
    WsSkips(e.pre, KeyText(e.key, value));
    NameReads(e.key, obj, seen, value);
    SkipReads(e.v, e.post + after, d, lim);
    if e.More? {
      assert after[1..] == ElemsText(e.next, close);
      SkipElemsReads(e.next, obj, seen + Named(e.key), tail, d, lim);
    } else {
      assert after[1..] == tail;
    }
  }

  predicate TooDeep<T>(r: Parsed<T>) { r.Refused? && r.word == DepthExceeded }

  /** A value of the grammar nested beyond the limit is refused for that, and for
      nothing else. */
  lemma {:induction false} SkipStopsAtLimit(v: Value, tail: bytes, d: int, lim: int)
    requires ValueOk(v) && Ends(v, tail) && !Fits(v, d, lim)
    ensures TooDeep(SkipValue(ValueText(v, tail), d, lim))
    decreases v, 0
  {
    if v.VFull? && d + 1 <= lim {
      var s := ValueText(v, tail);
      assert s[1..] == ElemsText(v.elems, [Shut(v.obj)] + tail);
      ElemsStart(v.elems, v.obj, {}, [Shut(v.obj)] + tail);
      SkipElemsStops(v.elems, v.obj, {}, tail, d + 1, lim);
      SkipElemsWs(s[1..], v.obj, d + 1, lim, {});
    }
  }

  lemma {:induction false} SkipElemsStops(e: Elems, obj: bool, seen: set<bytes>, tail: bytes, d: int, lim: int)
    requires ElemsOk(e, obj, seen) && d <= lim < d + ElemsHeight(e)
    ensures TooDeep(SkipElems(ElemsText(e, [Shut(obj)] + tail), obj, d, lim, seen))
    decreases e, 1
  {
    var close := [Shut(obj)] + tail;
    var after := if e.More? then [COMMA] + ElemsText(e.next, close) else close;
    var value := ValueText(e.v, e.post + after);
    ValueStarts(e.v, e.post + after);
    AfterElem(e.v, e.post, after[0], after[1..]);
    assert after == [after[0]] + after[1..];
    WsSkips(e.pre, KeyText(e.key, value));
    NameReads(e.key, obj, seen, value);
    if Fits(e.v, d, lim) {
      SkipReads(e.v, e.post + after, d, lim);
      assert after[1..] == ElemsText(e.next, close);
      SkipElemsStops(e.next, obj, seen + Named(e.key), tail, d, lim);
    } else {
      SkipStopsAtLimit(e.v, e.post + after, d, lim);
    }
  }

  // ---- soundness ----

  lemma {:induction false} LiteralSplits(s: bytes, word: bytes)
    requires Literal(s, word).Ok?
    ensures s == word + Literal(s, word).rest
  {
  }

  lemma {:induction false} NameSplits(s: bytes, obj: bool, seen: set<bytes>) returns (k: Key)
    requires SkipName(s, obj, seen).Ok?
    ensures var r := SkipName(s, obj, seen);
            KeyOk(k, obj, seen) && s == KeyText(k, r.rest) && r.value == seen + Named(k)
  {
    if obj {
      var chs := StrIsSpelled(s);
      var r := Str(s).rest;
      var mid1 := WsSplits(r);
      var t := Ws(r);
      assert t == [COLON] + t[1..];
      var mid2 := WsSplits(t[1..]);
      k := Key(chs, mid1, mid2);
    } else {
      k := NoKey;
    }
  }

  lemma {:induction false} WordSplits(s: bytes, d: int, lim: int) returns (v: Value)
    requires SkipValue(s, d, lim).Ok? && (At(s) == TRUE[0] || At(s) == FALSE[0] || At(s) == NULL[0])
    ensures ValueOk(v) && Fits(v, d, lim) && !v.VNum?
    ensures s == ValueText(v, SkipValue(s, d, lim).rest)
  {
    if At(s) == TRUE[0] {
      LiteralSplits(s, TRUE);
      v := VTrue;
    } else if At(s) == FALSE[0] {
      LiteralSplits(s, FALSE);
      v := VFalse;
    } else {
      LiteralSplits(s, NULL);
      v := VNull;
    }
  }

  lemma {:induction false} EmptySplits(s: bytes, obj: bool, d: int, lim: int) returns (v: Value)
    requires SkipValue(s, d, lim).Ok? && At(s) == Opener(obj) && At(Ws(s[1..])) == Shut(obj)
    ensures ValueOk(v) && Fits(v, d, lim) && !v.VNum?
    ensures s == ValueText(v, SkipValue(s, d, lim).rest)
  {
    var t := Ws(s[1..]);
    var pad := WsSplits(s[1..]);
    assert t == [Shut(obj)] + t[1..] && s == [Opener(obj)] + s[1..];
    v := VEmpty(obj, pad);
  }

  /** What a container that is not empty is walked as. */
  lemma {:induction false} FullWalks(s: bytes, obj: bool, d: int, lim: int)
    requires SkipValue(s, d, lim).Ok? && At(s) == Opener(obj) && At(Ws(s[1..])) != Shut(obj)
    ensures d + 1 <= lim && s == [Opener(obj)] + s[1..]
    ensures SkipValue(s, d, lim) == SkipElems(s[1..], obj, d + 1, lim, {})
  {
    SkipElemsWs(s[1..], obj, d + 1, lim, {});
  }

  /** Whatever is walked as a value is a value of the grammar, nested within the limit. */
  lemma {:induction false} SkipSplits(s: bytes, d: int, lim: int) returns (v: Value)
    requires SkipValue(s, d, lim).Ok?
    ensures ValueOk(v) && Fits(v, d, lim)
    ensures s == ValueText(v, SkipValue(s, d, lim).rest) && Ends(v, SkipValue(s, d, lim).rest)
    decreases |s|, 0
  {
    var c := At(s);
    if c == QUOTE {
      var chs := StrIsSpelled(s);
      v := VStr(chs);
    } else if c == LBRACE || c == LBRACKET {
      var obj := c == LBRACE;
      if At(Ws(s[1..])) == Shut(obj) {
        v := EmptySplits(s, obj, d, lim);
      } else {
        FullWalks(s, obj, d, lim);
        var e := SkipElemsSplits(s[1..], obj, {}, d + 1, lim);
        v := VFull(obj, e);
      }
    } else if c == TRUE[0] || c == FALSE[0] || c == NULL[0] {
      v := WordSplits(s, d, lim);
    } else {
      var n := NumberSplits(s);
      v := VNum(n);
    }
  }

  lemma {:induction false} ElemSplits(s: bytes, obj: bool, seen: set<bytes>, d: int, lim: int)
    returns (pre: ws, key: Key, v: Value, post: ws)
    requires SkipElem(s, obj, d, lim, seen).Ok? && d <= lim
    ensures var r := SkipElem(s, obj, d, lim, seen);
            && KeyOk(key, obj, seen) && ValueOk(v) && d + Height(v) <= lim && r.value == seen + Named(key)
            && s == pre + KeyText(key, ValueText(v, post + r.rest))
    decreases |s|, 1
  {
    pre := WsSplits(s);
    key := NameSplits(Ws(s), obj, seen);
    var t := SkipName(Ws(s), obj, seen).rest;
    v := SkipSplits(t, d, lim);
    post := WsSplits(SkipValue(t, d, lim).rest);
  }

  lemma {:induction false} SkipElemsSplits(s: bytes, obj: bool, seen: set<bytes>, d: int, lim: int) returns (e: Elems)
    requires SkipElems(s, obj, d, lim, seen).Ok? && d <= lim
    ensures ElemsOk(e, obj, seen) && d + ElemsHeight(e) <= lim
    ensures s == ElemsText(e, [Shut(obj)] + SkipElems(s, obj, d, lim, seen).rest)
    decreases |s|, 2
  {
    var pre, key, v, post := ElemSplits(s, obj, seen, d, lim);
    var seen', u := SkipElem(s, obj, d, lim, seen).value, SkipElem(s, obj, d, lim, seen).rest;
    assert u == [u[0]] + u[1..];
    if At(u) == COMMA {
      var next := SkipElemsSplits(u[1..], obj, seen', d, lim);
      e := More(pre, key, v, post, next);
    } else {
      e := Last(pre, key, v, post);
    }
  }

  /** Over all bytes: the walker accepts exactly the values of the grammar whose member
      names are unique and whose nesting stays within the limit, in front of bytes
      that do not go on with them. */
  lemma {:induction false} SkipExactly(s: bytes, rest: bytes, d: int, lim: int)
    ensures SkipValue(s, d, lim) == Ok((), rest) <==>
            exists v: Value :: s == ValueText(v, rest) && ValueOk(v) && Fits(v, d, lim) && Ends(v, rest)
  {
    if SkipValue(s, d, lim) == Ok((), rest) {
      var v := SkipSplits(s, d, lim);
      assert s == ValueText(v, rest) && ValueOk(v) && Fits(v, d, lim) && Ends(v, rest);
    }
    forall v: Value | s == ValueText(v, rest) && ValueOk(v) && Fits(v, d, lim) && Ends(v, rest)
      ensures SkipValue(s, d, lim) == Ok((), rest)
    {
      SkipReads(v, rest, d, lim);
    }
  }

  // ---- what is left is a part of what was given ----

  predicate IsSuffix(t: bytes, s: bytes) { |t| <= |s| && s[|s| - |t|..] == t }

  lemma {:induction false} SuffixOf(a: bytes, t: bytes, s: bytes)
    requires IsSuffix(t, s)
    ensures IsSuffix(t, a + s)
  {
    assert (a + s)[|a + s| - |t|..] == s[|s| - |t|..];
  }

  lemma {:induction false} WsEndsInRest(s: bytes)
    ensures IsSuffix(Ws(s), s)
  {
    var w := WsSplits(s);
    SuffixOf(w, Ws(s), Ws(s));
  }

  lemma {:induction false} SpelledEnds(chs: seq<char_>, t: bytes, tail: bytes)
    requires IsSuffix(tail, t)
    ensures IsSuffix(tail, Spelled(chs, t))
  {
    if chs != [] {
      SpelledEnds(chs[1..], t, tail);
      var more := Spelled(chs[1..], t);
      var text := ChText(chs[0], more);
      assert text == text[..|text| - |more|] + more;
      SuffixOf(text[..|text| - |more|], tail, more);
    }
  }

  lemma {:induction false} StrEnds(chs: seq<char_>, t: bytes, tail: bytes)
    requires IsSuffix(tail, t)
    ensures IsSuffix(tail, StrText(chs, t))
  {
    SuffixOf([QUOTE], tail, t);
    SpelledEnds(chs, [QUOTE] + t, tail);
    SuffixOf([QUOTE], tail, Spelled(chs, [QUOTE] + t));
  }

  lemma {:induction false} NumberEnds(n: number, tail: bytes)
    ensures IsSuffix(tail, NumberText(n, tail))
  {
    var t2 := ExpText(n.exp, tail);
    var t1 := FracText(n.frac, t2);
    if n.exp.Exp? {
      SuffixOf(n.exp.ds, tail, tail);
      SuffixOf(n.exp.sign, tail, n.exp.ds + tail);
      SuffixOf([n.exp.e], tail, n.exp.sign + (n.exp.ds + tail));
    }
    SuffixOf(n.frac, tail, t2);
    SuffixOf([DOT], tail, n.frac + t2);
    SuffixOf(n.whole, tail, t1);
    SuffixOf(if n.neg then [MINUS] else [], tail, n.whole + t1);
  }

  lemma {:induction false} ValueEnds(v: Value, t: bytes, tail: bytes)
    requires IsSuffix(tail, t)
    ensures IsSuffix(tail, ValueText(v, t))
    decreases v, 0
  {
    match v
    case VStr(chs) => StrEnds(chs, t, tail);
    case VNum(n) =>
      NumberEnds(n, t);
      var text := NumberText(n, t);
      assert text == text[..|text| - |t|] + t;
      SuffixOf(text[..|text| - |t|], tail, t);
    case VTrue => SuffixOf(TRUE, tail, t);
    case VFalse => SuffixOf(FALSE, tail, t);
    case VNull => SuffixOf(NULL, tail, t);
    case VEmpty(obj, pad) =>
      SuffixOf([Shut(obj)], tail, t);
      SuffixOf(pad, tail, [Shut(obj)] + t);
      SuffixOf([Opener(obj)], tail, pad + ([Shut(obj)] + t));
    case VFull(obj, e) =>
      SuffixOf([Shut(obj)], tail, t);
      ElemsEnd(e, [Shut(obj)] + t, tail);
      SuffixOf([Opener(obj)], tail, ElemsText(e, [Shut(obj)] + t));
  }

  lemma {:induction false} ElemsEnd(e: Elems, t: bytes, tail: bytes)
    requires IsSuffix(tail, t)
    ensures IsSuffix(tail, ElemsText(e, t))
    decreases e, 1
  {
    var after := if e.More? then [COMMA] + ElemsText(e.next, t) else t;
    if e.More? {
      ElemsEnd(e.next, t, tail);
      SuffixOf([COMMA], tail, ElemsText(e.next, t));
    }
    SuffixOf(e.post, tail, after);
    ValueEnds(e.v, e.post + after, tail);
    var value := ValueText(e.v, e.post + after);
    KeyEnds(e.key, value, tail);
    SuffixOf(e.pre, tail, KeyText(e.key, value));
  }

  lemma {:induction false} KeyEnds(k: Key, t: bytes, tail: bytes)
    requires IsSuffix(tail, t)
    ensures IsSuffix(tail, KeyText(k, t))
  {
    if k.Key? {
      SuffixOf(k.mid2, tail, t);
      SuffixOf([COLON], tail, k.mid2 + t);
      SuffixOf(k.mid1, tail, [COLON] + (k.mid2 + t));
      StrEnds(k.chs, k.mid1 + ([COLON] + (k.mid2 + t)), tail);
    }
  }

  /** The bytes after a walked value are the end of the bytes it was walked in. */
  lemma {:induction false} WalkEndsInRest(s: bytes, d: int, lim: int)
    requires SkipValue(s, d, lim).Ok?
    ensures IsSuffix(SkipValue(s, d, lim).rest, s)
  {
    var v := SkipSplits(s, d, lim);
    var rest := SkipValue(s, d, lim).rest;
    SuffixOf([], rest, rest);
    assert [] + rest == rest;
    ValueEnds(v, rest, rest);
  }
}
