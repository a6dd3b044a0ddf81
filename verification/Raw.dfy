/** The re-indenter of carried values: it changes white space and nothing else. */
module Raw {
  import opened Bytes
  import opened Text
  import opened Numbers
  import opened Skip
  import opened Encode

  /** What is left after a string's closing quote; s starts after the opening
      one. None when a backslash is the last byte: the scan then stands beyond
      the end, and taking the slice panics. */
  function StrTail(s: bytes): (r: Option<bytes>)
    ensures r.Some? ==> |r.value| <= |s|
  {
    if s == [] then Some([])
    else if s[0] == BACKSLASH then if |s| == 1 then None else StrTail(s[2..])
    else if s[0] == QUOTE then Some(s[1..])
    else StrTail(s[1..])
  }

  function Prepend(p: bytes, r: Option<bytes>): Option<bytes>
  {
    match r case None => None case Some(t) => Some(p + t)
  }

  predicate IsClose(c: byte) { c == RBRACE || c == RBRACKET }

  predicate IsOpen(c: byte) { c == LBRACE || c == LBRACKET }

  /** s re-indented from depth on; None where the source panics. */
  function Reindented(s: bytes, depth: int): Option<bytes>
    decreases |s|
  {
    if s == [] then Some([])
    else
      var c := s[0];
      if IsWs(c) then Reindented(s[1..], depth)
      else if c == QUOTE then
        match StrTail(s[1..])
        case None => None
        case Some(rest) => Prepend(s[..|s| - |rest|], Reindented(rest, depth))
      else if IsOpen(c) then
        var t := Ws(s[1..]);
        if IsClose(At(t)) then Prepend([c, t[0]], Reindented(t[1..], depth))
        else Prepend([c] + Indent(depth + 1), Reindented(s[1..], depth + 1))
      else if IsClose(c) then Prepend(Indent(depth - 1) + [c], Reindented(s[1..], depth - 1))
      else if c == COMMA then Prepend([COMMA] + Indent(depth), Reindented(s[1..], depth))
      else if c == COLON then Prepend([COLON, SPACE], Reindented(s[1..], depth))
      else Prepend([c], Reindented(s[1..], depth))
  }

  // ---- the loop ----

  lemma {:induction false} PrependTwice(a: bytes, b: bytes, r: Option<bytes>)
    ensures Prepend(a, Prepend(b, r)) == Prepend(a + b, r)
  {
    if r.Some? {
      assert a + (b + r.value) == (a + b) + r.value;
    }
  }

  /** The scan of one string from its opening quote at i: where it ends. */
  method ScanString(s: bytes, i: nat) returns (j: nat)
    requires i < |s| && StrTail(s[i + 1..]).Some?
    ensures i < j <= |s| && StrTail(s[i + 1..]) == Some(s[j..])
  {
    j := i + 1;
    while j < |s|
      invariant i < j <= |s|
      invariant StrTail(s[i + 1..]) == StrTail(s[j..])
    {
      if s[j] == BACKSLASH {
        assert j + 2 <= |s| ==> s[j..][2..] == s[j + 2..];
        j := j + 2;
        continue;
      }
      assert s[j..][1..] == s[j + 1..];
      if s[j] == QUOTE {
        j := j + 1;
        return;
      }
      j := j + 1;
    }
  }

  method SkipWs(s: bytes, i: nat) returns (j: nat)
    requires i <= |s|
    ensures i <= j <= |s| && s[j..] == Ws(s[i..])
  {
    j := i;
    while j < |s| && IsWs(s[j])
      invariant i <= j <= |s| && Ws(s[i..]) == Ws(s[j..])
    {
      assert s[j..][1..] == s[j + 1..];
      j := j + 1;
    }
  }

  /** One token at i: what it appends, where the next one starts, and the depth there. */
  method Step(s: bytes, i: nat, depth: int) returns (piece: bytes, j: nat, d: int)
    requires i < |s| && Reindented(s[i..], depth).Some?
    ensures i < j <= |s| && Reindented(s[i..], depth) == Prepend(piece, Reindented(s[j..], d))
  {
    var c := s[i];
    piece, j, d := [c], i + 1, depth;
    assert s[i..][1..] == s[i + 1..];
    if IsWs(c) {
      piece := [];
      NothingPrepended(Reindented(s[j..], d));
    } else if c == QUOTE {
      j := ScanString(s, i);
      piece := s[i..j];
      assert s[i..][..|s[i..]| - |s[j..]|] == s[i..j];
    } else if IsOpen(c) {
      var k := SkipWs(s, i + 1);
      if k < |s| && IsClose(s[k]) {
        piece, j := [c, s[k]], k + 1;
        assert s[k..][1..] == s[k + 1..];
      } else {
        d := depth + 1;
        piece := [c] + Indent(d);
      }
    } else if IsClose(c) {
      d := depth - 1;
      piece := Indent(d) + [c];
    } else if c == COMMA {
      piece := [COMMA] + Indent(depth);
    } else if c == COLON {
      piece := [COLON, SPACE];
    }
  }

  lemma {:induction false} NothingPrepended(r: Option<bytes>)
    ensures Prepend([], r) == r
  {
    if r.Some? {
      assert [] + r.value == r.value;
    }
  }

  method Reindent(out: bytes, s: bytes, depth: int) returns (r: bytes)
    requires Reindented(s, depth).Some?
    ensures Prepend(out, Reindented(s, depth)) == Some(r)
  {
    r := out;
    var i, d := 0, depth;
    assert s[0..] == s;
    while i < |s|
      invariant 0 <= i <= |s|
      invariant Reindented(s[i..], d).Some?
      invariant Prepend(out, Reindented(s, depth)) == Prepend(r, Reindented(s[i..], d))
    {
      var piece, j, d' := Step(s, i, d);
      PrependTwice(r, piece, Reindented(s[j..], d'));
      r, i, d := r + piece, j, d';
    }
    assert r + [] == r;
  }

  // ---- what it does to a value ----

  function IndentWs(d: int): ws
  {
    IndentIsWs(d);
    Indent(d)
  }

  /** The same value in the indentation of depth d. */
  function Norm(v: Value, d: int): Value
  {
    match v
    case VEmpty(obj, _) => VEmpty(obj, [])
    case VFull(obj, e) => VFull(obj, NormElems(e, d + 1))
    case _ => v
  }

  function NormElems(e: Elems, d: int): Elems
  {
    match e
    case Last(_, k, v, _) => Last(IndentWs(d), NormKey(k), Norm(v, d), IndentWs(d - 1))
    case More(_, k, v, _, next) => More(IndentWs(d), NormKey(k), Norm(v, d), [], NormElems(next, d))
  }

  function NormKey(k: Key): Key { if k.Key? then Key(k.chs, [], [SPACE]) else NoKey }

  /** The tokens of a value: the value without its white space. */
  function Strip(v: Value): Value
  {
    match v
    case VEmpty(obj, _) => VEmpty(obj, [])
    case VFull(obj, e) => VFull(obj, StripElems(e))
    case _ => v
  }

  function StripElems(e: Elems): Elems
  {
    match e
    case Last(_, k, v, _) => Last([], StripKey(k), Strip(v), [])
    case More(_, k, v, _, next) => More([], StripKey(k), Strip(v), [], StripElems(next))
  }

  function StripKey(k: Key): Key { if k.Key? then Key(k.chs, [], []) else NoKey }

  /** Re-indenting keeps every token in its place, and settles at once. */
  lemma {:induction false} NormKeeps(v: Value, d: int)
    ensures Strip(Norm(v, d)) == Strip(v) && Norm(Norm(v, d), d) == Norm(v, d)
    ensures Height(Norm(v, d)) == Height(v) && ValueOk(Norm(v, d)) == ValueOk(v)
    decreases v, 0
  {
    if v.VFull? {
      NormElemsKeeps(v.elems, d + 1, v.obj, {});
    }
  }

  lemma {:induction false} NormElemsKeeps(e: Elems, d: int, obj: bool, seen: set<bytes>)
    ensures StripElems(NormElems(e, d)) == StripElems(e) && NormElems(NormElems(e, d), d) == NormElems(e, d)
    ensures ElemsHeight(NormElems(e, d)) == ElemsHeight(e) && ElemsOk(NormElems(e, d), obj, seen) == ElemsOk(e, obj, seen)
    decreases e, 1
  {
    NormKeeps(e.v, d);
    if e.More? {
      NormElemsKeeps(e.next, d, obj, seen + Named(e.key));
    }
  }

  /** Normal spacing depends on the tokens alone. */
  lemma {:induction false} NormOfTokens(v: Value, d: int)
    ensures Norm(Strip(v), d) == Norm(v, d) && ValueOk(Strip(v)) == ValueOk(v)
    decreases v, 0
  {
    if v.VFull? {
      NormOfElemTokens(v.elems, d + 1, v.obj, {});
    }
  }

  lemma {:induction false} NormOfElemTokens(e: Elems, d: int, obj: bool, seen: set<bytes>)
    ensures NormElems(StripElems(e), d) == NormElems(e, d) && ElemsOk(StripElems(e), obj, seen) == ElemsOk(e, obj, seen)
    decreases e, 1
  {
    NormOfTokens(e.v, d);
    if e.More? {
      NormOfElemTokens(e.next, d, obj, seen + Named(e.key));
    }
  }

  // ---- the tokens go through ----

  lemma {:induction false} WsIsDropped(w: bytes, tail: bytes, depth: int)
    requires AllWs(w)
    ensures Reindented(w + tail, depth) == Reindented(tail, depth)
  {
    if w == [] {
      assert w + tail == tail;
    } else {
      assert (w + tail)[1..] == w[1..] + tail;
      WsIsDropped(w[1..], tail, depth);
    }
  }

  predicate IsPlain(c: byte) { !IsWs(c) && c != QUOTE && !IsOpen(c) && !IsClose(c) && c != COMMA && c != COLON }

  lemma {:induction false} PlainIsKept(w: bytes, tail: bytes, depth: int)
    requires AllPlain(w)
    ensures Reindented(w + tail, depth) == Prepend(w, Reindented(tail, depth))
  {
    if w == [] {
      assert w + tail == tail;
      NothingPrepended(Reindented(tail, depth));
    } else {
      assert (w + tail)[1..] == w[1..] + tail;
      PlainIsKept(w[1..], tail, depth);
      PrependTwice([w[0]], w[1..], Reindented(tail, depth));
      assert [w[0]] + w[1..] == w;
    }
  }

  lemma {:induction false} ChIsScanned(ch: char_, tail: bytes)
    ensures StrTail(ChText(ch, tail)) == StrTail(tail)
  {
    var s := ChText(ch, tail);
    match ch
    case Plain(c) => assert s[1..] == tail;
    case Short(l) => assert s[2..] == tail;
    case Four(q) =>
      assert s[2..] == [q[0], q[1], q[2], q[3]] + tail;
      QuadIsScanned(q, tail);
    case Pair(hi, lo) =>
      var t := [BACKSLASH, LOWER_U, lo[0], lo[1], lo[2], lo[3]] + tail;
      assert s[2..] == [hi[0], hi[1], hi[2], hi[3]] + t;
      QuadIsScanned(hi, t);
      assert t[2..] == [lo[0], lo[1], lo[2], lo[3]] + tail;
      QuadIsScanned(lo, tail);
  }

  lemma {:induction false} QuadIsScanned(q: bytes, tail: bytes)
    requires IsQuad(q)
    ensures StrTail([q[0], q[1], q[2], q[3]] + tail) == StrTail(tail)
  {
    var s := [q[0], q[1], q[2], q[3]] + tail;
    assert IsHex(q[0]) && IsHex(q[1]) && IsHex(q[2]) && IsHex(q[3]);
    HexIsScanned(s);
    HexIsScanned(s[1..]);
    HexIsScanned(s[2..]);
    HexIsScanned(s[3..]);
    assert s[1..][1..] == s[2..] && s[2..][1..] == s[3..] && s[3..][1..] == tail;
  }

  lemma {:induction false} HexIsScanned(s: bytes)
    requires s != [] && IsHex(s[0])
    ensures StrTail(s) == StrTail(s[1..])
  {
  }

  lemma {:induction false} SpelledIsScanned(chs: seq<char_>, tail: bytes)
    ensures StrTail(Spelled(chs, [QUOTE] + tail)) == Some(tail)
  {
    if chs == [] {
      assert ([QUOTE] + tail)[1..] == tail;
    } else {
      ChIsScanned(chs[0], Spelled(chs[1..], [QUOTE] + tail));
      SpelledIsScanned(chs[1..], tail);
    }
  }

  lemma {:induction false} SpelledAppends(chs: seq<char_>, t: bytes, tail: bytes)
    ensures Spelled(chs, t + tail) == Spelled(chs, t) + tail
  {
    if chs != [] {
      SpelledAppends(chs[1..], t, tail);
      ChAppends(chs[0], Spelled(chs[1..], t), tail);
    }
  }

  lemma {:induction false} ChAppends(ch: char_, t: bytes, tail: bytes)
    ensures ChText(ch, t + tail) == ChText(ch, t) + tail
  {
  }

  lemma {:induction false} StrTextAppends(chs: seq<char_>, tail: bytes)
    ensures StrText(chs, tail) == StrText(chs, []) + tail
  {
    SpelledAppends(chs, [QUOTE], tail);
    assert [QUOTE] + [] == [QUOTE];
    assert [QUOTE] + (Spelled(chs, [QUOTE]) + tail) == [QUOTE] + Spelled(chs, [QUOTE]) + tail;
  }

  /** A string goes through byte for byte. */
  lemma {:induction false} StringIsKept(chs: seq<char_>, tail: bytes, depth: int, t: bytes)
    requires Reindented(tail, depth) == Some(t)
    ensures Reindented(StrText(chs, tail), depth) == Some(StrText(chs, t))
  {
    var s := StrText(chs, tail);
    assert s[1..] == Spelled(chs, [QUOTE] + tail);
    SpelledIsScanned(chs, tail);
    StrTextAppends(chs, tail);
    StrTextAppends(chs, t);
    assert s[..|s| - |tail|] == StrText(chs, []);
  }

  lemma {:induction false} ExpAppends(e: Exp, tail: bytes)
    ensures ExpText(e, tail) == ExpText(e, []) + tail
  {
    if e.Exp? {
      NoTail(e.ds);
      Assoc(e.sign, e.ds, tail);
      Assoc([e.e], e.sign + e.ds, tail);
    }
  }

  lemma {:induction false} FracAppends(frac: bytes, rest: bytes, tail: bytes)
    ensures FracText(frac, rest + tail) == FracText(frac, rest) + tail
  {
    if frac != [] {
      Assoc(frac, rest, tail);
      Assoc([DOT], frac + rest, tail);
    }
  }

  lemma {:induction false} NumberAppends(n: number, tail: bytes)
    ensures NumberText(n, tail) == NumberText(n, []) + tail
  {
    var e := ExpText(n.exp, []);
    var f := FracText(n.frac, e);
    ExpAppends(n.exp, tail);
    FracAppends(n.frac, e, tail);
    Assoc(n.whole, f, tail);
    Assoc(if n.neg then [MINUS] else [], n.whole + f, tail);
  }

  predicate AllPlain(w: bytes) { forall i :: 0 <= i < |w| ==> IsPlain(w[i]) }

  lemma {:induction false} PlainJoins(a: bytes, b: bytes)
    requires AllPlain(a) && AllPlain(b)
    ensures AllPlain(a + b)
  {
  }

  lemma {:induction false} DigitsArePlain(ds: bytes)
    requires AllDigits(ds)
    ensures AllPlain(ds)
  {
  }

  lemma {:induction false} ExpIsPlain(n: number)
    ensures AllPlain(ExpText(n.exp, []))
  {
    if n.exp.Exp? {
      NoTail(n.exp.ds);
      DigitsArePlain(n.exp.ds);
      PlainJoins(n.exp.sign, n.exp.ds);
      PlainJoins([n.exp.e], n.exp.sign + n.exp.ds);
    }
  }

  lemma {:induction false} FracIsPlain(n: number, e: bytes)
    requires AllPlain(e)
    ensures AllPlain(FracText(n.frac, e))
  {
    if n.frac != [] {
      DigitsArePlain(n.frac);
      PlainJoins(n.frac, e);
      PlainJoins([DOT], n.frac + e);
    }
  }

  lemma {:induction false} NumberIsPlain(n: number)
    ensures AllPlain(NumberText(n, []))
  {
    var f := FracText(n.frac, ExpText(n.exp, []));
    ExpIsPlain(n);
    FracIsPlain(n, ExpText(n.exp, []));
    DigitsArePlain(n.whole);
    PlainJoins(n.whole, f);
    PlainJoins(if n.neg then [MINUS] else [], n.whole + f);
  }

  lemma {:induction false} NumberIsKept(n: number, tail: bytes, depth: int, t: bytes)
    requires Reindented(tail, depth) == Some(t)
    ensures Reindented(NumberText(n, tail), depth) == Some(NumberText(n, t))
  {
    NumberAppends(n, tail);
    NumberAppends(n, t);
    NumberIsPlain(n);
    PlainIsKept(NumberText(n, []), tail, depth);
  }

  lemma {:induction false} WordIsKept(w: bytes, tail: bytes, depth: int, t: bytes)
    requires Reindented(tail, depth) == Some(t) && (w == TRUE || w == FALSE || w == NULL)
    ensures Reindented(w + tail, depth) == Some(w + t)
  {
    PlainIsKept(w, tail, depth);
  }

  lemma {:induction false} FullIsKept(obj: bool, e: Elems, tail: bytes, depth: int, t: bytes, inner: bytes)
    requires ElemsOk(e, obj, {})
    requires Reindented(ElemsText(e, [Shut(obj)] + tail), depth + 1) == Some(inner)
    requires Indent(depth + 1) + inner == ElemsText(NormElems(e, depth + 1), [Shut(obj)] + t)
    ensures Reindented(ValueText(VFull(obj, e), tail), depth) == Some(ValueText(Norm(VFull(obj, e), depth), t))
  {
    FullOpens(e, obj, tail, depth);
    Assoc([Opener(obj)], Indent(depth + 1), inner);
    NormOfFull(obj, e, depth, [Shut(obj)] + t, t);
  }

  lemma {:induction false} NormOfFull(obj: bool, e: Elems, depth: int, close: bytes, t: bytes)
    requires close == [Shut(obj)] + t
    ensures ValueText(Norm(VFull(obj, e), depth), t) == [Opener(obj)] + ElemsText(NormElems(e, depth + 1), close)
  {
  }

  /** Every value goes through as itself in the new indentation. */
  lemma {:induction false} ValueIsReindented(v: Value, tail: bytes, depth: int, t: bytes)
    requires ValueOk(v) && Reindented(tail, depth) == Some(t)
    ensures Reindented(ValueText(v, tail), depth) == Some(ValueText(Norm(v, depth), t))
    decreases v, 0
  {
    match v
    case VStr(chs) => StringIsKept(chs, tail, depth, t);
    case VNum(n) => NumberIsKept(n, tail, depth, t);
    case VTrue => WordIsKept(TRUE, tail, depth, t);
    case VFalse => WordIsKept(FALSE, tail, depth, t);
    case VNull => WordIsKept(NULL, tail, depth, t);
    case VEmpty(obj, pad) => EmptyIsKept(obj, pad, tail, depth, t);
    case VFull(obj, e) =>
      ElemsAreReindented(e, obj, {}, tail, depth + 1, t);
      FullIsKept(obj, e, tail, depth, t, Reindented(ElemsText(e, [Shut(obj)] + tail), depth + 1).value);
  }

  lemma {:induction false} EmptyIsKept(obj: bool, pad: ws, tail: bytes, depth: int, t: bytes)
    requires Reindented(tail, depth) == Some(t)
    ensures Reindented(ValueText(VEmpty(obj, pad), tail), depth) == Some(ValueText(VEmpty(obj, []), t))
  {
    var s := ValueText(VEmpty(obj, pad), tail);
    var close := [Shut(obj)] + tail;
    assert s[1..] == pad + close;
    WsSkips(pad, close);
    assert close[1..] == tail;
    assert [Opener(obj)] + ([] + ([Shut(obj)] + t)) == [Opener(obj), Shut(obj)] + t;
  }

  lemma {:induction false} FullOpens(e: Elems, obj: bool, tail: bytes, depth: int)
    requires ElemsOk(e, obj, {})
    ensures var inner := ElemsText(e, [Shut(obj)] + tail);
            Reindented(ValueText(VFull(obj, e), tail), depth)
            == Prepend([Opener(obj)] + Indent(depth + 1), Reindented(inner, depth + 1))
  {
    var inner := ElemsText(e, [Shut(obj)] + tail);
    assert ValueText(VFull(obj, e), tail)[1..] == inner;
    ElemsNeverClose(e, obj, {}, [Shut(obj)] + tail);
  }

  lemma {:induction false} ElemsNeverClose(e: Elems, obj: bool, seen: set<bytes>, tail: bytes)
    requires ElemsOk(e, obj, seen)
    ensures !IsClose(At(Ws(ElemsText(e, tail))))
  {
    var after := e.post + (match e case Last(_, _, _, _) => tail case More(_, _, _, _, next) => [COMMA] + ElemsText(next, tail));
    ValueStarts(e.v, after);
    WsSkips(e.pre, KeyText(e.key, ValueText(e.v, after)));
  }

  lemma {:induction false} KeyIsReindented(k: Key, tail: bytes, d: int, t: bytes)
    requires Reindented(tail, d) == Some(t)
    ensures Reindented(KeyText(k, tail), d) == Some(KeyText(NormKey(k), t))
  {
    if k.Key? {
      WsIsDropped(k.mid2, tail, d);
      var colon := [COLON] + (k.mid2 + tail);
      assert colon[1..] == k.mid2 + tail;
      WsIsDropped(k.mid1, colon, d);
      StringIsKept(k.chs, k.mid1 + colon, d, [COLON, SPACE] + t);
      assert [] + ([COLON] + ([SPACE] + t)) == [COLON, SPACE] + t;
    }
  }

  /** The elements of a container, up to and with its closing byte; the opener
      has already started their first line. */
  lemma {:induction false} ElemsAreReindented(e: Elems, obj: bool, seen: set<bytes>, tail: bytes, d: int, t: bytes)
    requires ElemsOk(e, obj, seen) && Reindented(tail, d - 1) == Some(t)
    ensures var r := Reindented(ElemsText(e, [Shut(obj)] + tail), d);
            r.Some? && Indent(d) + r.value == ElemsText(NormElems(e, d), [Shut(obj)] + t)
    decreases e, 1
  {
    var close := [Shut(obj)] + tail;
    var after := if e.More? then [COMMA] + ElemsText(e.next, close) else close;
    var then_ := AfterIsReindented(e, obj, seen, tail, d, t);
    WsIsDropped(e.post, after, d);
    ValueIsReindented(e.v, e.post + after, d, then_);
    KeyIsReindented(e.key, ValueText(e.v, e.post + after), d, ValueText(Norm(e.v, d), then_));
    WsIsDropped(e.pre, KeyText(e.key, ValueText(e.v, e.post + after)), d);
  }

  /** What follows an element's value: the next line, or the closing one. */
  lemma {:induction false} AfterIsReindented(e: Elems, obj: bool, seen: set<bytes>, tail: bytes, d: int, t: bytes) returns (r: bytes)
    requires ElemsOk(e, obj, seen) && Reindented(tail, d - 1) == Some(t)
    ensures var close := [Shut(obj)] + tail;
            Reindented(if e.More? then [COMMA] + ElemsText(e.next, close) else close, d) == Some(r)
    ensures var n := NormElems(e, d);
            r == n.post + (if e.More? then [COMMA] + ElemsText(n.next, [Shut(obj)] + t) else [Shut(obj)] + t)
    decreases e, 0
  {
    if e.More? {
      ElemsAreReindented(e.next, obj, seen + Named(e.key), tail, d, t);
      var inner := ElemsText(e.next, [Shut(obj)] + tail);
      r := CommaIsReindented(inner, d, Reindented(inner, d).value);
      NoTail([COMMA] + (Indent(d) + Reindented(inner, d).value));
    } else {
      r := ShutIsReindented(obj, tail, d, t);
    }
  }

  lemma {:induction false} CommaIsReindented(inner: bytes, d: int, t: bytes) returns (r: bytes)
    requires Reindented(inner, d) == Some(t)
    ensures Reindented([COMMA] + inner, d) == Some(r) && r == [COMMA] + (Indent(d) + t)
  {
    assert ([COMMA] + inner)[1..] == inner;
    r := [COMMA] + Indent(d) + t;
    Assoc([COMMA], Indent(d), t);
  }

  lemma {:induction false} ShutIsReindented(obj: bool, tail: bytes, d: int, t: bytes) returns (r: bytes)
    requires Reindented(tail, d - 1) == Some(t)
    ensures Reindented([Shut(obj)] + tail, d) == Some(r) && r == Indent(d - 1) + ([Shut(obj)] + t)
  {
    assert ([Shut(obj)] + tail)[1..] == tail;
    r := Indent(d - 1) + [Shut(obj)] + t;
    Assoc(Indent(d - 1), [Shut(obj)], t);
  }

  /** Two values with the same tokens, however they are spaced, are re-indented to the
      same bytes. */
  lemma {:induction false} SameTokensSameBytes(v: Value, w: Value, depth: int)
    requires ValueOk(v) && ValueOk(w) && Strip(v) == Strip(w)
    ensures Reindented(ValueText(v, []), depth) == Reindented(ValueText(w, []), depth) == Some(ValueText(Norm(v, depth), []))
  {
    NormOfTokens(v, depth);
    NormOfTokens(w, depth);
    ValueIsReindented(v, [], depth, []);
    ValueIsReindented(w, [], depth, []);
  }

  /** On any value the walker accepts, re-indenting takes no slice out of bounds,
      keeps every token in order, gives what it gives for every value of the same
      tokens, changes nothing when done again at the same depth, and gives a value
      the walker accepts at the same nesting. */
  lemma {:induction false} ReindentKeepsTokens(s: bytes, d: int, lim: int, depth: int) returns (v: Value, r: bytes)
    requires SkipValue(s, d, lim) == Ok((), [])
    ensures Reindented(s, depth) == Some(r)
    ensures s == ValueText(v, []) && r == ValueText(Norm(v, depth), [])
    ensures ValueOk(v) && Strip(Norm(v, depth)) == Strip(v) && Height(Norm(v, depth)) == Height(v)
    ensures forall w :: ValueOk(w) && Strip(w) == Strip(v) ==> Reindented(ValueText(w, []), depth) == Some(r)
    ensures SkipValue(r, d, lim) == Ok((), []) && Reindented(r, depth) == Some(r)
  {
    v := SkipSplits(s, d, lim);
    ValueIsReindented(v, [], depth, []);
    NormKeeps(v, depth);
    r := ValueText(Norm(v, depth), []);
    forall w | ValueOk(w) && Strip(w) == Strip(v) ensures Reindented(ValueText(w, []), depth) == Some(r) {
      SameTokensSameBytes(v, w, depth);
    }
    SkipReads(Norm(v, depth), [], d, lim);
    ValueIsReindented(Norm(v, depth), [], depth, []);
  }
}
