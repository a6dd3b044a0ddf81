/** Why the walker refuses a value: the first name that comes again, or the first
    container beyond the limit. */
module Walks {
  import opened Bytes
  import opened Text
  import opened Numbers
  import opened Skip
  import Utf8

  /** A value of the grammar in whose objects names may come again. */
  predicate Shaped(v: Value)
  {
    match v
    case VStr(chs) => Utf8.Valid(Meaning(chs))
    case VFull(obj, e) => ShapedElems(e, obj)
    case _ => true
  }

  predicate ShapedElems(e: Elems, obj: bool) { KeyOk(e.key, obj, {}) && Shaped(e.v) && (e.More? ==> ShapedElems(e.next, obj)) }

  /** The word a value is refused with when so many levels are left. */
  function Offence(v: Value, room: int): Option<Word>
    decreases v, 1
  {
    match v
    case VEmpty(_, _) => if room < 1 then Some(DepthExceeded) else None
    case VFull(_, e) => if room < 1 then Some(DepthExceeded) else ElemsOffence(e, room - 1, {})
    case _ => None
  }

  /** The word of the first element that offends after elements of these names. */
  function ElemsOffence(e: Elems, room: int, seen: set<bytes>): Option<Word>
    decreases e, 0
  {
    if e.key.Key? && Meaning(e.key.chs) in seen then Some(DuplicateKey)
    else
      match Offence(e.v, room)
      case Some(w) => Some(w)
      case None => if e.More? then ElemsOffence(e.next, room, seen + Named(e.key)) else None
  }

  predicate Agrees(r: Parsed<()>, o: Option<Word>, tail: bytes)
  {
    match o case None => r == Ok((), tail) case Some(w) => r.Refused? && r.word == w
  }

  lemma {:induction false} NameIsWalked(k: Key, obj: bool, seen: set<bytes>, tail: bytes)
    requires KeyOk(k, obj, {}) && (tail == [] || !IsWs(tail[0]))
    ensures var r := SkipName(KeyText(k, tail), obj, seen);
            if k.Key? && Meaning(k.chs) in seen then r.Refused? && r.word == DuplicateKey else r == Ok(seen + Named(k), tail)
  {
    if obj && Meaning(k.chs) in seen {
      StrReads(k.chs, k.mid1 + ([COLON] + (k.mid2 + tail)));
    } else {
      NameReads(k, obj, seen, tail);
    }
  }

  /** One element, its value being walked as it is. */
  lemma {:induction false} ElemIsWalked(e: Elems, obj: bool, seen: set<bytes>, after: bytes, d: int, lim: int, room: int)
    requires KeyOk(e.key, obj, {}) && after != [] && !IsWs(after[0])
    requires Agrees(SkipValue(ValueText(e.v, e.post + after), d, lim), Offence(e.v, room), e.post + after)
    ensures var r := SkipElem(e.pre + KeyText(e.key, ValueText(e.v, e.post + after)), obj, d, lim, seen);
            if e.key.Key? && Meaning(e.key.chs) in seen then r.Refused? && r.word == DuplicateKey
            else match Offence(e.v, room) case Some(w) => r.Refused? && r.word == w case None => r == Ok(seen + Named(e.key), after)
  {
    var value := ValueText(e.v, e.post + after);
    ValueStarts(e.v, e.post + after);
    KeyStarts(e.key, value);
    WsSkips(e.pre, KeyText(e.key, value));
    NameIsWalked(e.key, obj, seen, value);
    WsSkips(e.post, after);
  }

  lemma {:induction false} KeyStarts(k: Key, tail: bytes)
    requires tail != [] && !IsWs(tail[0])
    ensures KeyText(k, tail) != [] && !IsWs(KeyText(k, tail)[0])
  {
  }

  /** Over all values of the grammar, names repeated or not: the walker comes to the end
      exactly when nothing offends, and else refuses with the word of the first offence. */
  lemma {:induction false} WalkIsDecided(v: Value, tail: bytes, d: int, lim: int, room: int)
    requires Shaped(v) && Ends(v, tail) && room == lim - d
    ensures Agrees(SkipValue(ValueText(v, tail), d, lim), Offence(v, room), tail)
    decreases v, 1
  {
    match v
    case VEmpty(obj, pad) => EmptyIsDecided(obj, pad, tail, d, lim);
    case VFull(obj, e) =>
      if room >= 1 {
        var text := ElemsText(e, [Shut(obj)] + tail);
        var r := SkipElems(text, obj, d + 1, lim, {});
        ElemsAreDecided(e, obj, {}, tail, d + 1, lim, room - 1, text, r);
        FullIsElems(e, obj, tail, d, d + 1, lim, text, ValueText(v, tail));
      }
    case _ => LeafIsDecided(v, tail, d, lim);
  }

  lemma {:induction false} LeafIsDecided(v: Value, tail: bytes, d: int, lim: int)
    requires Shaped(v) && Ends(v, tail) && !v.VEmpty? && !v.VFull?
    ensures SkipValue(ValueText(v, tail), d, lim) == Ok((), tail)
  {
    SkipReads(v, tail, d, lim);
  }

  lemma {:induction false} EmptyIsDecided(obj: bool, pad: ws, tail: bytes, d: int, lim: int)
    ensures var r := SkipValue(ValueText(VEmpty(obj, pad), tail), d, lim);
            if lim - d < 1 then r.Refused? && r.word == DepthExceeded else r == Ok((), tail)
  {
    if d + 1 <= lim {
      SkipReads(VEmpty(obj, pad), tail, d, lim);
    }
  }

  lemma {:induction false} FullIsElems(e: Elems, obj: bool, tail: bytes, d: int, inner: int, lim: int, text: bytes, s: bytes)
    requires ShapedElems(e, obj) && inner == d + 1 <= lim && text == ElemsText(e, [Shut(obj)] + tail) && s == [Opener(obj)] + text
    ensures SkipValue(s, d, lim) == SkipElems(text, obj, inner, lim, {})
  {
    assert s[1..] == text;
    ElemsNeverShut(e, obj, [Shut(obj)] + tail);
    SkipElemsWs(text, obj, inner, lim, {});
  }

  lemma {:induction false} ElemsNeverShut(e: Elems, obj: bool, tail: bytes)
    requires KeyOk(e.key, obj, {})
    ensures At(Ws(ElemsText(e, tail))) != Shut(obj)
  {
    var body := ElemsText(e, tail)[|e.pre|..];
    assert ElemsText(e, tail) == e.pre + body;
    ValueStarts(e.v, e.post + (match e case Last(_, _, _, _) => tail case More(_, _, _, _, next) => [COMMA] + ElemsText(next, tail)));
    WsSkips(e.pre, body);
  }

  lemma {:induction false} ElemsAreDecided(
      e: Elems, obj: bool, seen: set<bytes>, tail: bytes, d: int, lim: int, room: int, text: bytes, r: Parsed<()>)
    requires ShapedElems(e, obj) && room == lim - d
    requires text == ElemsText(e, [Shut(obj)] + tail) && r == SkipElems(text, obj, d, lim, seen)
    ensures Agrees(r, ElemsOffence(e, room, seen), tail)
    decreases e, 0
  {
    var close := [Shut(obj)] + tail;
    var after := if e.More? then [COMMA] + ElemsText(e.next, close) else close;
    AfterElem(e.v, e.post, after[0], after[1..]);
    assert after == [after[0]] + after[1..];
    WalkIsDecided(e.v, e.post + after, d, lim, room);
    ElemIsWalked(e, obj, seen, after, d, lim, room);
    if e.More? && !(e.key.Key? && Meaning(e.key.chs) in seen) && Offence(e.v, room).None? {
      var more := ElemsText(e.next, close);
      assert after[1..] == more;
      ElemsAreDecided(e.next, obj, seen + Named(e.key), tail, d, lim, room, more, r);
    } else {
      assert e.Last? ==> after[1..] == tail;
    }
  }
}
