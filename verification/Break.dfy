/** Bytes that break off: where the text of a value stops following the grammar, however
    deep inside, and what it is refused with. */
module Breaks {
  import opened Bytes
  import opened Text
  import opened Numbers
  import opened Skip
  import opened Records
  import Utf8
  import Walks

  /** What stands in a container before the element that breaks off. */
  datatype Before = Start | After(elems: Elems)

  datatype Break =
    | NoValue(x: bytes)
    | BareSign(x: bytes)
    | NoDigits(n: number, mark: bytes, x: bytes)
    | TornString(chs: seq<char_>, x: bytes)
    | NoText(chs: seq<char_>, x: bytes)
    | NotClosed(obj: bool, elems: Elems, x: bytes)
    | Within(obj: bool, before: Before, pre: ws, part: Part)

  datatype Part =
    | NoName(x: bytes)
    | TornName(chs: seq<char_>, x: bytes)
    | BadName(chs: seq<char_>, x: bytes)
    | NoColon(chs: seq<char_>, mid: ws, x: bytes)
    | InValue(key: Key, inner: Break)

  function Lead(before: Before, tail: bytes): bytes
  {
    if before.Start? then tail else ElemsText(before.elems, [COMMA] + tail)
  }

  function BreakText(b: Break): bytes
  {
    match b
    case NoValue(x) => x
    case BareSign(x) => [MINUS] + x
    case NoDigits(n, mark, x) => NumberText(n, mark + x)
    case TornString(chs, x) => [QUOTE] + Spelled(chs, x)
    case NoText(chs, x) => StrText(chs, x)
    case NotClosed(obj, e, x) => [Opener(obj)] + ElemsText(e, x)
    case Within(obj, before, pre, part) => [Opener(obj)] + Lead(before, pre + PartText(part))
  }

  function PartText(p: Part): bytes
  {
    match p
    case NoName(x) => x
    case TornName(chs, x) => [QUOTE] + Spelled(chs, x)
    case BadName(chs, x) => StrText(chs, x)
    case NoColon(chs, mid, x) => StrText(chs, mid + x)
    case InValue(key, inner) => KeyText(key, BreakText(inner))
  }

  // ---- where the grammar is left ----

  predicate Prefix(word: bytes, x: bytes) { |word| <= |x| && x[..|word|] == word }

  predicate Lacks(x: bytes, c: byte) { x == [] || (!IsWs(x[0]) && x[0] != c) }

  /** No value starts with these bytes, nor do they start with white space. */
  predicate StartsNoValue(x: bytes)
  {
    && Lacks(x, QUOTE) && Lacks(x, LBRACE) && Lacks(x, LBRACKET) && Lacks(x, MINUS) && (x == [] || !IsDigit(x[0]))
    && !Prefix([0x74, 0x72, 0x75, 0x65], x) && !Prefix([0x66, 0x61, 0x6C, 0x73, 0x65], x) && !Prefix([0x6E, 0x75, 0x6C, 0x6C], x)
  }

  /** The last of the elements ends before x. */
  predicate EndBefore(e: Elems, x: bytes) { if e.More? then EndBefore(e.next, x) else Ends(e.v, e.post + x) }

  function Names(e: Elems): set<bytes> { Named(e.key) + if e.More? then Names(e.next) else {} }

  function NamesOf(before: Before): set<bytes> { if before.Start? then {} else Names(before.elems) }

  ghost predicate Breaks(b: Break, room: int)
  {
    match b
    case NoValue(x) => StartsNoValue(x)
    case BareSign(x) => !IsDigit(At(x))
    case NoDigits(n, mark, x) => IsMark(n, mark) && NoDigit(mark, x)
    case TornString(chs, x) => StartsNothing(x)
    case NoText(chs, x) => !Utf8.Valid(Meaning(chs))
    case NotClosed(obj, e, x) =>
      room >= 1 + ElemsHeight(e) && ElemsOk(e, obj, {}) && Lacks(x, COMMA) && Lacks(x, Shut(obj)) && EndBefore(e, x)
    case Within(obj, before, pre, part) =>
      && room >= 1 && PartBreaks(part, obj, NamesOf(before), room - 1)
      && (before.After? ==> room >= 1 + ElemsHeight(before.elems) && ElemsOk(before.elems, obj, {}))
      && (before.Start? ==> Lacks(PartText(part), Shut(obj)))
  }

  ghost predicate PartBreaks(p: Part, obj: bool, names: set<bytes>, room: int)
  {
    match p
    case NoName(x) => obj && Lacks(x, QUOTE)
    case TornName(chs, x) => obj && StartsNothing(x)
    case BadName(chs, x) => obj && !Utf8.Valid(Meaning(chs))
    case NoColon(chs, mid, x) => obj && Utf8.Valid(Meaning(chs)) && Meaning(chs) !in names && Lacks(x, COLON)
    case InValue(key, inner) => KeyOk(key, obj, names) && Breaks(inner, room)
  }

  // ---- what it is refused with ----

  function TornWord(x: bytes): Word { if x == [] || x == [BACKSLASH] then Malformed else BadString }

  function WordOf(b: Break): Word
  {
    match b
    case NoValue(_) => Malformed
    case BareSign(_) => NumberSpelling
    case NoDigits(_, _, _) => NumberSpelling
    case NoText(_, _) => BadString
    case TornString(_, x) => TornWord(x)
    case NotClosed(_, _, _) => Malformed
    case Within(_, _, _, part) => PartWord(part)
  }

  function PartWord(p: Part): Word
  {
    match p
    case TornName(_, x) => TornWord(x)
    case BadName(_, _) => BadString
    case InValue(_, inner) => WordOf(inner)
    case _ => Malformed
  }

  /** The bytes refused, from the first that does not fit; where a string breaks off, any. */
  predicate Place(b: Break, rest: bytes)
  {
    match b
    case NoValue(x) => rest == x
    case BareSign(x) => rest == x
    case NoDigits(_, _, x) => rest == x
    case NoText(_, x) => rest == x
    case TornString(_, _) => true
    case NotClosed(_, _, x) => rest == x
    case Within(_, _, _, part) => PartPlace(part, rest)
  }

  predicate PartPlace(p: Part, rest: bytes)
  {
    match p
    case NoName(x) => rest == x
    case TornName(_, _) => true
    case BadName(_, x) => rest == x
    case NoColon(_, _, x) => rest == x
    case InValue(_, inner) => Place(inner, rest)
  }

  predicate RefusesBreak<T>(r: Parsed<T>, b: Break) { r.Refused? && r.word == WordOf(b) && Place(b, r.rest) }

  predicate RefusesPart<T>(r: Parsed<T>, p: Part) { r.Refused? && r.word == PartWord(p) && PartPlace(p, r.rest) }

  // ---- elements before a break ----

  lemma {:induction false} ElemGoesOn(e: Elems, obj: bool, seen: set<bytes>, after: bytes, d: int, lim: int)
    requires KeyOk(e.key, obj, seen) && ValueOk(e.v) && Fits(e.v, d, lim)
    requires Ends(e.v, e.post + after) && (after == [] || !IsWs(after[0]))
    ensures SkipElem(e.pre + KeyText(e.key, ValueText(e.v, e.post + after)), obj, d, lim, seen) == Ok(seen + Named(e.key), after)
  {
    var value := ValueText(e.v, e.post + after);
    ValueStarts(e.v, e.post + after);
    Walks.KeyStarts(e.key, value);
    WsSkips(e.pre, KeyText(e.key, value));
    NameReads(e.key, obj, seen, value);
    SkipReads(e.v, e.post + after, d, lim);
    WsSkips(e.post, after);
  }

  /** What follows the last of the elements. */
  function Rest(u: bytes, obj: bool, d: int, lim: int, seen: set<bytes>): Parsed<()>
  {
    if At(u) == COMMA then SkipElems(u[1..], obj, d, lim, seen) else if At(u) != Shut(obj) then Refused(Malformed, u) else Ok((), u[1..])
  }

  lemma {:induction false} ElemsGoOn(e: Elems, obj: bool, seen: set<bytes>, tail: bytes, d: int, lim: int, names: set<bytes>, text: bytes)
    requires ElemsOk(e, obj, seen) && d + ElemsHeight(e) <= lim && EndBefore(e, tail) && (tail == [] || !IsWs(tail[0]))
    requires text == ElemsText(e, tail) && names == seen + Names(e)
    ensures SkipElems(text, obj, d, lim, seen) == Rest(tail, obj, d, lim, names)
    decreases e
  {
    if e.More? {
      var more := ElemsText(e.next, tail);
      AfterElem(e.v, e.post, COMMA, more);
      ElemGoesOn(e, obj, seen, [COMMA] + more, d, lim);
      assert ([COMMA] + more)[1..] == more;
      ElemsGoOn(e.next, obj, seen + Named(e.key), tail, d, lim, names, more);
    } else {
      ElemGoesOn(e, obj, seen, tail, d, lim);
      assert names == seen + Named(e.key);
    }
  }

  lemma {:induction false} CommaEnds(e: Elems, tail: bytes)
    ensures EndBefore(e, [COMMA] + tail)
  {
    if e.More? {
      CommaEnds(e.next, tail);
    } else {
      AfterElem(e.v, e.post, COMMA, tail);
    }
  }

  lemma {:induction false} LeadGoesOn(before: Before, obj: bool, u: bytes, d: int, lim: int, text: bytes)
    requires before.After? ==> ElemsOk(before.elems, obj, {}) && d + ElemsHeight(before.elems) <= lim
    requires text == Lead(before, u)
    ensures SkipElems(text, obj, d, lim, {}) == SkipElems(u, obj, d, lim, NamesOf(before))
  {
    if before.After? {
      CommaEnds(before.elems, u);
      ElemsGoOn(before.elems, obj, {}, [COMMA] + u, d, lim, NamesOf(before), text);
      assert ([COMMA] + u)[1..] == u;
    }
  }

  lemma {:induction false} OpensElems(text: bytes, obj: bool, d: int, inner: int, lim: int)
    requires inner == d + 1 <= lim && At(Ws(text)) != Shut(obj)
    ensures SkipValue([Opener(obj)] + text, d, lim) == SkipElems(text, obj, inner, lim, {})
  {
    var s := [Opener(obj)] + text;
    assert s[1..] == text;
    SkipElemsWs(text, obj, inner, lim, {});
  }

  lemma {:induction false} LeadOpens(before: Before, obj: bool, pre: ws, u: bytes)
    requires before.After? ==> ElemsOk(before.elems, obj, {})
    requires if before.Start? then Lacks(u, Shut(obj)) else true
    ensures At(Ws(Lead(before, pre + u))) != Shut(obj)
  {
    if before.After? {
      ElemsStart(before.elems, obj, {}, [COMMA] + (pre + u));
    } else {
      WsSkips(pre, u);
    }
  }

  // ---- the break ----

  lemma {:induction false} NoValueIsRefused(x: bytes, d: int, lim: int)
    requires StartsNoValue(x)
    ensures SkipValue(x, d, lim) == Refused(Malformed, x)
  {
  }

  lemma {:induction false} NumberBreaks(b: Break, d: int, lim: int, room: int)
    requires (b.BareSign? || b.NoDigits?) && Breaks(b, room)
    ensures SkipValue(BreakText(b), d, lim) == Refused(NumberSpelling, b.x)
  {
    if b.BareSign? {
      BareSignIsRefused(b.x, [MINUS] + b.x, 0, 0);
    } else {
      MarkNeedsDigits(b.n, b.mark, b.x);
      NumberStarts(b.n, b.mark + b.x);
    }
  }

  lemma {:induction false} TornIsRefused(chs: seq<char_>, x: bytes, d: int, lim: int)
    requires StartsNothing(x)
    ensures var r := SkipValue([QUOTE] + Spelled(chs, x), d, lim); r.Refused? && r.word == TornWord(x)
  {
    BrokenStringIsRefused(chs, x);
  }

  lemma {:induction false} NoTextIsRefused(chs: seq<char_>, x: bytes, d: int, lim: int)
    requires !Utf8.Valid(Meaning(chs))
    ensures SkipValue(StrText(chs, x), d, lim) == Refused(BadString, x)
  {
    StrReads(chs, x);
  }

  lemma {:induction false} NotClosedIsRefused(obj: bool, e: Elems, x: bytes, d: int, inner: int, lim: int)
    requires inner == d + 1 && inner + ElemsHeight(e) <= lim && ElemsOk(e, obj, {}) && Lacks(x, COMMA) && Lacks(x, Shut(obj)) && EndBefore(e, x)
    ensures SkipValue([Opener(obj)] + ElemsText(e, x), d, lim) == Refused(Malformed, x)
  {
    ElemsStart(e, obj, {}, x);
    OpensElems(ElemsText(e, x), obj, d, inner, lim);
    ElemsGoOn(e, obj, {}, x, inner, lim, Names(e), ElemsText(e, x));
  }

  /** A name that breaks off is refused in front of whatever value. */
  lemma {:induction false} NameBreaks(p: Part, names: set<bytes>, room: int, text: bytes)
    requires !p.InValue? && PartBreaks(p, true, names, room) && text == PartText(p)
    ensures Ws(text) == text && RefusesPart(SkipName(text, true, names), p) && RefusesPart(MemberName(text), p)
  {
    match p
    case NoName(x) =>
    case TornName(chs, x) => BrokenStringIsRefused(chs, x);
    case BadName(chs, x) => StrReads(chs, x);
    case NoColon(chs, mid, x) =>
      StrReads(chs, mid + x);
      WsSkips(mid, x);
  }

  lemma {:induction false} BreakStarts(b: Break, room: int)
    requires Breaks(b, room)
    ensures BreakText(b) == [] || !IsWs(BreakText(b)[0])
  {
    if b.NoDigits? {
      NumberStarts(b.n, b.mark + b.x);
    }
  }

  /** Over all texts that leave the grammar somewhere, however deep inside a value: the
      walker refuses at the first byte that does not fit, with the word for it. */
  lemma {:induction false} BreakIsRefused(b: Break, d: int, lim: int, room: int)
    requires Breaks(b, room) && room == lim - d
    ensures RefusesBreak(SkipValue(BreakText(b), d, lim), b)
    decreases b
  {
    match b
    case NoValue(x) => NoValueIsRefused(x, d, lim);
    case BareSign(x) => NumberBreaks(b, d, lim, room);
    case NoDigits(n, mark, x) => NumberBreaks(b, d, lim, room);
    case NoText(chs, x) => NoTextIsRefused(chs, x, d, lim);
    case TornString(chs, x) => TornIsRefused(chs, x, d, lim);
    case NotClosed(obj, e, x) => NotClosedIsRefused(obj, e, x, d, d + 1, lim);
    case Within(obj, before, pre, part) =>
      var u := pre + PartText(part);
      LeadOpens(before, obj, pre, PartText(part));
      OpensElems(Lead(before, u), obj, d, d + 1, lim);
      LeadGoesOn(before, obj, u, d + 1, lim, Lead(before, u));
      PartIsRefused(part, obj, NamesOf(before), pre, d + 1, lim, room - 1);
  }

  lemma {:induction false} PartIsRefused(p: Part, obj: bool, names: set<bytes>, pre: ws, d: int, lim: int, room: int)
    requires PartBreaks(p, obj, names, room) && room == lim - d
    ensures RefusesPart(SkipElems(pre + PartText(p), obj, d, lim, names), p)
    decreases p
  {
    var text := PartText(p);
    if p.InValue? {
      var inner := BreakText(p.inner);
      BreakStarts(p.inner, room);
      BreakIsRefused(p.inner, d, lim, room);
      NameReads(p.key, obj, names, inner);
      KeyFollows(p.key, pre, inner);
    } else {
      NameBreaks(p, names, room, text);
      WsSkips(pre, text);
    }
  }

  lemma {:induction false} KeyFollows(k: Key, pre: ws, tail: bytes)
    requires tail == [] || !IsWs(tail[0])
    ensures Ws(pre + KeyText(k, tail)) == KeyText(k, tail)
  {
    WsSkips(pre, KeyText(k, tail));
  }

  // ---- records ----

  /** After any members: a name that breaks off is refused so by the record decoder, too. */
  lemma {:induction false} RecordNameBreaks<R(!new)>(
      c: Codec<R>, fields: seq<Field>, pre: ws, p: Part, room: int, d: int, lim: int, m: map<bytes, Datum<R>>, text: bytes)
    requires Contract(c) && 0 <= d && 1 <= lim <= DEPTH_LIMIT
    requires !p.InValue? && PartBreaks(p, true, {}, room) && text == pre + PartText(p)
    ensures RefusesPart(DecodeMembers(c, fields, text, d, lim, m), p)
  {
    NameBreaks(p, {}, room, PartText(p));
    WsSkips(pre, PartText(p));
  }

  /** After a member, only a comma or the closing brace may stand. */
  lemma {:induction false} RecordIsNotClosed<R(!new)>(
      c: Codec<R>, fields: seq<Field>, s: bytes, d: int, lim: int, m: map<bytes, Datum<R>>, m': map<bytes, Datum<R>>, x: bytes)
    requires Contract(c) && 0 <= d && 1 <= lim <= DEPTH_LIMIT && DecodeMember(c, fields, s, d, lim, m) == Ok(m', x)
    requires Lacks(x, COMMA) && Lacks(x, RBRACE)
    ensures DecodeMembers(c, fields, s, d, lim, m) == Refused(Malformed, x)
  {
  }
}
