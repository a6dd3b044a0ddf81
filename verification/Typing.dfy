/** What a record decoder makes of any well-formed object: the value it is of its kind,
    or the word of the first member that offends. */
module Typing {
  import opened Bytes
  import opened Text
  import opened Numbers
  import opened Skip
  import opened Records
  import opened Encode
  import Carried
  import Layout
  import opened Messages
  import Raw
  import Utf8

  datatype Typed<R> = Reads(x: Datum<R>) | Refuses(word: Word)

  /** What a value of a kind may be followed by. */
  predicate EndsInRecord(v: Value, tail: bytes) { v.VNum? ==> !Continues(tail) }

  /** The verdict of the imported codec on a request, at so many levels from the limit. */
  type Verdict<!R> = (Value, int) -> Typed<R>

  ghost predicate CodecSays<R(!new)>(c: Codec<R>, q: Verdict<R>)
  {
    forall v: Value, tail: bytes, d: int, lim: int | ValueOk(v) && EndsInRecord(v, tail) && 0 <= d && 1 <= lim <= DEPTH_LIMIT ::
      match q(v, lim - d)
      case Reads(x) => x.DRequest? && c.decode(ValueText(v, tail), d, lim) == Ok(x.request, tail)
      case Refuses(w) => c.decode(ValueText(v, tail), d, lim).Refused? && c.decode(ValueText(v, tail), d, lim).word == w
  }

  predicate IsInt32Text(n: number, i: int) { INT32_MIN <= i <= INT32_MAX && NumberText(n, []) == NumText(i, []) }

  // ---- the meaning of a value, by its kind ----

  /** Every kind but a record. Strings need not be words, nor numbers canonical integers. */
  ghost function Scalar<R>(q: Verdict<R>, k: Kind, v: Value, room: int): Typed<R>
  {
    match k
    case KText => if v.VStr? then Reads(DText(Meaning(v.chs))) else Refuses(WrongType)
    case KFlag => if v.VTrue? then Reads(DFlag(true)) else if v.VFalse? then Reads(DFlag(false)) else Refuses(WrongType)
    case KInt32 =>
      if !v.VNum? then Refuses(WrongType)
      else if i :| IsInt32Text(v.n, i) then Reads(DInt(i))
      else Refuses(NumberSpelling)
    case KOutcome =>
      if !v.VStr? then Refuses(WrongType)
      else (match ParseOutcome(Meaning(v.chs)) case None => Refuses(BadEnum) case Some(tag) => Reads(DOutcome(tag)))
    case KOpaque => if Fits(v, 0, room) then Reads(DOpaque(ValueText(v, []))) else Refuses(DepthExceeded)
    case KRequest => q(v, room)
    case KRecord(_) => Refuses(WrongType)
  }

  ghost function TypeOf<R>(q: Verdict<R>, k: Kind, v: Value, room: int): Typed<R>
    decreases v, 1
  {
    if !k.KRecord? then Scalar(q, k, v, room)
    else if !((v.VEmpty? || v.VFull?) && v.obj) then Refuses(WrongType)
    else if room < 1 then Refuses(DepthExceeded)
    else if v.VEmpty? then Closed(k.fields, map[])
    else MembersType(q, k.fields, v.elems, room - 1, map[])
  }

  /** The members of an object one after the other, over those decoded before. */
  ghost function MembersType<R>(q: Verdict<R>, fields: seq<Field>, e: Elems, room: int, m: map<bytes, Datum<R>>): Typed<R>
    decreases e, 0
  {
    match Offence(q, fields, e, room, m.Keys)
    case Some(w) => Refuses(w)
    case None =>
      var name := NameOf(e);
      var m' := m[name := TypeOf(q, FieldOf(fields, name).value.kind, e.v, room).x];
      if e.More? then MembersType(q, fields, e.next, room, m') else Closed(fields, m')
  }

  function NameOf(e: Elems): bytes { if e.key.Key? then Meaning(e.key.chs) else [] }

  /** Why a member is refused after members of these names: it is no field's, or a
      field's that came before, or its value is refused. */
  ghost function Offence<R>(q: Verdict<R>, fields: seq<Field>, e: Elems, room: int, before: set<bytes>): (r: Option<Word>)
    ensures r.None? ==> FieldOf(fields, NameOf(e)).Some? && TypeOf(q, FieldOf(fields, NameOf(e)).value.kind, e.v, room).Reads?
    decreases e.v, 2
  {
    match FieldOf(fields, NameOf(e))
    case None => Some(UnknownField)
    case Some(f) =>
      if NameOf(e) in before then Some(DuplicateField)
      else match TypeOf(q, f.kind, e.v, room) case Refuses(w) => Some(w) case Reads(_) => None
  }

  /** At the closing brace: nothing required may be missing. */
  ghost function Closed<R>(fields: seq<Field>, m: map<bytes, Datum<R>>): Typed<R>
  {
    if Complete(fields, m) then Reads(DRecord(m)) else Refuses(MissingField)
  }

  // ---- objects in which names may repeat ----

  /** Well-formed members of an object; a name may come again. */
  predicate Laid(e: Elems) { KeyOk(e.key, true, {}) && ValueOk(e.v) && (e.More? ==> Laid(e.next)) }

  predicate LaidOut(k: Kind, v: Value)
  {
    if k.KRecord? && v.VFull? && v.obj then Laid(v.elems) else ValueOk(v)
  }

  lemma {:induction false} NewNamesAreLaid(e: Elems, seen: set<bytes>)
    requires ElemsOk(e, true, seen)
    ensures Laid(e)
  {
    if e.More? {
      NewNamesAreLaid(e.next, seen + Named(e.key));
    }
  }

  // ---- scalars ----

  /** What decoding answers agrees with a type. */
  ghost predicate Agrees<R>(r: Parsed<Datum<R>>, t: Typed<R>, tail: bytes)
  {
    match t case Reads(x) => r == Ok(x, tail) case Refuses(w) => r.Refused? && r.word == w
  }

  lemma {:induction false} IntegerRefuses(n: number, tail: bytes)
    ensures var r := Integer(NumberText(n, tail), INT32_MIN, INT32_MAX); r.Refused? ==> r.word == NumberSpelling
  {
    var s := NumberText(n, tail);
    NumberStarts(n, tail);
    var t := if At(s) == MINUS then s[1..] else s;
    assert At(t) == n.whole[0] by {
      var body := n.whole + FracText(n.frac, ExpText(n.exp, tail));
      assert n.neg ==> s[1..] == body;
      assert body[0] == n.whole[0];
      NoTail(body);
    }
    GatherRefuses(t, 0);
  }

  lemma {:induction false} SameFront(a: bytes, b: bytes, tail: bytes)
    requires a + tail == b + tail
    ensures a == b
  {
    assert a == (a + tail)[..|a|] && b == (b + tail)[..|b|];
  }

  /** A number is read as the integer whose canonical spelling it is. */
  lemma {:induction false} IntegerType(n: number, tail: bytes, i: int)
    requires !Continues(tail)
    ensures var r := Integer(NumberText(n, tail), INT32_MIN, INT32_MAX);
            r.Refused? ==> r.word == NumberSpelling && !IsInt32Text(n, i)
    ensures var r := Integer(NumberText(n, tail), INT32_MIN, INT32_MAX);
            r.Ok? ==> r.rest == tail && IsInt32Text(n, r.value) && (IsInt32Text(n, i) ==> i == r.value)
  {
    var s := NumberText(n, tail);
    var r := Integer(s, INT32_MIN, INT32_MAX);
    IntegerRefuses(n, tail);
    Raw.NumberAppends(n, tail);
    if IsInt32Text(n, i) {
      NumTextAppends(i, tail);
      IntegerReads(i, tail, INT32_MIN, INT32_MAX);
    }
    if r.Ok? {
      IntegerIsNumber(s, INT32_MIN, INT32_MAX);
      NumberReads(n, tail);
      IntegerIsCanonical(s, INT32_MIN, INT32_MAX);
      NumTextAppends(r.value, tail);
      SameFront(NumberText(n, []), NumText(r.value, []), tail);
    }
  }

  lemma {:induction false} IntDecodes<R(!new)>(c: Codec<R>, q: Verdict<R>, v: Value, tail: bytes, d: int, lim: int, room: int)
    requires Contract(c) && 0 <= d && 1 <= lim <= DEPTH_LIMIT && room == lim - d && EndsInRecord(v, tail)
    ensures Agrees(Decode(c, KInt32, ValueText(v, tail), d, lim), Scalar(q, KInt32, v, room), tail)
  {
    if v.VNum? {
      IntegerType(v.n, tail, 0);
      forall i ensures var r := Integer(NumberText(v.n, tail), INT32_MIN, INT32_MAX);
                       IsInt32Text(v.n, i) <==> r.Ok? && i == r.value {
        IntegerType(v.n, tail, i);
      }
    } else {
      OtherStarts(v, tail);
    }
  }

  /** How values start that are no numbers. */
  lemma {:induction false} OtherStarts(v: Value, tail: bytes)
    requires !v.VNum?
    ensures var c := At(ValueText(v, tail)); c != MINUS && !IsDigit(c)
  {
  }

  lemma {:induction false} FlagDecodes<R(!new)>(c: Codec<R>, q: Verdict<R>, v: Value, tail: bytes, d: int, lim: int, room: int)
    requires Contract(c) && 0 <= d && 1 <= lim <= DEPTH_LIMIT && room == lim - d
    ensures Agrees(Decode(c, KFlag, ValueText(v, tail), d, lim), Scalar(q, KFlag, v, room), tail)
  {
    var s := ValueText(v, tail);
    match v
    case VNum(n) => NumberStarts(n, tail);
    case VTrue => assert s[..4] == TRUE && s[4..] == tail;
    case VFalse => assert s[..5] == FALSE && s[5..] == tail;
    case _ =>
  }

  lemma {:induction false} OpaqueTyped<R(!new)>(c: Codec<R>, q: Verdict<R>, v: Value, tail: bytes, d: int, lim: int, room: int)
    requires Contract(c) && 0 <= d && 1 <= lim <= DEPTH_LIMIT && room == lim - d && ValueOk(v) && Ends(v, tail)
    ensures Agrees(Decode(c, KOpaque, ValueText(v, tail), d, lim), Scalar(q, KOpaque, v, room), tail)
  {
    if Fits(v, d, lim) {
      SkipReads(v, tail, d, lim);
      Carried.ValueAppends(v, tail);
      var text := ValueText(v, []);
      assert (text + tail)[..|text|] == text;
    } else {
      SkipStopsAtLimit(v, tail, d, lim);
    }
  }

  lemma {:induction false} EndsAsNumber(v: Value, tail: bytes)
    requires EndsInRecord(v, tail)
    ensures Ends(v, tail)
  {
  }

  lemma {:induction false} ScalarDecodes<R(!new)>(c: Codec<R>, q: Verdict<R>, k: Kind, v: Value, tail: bytes, d: int, lim: int, room: int)
    requires Contract(c) && CodecSays(c, q) && 0 <= d && 1 <= lim <= DEPTH_LIMIT && room == lim - d
    requires !k.KRecord? && ValueOk(v) && EndsInRecord(v, tail)
    ensures Agrees(Decode(c, k, ValueText(v, tail), d, lim), Scalar(q, k, v, room), tail)
  {
    EndsAsNumber(v, tail);
    match k
    case KText => Layout.TextIsDecoded(v, tail);
    case KOutcome => Layout.TextIsDecoded(v, tail);
    case KInt32 => IntDecodes(c, q, v, tail, d, lim, room);
    case KFlag => FlagDecodes(c, q, v, tail, d, lim, room);
    case KOpaque => OpaqueTyped(c, q, v, tail, d, lim, room);
    case KRequest =>
  }

  // ---- records ----

  /** A member's own name and value, after its name: an unknown or repeated name is
      refused at the value. */
  lemma {:induction false} MemberIsTyped<R(!new)>(
      c: Codec<R>, q: Verdict<R>, fields: seq<Field>, e: Elems, d: int, lim: int, room: int, m: map<bytes, Datum<R>>, after: bytes)
    requires Contract(c) && room == lim - d && 0 <= d && 1 <= lim <= DEPTH_LIMIT && KeyOk(e.key, true, {}) && ValueOk(e.v)
    requires after != [] && (after[0] == COMMA || after[0] == RBRACE)
    requires var f := FieldOf(fields, NameOf(e));
             f.Some? ==> Agrees(Decode(c, f.value.kind, ValueText(e.v, e.post + after), d, lim), TypeOf(q, f.value.kind, e.v, room), e.post + after)
    ensures var value := ValueText(e.v, e.post + after);
            var r := DecodeMember(c, fields, e.pre + KeyText(e.key, value), d, lim, m);
            match Offence(q, fields, e, room, m.Keys)
            case Some(w) =>
              && r.Refused? && r.word == w
              && (FieldOf(fields, NameOf(e)).None? || NameOf(e) in m ==> r.rest == value)
            case None => r == Ok(m[NameOf(e) := TypeOf(q, FieldOf(fields, NameOf(e)).value.kind, e.v, room).x], after)
  {
    var value := ValueText(e.v, e.post + after);
    ValueStarts(e.v, e.post + after);
    WsSkips(e.pre, KeyText(e.key, value));
    Layout.NameIsDecoded(e.key, {}, value);
    WsSkips(e.post, after);
  }

  lemma {:induction false} MembersAreTyped<R(!new)>(
      c: Codec<R>, q: Verdict<R>, fields: seq<Field>, e: Elems, tail: bytes, d: int, lim: int, room: int, m: map<bytes, Datum<R>>,
      text: bytes, r: Parsed<Datum<R>>)
    requires Contract(c) && CodecSays(c, q) && 0 <= d && 1 <= lim <= DEPTH_LIMIT && room == lim - d && Laid(e)
    requires text == ElemsText(e, [RBRACE] + tail) && r == DecodeMembers(c, fields, text, d, lim, m)
    ensures Agrees(r, MembersType(q, fields, e, room, m), tail)
    decreases e, 0
  {
    var close := [RBRACE] + tail;
    var after := if e.More? then [COMMA] + ElemsText(e.next, close) else close;
    if FieldOf(fields, NameOf(e)).Some? {
      AfterElem(e.v, e.post, after[0], after[1..]);
      assert after == [after[0]] + after[1..];
      AfterIsNoNumber(e.post, after);
      ValueIsLaid(FieldOf(fields, NameOf(e)).value.kind, e.v);
      DecodeIsTyped(c, q, FieldOf(fields, NameOf(e)).value.kind, e.v, e.post + after, d, lim, room);
    }
    MemberIsTyped(c, q, fields, e, d, lim, room, m, after);
    if Offence(q, fields, e, room, m.Keys).None? {
      var m' := m[NameOf(e) := TypeOf(q, FieldOf(fields, NameOf(e)).value.kind, e.v, room).x];
      if e.More? {
        var more := ElemsText(e.next, close);
        assert after[1..] == more;
        MembersAreTyped(c, q, fields, e.next, tail, d, lim, room, m', more, r);
      } else {
        assert after[1..] == tail;
      }
    }
  }

  lemma {:induction false} AfterIsNoNumber(post: ws, after: bytes)
    requires after != [] && (after[0] == COMMA || after[0] == RBRACE)
    ensures !Continues(post + after)
  {
    assert (post + after)[0] == if post == [] then after[0] else post[0];
  }

  lemma {:induction false} ValueIsLaid(k: Kind, v: Value)
    requires ValueOk(v)
    ensures LaidOut(k, v)
  {
    if v.VFull? && v.obj {
      NewNamesAreLaid(v.elems, {});
    }
  }

  lemma {:induction false} NoObject(v: Value, tail: bytes)
    requires !((v.VEmpty? || v.VFull?) && v.obj)
    ensures At(ValueText(v, tail)) != LBRACE
  {
    if v.VNum? {
      NumberStarts(v.n, tail);
    }
  }

  /** Over all schemas and all well-formed values, objects in any order and spacing and
      with names that may repeat: the decoder answers exactly what the value is of its
      kind, leaving what follows, or refuses with the word of the first offence. */
  lemma {:induction false} DecodeIsTyped<R(!new)>(
      c: Codec<R>, q: Verdict<R>, k: Kind, v: Value, tail: bytes, d: int, lim: int, room: int)
    requires Contract(c) && CodecSays(c, q) && 0 <= d && 1 <= lim <= DEPTH_LIMIT && room == lim - d
    requires LaidOut(k, v) && EndsInRecord(v, tail)
    ensures Agrees(Decode(c, k, ValueText(v, tail), d, lim), TypeOf(q, k, v, room), tail)
    decreases v, 1
  {
    if !k.KRecord? {
      ScalarDecodes(c, q, k, v, tail, d, lim, room);
    } else if !((v.VEmpty? || v.VFull?) && v.obj) {
      NoObject(v, tail);
    } else if d + 1 <= lim {
      if v.VEmpty? {
        EmptyIsTyped(c, q, k.fields, v.pad, tail, d, lim);
      } else {
        ObjectDecodes(c, q, k.fields, v.elems, tail, d, d + 1, lim, room, room - 1, map[], ValueText(v, tail), ElemsText(v.elems, [RBRACE] + tail));
      }
    }
  }

  lemma {:induction false} EmptyIsTyped<R(!new)>(
      c: Codec<R>, q: Verdict<R>, fields: seq<Field>, pad: ws, tail: bytes, d: int, lim: int)
    requires Contract(c) && 0 <= d && d + 1 <= lim <= DEPTH_LIMIT
    ensures Agrees(Decode(c, KRecord(fields), ValueText(VEmpty(true, pad), tail), d, lim), Closed(fields, map[]), tail)
  {
    var s := ValueText(VEmpty(true, pad), tail);
    assert s[1..] == pad + ([RBRACE] + tail);
    WsSkips(pad, [RBRACE] + tail);
    assert ([RBRACE] + tail)[1..] == tail;
  }

  lemma {:induction false} ObjectIsMembers<R(!new)>(
      c: Codec<R>, fields: seq<Field>, e: Elems, tail: bytes, d: int, inner: int, lim: int, none: map<bytes, Datum<R>>, s: bytes, text: bytes)
    requires Contract(c) && 0 <= d && inner == d + 1 <= lim <= DEPTH_LIMIT && Laid(e) && none == map[]
    requires text == ElemsText(e, [RBRACE] + tail) && s == [LBRACE] + text
    ensures Decode(c, KRecord(fields), s, d, lim) == DecodeMembers(c, fields, text, inner, lim, none)
  {
    LaidStart(e, [RBRACE] + tail);
    RecordOpens(c, fields, text, d, lim);
  }

  /** An object is typed by its members, whatever its text. */
  lemma {:induction false} ObjectIsTyped<R>(
      q: Verdict<R>, fields: seq<Field>, e: Elems, room: int, inside: int, none: map<bytes, Datum<R>>, r: Parsed<Datum<R>>, tail: bytes)
    requires room == inside + 1 >= 1 && none == map[] && Agrees(r, MembersType(q, fields, e, inside, none), tail)
    ensures Agrees(r, TypeOf(q, KRecord(fields), VFull(true, e), room), tail)
  {
  }

  lemma {:induction false} FullIsTyped<R(!new)>(
      c: Codec<R>, q: Verdict<R>, fields: seq<Field>, e: Elems, tail: bytes, d: int, lim: int, room: int, inside: int,
      none: map<bytes, Datum<R>>, text: bytes, r: Parsed<Datum<R>>)
    requires Contract(c) && CodecSays(c, q) && 1 <= d <= lim <= DEPTH_LIMIT && inside == lim - d && room == inside + 1 && Laid(e) && none == map[]
    requires text == ElemsText(e, [RBRACE] + tail) && r == DecodeMembers(c, fields, text, d, lim, none)
    ensures Agrees(r, TypeOf(q, KRecord(fields), VFull(true, e), room), tail)
    decreases e, 1
  {
    MembersAreTyped(c, q, fields, e, tail, d, lim, inside, none, text, r);
    ObjectIsTyped(q, fields, e, room, inside, none, r, tail);
  }

  lemma {:induction false} ObjectDecodes<R(!new)>(
      c: Codec<R>, q: Verdict<R>, fields: seq<Field>, e: Elems, tail: bytes, d: int, inner: int, lim: int, room: int, inside: int,
      none: map<bytes, Datum<R>>, s: bytes, text: bytes)
    requires Contract(c) && CodecSays(c, q) && 0 <= d && inner == d + 1 <= lim <= DEPTH_LIMIT && Laid(e) && none == map[]
    requires room == lim - d && inside == lim - inner
    requires text == ElemsText(e, [RBRACE] + tail) && s == [LBRACE] + text
    ensures Agrees(Decode(c, KRecord(fields), s, d, lim), TypeOf(q, KRecord(fields), VFull(true, e), room), tail)
    decreases e, 2
  {
    ObjectIsMembers(c, fields, e, tail, d, inner, lim, none, s, text);
    FullIsTyped(c, q, fields, e, tail, inner, lim, room, inside, none, text, Decode(c, KRecord(fields), s, d, lim));
  }

  lemma {:induction false} LaidStart(e: Elems, tail: bytes)
    requires KeyOk(e.key, true, {})
    ensures At(Ws(ElemsText(e, tail))) == QUOTE
  {
    var text := ElemsText(e, tail);
    var body := text[|e.pre|..];
    assert text == e.pre + body && body[0] == QUOTE;
    WsSkips(e.pre, body);
  }

  // ---- the first offence, by its place ----

  function Count(e: Elems): nat { if e.More? then 1 + Count(e.next) else 1 }

  /** The members from the i-th on. */
  function From(e: Elems, i: nat): Elems
    requires i < Count(e)
  {
    if i == 0 then e else From(e.next, i - 1)
  }

  function NamesBefore(e: Elems, i: nat): set<bytes>
    requires i <= Count(e)
  {
    if i == 0 then {} else {NameOf(e)} + (if e.More? then NamesBefore(e.next, i - 1) else {})
  }

  ghost predicate FirstOffends<R>(q: Verdict<R>, fields: seq<Field>, e: Elems, room: int, before: set<bytes>, i: nat)
    requires i <= Count(e)
  {
    && (forall j :: 0 <= j < i ==> Offence(q, fields, From(e, j), room, before + NamesBefore(e, j)).None?)
    && (i < Count(e) ==> Offence(q, fields, From(e, i), room, before + NamesBefore(e, i)).Some?)
  }

  ghost predicate AllThere(fields: seq<Field>, names: set<bytes>) { forall f :: f in fields && f.required ==> f.name in names }

  /** The word of the i-th member's offence, or of the object's when none offends. */
  ghost function WordAt<R>(q: Verdict<R>, fields: seq<Field>, e: Elems, room: int, before: set<bytes>, i: nat): Word
    requires i <= Count(e) && FirstOffends(q, fields, e, room, before, i)
  {
    if i == Count(e) then MissingField else Offence(q, fields, From(e, i), room, before + NamesBefore(e, i)).value
  }

  /** Places after the first member, seen from the second on. */
  lemma {:induction false} PlaceAfter(e: Elems, before: set<bytes>, after: set<bytes>, i: nat, j: nat)
    requires i == j + 1 && i <= Count(e) && e.More? && after == before + {NameOf(e)}
    ensures before + NamesBefore(e, i) == after + NamesBefore(e.next, j)
    ensures i < Count(e) ==> From(e, i) == From(e.next, j)
  {
  }

  lemma {:induction false} NextOffends<R>(
      q: Verdict<R>, fields: seq<Field>, e: Elems, room: int, before: set<bytes>, after: set<bytes>, i: nat, j: nat)
    requires i == j + 1 && i <= Count(e) && e.More? && FirstOffends(q, fields, e, room, before, i) && after == before + {NameOf(e)}
    ensures FirstOffends(q, fields, e.next, room, after, j)
    ensures WordAt(q, fields, e, room, before, i) == WordAt(q, fields, e.next, room, after, j)
    ensures before + NamesBefore(e, i) == after + NamesBefore(e.next, j)
  {
    forall k | 0 <= k < j ensures Offence(q, fields, From(e.next, k), room, after + NamesBefore(e.next, k)).None? {
      PlaceAfter(e, before, after, k + 1, k);
    }
    PlaceAfter(e, before, after, i, j);
  }

  lemma {:induction false} FirstIsFirst<R>(q: Verdict<R>, fields: seq<Field>, e: Elems, room: int, before: set<bytes>, i: nat)
    requires i <= Count(e) && FirstOffends(q, fields, e, room, before, i)
    ensures i == 0 ==> Offence(q, fields, e, room, before) == Some(WordAt(q, fields, e, room, before, i))
    ensures i > 0 ==> Offence(q, fields, e, room, before).None?
  {
    assert before + NamesBefore(e, 0) == before && From(e, 0) == e;
  }

  /** The first offence gives the word; without one the object is refused exactly for
      a required field it has not. */
  ghost predicate Tells<R>(q: Verdict<R>, fields: seq<Field>, e: Elems, room: int, before: set<bytes>, i: nat, t: Typed<R>)
    requires i <= Count(e) && FirstOffends(q, fields, e, room, before, i)
  {
    if i == Count(e) && AllThere(fields, before + NamesBefore(e, i)) then t.Reads?
    else t == Refuses(WordAt(q, fields, e, room, before, i))
  }

  lemma {:induction false} NextTells<R>(
      q: Verdict<R>, fields: seq<Field>, e: Elems, room: int, before: set<bytes>, after: set<bytes>, i: nat, j: nat, t: Typed<R>)
    requires i <= Count(e) && e.More? && FirstOffends(q, fields, e, room, before, i) && after == before + {NameOf(e)} && i == j + 1
    requires FirstOffends(q, fields, e.next, room, after, j) && Tells(q, fields, e.next, room, after, j, t)
    ensures Tells(q, fields, e, room, before, i, t)
  {
    NextOffends(q, fields, e, room, before, after, i, j);
  }

  lemma {:induction false} FirstTells<R>(
      q: Verdict<R>, fields: seq<Field>, e: Elems, room: int, m: map<bytes, Datum<R>>, i: nat, t: Typed<R>)
    requires i <= Count(e) && FirstOffends(q, fields, e, room, m.Keys, i) && t == MembersType(q, fields, e, room, m)
    requires i == 0 || e.Last?
    ensures Tells(q, fields, e, room, m.Keys, i, t)
  {
    FirstIsFirst(q, fields, e, room, m.Keys, i);
    if i > 0 {
      LastIsThere(fields, m.Keys, m[NameOf(e) := TypeOf(q, FieldOf(fields, NameOf(e)).value.kind, e.v, room).x], e);
    }
  }

  /** What the members after an inoffensive one are decoded over. */
  lemma {:induction false} NextMembers<R>(
      q: Verdict<R>, fields: seq<Field>, e: Elems, room: int, m: map<bytes, Datum<R>>) returns (m': map<bytes, Datum<R>>)
    requires e.More? && Offence(q, fields, e, room, m.Keys).None?
    ensures m'.Keys == m.Keys + {NameOf(e)} && MembersType(q, fields, e, room, m) == MembersType(q, fields, e.next, room, m')
  {
    m' := m[NameOf(e) := TypeOf(q, FieldOf(fields, NameOf(e)).value.kind, e.v, room).x];
  }

  lemma {:induction false} FirstOffenceTells<R>(
      q: Verdict<R>, fields: seq<Field>, e: Elems, room: int, m: map<bytes, Datum<R>>, i: nat, t: Typed<R>)
    requires i <= Count(e) && FirstOffends(q, fields, e, room, m.Keys, i) && t == MembersType(q, fields, e, room, m)
    ensures Tells(q, fields, e, room, m.Keys, i, t)
    decreases e
  {
    if i == 0 || e.Last? {
      FirstTells(q, fields, e, room, m, i, t);
    } else {
      var j: nat := i - 1;
      FirstIsFirst(q, fields, e, room, m.Keys, i);
      var m' := NextMembers(q, fields, e, room, m);
      NextOffends(q, fields, e, room, m.Keys, m'.Keys, i, j);
      FirstOffenceTells(q, fields, e.next, room, m', j, t);
      NextTells(q, fields, e, room, m.Keys, m'.Keys, i, j, t);
    }
  }

  lemma {:induction false} LastIsThere<R>(fields: seq<Field>, before: set<bytes>, m: map<bytes, Datum<R>>, e: Elems)
    requires e.Last? && m.Keys == before + {NameOf(e)}
    ensures Complete(fields, m) == AllThere(fields, before + NamesBefore(e, 1))
  {
    assert before + NamesBefore(e, 1) == m.Keys;
  }

  // ---- references ----

  function NoVerdict(): Verdict<()> { (v: Value, room: int) => Refuses(Malformed) }

  lemma {:induction false} NoCodecSays()
    ensures Contract(NoCodec()) && CodecSays(NoCodec(), NoVerdict())
  {
    NoCodecIsSound();
  }

  /** Why a member of a record of texts is refused after members of these names. */
  function TextOffence(fields: seq<Field>, e: Elems, before: set<bytes>): Option<Word>
  {
    if FieldOf(fields, NameOf(e)).None? then Some(UnknownField)
    else if NameOf(e) in before then Some(DuplicateField)
    else if !e.v.VStr? then Some(WrongType)
    else None
  }

  lemma {:induction false} TextOffends<R>(q: Verdict<R>, fields: seq<Field>, e: Elems, room: int, before: set<bytes>)
    requires Layout.AllText(fields)
    ensures Offence(q, fields, e, room, before) == TextOffence(fields, e, before)
  {
    if FieldOf(fields, NameOf(e)).Some? {
      Layout.FieldKind(fields, NameOf(e));
    }
  }

  /** The i-th member, or none, is the first that offends. */
  ghost predicate FirstOf(fields: seq<Field>, e: Elems, i: nat)
    requires i <= Count(e)
  {
    && (forall j :: 0 <= j < i ==> TextOffence(fields, From(e, j), NamesBefore(e, j)).None?)
    && (i < Count(e) ==> TextOffence(fields, From(e, i), NamesBefore(e, i)).Some?)
  }

  lemma {:induction false} TextFirstOffends<R>(q: Verdict<R>, fields: seq<Field>, e: Elems, room: int, i: nat, none: set<bytes>)
    requires Layout.AllText(fields) && none == {} && i <= Count(e) && FirstOf(fields, e, i)
    ensures FirstOffends(q, fields, e, room, none, i)
    ensures i < Count(e) ==> WordAt(q, fields, e, room, none, i) == TextOffence(fields, From(e, i), NamesBefore(e, i)).value
  {
    forall j | 0 <= j < Count(e)
      ensures Offence(q, fields, From(e, j), room, none + NamesBefore(e, j)) == TextOffence(fields, From(e, j), NamesBefore(e, j))
    {
      assert none + NamesBefore(e, j) == NamesBefore(e, j);
      TextOffends(q, fields, From(e, j), room, NamesBefore(e, j));
    }
  }

  lemma {:induction false} TextWordTells<R>(
      q: Verdict<R>, fields: seq<Field>, e: Elems, room: int, i: nat, m: map<bytes, Datum<R>>, t: Typed<R>)
    requires Layout.AllText(fields) && m == map[] && i <= Count(e) && t == MembersType(q, fields, e, room, m) && FirstOf(fields, e, i)
    ensures if i < Count(e) then t == Refuses(TextOffence(fields, From(e, i), NamesBefore(e, i)).value)
            else if AllThere(fields, NamesBefore(e, i)) then t.Reads?
            else t == Refuses(MissingField)
  {
    TextFirstOffends(q, fields, e, room, i, m.Keys);
    FirstOffenceTells(q, fields, e, room, m, i, t);
    assert m.Keys + NamesBefore(e, i) == NamesBefore(e, i);
  }

  /** What the decoder of a reference agrees with. */
  predicate AgreesRef(r: Parsed<Ref>, t: Typed<()>, tail: bytes)
  {
    match t case Reads(_) => r.Ok? && r.rest == tail case Refuses(w) => r.Refused? && r.word == w
  }

  lemma {:induction false} RefAgrees(s: bytes, d: int, lim: int, tail: bytes, t: Typed<()>)
    requires 0 <= d && 1 <= lim <= DEPTH_LIMIT && Contract(NoCodec())
    requires Agrees(Decode(NoCodec(), KRecord(REF_FIELDS), s, d, lim), t, tail)
    ensures AgreesRef(DecodeRef(s, d, lim), t, tail)
  {
    if t.Reads? {
      DecodesToRecord(NoCodec(), REF_FIELDS, s, d, lim);
    }
  }

  lemma {:induction false} ObjectType<R>(q: Verdict<R>, fields: seq<Field>, e: Elems, room: int, inside: int, none: map<bytes, Datum<R>>)
    requires room == inside + 1 >= 1 && none == map[]
    ensures TypeOf(q, KRecord(fields), VFull(true, e), room) == MembersType(q, fields, e, inside, none)
  {
  }

  lemma {:induction false} RefIsTyped(
      e: Elems, d: int, lim: int, tail: bytes, room: int, inside: int, none: map<bytes, Datum<()>>, s: bytes, t: Typed<()>)
    requires 0 <= d && d + 1 <= lim <= DEPTH_LIMIT && room == lim - d && room == inside + 1 && none == map[] && Laid(e)
    requires s == ValueText(VFull(true, e), tail) && t == MembersType(NoVerdict(), REF_FIELDS, e, inside, none)
    ensures AgreesRef(DecodeRef(s, d, lim), t, tail)
  {
    NoCodecSays();
    DecodeIsTyped(NoCodec(), NoVerdict(), KRecord(REF_FIELDS), VFull(true, e), tail, d, lim, room);
    ObjectType(NoVerdict(), REF_FIELDS, e, room, inside, none);
    RefAgrees(s, d, lim, tail, t);
  }

  /** Over all objects of well-formed members: a reference is refused with the word of
      its first member that is unknown, comes again or is no string; if there is none it
      is refused exactly for a field that is required and missing. */
  lemma {:induction false} DecodeRefRefuses(e: Elems, d: int, lim: int, tail: bytes, i: nat)
    requires 0 <= d && d + 1 <= lim <= DEPTH_LIMIT && Laid(e) && i <= Count(e) && FirstOf(REF_FIELDS, e, i)
    ensures var r := DecodeRef(ValueText(VFull(true, e), tail), d, lim);
            if i < Count(e) then r.Refused? && r.word == TextOffence(REF_FIELDS, From(e, i), NamesBefore(e, i)).value
            else if AllThere(REF_FIELDS, NamesBefore(e, i)) then r.Ok? && r.rest == tail
            else r.Refused? && r.word == MissingField
  {
    var none: map<bytes, Datum<()>> := map[];
    var inside := lim - d - 1;
    var t := MembersType(NoVerdict(), REF_FIELDS, e, inside, none);
    RefIsTyped(e, d, lim, tail, lim - d, inside, none, ValueText(VFull(true, e), tail), t);
    Layout.RefFieldsAreText();
    TextWordTells(NoVerdict(), REF_FIELDS, e, inside, i, none, t);
  }

  // ---- the codec of a reference gives such verdicts ----

  ghost function RefVerdict(v: Value, room: int): Typed<Ref>
  {
    match TypeOf(NoVerdict(), KRecord(REF_FIELDS), v, room)
    case Refuses(w) => Refuses(w)
    case Reads(x) => if x.DRecord? then Reads(DRequest(AsRef(x.fields))) else Refuses(WrongType)
  }

  ghost function RefVerdicts(): Verdict<Ref> { (v: Value, room: int) => RefVerdict(v, room) }

  lemma {:induction false} RefVerdictHolds(v: Value, tail: bytes, d: int, lim: int, room: int)
    requires ValueOk(v) && EndsInRecord(v, tail) && 0 <= d && 1 <= lim <= DEPTH_LIMIT && room == lim - d
    ensures match RefVerdict(v, room)
            case Reads(x) => x.DRequest? && DecodeRefAt(ValueText(v, tail), d, lim) == Ok(x.request, tail)
            case Refuses(w) => DecodeRefAt(ValueText(v, tail), d, lim).Refused? && DecodeRefAt(ValueText(v, tail), d, lim).word == w
  {
    var s := ValueText(v, tail);
    ValueStarts(v, tail);
    assert Ws(s) == s && LimitOf(lim) == lim;
    NoCodecSays();
    ValueIsLaid(KRecord(REF_FIELDS), v);
    DecodeIsTyped(NoCodec(), NoVerdict(), KRecord(REF_FIELDS), v, tail, d, lim, room);
    if Decode(NoCodec(), KRecord(REF_FIELDS), s, d, lim).Ok? {
      DecodesToRecord(NoCodec(), REF_FIELDS, s, d, lim);
    }
  }

  /** The reference codec, generated by the same rules as the imported one, decides by
      the value and the levels left. */
  lemma {:induction false} RefCodecSays()
    ensures CodecSays(RefCodec(), RefVerdicts())
  {
    forall v: Value, tail: bytes, d: int, lim: int | ValueOk(v) && EndsInRecord(v, tail) && 0 <= d && 1 <= lim <= DEPTH_LIMIT
      ensures match RefVerdicts()(v, lim - d)
              case Reads(x) => x.DRequest? && RefCodec().decode(ValueText(v, tail), d, lim) == Ok(x.request, tail)
              case Refuses(w) => RefCodec().decode(ValueText(v, tail), d, lim).Refused? && RefCodec().decode(ValueText(v, tail), d, lim).word == w
    {
      RefVerdictHolds(v, tail, d, lim, lim - d);
    }
  }
}
