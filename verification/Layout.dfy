/** References as other writers may lay them out: any order of fields, any
    white space, any escapes. */
module Layout {
  import opened Bytes
  import opened Text
  import opened Skip
  import opened Records
  import opened Encode
  import opened Messages
  import Numbers
  import Utf8

  /** Every member is a text under the name of a field. */
  predicate TextElems(e: Elems, fields: seq<Field>)
  {
    && e.key.Key? && FieldOf(fields, Meaning(e.key.chs)).Some? && e.v.VStr?
    && (e.More? ==> TextElems(e.next, fields))
  }

  /** The texts of an object by name: neither order nor white space nor the
      spelling of a character has a part in it. */
  function TextsOf(e: Elems): map<bytes, bytes>
  {
    var one := if e.key.Key? && e.v.VStr? then map[Meaning(e.key.chs) := Meaning(e.v.chs)] else map[];
    if e.More? then one + TextsOf(e.next) else one
  }

  function Data<R>(t: map<bytes, bytes>): map<bytes, Datum<R>> { map k | k in t :: DText(t[k]) }

  ghost predicate AllText(fields: seq<Field>) { forall f :: f in fields ==> f.kind == KText }

  /** Names seen before do not come again. */
  lemma {:induction false} NamesAreNew(e: Elems, seen: set<bytes>)
    requires ElemsOk(e, true, seen)
    ensures TextsOf(e).Keys !! seen
  {
    if e.More? {
      NamesAreNew(e.next, seen + Named(e.key));
    }
  }

  lemma {:induction false} NameIsDecoded(k: Key, seen: set<bytes>, tail: bytes)
    requires KeyOk(k, true, seen) && (tail == [] || !IsWs(tail[0]))
    ensures MemberName(KeyText(k, tail)) == Ok(Meaning(k.chs), tail)
  {
    NameReads(k, true, seen, tail);
    StrReads(k.chs, k.mid1 + ([COLON] + (k.mid2 + tail)));
  }

  lemma {:induction false} TextIsDecoded(v: Value, tail: bytes)
    requires ValueOk(v)
    ensures Str(ValueText(v, tail)) == if v.VStr? then Ok(Meaning(v.chs), tail) else Refused(WrongType, ValueText(v, tail))
  {
    if v.VStr? {
      StrReads(v.chs, tail);
    } else {
      ValueStarts(v, tail);
      NotAString(v, tail);
    }
  }

  lemma {:induction false} NotAString(v: Value, tail: bytes)
    requires !v.VStr?
    ensures At(ValueText(v, tail)) != QUOTE
  {
    if v.VNum? {
      Numbers.NumberStarts(v.n, tail);
    }
  }

  lemma {:induction false} FieldKind(fields: seq<Field>, name: bytes)
    requires AllText(fields) && FieldOf(fields, name).Some?
    ensures FieldOf(fields, name).value.kind == KText
  {
  }

  /** One laid-out member of a record of texts. */
  lemma {:induction false} MemberIsDecoded<R(!new)>(
    c: Codec<R>, fields: seq<Field>, e: Elems, d: int, lim: int, m: map<bytes, Datum<R>>, after: bytes)
    requires Contract(c) && 0 <= d && 1 <= lim <= DEPTH_LIMIT && AllText(fields)
    requires KeyOk(e.key, true, m.Keys) && ValueOk(e.v)
    requires after != [] && (after[0] == COMMA || after[0] == RBRACE)
    ensures var name := Meaning(e.key.chs);
            var r := DecodeMember(c, fields, e.pre + KeyText(e.key, ValueText(e.v, e.post + after)), d, lim, m);
            if FieldOf(fields, name).Some? && e.v.VStr? then r == Ok(m[name := DText(Meaning(e.v.chs))], after) else r.Refused?
  {
    var value := ValueText(e.v, e.post + after);
    ValueStarts(e.v, e.post + after);
    WsSkips(e.pre, KeyText(e.key, value));
    NameIsDecoded(e.key, m.Keys, value);
    var name := Meaning(e.key.chs);
    if FieldOf(fields, name).Some? {
      FieldKind(fields, name);
      TextIsDecoded(e.v, e.post + after);
      WsSkips(e.post, after);
    }
  }

  /** A laid-out record of texts decodes to its texts by name, or not at all. */
  lemma {:induction false} LayoutDecodes<R(!new)>(
    c: Codec<R>, fields: seq<Field>, e: Elems, d: int, lim: int, m: map<bytes, Datum<R>>, tail: bytes)
    requires Contract(c) && 0 <= d && 1 <= lim <= DEPTH_LIMIT && AllText(fields)
    requires ElemsOk(e, true, m.Keys)
    ensures var r := DecodeMembers(c, fields, ElemsText(e, [RBRACE] + tail), d, lim, m);
            if TextElems(e, fields) then r == Close(fields, m + Data(TextsOf(e)), [RBRACE] + tail) else r.Refused?
  {
    var close := [RBRACE] + tail;
    var after := if e.More? then [COMMA] + ElemsText(e.next, close) else close;
    MemberIsDecoded(c, fields, e, d, lim, m, after);
    var name := Meaning(e.key.chs);
    if FieldOf(fields, name).Some? && e.v.VStr? {
      var m' := m[name := DText(Meaning(e.v.chs))];
      assert m'.Keys == m.Keys + Named(e.key);
      if e.More? {
        assert after[1..] == ElemsText(e.next, close);
        LayoutDecodes(c, fields, e.next, d, lim, m', tail);
      }
      DataGrows(e, m);
    }
  }

  lemma {:induction false} DataGrows<R>(e: Elems, m: map<bytes, Datum<R>>)
    requires e.key.Key? && e.v.VStr?
    ensures var m' := m[Meaning(e.key.chs) := DText(Meaning(e.v.chs))];
            m + Data(TextsOf(e)) == if e.More? then m' + Data(TextsOf(e.next)) else m'
  {
    if e.More? {
      DataAdds<R>(Meaning(e.key.chs), Meaning(e.v.chs), TextsOf(e.next));
    }
  }

  lemma {:induction false} DataAdds<R>(name: bytes, text: bytes, t: map<bytes, bytes>)
    ensures Data<R>(map[name := text] + t) == map[name := DText(text)] + Data(t)
  {
  }

  /** The reference with these texts; a field that is not there is empty. */
  function RefWith(t: map<bytes, bytes>): Ref
  {
    Ref(Get(t, REGISTRY), Get(t, REPO), Get(t, REVISION), Get(t, QUANT), Get(t, FILE), Get(t, CREDENTIAL))
  }

  function Get(t: map<bytes, bytes>, name: bytes): bytes { if name in t then t[name] else [] }

  /** The object e lays out a reference: texts under the names of its fields,
      none of the required ones missing. */
  predicate LaysOutRef(e: Elems) { TextElems(e, REF_FIELDS) && Complete(REF_FIELDS, TextsOf(e)) }

  lemma {:induction false} RefFieldsAreText()
    ensures AllText(REF_FIELDS)
  {
  }

  lemma {:induction false} DataIsRef<R>(t: map<bytes, bytes>)
    ensures AsRef(Data<R>(t)) == RefWith(t)
  {
  }

  lemma {:induction false} MembersLaidOut<R(!new)>(
    c: Codec<R>, fields: seq<Field>, e: Elems, d: int, lim: int, none: map<bytes, Datum<R>>, tail: bytes)
    requires Contract(c) && 0 <= d && 1 <= lim <= DEPTH_LIMIT && ElemsOk(e, true, {}) && AllText(fields) && none == map[]
    ensures var r := DecodeMembers(c, fields, ElemsText(e, [RBRACE] + tail), d, lim, none);
            if TextElems(e, fields) then r == Close(fields, Data(TextsOf(e)), [RBRACE] + tail) else r.Refused?
  {
    assert none.Keys == {};
    LayoutDecodes(c, fields, e, d, lim, none, tail);
    assert none + Data(TextsOf(e)) == Data(TextsOf(e));
  }

  lemma {:induction false} LaidOut<R(!new)>(c: Codec<R>, fields: seq<Field>, e: Elems, d: int, lim: int, tail: bytes)
    requires Contract(c) && 0 <= d && d + 1 <= lim <= DEPTH_LIMIT && ElemsOk(e, true, {}) && AllText(fields)
    ensures var r := Decode(c, KRecord(fields), [LBRACE] + ElemsText(e, [RBRACE] + tail), d, lim);
            if TextElems(e, fields) && Complete(fields, TextsOf(e)) then r == Ok(DRecord(Data(TextsOf(e))), tail) else r.Refused?
  {
    var inner := ElemsText(e, [RBRACE] + tail);
    ElemsStart(e, true, {}, [RBRACE] + tail);
    RecordOpens(c, fields, inner, d, lim);
    MembersLaidOut(c, fields, e, d + 1, lim, map[], tail);
    CloseOfData<R>(fields, TextsOf(e), tail);
  }

  lemma {:induction false} CloseOfData<R>(fields: seq<Field>, t: map<bytes, bytes>, tail: bytes)
    ensures var r := Close<R>(fields, Data(t), [RBRACE] + tail);
            if Complete(fields, t) then r == Ok(DRecord(Data(t)), tail) else r.Refused?
  {
    var data: map<bytes, Datum<R>> := Data(t);
    assert data.Keys == t.Keys;
    assert ([RBRACE] + tail)[1..] == tail;
  }

  /** A well-formed object within the depth is decoded as a reference exactly
      when it lays one out, and then to the reference with its texts. */
  lemma {:induction false} LaidOutRef(e: Elems, d: int, lim: int, tail: bytes)
    requires 0 <= d && d + 1 <= lim <= DEPTH_LIMIT && ElemsOk(e, true, {})
    ensures var r := DecodeRef(ValueText(VFull(true, e), tail), d, lim);
            if LaysOutRef(e) then r == Ok(RefWith(TextsOf(e)), tail) else r.Refused?
  {
    NoCodecIsSound();
    RefFieldsAreText();
    LaidOut(NoCodec(), REF_FIELDS, e, d, lim, tail);
    DataIsRef<()>(TextsOf(e));
  }

  /** The decoder of a reference accepts exactly the objects of the grammar that
      lay one out, in any order, spacing and spelling, and answers the
      reference with their texts. */
  lemma {:induction false} DecodeRefExactly(s: bytes, d: int, lim: int, v: Ref, rest: bytes)
    requires 0 <= d && 1 <= lim <= DEPTH_LIMIT && !IsWs(At(s))
    ensures DecodeRef(s, d, lim) == Ok(v, rest) <==>
            d + 1 <= lim && exists e: Elems ::
              s == ValueText(VFull(true, e), rest) && ElemsOk(e, true, {}) && d + 1 + ElemsHeight(e) <= lim
              && LaysOutRef(e) && v == RefWith(TextsOf(e))
  {
    if DecodeRef(s, d, lim) == Ok(v, rest) {
      var e := RefIsLaidOut(s, d, lim);
      LaidOutRef(e, d, lim, rest);
    }
    if d + 1 <= lim {
      forall e: Elems | s == ValueText(VFull(true, e), rest) && ElemsOk(e, true, {}) && LaysOutRef(e) && v == RefWith(TextsOf(e))
        ensures DecodeRef(s, d, lim) == Ok(v, rest)
      {
        LaidOutRef(e, d, lim, rest);
      }
    }
  }

  lemma {:induction false} RefIsLaidOut(s: bytes, d: int, lim: int) returns (e: Elems)
    requires 0 <= d && 1 <= lim <= DEPTH_LIMIT && !IsWs(At(s)) && DecodeRef(s, d, lim).Ok?
    ensures d + 1 + ElemsHeight(e) <= lim && ElemsOk(e, true, {})
    ensures s == ValueText(VFull(true, e), DecodeRef(s, d, lim).rest)
  {
    NoCodecIsSound();
    var k := KRecord(REF_FIELDS);
    DecodeIsWalked(NoCodec(), k, s, d, lim);
    var t := SkipSplits(s, d, lim);
    var rest := SkipValue(s, d, lim).rest;
    assert s[0] == LBRACE;
    ObjectStarts(t, rest);
    if t.VEmpty? {
      assert s[1..] == t.pad + ([RBRACE] + rest);
      WsSkips(t.pad, [RBRACE] + rest);
      EmptyIsNoRef(map[]);
      assert false;
    }
    e := t.elems;
  }

  lemma {:induction false} ObjectStarts(t: Value, tail: bytes)
    requires At(ValueText(t, tail)) == LBRACE
    ensures (t.VEmpty? || t.VFull?) && t.obj
  {
    if t.VNum? {
      Numbers.NumberStarts(t.n, tail);
    }
  }

  lemma {:induction false} EmptyIsNoRef(none: map<bytes, Datum<()>>)
    requires none == map[]
    ensures !Complete(REF_FIELDS, none)
  {
    assert REF_FIELDS[0] in REF_FIELDS && REF_FIELDS[0].required;
  }

  /** The texts of a well-formed object are well-formed. */
  lemma {:induction false} TextsAreUtf8(e: Elems, seen: set<bytes>)
    requires ElemsOk(e, true, seen)
    ensures forall k :: k in TextsOf(e) ==> Utf8.Valid(TextsOf(e)[k])
  {
    if e.More? {
      TextsAreUtf8(e.next, seen + Named(e.key));
    }
  }

  lemma {:induction false} RefWithIsUtf8(t: map<bytes, bytes>)
    requires forall k :: k in t ==> Utf8.Valid(t[k])
    ensures RefIsUtf8(RefWith(t))
  {
    forall name: bytes ensures Utf8.Valid(Get(t, name)) {
    }
  }

  /** Whatever is decoded as a reference encodes again, at every depth of the
      format, to bytes that decode to it: one canonical form for every layout. */
  lemma {:induction false} DecodedRefIsCanonical(s: bytes, d: int, lim: int, d': int, tail: bytes)
    requires 0 <= d && 1 <= lim <= DEPTH_LIMIT && !IsWs(At(s)) && DecodeRef(s, d, lim).Ok?
    requires 0 <= d' < DEPTH_LIMIT
    ensures var v := DecodeRef(s, d, lim).value;
            EncodeRefAt(v, d').Some? && DecodeRefAt(EncodeRefAt(v, d').value + tail, d', DEPTH_LIMIT) == Ok(v, tail)
  {
    var e := RefIsLaidOut(s, d, lim);
    LaidOutRef(e, d, lim, DecodeRef(s, d, lim).rest);
    TextsAreUtf8(e, {});
    RefWithIsUtf8(TextsOf(e));
    RefRoundTrip(DecodeRef(s, d, lim).value, d', tail);
  }
}
