/** The records of the resolver service, and the exported codec of a reference. */
module Messages {
  import opened Bytes
  import opened Text
  import opened Skip
  import opened Records
  import opened Encode
  import Utf8

  function TextAt<R>(m: map<bytes, Datum<R>>, name: bytes): bytes
  {
    if name in m && m[name].DText? then m[name].text else []
  }

  // ---- the reference ----

  datatype Ref = Ref(registry: bytes, repo: bytes, revision: bytes, quant: bytes, file: bytes, credential: bytes)

  const REGISTRY: bytes := Ascii("registry")
  const REPO: bytes := Ascii("repo")
  const REVISION: bytes := Ascii("revision")
  const QUANT: bytes := Ascii("quant")
  const FILE: bytes := Ascii("file")
  const CREDENTIAL: bytes := Ascii("credential")

  const REF_FIELDS: seq<Field> := [
    Field(REGISTRY, KText, true), Field(REPO, KText, true), Field(REVISION, KText, true),
    Field(QUANT, KText, true), Field(FILE, KText, true), Field(CREDENTIAL, KText, false)]

  const REF_TAGS: seq<int> := [8 * 256 + 0x79, 4 * 256 + 0x6F, 8 * 256 + 0x6E, 5 * 256 + 0x74, 4 * 256 + 0x65, 10 * 256 + 0x6C]

  lemma {:induction false} RefTag(i: nat)
    requires i < 6
    ensures IsAscii(REF_FIELDS[i].name) && Tag(REF_FIELDS[i].name) == REF_TAGS[i]
  {
  }

  lemma {:induction false} RefNames()
    ensures Schema(REF_FIELDS)
  {
    forall i | 0 <= i < |REF_FIELDS| ensures IsAscii(REF_FIELDS[i].name) && Tag(REF_FIELDS[i].name) == REF_TAGS[i] {
      RefTag(i);
    }
    TagsMakeSchema(REF_FIELDS, REF_TAGS);
  }

  /** The texts a reference prints, in order: the credential only when it has one. */
  function RefTexts(v: Ref): seq<bytes>
  {
    [v.registry, v.repo, v.revision, v.quant, v.file] + (if v.credential == [] then [] else [v.credential])
  }

  function RefMembers(v: Ref): (ms: seq<Member>)
    ensures |ms| == |RefTexts(v)| <= 6
    ensures forall i :: 0 <= i < |ms| ==> ms[i] == Member(REF_FIELDS[i].name, Quoted(RefTexts(v)[i], []))
  {
    [Member(REGISTRY, Quoted(v.registry, [])), Member(REPO, Quoted(v.repo, [])),
     Member(REVISION, Quoted(v.revision, [])), Member(QUANT, Quoted(v.quant, [])),
     Member(FILE, Quoted(v.file, []))] +
    (if v.credential == [] then [] else [Member(CREDENTIAL, Quoted(v.credential, []))])
  }

  function RefText(v: Ref, d: int, tail: bytes): bytes { ObjectText(RefMembers(v), d, tail) }

  function AsRef<R>(m: map<bytes, Datum<R>>): Ref
  {
    Ref(TextAt(m, REGISTRY), TextAt(m, REPO), TextAt(m, REVISION), TextAt(m, QUANT), TextAt(m, FILE), TextAt(m, CREDENTIAL))
  }

  predicate RefIsUtf8(v: Ref) { forall i :: 0 <= i < |RefTexts(v)| ==> Utf8.Valid(RefTexts(v)[i]) }

  function Texts<R>(vs: seq<bytes>): seq<Datum<R>> { seq(|vs|, i requires 0 <= i < |vs| => DText(vs[i])) }

  function RefDatum<R>(v: Ref): Datum<R> { DRecord(RecordOf(RefMembers(v), Texts(RefTexts(v)))) }

  lemma {:induction false} RefMembersAreListed(v: Ref)
    ensures Lists(REF_FIELDS, RefMembers(v)) && TextMembers(RefMembers(v), RefTexts(v))
  {
    RefNames();
    var ms := RefMembers(v);
    forall i | 0 <= i < |ms| ensures IsText(ms[i], RefTexts(v)[i]) {
    }
    forall i, j | 0 <= i < j < |ms| ensures ms[i].name != ms[j].name {
      assert REF_FIELDS[i].name != REF_FIELDS[j].name;
    }
  }

  lemma {:induction false} RefFieldIsText(i: nat)
    requires i < 6
    ensures REF_FIELDS[i].kind == KText
  {
  }

  lemma {:induction false} RefMembersDecode<R(!new)>(c: Codec<R>, v: Ref, d: int)
    requires Contract(c) && 0 <= d && RefIsUtf8(v) && Lists(REF_FIELDS, RefMembers(v))
    ensures AllDecode(c, REF_FIELDS, RefMembers(v), Texts(RefTexts(v)), d)
  {
    var ms, xs := RefMembers(v), Texts<R>(RefTexts(v));
    forall i | 0 <= i < |ms| ensures BodyDecodes(c, REF_FIELDS[i].kind, ms[i].body, xs[i], d) {
      RefFieldIsText(i);
      TextDecodes(c, RefTexts(v)[i], d);
    }
  }

  lemma {:induction false} RefRecordAt<R>(v: Ref, i: nat)
    requires i < 6
    ensures TextAt(RecordOf(RefMembers(v), Texts<R>(RefTexts(v))), REF_FIELDS[i].name)
            == if i < |RefTexts(v)| then RefTexts(v)[i] else []
  {
    RefNames();
    RefMembersAreListed(v);
    RecordHas(REF_FIELDS, RefMembers(v), Texts<R>(RefTexts(v)));
  }

  /** The record of a printed reference is that reference. */
  lemma {:induction false} RefRecord<R>(v: Ref)
    ensures AsRef(RecordOf(RefMembers(v), Texts<R>(RefTexts(v)))) == v
  {
    RefRecordAt<R>(v, 0);
    RefRecordAt<R>(v, 1);
    RefRecordAt<R>(v, 2);
    RefRecordAt<R>(v, 3);
    RefRecordAt<R>(v, 4);
    RefRecordAt<R>(v, 5);
  }

  /** Every reference of well-formed text prints as a record that decodes to it. */
  lemma {:induction false} RefDecodes<R(!new)>(c: Codec<R>, v: Ref, d: int)
    requires Contract(c) && 0 <= d < DEPTH_LIMIT && RefIsUtf8(v)
    ensures BodyDecodes(c, KRecord(REF_FIELDS), RefText(v, d, []), RefDatum(v), d)
    ensures AsRef(RefDatum<R>(v).fields) == v
  {
    RefNames();
    RefMembersAreListed(v);
    RefMembersDecode(c, v, d + 1);
    RefRecord<R>(v);
    RecordDecodes(c, REF_FIELDS, RefMembers(v), Texts(RefTexts(v)), d);
  }

  /** A reference with a text that is no UTF-8 prints as bytes no walker accepts. */
  lemma {:induction false} BadRefIsRefused(v: Ref, d: int, lim: int, tail: bytes)
    requires !RefIsUtf8(v) && d + 1 <= lim
    ensures var r := SkipValue(RefText(v, d, tail), d, lim); r.Refused? && r.word == BadString
  {
    RefMembersAreListed(v);
    BadObjectIsRefused(RefMembers(v), RefTexts(v), d, lim, tail);
  }

  // ---- the exported codec of a reference ----

  /** A codec that imports nothing. */
  function NoCodec(): Codec<()> { Codec((r: (), d: int) => None, (s: bytes, d: int, lim: int) => Refused(Malformed, s)) }

  lemma {:induction false} NoCodecIsSound()
    ensures Contract(NoCodec())
  {
    forall s: bytes, d: int, lim: int ensures DecodesAsWalked(NoCodec(), s, d, lim) {
    }
    forall r: (), d: int, tail: bytes ensures DecodesBack(NoCodec(), r, d, tail) {
    }
  }

  function DecodeRef(s: bytes, d: int, lim: int): Parsed<Ref>
    requires 0 <= d && 1 <= lim <= DEPTH_LIMIT
  {
    NoCodecIsSound();
    match Decode(NoCodec(), KRecord(REF_FIELDS), s, d, lim)
    case Refused(w, rest) => Refused(w, rest)
    case Ok(x, rest) => if x.DRecord? then Ok(AsRef(x.fields), rest) else Refused(WrongType, s)
  }

  /** Records decode to records. */
  lemma {:induction false} DecodesToRecord<R(!new)>(c: Codec<R>, fields: seq<Field>, s: bytes, d: int, lim: int)
    requires Contract(c) && 0 <= d && 1 <= lim <= DEPTH_LIMIT && Decode(c, KRecord(fields), s, d, lim).Ok?
    ensures Decode(c, KRecord(fields), s, d, lim).value.DRecord?
  {
    var t := Ws(s[1..]);
    if At(t) != RBRACE {
      MembersDecodeToRecord(c, fields, t, d + 1, lim, map[]);
    }
  }

  lemma {:induction false} MembersDecodeToRecord<R(!new)>(c: Codec<R>, fields: seq<Field>, s: bytes, d: int, lim: int, m: map<bytes, Datum<R>>)
    requires Contract(c) && 0 <= d && 1 <= lim <= DEPTH_LIMIT && DecodeMembers(c, fields, s, d, lim, m).Ok?
    ensures DecodeMembers(c, fields, s, d, lim, m).value.DRecord?
    decreases |s|
  {
    var name, t := MemberName(Ws(s)).value, MemberName(Ws(s)).rest;
    var r := Decode(c, FieldOf(fields, name).value.kind, t, d, lim);
    var u := Ws(r.rest);
    if At(u) == COMMA {
      MembersDecodeToRecord(c, fields, u[1..], d, lim, m[name := r.value]);
    }
  }

  /** The limit a reader works under: its own when it is lower than the format's. */
  function LimitOf(limit: int): int { if 0 < limit < DEPTH_LIMIT then limit else DEPTH_LIMIT }

  function DecodeRefAt(s: bytes, d: int, limit: int): Parsed<Ref>
  {
    if d < 0 || limit < 1 then Refused(DepthExceeded, s) else DecodeRef(Ws(s), d, LimitOf(limit))
  }

  /** None when the encoder panics with a refusal. */
  function EncodeRefAt(v: Ref, d: int): Option<bytes>
  {
    if d < 0 || d >= DEPTH_LIMIT then None
    else
      var out := RefText(v, d, []);
      if DecodeRefAt(out, d, DEPTH_LIMIT).Ok? then Some(out) else None
  }

  lemma {:induction false} RefTextStarts(v: Ref, d: int, tail: bytes)
    ensures At(RefText(v, d, tail)) == LBRACE && Ws(RefText(v, d, tail)) == RefText(v, d, tail)
  {
  }

  lemma {:induction false} GoodRefDecodes(v: Ref, d: int, tail: bytes)
    requires 0 <= d < DEPTH_LIMIT && RefIsUtf8(v)
    ensures DecodeRefAt(RefText(v, d, []) + tail, d, DEPTH_LIMIT) == Ok(v, tail)
  {
    NoCodecIsSound();
    RefNames();
    RefMembersAreListed(v);
    RefMembersDecode(NoCodec(), v, d + 1);
    RefRecord<()>(v);
    RecordDecodesBefore(NoCodec(), REF_FIELDS, RefMembers(v), Texts(RefTexts(v)), d, tail);
    assert Ws(RefText(v, d, []) + tail) == RefText(v, d, []) + tail;
  }

  lemma {:induction false} BadRefIsNotDecoded(v: Ref, d: int)
    requires 0 <= d < DEPTH_LIMIT && !RefIsUtf8(v)
    ensures DecodeRefAt(RefText(v, d, []), d, DEPTH_LIMIT).Refused?
  {
    NoCodecIsSound();
    var out := RefText(v, d, []);
    RefTextStarts(v, d, []);
    BadRefIsRefused(v, d, DEPTH_LIMIT, []);
    if Decode(NoCodec(), KRecord(REF_FIELDS), out, d, DEPTH_LIMIT).Ok? {
      DecodeIsWalked(NoCodec(), KRecord(REF_FIELDS), out, d, DEPTH_LIMIT);
    }
  }

  /** At every depth of the format, encoding succeeds exactly when every text
      is well-formed; then decoding answers the same reference and leaves
      exactly what followed it. */
  lemma {:induction false} RefRoundTrip(v: Ref, d: int, tail: bytes)
    ensures EncodeRefAt(v, d).Some? <==> 0 <= d < 64 && RefIsUtf8(v)
    ensures EncodeRefAt(v, d).Some? ==> DecodeRefAt(EncodeRefAt(v, d).value + tail, d, 64) == Ok(v, tail)
  {
    if 0 <= d < DEPTH_LIMIT {
      if RefIsUtf8(v) {
        GoodRefDecodes(v, d, tail);
        GoodRefDecodes(v, d, []);
        assert RefText(v, d, []) + [] == RefText(v, d, []);
      } else {
        BadRefIsNotDecoded(v, d);
      }
    }
  }

  // ---- the assumed contract is one this codec meets ----

  function RefCodec(): Codec<Ref>
  {
    Codec((v: Ref, d: int) => EncodeRefAt(v, d), (s: bytes, d: int, lim: int) => DecodeRefAt(s, d, lim))
  }

  lemma {:induction false} RefDecodesAsWalked(s: bytes, d: int, limit: int)
    requires 0 <= d && 1 <= limit <= DEPTH_LIMIT
    ensures DecodesAsWalked(RefCodec(), s, d, limit)
  {
    NoCodecIsSound();
    var t := Ws(s);
    var r := Decode(NoCodec(), KRecord(REF_FIELDS), t, d, limit);
    if r.Ok? {
      DecodesToRecord(NoCodec(), REF_FIELDS, t, d, limit);
      DecodeIsWalked(NoCodec(), KRecord(REF_FIELDS), t, d, limit);
    } else if SkipValue(t, d, limit).Ok? {
      WalkedIsShallow(NoCodec(), KRecord(REF_FIELDS), t, d, limit);
    }
  }

  /** The reference codec, generated by the same rules as the imported one,
      meets the contract assumed of it. */
  lemma {:induction false} RefCodecMeetsContract()
    ensures Contract(RefCodec())
  {
    forall s: bytes, d: int, lim: int | 0 <= d && 1 <= lim <= DEPTH_LIMIT ensures DecodesAsWalked(RefCodec(), s, d, lim) {
      RefDecodesAsWalked(s, d, lim);
    }
    forall v: Ref, d: int, tail: bytes ensures DecodesBack(RefCodec(), v, d, tail) {
      RefRoundTrip(v, d, tail);
      if EncodeRefAt(v, d).Some? {
        RefTextStarts(v, d, []);
      }
    }
  }
}
