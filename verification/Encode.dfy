/** How records are printed, and that what is printed is decoded back. */
module Encode {
  import opened Bytes
  import opened Text
  import opened Numbers
  import opened Skip
  import opened Records
  import Utf8

  /** The indentation of depth d. */
  function Spaces(d: int): bytes
  {
    if d <= 0 then [] else [SPACE, SPACE] + Spaces(d - 1)
  }

  lemma {:induction false} SpacesAreWs(d: int)
    ensures AllWs(Spaces(d))
  {
    if d > 0 {
      SpacesAreWs(d - 1);
    }
  }

  function Indent(d: int): bytes { [NEWLINE] + Spaces(d) }

  lemma {:induction false} IndentIsWs(d: int)
    ensures AllWs(Indent(d)) && |Indent(d)| > 0
  {
    SpacesAreWs(d);
  }

  /** A printed member: its name and the bytes of its value. */
  datatype Member = Member(name: bytes, body: bytes)

  function MemberText(m: Member, d: int, rest: bytes): bytes
  {
    Indent(d) + Quoted(m.name, [COLON, SPACE] + (m.body + rest))
  }

  function MembersText(ms: seq<Member>, d: int, tail: bytes): bytes
  {
    if ms == [] then tail
    else MemberText(ms[0], d, if |ms| == 1 then tail else [COMMA] + MembersText(ms[1..], d, tail))
  }

  /** A record printed at depth d, in front of tail. */
  function ObjectText(ms: seq<Member>, d: int, tail: bytes): bytes
  {
    [LBRACE] + MembersText(ms, d + 1, Indent(d) + ([RBRACE] + tail))
  }

  lemma {:induction false} MemberAppends(m: Member, d: int, t: bytes, tail: bytes)
    ensures MemberText(m, d, t + tail) == MemberText(m, d, t) + tail
  {
    var rest := [COLON, SPACE] + (m.body + t);
    assert [COLON, SPACE] + (m.body + (t + tail)) == rest + tail;
    QuotedAppends(m.name, rest, tail);
    assert Indent(d) + (Quoted(m.name, rest) + tail) == Indent(d) + Quoted(m.name, rest) + tail;
  }

  lemma {:induction false} MembersAppend(ms: seq<Member>, d: int, t: bytes, tail: bytes)
    ensures MembersText(ms, d, t + tail) == MembersText(ms, d, t) + tail
  {
    if |ms| == 1 {
      MemberAppends(ms[0], d, t, tail);
    } else if |ms| > 1 {
      MembersAppend(ms[1..], d, t, tail);
      var more := MembersText(ms[1..], d, t);
      assert [COMMA] + (more + tail) == ([COMMA] + more) + tail;
      MemberAppends(ms[0], d, [COMMA] + more, tail);
    }
  }

  lemma {:induction false} ObjectAppends(ms: seq<Member>, d: int, tail: bytes)
    ensures ObjectText(ms, d, tail) == ObjectText(ms, d, []) + tail
  {
    var close := Indent(d) + ([RBRACE] + []);
    assert Indent(d) + ([RBRACE] + tail) == close + tail;
    MembersAppend(ms, d + 1, close, tail);
    assert [LBRACE] + (MembersText(ms, d + 1, close) + tail) == [LBRACE] + MembersText(ms, d + 1, close) + tail;
  }

  // ---- what is printed is decoded ----

  /** body, whatever ends it, is decoded as x. */
  ghost predicate BodyDecodesBefore<R(!new)>(c: Codec<R>, k: Kind, body: bytes, x: Datum<R>, d: int, tail: bytes)
    requires Contract(c) && 0 <= d
  {
    !Continues(tail) ==> Decode(c, k, body + tail, d, DEPTH_LIMIT) == Ok(x, tail)
  }

  ghost predicate BodyDecodes<R(!new)>(c: Codec<R>, k: Kind, body: bytes, x: Datum<R>, d: int)
    requires Contract(c) && 0 <= d
  {
    && body != [] && !IsWs(body[0])
    && forall tail: bytes :: BodyDecodesBefore(c, k, body, x, d, tail)
  }

  /** Printed members whose names are new fields of the schema and whose bodies decode. */
  ghost predicate Printable<R(!new)>(c: Codec<R>, fields: seq<Field>, ms: seq<Member>, xs: seq<Datum<R>>, d: int)
    requires Contract(c) && 0 <= d
  {
    && |ms| == |xs|
    && (forall i :: 0 <= i < |ms| ==>
          && IsAscii(ms[i].name) && FieldOf(fields, ms[i].name).Some?
          && BodyDecodes(c, FieldOf(fields, ms[i].name).value.kind, ms[i].body, xs[i], d))
    && (forall i, j :: 0 <= i < j < |ms| ==> ms[i].name != ms[j].name)
  }

  ghost predicate Fresh<T>(ms: seq<Member>, m: map<bytes, T>) { forall i :: 0 <= i < |ms| ==> ms[i].name !in m }

  function Collect<R>(ms: seq<Member>, xs: seq<Datum<R>>, m: map<bytes, Datum<R>>): map<bytes, Datum<R>>
    requires |ms| == |xs|
  {
    if ms == [] then m else Collect(ms[1..], xs[1..], m[ms[0].name := xs[0]])
  }

  lemma {:induction false} CollectHas<R>(ms: seq<Member>, xs: seq<Datum<R>>, m: map<bytes, Datum<R>>)
    requires |ms| == |xs| && Fresh(ms, m)
    requires forall i, j :: 0 <= i < j < |ms| ==> ms[i].name != ms[j].name
    ensures var r := Collect(ms, xs, m);
            && (forall k :: k in m ==> k in r && r[k] == m[k])
            && (forall i :: 0 <= i < |ms| ==> ms[i].name in r && r[ms[i].name] == xs[i])
            && (forall k :: k in r ==> k in m || exists i :: 0 <= i < |ms| && ms[i].name == k)
  {
    if ms != [] {
      var m' := m[ms[0].name := xs[0]];
      CollectHas(ms[1..], xs[1..], m');
      var r := Collect(ms, xs, m);
      forall i | 0 <= i < |ms| ensures ms[i].name in r && r[ms[i].name] == xs[i] {
        if i > 0 {
          assert ms[1..][i - 1] == ms[i];
        } else {
          assert ms[0].name in m';
        }
      }
      forall k | k in r && k !in m ensures exists i :: 0 <= i < |ms| && ms[i].name == k {
        if k !in m' {
          var i :| 0 <= i < |ms[1..]| && ms[1..][i].name == k;
          assert ms[i + 1].name == k;
        } else {
          assert ms[0].name == k;
        }
      }
    }
  }

  /** A printed name and colon lead to the value's own bytes. */
  lemma {:induction false} NameDecodes(m: Member, d: int, rest: bytes)
    requires IsAscii(m.name) && m.body != [] && !IsWs(m.body[0])
    ensures MemberName(Ws(MemberText(m, d, rest))) == Ok(m.name, m.body + rest)
    ensures At(Ws(MemberText(m, d, rest))) == QUOTE
  {
    var after := [COLON, SPACE] + (m.body + rest);
    IndentIsWs(d);
    Utf8.AsciiIsValid(m.name);
    WsSkips(Indent(d), Quoted(m.name, after));
    QuotedReads(m.name, after);
    assert Ws(after) == after;
    assert after[1..] == [SPACE] + (m.body + rest);
    WsSkips([SPACE], m.body + rest);
  }

  lemma {:induction false} MembersTextStarts(ms: seq<Member>, d: int, tail: bytes)
    requires ms != [] && IsAscii(ms[0].name) && ms[0].body != [] && !IsWs(ms[0].body[0])
    ensures At(Ws(MembersText(ms, d, tail))) == QUOTE
  {
    NameDecodes(ms[0], d, if |ms| == 1 then tail else [COMMA] + MembersText(ms[1..], d, tail));
  }

  lemma {:induction false} CloseAfterIndent(d: int, tail: bytes)
    ensures var close := Indent(d) + ([RBRACE] + tail);
            !Continues(close) && Ws(close) == [RBRACE] + tail
  {
    IndentIsWs(d);
    WsSkips(Indent(d), [RBRACE] + tail);
  }

  /** One printed member and a comma: decoding goes on with the member seen. */
  lemma {:induction false} MemberDecodes<R(!new)>(
    c: Codec<R>, fields: seq<Field>, one: Member, x: Datum<R>, d: int, m: map<bytes, Datum<R>>, more: bytes)
    requires Contract(c) && 0 <= d && IsAscii(one.name) && FieldOf(fields, one.name).Some? && one.name !in m
    requires BodyDecodes(c, FieldOf(fields, one.name).value.kind, one.body, x, d)
    ensures DecodeMembers(c, fields, MemberText(one, d, [COMMA] + more), d, DEPTH_LIMIT, m)
            == DecodeMembers(c, fields, more, d, DEPTH_LIMIT, m[one.name := x])
  {
    var rest := [COMMA] + more;
    NameDecodes(one, d, rest);
    assert BodyDecodesBefore(c, FieldOf(fields, one.name).value.kind, one.body, x, d, rest);
    assert Ws(rest) == rest && rest[1..] == more;
  }

  lemma {:induction false} PrintableTail<R(!new)>(c: Codec<R>, fields: seq<Field>, ms: seq<Member>, xs: seq<Datum<R>>, d: int)
    requires Contract(c) && 0 <= d && Printable(c, fields, ms, xs, d) && ms != []
    ensures Printable(c, fields, ms[1..], xs[1..], d)
  {
    forall i | 0 <= i < |ms[1..]|
      ensures IsAscii(ms[1..][i].name) && FieldOf(fields, ms[1..][i].name).Some?
      ensures BodyDecodes(c, FieldOf(fields, ms[1..][i].name).value.kind, ms[1..][i].body, xs[1..][i], d)
    {
      assert ms[1..][i] == ms[i + 1] && xs[1..][i] == xs[i + 1];
    }
  }

  lemma {:induction false} FreshTail<T>(ms: seq<Member>, m: map<bytes, T>, x: T)
    requires ms != [] && Fresh(ms, m) && forall i :: 0 < i < |ms| ==> ms[i].name != ms[0].name
    ensures Fresh(ms[1..], m[ms[0].name := x])
  {
    forall i | 0 <= i < |ms[1..]| ensures ms[1..][i].name !in m[ms[0].name := x] {
      assert ms[1..][i] == ms[i + 1];
    }
  }

  lemma {:induction false} MembersDecode<R(!new)>(
    c: Codec<R>, fields: seq<Field>, ms: seq<Member>, xs: seq<Datum<R>>, d: int, outer: int, m: map<bytes, Datum<R>>, tail: bytes)
    requires Contract(c) && 0 <= d && ms != []
    requires Printable(c, fields, ms, xs, d) && Fresh(ms, m)
    ensures DecodeMembers(c, fields, MembersText(ms, d, Indent(outer) + ([RBRACE] + tail)), d, DEPTH_LIMIT, m)
            == Close(fields, Collect(ms, xs, m), [RBRACE] + tail)
  {
    var close := Indent(outer) + ([RBRACE] + tail);
    var k := FieldOf(fields, ms[0].name).value.kind;
    var m' := m[ms[0].name := xs[0]];
    if |ms| == 1 {
      CloseAfterIndent(outer, tail);
      NameDecodes(ms[0], d, close);
      assert BodyDecodesBefore(c, k, ms[0].body, xs[0], d, close);
      assert Collect(ms[1..], xs[1..], m') == m';
    } else {
      MemberDecodes(c, fields, ms[0], xs[0], d, m, MembersText(ms[1..], d, close));
      PrintableTail(c, fields, ms, xs, d);
      FreshTail(ms, m, xs[0]);
      MembersDecode(c, fields, ms[1..], xs[1..], d, outer, m', tail);
    }
  }

  lemma {:induction false} ObjectDecodesBefore<R(!new)>(c: Codec<R>, fields: seq<Field>, ms: seq<Member>, xs: seq<Datum<R>>, d: int, tail: bytes)
    requires Contract(c) && 0 <= d < DEPTH_LIMIT && ms != []
    requires Printable(c, fields, ms, xs, d + 1)
    requires Complete(fields, Collect(ms, xs, map[]))
    ensures Decode(c, KRecord(fields), ObjectText(ms, d, tail), d, DEPTH_LIMIT) == Ok(DRecord(Collect(ms, xs, map[])), tail)
  {
    var none: map<bytes, Datum<R>> := map[];
    var close := [RBRACE] + tail;
    var inner := MembersText(ms, d + 1, Indent(d) + close);
    MembersDecode(c, fields, ms, xs, d + 1, d, none, tail);
    assert Close(fields, Collect(ms, xs, none), close) == Ok(DRecord(Collect(ms, xs, none)), tail) by {
      assert close[1..] == tail;
    }
    MembersTextStarts(ms, d + 1, Indent(d) + close);
    RecordOpens(c, fields, inner, d, DEPTH_LIMIT);
  }

  /** A record that does not close at once is its members. */
  lemma {:induction false} RecordOpens<R(!new)>(c: Codec<R>, fields: seq<Field>, inner: bytes, d: int, lim: int)
    requires Contract(c) && 0 <= d < lim <= DEPTH_LIMIT && At(Ws(inner)) != RBRACE
    ensures Decode(c, KRecord(fields), [LBRACE] + inner, d, lim) == DecodeMembers(c, fields, inner, d + 1, lim, map[])
  {
    assert ([LBRACE] + inner)[1..] == inner;
    DecodeMembersWs(c, fields, inner, d + 1, lim, map[]);
  }

  lemma {:induction false} DecodeMembersWs<R(!new)>(c: Codec<R>, fields: seq<Field>, s: bytes, d: int, lim: int, m: map<bytes, Datum<R>>)
    requires Contract(c) && 0 <= d && 1 <= lim <= DEPTH_LIMIT
    ensures DecodeMembers(c, fields, Ws(s), d, lim, m) == DecodeMembers(c, fields, s, d, lim, m)
  {
    WsTwice(s);
  }

  // ---- whole records of a schema ----

  /** Fields of distinct ASCII names. */
  ghost predicate Schema(fields: seq<Field>)
  {
    && (forall i, j :: 0 <= i < j < |fields| ==> fields[i].name != fields[j].name)
    && (forall i :: 0 <= i < |fields| ==> IsAscii(fields[i].name))
  }

  /** Length and last byte of a name: enough to tell the names of a schema apart. */
  function Tag(name: bytes): int { if name == [] then 0 else |name| * 256 + name[|name| - 1] }

  lemma {:induction false} TagsMakeSchema(fields: seq<Field>, tags: seq<int>)
    requires |fields| == |tags|
    requires forall i :: 0 <= i < |fields| ==> IsAscii(fields[i].name) && Tag(fields[i].name) == tags[i]
    requires forall i, j :: 0 <= i < j < |tags| ==> tags[i] != tags[j]
    ensures Schema(fields)
  {
  }

  lemma {:induction false} FieldOfAt(fields: seq<Field>, i: nat)
    requires i < |fields| && Schema(fields)
    ensures FieldOf(fields, fields[i].name) == Some(fields[i])
  {
    if i > 0 {
      assert fields[0].name != fields[i].name;
      FieldOfAt(fields[1..], i - 1);
    }
  }

  /** The members are the schema's fields in order, up to optional last ones. */
  ghost predicate Lists(fields: seq<Field>, ms: seq<Member>)
  {
    && 0 < |ms| <= |fields|
    && (forall i :: 0 <= i < |ms| ==> ms[i].name == fields[i].name)
    && (forall i :: |ms| <= i < |fields| ==> !fields[i].required)
  }

  ghost predicate AllDecode<R(!new)>(c: Codec<R>, fields: seq<Field>, ms: seq<Member>, xs: seq<Datum<R>>, d: int)
    requires Contract(c) && 0 <= d && Lists(fields, ms)
  {
    |ms| == |xs| && forall i :: 0 <= i < |ms| ==> BodyDecodes(c, fields[i].kind, ms[i].body, xs[i], d)
  }

  function RecordOf<R>(ms: seq<Member>, xs: seq<Datum<R>>): map<bytes, Datum<R>>
    requires |ms| == |xs|
  {
    Collect(ms, xs, map[])
  }

  lemma {:induction false} ListedArePrintable<R(!new)>(c: Codec<R>, fields: seq<Field>, ms: seq<Member>, xs: seq<Datum<R>>, d: int)
    requires Contract(c) && 0 <= d && Schema(fields) && Lists(fields, ms) && AllDecode(c, fields, ms, xs, d)
    ensures Printable(c, fields, ms, xs, d)
  {
    forall i | 0 <= i < |ms|
      ensures IsAscii(ms[i].name) && FieldOf(fields, ms[i].name).Some?
      ensures BodyDecodes(c, FieldOf(fields, ms[i].name).value.kind, ms[i].body, xs[i], d)
    {
      FieldOfAt(fields, i);
    }
  }

  /** The record of listed members has exactly their values under their names. */
  lemma {:induction false} RecordHas<R>(fields: seq<Field>, ms: seq<Member>, xs: seq<Datum<R>>)
    requires Schema(fields) && Lists(fields, ms) && |ms| == |xs|
    ensures Complete(fields, RecordOf(ms, xs))
    ensures forall i :: 0 <= i < |ms| ==> fields[i].name in RecordOf(ms, xs) && RecordOf(ms, xs)[fields[i].name] == xs[i]
    ensures forall i :: |ms| <= i < |fields| ==> fields[i].name !in RecordOf(ms, xs)
  {
    var none: map<bytes, Datum<R>> := map[];
    CollectHas(ms, xs, none);
    var m := RecordOf(ms, xs);
    forall i | 0 <= i < |ms| ensures fields[i].name in m && m[fields[i].name] == xs[i] {
      assert ms[i].name == fields[i].name;
    }
    forall i | |ms| <= i < |fields| ensures fields[i].name !in m {
      forall j | 0 <= j < |ms| ensures ms[j].name != fields[i].name {
      }
    }
  }

  /** A printed record of a schema decodes to the record of its members, whatever follows it. */
  lemma {:induction false} RecordDecodesBefore<R(!new)>(c: Codec<R>, fields: seq<Field>, ms: seq<Member>, xs: seq<Datum<R>>, d: int, tail: bytes)
    requires Contract(c) && 0 <= d < DEPTH_LIMIT && Schema(fields) && Lists(fields, ms) && AllDecode(c, fields, ms, xs, d + 1)
    ensures Decode(c, KRecord(fields), ObjectText(ms, d, []) + tail, d, DEPTH_LIMIT) == Ok(DRecord(RecordOf(ms, xs)), tail)
  {
    ListedArePrintable(c, fields, ms, xs, d + 1);
    RecordHas(fields, ms, xs);
    ObjectAppends(ms, d, tail);
    ObjectDecodesBefore(c, fields, ms, xs, d, tail);
  }

  lemma {:induction false} RecordDecodes<R(!new)>(c: Codec<R>, fields: seq<Field>, ms: seq<Member>, xs: seq<Datum<R>>, d: int)
    requires Contract(c) && 0 <= d < DEPTH_LIMIT && Schema(fields) && Lists(fields, ms) && AllDecode(c, fields, ms, xs, d + 1)
    ensures BodyDecodes(c, KRecord(fields), ObjectText(ms, d, []), DRecord(RecordOf(ms, xs)), d)
  {
    forall tail: bytes
      ensures BodyDecodesBefore(c, KRecord(fields), ObjectText(ms, d, []), DRecord(RecordOf(ms, xs)), d, tail)
    {
      RecordDecodesBefore(c, fields, ms, xs, d, tail);
    }
  }

  // ---- single values ----

  lemma {:induction false} NumTextAppends(n: int, tail: bytes)
    ensures NumText(n, tail) == NumText(n, []) + tail
  {
    if n != 0 {
      var ds := Digits(if n < 0 then -n else n);
      NoTail(ds);
      Assoc([MINUS], ds, tail);
    }
  }

  lemma {:induction false} IntDecodes<R(!new)>(c: Codec<R>, n: int, d: int)
    requires Contract(c) && 0 <= d && INT32_MIN <= n <= INT32_MAX
    ensures BodyDecodes(c, KInt32, NumText(n, []), DInt(n), d)
  {
    DigitsSpell(if n < 0 then -n else n);
    forall tail: bytes ensures BodyDecodesBefore(c, KInt32, NumText(n, []), DInt(n), d, tail) {
      NumTextAppends(n, tail);
      if !Continues(tail) {
        IntegerReads(n, tail, INT32_MIN, INT32_MAX);
      }
    }
  }

  function FlagText(b: bool): bytes { if b then TRUE else FALSE }

  lemma {:induction false} FlagDecodes<R(!new)>(c: Codec<R>, b: bool, d: int)
    requires Contract(c) && 0 <= d
    ensures BodyDecodes(c, KFlag, FlagText(b), DFlag(b), d)
  {
    forall tail: bytes ensures BodyDecodesBefore(c, KFlag, FlagText(b), DFlag(b), d, tail) {
      assert (FlagText(b) + tail)[..|FlagText(b)|] == FlagText(b);
    }
  }

  ghost predicate ReadsAsOutcome(tag: nat, word: bytes, tail: bytes) { Outcome(Quoted(word, []) + tail) == Ok(tag, tail) }

  lemma {:induction false} OutcomeReads(tag: nat, word: bytes)
    requires WireName(tag) == Some(word)
    ensures forall tail: bytes :: ReadsAsOutcome(tag, word, tail)
  {
    OutcomeWordsAreAscii(tag);
    Utf8.AsciiIsValid(word);
    OutcomeWords(tag, word);
    forall tail: bytes ensures ReadsAsOutcome(tag, word, tail) {
      TextBody(word, tail);
      QuotedReads(word, tail);
    }
  }

  lemma {:induction false} OutcomeDecodesBefore<R(!new)>(c: Codec<R>, tag: nat, word: bytes, d: int, tail: bytes)
    requires Contract(c) && 0 <= d && ReadsAsOutcome(tag, word, tail)
    ensures BodyDecodesBefore(c, KOutcome, Quoted(word, []), DOutcome(tag), d, tail)
  {
    OutcomeIsDatum(c, Quoted(word, []) + tail, tag, d, tail);
  }

  lemma {:induction false} OutcomeIsDatum<R(!new)>(c: Codec<R>, s: bytes, tag: nat, d: int, tail: bytes)
    requires Contract(c) && 0 <= d && Outcome(s) == Ok(tag, tail)
    ensures Decode(c, KOutcome, s, d, DEPTH_LIMIT) == Ok(DOutcome(tag), tail)
  {
  }

  lemma {:induction false} OutcomeDecodes<R(!new)>(c: Codec<R>, tag: nat, word: bytes, d: int)
    requires Contract(c) && 0 <= d && forall tail: bytes :: ReadsAsOutcome(tag, word, tail)
    ensures BodyDecodes(c, KOutcome, Quoted(word, []), DOutcome(tag), d)
  {
    forall tail: bytes ensures BodyDecodesBefore(c, KOutcome, Quoted(word, []), DOutcome(tag), d, tail) {
      OutcomeDecodesBefore(c, tag, word, d, tail);
    }
  }

  lemma {:induction false} RequestDecodes<R(!new)>(c: Codec<R>, r: R, d: int)
    requires Contract(c) && 0 <= d && c.encode(r, d).Some?
    ensures BodyDecodes(c, KRequest, c.encode(r, d).value, DRequest(r), d)
  {
    assert DecodesBack(c, r, d, []);
    forall tail: bytes ensures BodyDecodesBefore(c, KRequest, c.encode(r, d).value, DRequest(r), d, tail) {
      assert DecodesBack(c, r, d, tail);
    }
  }

  /** What a decoder accepts, an opaque field carries whole. */
  lemma {:induction false} OpaqueDecodes<R(!new)>(c: Codec<R>, k: Kind, body: bytes, x: Datum<R>, d: int)
    requires Contract(c) && 0 <= d && BodyDecodes(c, k, body, x, d)
    ensures BodyDecodes(c, KOpaque, body, DOpaque(body), d)
  {
    forall tail: bytes ensures BodyDecodesBefore(c, KOpaque, body, DOpaque(body), d, tail) {
      if !Continues(tail) {
        assert BodyDecodesBefore(c, k, body, x, d, tail);
        DecodeIsWalked(c, k, body + tail, d, DEPTH_LIMIT);
        assert (body + tail)[..|body|] == body;
      }
    }
  }

  // ---- text fields ----

  lemma {:induction false} TextDecodes<R(!new)>(c: Codec<R>, v: bytes, d: int)
    requires Contract(c) && 0 <= d && Utf8.Valid(v)
    ensures BodyDecodes(c, KText, Quoted(v, []), DText(v), d)
  {
    forall tail: bytes ensures BodyDecodesBefore(c, KText, Quoted(v, []), DText(v), d, tail) {
      QuotedAppends(v, [], tail);
      assert [] + tail == tail;
      QuotedReads(v, tail);
    }
  }

  predicate IsText(m: Member, v: bytes) { m.body == Quoted(v, []) }

  lemma {:induction false} TextBody(v: bytes, rest: bytes)
    ensures Quoted(v, []) + rest == Quoted(v, rest)
  {
    QuotedAppends(v, [], rest);
    assert [] + rest == rest;
  }

  lemma {:induction false} NameWalked(m: Member, d: int, rest: bytes, seen: set<bytes>)
    requires IsAscii(m.name) && m.body != [] && !IsWs(m.body[0]) && m.name !in seen
    ensures SkipName(Ws(MemberText(m, d, rest)), true, seen) == Ok(seen + {m.name}, m.body + rest)
  {
    NameDecodes(m, d, rest);
  }

  lemma {:induction false} TextWalked(v: bytes, rest: bytes, d: int, lim: int)
    ensures SkipValue(Quoted(v, []) + rest, d, lim) == if Utf8.Valid(v) then Ok((), rest) else Refused(BadString, rest)
  {
    TextBody(v, rest);
    QuotedReads(v, rest);
  }

  /** One printed text member: refused when it is no UTF-8, else the walk goes on after it. */
  lemma {:induction false} TextMemberWalked(m: Member, v: bytes, pad: int, rest: bytes, d: int, lim: int, seen: set<bytes>)
    requires IsAscii(m.name) && IsText(m, v) && m.name !in seen
    ensures var r := SkipElems(MemberText(m, pad, rest), true, d, lim, seen);
            if !Utf8.Valid(v) then r == Refused(BadString, rest)
            else At(rest) == COMMA ==> r == SkipElems(rest[1..], true, d, lim, seen + {m.name})
  {
    NameWalked(m, pad, rest, seen);
    TextWalked(v, rest, d, lim);
    if At(rest) == COMMA {
      assert Ws(rest) == rest;
    }
  }

  ghost predicate TextMembers(ms: seq<Member>, vs: seq<bytes>)
  {
    && |ms| == |vs|
    && (forall i :: 0 <= i < |ms| ==> IsAscii(ms[i].name) && IsText(ms[i], vs[i]))
    && (forall i, j :: 0 <= i < j < |ms| ==> ms[i].name != ms[j].name)
  }

  /** A record of text with a text that is no UTF-8 is refused by the walker. */
  lemma {:induction false} BadTextIsRefused(ms: seq<Member>, vs: seq<bytes>, d: int, lim: int, pad: int, tail: bytes, seen: set<bytes>)
    requires TextMembers(ms, vs) && (forall i :: 0 <= i < |ms| ==> ms[i].name !in seen)
    requires exists i :: 0 <= i < |vs| && !Utf8.Valid(vs[i])
    ensures var r := SkipElems(MembersText(ms, pad, tail), true, d, lim, seen); r.Refused? && r.word == BadString
  {
    var rest := if |ms| == 1 then tail else [COMMA] + MembersText(ms[1..], pad, tail);
    assert IsText(ms[0], vs[0]);
    TextMemberWalked(ms[0], vs[0], pad, rest, d, lim, seen);
    if Utf8.Valid(vs[0]) {
      var i :| 0 <= i < |vs| && !Utf8.Valid(vs[i]);
      assert vs[1..][i - 1] == vs[i];
      assert rest[1..] == MembersText(ms[1..], pad, tail);
      TailOfText(ms, vs);
      BadTextIsRefused(ms[1..], vs[1..], d, lim, pad, tail, seen + {ms[0].name});
    }
  }

  lemma {:induction false} TailOfText(ms: seq<Member>, vs: seq<bytes>)
    requires TextMembers(ms, vs) && ms != []
    ensures TextMembers(ms[1..], vs[1..])
  {
    forall i | 0 <= i < |ms[1..]| ensures IsAscii(ms[1..][i].name) && IsText(ms[1..][i], vs[1..][i]) {
      assert ms[1..][i] == ms[i + 1] && vs[1..][i] == vs[i + 1];
      assert IsText(ms[i + 1], vs[i + 1]);
    }
  }

  lemma {:induction false} ObjectOpens(inner: bytes, d: int, lim: int)
    requires At(Ws(inner)) != RBRACE && d + 1 <= lim
    ensures SkipValue([LBRACE] + inner, d, lim) == SkipElems(inner, true, d + 1, lim, {})
  {
    assert ([LBRACE] + inner)[1..] == inner;
    SkipElemsWs(inner, true, d + 1, lim, {});
  }

  lemma {:induction false} TextMembersStart(ms: seq<Member>, vs: seq<bytes>, pad: int, tail: bytes)
    requires TextMembers(ms, vs) && ms != []
    ensures At(Ws(MembersText(ms, pad, tail))) == QUOTE
  {
    assert IsText(ms[0], vs[0]);
    MembersTextStarts(ms, pad, tail);
  }

  /** ... and so is the record itself. */
  lemma {:induction false} BadObjectIsRefused(ms: seq<Member>, vs: seq<bytes>, d: int, lim: int, tail: bytes)
    requires TextMembers(ms, vs) && d + 1 <= lim
    requires exists i :: 0 <= i < |vs| && !Utf8.Valid(vs[i])
    ensures var r := SkipValue(ObjectText(ms, d, tail), d, lim); r.Refused? && r.word == BadString
  {
    var close := Indent(d) + ([RBRACE] + tail);
    TextMembersStart(ms, vs, d + 1, close);
    BadTextIsRefused(ms, vs, d + 1, lim, d + 1, close, {});
    ObjectOpens(MembersText(ms, d + 1, close), d, lim);
  }

  /** Members that decode, then one that is refused: the record is refused with its word. */
  lemma {:induction false} MembersRefuse<R(!new)>(
    c: Codec<R>, fields: seq<Field>, ms: seq<Member>, xs: seq<Datum<R>>, bad: Member, d: int, m: map<bytes, Datum<R>>, rest: bytes)
    requires Contract(c) && 0 <= d
    requires Printable(c, fields, ms, xs, d) && Fresh(ms + [bad], m)
    requires forall i :: 0 <= i < |ms| ==> ms[i].name != bad.name
    requires IsAscii(bad.name) && FieldOf(fields, bad.name).Some? && bad.body != [] && !IsWs(bad.body[0])
    requires Decode(c, FieldOf(fields, bad.name).value.kind, bad.body + rest, d, DEPTH_LIMIT).Refused?
    ensures var r := DecodeMembers(c, fields, MembersText(ms + [bad], d, rest), d, DEPTH_LIMIT, m);
            r.Refused? && r.word == Decode(c, FieldOf(fields, bad.name).value.kind, bad.body + rest, d, DEPTH_LIMIT).word
  {
    var all := ms + [bad];
    if ms == [] {
      assert all[0] == bad && |all| == 1;
      NameDecodes(bad, d, rest);
    } else {
      var m' := m[ms[0].name := xs[0]];
      assert all[0] == ms[0] && all[1..] == ms[1..] + [bad];
      MemberDecodes(c, fields, ms[0], xs[0], d, m, MembersText(all[1..], d, rest));
      PrintableTail(c, fields, ms, xs, d);
      assert all[|ms|] == bad;
      forall i | 0 < i < |all| ensures all[i].name != all[0].name {
        assert i < |ms| ==> all[i] == ms[i];
      }
      FreshTail(all, m, xs[0]);
      MembersRefuse(c, fields, ms[1..], xs[1..], bad, d, m', rest);
    }
  }
}
