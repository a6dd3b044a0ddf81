/** Values carried opaque: the bytes cut out of a frame stand by themselves, and the
    typed decoding of them later, in a reader of its own, is never too deep. */
module Carried {
  import opened Bytes
  import opened Skip
  import opened Records
  import opened Envelope
  import Messages
  import Raw
  import Text

  // ---- a value's bytes do not depend on what follows ----

  lemma {:induction false} ValueAppends(v: Value, tail: bytes)
    ensures ValueText(v, tail) == ValueText(v, []) + tail
    decreases v, 0
  {
    match v
    case VStr(chs) => Raw.StrTextAppends(chs, tail);
    case VNum(n) => Raw.NumberAppends(n, tail);
    case VTrue => WordAppends(TRUE, tail);
    case VFalse => WordAppends(FALSE, tail);
    case VNull => WordAppends(NULL, tail);
    case VEmpty(obj, pad) =>
      NoTail([Shut(obj)]);
      Assoc(pad, [Shut(obj)], tail);
      Assoc([Opener(obj)], pad + [Shut(obj)], tail);
    case VFull(obj, e) =>
      NoTail([Shut(obj)]);
      ElemsAppend(e, [Shut(obj)], tail);
      Assoc([Opener(obj)], ElemsText(e, [Shut(obj)]), tail);
  }

  lemma {:induction false} WordAppends(word: bytes, tail: bytes)
    ensures word + tail == word + [] + tail
  {
    NoTail(word);
  }

  lemma {:induction false} ElemsAppend(e: Elems, t: bytes, tail: bytes)
    ensures ElemsText(e, t + tail) == ElemsText(e, t) + tail
    decreases e, 1
  {
    var after := AfterElement(e, t, tail);
    var value := ValueText(e.v, e.post + after);
    Assoc(e.post, after, tail);
    ValueAppends(e.v, e.post + after + tail);
    ValueAppends(e.v, e.post + after);
    Assoc(ValueText(e.v, []), e.post + after, tail);
    KeyAppends(e.key, value, tail);
    Assoc(e.pre, KeyText(e.key, value), tail);
  }

  /** What follows an element's value and the space after it. */
  lemma {:induction false} AfterElement(e: Elems, t: bytes, tail: bytes) returns (after: bytes)
    ensures after == if e.More? then [COMMA] + ElemsText(e.next, t) else t
    ensures after + tail == if e.More? then [COMMA] + ElemsText(e.next, t + tail) else t + tail
    decreases e, 0
  {
    after := t;
    if e.More? {
      after := [COMMA] + ElemsText(e.next, t);
      ElemsAppend(e.next, t, tail);
      Assoc([COMMA], ElemsText(e.next, t), tail);
    }
  }

  lemma {:induction false} KeyAppends(k: Key, t: bytes, tail: bytes)
    ensures KeyText(k, t + tail) == KeyText(k, t) + tail
  {
    if k.Key? {
      var inner := k.mid1 + ([COLON] + (k.mid2 + t));
      Assoc(k.mid2, t, tail);
      Assoc([COLON], k.mid2 + t, tail);
      Assoc(k.mid1, [COLON] + (k.mid2 + t), tail);
      Raw.StrTextAppends(k.chs, inner + tail);
      Raw.StrTextAppends(k.chs, inner);
      Assoc(Text.StrText(k.chs, []), inner, tail);
    }
  }

  // ---- what is carried is walked whole ----

  /** Bytes that are one walked value and nothing else. */
  predicate WalkedWhole(raw: bytes, d: int, lim: int)
  {
    raw != [] && !IsWs(raw[0]) && SkipValue(raw, d, lim) == Ok((), [])
  }

  /** The bytes a raw value answers are, cut out, a value of their own. */
  lemma {:induction false} RawIsWalked(s: bytes, d: int, lim: int)
    requires RawValue(s, d, lim).Ok?
    ensures WalkedWhole(RawValue(s, d, lim).value, d, lim)
  {
    var rest := RawValue(s, d, lim).rest;
    var v := SkipSplits(s, d, lim);
    var raw := ValueText(v, []);
    ValueAppends(v, rest);
    assert s == raw + rest && (raw + rest)[..|raw|] == raw;
    ValueStarts(v, []);
    SkipReads(v, [], d, lim);
  }

  ghost predicate AllCarried<R>(m: map<bytes, Datum<R>>, d: int, lim: int)
  {
    forall name :: name in m && m[name].DOpaque? ==> WalkedWhole(m[name].raw, d, lim)
  }

  lemma {:induction false} ValueIsCarried<R(!new)>(c: Codec<R>, k: Kind, s: bytes, d: int, lim: int)
    requires Contract(c) && 0 <= d && 1 <= lim <= DEPTH_LIMIT && Decode(c, k, s, d, lim).Ok?
    ensures var x := Decode(c, k, s, d, lim).value; x.DOpaque? ==> WalkedWhole(x.raw, d, lim)
  {
    if k.KOpaque? {
      RawIsWalked(s, d, lim);
    } else if k.KRecord? {
      Messages.DecodesToRecord(c, k.fields, s, d, lim);
    }
  }

  lemma {:induction false} MembersAreCarried<R(!new)>(c: Codec<R>, fields: seq<Field>, s: bytes, d: int, lim: int, m: map<bytes, Datum<R>>)
    requires Contract(c) && 0 <= d && 1 <= lim <= DEPTH_LIMIT && AllCarried(m, d, lim)
    requires DecodeMembers(c, fields, s, d, lim, m).Ok?
    ensures var x := DecodeMembers(c, fields, s, d, lim, m).value; x.DRecord? && AllCarried(x.fields, d, lim)
    decreases |s|
  {
    var name, t := MemberName(Ws(s)).value, MemberName(Ws(s)).rest;
    var k := FieldOf(fields, name).value.kind;
    ValueIsCarried(c, k, t, d, lim);
    var m', u := DecodeMember(c, fields, s, d, lim, m).value, DecodeMember(c, fields, s, d, lim, m).rest;
    assert m' == m[name := Decode(c, k, t, d, lim).value];
    if At(u) == COMMA {
      MembersAreCarried(c, fields, u[1..], d, lim, m');
    }
  }

  /** Every opaque member of a whole record is a walked value one level down. */
  lemma {:induction false} WholeIsCarried<R(!new)>(c: Codec<R>, fields: seq<Field>, frame: bytes, d: int)
    requires Contract(c) && 0 <= d && Whole(c, fields, frame, d).Success?
    ensures AllCarried(Whole(c, fields, frame, d).value, d + 1, DEPTH_LIMIT)
  {
    var s := Ws(frame);
    var t := Ws(s[1..]);
    var none: map<bytes, Datum<R>> := map[];
    if At(t) != RBRACE {
      MembersAreCarried(c, fields, t, d + 1, DEPTH_LIMIT, none);
    }
  }

  // ---- so decoding it later is never too deep ----

  predicate TooDeepIn<T>(r: Result<T>) { r.Failed? && r.failure.Refusal? && r.failure.word == DepthExceeded }

  lemma {:induction false} WalkedWholeIsShallow<R(!new)>(c: Codec<R>, fields: seq<Field>, raw: bytes, d: int)
    requires Contract(c) && 0 <= d && (raw == [] || WalkedWhole(raw, d, DEPTH_LIMIT))
    ensures !TooDeepIn(Whole(c, fields, raw, d))
  {
    if raw != [] {
      assert Ws(raw) == raw;
      WalkedIsShallow(c, KRecord(fields), raw, d, DEPTH_LIMIT);
    }
  }

  /** For every buffer whatever that is read as a record, and every opaque member of
      it: decoding the bytes it carries, as any record, in a reader started one level
      down, never refuses for the depth. */
  lemma {:induction false} CarriedIsShallow<R(!new)>(
      c: Codec<R>, outer: seq<Field>, fields: seq<Field>, frame: bytes, d: int, name: bytes)
    requires Contract(c) && 0 <= d && Whole(c, outer, frame, d).Success?
    ensures !TooDeepIn(Whole(c, fields, OpaqueAt(Whole(c, outer, frame, d).value, name), d + 1))
  {
    WholeIsCarried(c, outer, frame, d);
    var m := Whole(c, outer, frame, d).value;
    assert OpaqueAt(m, name) == [] || (name in m && m[name].DOpaque? && m[name].raw == OpaqueAt(m, name));
    WalkedWholeIsShallow(c, fields, OpaqueAt(m, name), d + 1);
  }

  /** The dispatcher's arguments, whoever wrote the frame. */
  lemma {:induction false} ArgumentsAreShallow<R(!new)>(c: Codec<R>, frame: bytes)
    requires Contract(c) && ServicePayload(c, frame).Success?
    ensures !TooDeepIn(Whole(c, ARGUMENT_FIELDS, ServicePayload(c, frame).value.arguments, 1))
  {
    CarriedIsShallow(c, FRAME_FIELDS, ARGUMENT_FIELDS, frame, 0, ARGUMENTS);
  }

  /** The client's answer, whoever wrote the reply: if the reply itself is read, neither
      the error nor the result in it is refused for its depth. */
  lemma {:induction false} AnswerIsShallow<R(!new)>(c: Codec<R>, reply: bytes)
    requires Contract(c)
    ensures TooDeepIn(ReadAnswer(c, Success(reply))) ==> TooDeepIn(Whole(c, REPLY_FIELDS, reply, 0))
  {
    var m := Whole(c, REPLY_FIELDS, reply, 0);
    if m.Success? {
      CarriedIsShallow(c, REPLY_FIELDS, ERROR_FIELDS, reply, 0, PAYLOAD);
      CarriedIsShallow(c, REPLY_FIELDS, RESULT_FIELDS, reply, 0, PAYLOAD);
    }
  }
}
