/** Transparency of the resolver call: what a handler answers is what the
    caller gets, through both envelopes. */
module Rpc {
  import opened Bytes
  import opened Skip
  import opened Records
  import opened Encode
  import opened Messages
  import opened Envelope
  import Utf8

  /** An error that is one word: its text becomes the code, and an empty one none. */
  predicate ReasonArrives<T>(reason: bytes, answer: Result<T>)
  {
    if !Utf8.Valid(reason) then IsBadString(answer)
    else answer == Failed(if reason == [] then Dispatch(INVALID_ERROR) else Service(reason, []))
  }

  /** What the caller of Resolve must get when the handler comes to h. */
  ghost predicate Delivered<R>(c: Codec<R>, h: Handled<R>, answer: Result<LookupResult<R>>)
  {
    match h
    case Returned(v) =>
      answer == if ResultIsEncodable(c, v) then Success(v) else Failed(Service(INVALID_RESULT, []))
    case Panicked(refusal) =>
      answer == Failed(if refusal then Service(INVALID_RESULT, []) else Service(HANDLER_ERROR, HANDLER_FAILED))
    case Erred(Other) => answer == Failed(Service(HANDLER_ERROR, HANDLER_FAILED))
    case Erred(Refusal(w, _)) => answer == Failed(Service(WordText(w), []))
    case Erred(OwnRefusal(reason)) => ReasonArrives(reason, answer)
    case Erred(Dispatch(reason)) => ReasonArrives(reason, answer)
    case Erred(Service(code, message)) =>
      if !Utf8.Valid(code) || !Utf8.Valid(message) then IsBadString(answer)
      else answer == Failed(Service(if code == [] then HANDLER_ERROR else code, message))
  }

  /** A known outcome, and a request its own codec encodes at the depth it stands at. */
  ghost predicate ResultIsEncodable<R>(c: Codec<R>, v: LookupResult<R>)
  {
    WireName(v.outcome).Some? && (v.request.Some? ==> c.encode(v.request.value, 3).Some?)
  }

  predicate IsBadString<T>(answer: Result<T>)
  {
    answer.Failed? && answer.failure.Refusal? && answer.failure.word == BadString
  }

  // ---- the words of the protocol are text ----

  lemma {:induction false} NamesAreText()
    ensures Utf8.Valid(RESOLVER) && Utf8.Valid(RESOLVE)
  {
    Utf8.AsciiIsValid(RESOLVER);
    Utf8.AsciiIsValid(RESOLVE);
  }

  lemma {:induction false} WordsAreAscii(w: Word)
    ensures IsAscii(WordText(w)) && WordText(w) != []
  {
  }

  lemma {:induction false} CodesAreText()
    ensures Utf8.Valid(HANDLER_ERROR) && Utf8.Valid(HANDLER_FAILED) && Utf8.Valid(INVALID_RESULT)
    ensures HANDLER_ERROR != [] && INVALID_RESULT != []
  {
    Utf8.AsciiIsValid(HANDLER_ERROR);
    Utf8.AsciiIsValid(HANDLER_FAILED);
    Utf8.AsciiIsValid(INVALID_RESULT);
  }

  // ---- replies ----

  lemma {:induction false} PayloadIsDelivered<R(!new)>(c: Codec<R>, f: Frame, payload: bytes)
    requires Contract(c) && Utf8.Valid(f.service) && Utf8.Valid(f.operation)
    requires BodyDecodes(c, KOpaque, payload, DOpaque(payload), 1)
    ensures var r := ServiceReply(c, f, payload, None);
            r.Success? && ServiceResponse(c, r.value, f.service, f.operation) == Success(payload)
  {
    ReplyDecodes(c, ReplyFor(f, payload, None));
  }

  lemma {:induction false} ErrorIsDelivered<R(!new)>(c: Codec<R>, f: Frame, e: Failure)
    requires Contract(c) && Utf8.Valid(f.service) && Utf8.Valid(f.operation)
    requires Utf8.Valid(ErrorOf(e).0) && Utf8.Valid(ErrorOf(e).1)
    ensures var r := ServiceReply(c, f, [], Some(e));
            && r.Success?
            && ServiceResponse(c, r.value, f.service, f.operation)
               == Failed(if ErrorOf(e).0 == [] then Dispatch(INVALID_ERROR) else Service(ErrorOf(e).0, ErrorOf(e).1))
  {
    ErrorDecodes(c, ErrorOf(e).0, ErrorOf(e).1);
    ReplyDecodes(c, ReplyFor(f, [], Some(e)));
  }

  /** All members but the last one decode. */
  ghost predicate AllButLastDecode<R(!new)>(c: Codec<R>, fields: seq<Field>, all: seq<Member>, xs: seq<Datum<R>>)
    requires Contract(c)
  {
    && Lists(fields, all) && |xs| == |all| - 1
    && forall i :: 0 <= i < |xs| ==> BodyDecodes(c, fields[i].kind, all[i].body, xs[i], 1)
  }

  lemma {:induction false} AllButLastPrint<R(!new)>(c: Codec<R>, fields: seq<Field>, all: seq<Member>, xs: seq<Datum<R>>)
    requires Contract(c) && Schema(fields) && AllButLastDecode(c, fields, all, xs)
    ensures var last := all[|xs|];
            && Printable(c, fields, all[..|xs|], xs, 1)
            && IsAscii(last.name) && FieldOf(fields, last.name) == Some(fields[|xs|])
            && forall i :: 0 <= i < |xs| ==> all[..|xs|][i].name != last.name
  {
    var ms := all[..|xs|];
    FieldOfAt(fields, |xs|);
    forall i | 0 <= i < |ms|
      ensures ms[i].name == fields[i].name && FieldOf(fields, ms[i].name) == Some(fields[i])
    {
      FieldOfAt(fields, i);
    }
  }

  /** A record whose last, opaque member is refused by the walker is refused with its word. */
  lemma {:induction false} LastIsRefused<R(!new)>(c: Codec<R>, fields: seq<Field>, all: seq<Member>, xs: seq<Datum<R>>, last: Member)
    requires Contract(c) && Schema(fields) && xs != [] && AllButLastDecode(c, fields, all, xs) && last == all[|xs|]
    requires fields[|xs|].kind == KOpaque && last.body != [] && !IsWs(last.body[0])
    requires SkipValue(last.body + Ending(), 1, DEPTH_LIMIT).Refused?
    ensures var r := Decode(c, KRecord(fields), ObjectText(all, 0, []), 0, DEPTH_LIMIT);
            r.Refused? && r.word == SkipValue(last.body + Ending(), 1, DEPTH_LIMIT).word
  {
    var none: map<bytes, Datum<R>> := map[];
    AllButLastPrint(c, fields, all, xs);
    assert all == all[..|xs|] + [last];
    MembersRefuse(c, fields, all[..|xs|], xs, last, 1, none, Ending());
    RefusedRecord(c, fields, all, Ending());
  }

  lemma {:induction false} RefusedRecord<R(!new)>(c: Codec<R>, fields: seq<Field>, all: seq<Member>, close: bytes)
    requires Contract(c) && all != [] && IsAscii(all[0].name) && all[0].body != [] && !IsWs(all[0].body[0])
    requires close == Ending()
    ensures Decode(c, KRecord(fields), ObjectText(all, 0, []), 0, DEPTH_LIMIT)
            == DecodeMembers(c, fields, MembersText(all, 1, close), 1, DEPTH_LIMIT, map[])
  {
    MembersTextStarts(all, 1, close);
    RecordOpens(c, fields, MembersText(all, 1, close), 0, DEPTH_LIMIT);
  }

  /** What closes a record at depth zero. */
  function Ending(): bytes { Indent(0) + ([RBRACE] + []) }

  /** An error that is no UTF-8 never reaches the wire. */
  lemma {:induction false} BadErrorIsRefused<R(!new)>(c: Codec<R>, f: Frame, e: Failure)
    requires Contract(c) && Utf8.Valid(f.service) && Utf8.Valid(f.operation)
    requires !Utf8.Valid(ErrorOf(e).0) || !Utf8.Valid(ErrorOf(e).1)
    ensures IsBadString(ServiceReply(c, f, [], Some(e)))
  {
    ErrorTextIsRefused(ErrorOf(e).0, ErrorOf(e).1, Ending());
    var v := ReplyFor(f, [], Some(e));
    ReplySchema();
    FirstOfReplyDecode(c, v);
    LastIsRefused(c, REPLY_FIELDS, ReplyMembers(v), ReplyData<R>(v)[..4], Member(PAYLOAD, v.payload));
  }

  lemma {:induction false} FirstOfReplyDecode<R(!new)>(c: Codec<R>, v: Reply)
    requires Contract(c) && v.version == 1 && Utf8.Valid(v.service) && Utf8.Valid(v.operation)
    ensures AllButLastDecode(c, REPLY_FIELDS, ReplyMembers(v), ReplyData(v)[..4])
  {
    IntDecodes(c, 1, 1);
    TextDecodes(c, v.service, 1);
    TextDecodes(c, v.operation, 1);
    FlagDecodes(c, v.ok, 1);
  }

  lemma {:induction false} ErrorTextIsRefused(code: bytes, message: bytes, rest: bytes)
    requires !Utf8.Valid(code) || !Utf8.Valid(message)
    ensures var r := SkipValue(ErrorText(code, message, 1) + rest, 1, DEPTH_LIMIT); r.Refused? && r.word == BadString
  {
    var ms, vs := ErrorMembers(code, message), [code, message];
    assert TextMembers(ms, vs) by {
      ErrorSchema();
      assert ms[0].name == ERROR_FIELDS[0].name && ms[1].name == ERROR_FIELDS[1].name;
    }
    assert !Utf8.Valid(vs[0]) || !Utf8.Valid(vs[1]);
    BadObjectIsRefused(ms, vs, 1, DEPTH_LIMIT, rest);
    ObjectAppends(ms, 1, rest);
  }

  // ---- requests ----

  lemma {:induction false} BadArgumentsAreRefused(v: Ref, rest: bytes)
    requires !RefIsUtf8(v)
    ensures var r := SkipValue(ArgumentsText(v, 1) + rest, 1, DEPTH_LIMIT); r.Refused? && r.word == BadString
  {
    var m := Member(REF, RefText(v, 2, []));
    var close := Indent(1) + ([RBRACE] + rest);
    ObjectAppends([m], 1, rest);
    NameWalked(m, 2, close, {});
    ObjectAppends(RefMembers(v), 2, close);
    BadRefIsRefused(v, 2, DEPTH_LIMIT, close);
    NameDecodes(m, 2, close);
    ObjectOpens(MemberText(m, 2, close), 1, DEPTH_LIMIT);
  }

  lemma {:induction false} FirstOfFrameDecode<R(!new)>(c: Codec<R>, f: Frame)
    requires Contract(c) && f.version == 1 && Utf8.Valid(f.service) && Utf8.Valid(f.operation)
    ensures AllButLastDecode(c, FRAME_FIELDS, FrameMembers(f), FrameData(f)[..3])
  {
    IntDecodes(c, 1, 1);
    TextDecodes(c, f.service, 1);
    TextDecodes(c, f.operation, 1);
  }

  /** A reference that is no UTF-8 is refused by the client itself: whatever the
      transport, nothing is exchanged. */
  lemma {:induction false} BadRefIsNeverSent<R(!new)>(c: Codec<R>, ref: Ref, transport: bytes --> Result<bytes>)
    requires Contract(c) && (forall frame: bytes :: transport.requires(frame)) && !RefIsUtf8(ref)
    ensures ServicePayload(c, FrameText(RequestFor(ref), 0)).Failed?
    ensures IsBadString(Resolve(c, ref, transport))
  {
    BadFrameIsRefused(c, ref);
  }

  lemma {:induction false} BadPayloadIsRefused<R(!new)>(c: Codec<R>, f: Frame)
    requires Contract(c) && f.version == 1 && Utf8.Valid(f.service) && Utf8.Valid(f.operation)
    requires f.arguments != [] && !IsWs(f.arguments[0])
    requires var r := SkipValue(f.arguments + Ending(), 1, DEPTH_LIMIT); r.Refused? && r.word == BadString
    ensures IsBadString(ServicePayload(c, FrameText(f, 0)))
  {
    FrameSchema();
    FirstOfFrameDecode(c, f);
    LastIsRefused(c, FRAME_FIELDS, FrameMembers(f), FrameData<R>(f)[..3], Member(ARGUMENTS, f.arguments));
  }

  lemma {:induction false} RequestIsFrame(ref: Ref)
    ensures var f := RequestFor(ref);
            && f.version == 1 && Utf8.Valid(f.service) && Utf8.Valid(f.operation)
            && f.arguments == ArgumentsText(ref, 1) && f.arguments != [] && !IsWs(f.arguments[0])
  {
    NamesAreText();
  }

  lemma {:induction false} BadFrameIsRefused<R(!new)>(c: Codec<R>, ref: Ref)
    requires Contract(c) && !RefIsUtf8(ref)
    ensures IsBadString(ServicePayload(c, FrameText(RequestFor(ref), 0)))
  {
    var f := RequestFor(ref);
    BadArgumentsAreRefused(ref, Ending());
    RequestIsFrame(ref);
    BadPayloadIsRefused(c, f);
  }

  // ---- the whole call ----

  /** The dispatcher hands the handler exactly the reference the client was given. */
  lemma {:induction false} HandlerSeesRef<R(!new)>(c: Codec<R>, ref: Ref, handler: Ref -> Handled<R>, describe: bytes -> Result<bytes>)
    requires Contract(c) && RefIsUtf8(ref)
    ensures var f := RequestFor(ref);
            && ServicePayload(c, FrameText(f, 0)) == Success(f)
            && Exchange(c, handler, describe, FrameText(f, 0))
               == match Invoke(c, handler(ref))
                  case Failed(e) => ServiceReply(c, f, [], Some(e))
                  case Success(payload) => ServiceReply(c, f, payload, None)
  {
    var f := RequestFor(ref);
    NamesAreText();
    ArgumentsDecode(c, ref);
    FrameDecodes(c, f);
    assert |RESOLVER| == 28 && |ENDPOINT| == 29;
  }

  /** The call seen from the caller: the reply to what the handler came to, read. */
  lemma {:induction false} CallIsAnswered<R(!new)>(c: Codec<R>, ref: Ref, handler: Ref -> Handled<R>, describe: bytes -> Result<bytes>)
    requires Contract(c) && RefIsUtf8(ref)
    ensures Resolve(c, ref, frame requires Contract(c) => Exchange(c, handler, describe, frame))
            == match Invoke(c, handler(ref))
               case Failed(e) => ReadAnswer(c, ServiceReply(c, RequestFor(ref), [], Some(e)))
               case Success(payload) => ReadAnswer(c, ServiceReply(c, RequestFor(ref), payload, None))
  {
    HandlerSeesRef(c, ref, handler, describe);
  }

  /** What the caller gets for an error a call goes out under. */
  ghost predicate Arrives<R>(e: Failure, answer: Result<LookupResult<R>>)
  {
    var code, message := ErrorOf(e).0, ErrorOf(e).1;
    if !Utf8.Valid(code) || !Utf8.Valid(message) then IsBadString(answer)
    else answer == Failed(if code == [] then Dispatch(INVALID_ERROR) else Service(code, message))
  }

  lemma {:induction false} AnswerFails<R(!new)>(c: Codec<R>, answer: Result<bytes>, e: Failure)
    requires Contract(c) && answer.Success? && ServiceResponse(c, answer.value, RESOLVER, RESOLVE) == Failed(e)
    ensures ReadAnswer(c, answer) == Failed(e)
  {
  }

  /** An error goes through the reply envelope under its code, or not at all. */
  lemma {:induction false} ErrorArrives<R(!new)>(c: Codec<R>, ref: Ref, e: Failure)
    requires Contract(c)
    ensures Arrives(e, ReadAnswer(c, ServiceReply(c, RequestFor(ref), [], Some(e))))
  {
    var f := RequestFor(ref);
    var code, message := ErrorOf(e).0, ErrorOf(e).1;
    NamesAreText();
    if Utf8.Valid(code) && Utf8.Valid(message) {
      ErrorIsDelivered(c, f, e);
      AnswerFails(c, ServiceReply(c, f, [], Some(e)), if code == [] then Dispatch(INVALID_ERROR) else Service(code, message));
    } else {
      BadErrorIsRefused(c, f, e);
    }
  }

  lemma {:induction false} AnswerSucceeds<R(!new)>(c: Codec<R>, answer: Result<bytes>, payload: bytes, v: LookupResult<R>)
    requires Contract(c) && answer.Success? && ServiceResponse(c, answer.value, RESOLVER, RESOLVE) == Success(payload)
    requires Whole(c, RESULT_FIELDS, payload, 1).Success? && AsLookup(RecordAt(Whole(c, RESULT_FIELDS, payload, 1).value, VALUE)) == v
    ensures ReadAnswer(c, answer) == Success(v)
  {
  }

  lemma {:induction false} ResultIsPayload<R(!new)>(c: Codec<R>, v: LookupResult<R>)
    requires Contract(c) && ResultIsEncodable(c, v)
    ensures ResultText(c, v, 1).Some? && Invoke(c, Returned(v)) == Success(ResultText(c, v, 1).value)
  {
    ResultDecodes(c, v);
  }

  lemma {:induction false} ResultArrives<R(!new)>(c: Codec<R>, ref: Ref, v: LookupResult<R>)
    requires Contract(c) && ResultIsEncodable(c, v)
    ensures Invoke(c, Returned(v)).Success?
    ensures ReadAnswer(c, ServiceReply(c, RequestFor(ref), Invoke(c, Returned(v)).value, None)) == Success(v)
  {
    NamesAreText();
    ResultIsPayload(c, v);
    var payload := Invoke(c, Returned(v)).value;
    ResultDecodes(c, v);
    PayloadIsDelivered(c, RequestFor(ref), payload);
    AnswerSucceeds(c, ServiceReply(c, RequestFor(ref), payload, None), payload, v);
  }

  /** A handler's own error arrives as Delivered says. */
  lemma {:induction false} ErredIsDelivered<R>(c: Codec<R>, e: Failure, answer: Result<LookupResult<R>>)
    requires Arrives(e, answer)
    ensures Delivered(c, Erred(e), answer)
  {
    CodesAreText();
    match e
    case Refusal(w, _) =>
      WordsAreAscii(w);
      Utf8.AsciiIsValid(WordText(w));
    case _ =>
  }

  /** An error of text with a code arrives as it is. */
  lemma {:induction false} TextErrorArrives<R>(code: bytes, message: bytes, answer: Result<LookupResult<R>>)
    requires Utf8.Valid(code) && Utf8.Valid(message) && code != []
    requires Arrives(Service(code, message), answer)
    ensures answer == Failed(Service(code, message))
  {
  }

  lemma {:induction false} FailureIsDelivered<R(!new)>(c: Codec<R>, h: Handled<R>, answer: Result<LookupResult<R>>)
    requires Contract(c) && Invoke(c, h).Failed? && !(h.Returned? && ResultIsEncodable(c, h.result))
    requires Arrives(Invoke(c, h).failure, answer)
    ensures Delivered(c, h, answer)
  {
    if h.Erred? {
      ErredIsDelivered(c, h.failure, answer);
    } else {
      CodesAreText();
      var e := Invoke(c, h).failure;
      TextErrorArrives(e.code, e.message, answer);
    }
  }

  lemma {:induction false} UnencodableFails<R(!new)>(c: Codec<R>, h: Handled<R>)
    requires Contract(c) && !(h.Returned? && ResultIsEncodable(c, h.result))
    ensures Invoke(c, h).Failed?
  {
  }

  /** For every well-formed reference and every handler, the caller gets what
      the handler came to: its result unchanged, its error under its code, and a
      refusal only where a text was no UTF-8. */
  lemma {:induction false} ResolveDelivers<R(!new)>(c: Codec<R>, ref: Ref, handler: Ref -> Handled<R>, describe: bytes -> Result<bytes>)
    requires Contract(c) && RefIsUtf8(ref)
    ensures Delivered(c, handler(ref), Resolve(c, ref, frame requires Contract(c) => Exchange(c, handler, describe, frame)))
  {
    CallIsAnswered(c, ref, handler, describe);
    var h := handler(ref);
    if h.Returned? && ResultIsEncodable(c, h.result) {
      ResultArrives(c, ref, h.result);
    } else {
      UnencodableFails(c, h);
      ErrorArrives(c, ref, Invoke(c, h).failure);
      FailureIsDelivered(c, h, ReadAnswer(c, ServiceReply(c, RequestFor(ref), [], Some(Invoke(c, h).failure))));
    }
  }
}
