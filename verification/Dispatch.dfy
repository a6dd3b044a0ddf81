/** What the dispatcher answers to any frame whatever, and what a client makes of any
    reply: not only those that this codec's own client and dispatcher print. */
module Dispatches {
  import opened Bytes
  import opened Records
  import opened Encode
  import opened Messages
  import opened Envelope
  import opened Rpc
  import Utf8

  // ---- decoded texts are text ----

  ghost predicate AllTexts<R>(m: map<bytes, Datum<R>>)
  {
    forall name :: name in m && m[name].DText? ==> Utf8.Valid(m[name].text)
  }

  lemma {:induction false} ValueIsText<R(!new)>(c: Codec<R>, k: Kind, s: bytes, d: int, lim: int)
    requires Contract(c) && 0 <= d && 1 <= lim <= DEPTH_LIMIT && Decode(c, k, s, d, lim).Ok?
    ensures var x := Decode(c, k, s, d, lim).value; x.DText? ==> Utf8.Valid(x.text)
  {
    if k.KRecord? {
      DecodesToRecord(c, k.fields, s, d, lim);
    }
  }

  lemma {:induction false} MembersAreText<R(!new)>(c: Codec<R>, fields: seq<Field>, s: bytes, d: int, lim: int, m: map<bytes, Datum<R>>)
    requires Contract(c) && 0 <= d && 1 <= lim <= DEPTH_LIMIT && AllTexts(m)
    requires DecodeMembers(c, fields, s, d, lim, m).Ok?
    ensures var x := DecodeMembers(c, fields, s, d, lim, m).value; x.DRecord? && AllTexts(x.fields)
    decreases |s|
  {
    var name, t := MemberName(Ws(s)).value, MemberName(Ws(s)).rest;
    var k := FieldOf(fields, name).value.kind;
    ValueIsText(c, k, t, d, lim);
    var m', u := DecodeMember(c, fields, s, d, lim, m).value, DecodeMember(c, fields, s, d, lim, m).rest;
    assert m' == m[name := Decode(c, k, t, d, lim).value];
    if At(u) == COMMA {
      MembersAreText(c, fields, u[1..], d, lim, m');
    }
  }

  lemma {:induction false} WholeIsText<R(!new)>(c: Codec<R>, fields: seq<Field>, buf: bytes, d: int)
    requires Contract(c) && 0 <= d && Whole(c, fields, buf, d).Success?
    ensures AllTexts(Whole(c, fields, buf, d).value)
  {
    var s := Ws(buf);
    var t := Ws(s[1..]);
    var none: map<bytes, Datum<R>> := map[];
    if At(t) != RBRACE {
      MembersAreText(c, fields, t, d + 1, DEPTH_LIMIT, none);
    }
  }

  lemma {:induction false} FrameIsText<R(!new)>(c: Codec<R>, frame: bytes)
    requires Contract(c) && ServicePayload(c, frame).Success?
    ensures var f := ServicePayload(c, frame).value; Utf8.Valid(f.service) && Utf8.Valid(f.operation)
  {
    WholeIsText(c, FRAME_FIELDS, frame, 0);
    assert Utf8.Valid([]);
  }

  // ---- the dispatcher's answers ----

  /** A reply that the caller of f reads as this error, without a message. */
  ghost predicate Answers<R(!new)>(c: Codec<R>, f: Frame, answer: Result<bytes>, code: bytes)
    requires Contract(c)
  {
    answer.Success? && ServiceResponse(c, answer.value, f.service, f.operation) == Failed(Service(code, []))
  }

  lemma {:induction false} CodeIsAnswered<R(!new)>(c: Codec<R>, f: Frame, e: Failure, code: bytes)
    requires Contract(c) && Utf8.Valid(f.service) && Utf8.Valid(f.operation)
    requires ErrorOf(e) == (code, []) && IsAscii(code) && code != []
    ensures Answers(c, f, ServiceReply(c, f, [], Some(e)), code)
  {
    Utf8.AsciiIsValid(code);
    assert Utf8.Valid([]);
    ErrorIsDelivered(c, f, e);
  }

  lemma {:induction false} WholeRefuses<R(!new)>(c: Codec<R>, fields: seq<Field>, buf: bytes, d: int)
    requires Contract(c) && 0 <= d && Whole(c, fields, buf, d).Failed?
    ensures Whole(c, fields, buf, d).failure.Refusal?
  {
  }

  /** The reply to a call depends on its frame only by service and method. */
  lemma {:induction false} ReplyIsToCall<R(!new)>(c: Codec<R>, f: Frame, ref: Ref, payload: bytes, err: Option<Failure>)
    requires Contract(c) && f.service == RESOLVER && f.operation == RESOLVE
    ensures ServiceReply(c, f, payload, err) == ServiceReply(c, RequestFor(ref), payload, err)
  {
  }

  /** A frame of the resolver's own method with arguments that decode, whoever wrote it
      and however it is laid out: the handler is called with the decoded reference, and
      the caller reads what it came to. */
  lemma {:induction false} CallIsHandled<R(!new)>(
      c: Codec<R>, f: Frame, handler: Ref -> Handled<R>, ref: Ref, answer: Result<bytes>)
    requires Contract(c) && f.service == RESOLVER && f.operation == RESOLVE
    requires answer == match Invoke(c, handler(ref))
                       case Failed(e) => ServiceReply(c, f, [], Some(e))
                       case Success(payload) => ServiceReply(c, f, payload, None)
    ensures Delivered(c, handler(ref), ReadAnswer(c, answer))
  {
    var h := handler(ref);
    if h.Returned? && ResultIsEncodable(c, h.result) {
      ResultArrives(c, ref, h.result);
      ReplyIsToCall(c, f, ref, Invoke(c, h).value, None);
    } else {
      UnencodableFails(c, h);
      var e := Invoke(c, h).failure;
      ReplyIsToCall(c, f, ref, [], Some(e));
      ErrorArrives(c, ref, e);
      FailureIsDelivered(c, h, ReadAnswer(c, answer));
    }
  }

  /** What the dispatcher answers to a frame it has read as f. */
  ghost predicate Dispatched<R(!new)>(
      c: Codec<R>, handler: Ref -> Handled<R>, describe: bytes -> Result<bytes>, frame: bytes, f: Frame, answer: Result<bytes>)
    requires Contract(c)
  {
    if f.service == ENDPOINT then answer == describe(frame)
    else if f.service != RESOLVER then Answers(c, f, answer, UNKNOWN_SERVICE)
    else if f.operation != RESOLVE then Answers(c, f, answer, UNKNOWN_METHOD)
    else
      match Whole(c, ARGUMENT_FIELDS, f.arguments, 1)
      case Failed(e) => e.Refusal? && Answers(c, f, answer, WordText(e.word))
      case Success(m) => Delivered(c, handler(AsRef(RecordAt(m, REF))), ReadAnswer(c, answer))
  }

  /** Over all frames: one that cannot be read is not answered; the endpoint's own
      service is described; another service, another method and arguments that are
      refused are answered with their code, which the caller reads; and a call of the
      resolver's method delivers what the handler comes to on the decoded reference. */
  lemma {:induction false} ExchangeAnswers<R(!new)>(
      c: Codec<R>, handler: Ref -> Handled<R>, describe: bytes -> Result<bytes>, frame: bytes)
    requires Contract(c)
    ensures var answer := Exchange(c, handler, describe, frame);
            match ServicePayload(c, frame)
            case Failed(e) => answer == Failed(e)
            case Success(f) => Dispatched(c, handler, describe, frame, f, answer)
  {
    var answer := Exchange(c, handler, describe, frame);
    if ServicePayload(c, frame).Success? {
      var f := ServicePayload(c, frame).value;
      FrameIsText(c, frame);
      if f.service == ENDPOINT {
      } else if f.service != RESOLVER {
        CodeIsAnswered(c, f, Dispatch(UNKNOWN_SERVICE), UNKNOWN_SERVICE);
      } else if f.operation != RESOLVE {
        CodeIsAnswered(c, f, Dispatch(UNKNOWN_METHOD), UNKNOWN_METHOD);
      } else if Whole(c, ARGUMENT_FIELDS, f.arguments, 1).Failed? {
        WholeRefuses(c, ARGUMENT_FIELDS, f.arguments, 1);
        var e := Whole(c, ARGUMENT_FIELDS, f.arguments, 1).failure;
        WordsAreAscii(e.word);
        CodeIsAnswered(c, f, e, WordText(e.word));
      } else {
        var m := Whole(c, ARGUMENT_FIELDS, f.arguments, 1).value;
        CallIsHandled(c, f, handler, AsRef(RecordAt(m, REF)), answer);
      }
    }
  }

  // ---- what may follow a record ----

  /** A printed record is the whole of a buffer exactly when nothing but white space
      follows it; else the first byte after that is refused. */
  lemma {:induction false} NothingFollows<R(!new)>(
      c: Codec<R>, fields: seq<Field>, ms: seq<Member>, xs: seq<Datum<R>>, d: int, tail: bytes)
    requires Contract(c) && 0 <= d < DEPTH_LIMIT && Schema(fields) && Lists(fields, ms) && AllDecode(c, fields, ms, xs, d + 1)
    ensures var text := ObjectText(ms, d, []);
            Whole(c, fields, text + tail, d)
            == if Ws(tail) == [] then Success(RecordOf(ms, xs))
               else Failed(Refusal(TrailingBytes, |text| + |tail| - |Ws(tail)|))
  {
    var text := ObjectText(ms, d, []);
    RecordDecodesBefore(c, fields, ms, xs, d, tail);
    assert (text + tail)[0] == text[0] == LBRACE;
  }

  // ---- the client's reading of a reply ----

  predicate ReadAs(f: Reply, service: bytes, operation: bytes, r: Result<bytes>)
  {
    if f.version != 1 then r == Failed(Dispatch(UNKNOWN_VERSION))
    else if f.service != service || f.operation != operation then r == Failed(Dispatch(MISMATCHED_RESPONSE))
    else f.ok ==> r == Success(f.payload)
  }

  /** Over all replies an endpoint may print, of any version, to any call and with any
      payload the walker accepts: the client refuses another version first, then a reply
      to another call, and gives out the payload of one that is ok. */
  lemma {:induction false} ReplyIsRead<R(!new)>(c: Codec<R>, f: Reply, service: bytes, operation: bytes)
    requires Contract(c) && IsInt32(f.version) && Utf8.Valid(f.service) && Utf8.Valid(f.operation)
    requires BodyDecodes(c, KOpaque, f.payload, DOpaque(f.payload), 1)
    ensures ReadAs(f, service, operation, ServiceResponse(c, ReplyText(f, 0), service, operation))
  {
    ReplyDecodes(c, f);
  }

  /** A reply that is not ok carries an error, which must have a code. */
  lemma {:induction false} ErrorIsRead<R(!new)>(c: Codec<R>, f: Reply, code: bytes, message: bytes)
    requires Contract(c) && f.version == 1 && Utf8.Valid(f.service) && Utf8.Valid(f.operation)
    requires !f.ok && f.payload == ErrorText(code, message, 1) && Utf8.Valid(code) && Utf8.Valid(message)
    ensures ServiceResponse(c, ReplyText(f, 0), f.service, f.operation)
            == Failed(if code == [] then Dispatch(INVALID_ERROR) else Service(code, message))
  {
    ErrorDecodes(c, code, message);
    ReplyDecodes(c, f);
  }

  /** Over all frames a client may print: one of another version is not dispatched. */
  lemma {:induction false} OtherVersionIsRefused<R(!new)>(
      c: Codec<R>, handler: Ref -> Handled<R>, describe: bytes -> Result<bytes>, f: Frame)
    requires Contract(c) && IsInt32(f.version) && Utf8.Valid(f.service) && Utf8.Valid(f.operation)
    requires BodyDecodes(c, KOpaque, f.arguments, DOpaque(f.arguments), 1)
    ensures if f.version != 1 then Exchange(c, handler, describe, FrameText(f, 0)) == Failed(Dispatch(UNKNOWN_VERSION))
            else Dispatched(c, handler, describe, FrameText(f, 0), f, Exchange(c, handler, describe, FrameText(f, 0)))
  {
    FrameDecodes(c, f);
    ExchangeAnswers(c, handler, describe, FrameText(f, 0));
  }
}
