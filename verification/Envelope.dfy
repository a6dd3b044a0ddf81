/** The request and reply envelope of the resolver service: client, dispatcher
    and handler put together, over already encoded bytes spliced in verbatim. */
module Envelope {
  import opened Bytes
  import opened Text
  import opened Numbers
  import opened Records
  import opened Encode
  import opened Messages
  import Utf8

  // ---- records ----

  datatype LookupResult<R> = LookupResult(outcome: nat, request: Option<R>)
  datatype Frame = Frame(version: int, service: bytes, operation: bytes, arguments: bytes)
  datatype Reply = Reply(version: int, service: bytes, operation: bytes, ok: bool, payload: bytes)

  const OUTCOME: bytes := Ascii("outcome")
  const REQUEST: bytes := Ascii("request")
  const REF: bytes := Ascii("ref")
  const VALUE: bytes := Ascii("value")
  const VERSION: bytes := Ascii("version")
  const SERVICE: bytes := Ascii("service")
  const METHOD: bytes := Ascii("method")
  const ARGUMENTS: bytes := Ascii("arguments")
  const OK: bytes := Ascii("ok")
  const PAYLOAD: bytes := Ascii("payload")
  const CODE: bytes := Ascii("code")
  const MESSAGE: bytes := Ascii("message")

  const LOOKUP_FIELDS: seq<Field> := [Field(OUTCOME, KOutcome, true), Field(REQUEST, KRequest, false)]
  const ARGUMENT_FIELDS: seq<Field> := [Field(REF, KRecord(REF_FIELDS), true)]
  const RESULT_FIELDS: seq<Field> := [Field(VALUE, KRecord(LOOKUP_FIELDS), true)]
  const FRAME_FIELDS: seq<Field> := [
    Field(VERSION, KInt32, true), Field(SERVICE, KText, true), Field(METHOD, KText, true), Field(ARGUMENTS, KOpaque, true)]
  const REPLY_FIELDS: seq<Field> := [
    Field(VERSION, KInt32, true), Field(SERVICE, KText, true), Field(METHOD, KText, true), Field(OK, KFlag, true),
    Field(PAYLOAD, KOpaque, true)]
  const ERROR_FIELDS: seq<Field> := [Field(CODE, KText, true), Field(MESSAGE, KText, true)]

  const LOOKUP_TAGS: seq<int> := [7 * 256 + 0x65, 7 * 256 + 0x74]

  lemma {:induction false} LookupTag(i: nat)
    requires i < |LOOKUP_FIELDS|
    ensures IsAscii(LOOKUP_FIELDS[i].name) && Tag(LOOKUP_FIELDS[i].name) == LOOKUP_TAGS[i]
  {
  }

  lemma {:induction false} LookupSchema()
    ensures Schema(LOOKUP_FIELDS)
  {
    forall i | 0 <= i < |LOOKUP_FIELDS| ensures IsAscii(LOOKUP_FIELDS[i].name) && Tag(LOOKUP_FIELDS[i].name) == LOOKUP_TAGS[i] {
      LookupTag(i);
    }
    TagsMakeSchema(LOOKUP_FIELDS, LOOKUP_TAGS);
  }

  const FRAME_TAGS: seq<int> := [7 * 256 + 0x6E, 7 * 256 + 0x65, 6 * 256 + 0x64, 9 * 256 + 0x73]

  lemma {:induction false} FrameTag(i: nat)
    requires i < |FRAME_FIELDS|
    ensures IsAscii(FRAME_FIELDS[i].name) && Tag(FRAME_FIELDS[i].name) == FRAME_TAGS[i]
  {
  }

  lemma {:induction false} FrameSchema()
    ensures Schema(FRAME_FIELDS)
  {
    forall i | 0 <= i < |FRAME_FIELDS| ensures IsAscii(FRAME_FIELDS[i].name) && Tag(FRAME_FIELDS[i].name) == FRAME_TAGS[i] {
      FrameTag(i);
    }
    TagsMakeSchema(FRAME_FIELDS, FRAME_TAGS);
  }

  const REPLY_TAGS: seq<int> := [7 * 256 + 0x6E, 7 * 256 + 0x65, 6 * 256 + 0x64, 2 * 256 + 0x6B, 7 * 256 + 0x64]

  lemma {:induction false} ReplyTag(i: nat)
    requires i < |REPLY_FIELDS|
    ensures IsAscii(REPLY_FIELDS[i].name) && Tag(REPLY_FIELDS[i].name) == REPLY_TAGS[i]
  {
  }

  lemma {:induction false} ReplySchema()
    ensures Schema(REPLY_FIELDS)
  {
    forall i | 0 <= i < |REPLY_FIELDS| ensures IsAscii(REPLY_FIELDS[i].name) && Tag(REPLY_FIELDS[i].name) == REPLY_TAGS[i] {
      ReplyTag(i);
    }
    TagsMakeSchema(REPLY_FIELDS, REPLY_TAGS);
  }

  const ERROR_TAGS: seq<int> := [4 * 256 + 0x65, 7 * 256 + 0x65]

  lemma {:induction false} ErrorTag(i: nat)
    requires i < |ERROR_FIELDS|
    ensures IsAscii(ERROR_FIELDS[i].name) && Tag(ERROR_FIELDS[i].name) == ERROR_TAGS[i]
  {
  }

  lemma {:induction false} ErrorSchema()
    ensures Schema(ERROR_FIELDS)
  {
    forall i | 0 <= i < |ERROR_FIELDS| ensures IsAscii(ERROR_FIELDS[i].name) && Tag(ERROR_FIELDS[i].name) == ERROR_TAGS[i] {
      ErrorTag(i);
    }
    TagsMakeSchema(ERROR_FIELDS, ERROR_TAGS);
  }

  lemma {:induction false} SingleSchemas()
    ensures Schema(ARGUMENT_FIELDS) && Schema(RESULT_FIELDS)
  {
  }

  // ---- printing ----

  function ArgumentsText(v: Ref, d: int): bytes { ObjectText([Member(REF, RefText(v, d + 1, []))], d, []) }

  /** None when encoding panics with a refusal: an outcome without a word, or a
      request its own codec refuses. */
  function LookupText<R>(c: Codec<R>, v: LookupResult<R>, d: int): Option<bytes>
  {
    match WireName(v.outcome)
    case None => None
    case Some(word) =>
      match v.request
      case None => Some(ObjectText([Member(OUTCOME, Quoted(word, []))], d, []))
      case Some(r) =>
        match c.encode(r, d + 1)
        case None => None
        case Some(body) => Some(ObjectText([Member(OUTCOME, Quoted(word, [])), Member(REQUEST, body)], d, []))
  }

  function ResultText<R>(c: Codec<R>, v: LookupResult<R>, d: int): Option<bytes>
  {
    match LookupText(c, v, d + 1) case None => None case Some(body) => Some(ObjectText([Member(VALUE, body)], d, []))
  }

  function FrameMembers(f: Frame): seq<Member>
  {
    [Member(VERSION, NumText(f.version, [])), Member(SERVICE, Quoted(f.service, [])),
     Member(METHOD, Quoted(f.operation, [])), Member(ARGUMENTS, f.arguments)]
  }

  function FrameText(f: Frame, d: int): bytes { ObjectText(FrameMembers(f), d, []) }

  function ReplyMembers(f: Reply): seq<Member>
  {
    [Member(VERSION, NumText(f.version, [])), Member(SERVICE, Quoted(f.service, [])),
     Member(METHOD, Quoted(f.operation, [])), Member(OK, FlagText(f.ok)), Member(PAYLOAD, f.payload)]
  }

  function ReplyText(f: Reply, d: int): bytes { ObjectText(ReplyMembers(f), d, []) }

  function ErrorMembers(code: bytes, message: bytes): seq<Member>
  {
    [Member(CODE, Quoted(code, [])), Member(MESSAGE, Quoted(message, []))]
  }

  function ErrorText(code: bytes, message: bytes, d: int): bytes { ObjectText(ErrorMembers(code, message), d, []) }

  // ---- decoded records ----

  function IntAt<R>(m: map<bytes, Datum<R>>, name: bytes): int { if name in m && m[name].DInt? then m[name].n else 0 }

  function FlagAt<R>(m: map<bytes, Datum<R>>, name: bytes): bool { name in m && m[name].DFlag? && m[name].b }

  function OpaqueAt<R>(m: map<bytes, Datum<R>>, name: bytes): bytes { if name in m && m[name].DOpaque? then m[name].raw else [] }

  function RecordAt<R>(m: map<bytes, Datum<R>>, name: bytes): map<bytes, Datum<R>>
  {
    if name in m && m[name].DRecord? then m[name].fields else map[]
  }

  function Fields<R>(x: Datum<R>): map<bytes, Datum<R>> { if x.DRecord? then x.fields else map[] }

  function AsFrame<R>(m: map<bytes, Datum<R>>): Frame
  {
    Frame(IntAt(m, VERSION), TextAt(m, SERVICE), TextAt(m, METHOD), OpaqueAt(m, ARGUMENTS))
  }

  function AsReply<R>(m: map<bytes, Datum<R>>): Reply
  {
    Reply(IntAt(m, VERSION), TextAt(m, SERVICE), TextAt(m, METHOD), FlagAt(m, OK), OpaqueAt(m, PAYLOAD))
  }

  function AsLookup<R>(m: map<bytes, Datum<R>>): LookupResult<R>
  {
    LookupResult(if OUTCOME in m && m[OUTCOME].DOutcome? then m[OUTCOME].tag else 0,
                 if REQUEST in m && m[REQUEST].DRequest? then Some(m[REQUEST].request) else None)
  }

  // ---- the protocol ----

  /** Refusal is the codec's own; OwnRefusal is one a handler made up, which may carry
      any word. */
  datatype Failure =
    | Refusal(word: Word, offset: int) | OwnRefusal(reason: bytes)
    | Dispatch(reason: bytes) | Service(code: bytes, message: bytes) | Other
  datatype Result<+T> = Success(value: T) | Failed(failure: Failure)

  const RESOLVER: bytes := Ascii("abstraction.model/resolver@1")
  const ENDPOINT: bytes := Ascii("abstraction.facade/endpoint@1")
  const RESOLVE: bytes := Ascii("Resolve")
  const HANDLER_ERROR: bytes := Ascii("handler_error")
  const HANDLER_FAILED: bytes := Ascii("handler failed")
  const INVALID_RESULT: bytes := Ascii("invalid_result")
  const INVALID_ERROR: bytes := Ascii("invalid_error")
  const UNKNOWN_VERSION: bytes := Ascii("unknown_version")
  const UNKNOWN_SERVICE: bytes := Ascii("unknown_service")
  const UNKNOWN_METHOD: bytes := Ascii("unknown_method")
  const MISMATCHED_RESPONSE: bytes := Ascii("mismatched_response")

  function WordText(w: Word): bytes
  {
    match w
    case Malformed => Ascii("malformed")
    case BadString => Ascii("bad_string")
    case NumberSpelling => Ascii("number_spelling")
    case WrongType => Ascii("wrong_type")
    case DepthExceeded => Ascii("depth_exceeded")
    case DuplicateKey => Ascii("duplicate_key")
    case DuplicateField => Ascii("duplicate_field")
    case UnknownField => Ascii("unknown_field")
    case MissingField => Ascii("missing_field")
    case BadEnum => Ascii("bad_enum")
    case TrailingBytes => Ascii("trailing_bytes")
  }

  /** A record at the front of a buffer, read from depth d, and what follows it. */
  function Front<R(!new)>(c: Codec<R>, fields: seq<Field>, buf: bytes, d: int): Result<(map<bytes, Datum<R>>, bytes)>
    requires Contract(c) && 0 <= d
  {
    match Decode(c, KRecord(fields), Ws(buf), d, DEPTH_LIMIT)
    case Refused(w, rest) => Failed(Refusal(w, |buf| - |rest|))
    case Ok(x, rest) => Success((Fields(x), rest))
  }

  /** A whole buffer read as one record from depth d: white space, the record,
      white space, and nothing after it. */
  function Whole<R(!new)>(c: Codec<R>, fields: seq<Field>, buf: bytes, d: int): Result<map<bytes, Datum<R>>>
    requires Contract(c) && 0 <= d
  {
    match Front(c, fields, buf, d)
    case Failed(e) => Failed(e)
    case Success((m, rest)) =>
      if Ws(rest) != [] then Failed(Refusal(TrailingBytes, |buf| - |Ws(rest)|)) else Success(m)
  }

  function ServicePayload<R(!new)>(c: Codec<R>, frame: bytes): Result<Frame>
    requires Contract(c)
  {
    match Whole(c, FRAME_FIELDS, frame, 0)
    case Failed(e) => Failed(e)
    case Success(m) => if AsFrame(m).version != 1 then Failed(Dispatch(UNKNOWN_VERSION)) else Success(AsFrame(m))
  }

  /** The code and message an error goes out under. */
  function ErrorOf(e: Failure): (bytes, bytes)
  {
    match e
    case Service(code, message) => (if code != [] then code else HANDLER_ERROR, message)
    case Dispatch(word) => (word, [])
    case Refusal(w, _) => (WordText(w), [])
    case OwnRefusal(word) => (word, [])
    case Other => (HANDLER_ERROR, HANDLER_FAILED)
  }

  function ReplyFor(f: Frame, payload: bytes, err: Option<Failure>): Reply
  {
    Reply(1, f.service, f.operation, err.None?,
          if err.None? then payload else ErrorText(ErrorOf(err.value).0, ErrorOf(err.value).1, 1))
  }

  /** The reply frame, checked before it is made visible. */
  function ServiceReply<R(!new)>(c: Codec<R>, f: Frame, payload: bytes, err: Option<Failure>): Result<bytes>
    requires Contract(c)
  {
    var frame := ReplyText(ReplyFor(f, payload, err), 0);
    match Front(c, REPLY_FIELDS, frame, 0) case Failed(e) => Failed(e) case Success(_) => Success(frame)
  }

  function ServiceResponse<R(!new)>(c: Codec<R>, frame: bytes, service: bytes, operation: bytes): Result<bytes>
    requires Contract(c)
  {
    match Whole(c, REPLY_FIELDS, frame, 0)
    case Failed(e) => Failed(e)
    case Success(m) =>
      var v := AsReply(m);
      if v.version != 1 then Failed(Dispatch(UNKNOWN_VERSION))
      else if v.service != service || v.operation != operation then Failed(Dispatch(MISMATCHED_RESPONSE))
      else if !v.ok then
        match Whole(c, ERROR_FIELDS, v.payload, 1)
        case Failed(e) => Failed(e)
        case Success(e) =>
          if TextAt(e, CODE) == [] then Failed(Dispatch(INVALID_ERROR))
          else Failed(Service(TextAt(e, CODE), TextAt(e, MESSAGE)))
      else Success(v.payload)
  }

  /** What a handler's call comes to: a result, an error, or a panic, which may
      carry a refusal of the codec. */
  datatype Handled<R> = Returned(result: LookupResult<R>) | Erred(failure: Failure) | Panicked(refusal: bool)

  /** The handler's call on decoded arguments: the payload, or the error. */
  function Invoke<R(!new)>(c: Codec<R>, handled: Handled<R>): Result<bytes>
    requires Contract(c)
  {
    match handled
    case Erred(e) => Failed(e)
    case Panicked(refusal) =>
      if refusal then Failed(Service(INVALID_RESULT, [])) else Failed(Service(HANDLER_ERROR, HANDLER_FAILED))
    case Returned(result) =>
      match ResultText(c, result, 1)
      case None => Failed(Service(INVALID_RESULT, []))
      case Some(payload) =>
        match Whole(c, RESULT_FIELDS, payload, 1)
        case Failed(_) => Failed(Service(INVALID_RESULT, []))
        case Success(_) => Success(payload)
  }

  /** The dispatcher: one request frame to one reply frame. describe answers the
      endpoint's own service. */
  function Exchange<R(!new)>(c: Codec<R>, handler: Ref -> Handled<R>, describe: bytes -> Result<bytes>, frame: bytes): Result<bytes>
    requires Contract(c)
  {
    match ServicePayload(c, frame)
    case Failed(e) => Failed(e)
    case Success(f) =>
      if f.service == ENDPOINT then describe(frame)
      else if f.service != RESOLVER then ServiceReply(c, f, [], Some(Dispatch(UNKNOWN_SERVICE)))
      else if f.operation != RESOLVE then ServiceReply(c, f, [], Some(Dispatch(UNKNOWN_METHOD)))
      else
        match Whole(c, ARGUMENT_FIELDS, f.arguments, 1)
        case Failed(e) => ServiceReply(c, f, [], Some(e))
        case Success(m) =>
          match Invoke(c, handler(AsRef(RecordAt(m, REF))))
          case Failed(e) => ServiceReply(c, f, [], Some(e))
          case Success(payload) => ServiceReply(c, f, payload, None)
  }

  /** The client's reading of what the exchange gave. */
  function ReadAnswer<R(!new)>(c: Codec<R>, answer: Result<bytes>): Result<LookupResult<R>>
    requires Contract(c)
  {
    match answer
    case Failed(e) => Failed(e)
    case Success(response) =>
      match ServiceResponse(c, response, RESOLVER, RESOLVE)
      case Failed(e) => Failed(e)
      case Success(payload) =>
        match Whole(c, RESULT_FIELDS, payload, 1)
        case Failed(e) => Failed(e)
        case Success(m) => Success(AsLookup(RecordAt(m, VALUE)))
  }

  function RequestFor(ref: Ref): Frame { Frame(1, RESOLVER, RESOLVE, ArgumentsText(ref, 1)) }

  /** The client: it encodes, checks its own frame, exchanges, and decodes. */
  function Resolve<R(!new)>(c: Codec<R>, ref: Ref, transport: bytes --> Result<bytes>): Result<LookupResult<R>>
    requires Contract(c) && forall frame: bytes :: transport.requires(frame)
  {
    var frame := FrameText(RequestFor(ref), 0);
    match ServicePayload(c, frame)
    case Failed(e) => Failed(e)
    case Success(_) => ReadAnswer(c, transport(frame))
  }

  // ---- what each record's round trip gives ----

  lemma {:induction false} WholeDecodes<R(!new)>(c: Codec<R>, fields: seq<Field>, ms: seq<Member>, xs: seq<Datum<R>>, d: int)
    requires Contract(c) && 0 <= d < DEPTH_LIMIT && Schema(fields) && Lists(fields, ms) && AllDecode(c, fields, ms, xs, d + 1)
    ensures Whole(c, fields, ObjectText(ms, d, []), d) == Success(RecordOf(ms, xs))
  {
    var buf := ObjectText(ms, d, []);
    RecordDecodesBefore(c, fields, ms, xs, d, []);
    assert buf + [] == buf && Ws(buf) == buf;
  }

  lemma {:induction false} PrintedWhole<R(!new)>(
    c: Codec<R>, fields: seq<Field>, ms: seq<Member>, xs: seq<Datum<R>>, d: int, text: bytes, m: map<bytes, Datum<R>>)
    requires Contract(c) && 0 <= d < DEPTH_LIMIT && Schema(fields) && Lists(fields, ms) && AllDecode(c, fields, ms, xs, d + 1)
    requires text == ObjectText(ms, d, []) && m == RecordOf(ms, xs)
    ensures Whole(c, fields, text, d) == Success(m)
  {
    WholeDecodes(c, fields, ms, xs, d);
  }

  lemma {:induction false} SingleMemberDecodes<R(!new)>(c: Codec<R>, fields: seq<Field>, m: Member, x: Datum<R>)
    requires Contract(c) && Schema(fields) && |fields| == 1 && fields[0].name == m.name
    requires BodyDecodes(c, fields[0].kind, m.body, x, 2)
    ensures var r := Whole(c, fields, ObjectText([m], 1, []), 1); r.Success? && m.name in r.value && r.value[m.name] == x
    ensures BodyDecodes(c, KOpaque, ObjectText([m], 1, []), DOpaque(ObjectText([m], 1, [])), 1)
  {
    var ms, xs := [m], [x];
    WholeDecodes(c, fields, ms, xs, 1);
    RecordHas(fields, ms, xs);
    RecordDecodes(c, fields, ms, xs, 1);
    OpaqueDecodes(c, KRecord(fields), ObjectText(ms, 1, []), DRecord(RecordOf(ms, xs)), 1);
  }

  lemma {:induction false} ArgumentsDecode<R(!new)>(c: Codec<R>, v: Ref)
    requires Contract(c) && RefIsUtf8(v)
    ensures Whole(c, ARGUMENT_FIELDS, ArgumentsText(v, 1), 1).Success?
    ensures AsRef(RecordAt(Whole(c, ARGUMENT_FIELDS, ArgumentsText(v, 1), 1).value, REF)) == v
    ensures BodyDecodes(c, KOpaque, ArgumentsText(v, 1), DOpaque(ArgumentsText(v, 1)), 1)
  {
    SingleSchemas();
    RefDecodes(c, v, 2);
    SingleMemberDecodes(c, ARGUMENT_FIELDS, Member(REF, RefText(v, 2, [])), RefDatum<R>(v));
  }

  function LookupMembers<R>(c: Codec<R>, v: LookupResult<R>, d: int): seq<Member>
    requires LookupText(c, v, d).Some?
  {
    [Member(OUTCOME, Quoted(WireName(v.outcome).value, []))] +
    (if v.request.Some? then [Member(REQUEST, c.encode(v.request.value, d + 1).value)] else [])
  }

  function LookupData<R>(v: LookupResult<R>): seq<Datum<R>>
  {
    [DOutcome(v.outcome)] + (if v.request.Some? then [DRequest(v.request.value)] else [])
  }

  lemma {:induction false} LookupMembersDecode<R(!new)>(c: Codec<R>, v: LookupResult<R>, d: int)
    requires Contract(c) && 0 <= d < DEPTH_LIMIT && LookupText(c, v, d).Some?
    ensures Lists(LOOKUP_FIELDS, LookupMembers(c, v, d)) && AllDecode(c, LOOKUP_FIELDS, LookupMembers(c, v, d), LookupData(v), d + 1)
    ensures LookupText(c, v, d).value == ObjectText(LookupMembers(c, v, d), d, [])
  {
    OutcomeReads(v.outcome, WireName(v.outcome).value);
    OutcomeDecodes(c, v.outcome, WireName(v.outcome).value, d + 1);
    if v.request.Some? {
      RequestDecodes(c, v.request.value, d + 1);
    }
  }

  lemma {:induction false} LookupRecord<R>(ms: seq<Member>, v: LookupResult<R>)
    requires Lists(LOOKUP_FIELDS, ms) && |ms| == |LookupData(v)|
    ensures AsLookup(RecordOf(ms, LookupData(v))) == v
  {
    LookupSchema();
    RecordHas(LOOKUP_FIELDS, ms, LookupData(v));
    var m := RecordOf(ms, LookupData(v));
    assert LOOKUP_FIELDS[0].name == OUTCOME && LOOKUP_FIELDS[1].name == REQUEST;
  }

  lemma {:induction false} LookupDecodes<R(!new)>(c: Codec<R>, v: LookupResult<R>, d: int) returns (x: Datum<R>)
    requires Contract(c) && 0 <= d < DEPTH_LIMIT && LookupText(c, v, d).Some?
    ensures x.DRecord? && AsLookup(x.fields) == v
    ensures BodyDecodes(c, KRecord(LOOKUP_FIELDS), LookupText(c, v, d).value, x, d)
  {
    LookupSchema();
    LookupMembersDecode(c, v, d);
    LookupRecord(LookupMembers(c, v, d), v);
    RecordDecodes(c, LOOKUP_FIELDS, LookupMembers(c, v, d), LookupData(v), d);
    x := DRecord(RecordOf(LookupMembers(c, v, d), LookupData(v)));
  }

  lemma {:induction false} ResultDecodes<R(!new)>(c: Codec<R>, v: LookupResult<R>)
    requires Contract(c) && ResultText(c, v, 1).Some?
    ensures Whole(c, RESULT_FIELDS, ResultText(c, v, 1).value, 1).Success?
    ensures AsLookup(RecordAt(Whole(c, RESULT_FIELDS, ResultText(c, v, 1).value, 1).value, VALUE)) == v
    ensures BodyDecodes(c, KOpaque, ResultText(c, v, 1).value, DOpaque(ResultText(c, v, 1).value), 1)
  {
    SingleSchemas();
    var x := LookupDecodes(c, v, 2);
    SingleMemberDecodes(c, RESULT_FIELDS, Member(VALUE, LookupText(c, v, 2).value), x);
  }

  function ErrorData<R>(code: bytes, message: bytes): seq<Datum<R>> { [DText(code), DText(message)] }

  lemma {:induction false} ErrorMembersDecode<R(!new)>(c: Codec<R>, code: bytes, message: bytes)
    requires Contract(c) && Utf8.Valid(code) && Utf8.Valid(message)
    ensures Lists(ERROR_FIELDS, ErrorMembers(code, message))
    ensures AllDecode(c, ERROR_FIELDS, ErrorMembers(code, message), ErrorData(code, message), 2)
  {
    TextDecodes(c, code, 2);
    TextDecodes(c, message, 2);
  }

  lemma {:induction false} ErrorRecord<R>(ms: seq<Member>, code: bytes, message: bytes)
    requires Lists(ERROR_FIELDS, ms) && |ms| == 2
    ensures var m := RecordOf(ms, ErrorData<R>(code, message)); TextAt(m, CODE) == code && TextAt(m, MESSAGE) == message
  {
    ErrorSchema();
    RecordHas(ERROR_FIELDS, ms, ErrorData<R>(code, message));
    assert ERROR_FIELDS[0].name == CODE && ERROR_FIELDS[1].name == MESSAGE;
  }

  lemma {:induction false} ErrorDecodes<R(!new)>(c: Codec<R>, code: bytes, message: bytes)
    requires Contract(c) && Utf8.Valid(code) && Utf8.Valid(message)
    ensures var r := Whole(c, ERROR_FIELDS, ErrorText(code, message, 1), 1);
            r.Success? && TextAt(r.value, CODE) == code && TextAt(r.value, MESSAGE) == message
    ensures BodyDecodes(c, KOpaque, ErrorText(code, message, 1), DOpaque(ErrorText(code, message, 1)), 1)
  {
    ErrorSchema();
    ErrorMembersDecode(c, code, message);
    var ms, xs := ErrorMembers(code, message), ErrorData<R>(code, message);
    WholeDecodes(c, ERROR_FIELDS, ms, xs, 1);
    ErrorRecord<R>(ms, code, message);
    RecordDecodes(c, ERROR_FIELDS, ms, xs, 1);
    OpaqueDecodes(c, KRecord(ERROR_FIELDS), ErrorText(code, message, 1), DRecord(RecordOf(ms, xs)), 1);
  }

  predicate IsInt32(n: int) { INT32_MIN <= n <= INT32_MAX }

  function FrameData<R>(f: Frame): seq<Datum<R>> { [DInt(f.version), DText(f.service), DText(f.operation), DOpaque(f.arguments)] }

  lemma {:induction false} FrameMembersDecode<R(!new)>(c: Codec<R>, f: Frame)
    requires Contract(c) && IsInt32(f.version) && Utf8.Valid(f.service) && Utf8.Valid(f.operation)
    requires BodyDecodes(c, KOpaque, f.arguments, DOpaque(f.arguments), 1)
    ensures Lists(FRAME_FIELDS, FrameMembers(f)) && AllDecode(c, FRAME_FIELDS, FrameMembers(f), FrameData(f), 1)
  {
    IntDecodes(c, f.version, 1);
    TextDecodes(c, f.service, 1);
    TextDecodes(c, f.operation, 1);
  }

  lemma {:induction false} FrameRecord<R>(ms: seq<Member>, f: Frame)
    requires Lists(FRAME_FIELDS, ms) && |ms| == 4
    ensures AsFrame(RecordOf(ms, FrameData<R>(f))) == f
  {
    FrameSchema();
    RecordHas(FRAME_FIELDS, ms, FrameData<R>(f));
    assert FRAME_FIELDS[0].name == VERSION && FRAME_FIELDS[1].name == SERVICE && FRAME_FIELDS[2].name == METHOD && FRAME_FIELDS[3].name == ARGUMENTS;
  }

  lemma {:induction false} FrameIsRecord<R(!new)>(c: Codec<R>, f: Frame)
    requires Contract(c) && IsInt32(f.version) && Utf8.Valid(f.service) && Utf8.Valid(f.operation)
    requires BodyDecodes(c, KOpaque, f.arguments, DOpaque(f.arguments), 1)
    ensures Whole(c, FRAME_FIELDS, FrameText(f, 0), 0) == Success(RecordOf(FrameMembers(f), FrameData(f)))
  {
    FrameSchema();
    FrameMembersDecode(c, f);
    PrintedWhole(c, FRAME_FIELDS, FrameMembers(f), FrameData(f), 0, FrameText(f, 0), RecordOf(FrameMembers(f), FrameData(f)));
  }

  lemma {:induction false} FrameIsListed(f: Frame)
    ensures Lists(FRAME_FIELDS, FrameMembers(f))
  {
  }

  lemma {:induction false} FrameDecodes<R(!new)>(c: Codec<R>, f: Frame)
    requires Contract(c) && IsInt32(f.version) && Utf8.Valid(f.service) && Utf8.Valid(f.operation)
    requires BodyDecodes(c, KOpaque, f.arguments, DOpaque(f.arguments), 1)
    ensures ServicePayload(c, FrameText(f, 0)) == if f.version == 1 then Success(f) else Failed(Dispatch(UNKNOWN_VERSION))
  {
    FrameIsRecord(c, f);
    FrameIsListed(f);
    FrameRecord<R>(FrameMembers(f), f);
  }

  function ReplyData<R>(f: Reply): seq<Datum<R>> { [DInt(f.version), DText(f.service), DText(f.operation), DFlag(f.ok), DOpaque(f.payload)] }

  lemma {:induction false} ReplyMembersDecode<R(!new)>(c: Codec<R>, f: Reply)
    requires Contract(c) && IsInt32(f.version) && Utf8.Valid(f.service) && Utf8.Valid(f.operation)
    requires BodyDecodes(c, KOpaque, f.payload, DOpaque(f.payload), 1)
    ensures Lists(REPLY_FIELDS, ReplyMembers(f)) && AllDecode(c, REPLY_FIELDS, ReplyMembers(f), ReplyData(f), 1)
  {
    IntDecodes(c, f.version, 1);
    TextDecodes(c, f.service, 1);
    TextDecodes(c, f.operation, 1);
    FlagDecodes(c, f.ok, 1);
  }

  lemma {:induction false} ReplyRecord<R>(ms: seq<Member>, f: Reply)
    requires Lists(REPLY_FIELDS, ms) && |ms| == 5
    ensures AsReply(RecordOf(ms, ReplyData<R>(f))) == f
  {
    ReplySchema();
    RecordHas(REPLY_FIELDS, ms, ReplyData<R>(f));
    assert REPLY_FIELDS[0].name == VERSION && REPLY_FIELDS[1].name == SERVICE && REPLY_FIELDS[2].name == METHOD
        && REPLY_FIELDS[3].name == OK && REPLY_FIELDS[4].name == PAYLOAD;
  }

  lemma {:induction false} ReplyPrints(f: Reply)
    ensures ReplyText(f, 0) == ObjectText(ReplyMembers(f), 0, [])
  {
  }

  lemma {:induction false} ReplyIsRecord<R(!new)>(c: Codec<R>, f: Reply)
    requires Contract(c) && IsInt32(f.version) && Utf8.Valid(f.service) && Utf8.Valid(f.operation)
    requires BodyDecodes(c, KOpaque, f.payload, DOpaque(f.payload), 1)
    ensures Whole(c, REPLY_FIELDS, ReplyText(f, 0), 0) == Success(RecordOf(ReplyMembers(f), ReplyData(f)))
  {
    ReplySchema();
    ReplyMembersDecode(c, f);
    ReplyPrints(f);
    WholeDecodes(c, REPLY_FIELDS, ReplyMembers(f), ReplyData(f), 0);
  }

  lemma {:induction false} ReplyIsListed(f: Reply)
    ensures Lists(REPLY_FIELDS, ReplyMembers(f))
  {
  }

  lemma {:induction false} ReplyDecodes<R(!new)>(c: Codec<R>, f: Reply)
    requires Contract(c) && IsInt32(f.version) && Utf8.Valid(f.service) && Utf8.Valid(f.operation)
    requires BodyDecodes(c, KOpaque, f.payload, DOpaque(f.payload), 1)
    ensures var r := Whole(c, REPLY_FIELDS, ReplyText(f, 0), 0); r.Success? && AsReply(r.value) == f
  {
    ReplyIsRecord(c, f);
    ReplyIsListed(f);
    ReplyRecord<R>(ReplyMembers(f), f);
  }
}
