/** The client and the dispatcher of the resolver service as they run: readers over
    frames, printers into them, each against the function it computes. */
module Endpoints {
  import opened Bytes
  import opened Records
  import opened Messages
  import opened Envelope
  import opened Printers
  import Rpc
  import Readers

  /** Where p is what a record in buf is decoded as, what reading it gives. */
  ghost predicate Fronted<R>(p: Parsed<Datum<R>>, buf: bytes, res: Result<map<bytes, Datum<R>>>, rest: bytes)
  {
    match p
    case Refused(w, left) => res == Failed(Refusal(w, |buf| - |left|))
    case Ok(x, left) => res == Success(Fields(x)) && rest == left
  }

  lemma {:induction false} FrontIs<R(!new)>(c: Codec<R>, fields: seq<Field>, buf: bytes, d: int, res: Result<map<bytes, Datum<R>>>, rest: bytes)
    requires Contract(c) && 0 <= d
    requires Fronted(Decode(c, KRecord(fields), Ws(buf), d, DEPTH_LIMIT), buf, res, rest)
    ensures Front(c, fields, buf, d) == if res.Failed? then Failed(res.failure) else Success((res.value, rest))
  {
  }

  /** A record read by a reader started at depth d: its members, or the refusal. */
  method ReadFront<R(!new)>(c: Codec<R>, fields: seq<Field>, buf: bytes, d: int)
    returns (res: Result<map<bytes, Datum<R>>>, r: Readers.Reader)
    requires Contract(c) && 0 <= d
    ensures fresh(r) && r.buf == buf && (res.Success? ==> r.Valid())
    ensures Front(c, fields, buf, d) == if res.Failed? then Failed(res.failure) else Success((res.value, r.Rest()))
  {
    ghost var p := Decode(c, KRecord(fields), Ws(buf), d, DEPTH_LIMIT);
    var a;
    a, r := ReadRecord(c, fields, buf, d);
    res := if a.Refuses? then Failed(Refusal(a.word, a.offset)) else Success(Fields(a.value));
    ghost var rest := if a.Got? then r.Rest() else [];
    assert Fronted(p, buf, res, rest);
    FrontIs(c, fields, buf, d, res, rest);
  }

  method ReadRecord<R(!new)>(c: Codec<R>, fields: seq<Field>, buf: bytes, d: int)
    returns (a: Readers.Answer<Datum<R>>, r: Readers.Reader)
    requires Contract(c) && 0 <= d
    ensures fresh(r) && r.buf == buf
    ensures r.Ended(Decode(c, KRecord(fields), Ws(buf), d, DEPTH_LIMIT), a)
  {
    r := new Readers.Reader(buf, d, 0);
    assert r.Rest() == buf;
    r.SkipWs();
    a := r.Record(c, fields);
  }

  /** A whole buffer read as one record, and no more than white space after it. */
  method ReadWhole<R(!new)>(c: Codec<R>, fields: seq<Field>, buf: bytes, d: int) returns (res: Result<map<bytes, Datum<R>>>)
    requires Contract(c) && 0 <= d
    ensures res == Whole(c, fields, buf, d)
  {
    var r;
    res, r := ReadFront(c, fields, buf, d);
    if res.Failed? {
      return;
    }
    r.SkipWs();
    assert |r.Rest()| == |buf| - r.pos;
    if r.pos != |r.buf| {
      return Failed(Refusal(TrailingBytes, r.pos));
    }
  }

  method ServicePayloadOf<R(!new)>(c: Codec<R>, frame: bytes) returns (res: Result<Frame>)
    requires Contract(c)
    ensures res == ServicePayload(c, frame)
  {
    var m := ReadWhole(c, FRAME_FIELDS, frame, 0);
    if m.Failed? {
      return Failed(m.failure);
    }
    var v := AsFrame(m.value);
    if v.version != 1 {
      return Failed(Dispatch(UNKNOWN_VERSION));
    }
    return Success(v);
  }

  method ServiceResponseOf<R(!new)>(c: Codec<R>, frame: bytes, service: bytes, operation: bytes) returns (res: Result<bytes>)
    requires Contract(c)
    ensures res == ServiceResponse(c, frame, service, operation)
  {
    var m := ReadWhole(c, REPLY_FIELDS, frame, 0);
    if m.Failed? {
      return Failed(m.failure);
    }
    var v := AsReply(m.value);
    if v.version != 1 {
      return Failed(Dispatch(UNKNOWN_VERSION));
    }
    if v.service != service || v.operation != operation {
      return Failed(Dispatch(MISMATCHED_RESPONSE));
    }
    if !v.ok {
      var e := ReadWhole(c, ERROR_FIELDS, v.payload, 1);
      if e.Failed? {
        return Failed(e.failure);
      }
      if TextAt(e.value, CODE) == [] {
        return Failed(Dispatch(INVALID_ERROR));
      }
      return Failed(Service(TextAt(e.value, CODE), TextAt(e.value, MESSAGE)));
    }
    return Success(v.payload);
  }

  /** The code and message an error goes out under. */
  method CodeOf(err: Failure) returns (code: bytes, message: bytes)
    ensures (code, message) == ErrorOf(err)
  {
    code, message := HANDLER_ERROR, HANDLER_FAILED;
    match err {
      case Service(ownCode, ownMessage) =>
        if ownCode != [] {
          code := ownCode;
        }
        message := ownMessage;
      case Dispatch(word) => code, message := word, [];
      case Refusal(word, _) => code, message := WordText(word), [];
      case OwnRefusal(word) => code, message := word, [];
      case Other =>
    }
  }

  method ReplyOf(v: Frame, payload: bytes, err: Option<Failure>) returns (reply: Reply)
    ensures reply == ReplyFor(v, payload, err)
  {
    reply := Reply(1, v.service, v.operation, err.None?, payload);
    if err.Some? {
      var code, message := CodeOf(err.value);
      var text := EncError([], code, message, 1);
      NoTail(ErrorText(code, message, 1));
      reply := reply.(payload := text);
    }
  }

  /** The reply frame: the error's own record printed into it, and the whole read
      once before anyone sees it. */
  method ServiceReplyOf<R(!new)>(c: Codec<R>, v: Frame, payload: bytes, err: Option<Failure>) returns (res: Result<bytes>)
    requires Contract(c)
    ensures res == ServiceReply(c, v, payload, err)
  {
    var reply := ReplyOf(v, payload, err);
    var frame := EncReply([], reply, 0);
    NoTail(ReplyText(reply, 0));
    var read, _ := ReadFront(c, REPLY_FIELDS, frame, 0);
    if read.Failed? {
      return Failed(read.failure);
    }
    return Success(frame);
  }

  /** The handler's call, with its panics turned into errors. */
  method InvokeResolve<R(!new)>(c: Codec<R>, handled: Handled<R>) returns (res: Result<bytes>)
    requires Contract(c)
    ensures res == Invoke(c, handled)
  {
    match handled {
      case Erred(e) => return Failed(e);
      case Panicked(refusal) =>
        return if refusal then Failed(Service(INVALID_RESULT, [])) else Failed(Service(HANDLER_ERROR, HANDLER_FAILED));
      case Returned(result) =>
        var payload := EncResult(c, [], result, 1);
        if payload.None? {
          return Failed(Service(INVALID_RESULT, []));
        }
        NoTail(ResultText(c, result, 1).value);
        var m := ReadWhole(c, RESULT_FIELDS, payload.value, 1);
        if m.Failed? {
          return Failed(Service(INVALID_RESULT, []));
        }
        return Success(payload.value);
    }
  }

  method ExchangeFrame<R(!new)>(c: Codec<R>, handler: Ref -> Handled<R>, describe: bytes -> Result<bytes>, frame: bytes)
    returns (res: Result<bytes>)
    requires Contract(c)
    ensures res == Exchange(c, handler, describe, frame)
  {
    var p := ServicePayloadOf(c, frame);
    if p.Failed? {
      return Failed(p.failure);
    }
    var v := p.value;
    if v.service == ENDPOINT {
      return describe(frame);
    }
    if v.service != RESOLVER {
      res := ServiceReplyOf(c, v, [], Some(Dispatch(UNKNOWN_SERVICE)));
      return;
    }
    if v.operation != RESOLVE {
      res := ServiceReplyOf(c, v, [], Some(Dispatch(UNKNOWN_METHOD)));
      return;
    }
    var args := ReadWhole(c, ARGUMENT_FIELDS, v.arguments, 1);
    if args.Failed? {
      res := ServiceReplyOf(c, v, [], Some(args.failure));
      return;
    }
    var payload := InvokeResolve(c, handler(AsRef(RecordAt(args.value, REF))));
    res := ServiceReplyOf(c, v, if payload.Success? then payload.value else [],
                          if payload.Failed? then Some(payload.failure) else None);
  }

  /** The client's first half: its frame, read back before it is sent. */
  method RequestFrame<R(!new)>(c: Codec<R>, ref: Ref) returns (res: Result<bytes>)
    requires Contract(c)
    ensures var frame := FrameText(RequestFor(ref), 0);
            res == match ServicePayload(c, frame) case Failed(e) => Failed(e) case Success(_) => Success(frame)
  {
    var args := EncArguments([], ref, 1);
    NoTail(ArgumentsText(ref, 1));
    var v := Frame(1, RESOLVER, RESOLVE, args);
    var frame := EncFrame([], v, 0);
    NoTail(FrameText(v, 0));
    var own := ServicePayloadOf(c, frame);
    if own.Failed? {
      return Failed(own.failure);
    }
    return Success(frame);
  }

  /** The client's second half: the answer of the exchange, read. */
  method AnswerOf<R(!new)>(c: Codec<R>, response: Result<bytes>) returns (res: Result<LookupResult<R>>)
    requires Contract(c)
    ensures res == ReadAnswer(c, response)
  {
    if response.Failed? {
      return Failed(response.failure);
    }
    var payload := ServiceResponseOf(c, response.value, RESOLVER, RESOLVE);
    if payload.Failed? {
      return Failed(payload.failure);
    }
    var m := ReadWhole(c, RESULT_FIELDS, payload.value, 1);
    if m.Failed? {
      return Failed(m.failure);
    }
    return Success(AsLookup(RecordAt(m.value, VALUE)));
  }

  /** The client's call over any transport. */
  method ResolveCall<R(!new)>(c: Codec<R>, ref: Ref, transport: bytes -> Result<bytes>) returns (res: Result<LookupResult<R>>)
    requires Contract(c)
    ensures res == Resolve(c, ref, transport)
  {
    var frame := RequestFrame(c, ref);
    if frame.Failed? {
      return Failed(frame.failure);
    }
    res := AnswerOf(c, transport(frame.value));
  }

  /** The call as it runs, client, dispatcher and handler in one: the caller gets what
      the handler came to, and a reference that is no UTF-8 never gets that far. */
  method Call<R(!new)>(c: Codec<R>, ref: Ref, handler: Ref -> Handled<R>, describe: bytes -> Result<bytes>)
    returns (res: Result<LookupResult<R>>)
    requires Contract(c)
    ensures if RefIsUtf8(ref) then Rpc.Delivered(c, handler(ref), res) else Rpc.IsBadString(res)
  {
    ghost var exchange := frame requires Contract(c) => Exchange(c, handler, describe, frame);
    if RefIsUtf8(ref) {
      Rpc.ResolveDelivers(c, ref, handler, describe);
    } else {
      Rpc.BadRefIsNeverSent(c, ref, exchange);
    }
    var frame := RequestFrame(c, ref);
    if frame.Failed? {
      assert Failed(frame.failure) == Resolve(c, ref, exchange);
      return Failed(frame.failure);
    }
    var response := ExchangeFrame(c, handler, describe, frame.value);
    res := AnswerOf(c, response);
    assert res == Resolve(c, ref, exchange);
  }

  /** The reference encoder, which reads its own output before it gives it out; None
      where it panics. */
  method EncodeRef(v: Ref, depth: int) returns (r: Option<bytes>)
    ensures r == EncodeRefAt(v, depth)
  {
    if depth < 0 || depth >= DEPTH_LIMIT {
      return None;
    }
    var out := EncRef([], v, depth);
    NoTail(RefText(v, depth, []));
    var a, _ := Readers.DecodeRefAt(out, depth, DEPTH_LIMIT);
    if a.Refuses? {
      return None;
    }
    return Some(out);
  }
}
