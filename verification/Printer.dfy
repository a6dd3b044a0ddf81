/** The printers of records: each appends to one growing buffer, member by member. */
module Printers {
  import opened Bytes
  import opened Text
  import opened Numbers
  import opened Records
  import opened Encode
  import opened Messages
  import opened Envelope

  method Pad(out: bytes, depth: int) returns (r: bytes)
    ensures r == out + Spaces(depth)
  {
    r := out;
    var i := 0;
    while i < depth * 2
      invariant 0 <= i && i % 2 == 0 && (i <= depth * 2 || depth < 0)
      invariant r + Spaces(depth - i / 2) == out + Spaces(depth)
      decreases depth * 2 - i
    {
      SpacesMore(r, depth - i / 2);
      r := r + [SPACE] + [SPACE];
      i := i + 2;
    }
  }

  lemma {:induction false} SpacesMore(r: bytes, d: int)
    requires d > 0
    ensures r + Spaces(d) == r + [SPACE] + [SPACE] + Spaces(d - 1)
  {
  }

  /** What a record has in the buffer while its members are printed. */
  function Opened(before: bytes, ms: seq<Member>, d: int): bytes { before + ([LBRACE] + MembersText(ms, d, [])) }

  lemma {:induction false} MembersSnoc(ms: seq<Member>, m: Member, d: int)
    ensures MembersText(ms + [m], d, []) == MembersText(ms, d, []) + (if ms == [] then [] else [COMMA]) + MemberText(m, d, [])
    decreases |ms|
  {
    var all := ms + [m];
    if ms == [] {
      assert all == [m];
      NoTail(MemberText(m, d, []));
    } else {
      assert all[0] == ms[0] && all[1..] == ms[1..] + [m];
      MembersSnoc(ms[1..], m, d);
      var rest := MembersText(ms[1..], d, []);
      var more := if ms[1..] == [] then [] else [COMMA] + rest;
      var last := [COMMA] + MemberText(m, d, []);
      SnocAfter(ms, m, d, rest, more, last);
      MemberAppends(ms[0], d, more, last);
      Assoc(MemberText(ms[0], d, more), [COMMA], MemberText(m, d, []));
    }
  }

  lemma {:induction false} SnocAfter(ms: seq<Member>, m: Member, d: int, rest: bytes, more: bytes, last: bytes)
    requires |ms| > 0 && rest == MembersText(ms[1..], d, []) && more == (if ms[1..] == [] then [] else [COMMA] + rest)
    requires last == [COMMA] + MemberText(m, d, [])
    ensures [COMMA] + (rest + (if ms[1..] == [] then [] else [COMMA]) + MemberText(m, d, [])) == more + last
  {
    var text := MemberText(m, d, []);
    if ms[1..] == [] {
      NoTail(text);
      NoTail(last);
    } else {
      Assoc(rest, [COMMA], text);
      Assoc([COMMA], rest, last);
    }
  }

  /** The line and name of a member, after a comma unless it is the first. */
  method Label(out: bytes, first: bool, name: bytes, depth: int) returns (r: bytes)
    ensures r == out + (if first then [] else [COMMA]) + (Indent(depth) + Quoted(name, [COLON, SPACE]))
  {
    r := out;
    if !first {
      r := r + [COMMA];
    }
    ghost var start := r;
    NoTail(out);
    r := r + [NEWLINE];
    r := Pad(r, depth);
    r := Esc(r, name);
    r := r + [COLON] + [SPACE];
    LabelIs(start, Spaces(depth), name);
  }

  lemma {:induction false} LabelIs(start: bytes, spaces: bytes, name: bytes)
    ensures start + [NEWLINE] + spaces + Quoted(name, []) + [COLON] + [SPACE]
            == start + (([NEWLINE] + spaces) + Quoted(name, [COLON, SPACE]))
  {
    QuotedAppends(name, [], [COLON, SPACE]);
    assert [] + [COLON, SPACE] == [COLON, SPACE];
    assert [COLON] + [SPACE] == [COLON, SPACE];
  }

  lemma {:induction false} MemberIs(m: Member, d: int)
    ensures MemberText(m, d, []) == Indent(d) + Quoted(m.name, [COLON, SPACE]) + m.body
  {
    QuotedAppends(m.name, [COLON, SPACE], m.body);
    NoTail(m.body);
    Assoc(Indent(d), Quoted(m.name, [COLON, SPACE]), m.body);
  }

  lemma {:induction false} Grows(before: bytes, ms: seq<Member>, m: Member, d: int, front: bytes)
    requires front == Opened(before, ms, d) + (if ms == [] then [] else [COMMA]) + (Indent(d) + Quoted(m.name, [COLON, SPACE]))
    ensures front + m.body == Opened(before, ms + [m], d)
  {
    MembersSnoc(ms, m, d);
    MemberIs(m, d);
    var a, b, c := MembersText(ms, d, []), if ms == [] then [] else [COMMA], Indent(d) + Quoted(m.name, [COLON, SPACE]);
    Regroup(before, [LBRACE], a, b, c, m.body);
  }

  lemma {:induction false} Regroup(x: bytes, l: bytes, a: bytes, b: bytes, c: bytes, m: bytes)
    ensures x + (l + a) + b + c + m == x + (l + (a + b + (c + m)))
  {
    Assoc(a + b, c, m);
    Assoc(l, a, b);
    Assoc(l, a + b, c);
    Assoc(l, a + b + c, m);
    Assoc(x, l + a, b);
    Assoc(x, l + a + b, c);
    Assoc(x, l + a + b + c, m);
  }

  method TextMember(ghost before: bytes, ghost ms: seq<Member>, out: bytes, first: bool, name: bytes, text: bytes, depth: int)
    returns (r: bytes)
    requires out == Opened(before, ms, depth) && first == (ms == [])
    ensures r == Opened(before, ms + [Member(name, Quoted(text, []))], depth)
  {
    r := Label(out, first, name, depth);
    Grows(before, ms, Member(name, Quoted(text, [])), depth, r);
    r := Esc(r, text);
  }

  method RawMember(ghost before: bytes, ghost ms: seq<Member>, out: bytes, first: bool, name: bytes, body: bytes, depth: int)
    returns (r: bytes)
    requires out == Opened(before, ms, depth) && first == (ms == [])
    ensures r == Opened(before, ms + [Member(name, body)], depth)
  {
    r := Label(out, first, name, depth);
    Grows(before, ms, Member(name, body), depth, r);
    r := r + body;
  }

  method NumMember(ghost before: bytes, ghost ms: seq<Member>, out: bytes, first: bool, name: bytes, n: int, depth: int)
    returns (r: bytes)
    requires out == Opened(before, ms, depth) && first == (ms == []) && IsInt64(n)
    ensures r == Opened(before, ms + [Member(name, NumText(n, []))], depth)
  {
    r := Label(out, first, name, depth);
    Grows(before, ms, Member(name, NumText(n, [])), depth, r);
    r := Num(r, n);
  }

  /** The last line of a record. */
  method Shut(ghost before: bytes, ghost ms: seq<Member>, out: bytes, depth: int) returns (r: bytes)
    requires out == Opened(before, ms, depth + 1)
    ensures r == before + ObjectText(ms, depth, [])
  {
    ShutIs(before, ms, depth);
    r := out + [NEWLINE];
    r := Pad(r, depth);
    r := r + [RBRACE];
  }

  lemma {:induction false} ShutIs(before: bytes, ms: seq<Member>, d: int)
    ensures Opened(before, ms, d + 1) + [NEWLINE] + Spaces(d) + [RBRACE] == before + ObjectText(ms, d, [])
  {
    var a, close := MembersText(ms, d + 1, []), Indent(d) + [RBRACE];
    MembersAppend(ms, d + 1, [], close);
    NoTail(close);
    NoTail([RBRACE]);
    NoTail(a);
    Regroup(before, [LBRACE], a, [], Indent(d), [RBRACE]);
    NoTail(before + ([LBRACE] + a));
    Assoc(before + ([LBRACE] + a), [NEWLINE], Spaces(d));
  }

  lemma {:induction false} JustOpened(out: bytes, d: int)
    ensures out + [LBRACE] == Opened(out, [], d)
  {
    NoTail([LBRACE]);
  }

  // ---- the records ----

  method EncRef(out: bytes, v: Ref, depth: int) returns (r: bytes)
    ensures r == out + RefText(v, depth, [])
  {
    JustOpened(out, depth + 1);
    ghost var ms := RefMembers(v);
    assert ms[..0] == [] && ms[..1] == [ms[0]] && ms[..2] == ms[..1] + [ms[1]] && ms[..3] == ms[..2] + [ms[2]];
    assert ms[..4] == ms[..3] + [ms[3]] && ms[..5] == ms[..4] + [ms[4]];
    r := out + [LBRACE];
    r := TextMember(out, [], r, true, REGISTRY, v.registry, depth + 1);
    r := TextMember(out, ms[..1], r, false, REPO, v.repo, depth + 1);
    r := TextMember(out, ms[..2], r, false, REVISION, v.revision, depth + 1);
    r := TextMember(out, ms[..3], r, false, QUANT, v.quant, depth + 1);
    r := TextMember(out, ms[..4], r, false, FILE, v.file, depth + 1);
    if v.credential != [] {
      r := TextMember(out, ms[..5], r, false, CREDENTIAL, v.credential, depth + 1);
      assert ms == ms[..5] + [ms[5]];
    } else {
      assert ms == ms[..5];
    }
    r := Shut(out, ms, r, depth);
  }

  /** None where the printer panics: an outcome without a word, or a request its own
      codec refuses. */
  method EncLookupResult<R>(c: Codec<R>, out: bytes, v: LookupResult<R>, depth: int) returns (r: Option<bytes>)
    ensures r == match LookupText(c, v, depth) case None => None case Some(text) => Some(out + text)
  {
    var word := WireName(v.outcome);
    if word.None? {
      return None;
    }
    JustOpened(out, depth + 1);
    var first := Member(OUTCOME, Quoted(word.value, []));
    assert [] + [first] == [first];
    var s := out + [LBRACE];
    s := TextMember(out, [], s, true, OUTCOME, word.value, depth + 1);
    ghost var ms := [first];
    if v.request.Some? {
      var body := c.encode(v.request.value, depth + 1);
      if body.None? {
        return None;
      }
      s := RawMember(out, ms, s, false, REQUEST, body.value, depth + 1);
      ms := ms + [Member(REQUEST, body.value)];
      assert ms == [first, Member(REQUEST, body.value)];
    }
    s := Shut(out, ms, s, depth);
    return Some(s);
  }

  method EncArguments(out: bytes, v: Ref, depth: int) returns (r: bytes)
    ensures r == out + ArgumentsText(v, depth)
  {
    JustOpened(out, depth + 1);
    var body := EncRef([], v, depth + 1);
    NoTail(body);
    NoTail(RefText(v, depth + 1, []));
    r := out + [LBRACE];
    r := RawMember(out, [], r, true, REF, body, depth + 1);
    ghost var ms := [Member(REF, body)];
    assert [] + ms == ms;
    r := Shut(out, ms, r, depth);
  }

  method EncResult<R>(c: Codec<R>, out: bytes, v: LookupResult<R>, depth: int) returns (r: Option<bytes>)
    ensures r == match ResultText(c, v, depth) case None => None case Some(text) => Some(out + text)
  {
    JustOpened(out, depth + 1);
    var body := EncLookupResult(c, [], v, depth + 1);
    if body.None? {
      return None;
    }
    NoTail(LookupText(c, v, depth + 1).value);
    var s := out + [LBRACE];
    s := RawMember(out, [], s, true, VALUE, body.value, depth + 1);
    ghost var ms := [Member(VALUE, body.value)];
    assert [] + ms == ms;
    s := Shut(out, ms, s, depth);
    return Some(s);
  }

  method EncFrame(out: bytes, v: Frame, depth: int) returns (r: bytes)
    requires IsInt64(v.version)
    ensures r == out + FrameText(v, depth)
  {
    JustOpened(out, depth + 1);
    ghost var ms := FrameMembers(v);
    assert ms[..0] == [] && ms[..1] == [ms[0]] && ms[..2] == ms[..1] + [ms[1]] && ms[..3] == ms[..2] + [ms[2]];
    assert ms == ms[..3] + [ms[3]];
    r := out + [LBRACE];
    r := NumMember(out, [], r, true, VERSION, v.version, depth + 1);
    r := TextMember(out, ms[..1], r, false, SERVICE, v.service, depth + 1);
    r := TextMember(out, ms[..2], r, false, METHOD, v.operation, depth + 1);
    r := RawMember(out, ms[..3], r, false, ARGUMENTS, v.arguments, depth + 1);
    r := Shut(out, ms, r, depth);
  }

  method EncReply(out: bytes, v: Reply, depth: int) returns (r: bytes)
    requires IsInt64(v.version)
    ensures r == out + ReplyText(v, depth)
  {
    JustOpened(out, depth + 1);
    ghost var ms := ReplyMembers(v);
    assert ms[..0] == [] && ms[..1] == [ms[0]] && ms[..2] == ms[..1] + [ms[1]] && ms[..3] == ms[..2] + [ms[2]];
    assert ms[..4] == ms[..3] + [ms[3]] && ms == ms[..4] + [ms[4]];
    r := out + [LBRACE];
    r := NumMember(out, [], r, true, VERSION, v.version, depth + 1);
    r := TextMember(out, ms[..1], r, false, SERVICE, v.service, depth + 1);
    r := TextMember(out, ms[..2], r, false, METHOD, v.operation, depth + 1);
    r := RawMember(out, ms[..3], r, false, OK, FlagText(v.ok), depth + 1);
    r := RawMember(out, ms[..4], r, false, PAYLOAD, v.payload, depth + 1);
    r := Shut(out, ms, r, depth);
  }

  method EncError(out: bytes, code: bytes, message: bytes, depth: int) returns (r: bytes)
    ensures r == out + ErrorText(code, message, depth)
  {
    JustOpened(out, depth + 1);
    ghost var ms := ErrorMembers(code, message);
    assert ms[..0] == [] && ms[..1] == [ms[0]] && ms == ms[..1] + [ms[1]];
    r := out + [LBRACE];
    r := TextMember(out, [], r, true, CODE, code, depth + 1);
    r := TextMember(out, ms[..1], r, false, MESSAGE, message, depth + 1);
    r := Shut(out, ms, r, depth);
  }
}
