/** Records printed at one depth and re-indented for another: printing and carrying
    agree on every byte. */
module Moved {
  import opened Bytes
  import opened Text
  import opened Skip
  import opened Encode
  import opened Messages
  import Raw

  /** A line break and two spaces for every level. */
  lemma {:induction false} IndentIsSpaces(d: nat)
    ensures |Indent(d)| == 1 + 2 * d && Indent(d)[0] == NEWLINE && forall i :: 0 < i < |Indent(d)| ==> Indent(d)[i] == SPACE
  {
    if d > 0 {
      IndentIsSpaces(d - 1);
      assert Spaces(d) == [SPACE, SPACE] + Indent(d - 1)[1..];
    }
  }

  /** Members that are texts, printed. */
  predicate Texted(ms: seq<Member>, vs: seq<bytes>)
  {
    |ms| == |vs| && forall i :: 0 <= i < |ms| ==> ms[i].body == Quoted(vs[i], [])
  }

  lemma {:induction false} QuotedIsKept(v: bytes, tail: bytes, depth: int, t: bytes)
    requires Raw.Reindented(tail, depth) == Some(t)
    ensures Raw.Reindented(Quoted(v, tail), depth) == Some(Quoted(v, t))
  {
    var chs := EscapedIsSpelled(v, [QUOTE] + tail);
    SpellingOf(v, chs, tail);
    SpellingOf(v, chs, t);
    Raw.StringIsKept(chs, tail, depth, t);
  }

  /** A text is spelled alike in front of anything. */
  lemma {:induction false} SpellingOf(v: bytes, chs: seq<char_>, t: bytes)
    requires exists u: bytes :: Escaped(v, [QUOTE] + u) == Spelled(chs, [QUOTE] + u)
    ensures Quoted(v, t) == StrText(chs, t)
  {
    var u: bytes :| Escaped(v, [QUOTE] + u) == Spelled(chs, [QUOTE] + u);
    QuotedAppends(v, [], u);
    QuotedAppends(v, [], t);
    Raw.StrTextAppends(chs, u);
    Raw.StrTextAppends(chs, t);
    assert [] + u == u && [] + t == t;
    SameFront(Quoted(v, []), StrText(chs, []), u);
  }

  lemma {:induction false} SameFront(a: bytes, b: bytes, tail: bytes)
    requires a + tail == b + tail
    ensures a == b
  {
    assert a == (a + tail)[..|a|] && b == (b + tail)[..|b|];
  }

  /** A name, its colon and its text. */
  lemma {:induction false} MemberMoves(name: bytes, v: bytes, rest: bytes, depth: int, t: bytes)
    requires Raw.Reindented(rest, depth) == Some(t)
    ensures Raw.Reindented(Quoted(name, [COLON, SPACE] + (Quoted(v, []) + rest)), depth)
            == Some(Quoted(name, [COLON, SPACE] + (Quoted(v, []) + t)))
  {
    QuotedAppends(v, [], rest);
    QuotedAppends(v, [], t);
    assert [] + rest == rest && [] + t == t;
    QuotedIsKept(v, rest, depth, t);
    ColonIsKept(Quoted(v, rest), depth, Quoted(v, t));
    QuotedIsKept(name, [COLON, SPACE] + Quoted(v, rest), depth, [COLON, SPACE] + Quoted(v, t));
  }

  lemma {:induction false} ColonIsKept(value: bytes, depth: int, t: bytes)
    requires Raw.Reindented(value, depth) == Some(t)
    ensures Raw.Reindented([COLON, SPACE] + value, depth) == Some([COLON, SPACE] + t)
  {
    var s := [COLON, SPACE] + value;
    assert s[1..] == [SPACE] + value;
    Raw.WsIsDropped([SPACE], value, depth);
  }

  function Shutting(d: int): bytes { Indent(d) + ([RBRACE] + []) }

  lemma {:induction false} ShutMoves(d: int, depth: int)
    ensures Raw.Reindented(Shutting(d), depth + 1) == Some(Shutting(depth))
  {
    IndentIsWs(d);
    var r := Raw.ShutIsReindented(true, [], depth + 1, []);
    Raw.WsIsDropped(Indent(d), [RBRACE] + [], depth + 1);
  }

  /** One line of a record. */
  lemma {:induction false} LineMoves(m: Member, v: bytes, rest: bytes, d: int, depth: int, t: bytes) returns (r: bytes)
    requires m.body == Quoted(v, []) && Raw.Reindented(rest, depth) == Some(t)
    ensures Raw.Reindented(MemberText(m, d, rest), depth) == Some(r) && MemberText(m, depth, t) == Indent(depth) + r
  {
    MemberMoves(m.name, v, rest, depth, t);
    IndentIsWs(d);
    Raw.WsIsDropped(Indent(d), Quoted(m.name, [COLON, SPACE] + (m.body + rest)), depth);
    r := Quoted(m.name, [COLON, SPACE] + (m.body + t));
  }

  /** The members of a record, from the first line on. */
  lemma {:induction false} MembersMove(ms: seq<Member>, vs: seq<bytes>, d: int, inner: int, depth: int, line: int) returns (r: bytes)
    requires Texted(ms, vs) && ms != [] && line == depth + 1
    ensures Raw.Reindented(MembersText(ms, inner, Shutting(d)), line) == Some(r)
    ensures MembersText(ms, line, Shutting(depth)) == Indent(line) + r
    decreases |ms|
  {
    if |ms| == 1 {
      ShutMoves(d, depth);
      r := LineMoves(ms[0], vs[0], Shutting(d), inner, line, Shutting(depth));
    } else {
      var more := MembersMove(ms[1..], vs[1..], d, inner, depth, line);
      var text := MembersText(ms[1..], inner, Shutting(d));
      var t := Raw.CommaIsReindented(text, line, more);
      r := LineMoves(ms[0], vs[0], [COMMA] + text, inner, line, t);
    }
  }

  /** A record of texts printed at any depth is re-indented to the bytes it is printed
      as at any other. */
  lemma {:induction false} RecordMoves(ms: seq<Member>, vs: seq<bytes>, d: int, depth: int)
    requires Texted(ms, vs) && ms != []
    ensures Raw.Reindented(ObjectText(ms, d, []), depth) == Some(ObjectText(ms, depth, []))
  {
    var r := MembersMove(ms, vs, d, d + 1, depth, depth + 1);
    var inner := MembersText(ms, d + 1, Shutting(d));
    var s := [LBRACE] + inner;
    assert s[1..] == inner;
    MembersOpen(ms, d, Shutting(d));
    Assoc([LBRACE], Indent(depth + 1), r);
  }

  lemma {:induction false} MembersOpen(ms: seq<Member>, d: int, close: bytes)
    requires ms != []
    ensures At(Ws(MembersText(ms, d + 1, close))) == QUOTE
  {
    var rest := if |ms| == 1 then close else [COMMA] + MembersText(ms[1..], d + 1, close);
    var body := Quoted(ms[0].name, [COLON, SPACE] + (ms[0].body + rest));
    IndentIsWs(d + 1);
    WsSkips(Indent(d + 1), body);
  }

  /** So a reference carried opaque is printed wherever it stands as if it were printed
      there. */
  lemma {:induction false} RefMoves(v: Ref, d: int, depth: int)
    ensures Raw.Reindented(RefText(v, d, []), depth) == Some(RefText(v, depth, []))
  {
    RecordMoves(RefMembers(v), RefTexts(v), d, depth);
  }

  /** An empty container is carried closed up. */
  lemma {:induction false} EmptyIsTight(obj: bool, pad: ws, depth: int)
    ensures Raw.Reindented(ValueText(VEmpty(obj, pad), []), depth) == Some([Opener(obj), Shut(obj)])
  {
    var s := ValueText(VEmpty(obj, pad), []);
    assert s[1..] == pad + ([Shut(obj)] + []);
    WsSkips(pad, [Shut(obj)] + []);
    assert ([Shut(obj)] + [])[1..] == [] && [Opener(obj), Shut(obj)] + [] == [Opener(obj), Shut(obj)];
  }
}
