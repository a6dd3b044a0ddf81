/** Bytes, refusals, and the two results every reading of bytes ends in. */
module Bytes {
  type byte = x: int | 0 <= x < 256
  type bytes = seq<byte>

  datatype Option<+T> = None | Some(value: T)

  /** The closed list of refusal words of the wire contract. */
  datatype Word =
    | Malformed | BadString | NumberSpelling | WrongType | DepthExceeded | DuplicateKey
    | DuplicateField | UnknownField | MissingField | BadEnum | TrailingBytes

  /** What reading a value off the front of some bytes gives: the value and the
      bytes after it, or a refusal and the bytes from the offending one on. */
  datatype Parsed<+T> = Ok(value: T, rest: bytes) | Refused(word: Word, rest: bytes)

  const QUOTE: byte := 0x22
  const PLUS: byte := 0x2B
  const COMMA: byte := 0x2C
  const MINUS: byte := 0x2D
  const DOT: byte := 0x2E
  const SLASH: byte := 0x2F
  const ZERO: byte := 0x30
  const NINE: byte := 0x39
  const COLON: byte := 0x3A
  const UPPER_E: byte := 0x45
  const LBRACKET: byte := 0x5B
  const BACKSLASH: byte := 0x5C
  const RBRACKET: byte := 0x5D
  const LOWER_E: byte := 0x65
  const LOWER_U: byte := 0x75
  const LBRACE: byte := 0x7B
  const RBRACE: byte := 0x7D
  const SPACE: byte := 0x20
  const NEWLINE: byte := 0x0A

  /** The next byte, or 0 at the end. */
  function At(s: bytes): byte { if s == [] then 0 else s[0] }

  predicate IsWs(c: byte) { c == 0x20 || c == 0x09 || c == 0x0A || c == 0x0D }

  predicate IsDigit(c: byte) { ZERO <= c <= NINE }

  function Ws(s: bytes): (r: bytes)
    ensures |r| <= |s|
    ensures r == [] || !IsWs(r[0])
  {
    if s != [] && IsWs(s[0]) then Ws(s[1..]) else s
  }

  predicate AllWs(w: bytes) { forall i :: 0 <= i < |w| ==> IsWs(w[i]) }

  lemma {:induction false} WsSkips(w: bytes, t: bytes)
    requires AllWs(w)
    requires t == [] || !IsWs(t[0])
    ensures Ws(w + t) == t
  {
    if w == [] {
      assert w + t == t;
    } else {
      assert (w + t)[1..] == w[1..] + t;
      WsSkips(w[1..], t);
    }
  }

  /** Leading white space is a prefix: what Ws drops is all white space. */
  lemma {:induction false} WsSplits(s: bytes) returns (w: bytes)
    ensures AllWs(w) && s == w + Ws(s)
  {
    if s != [] && IsWs(s[0]) {
      var v := WsSplits(s[1..]);
      w := [s[0]] + v;
      assert s == [s[0]] + s[1..];
    } else {
      w := [];
    }
  }

  lemma {:induction false} Assoc(a: bytes, b: bytes, c: bytes)
    ensures a + (b + c) == a + b + c
  {
  }

  lemma {:induction false} NoTail(a: bytes)
    ensures a + [] == a && [] + a == a
  {
  }

  /** Putting a first byte back in front of two pieces. */
  lemma {:induction false} HeadJoins(s: bytes, a: bytes, b: bytes)
    requires s != [] && s[1..] == a + b
    ensures s == [s[0]] + a + b && s == [s[0]] + (a + b)
  {
    assert s == [s[0]] + s[1..];
    Assoc([s[0]], a, b);
  }

  predicate IsAscii(b: bytes) { forall i :: 0 <= i < |b| ==> b[i] < 0x80 }

  /** ASCII text as bytes. */
  function Ascii(s: string): (r: bytes)
    requires forall i :: 0 <= i < |s| ==> s[i] < 128 as char
    ensures |r| == |s| && IsAscii(r)
    ensures forall i :: 0 <= i < |s| ==> r[i] == s[i] as int
  {
    seq(|s|, i requires 0 <= i < |s| => s[i] as int)
  }
}
