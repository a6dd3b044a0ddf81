/** The cursor-based reader: one buffer, a position and a depth that its methods
    move in place. Each method is proved against the function that says what
    the bytes from the position on are read as. */
module Readers {
  import opened Bytes
  import opened Numbers
  import opened Records
  import Messages
  import Skip
  import Text
  import Utf8

  /** What a reading method answers: a value, or the refusal at the byte it stands on. */
  datatype Answer<+T> = Got(value: T) | Refuses(word: Word, offset: int)

  /** What an imported decoder leaves is the end of what it was given. */
  lemma {:induction false} ImportedRest<R(!new)>(c: Codec<R>, s: bytes, d: int, lim: int)
    requires Contract(c) && 0 <= d && 1 <= lim <= DEPTH_LIMIT
    ensures c.decode(s, d, lim).Ok? ==> Skip.IsSuffix(c.decode(s, d, lim).rest, s)
  {
    assert DecodesAsWalked(c, s, d, lim);
    if c.decode(s, d, lim).Ok? {
      Skip.WsEndsInRest(s);
      Skip.WalkEndsInRest(Ws(s), d, lim);
    }
  }

  /** A byte of a string that stands for itself. */
  lemma {:induction false} PlainByte(b: bytes, i: nat, out: bytes)
    requires i < |b| && b[i] != QUOTE && b[i] != BACKSLASH && b[i] >= 0x20
    ensures Text.Body(b[i..], out) == Text.Body(b[i + 1..], out + [b[i]])
  {
    assert b[i..][1..] == b[i + 1..];
  }

  /** The byte a string stands on: its end, an escape, or one it cannot have. */
  lemma {:induction false} BodyAt(b: bytes, i: nat, out: bytes)
    requires i <= |b|
    ensures i == |b| ==> Text.Body(b[i..], out) == Refused(Malformed, b[i..])
    ensures i < |b| && b[i] != QUOTE && b[i] < 0x20 ==> Text.Body(b[i..], out) == Refused(BadString, b[i..])
    ensures i < |b| && b[i] == BACKSLASH ==>
              Text.Body(b[i..], out) == match Text.Escape(b[i..])
                                        case Refused(w, rest) => Refused(w, rest)
                                        case Ok(more, rest) => Text.Body(rest, out + more)
  {
  }

  class Reader {
    const buf: bytes
    const limit: int
    var pos: nat
    var depth: int

    constructor (buf: bytes, depth: int, limit: int)
      ensures this.buf == buf && this.limit == limit && pos == 0 && this.depth == depth
    {
      this.buf := buf;
      this.limit := limit;
      pos := 0;
      this.depth := depth;
    }

    ghost predicate Valid()
      reads this
    {
      pos <= |buf|
    }

    /** The bytes still to be read. */
    ghost function Rest(): bytes
      requires Valid()
      reads this
    {
      buf[pos..]
    }

    /** The reader answers what p says: the value, standing on the byte after it,
        or the refusal at the byte p refuses. */
    ghost predicate Ended<T>(p: Parsed<T>, a: Answer<T>)
      reads this
    {
      match p
      case Ok(v, rest) => Valid() && Rest() == rest && a == Got(v)
      case Refused(w, rest) => a == Refuses(w, |buf| - |rest|)
    }

    function DepthLimit(): int { if 0 < limit < DEPTH_LIMIT then limit else DEPTH_LIMIT }

    function Peek(): (c: byte)
      requires Valid()
      reads this
      ensures c == At(Rest())
    {
      if pos < |buf| then buf[pos] else 0
    }

    method SkipWs()
      requires Valid()
      modifies this`pos
      ensures Valid() && Rest() == Ws(old(Rest())) && pos >= old(pos)
    {
      while pos < |buf| && IsWs(buf[pos])
        invariant Valid() && Ws(Rest()) == Ws(old(Rest()))
      {
        assert Rest()[1..] == buf[pos + 1..];
        pos := pos + 1;
      }
    }

    method Enter() returns (a: Answer<()>)
      modifies this`depth
      ensures depth == old(depth) + 1
      ensures a == if depth > DepthLimit() then Refuses(DepthExceeded, pos) else Got(())
    {
      depth := depth + 1;
      a := if depth > DepthLimit() then Refuses(DepthExceeded, pos) else Got(());
    }

    // ---- strings ----

    method Str() returns (a: Answer<bytes>)
      requires Valid()
      modifies this`pos
      ensures Ended(Text.Str(old(Rest())), a)
    {
      if Peek() != QUOTE {
        return Refuses(WrongType, pos);
      }
      assert Rest()[1..] == buf[pos + 1..];
      pos := pos + 1;
      a := StrBody();
    }

    method StrBody() returns (a: Answer<bytes>)
      requires Valid()
      modifies this`pos
      ensures Ended(Text.Body(old(Rest()), []), a)
    {
      ghost var all := Text.Body(buf[pos..], []);
      var out: bytes := [];
      while true
        invariant Valid() && Text.Body(buf[pos..], out) == all
        decreases |buf| - pos
      {
        var done, more := StrByte(out);
        if done.Some? {
          return done.value;
        }
        out := more;
      }
    }

    /** One turn of the string loop: the end of the string, or what is read so far. */
    method StrByte(out: bytes) returns (done: Option<Answer<bytes>>, more: bytes)
      requires Valid()
      modifies this`pos
      ensures match done
              case Some(a) => Ended(Text.Body(old(buf[pos..]), out), a)
              case None => Valid() && pos > old(pos) && Text.Body(buf[pos..], more) == Text.Body(old(buf[pos..]), out)
    {
      BodyAt(buf, pos, out);
      more := out;
      if pos >= |buf| {
        return Some(Refuses(Malformed, pos)), more;
      }
      var c := buf[pos];
      if c == QUOTE {
        var a := EndOfStr(out);
        return Some(a), more;
      } else if c < 0x20 {
        return Some(Refuses(BadString, pos)), more;
      } else if c == BACKSLASH {
        var a := Escape(out);
        if a.Refuses? {
          return Some(a), more;
        }
        more := a.value;
      } else {
        PlainByte(buf, pos, out);
        more := out + [c];
        pos := pos + 1;
      }
      done := None;
    }

    /** The closing quote: what was read must be well-formed. */
    method EndOfStr(out: bytes) returns (a: Answer<bytes>)
      requires Valid() && At(Rest()) == QUOTE
      modifies this`pos
      ensures Ended(Text.Body(old(Rest()), out), a)
    {
      assert Rest()[1..] == buf[pos + 1..];
      pos := pos + 1;
      var ok := Utf8.ValidUTF8(out);
      if !ok {
        return Refuses(BadString, pos);
      }
      return Got(out);
    }

    /** The escape the reader stands on, appended to out. */
    method Escape(out: bytes) returns (a: Answer<bytes>)
      requires Valid() && pos < |buf|
      modifies this`pos
      ensures match Text.Escape(old(Rest()))
              case Ok(more, rest) => Valid() && Rest() == rest && a == Got(out + more)
              case Refused(w, rest) => a == Refuses(w, |buf| - |rest|)
    {
      ghost var s := Rest();
      assert |s| == |buf| - pos;
      pos := pos + 1;
      if pos >= |buf| {
        return Refuses(Malformed, pos);
      }
      var c := buf[pos];
      assert s[1] == c && s[2..] == buf[pos + 1..];
      pos := pos + 1;
      match Text.Unescape(c) {
        case Some(b) => return Got(out + [b]);
        case None =>
      }
      if c == LOWER_U {
        a := UnicodeEscape(out);
        return;
      }
      return Refuses(BadString, pos);
    }

    method UnicodeEscape(out: bytes) returns (a: Answer<bytes>)
      requires Valid()
      modifies this`pos
      ensures match Text.UnicodeEscape(old(Rest()))
              case Ok(more, rest) => Valid() && Rest() == rest && a == Got(out + more)
              case Refused(w, rest) => a == Refuses(w, |buf| - |rest|)
    {
      var h := Hex4();
      if h.Refuses? {
        return Refuses(h.word, h.offset);
      }
      var u := h.value;
      if Text.IsLowSurrogate(u) {
        return Refuses(BadString, pos);
      }
      if Text.IsHighSurrogate(u) {
        if pos + 1 >= |buf| || buf[pos] != BACKSLASH || buf[pos + 1] != LOWER_U {
          return Refuses(BadString, pos);
        }
        assert Rest()[2..] == buf[pos + 2..];
        pos := pos + 2;
        var l := Hex4();
        if l.Refuses? {
          return Refuses(l.word, l.offset);
        }
        var lo := l.value;
        if !Text.IsLowSurrogate(lo) {
          return Refuses(BadString, pos);
        }
        return Got(out + Utf8.AppendRune(Text.JoinSurrogates(u, lo)));
      }
      return Got(out + Utf8.AppendRune(u));
    }

    method Hex4() returns (a: Answer<nat>)
      requires Valid()
      modifies this`pos
      ensures Ended(Text.Hex4(old(Rest())), a)
    {
      ghost var s := Rest();
      if pos + 4 > |buf| {
        return Refuses(BadString, pos);
      }
      var u: nat := 0;
      for i := 0 to 4
        invariant pos == old(pos)
        invariant forall j :: 0 <= j < i ==> Text.IsHex(s[j])
        invariant u == Text.HexSoFar(s, i)
      {
        assert s[i] == buf[pos + i];
        var v := Text.HexValue(buf[pos + i]);
        if v < 0 {
          assert !Text.IsHex(s[i]);
          return Refuses(BadString, pos);
        }
        assert Text.IsHex(s[i]);
        u := u * 16 + v;
      }
      Text.HexOfPrefix(s);
      assert s[4..] == buf[pos + 4..];
      pos := pos + 4;
      return Got(u);
    }

    // ---- numbers and literals ----

    /** The accumulator is a 64-bit unsigned integer: no step of it overflows. */
    method Integer(min: int, max: int) returns (a: Answer<int>)
      requires Valid()
      modifies this`pos
      ensures Ended(Numbers.Integer(old(Rest()), min, max), a)
    {
      var c := Peek();
      if c != MINUS && !IsDigit(c) {
        return Refuses(WrongType, pos);
      }
      var neg := c == MINUS;
      assert pos < |buf|;
      if neg {
        assert Rest()[1..] == buf[pos + 1..];
        pos := pos + 1;
      }
      ghost var t := Rest();
      if !IsDigit(Peek()) {
        return Refuses(Malformed, pos);
      }
      var m := Magnitude();
      if m.Refuses? {
        return Refuses(m.word, m.offset);
      }
      var u := m.value;
      c := Peek();
      if c == DOT || c == LOWER_E || c == UPPER_E || IsDigit(c) {
        return Refuses(NumberSpelling, pos);
      }
      if neg && u == 0 {
        return Refuses(NumberSpelling, pos);
      }
      if !(neg && u == 0x8000_0000_0000_0000) && u > 0x7FFF_FFFF_FFFF_FFFF {
        return Refuses(NumberSpelling, pos);
      }
      var n: int := if neg then 0 - u as int else u as int;
      if n < min || n > max {
        return Refuses(NumberSpelling, pos);
      }
      return Got(n);
    }

    method Magnitude() returns (a: Answer<uint64>)
      requires Valid() && IsDigit(At(Rest()))
      modifies this`pos
      ensures match Numbers.Magnitude(old(Rest()))
              case Ok(u, rest) => Valid() && Rest() == rest && a.Got? && a.value as int == u
              case Refused(w, rest) => a == Refuses(w, |buf| - |rest|)
    {
      assert Rest()[1..] == buf[pos + 1..];
      if Peek() == ZERO {
        pos := pos + 1;
        return Got(0);
      }
      var u: uint64 := 0;
      while IsDigit(Peek())
        invariant Valid() && Gather(Rest(), u as int) == Gather(old(Rest()), 0)
        decreases |buf| - pos
      {
        if u > 922337203685477580 {
          return Refuses(NumberSpelling, pos);
        }
        assert Rest()[1..] == buf[pos + 1..];
        u := u * 10 + (Peek() - ZERO) as uint64;
        pos := pos + 1;
      }
      return Got(u);
    }

    method Literal(word: bytes) returns (a: Answer<()>)
      requires Valid()
      modifies this`pos
      ensures Ended(Skip.Literal(old(Rest()), word), a)
    {
      ghost var s := Rest();
      if pos + |word| > |buf| || buf[pos..pos + |word|] != word {
        assert |word| <= |s| ==> s[..|word|] == buf[pos..pos + |word|];
        return Refuses(Malformed, pos);
      }
      assert s[..|word|] == buf[pos..pos + |word|] && s[|word|..] == buf[pos + |word|..];
      pos := pos + |word|;
      return Got(());
    }

    method Boolean() returns (a: Answer<bool>)
      requires Valid()
      modifies this`pos
      ensures Ended(Records.Boolean(old(Rest())), a)
    {
      var l: Answer<()>;
      if Peek() == Skip.TRUE[0] {
        l := Literal(Skip.TRUE);
        return if l.Got? then Got(true) else Refuses(l.word, l.offset);
      } else if Peek() == Skip.FALSE[0] {
        l := Literal(Skip.FALSE);
        return if l.Got? then Got(false) else Refuses(l.word, l.offset);
      }
      return Refuses(WrongType, pos);
    }

    // ---- walking opaque values ----

    method Digits() returns (n: nat)
      requires Valid()
      modifies this`pos
      ensures Valid() && pos == old(pos) + n && Rest() == SkipDigits(old(Rest()))
    {
      n := 0;
      while IsDigit(Peek())
        invariant Valid() && pos == old(pos) + n && SkipDigits(Rest()) == SkipDigits(old(Rest()))
        decreases |buf| - pos
      {
        assert Rest()[1..] == buf[pos + 1..];
        pos := pos + 1;
        n := n + 1;
      }
    }

    method SomeDigits() returns (a: Answer<()>)
      requires Valid()
      modifies this`pos
      ensures Ended(Numbers.SomeDigits(old(Rest())), a)
    {
      ghost var s := Rest();
      assert s != [] && IsDigit(s[0]) ==> SkipDigits(s) == SkipDigits(s[1..]);
      var n := Digits();
      if n == 0 {
        return Refuses(NumberSpelling, pos);
      }
      assert IsDigit(s[0]);
      return Got(());
    }

    method SkipNumber() returns (a: Answer<()>)
      requires Valid()
      modifies this`pos
      ensures Ended(Numbers.SkipNumber(old(Rest())), a)
    {
      if Peek() == MINUS {
        assert Rest()[1..] == buf[pos + 1..];
        pos := pos + 1;
      }
      a := SkipWhole();
      if a.Refuses? {
        return;
      }
      a := SkipFraction();
      if a.Refuses? {
        return;
      }
      a := SkipExponent();
    }

    method SkipWhole() returns (a: Answer<()>)
      requires Valid()
      modifies this`pos
      ensures Ended(Numbers.SkipWhole(old(Rest())), a)
    {
      ghost var t := Rest();
      if Peek() == ZERO {
        assert Rest()[1..] == buf[pos + 1..];
        pos := pos + 1;
      } else if IsDigit(Peek()) {
        assert SkipDigits(t) == SkipDigits(t[1..]);
        var _ := Digits();
      } else {
        return Refuses(NumberSpelling, pos);
      }
      return Got(());
    }

    method SkipFraction() returns (a: Answer<()>)
      requires Valid()
      modifies this`pos
      ensures Ended(Numbers.SkipFraction(old(Rest())), a)
    {
      if Peek() == DOT {
        assert Rest()[1..] == buf[pos + 1..];
        pos := pos + 1;
        a := SomeDigits();
      } else {
        a := Got(());
      }
    }

    method SkipExponent() returns (a: Answer<()>)
      requires Valid()
      modifies this`pos
      ensures Ended(Numbers.SkipExponent(old(Rest())), a)
    {
      if Peek() == LOWER_E || Peek() == UPPER_E {
        ghost var s := Rest();
        assert s[1..] == buf[pos + 1..];
        assert |s| > 1 ==> s[2..] == buf[pos + 2..];
        pos := pos + 1;
        if Peek() == PLUS || Peek() == MINUS {
          pos := pos + 1;
        }
        a := SomeDigits();
      } else {
        a := Got(());
      }
    }

    method SkipValue() returns (a: Answer<()>)
      requires Valid()
      modifies this`pos, this`depth
      ensures Ended(Skip.SkipValue(old(Rest()), old(depth), DepthLimit()), a)
      ensures a.Got? ==> depth == old(depth)
      decreases |buf| - pos, 1
    {
      var c := Peek();
      if c == QUOTE {
        var s := Str();
        return if s.Got? then Got(()) else Refuses(s.word, s.offset);
      } else if c == LBRACE || c == LBRACKET {
        a := SkipContainer();
      } else if c == Skip.TRUE[0] {
        a := Literal(Skip.TRUE);
      } else if c == Skip.FALSE[0] {
        a := Literal(Skip.FALSE);
      } else if c == Skip.NULL[0] {
        a := Literal(Skip.NULL);
      } else if c == MINUS || IsDigit(c) {
        a := SkipNumber();
      } else {
        a := Refuses(Malformed, pos);
      }
    }

    method SkipContainer() returns (a: Answer<()>)
      requires Valid() && (At(Rest()) == LBRACE || At(Rest()) == LBRACKET)
      modifies this`pos, this`depth
      ensures Ended(Skip.SkipValue(old(Rest()), old(depth), DepthLimit()), a)
      ensures a.Got? ==> depth == old(depth)
      decreases |buf| - pos, 0
    {
      var obj := buf[pos] == LBRACE;
      var shut := Skip.Shut(obj);
      var e := Enter();
      if e.Refuses? {
        return e;
      }
      assert Rest()[1..] == buf[pos + 1..];
      pos := pos + 1;
      SkipWs();
      if Peek() == shut {
        assert Rest()[1..] == buf[pos + 1..];
        pos := pos + 1;
        depth := depth - 1;
        return Got(());
      }
      a := SkipElems(obj);
      if a.Got? {
        depth := depth - 1;
      }
    }

    /** The loop over a container's elements, and its closing byte. */
    method SkipElems(obj: bool) returns (a: Answer<()>)
      requires Valid()
      modifies this`pos, this`depth
      ensures Ended(Skip.SkipElems(old(Rest()), obj, old(depth), DepthLimit(), {}), a)
      ensures a.Got? ==> depth == old(depth)
      decreases |buf| - pos, 3
    {
      ghost var s, d := buf[pos..], depth;
      var seen: set<bytes> := {};
      while true
        invariant Valid() && pos >= old(pos) && depth == d
        invariant Skip.SkipElems(buf[pos..], obj, d, DepthLimit(), seen) == Skip.SkipElems(s, obj, d, DepthLimit(), {})
        decreases |buf| - pos
      {
        var more := SkipElem(obj, seen);
        if more.Refuses? {
          return Refuses(more.word, more.offset);
        }
        seen := more.value;
        var comma := TakeComma();
        if !comma {
          a := ShutBy(Skip.Shut(obj));
          return;
        }
      }
    }

    method TakeComma() returns (comma: bool)
      requires Valid()
      modifies this`pos
      ensures comma == (At(old(Rest())) == COMMA)
      ensures pos == (if comma then old(pos) + 1 else old(pos)) && Valid()
      ensures buf[pos..] == if comma then buf[old(pos)..][1..] else buf[old(pos)..]
    {
      comma := Peek() == COMMA;
      if comma {
        pos := pos + 1;
      }
    }

    /** The closing byte of a container. */
    method ShutBy(shut: byte) returns (a: Answer<()>)
      requires Valid() && shut != 0
      modifies this`pos
      ensures if At(old(Rest())) == shut then Valid() && Rest() == old(Rest())[1..] && a == Got(()) else a == Refuses(Malformed, old(pos))
    {
      if Peek() != shut {
        return Refuses(Malformed, pos);
      }
      assert Rest()[1..] == buf[pos + 1..];
      pos := pos + 1;
      return Got(());
    }

    /** One element and the white space around it: the names seen then. */
    method SkipElem(obj: bool, seen: set<bytes>) returns (a: Answer<set<bytes>>)
      requires Valid()
      modifies this`pos, this`depth
      ensures Ended(Skip.SkipElem(old(Rest()), obj, old(depth), DepthLimit(), seen), a)
      ensures a.Got? ==> depth == old(depth)
      decreases |buf| - pos, 2
    {
      SkipWs();
      a := Got(seen);
      if obj {
        a := Name(seen);
        if a.Refuses? {
          return;
        }
      }
      var v := SkipValue();
      if v.Refuses? {
        return Refuses(v.word, v.offset);
      }
      SkipWs();
    }

    /** The colon after a name, with white space on both sides. */
    method Colon() returns (ok: bool)
      requires Valid()
      modifies this`pos
      ensures Valid() && ok == (At(Ws(old(Rest()))) == COLON)
      ensures Rest() == if ok then Ws(Ws(old(Rest()))[1..]) else Ws(old(Rest()))
    {
      SkipWs();
      ok := Peek() == COLON;
      if ok {
        assert Rest()[1..] == buf[pos + 1..];
        pos := pos + 1;
        SkipWs();
      }
    }

    /** A member's name, new to seen, and its colon. */
    method Name(seen: set<bytes>) returns (a: Answer<set<bytes>>)
      requires Valid()
      modifies this`pos
      ensures Ended(Skip.SkipName(old(Rest()), true, seen), a)
    {
      if Peek() != QUOTE {
        return Refuses(Malformed, pos);
      }
      var k := Str();
      if k.Refuses? {
        return Refuses(k.word, k.offset);
      }
      if k.value in seen {
        return Refuses(DuplicateKey, pos);
      }
      var ok := Colon();
      if !ok {
        return Refuses(Malformed, pos);
      }
      return Got(seen + {k.value});
    }

    /** The bytes of one walked value. */
    method RawValue() returns (a: Answer<bytes>)
      requires Valid()
      modifies this`pos, this`depth
      ensures Ended(Records.RawValue(old(Rest()), old(depth), DepthLimit()), a)
      ensures a.Got? ==> depth == old(depth)
    {
      var start := pos;
      ghost var s := Rest();
      var v := SkipValue();
      if v.Refuses? {
        return Refuses(v.word, v.offset);
      }
      assert |Rest()| == |buf| - pos;
      assert s[..|s| - |Rest()|] == buf[start..pos];
      return Got(buf[start..pos]);
    }

    // ---- records ----

    /** One field's value. */
    method Value<R(!new)>(c: Codec<R>, k: Kind) returns (a: Answer<Datum<R>>)
      requires Valid() && Contract(c) && 0 <= depth
      modifies this`pos, this`depth
      ensures Ended(Records.Decode(c, k, old(Rest()), old(depth), DepthLimit()), a)
      ensures a.Got? ==> depth == old(depth)
      decreases |buf| - pos, 1
    {
      match k
      case KOpaque =>
        var v := RawValue();
        a := if v.Got? then Got(DOpaque(v.value)) else Refuses(v.word, v.offset);
      case KRequest =>
        a := Imported(c);
      case KRecord(fields) =>
        a := Record(c, fields);
      case _ =>
        a := Scalar(c, k);
    }

    /** A value without depth: text, a number, a flag or an outcome. */
    method Scalar<R(!new)>(c: Codec<R>, k: Kind) returns (a: Answer<Datum<R>>)
      requires Valid() && Contract(c) && 0 <= depth && (k.KText? || k.KInt32? || k.KFlag? || k.KOutcome?)
      modifies this`pos
      ensures Ended(Records.Decode(c, k, old(Rest()), depth, DepthLimit()), a)
    {
      match k
      case KText =>
        var v := Str();
        a := if v.Got? then Got(DText(v.value)) else Refuses(v.word, v.offset);
      case KInt32 =>
        var v := Integer(INT32_MIN, INT32_MAX);
        a := if v.Got? then Got(DInt(v.value)) else Refuses(v.word, v.offset);
      case KFlag =>
        var v := Boolean();
        a := if v.Got? then Got(DFlag(v.value)) else Refuses(v.word, v.offset);
      case KOutcome =>
        var v := Str();
        if v.Refuses? {
          return Refuses(v.word, v.offset);
        }
        var tag := ParseOutcome(v.value);
        a := if tag.Some? then Got(DOutcome(tag.value)) else Refuses(BadEnum, pos);
    }

    /** The imported decoder, handed the rest of the buffer, the depth and the limit. */
    method Imported<R(!new)>(c: Codec<R>) returns (a: Answer<Datum<R>>)
      requires Valid() && Contract(c) && 0 <= depth
      modifies this`pos
      ensures Ended(Records.Decode(c, KRequest, old(Rest()), depth, DepthLimit()), a)
    {
      ghost var s := Rest();
      var p := c.decode(buf[pos..], depth, DepthLimit());
      ImportedRest(c, s, depth, DepthLimit());
      match p
      case Refused(w, rest) =>
        a := Refuses(w, |buf| - |rest|);
      case Ok(r, rest) =>
        assert buf[|buf| - |rest|..] == s[|s| - |rest|..];
        pos := |buf| - |rest|;
        a := Got(DRequest(r));
    }

    /** A record: its members by name, and the names seen so far. */
    method Record<R(!new)>(c: Codec<R>, fields: seq<Field>) returns (a: Answer<Datum<R>>)
      requires Valid() && Contract(c) && 0 <= depth
      modifies this`pos, this`depth
      ensures Ended(Records.Decode(c, KRecord(fields), old(Rest()), old(depth), DepthLimit()), a)
      ensures a.Got? ==> depth == old(depth)
      decreases |buf| - pos, 0
    {
      if Peek() != LBRACE {
        return Refuses(WrongType, pos);
      }
      var e := Enter();
      if e.Refuses? {
        return Refuses(e.word, e.offset);
      }
      assert Rest()[1..] == buf[pos + 1..];
      pos := pos + 1;
      SkipWs();
      if Peek() == RBRACE {
        a := CloseRecord(fields, map[]);
      } else {
        a := Members(c, fields);
      }
      if a.Got? {
        depth := depth - 1;
      }
    }

    /** The loop over a record's members, and its closing byte. */
    method Members<R(!new)>(c: Codec<R>, fields: seq<Field>) returns (a: Answer<Datum<R>>)
      requires Valid() && Contract(c) && 0 <= depth
      modifies this`pos, this`depth
      ensures Ended(DecodeMembers(c, fields, old(Rest()), old(depth), DepthLimit(), map[]), a)
      ensures a.Got? ==> depth == old(depth)
      decreases |buf| - pos, 3
    {
      ghost var s, d := buf[pos..], depth;
      var v: map<bytes, Datum<R>> := map[];
      while true
        invariant Valid() && pos >= old(pos) && depth == d
        invariant DecodeMembers(c, fields, buf[pos..], d, DepthLimit(), v) == DecodeMembers(c, fields, s, d, DepthLimit(), map[])
        decreases |buf| - pos
      {
        var more := Member(c, fields, v);
        if more.Refuses? {
          return Refuses(more.word, more.offset);
        }
        v := more.value;
        var comma := TakeComma();
        if !comma {
          a := CloseRecord(fields, v);
          return;
        }
      }
    }

    /** The closing byte of a record, which must be complete. */
    method CloseRecord<R>(fields: seq<Field>, v: map<bytes, Datum<R>>) returns (a: Answer<Datum<R>>)
      requires Valid()
      modifies this`pos
      ensures Ended(Close(fields, v, old(Rest())), a)
    {
      var e := ShutBy(RBRACE);
      if e.Refuses? {
        return Refuses(e.word, e.offset);
      }
      if !Complete(fields, v) {
        return Refuses(MissingField, pos);
      }
      return Got(DRecord(v));
    }

    /** One member and the white space around it: what is decoded then. */
    method Member<R(!new)>(c: Codec<R>, fields: seq<Field>, v: map<bytes, Datum<R>>) returns (a: Answer<map<bytes, Datum<R>>>)
      requires Valid() && Contract(c) && 0 <= depth
      modifies this`pos, this`depth
      ensures Ended(DecodeMember(c, fields, old(Rest()), old(depth), DepthLimit(), v), a)
      ensures a.Got? ==> depth == old(depth)
      decreases |buf| - pos, 2
    {
      SkipWs();
      var name := MemberName();
      if name.Refuses? {
        return Refuses(name.word, name.offset);
      }
      var f := FieldOf(fields, name.value);
      if f.None? {
        return Refuses(UnknownField, pos);
      }
      if name.value in v {
        return Refuses(DuplicateField, pos);
      }
      var x := Value(c, f.value.kind);
      if x.Refuses? {
        return Refuses(x.word, x.offset);
      }
      SkipWs();
      return Got(v[name.value := x.value]);
    }

    method MemberName() returns (a: Answer<bytes>)
      requires Valid()
      modifies this`pos
      ensures Ended(Records.MemberName(old(Rest())), a)
    {
      if Peek() != QUOTE {
        return Refuses(Malformed, pos);
      }
      var k := Str();
      if k.Refuses? {
        return k;
      }
      var ok := Colon();
      if !ok {
        return Refuses(Malformed, pos);
      }
      return k;
    }
  }

  /** A reference decoded from the front of a buffer, at a depth and under a limit. */
  method DecodeRefAt(input: bytes, depth: int, limit: int) returns (a: Answer<Messages.Ref>, n: nat)
    ensures match Messages.DecodeRefAt(input, depth, limit)
            case Ok(v, rest) => n <= |input| && input[n..] == rest && a == Got(v)
            case Refused(w, rest) => a == Refuses(w, |input| - |rest|)
  {
    if depth < 0 || limit < 1 {
      return Refuses(DepthExceeded, 0), 0;
    }
    var r := new Reader(input, depth, limit);
    r.SkipWs();
    Messages.NoCodecIsSound();
    var m := r.Record(Messages.NoCodec(), Messages.REF_FIELDS);
    n := r.pos;
    if m.Got? {
      Messages.DecodesToRecord(Messages.NoCodec(), Messages.REF_FIELDS, Ws(input), depth, Messages.LimitOf(limit));
    }
    a := if m.Got? then Got(Messages.AsRef(m.value.fields)) else Refuses(m.word, m.offset);
  }
}
