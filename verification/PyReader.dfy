/** The Python codec's string and integer readers, where they differ from the
    bytewise ones: a fast path over whole chunks, and a bound on digits. */
module PyReaders {
  import opened Bytes
  import opened Numbers
  import opened Readers
  import Text
  import Utf8

  /** A byte the string loop copies as it stands. */
  predicate IsCopied(c: byte) { c >= 0x20 && c != QUOTE && c != BACKSLASH }

  predicate AllCopied(chunk: bytes) { forall i :: 0 <= i < |chunk| ==> IsCopied(chunk[i]) }

  lemma {:induction false} CopiedIsRead(chunk: bytes, tail: bytes, out: bytes)
    requires AllCopied(chunk)
    ensures Text.Body(chunk + tail, out) == Text.Body(tail, out + chunk)
  {
    if chunk == [] {
      assert chunk + tail == tail && out + chunk == out;
    } else {
      assert (chunk + tail)[1..] == chunk[1..] + tail;
      CopiedIsRead(chunk[1..], tail, out + [chunk[0]]);
      assert out + [chunk[0]] + chunk[1..] == out + chunk;
    }
  }

  /** The answer of the fast path on a chunk between two quotes. */
  function Fast(chunk: bytes, tail: bytes): Parsed<bytes>
  {
    if Utf8.Valid(chunk) then Ok(chunk, tail) else Refused(BadString, tail)
  }

  /** Wherever the fast path may be taken, it answers what the bytewise path
      answers: the same text, the same end, the same refusal at the same byte. */
  lemma {:induction false} FastPathAgrees(s: bytes, chunk: bytes, tail: bytes)
    requires s == [QUOTE] + chunk + [QUOTE] + tail && AllCopied(chunk)
    ensures Text.Str(s) == Fast(chunk, tail)
  {
    assert s[1..] == chunk + ([QUOTE] + tail);
    CopiedIsRead(chunk, [QUOTE] + tail, []);
    assert [] + chunk == chunk;
    assert ([QUOTE] + tail)[1..] == tail;
  }

  /** The index of the first c at or after start, or -1. */
  method Find(buf: bytes, c: byte, start: nat) returns (at: int)
    requires start <= |buf|
    ensures at == -1 || (start <= at < |buf| && buf[at] == c)
    ensures forall i :: start <= i < (if at == -1 then |buf| else at) ==> buf[i] != c
  {
    at := start;
    while at < |buf|
      invariant start <= at <= |buf|
      invariant forall i :: start <= i < at ==> buf[i] != c
    {
      if buf[at] == c {
        return;
      }
      at := at + 1;
    }
    at := -1;
  }

  method Min(chunk: bytes) returns (m: byte)
    requires chunk != []
    ensures m in chunk && forall i :: 0 <= i < |chunk| ==> m <= chunk[i]
  {
    m := chunk[0];
    for i := 1 to |chunk|
      invariant m in chunk && forall j :: 0 <= j < i ==> m <= chunk[j]
    {
      if chunk[i] < m {
        m := chunk[i];
      }
    }
  }

  /** Whether a chunk has no escape and no control byte. */
  method MayBeTakenWhole(chunk: bytes) returns (ok: bool)
    requires forall i :: 0 <= i < |chunk| ==> chunk[i] != QUOTE
    ensures ok == AllCopied(chunk)
  {
    var escape := Find(chunk, BACKSLASH, 0);
    if escape != -1 {
      assert !IsCopied(chunk[escape]);
      return false;
    }
    if chunk == [] {
      return true;
    }
    var m := Min(chunk);
    ok := m >= 0x20;
    if !ok {
      var i :| 0 <= i < |chunk| && chunk[i] == m;
      assert !IsCopied(chunk[i]);
    }
  }

  /** The string reader: the fast path where it may be taken, else byte by byte. */
  method String(r: Reader) returns (a: Answer<bytes>)
    requires r.Valid()
    modifies r`pos
    ensures r.Ended(Text.Str(old(r.Rest())), a)
  {
    if r.Peek() != QUOTE {
      return Refuses(WrongType, r.pos);
    }
    var end := Find(r.buf, QUOTE, r.pos + 1);
    if end >= 0 {
      var chunk := r.buf[r.pos + 1..end];
      var whole := MayBeTakenWhole(chunk);
      if whole {
        assert r.Rest() == [QUOTE] + chunk + [QUOTE] + r.buf[end + 1..];
        FastPathAgrees(r.Rest(), chunk, r.buf[end + 1..]);
        r.pos := end + 1;
        var ok := Utf8.ValidUTF8(chunk);
        return if ok then Got(chunk) else Refuses(BadString, r.pos);
      }
    }
    a := r.Str();
  }

  /** The conversion of a run of digits. */
  method Convert(ds: bytes) returns (n: nat)
    requires AllDigits(ds)
    ensures n == Value(ds, 0)
  {
    n := 0;
    for i := 0 to |ds|
      invariant Value(ds[i..], n) == Value(ds, 0)
    {
      assert ds[i..][1..] == ds[i + 1..];
      n := n * 10 + (ds[i] - ZERO);
    }
  }

  /** The digits the reader stands on: one zero, or as many as there are. */
  method TakeRun(r: Reader) returns (ds: bytes)
    requires r.Valid() && IsDigit(At(r.Rest()))
    modifies r`pos
    ensures r.Valid() && ds == RunOf(old(r.Rest())) && |ds| <= |old(r.Rest())| && r.Rest() == old(r.Rest())[|ds|..]
  {
    ghost var s := r.Rest();
    var start := r.pos;
    if r.Peek() == ZERO {
      assert s[1..] == r.buf[r.pos + 1..];
      r.pos := r.pos + 1;
      return [ZERO];
    }
    assert SkipDigits(s) == SkipDigits(s[1..]);
    var n := r.Digits();
    DigitsSplit(s);
    assert |s| == |r.buf| - start && |r.Rest()| == |r.buf| - r.pos;
    ds := r.buf[start..r.pos];
    assert ds == s[..n];
  }

  lemma {:induction false} DigitsSplit(s: bytes)
    ensures TakeDigits(s) == s[..|s| - |SkipDigits(s)|] && s[|TakeDigits(s)|..] == SkipDigits(s)
  {
    if s != [] && IsDigit(s[0]) {
      DigitsSplit(s[1..]);
      assert s == [s[0]] + s[1..];
    }
  }

  /** The integer reader: no accumulator, at most nineteen digits. */
  method Integer(r: Reader, low: int, high: int) returns (a: Answer<int>)
    requires r.Valid()
    modifies r`pos
    ensures r.Ended(PyInteger(old(r.Rest()), low, high), a)
  {
    var c := r.Peek();
    if c != MINUS && !IsDigit(c) {
      return Refuses(WrongType, r.pos);
    }
    var negative := c == MINUS;
    if negative {
      assert r.Rest()[1..] == r.buf[r.pos + 1..];
      r.pos := r.pos + 1;
    }
    if !IsDigit(r.Peek()) {
      return Refuses(Malformed, r.pos);
    }
    TakeDigitsSplits(r.Rest());
    var ds := TakeRun(r);
    a := Judge(r, negative, ds, low, high);
  }

  method Judge(r: Reader, negative: bool, ds: bytes, low: int, high: int) returns (a: Answer<int>)
    requires r.Valid() && AllDigits(ds)
    ensures r.Ended(PyJudge(negative, ds, r.Rest(), low, high), a)
  {
    var c := r.Peek();
    if c == DOT || c == LOWER_E || c == UPPER_E || IsDigit(c) || |ds| > 19 {
      return Refuses(NumberSpelling, r.pos);
    }
    var n: int := Convert(ds);
    if negative {
      if n == 0 {
        return Refuses(NumberSpelling, r.pos);
      }
      n := -n;
    }
    if n < low || n > high {
      return Refuses(NumberSpelling, r.pos);
    }
    return Got(n);
  }
}
