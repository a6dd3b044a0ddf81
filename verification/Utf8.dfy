/** The UTF-8 writer and checker of the codec, against RFC 3629. */
module Utf8 {
  import opened Bytes

  /** A Unicode scalar value: any code point but a surrogate. */
  predicate IsScalar(cp: int) { 0 <= cp <= 0x10FFFF && !(0xD800 <= cp <= 0xDFFF) }
  type scalar = cp: int | IsScalar(cp)

  /** The bytes written for one code point. The shifts and masks of the source
      are divisions and remainders; its ors join disjoint bits, so they are sums. */
  function AppendRune(cp: int): bytes
    requires 0 <= cp <= 0x10FFFF
  {
    if cp < 0x80 then [cp]
    else if cp < 0x800 then [0xC0 + cp / 64, 0x80 + cp % 64]
    else if cp < 0x10000 then [0xE0 + cp / 4096, 0x80 + cp / 64 % 64, 0x80 + cp % 64]
    else [0xF0 + cp / 262144, 0x80 + cp / 4096 % 64, 0x80 + cp / 64 % 64, 0x80 + cp % 64]
  }

  datatype Lead = Bad | Rune(cp: int, n: nat)

  /** The code point collected from continuation bytes k to n. */
  function Trail(b: bytes, k: nat, n: nat, cp: int): Lead
    requires k <= n <= |b|
    decreases n - k
  {
    if k == n then Rune(cp, n)
    else if b[k] / 64 != 2 then Bad
    else Trail(b, k + 1, n, cp * 64 + b[k] % 64)
  }

  /** How many bytes a leading byte announces; 0 for none it may announce. */
  function Announced(c: byte): (n: nat)
    ensures n <= 4
  {
    if c < 0x80 then 1
    else if c / 32 == 0x6 then 2
    else if c / 16 == 0xE then 3
    else if c / 8 == 0x1E then 4
    else 0
  }

  function LeadBits(c: byte): nat
  {
    if c < 0x80 then c
    else if c / 32 == 0x6 then c % 32
    else if c / 16 == 0xE then c % 16
    else c % 8
  }

  function Lowest(n: nat): int { if n == 2 then 0x80 else if n == 3 then 0x800 else if n == 4 then 0x10000 else 0 }

  /** The first code point of b as the checker reads it. */
  function LeadRune(b: bytes): (r: Lead)
    requires b != []
    ensures r.Rune? ==> 1 <= r.n <= |b|
  {
    var n := Announced(b[0]);
    if n == 1 then Rune(b[0], 1)
    else if n == 0 || n > |b| then Bad
    else
      TrailLength(b, 1, n, LeadBits(b[0]));
      match Trail(b, 1, n, LeadBits(b[0]))
      case Bad => Bad
      case Rune(cp, _) => if cp < Lowest(n) || !IsScalar(cp) then Bad else Rune(cp, n)
  }

  lemma {:induction false} TrailLength(b: bytes, k: nat, n: nat, cp: int)
    requires k <= n <= |b|
    ensures Trail(b, k, n, cp).Rune? ==> Trail(b, k, n, cp).n == n
    decreases n - k
  {
    if k < n && b[k] / 64 == 2 {
      TrailLength(b, k + 1, n, cp * 64 + b[k] % 64);
    }
  }

  /** Whether b is well-formed UTF-8. */
  predicate Valid(b: bytes)
  {
    b == [] || match LeadRune(b) case Bad => false case Rune(_, n) => Valid(b[n..])
  }

  lemma {:induction false} ValidStep(b: bytes, i: nat)
    requires i < |b|
    ensures LeadRune(b[i..]).Bad? ==> !Valid(b[i..])
    ensures LeadRune(b[i..]).Rune? ==> Valid(b[i..]) == Valid(b[i + LeadRune(b[i..]).n..])
  {
    if LeadRune(b[i..]).Rune? {
      assert b[i..][LeadRune(b[i..]).n..] == b[i + LeadRune(b[i..]).n..];
    }
  }

  /** The loop over the trailing bytes of one code point. */
  method TrailAt(b: bytes, i: nat, n: nat, bits: int) returns (ok: bool, cp: int)
    requires 1 <= n && i + n <= |b|
    ensures Trail(b[i..], 1, n, bits) == if ok then Rune(cp, n) else Bad
  {
    cp := bits;
    var k := 1;
    while k < n
      invariant 1 <= k <= n
      invariant Trail(b[i..], 1, n, bits) == Trail(b[i..], k, n, cp)
    {
      if b[i + k] / 64 != 2 {
        return false, cp;
      }
      cp := cp * 64 + b[i + k] % 64;
      k := k + 1;
    }
    ok := true;
  }

  function LengthOf(lead: Lead): nat { match lead case Bad => 0 case Rune(_, n) => n }

  /** The length of the code point at i; 0 for none. */
  method RuneAt(b: bytes, i: nat) returns (n: nat)
    requires i < |b|
    ensures n == LengthOf(LeadRune(b[i..]))
  {
    var c := b[i];
    ghost var rest := b[i..];
    var cp: int;
    if c < 0x80 {
      return 1;
    } else if c / 32 == 0x6 {
      n, cp := 2, c % 32;
    } else if c / 16 == 0xE {
      n, cp := 3, c % 16;
    } else if c / 8 == 0x1E {
      n, cp := 4, c % 8;
    } else {
      return 0;
    }
    assert n == Announced(c) && cp == LeadBits(c);
    if i + n > |b| {
      return 0;
    }
    var trails;
    trails, cp := TrailAt(b, i, n, cp);
    if !trails || cp < Lowest(n) || cp > 0x10FFFF || (0xD800 <= cp <= 0xDFFF) {
      return 0;
    }
  }

  /** One turn of the loop: past one code point, or none. */
  method NextRune(b: bytes, i: nat) returns (n: nat)
    requires i < |b|
    ensures if n == 0 then !Valid(b[i..]) else i + n <= |b| && Valid(b[i..]) == Valid(b[i + n..])
  {
    n := RuneAt(b, i);
    ValidStep(b, i);
  }

  lemma {:induction false} FromStart(b: bytes)
    ensures Valid(b[0..]) == Valid(b)
  {
    assert b[0..] == b;
  }

  lemma {:induction false} NothingLeft(b: bytes)
    ensures Valid(b[|b|..])
  {
    assert b[|b|..] == [];
  }

  /** The loop of the checker. */
  method ValidUTF8(b: bytes) returns (ok: bool)
    ensures ok == Valid(b)
  {
    FromStart(b);
    NothingLeft(b);
    var i := 0;
    ghost var all := Valid(b);
    while i < |b|
      invariant 0 <= i <= |b|
      invariant all == Valid(b[i..])
    {
      var n := NextRune(b, i);
      if n == 0 {
        return false;
      }
      i := i + n;
    }
    return true;
  }

  // ---- what the checker accepts ----

  function Encode(runes: seq<scalar>): bytes
  {
    if runes == [] then [] else AppendRune(runes[0]) + Encode(runes[1..])
  }

  /** The six-bit digits of a code point put together again. */
  lemma {:induction false} Digits64(cp: nat)
    ensures cp / 64 * 64 + cp % 64 == cp
    ensures cp / 4096 * 64 + cp / 64 % 64 == cp / 64
    ensures cp / 262144 * 64 + cp / 4096 % 64 == cp / 4096
  {
    assert cp / 4096 == cp / 64 / 64;
    assert cp / 262144 == cp / 4096 / 64;
  }

  lemma {:induction false} TrailStep(b: bytes, k: nat, n: nat, cp: int)
    requires k < n <= |b|
    requires b[k] / 64 == 2
    ensures Trail(b, k, n, cp) == Trail(b, k + 1, n, cp * 64 + b[k] % 64)
  {
  }

  lemma {:induction false} RuneReads2(cp: int, b: bytes)
    requires 0x80 <= cp < 0x800 && |b| >= 2
    requires b[0] == 0xC0 + cp / 64 && b[1] == 0x80 + cp % 64
    ensures LeadRune(b) == Rune(cp, 2)
  {
    Digits64(cp);
    TrailStep(b, 1, 2, LeadBits(b[0]));
  }

  lemma {:induction false} RuneReads3(cp: int, b: bytes)
    requires 0x800 <= cp < 0x10000 && IsScalar(cp) && |b| >= 3
    requires b[0] == 0xE0 + cp / 4096 && b[1] == 0x80 + cp / 64 % 64 && b[2] == 0x80 + cp % 64
    ensures LeadRune(b) == Rune(cp, 3)
  {
    Digits64(cp);
    assert LeadBits(b[0]) == cp / 4096;
    TrailStep(b, 1, 3, cp / 4096);
    TrailStep(b, 2, 3, cp / 64);
  }

  lemma {:induction false} RuneReads4(cp: int, b: bytes)
    requires 0x10000 <= cp <= 0x10FFFF && |b| >= 4
    requires b[0] == 0xF0 + cp / 262144 && b[1] == 0x80 + cp / 4096 % 64
    requires b[2] == 0x80 + cp / 64 % 64 && b[3] == 0x80 + cp % 64
    ensures LeadRune(b) == Rune(cp, 4)
  {
    Digits64(cp);
    assert LeadBits(b[0]) == cp / 262144;
    TrailStep(b, 1, 4, cp / 262144);
    TrailStep(b, 2, 4, cp / 4096);
    TrailStep(b, 3, 4, cp / 64);
  }

  /** A written scalar value reads back as itself, whatever follows. */
  lemma {:induction false} RuneReads(cp: int, tail: bytes)
    requires IsScalar(cp)
    ensures LeadRune(AppendRune(cp) + tail) == Rune(cp, |AppendRune(cp)|)
  {
    var b := AppendRune(cp) + tail;
    if cp < 0x80 {
      assert b[0] == cp;
    } else if cp < 0x800 {
      RuneReads2(cp, b);
    } else if cp < 0x10000 {
      RuneReads3(cp, b);
    } else {
      RuneReads4(cp, b);
    }
  }

  /** Six-bit digits come apart as they were put together. */
  lemma {:induction false} Undigit(hi: nat, d: nat)
    requires d < 64
    ensures (hi * 64 + d) / 64 == hi && (hi * 64 + d) % 64 == d
  {
  }

  lemma {:induction false} RuneWrites2(b: bytes)
    requires |b| >= 2 && LeadRune(b).Rune? && LeadRune(b).n == 2
    ensures var cp := LeadRune(b).cp; IsScalar(cp) && [b[0], b[1]] == AppendRune(cp)
  {
    var c0 := LeadBits(b[0]);
    TrailStep(b, 1, 2, c0);
    Undigit(c0, b[1] % 64);
  }

  lemma {:induction false} RuneWrites3(b: bytes)
    requires |b| >= 3 && LeadRune(b).Rune? && LeadRune(b).n == 3
    ensures var cp := LeadRune(b).cp; IsScalar(cp) && [b[0], b[1], b[2]] == AppendRune(cp)
  {
    var c0 := LeadBits(b[0]);
    TrailStep(b, 1, 3, c0);
    var c1 := c0 * 64 + b[1] % 64;
    TrailStep(b, 2, 3, c1);
    var c2 := c1 * 64 + b[2] % 64;
    Undigit(c0, b[1] % 64);
    Undigit(c1, b[2] % 64);
    assert c2 / 4096 == c2 / 64 / 64;
  }

  lemma {:induction false} RuneWrites4(b: bytes)
    requires |b| >= 4 && LeadRune(b).Rune? && LeadRune(b).n == 4
    ensures var cp := LeadRune(b).cp; IsScalar(cp) && [b[0], b[1], b[2], b[3]] == AppendRune(cp)
  {
    var c0 := LeadBits(b[0]);
    TrailStep(b, 1, 4, c0);
    var c1 := c0 * 64 + b[1] % 64;
    TrailStep(b, 2, 4, c1);
    var c2 := c1 * 64 + b[2] % 64;
    TrailStep(b, 3, 4, c2);
    var c3 := c2 * 64 + b[3] % 64;
    Undigit(c0, b[1] % 64);
    Undigit(c1, b[2] % 64);
    Undigit(c2, b[3] % 64);
    assert c3 / 4096 == c3 / 64 / 64;
    assert c3 / 262144 == c3 / 4096 / 64;
  }

  /** What the checker reads as one code point is exactly what is written for it. */
  lemma {:induction false} RuneWrites(b: bytes)
    requires b != [] && LeadRune(b).Rune?
    ensures var r := LeadRune(b); IsScalar(r.cp) && b[..r.n] == AppendRune(r.cp)
  {
    var n := LeadRune(b).n;
    if n == 1 {
      assert b[..1] == [b[0]];
    } else if n == 2 {
      RuneWrites2(b);
      assert b[..2] == [b[0], b[1]];
    } else if n == 3 {
      RuneWrites3(b);
      assert b[..3] == [b[0], b[1], b[2]];
    } else {
      RuneWrites4(b);
      assert b[..4] == [b[0], b[1], b[2], b[3]];
    }
  }

  /** Every string of scalar values is written as well-formed bytes. */
  predicate Continues(c: byte) { 0x80 <= c < 0xC0 }

  function Over(c: int, base: int): int { c - base }

  /** The table of section 3 of RFC 3629: the leading bits tell the length, the rest of
      the bits are the code point's, and a longer form starts where a shorter one ends. */
  lemma {:induction false} RuneLayout(cp: nat)
    requires cp <= 0x10FFFF
    ensures var b := AppendRune(cp);
            if cp < 0x80 then b == [cp]
            else if cp < 0x800 then
              |b| == 2 && 0xC0 <= b[0] < 0xE0 && Continues(b[1]) && cp == Over(b[0], 0xC0) * 64 + Over(b[1], 0x80)
            else if cp < 0x10000 then
              && |b| == 3 && 0xE0 <= b[0] < 0xF0 && Continues(b[1]) && Continues(b[2])
              && cp == Over(b[0], 0xE0) * 4096 + Over(b[1], 0x80) * 64 + Over(b[2], 0x80)
            else
              && |b| == 4 && 0xF0 <= b[0] < 0xF8 && Continues(b[1]) && Continues(b[2]) && Continues(b[3])
              && cp == Over(b[0], 0xF0) * 262144 + Over(b[1], 0x80) * 4096 + Over(b[2], 0x80) * 64 + Over(b[3], 0x80)
  {
    Digits64(cp);
  }

  lemma {:induction false} RuneIsValid(cp: int)
    requires IsScalar(cp)
    ensures Valid(AppendRune(cp))
  {
    var runes: seq<scalar> := [cp];
    EncodeIsValid(runes);
    OneEncodes(runes, AppendRune(cp));
  }

  lemma {:induction false} OneEncodes(runes: seq<scalar>, b: bytes)
    requires |runes| == 1 && b == AppendRune(runes[0])
    ensures Encode(runes) == b
  {
    assert runes[1..] == [];
    assert b + [] == b;
  }

  lemma {:induction false} EncodeIsValid(runes: seq<scalar>)
    ensures Valid(Encode(runes))
  {
    if runes != [] {
      RuneReads(runes[0], Encode(runes[1..]));
      EncodeIsValid(runes[1..]);
      assert Encode(runes)[|AppendRune(runes[0])|..] == Encode(runes[1..]);
    }
  }

  /** The scalar values well-formed bytes spell. */
  lemma {:induction false} ValidIsEncoded(b: bytes) returns (runes: seq<scalar>)
    requires Valid(b)
    ensures Encode(runes) == b
  {
    if b == [] {
      runes := [];
    } else {
      RuneWrites(b);
      var n := LeadRune(b).n;
      var more := ValidIsEncoded(b[n..]);
      runes := [LeadRune(b).cp] + more;
      assert runes[1..] == more;
      assert b == b[..n] + b[n..];
    }
  }

  /** The checker accepts exactly the concatenations of written scalar values. */
  lemma {:induction false} ValidExactly(b: bytes)
    ensures Valid(b) <==> exists runes: seq<scalar> :: Encode(runes) == b
  {
    if Valid(b) {
      var runes := ValidIsEncoded(b);
    }
    forall runes: seq<scalar> | Encode(runes) == b ensures Valid(b) {
      EncodeIsValid(runes);
    }
  }

  /** ... and in one way only. */
  lemma {:induction false} DecompositionIsUnique(x: seq<scalar>, y: seq<scalar>)
    requires Encode(x) == Encode(y)
    ensures x == y
  {
    if x == [] || y == [] {
      assert x == y;
    } else {
      var b := Encode(x);
      RuneReads(x[0], Encode(x[1..]));
      RuneReads(y[0], Encode(y[1..]));
      assert x[0] == y[0];
      var n := |AppendRune(x[0])|;
      assert Encode(x[1..]) == b[n..] == Encode(y[1..]);
      DecompositionIsUnique(x[1..], y[1..]);
      assert x == [x[0]] + x[1..] && y == [y[0]] + y[1..];
    }
  }

  /** ASCII bytes are well-formed. */
  lemma {:induction false} AsciiIsValid(b: bytes)
    requires IsAscii(b)
    ensures Valid(b)
  {
    if b != [] {
      assert LeadRune(b) == Rune(b[0], 1);
      AsciiIsValid(b[1..]);
    }
  }
}
