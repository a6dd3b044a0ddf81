/** Which tokens are versions, parameters and quantisation levels, told by their
    characters, and what each does to a name. */
module Versions {
  import opened Identity
  import opened Families

  // ---- versions ----

  predicate IsDotted(s: string) { forall i :: 0 <= i < |s| ==> '0' <= s[i] <= '9' || s[i] == '.' }

  /** An optional v, a digit, and any digits and dots. */
  predicate VersionOf(t: string, v: string, d: char, more: string)
  {
    t == v + [d] + more && (v == "" || v == "v") && '0' <= d <= '9' && IsDotted(more)
  }

  ghost predicate VersionShape(t: string) { exists v: string, d: char, more: string :: VersionOf(t, v, d, more) }

  lemma {:induction false} ShapeIsVersion(t: string, v: string, d: char, more: string)
    requires VersionOf(t, v, d, more)
    ensures IsVersion(t)
  {
    var body := CutPrefix(t, 'v');
    assert body == [d] + more;
  }

  /** What the loop takes for a version is one of this shape. */
  lemma {:induction false} VersionExactly(t: string)
    ensures IsVersion(t) <==> VersionShape(t)
  {
    if IsVersion(t) {
      var body := CutPrefix(t, 'v');
      var v := if t[0] == 'v' then "v" else "";
      assert t == v + [body[0]] + body[1..];
      assert VersionOf(t, v, body[0], body[1..]);
    } else if VersionShape(t) {
      var v, d, more :| VersionOf(t, v, d, more);
      ShapeIsVersion(t, v, d, more);
    }
  }

  // ---- a version joins the name before it ----

  lemma {:induction false} FreshIgnores(s: seq<string>, a: set<string>, b: set<string>)
    requires forall t :: t in s ==> (t in a <==> t in b)
    ensures Fresh(s, a) == Fresh(s, b)
  {
    if s != [] {
      FreshIgnores(s[..|s| - 1], a, b);
      assert s[|s| - 1] in s;
    }
  }

  /** The parts of a name and its version are those of the two written as one. */
  lemma {:induction false} VersionMerges(w: string, v: string, rest: seq<string>)
    requires VersionShape(v) && w !in rest && v !in rest && (rest == [] || !VersionShape(rest[0]))
    ensures NameParts([w, v] + rest) == NameParts([w + v] + rest)
  {
    VersionExactly(v);
    if rest != [] {
      VersionExactly(rest[0]);
    }
    var two, one := [w, v] + rest, [w + v] + rest;
    assert Rest(two) == rest && Rest(one) == rest;
    FreshIgnores(rest, Seen(two), Seen(one));
  }

  /** A second token of the name proper that holds anything else is a part of its own,
      and the first one stays as it is. */
  lemma {:induction false} OthersStandAlone(named: seq<string>, u: string)
    requires |named| > 1 && named[1] == u && !VersionShape(u) && u != named[0]
    ensures NameParts(named)[0] == named[0] && u in NameParts(named)[1..]
  {
    VersionExactly(u);
    var rest, seen := Rest(named), Seen(named);
    assert rest[0] == u;
    FreshMembers(rest, seen, u);
    var once := Fresh(rest, seen);
    WhereMembers(IsParams, once, u);
    WhereMembers(VariantTest(), once, u);
    InEither(named[0], Where(IsParams, once), Where(VariantTest(), once), u);
  }

  lemma {:induction false} InEither(base: string, a: seq<string>, b: seq<string>, u: string)
    requires u in a || u in b
    ensures u in ([base] + a + b)[1..]
  {
    assert ([base] + a + b)[1..] == a + b;
  }

  // ---- over whole names ----

  /** A token that the scan keeps and the assembly takes for the name proper. */
  ghost predicate Proper(r: Rules, t: string)
  {
    Whole(t) && !StartsRun(r, t) && t !in r.role && t !in r.packaging
  }

  lemma {:induction false} ProperIsKept(r: Rules, raw: seq<string>)
    requires raw != [] && Proper(r, raw[0]) && (|raw| < 2 || raw[1] != "of")
    ensures KeptTokens(r, raw) == [raw[0]] + KeptTokens(r, raw[1..])
    ensures QuantTokens(r, raw) == QuantTokens(r, raw[1..])
  {
    if QuantRun(r, raw) > 0 {
      RunsStart(r, raw);
    }
    ScanStep(r, raw);
  }

  lemma {:induction false} ProperIsNamed(r: Rules, t: string, toks: seq<string>)
    requires Proper(r, t)
    ensures Named(r, [t] + toks) == [t] + Named(r, toks) && Roles(r, [t] + toks) == Roles(r, toks)
  {
    WhereAppends(NameTest(r), [t], toks);
    WhereAppends(RoleTest(r), [t], toks);
    OneOf(NameTest(r), t);
    OneOf(RoleTest(r), t);
    assert [] + Where(RoleTest(r), toks) == Where(RoleTest(r), toks);
  }

  lemma {:induction false} OneOf(p: string -> bool, t: string)
    ensures Where(p, [t]) == if p(t) then [t] else []
  {
    WhereSnoc(p, [], t);
    assert [] + [t] == [t];
  }

  /** Over token lists: a second token gives the family of the two as one exactly when
      it is a version. */
  lemma {:induction false} VersionJoinsExactly(
      r: Rules, w: string, v: string, toks: seq<string>, later: seq<string>, two: seq<string>, one: seq<string>)
    requires Proper(r, w) && Proper(r, v) && Proper(r, w + v) && AllWhole(toks)
    requires w !in toks && v !in toks && (Named(r, toks) == [] || !VersionShape(Named(r, toks)[0]))
    requires later == [v] + toks && two == [w] + later && one == [w + v] + toks
    ensures Family(r, two) == Family(r, one) <==> VersionShape(v)
  {
    var named := Named(r, toks);
    ProperIsNamed(r, w, later);
    ProperIsNamed(r, v, toks);
    ProperIsNamed(r, w + v, toks);
    TwoInFront(w, v, named);
    if VersionShape(v) {
      WhereMembers(NameTest(r), toks, w);
      WhereMembers(NameTest(r), toks, v);
      VersionMerges(w, v, named);
    } else {
      BasesDiffer(w, v, named);
      AllAreWhole(w, v, toks);
      PartsAreWhole(r, two);
      PartsAreWhole(r, one);
      assert AllParts(r, two)[0] != AllParts(r, one)[0];
      if Family(r, two) == Family(r, one) {
        JoinInjective(AllParts(r, two), AllParts(r, one));
      }
    }
  }

  lemma {:induction false} BasesDiffer(w: string, v: string, rest: seq<string>)
    requires !VersionShape(v) && v != "" && (rest == [] || !VersionShape(rest[0]))
    ensures NameParts([w, v] + rest)[0] != NameParts([w + v] + rest)[0]
  {
    VersionExactly(v);
    if rest != [] {
      VersionExactly(rest[0]);
    }
    assert |w + v| > |w|;
  }

  lemma {:induction false} AllAreWhole(w: string, v: string, toks: seq<string>)
    requires AllWhole(toks) && Whole(w) && Whole(v) && Whole(w + v)
    ensures AllWhole([w] + ([v] + toks)) && AllWhole([w + v] + toks)
  {
  }

  lemma {:induction false} TwoInFront(w: string, v: string, rest: seq<string>)
    ensures [w] + ([v] + rest) == [w, v] + rest
  {
  }

  /** Splitting undoes joining. */
  lemma {:induction false} FieldsOfJoined(ts: seq<string>)
    requires AllWhole(ts)
    ensures Fields(Join(ts, '-')) == ts
  {
    if ts != [] {
      WholeIsOneField(ts[0], "");
      assert "" + ts[0] == ts[0] && [] + [ts[0]] == [ts[0]];
      if |ts| > 1 {
        FieldsJoin(ts[0], "", '-', Join(ts[1..], '-'));
        FieldsOfJoined(ts[1..]);
        assert [ts[0]] + ts[1..] == ts;
      } else {
        assert ts == [ts[0]];
      }
    }
  }

  lemma {:induction false} NameOfTokens(r: Rules, ts: seq<string>, ps: seq<string>)
    requires AllWhole(ts)
    ensures TokensOf(r, [Join(ts, '-')] + ps) == KeptTokens(r, ts) + TokensOf(r, ps)
    ensures Families.Parsed(r, [Join(ts, '-')] + ps).quant == QuantOf(r, ps, Join(QuantTokens(r, ts), '_'))
  {
    var parts := [Join(ts, '-')] + ps;
    assert parts[1..] == ps;
    FieldsOfJoined(ts);
  }

  lemma {:induction false} FrontIsKept(r: Rules, t: string, more: seq<string>, raw: seq<string>)
    requires raw == [t] + more && Proper(r, t) && (more == [] || more[0] != "of")
    ensures KeptTokens(r, raw) == [t] + KeptTokens(r, more) && QuantTokens(r, raw) == QuantTokens(r, more)
  {
    assert raw[1..] == more;
    ProperIsKept(r, raw);
  }

  /** What both names keep. */
  lemma {:induction false} TwoKept(r: Rules, w: string, v: string, more: seq<string>, two: seq<string>)
    requires Proper(r, w) && Proper(r, v) && v != "of" && (more == [] || more[0] != "of") && two == [w, v] + more
    ensures KeptTokens(r, two) == [w, v] + KeptTokens(r, more) && QuantTokens(r, two) == QuantTokens(r, more)
  {
    var later := [v] + more;
    TwoInFront(w, v, more);
    FrontIsKept(r, v, more, later);
    FrontIsKept(r, w, later, two);
    TwoInFront(w, v, KeptTokens(r, more));
  }

  lemma {:induction false} LaterTokens(a: seq<string>, b: seq<string>, c: seq<string>)
    ensures a + b + c == a + (b + c)
  {
  }

  /** Over whole names: one that writes two tokens and one that writes them as one are
      the same model exactly when the second is a version, and their quantisations are
      the same anyhow. */
  lemma {:induction false} VersionedNamesAreSame(
      r: Rules, w: string, v: string, more: seq<string>, ps: seq<string>, two: string, one: string)
    requires Proper(r, w) && Proper(r, v) && Proper(r, w + v) && v != "of"
    requires AllWhole(more) && (more == [] || more[0] != "of")
    requires two == Join([w, v] + more, '-') && one == Join([w + v] + more, '-')
    requires var toks := KeptTokens(r, more) + TokensOf(r, ps);
             w !in toks && v !in toks && (Named(r, toks) == [] || !VersionShape(Named(r, toks)[0]))
    ensures var a, b := Families.Parsed(r, [two] + ps), Families.Parsed(r, [one] + ps);
            a.quant == b.quant && (a.family == b.family <==> VersionShape(v)) && b.family != ""
  {
    var kept, last := KeptTokens(r, more), TokensOf(r, ps);
    NameOfTokens(r, [w, v] + more, ps);
    NameOfTokens(r, [w + v] + more, ps);
    TwoKept(r, w, v, more, [w, v] + more);
    FrontIsKept(r, w + v, more, [w + v] + more);
    LaterTokens([w, v], kept, last);
    LaterTokens([w + v], kept, last);
    TwoInFront(w, v, kept + last);
    LaterAreWhole(r, more, ps);
    VersionJoinsExactly(r, w, v, kept + last, [v] + (kept + last), TokensOf(r, [two] + ps), TokensOf(r, [one] + ps));
    FamilyStarts(r, w + v, kept + last);
  }

  lemma {:induction false} LaterAreWhole(r: Rules, more: seq<string>, ps: seq<string>)
    requires AllWhole(more)
    ensures AllWhole(KeptTokens(r, more) + TokensOf(r, ps))
  {
    KeptAreWhole(r, more);
    TokensAreWhole(r, ps);
  }

  lemma {:induction false} FamilyStarts(r: Rules, t: string, toks: seq<string>)
    requires Proper(r, t)
    ensures Family(r, [t] + toks) != ""
  {
    ProperIsNamed(r, t, toks);
    var parts := AllParts(r, [t] + toks);
    assert |parts[0]| > 0;
    JoinStarts(parts);
  }

  // ---- quantisation levels ----

  /** An optional i, a q, and digits. */
  predicate LevelOf(t: string, i: string, ds: string)
  {
    t == i + ['q'] + ds && (i == "" || i == "i") && ds != "" && AllDigits(ds)
  }

  lemma {:induction false} LevelExactly(t: string)
    ensures IsQuantLevel(t) <==> exists i: string, ds: string :: LevelOf(t, i, ds)
  {
    var body := CutPrefix(t, 'i');
    if IsQuantLevel(t) {
      var i := if t[0] == 'i' then "i" else "";
      assert t == i + ['q'] + body[1..];
      assert LevelOf(t, i, body[1..]);
    }
    forall i: string, ds: string | LevelOf(t, i, ds) ensures IsQuantLevel(t) {
      assert body == ['q'] + ds && body[1..] == ds;
    }
  }

  lemma {:induction false} TailsRun(r: Rules, tails: seq<string>, after: seq<string>)
    requires (forall t :: t in tails ==> t in r.quantTail) && (after == [] || after[0] !in r.quantTail)
    ensures Tails(r, tails + after) == |tails|
  {
    if tails == [] {
      assert tails + after == after;
    } else {
      assert (tails + after)[1..] == tails[1..] + after;
      TailsRun(r, tails[1..], after);
    }
  }

  /** A level takes the tails after it and nothing else, and is the quantisation with
      them. */
  lemma {:induction false} LevelTakesTails(r: Rules, t: string, i: string, ds: string, tails: seq<string>, after: seq<string>)
    requires Sound(r) && LevelOf(t, i, ds) && t !in r.quantWord
    requires (forall u :: u in tails ==> u in r.quantTail) && (after == [] || after[0] !in r.quantTail)
    ensures QuantRun(r, [t] + (tails + after)) == 1 + |tails| && QuantTokens(r, [t] + (tails + after)) == [t] + tails
    ensures KeptTokens(r, [t] + (tails + after)) == KeptTokens(r, after)
  {
    LevelExactly(t);
    var raw := [t] + (tails + after);
    assert raw[1..] == tails + after;
    TailsRun(r, tails, after);
    LevelIsNoNumber(t, i, ds);
    ScanStep(r, raw);
    assert raw[..1 + |tails|] == [t] + tails && raw[1 + |tails|..] == after;
    assert [] + KeptTokens(r, after) == KeptTokens(r, after);
  }

  lemma {:induction false} LevelIsNoNumber(t: string, i: string, ds: string)
    requires LevelOf(t, i, ds)
    ensures t != "" && !AllDigits(t) && t != "ud"
  {
    assert t[0] == if i == "" then 'q' else 'i';
  }

  // ---- parameter counts ----

  predicate Separator(s: string) { s == "" || s == "." || s == "x" }

  /** Digits with at most one point and at most one x among them. */
  predicate SizeOf(body: string, a: string, s: string, b: string, u: string, c: string)
  {
    && body == a + s + b + u + c && a + b + c != "" && AllDigits(a) && AllDigits(b) && AllDigits(c)
    && Separator(s) && Separator(u) && (s == u ==> s == "")
  }

  ghost predicate SizeShape(body: string)
  {
    exists a: string, s: string, b: string, u: string, c: string :: SizeOf(body, a, s, b, u, c)
  }

  /** An optional a, a size, and one of the letters b, m and k. */
  ghost predicate ParamsShape(t: string)
  {
    exists pre: string, body: string, last: char ::
      t == pre + body + [last] && (pre == "" || pre == "a") && SizeShape(body) && (last == 'b' || last == 'm' || last == 'k')
  }

  predicate Counted(body: string)
  {
    AllParam(body) && CountDigits(body) > 0 && Count(body, '.') <= 1 && Count(body, 'x') <= 1
  }

  lemma {:induction false} CountAppends(a: string, b: string, c: char)
    ensures Count(a + b, c) == Count(a, c) + Count(b, c)
  {
    if a == "" {
      assert a + b == b;
    } else {
      assert (a + b)[1..] == a[1..] + b;
      CountAppends(a[1..], b, c);
    }
  }

  lemma {:induction false} DigitsAppend(a: string, b: string)
    ensures CountDigits(a + b) == CountDigits(a) + CountDigits(b)
  {
    if a == "" {
      assert a + b == b;
    } else {
      assert (a + b)[1..] == a[1..] + b;
      DigitsAppend(a[1..], b);
    }
  }

  lemma {:induction false} DigitsCount(a: string, c: char)
    requires AllDigits(a) && !IsDigit(c)
    ensures CountDigits(a) == |a| && Count(a, c) == 0
  {
    if a != "" {
      DigitsCount(a[1..], c);
    }
  }

  lemma {:induction false} SizeCounts(body: string, a: string, s: string, b: string, u: string, c: string)
    requires SizeOf(body, a, s, b, u, c)
    ensures Counted(body)
  {
    DigitsAppend(a + s + b + u, c);
    DigitsAppend(a + s + b, u);
    DigitsAppend(a + s, b);
    DigitsAppend(a, s);
    DigitsCount(a, '.');
    DigitsCount(b, '.');
    DigitsCount(c, '.');
    SizeHolds(a, s, b, u, c, '.');
    SizeHolds(a, s, b, u, c, 'x');
  }

  lemma {:induction false} SizeHolds(a: string, s: string, b: string, u: string, c: string, sep: char)
    requires AllDigits(a) && AllDigits(b) && AllDigits(c) && Separator(s) && Separator(u) && (s == u ==> s == "") && !IsDigit(sep)
    ensures Count(a + s + b + u + c, sep) <= 1
  {
    CountAppends(a + s + b + u, c, sep);
    CountAppends(a + s + b, u, sep);
    CountAppends(a + s, b, sep);
    CountAppends(a, s, sep);
    DigitsCount(a, sep);
    DigitsCount(b, sep);
    DigitsCount(c, sep);
  }

  predicate AllParam(s: string) { forall i :: 0 <= i < |s| ==> ParamChar(s[i]) }

  function IsOne(s: string, c: char): nat { if s == [c] then 1 else 0 }

  /** The digits at the front. */
  lemma {:induction false} FrontDigits(body: string) returns (a: string, rest: string)
    ensures body == a + rest && AllDigits(a) && (rest == "" || !IsDigit(rest[0]))
    ensures AllParam(body) ==> AllParam(rest)
  {
    if body == "" || !IsDigit(body[0]) {
      a, rest := "", body;
    } else {
      var more;
      more, rest := FrontDigits(body[1..]);
      a := [body[0]] + more;
      assert body == [body[0]] + body[1..];
    }
  }

  /** What stands before and after a separator at the front. */
  lemma {:induction false} TakeSeparator(rest: string) returns (s: string, after: string)
    requires AllParam(rest) && (rest == "" || !IsDigit(rest[0]))
    ensures rest == s + after && Separator(s) && (s == "" ==> after == "") && AllParam(after)
    ensures forall c :: Count(rest, c) == IsOne(s, c) + Count(after, c)
  {
    if rest == "" {
      s, after := "", "";
    } else {
      s, after := [rest[0]], rest[1..];
      assert rest == [rest[0]] + rest[1..];
    }
  }

  /** Digits and a separator off the front; counted, what is left has the rest. */
  lemma {:induction false} Piece(body: string) returns (a: string, s: string, after: string)
    requires AllParam(body)
    ensures body == a + s + after && AllDigits(a) && Separator(s) && (s == "" ==> after == "") && AllParam(after)
    ensures Count(body, '.') == IsOne(s, '.') + Count(after, '.') && Count(body, 'x') == IsOne(s, 'x') + Count(after, 'x')
  {
    var rest;
    a, rest := FrontDigits(body);
    s, after := TakeSeparator(rest);
    CountAppends(a, rest, '.');
    CountAppends(a, rest, 'x');
    DigitsCount(a, '.');
    DigitsCount(a, 'x');
    assert a + (s + after) == a + s + after;
  }

  /** Two separators leave no third. */
  lemma {:induction false} NoThird(s: string, u: string, after: string)
    requires AllParam(after) && Separator(s) && Separator(u) && (u == "" ==> after == "") && (s == "" ==> u == "")
    requires IsOne(s, '.') + (IsOne(u, '.') + Count(after, '.')) <= 1 && IsOne(s, 'x') + (IsOne(u, 'x') + Count(after, 'x')) <= 1
    ensures AllDigits(after) && (s == u ==> s == "")
  {
    var a, v, rest := Piece(after);
    assert v == "";
    assert after == a + v + rest == a;
  }

  lemma {:induction false} CountedHasSize(body: string) returns (a: string, s: string, b: string, u: string, c: string)
    requires Counted(body)
    ensures SizeOf(body, a, s, b, u, c)
  {
    var middle;
    a, s, middle := Piece(body);
    b, u, c := Piece(middle);
    NoThird(s, u, c);
    Regroup(a, s, b, u, c);
    SomeDigits(a, s, b, u, c);
  }

  lemma {:induction false} Regroup(a: string, s: string, b: string, u: string, c: string)
    ensures a + s + (b + u + c) == a + s + b + u + c
  {
  }

  lemma {:induction false} SomeDigits(a: string, s: string, b: string, u: string, c: string)
    requires CountDigits(a + s + b + u + c) > 0 && Separator(s) && Separator(u)
    ensures a + b + c != ""
  {
    if a + b + c == "" {
      assert a + s + b + u + c == s + u;
      DigitsAppend(s, u);
    }
  }

  lemma {:induction false} ShapeIsParams(t: string, pre: string, body: string, last: char)
    requires t == pre + body + [last] && (pre == "" || pre == "a") && Counted(body) && (last == 'b' || last == 'm' || last == 'k')
    ensures IsParams(t)
  {
    assert t[..|t| - 1] == pre + body;
    assert body != "" && body[0] != 'a';
    assert CutPrefix(pre + body, 'a') == body;
  }

  /** What the counting loop takes for a parameter count is of this shape, and nothing
      else is. */
  lemma {:induction false} ParamsExactly(t: string)
    ensures IsParams(t) <==> ParamsShape(t)
  {
    if IsParams(t) {
      var init, last := t[..|t| - 1], t[|t| - 1];
      var body := CutPrefix(init, 'a');
      var pre := if init[0] == 'a' then "a" else "";
      assert t == init + [last] && init == pre + body;
      var a, s, b, u, c := CountedHasSize(body);
    }
    forall pre: string, body: string, last: char
      | t == pre + body + [last] && (pre == "" || pre == "a") && SizeShape(body) && (last == 'b' || last == 'm' || last == 'k')
      ensures IsParams(t)
    {
      var a, s, b, u, c :| SizeOf(body, a, s, b, u, c);
      SizeCounts(body, a, s, b, u, c);
      ShapeIsParams(t, pre, body, last);
    }
  }

  // ---- runs ----

  /** A block word takes a block format after it: four characters at least, an e first
      and an m among them. */
  lemma {:induction false} BlockTakesFormat(r: Rules, w: string, t: string, after: seq<string>)
    requires w in r.quantWord && w in r.blockWord && w != "ud"
    ensures QuantRun(r, [w] + ([t] + after)) == if |t| >= 4 && t[0] == 'e' && (exists i :: 0 <= i < |t| && t[i] == 'm') then 2 else 1
  {
    assert ([w] + ([t] + after))[1] == t;
  }

  /** A "ud" before a run belongs to it, and before anything else to nothing. */
  lemma {:induction false} UdBelongsToRun(r: Rules, raw: seq<string>)
    requires Sound(r) && raw != [] && raw[0] != "ud"
    ensures QuantRun(r, ["ud"] + raw) == if QuantRun(r, raw) > 0 then 1 + QuantRun(r, raw) else 0
  {
    var all := ["ud"] + raw;
    assert all[1..] == raw;
    if QuantRun(r, raw) == 0 {
      assert "ud" !in r.quantWord && !IsQuantLevel("ud");
    }
  }

  /** The quantisation of a name is that of its last part that has one. */
  lemma {:induction false} LastQuantWins(r: Rules, ps: seq<string>, p: string, before: string)
    ensures var q := Join(QuantTokens(r, Fields(p)), '_');
            QuantOf(r, ps + [p], before) == if q != "" then q else QuantOf(r, ps, before)
  {
    if ps == [] {
      assert ps + [p] == [p] && [p][1..] == [];
    } else {
      assert (ps + [p])[1..] == ps[1..] + [p];
      var q := Join(QuantTokens(r, Fields(ps[0])), '_');
      LastQuantWins(r, ps[1..], p, if q != "" then q else before);
    }
  }

  // ---- the order of the parts ----

  lemma {:induction false} AllChosen(p: string -> bool, s: seq<string>)
    ensures forall t :: t in Where(p, s) ==> p(t)
  {
    forall t | t in Where(p, s) ensures p(t) {
      WhereMembers(p, s, t);
    }
  }

  /** Behind the base the parameter counts come first, whatever stood between them. */
  lemma {:induction false} ParamsComeFirst(named: seq<string>, i: nat, j: nat)
    requires named != [] && 0 < i < j < |NameParts(named)|
    ensures ParamsShape(NameParts(named)[j]) ==> ParamsShape(NameParts(named)[i])
  {
    var once := Fresh(Rest(named), Seen(named));
    var params, variants := Where(IsParams, once), Where(VariantTest(), once);
    var parts := NameParts(named);
    AllChosen(IsParams, once);
    AllChosen(VariantTest(), once);
    assert parts == [Base(named)] + params + variants;
    ParamsExactly(parts[i]);
    ParamsExactly(parts[j]);
    if i > |params| {
      assert parts[j] == variants[j - 1 - |params|];
      assert parts[j] in variants;
    } else {
      assert parts[i] == params[i - 1];
      assert parts[i] in params;
    }
  }
}
