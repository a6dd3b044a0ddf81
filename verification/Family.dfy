/** From part strings to a family: the tokens a part splits into, the names and
    roles among them, and the one string that stands for a model. */
module Families {
  import opened Bytes
  import opened Identity
  import opened Appends

  // ---- lists ----

  /** The members of s that p holds of, in order. */
  function Where(p: string -> bool, s: seq<string>): seq<string>
  {
    if s == [] then []
    else
      var init, t := s[..|s| - 1], s[|s| - 1];
      if p(t) then Where(p, init) + [t] else Where(p, init)
  }

  /** The members of s not seen before, at their first place. */
  function Fresh(s: seq<string>, seen: set<string>): seq<string>
  {
    if s == [] then []
    else
      var init, t := s[..|s| - 1], s[|s| - 1];
      if t in seen || t in Fresh(init, seen) then Fresh(init, seen) else Fresh(init, seen) + [t]
  }

  lemma {:induction false} WhereSnoc(p: string -> bool, s: seq<string>, t: string)
    ensures Where(p, s + [t]) == if p(t) then Where(p, s) + [t] else Where(p, s)
  {
    assert (s + [t])[..|s|] == s;
  }

  lemma {:induction false} FreshSnoc(s: seq<string>, seen: set<string>, t: string)
    ensures Fresh(s + [t], seen) == if t in seen || t in Fresh(s, seen) then Fresh(s, seen) else Fresh(s, seen) + [t]
  {
    assert (s + [t])[..|s|] == s;
  }

  lemma {:induction false} WhereAppends(p: string -> bool, a: seq<string>, b: seq<string>)
    ensures Where(p, a + b) == Where(p, a) + Where(p, b)
  {
    if b == [] {
      assert a + b == a;
    } else {
      assert (a + b)[..|a + b| - 1] == a + b[..|b| - 1];
      WhereAppends(p, a, b[..|b| - 1]);
    }
  }

  lemma {:induction false} WhereMembers(p: string -> bool, s: seq<string>, t: string)
    ensures t in Where(p, s) <==> t in s && p(t)
  {
    if s != [] {
      var init, last := s[..|s| - 1], s[|s| - 1];
      assert s == init + [last];
      WhereMembers(p, init, t);
    }
  }

  lemma {:induction false} FreshMembers(s: seq<string>, seen: set<string>, t: string)
    ensures t in Fresh(s, seen) <==> t in s && t !in seen
  {
    if s != [] {
      var init, last := s[..|s| - 1], s[|s| - 1];
      assert s == init + [last];
      FreshMembers(init, seen, t);
    }
  }

  predicate Distinct(s: seq<string>) { forall i, j :: 0 <= i < j < |s| ==> s[i] != s[j] }

  lemma {:induction false} FreshIsDistinct(s: seq<string>, seen: set<string>)
    ensures Distinct(Fresh(s, seen))
  {
    if s != [] {
      FreshIsDistinct(s[..|s| - 1], seen);
    }
  }

  /** Choosing and removing repeats commute: what is chosen only sees its own kind. */
  lemma {:induction false} FreshSelects(p: string -> bool, s: seq<string>, seen: set<string>)
    ensures Where(p, Fresh(s, seen)) == Fresh(Where(p, s), seen)
  {
    if s != [] {
      var init, t := s[..|s| - 1], s[|s| - 1];
      var firsts := Fresh(init, seen);
      FreshSelects(p, init, seen);
      WhereMembers(p, firsts, t);
      WhereSnoc(p, firsts, t);
      FreshSnoc(Where(p, init), seen, t);
    }
  }

  // ---- splitting a part ----

  predicate IsBreak(c: char) { c == '-' || c == '_' || c == ' ' || c == '+' }

  predicate Whole(t: string) { t != "" && forall i :: 0 <= i < |t| ==> !IsBreak(t[i]) }

  ghost predicate AllWhole(s: seq<string>) { forall i :: 0 <= i < |s| ==> Whole(s[i]) }

  function Add(s: seq<string>, t: string): seq<string> { if t == "" then s else s + [t] }

  /** The fields of p when t has been read of the last one. */
  function FieldsFrom(p: string, t: string): seq<string>
  {
    if p == "" then Add([], t)
    else if IsBreak(p[0]) then Add([], t) + FieldsFrom(p[1..], "")
    else FieldsFrom(p[1..], t + [p[0]])
  }

  /** The maximal runs of other characters between separators. */
  function Fields(p: string): seq<string> { FieldsFrom(p, "") }

  lemma {:induction false} FieldsAreWhole(p: string, t: string)
    requires t == "" || Whole(t)
    ensures AllWhole(FieldsFrom(p, t))
  {
    if p != "" {
      if IsBreak(p[0]) {
        FieldsAreWhole(p[1..], "");
      } else {
        FieldsAreWhole(p[1..], t + [p[0]]);
      }
    }
  }

  lemma {:induction false} FieldsJoin(p: string, t: string, c: char, q: string)
    requires IsBreak(c)
    ensures FieldsFrom(p + [c] + q, t) == FieldsFrom(p, t) + Fields(q)
  {
    var all := p + [c] + q;
    if p == "" {
      assert all[1..] == q;
    } else {
      assert all[1..] == p[1..] + [c] + q;
      if IsBreak(p[0]) {
        FieldsJoin(p[1..], "", c, q);
      } else {
        FieldsJoin(p[1..], t + [p[0]], c, q);
      }
    }
  }

  lemma {:induction false} WholeIsOneField(p: string, t: string)
    requires forall i :: 0 <= i < |p| ==> !IsBreak(p[i])
    ensures FieldsFrom(p, t) == Add([], t + p)
  {
    if p == "" {
      assert t + p == t;
    } else {
      WholeIsOneField(p[1..], t + [p[0]]);
      assert t + [p[0]] + p[1..] == t + p;
    }
  }

  function Replace(p: string, c: char): string
  {
    if p == "" then "" else [if p[0] == c then '-' else p[0]] + Replace(p[1..], c)
  }

  /** Python's split at '-', empty pieces and all. */
  function SplitFrom(p: string, t: string): seq<string>
  {
    if p == "" then [t]
    else if p[0] == '-' then [t] + SplitFrom(p[1..], "")
    else SplitFrom(p[1..], t + [p[0]])
  }

  function NonEmpty(s: seq<string>): seq<string>
  {
    if s == [] then [] else Add([], s[0]) + NonEmpty(s[1..])
  }

  function PyFields(p: string): seq<string> { NonEmpty(SplitFrom(Replace(Replace(Replace(p, '_'), ' '), '+'), "")) }

  function Dashed(p: string): string
  {
    if p == "" then "" else [if IsBreak(p[0]) then '-' else p[0]] + Dashed(p[1..])
  }

  lemma {:induction false} ReplacesAreDashes(p: string)
    ensures Replace(Replace(Replace(p, '_'), ' '), '+') == Dashed(p)
  {
    if p != "" {
      var a := Replace(p, '_');
      var b := Replace(a, ' ');
      assert a[1..] == Replace(p[1..], '_');
      assert b[1..] == Replace(a[1..], ' ');
      ReplacesAreDashes(p[1..]);
    }
  }

  lemma {:induction false} SplitIsFields(p: string, t: string)
    ensures NonEmpty(SplitFrom(Dashed(p), t)) == FieldsFrom(p, t)
  {
    if p == "" {
      assert [t][1..] == [];
    } else {
      var d := Dashed(p);
      assert d[1..] == Dashed(p[1..]);
      if IsBreak(p[0]) {
        SplitIsFields(p[1..], "");
        assert ([t] + SplitFrom(d[1..], ""))[1..] == SplitFrom(d[1..], "");
      } else {
        SplitIsFields(p[1..], t + [p[0]]);
      }
    }
  }

  /** Replacing, splitting and dropping what is empty gives Go's fields. */
  lemma {:induction false} SplitsAgree(p: string)
    ensures PyFields(p) == Fields(p)
  {
    ReplacesAreDashes(p);
    SplitIsFields(p, "");
  }

  // ---- the parts of a family ----

  /** A role that is not packaging: packaging is tried first. */
  function RoleTest(r: Rules): string -> bool { t => t in r.role && t !in r.packaging }

  function NameTest(r: Rules): string -> bool { t => t !in r.role && t !in r.packaging }

  function VariantTest(): string -> bool { t => !IsParams(t) }

  /** The tokens of the name proper. */
  function Named(r: Rules, toks: seq<string>): seq<string> { Where(NameTest(r), toks) }

  function Roles(r: Rules, toks: seq<string>): seq<string> { Fresh(Where(RoleTest(r), toks), {}) }

  /** Whether the second token is a version, which then joins the first. */
  predicate Versioned(named: seq<string>) { |named| > 1 && IsVersion(named[1]) }

  function Base(named: seq<string>): string
    requires named != []
  {
    if Versioned(named) then named[0] + named[1] else named[0]
  }

  function Seen(named: seq<string>): set<string>
    requires named != []
  {
    if Versioned(named) then {named[0], named[1], named[0] + named[1]} else {named[0]}
  }

  function Rest(named: seq<string>): seq<string>
    requires named != []
  {
    if Versioned(named) then named[2..] else named[1..]
  }

  function NameParts(named: seq<string>): seq<string>
  {
    if named == [] then []
    else
      var once := Fresh(Rest(named), Seen(named));
      [Base(named)] + Where(IsParams, once) + Where(VariantTest(), once)
  }

  /** The base, its parameters, its variants: the name without its roles. */
  function BaseParts(r: Rules, toks: seq<string>): seq<string> { NameParts(Named(r, toks)) }

  function AllParts(r: Rules, toks: seq<string>): seq<string> { BaseParts(r, toks) + Roles(r, toks) }

  function Join(parts: seq<string>, c: char): string
  {
    if parts == [] then ""
    else if |parts| == 1 then parts[0]
    else parts[0] + [c] + Join(parts[1..], c)
  }

  function Family(r: Rules, toks: seq<string>): string { Join(AllParts(r, toks), '-') }

  // ---- joining loses nothing ----

  lemma {:induction false} JoinStarts(parts: seq<string>)
    requires parts != []
    ensures Join(parts, '-') == parts[0] + if |parts| == 1 then "" else ['-'] + Join(parts[1..], '-')
  {
    if |parts| > 1 {
      assert parts[0] + ['-'] + Join(parts[1..], '-') == parts[0] + (['-'] + Join(parts[1..], '-'));
    }
  }

  /** What stands before the first dash of a string, and what follows it, are
      determined by the string. */
  lemma {:induction false} FirstDash(a: string, x: string, b: string, y: string)
    requires Whole(a) && Whole(b) && a + x == b + y
    requires (x == "" || x[0] == '-') && (y == "" || y[0] == '-')
    ensures a == b && x == y
  {
    var s := a + x;
    assert forall i :: 0 <= i < |a| ==> s[i] == a[i];
    assert s == b + y && forall i :: 0 <= i < |b| ==> s[i] == b[i];
    assert |a| < |s| ==> s[|a|] == '-';
    assert |b| < |s| ==> s[|b|] == '-';
    assert a == s[..|a|] && x == s[|a|..] && b == s[..|b|] && y == s[|b|..];
  }

  /** Equal families are equal part lists. */
  lemma {:induction false} JoinInjective(a: seq<string>, b: seq<string>)
    requires AllWhole(a) && AllWhole(b) && Join(a, '-') == Join(b, '-')
    ensures a == b
  {
    if a != [] {
      JoinStarts(a);
    }
    if b != [] {
      JoinStarts(b);
    }
    if a != [] && b != [] {
      var x := if |a| == 1 then "" else ['-'] + Join(a[1..], '-');
      var y := if |b| == 1 then "" else ['-'] + Join(b[1..], '-');
      FirstDash(a[0], x, b[0], y);
      if |a| > 1 {
        assert x[1..] == Join(a[1..], '-') && y[1..] == Join(b[1..], '-');
        JoinInjective(a[1..], b[1..]);
        assert a == [a[0]] + a[1..] && b == [b[0]] + b[1..];
      } else {
        assert a == [a[0]] && b == [b[0]];
      }
    }
  }

  lemma {:induction false} JoinAppends(a: seq<string>, t: string)
    requires a != []
    ensures Join(a + [t], '-') == Join(a, '-') + "-" + t
  {
    var all := a + [t];
    if |a| == 1 {
      assert all[1..] == [t];
    } else {
      assert all[1..] == a[1..] + [t];
      JoinAppends(a[1..], t);
    }
  }

  // ---- parts are whole ----

  lemma {:induction false} WhereIsWhole(p: string -> bool, s: seq<string>)
    requires AllWhole(s)
    ensures AllWhole(Where(p, s))
  {
    forall t | t in Where(p, s) ensures Whole(t) {
      WhereMembers(p, s, t);
    }
  }

  lemma {:induction false} FreshIsWhole(s: seq<string>, seen: set<string>)
    requires AllWhole(s)
    ensures AllWhole(Fresh(s, seen))
  {
    forall t | t in Fresh(s, seen) ensures Whole(t) {
      FreshMembers(s, seen, t);
    }
  }

  lemma {:induction false} PartsAreWhole(r: Rules, toks: seq<string>)
    requires AllWhole(toks)
    ensures AllWhole(BaseParts(r, toks)) && AllWhole(Roles(r, toks)) && AllWhole(AllParts(r, toks))
  {
    WhereIsWhole(RoleTest(r), toks);
    FreshIsWhole(Where(RoleTest(r), toks), {});
    var named := Named(r, toks);
    WhereIsWhole(NameTest(r), toks);
    if named != [] {
      var once := Fresh(Rest(named), Seen(named));
      FreshIsWhole(Rest(named), Seen(named));
      WhereIsWhole(IsParams, once);
      WhereIsWhole(VariantTest(), once);
    }
  }

  /** Two names are the same model exactly when they have the same parts, and any. */
  predicate Same(r: Rules, a: seq<string>, b: seq<string>) { Family(r, a) != "" && Family(r, a) == Family(r, b) }

  lemma {:induction false} SameExactly(r: Rules, a: seq<string>, b: seq<string>)
    requires AllWhole(a) && AllWhole(b)
    ensures Same(r, a, b) <==> AllParts(r, a) == AllParts(r, b) != []
  {
    PartsAreWhole(r, a);
    PartsAreWhole(r, b);
    if AllParts(r, a) != [] {
      JoinStarts(AllParts(r, a));
    }
    if Same(r, a, b) {
      JoinInjective(AllParts(r, a), AllParts(r, b));
    }
  }

  // ---- appending a token ----

  /** Whether a further token t says nothing new: it is packaging, or a role already
      there, or a token already there or what base and version made together,
      unless it is the version the lone first token waits for. */
  predicate Represented(r: Rules, toks: seq<string>, t: string)
  {
    var named := Named(r, toks);
    || t in r.packaging
    || (t in r.role && t in toks)
    || (t !in r.role && (t in toks || (named != [] && t == Base(named))) && !(|named| == 1 && IsVersion(t)))
  }

  lemma {:induction false} NamePartsSnoc(named: seq<string>, t: string)
    requires named != [] && !(|named| == 1 && IsVersion(t))
    ensures var once := Fresh(Rest(named), Seen(named));
            var more := if t in Seen(named) || t in once then once else once + [t];
            NameParts(named + [t]) == [Base(named)] + Where(IsParams, more) + Where(VariantTest(), more)
  {
    var all := named + [t];
    assert Versioned(all) == Versioned(named) && Base(all) == Base(named) && Seen(all) == Seen(named);
    assert Rest(all) == Rest(named) + [t];
    FreshSnoc(Rest(named), Seen(named), t);
  }

  lemma {:induction false} SeenOrOnce(named: seq<string>, t: string)
    requires named != []
    ensures t in Seen(named) || t in Fresh(Rest(named), Seen(named)) <==> t in named || t == Base(named)
  {
    FreshMembers(Rest(named), Seen(named), t);
    if Versioned(named) {
      assert named == [named[0], named[1]] + named[2..];
    } else {
      assert named == [named[0]] + named[1..];
    }
  }

  /** One more token of the name proper changes its parts unless it is there. */
  lemma {:induction false} NamePartsGrow(named: seq<string>, t: string)
    requires Whole(t)
    ensures NameParts(named + [t]) == NameParts(named)
            <==> named != [] && (t in named || t == Base(named)) && !(|named| == 1 && IsVersion(t))
  {
    if named == [] {
      assert named + [t] == [t];
    } else if |named| == 1 && IsVersion(t) {
      assert Base(named + [t]) == named[0] + t && |Base(named + [t])| > |named[0]|;
      assert NameParts(named + [t])[0] == named[0] + t;
    } else {
      NamePartsSnoc(named, t);
      SeenOrOnce(named, t);
      var once := Fresh(Rest(named), Seen(named));
      WhereSnoc(IsParams, once, t);
      WhereSnoc(VariantTest(), once, t);
    }
  }

  lemma {:induction false} SnocSplits(r: Rules, toks: seq<string>, t: string)
    ensures Named(r, toks + [t]) == if t in r.role || t in r.packaging then Named(r, toks) else Named(r, toks) + [t]
    ensures Roles(r, toks + [t]) == if t in r.role && t !in r.packaging && t !in toks then Roles(r, toks) + [t] else Roles(r, toks)
  {
    WhereSnoc(NameTest(r), toks, t);
    WhereSnoc(RoleTest(r), toks, t);
    var found := Where(RoleTest(r), toks);
    FreshSnoc(found, {}, t);
    FreshMembers(found, {}, t);
    WhereMembers(RoleTest(r), toks, t);
  }

  /** A fine-tune never joins its base, and when a name does stay: over all token
      lists, a further token leaves the family as it was exactly when it is
      represented. */
  lemma {:induction false} FineTuneNeverJoins(r: Rules, toks: seq<string>, t: string)
    requires AllWhole(toks) && Whole(t)
    ensures Family(r, toks + [t]) == Family(r, toks) <==> Represented(r, toks, t)
  {
    var all := toks + [t];
    SnocSplits(r, toks, t);
    NamePartsGrow(Named(r, toks), t);
    WhereMembers(NameTest(r), toks, t);
    SplitsTell(BaseParts(r, toks), Roles(r, toks), BaseParts(r, all), Roles(r, all));
    PartsAreWhole(r, toks);
    PartsAreWhole(r, all);
    if Family(r, all) == Family(r, toks) {
      JoinInjective(AllParts(r, all), AllParts(r, toks));
    }
  }

  lemma {:induction false} SplitsTell(a: seq<string>, x: seq<string>, b: seq<string>, y: seq<string>)
    requires a == b || x == y
    ensures a + x == b + y <==> a == b && x == y
  {
    if a + x == b + y {
      assert |a| == |b|;
      assert a == (a + x)[..|a|] && x == (a + x)[|a|..];
      assert b == (b + y)[..|a|] && y == (b + y)[|a|..];
    }
  }

  // ---- where packaging, roles and parameters stand ----

  lemma {:induction false} WhereInserted(p: string -> bool, a: seq<string>, t: string, b: seq<string>)
    requires !p(t)
    ensures Where(p, a + [t] + b) == Where(p, a + b)
  {
    WhereAppends(p, a + [t], b);
    WhereSnoc(p, a, t);
    WhereAppends(p, a, b);
  }

  /** Packaging anywhere changes nothing, a role anywhere only the roles. */
  lemma {:induction false} PlaceIsFree(r: Rules, a: seq<string>, t: string, b: seq<string>)
    requires t in r.packaging || t in r.role
    ensures BaseParts(r, a + [t] + b) == BaseParts(r, a + b)
    ensures t in r.packaging ==> Family(r, a + [t] + b) == Family(r, a + b)
    ensures t !in r.packaging ==>
              forall x :: x in Roles(r, a + [t] + b) <==> x == t || x in Roles(r, a + b)
  {
    WhereInserted(NameTest(r), a, t, b);
    if t in r.packaging {
      WhereInserted(RoleTest(r), a, t, b);
    } else {
      forall x ensures x in Roles(r, a + [t] + b) <==> x == t || x in Roles(r, a + b) {
        FreshMembers(Where(RoleTest(r), a + [t] + b), {}, x);
        FreshMembers(Where(RoleTest(r), a + b), {}, x);
        WhereMembers(RoleTest(r), a + [t] + b, x);
        WhereMembers(RoleTest(r), a + b, x);
      }
    }
  }

  lemma {:induction false} OnlyOne(s: seq<string>, t: string)
    requires Distinct(s) && forall x :: x in s <==> x == t
    ensures s == [t]
  {
    assert t in s;
    assert |s| > 1 ==> s[0] != s[1];
    forall i | 0 <= i < |s| ensures s[i] == t {
      assert s[i] in s;
    }
  }

  /** One role names the same artifact at either end of the name, or within it. */
  lemma {:induction false} RoleAtEitherEnd(r: Rules, a: seq<string>, t: string, b: seq<string>)
    requires t in r.role && t !in r.packaging
    requires forall x :: x in Roles(r, a + b) ==> x == t
    ensures Roles(r, a + [t] + b) == [t]
    ensures Family(r, a + [t] + b) == Family(r, a + b + [t])
  {
    PlaceIsFree(r, a, t, b);
    PlaceIsFree(r, a + b, t, []);
    assert a + b + [t] + [] == a + b + [t] && a + b + [] == a + b;
    FreshIsDistinct(Where(RoleTest(r), a + [t] + b), {});
    FreshIsDistinct(Where(RoleTest(r), a + b + [t]), {});
    OnlyOne(Roles(r, a + [t] + b), t);
    OnlyOne(Roles(r, a + b + [t]), t);
  }

  /** After the settled base, only the order among the parameters and the order
      among the variants matter, not how the two are interleaved. */
  lemma {:induction false} InterleavingIsFree(r: Rules, a: seq<string>, b: seq<string>)
    requires Named(r, a) != [] && Named(r, b) != []
    requires Base(Named(r, a)) == Base(Named(r, b)) && Seen(Named(r, a)) == Seen(Named(r, b))
    requires Where(IsParams, Rest(Named(r, a))) == Where(IsParams, Rest(Named(r, b)))
    requires Where(VariantTest(), Rest(Named(r, a))) == Where(VariantTest(), Rest(Named(r, b)))
    ensures BaseParts(r, a) == BaseParts(r, b)
  {
    var x, y := Named(r, a), Named(r, b);
    FreshSelects(IsParams, Rest(x), Seen(x));
    FreshSelects(IsParams, Rest(y), Seen(y));
    FreshSelects(VariantTest(), Rest(x), Seen(x));
    FreshSelects(VariantTest(), Rest(y), Seen(y));
  }

  // ---- components ----

  /** The family a role-bearing name is a part of, and the role. */
  function Component(r: Rules, toks: seq<string>): Option<(string, string)>
  {
    if |Roles(r, toks)| != 1 || BaseParts(r, toks) == [] then None
    else Some((Join(BaseParts(r, toks), '-'), Roles(r, toks)[0]))
  }

  function NoRoleTest(r: Rules): string -> bool { t => t !in r.role }

  lemma {:induction false} WhereOfWhere(p: string -> bool, q: string -> bool, s: seq<string>)
    ensures (forall t :: p(t) ==> q(t)) ==> Where(p, Where(q, s)) == Where(p, s)
    ensures (forall t :: q(t) ==> !p(t)) ==> Where(p, Where(q, s)) == []
  {
    if s != [] {
      var init, t := s[..|s| - 1], s[|s| - 1];
      WhereOfWhere(p, q, init);
      WhereSnoc(p, Where(q, init), t);
    }
  }

  /** A component answers the family of the same tokens without the role, and its
      own family is that, a dash and the role; it answers exactly when there is
      one distinct role beside a name. */
  lemma {:induction false} ComponentExactly(r: Rules, toks: seq<string>)
    ensures Component(r, toks).Some? <==>
              (exists t :: t in toks && NameTest(r)(t)) && (exists t :: t in toks && RoleTest(r)(t))
              && (forall t, u :: t in toks && u in toks && RoleTest(r)(t) && RoleTest(r)(u) ==> t == u)
    ensures Component(r, toks).Some? ==>
              var (base, role) := Component(r, toks).value;
              && role in toks && RoleTest(r)(role)
              && Family(r, toks) == base + "-" + role
              && base == Family(r, Where(NoRoleTest(r), toks))
  {
    HasName(r, toks);
    OneRole(r, toks);
    if Component(r, toks).Some? {
      var base, roles := BaseParts(r, toks), Roles(r, toks);
      assert roles == [roles[0]];
      JoinAppends(base, roles[0]);
      WhereOfWhere(NameTest(r), NoRoleTest(r), toks);
      WhereOfWhere(RoleTest(r), NoRoleTest(r), toks);
      assert base + [] == base;
      assert roles[0] in roles;
      RoleMembers(r, toks, roles[0]);
    }
  }

  lemma {:induction false} RoleMembers(r: Rules, toks: seq<string>, t: string)
    ensures t in Roles(r, toks) <==> t in toks && RoleTest(r)(t)
  {
    WhereMembers(RoleTest(r), toks, t);
    FreshMembers(Where(RoleTest(r), toks), {}, t);
  }

  lemma {:induction false} HasName(r: Rules, toks: seq<string>)
    ensures BaseParts(r, toks) != [] <==> exists t :: t in toks && NameTest(r)(t)
  {
    var named := Named(r, toks);
    if named != [] {
      assert named[0] in named;
      WhereMembers(NameTest(r), toks, named[0]);
    }
    forall t | t in toks && NameTest(r)(t) ensures named != [] {
      WhereMembers(NameTest(r), toks, t);
    }
  }

  lemma {:induction false} OneRole(r: Rules, toks: seq<string>)
    ensures |Roles(r, toks)| == 1 <==>
            (exists t :: t in toks && RoleTest(r)(t))
            && (forall t, u :: t in toks && u in toks && RoleTest(r)(t) && RoleTest(r)(u) ==> t == u)
  {
    var roles := Roles(r, toks);
    FreshIsDistinct(Where(RoleTest(r), toks), {});
    forall t ensures t in roles <==> t in toks && RoleTest(r)(t) {
      RoleMembers(r, toks, t);
    }
    if |roles| > 1 {
      assert roles[0] in roles && roles[1] in roles && roles[0] != roles[1];
    } else if |roles| == 1 {
      assert roles[0] in roles;
    }
  }

  // ---- whole names ----

  datatype Name = Name(family: string, quant: string)

  /** The kept tokens of all the parts of a name. */
  function TokensOf(r: Rules, parts: seq<string>): seq<string>
  {
    if parts == [] then [] else KeptTokens(r, Fields(parts[0])) + TokensOf(r, parts[1..])
  }

  /** The quant of the last part that has one. */
  function QuantOf(r: Rules, parts: seq<string>, before: string): string
  {
    if parts == [] then before
    else
      var q := Join(QuantTokens(r, Fields(parts[0])), '_');
      QuantOf(r, parts[1..], if q != "" then q else before)
  }

  function Parsed(r: Rules, parts: seq<string>): Name
  {
    Name(Family(r, TokensOf(r, parts)), QuantOf(r, parts, ""))
  }

  lemma {:induction false} TokensAppend(r: Rules, a: seq<string>, b: seq<string>)
    ensures TokensOf(r, a + b) == TokensOf(r, a) + TokensOf(r, b)
  {
    if a == [] {
      assert a + b == b;
    } else {
      assert (a + b)[1..] == a[1..] + b;
      TokensAppend(r, a[1..], b);
    }
  }

  lemma {:induction false} TokensOfOne(r: Rules, before: seq<string>, p: string, after: seq<string>)
    ensures TokensOf(r, before + [p] + after) == TokensOf(r, before) + KeptTokens(r, Fields(p)) + TokensOf(r, after)
  {
    TokensAppend(r, before + [p], after);
    TokensAppend(r, before, [p]);
    assert [p][1..] == [];
    assert TokensOf(r, [p]) == KeptTokens(r, Fields(p));
  }

  lemma {:induction false} TokensOfLast(r: Rules, before: seq<string>, p: string)
    ensures TokensOf(r, before + [p]) == TokensOf(r, before) + KeptTokens(r, Fields(p))
  {
    TokensOfOne(r, before, p, []);
    assert before + [p] + [] == before + [p];
  }

  lemma {:induction false} KeptAreWhole(r: Rules, raw: seq<string>)
    requires AllWhole(raw)
    ensures AllWhole(KeptTokens(r, raw))
    decreases |raw|
  {
    if raw == [] {
      NothingKept(r);
    } else {
      ScanStep(r, raw);
      KeptAreWhole(r, raw[StepLength(r, raw)..]);
    }
  }

  lemma {:induction false} TokensAreWhole(r: Rules, parts: seq<string>)
    ensures AllWhole(TokensOf(r, parts))
  {
    if parts != [] {
      FieldsAreWhole(parts[0], "");
      KeptAreWhole(r, Fields(parts[0]));
      TokensAreWhole(r, parts[1..]);
    }
  }

  lemma {:induction false} LastUdIsFree(r: Rules, a: seq<string>, before: seq<string>, after: seq<string>, b: seq<string>)
    requires Sound(r) && SameButUd(before, after)
    ensures Family(r, a + after + b) == Family(r, a + before + b)
  {
    if after != before {
      PlaceIsFree(r, a + after, "ud", b);
      assert a + after + ["ud"] == a + before;
    }
  }

  /** Writing a quantisation after any part of a name, with any separator, leaves
      the family as it was. */
  lemma {:induction false} QuantLeavesFamily(r: Rules, before: seq<string>, p: string, c: char, q: string, after: seq<string>)
    requires Sound(r) && IsBreak(c)
    requires Fields(q) != [] && QuantRun(r, Fields(q)) == |Fields(q)|
    ensures Family(r, TokensOf(r, before + [p + [c] + q] + after)) == Family(r, TokensOf(r, before + [p] + after))
  {
    FieldsJoin(p, "", c, q);
    QuantRunKeepsTokens(r, Fields(p), Fields(q));
    TokensOfOne(r, before, p + [c] + q, after);
    TokensOfOne(r, before, p, after);
    LastUdIsFree(r, TokensOf(r, before), KeptTokens(r, Fields(p)), KeptTokens(r, Fields(p) + Fields(q)), TokensOf(r, after));
  }

  // ---- what a token written after a name does to its family ----

  /** The length of some parts, with a dash after each. */
  function Total(parts: seq<string>): nat { if parts == [] then 0 else |parts[0]| + 1 + Total(parts[1..]) }

  lemma {:induction false} TotalAppends(a: seq<string>, b: seq<string>)
    ensures Total(a + b) == Total(a) + Total(b)
  {
    if a == [] {
      assert a + b == b;
    } else {
      assert (a + b)[1..] == a[1..] + b;
      TotalAppends(a[1..], b);
    }
  }

  lemma {:induction false} TotalOfOne(t: string)
    ensures Total([t]) == |t| + 1
  {
    assert [t][1..] == [];
  }

  lemma {:induction false} TotalOfThree(a: seq<string>, b: seq<string>, c: seq<string>)
    ensures Total(a + b + c) == Total(a) + Total(b) + Total(c)
  {
    TotalAppends(a + b, c);
    TotalAppends(a, b);
  }

  /** A further token of the name proper leaves its parts, or makes them longer. */
  lemma {:induction false} NamePartsOnlyGrow(named: seq<string>, t: string)
    requires Whole(t)
    ensures NameParts(named + [t]) == NameParts(named) || Total(NameParts(named + [t])) > Total(NameParts(named))
  {
    if named == [] {
      assert named + [t] == [t];
      TotalAppends([t], []);
      NameOfOne(t);
    } else if |named| == 1 && IsVersion(t) {
      NameOfOne(named[0]);
      NameOfTwo(named[0], t);
      assert named == [named[0]] && named + [t] == [named[0], t];
      TotalOfOne(named[0]);
      TotalOfOne(named[0] + t);
    } else {
      NamePartsSnoc(named, t);
      var once := Fresh(Rest(named), Seen(named));
      WhereSnoc(IsParams, once, t);
      WhereSnoc(VariantTest(), once, t);
      TotalOfThree([Base(named)], Where(IsParams, once), Where(VariantTest(), once));
      TotalOfThree([Base(named)], Where(IsParams, once + [t]), Where(VariantTest(), once + [t]));
      TotalAppends(Where(IsParams, once), [t]);
      TotalAppends(Where(VariantTest(), once), [t]);
      TotalOfOne(t);
    }
  }

  lemma {:induction false} NameOfOne(t: string)
    ensures NameParts([t]) == [t]
  {
    assert [t][1..] == [];
  }

  lemma {:induction false} NameOfTwo(base: string, version: string)
    requires IsVersion(version)
    ensures NameParts([base, version]) == [base + version]
  {
    assert [base, version][2..] == [];
  }

  lemma {:induction false} PartsOnlyGrow(r: Rules, toks: seq<string>, t: string)
    requires Whole(t)
    ensures AllParts(r, toks + [t]) == AllParts(r, toks) || Total(AllParts(r, toks + [t])) > Total(AllParts(r, toks))
  {
    SnocSplits(r, toks, t);
    NamePartsOnlyGrow(Named(r, toks), t);
    TotalAppends(BaseParts(r, toks), Roles(r, toks));
    TotalAppends(BaseParts(r, toks + [t]), Roles(r, toks + [t]));
    TotalAppends(Roles(r, toks), [t]);
    TotalOfOne(t);
  }

  /** The same family is the same parts. */
  lemma {:induction false} FamilyIsParts(r: Rules, a: seq<string>, b: seq<string>)
    requires AllWhole(a) && AllWhole(b)
    ensures Family(r, a) == Family(r, b) <==> AllParts(r, a) == AllParts(r, b)
  {
    PartsAreWhole(r, a);
    PartsAreWhole(r, b);
    if Family(r, a) == Family(r, b) {
      JoinInjective(AllParts(r, a), AllParts(r, b));
    }
  }

  /** What only grows is back where it was exactly when it never moved. */
  lemma {:induction false} GrowsTell(a: seq<string>, b: seq<string>, c: seq<string>)
    requires (b == a || Total(b) > Total(a)) && (c == b || Total(c) > Total(b))
    ensures c == a <==> b == a && c == b
  {
  }

  /** One further token, by its parts: they stay exactly when it is represented, and
      grow when not. */
  lemma {:induction false} PartsAfter(r: Rules, toks: seq<string>, t: string) returns (before: seq<string>, after: seq<string>)
    requires AllWhole(toks) && Whole(t)
    ensures before == AllParts(r, toks) && after == AllParts(r, toks + [t])
    ensures (after == before <==> Represented(r, toks, t)) && (after == before || Total(after) > Total(before))
  {
    before, after := AllParts(r, toks), AllParts(r, toks + [t]);
    FineTuneNeverJoins(r, toks, t);
    PartsOnlyGrow(r, toks, t);
    FamilyIsParts(r, toks + [t], toks);
  }

  /** Two further tokens leave the family as it was exactly when each is represented
      when its turn comes: nothing a token adds is taken back by the next. */
  lemma {:induction false} TwoTokensJoinExactly(r: Rules, toks: seq<string>, t: string, u: string)
    requires AllWhole(toks) && Whole(t) && Whole(u)
    ensures Family(r, toks + [t, u]) == Family(r, toks) <==> Represented(r, toks, t) && Represented(r, toks + [t], u)
  {
    assert toks + [t, u] == toks + [t] + [u];
    var none, one := PartsAfter(r, toks, t);
    var _, two := PartsAfter(r, toks + [t], u);
    GrowsTell(none, one, two);
    FamilyIsParts(r, toks + [t, u], toks);
  }

  /** Whether a token t written after the last part of a name, which splits into raw,
      leaves its family: the scan takes it for a run, or all it adds or takes away is
      represented. */
  predicate Joins(r: Rules, raw: seq<string>, toks: seq<string>, t: string)
  {
    var n := |toks|;
    if ClosesShard(r, raw, t) then
      n >= 2 && Represented(r, toks[..n - 2], toks[n - 2]) && Represented(r, toks[..n - 1], toks[n - 1])
    else Absorbed(r, raw, t) || Represented(r, toks, t)
  }

  lemma {:induction false} TunedTokensJoin(r: Rules, raw: seq<string>, t: string, toks: seq<string>, tuned: seq<string>)
    requires Sound(r) && AllWhole(toks) && Whole(t) && Scans(r, raw, t, toks, tuned)
    requires ClosesShard(r, raw, t) ==> Absorbed(r, raw, t)
    ensures Family(r, tuned) == Family(r, toks) <==> Joins(r, raw, toks, t)
  {
    if ClosesShard(r, raw, t) {
      var n := |tuned|;
      assert toks[..n] == tuned && toks == tuned + [toks[n], toks[n + 1]] && toks[..n + 1] == tuned + [toks[n]];
      TwoTokensJoinExactly(r, tuned, toks[n], toks[n + 1]);
    } else if Absorbed(r, raw, t) {
      UdAtEndIsFree(r, toks, tuned);
    } else {
      FineTuneNeverJoins(r, toks, t);
    }
  }

  /** Over all names and all tokens: writing a further token at the end, after any
      separator, leaves the family as it was exactly when the name joins it. A token
      that is not absorbed is a fine-tune of the tokens before it; one that closes a
      shard takes the index and the "of" away, which then must have said nothing. */
  lemma {:induction false} TunedNameDiffers(r: Rules, before: seq<string>, p: string, c: char, t: string)
    requires Sound(r) && IsBreak(c) && Whole(t)
    ensures var toks := TokensOf(r, before + [p]);
            Family(r, TokensOf(r, before + [p + [c] + t])) == Family(r, toks) <==> Joins(r, Fields(p), toks, t)
  {
    var toks, tuned := TokensOf(r, before + [p]), TokensOf(r, before + [p + [c] + t]);
    var raw := Fields(p);
    TunedFields(p, c, t);
    TokensOfLast(r, before, p + [c] + t);
    TokensOfLast(r, before, p);
    TokensAreWhole(r, before + [p]);
    AppendScans(r, raw, t);
    TunedTokens(r, TokensOf(r, before), raw, t, toks, tuned);
    if ClosesShard(r, raw, t) {
      ClosersAreAbsorbed(r, raw, t);
    }
    TunedTokensJoin(r, raw, t, toks, tuned);
  }

  lemma {:induction false} TunedFields(p: string, c: char, t: string)
    requires IsBreak(c) && Whole(t)
    ensures Fields(p + [c] + t) == Fields(p) + [t]
  {
    FieldsJoin(p, "", c, t);
    WholeIsOneField(t, "");
    assert "" + t == t;
  }

  /** The tokens of the whole name change as the last part's do. */
  lemma {:induction false} TunedTokens(r: Rules, first: seq<string>, raw: seq<string>, t: string, toks: seq<string>, tuned: seq<string>)
    requires toks == first + KeptTokens(r, raw) && tuned == first + KeptTokens(r, raw + [t])
    requires Scans(r, raw, t, KeptTokens(r, raw), KeptTokens(r, raw + [t]))
    ensures Scans(r, raw, t, toks, tuned)
  {
    var before, after := KeptTokens(r, raw), KeptTokens(r, raw + [t]);
    if !Absorbed(r, raw, t) {
      assert first + (after) == first + before + [t];
    } else if ClosesShard(r, raw, t) {
      assert first + (after + [raw[|raw| - 2], "of"]) == first + after + [raw[|raw| - 2], "of"];
    } else {
      SameAfterHead(first, before, after);
    }
  }

  lemma {:induction false} UdAtEndIsFree(r: Rules, before: seq<string>, after: seq<string>)
    requires Sound(r) && SameButUd(before, after)
    ensures Family(r, after) == Family(r, before)
  {
    LastUdIsFree(r, [], before, after, []);
    assert [] + after + [] == after && [] + before + [] == before;
  }

  /** A block word swallows the next token when it reads as a block format, however
      much a name it is. */
  lemma {:induction false} BlockFormatIsAbsorbed(r: Rules, w: string, b: string, e: string)
    requires Sound(r) && w !in r.quantWord && !IsQuantLevel(w) && w != "ud"
    requires b in r.quantWord && b in r.blockWord && IsBlockFormat(e)
    ensures Absorbed(r, [w, b], e) && !ClosesShard(r, [w, b], e) && KeptTokens(r, [w, b]) == [w]
  {
    var raw := [w, b];
    assert raw[1..] == [b] && [b][1..] == [];
    assert QuantRun(r, raw) == 0 && QuantRun(r, [b]) == 1;
    assert b != "of";
    NothingKept(r);
    ScanStep(r, raw);
    ScanStep(r, [b]);
    assert !ClosesShard(r, [], e) && !ClosesShard(r, [b], e);
    assert Open(r, Bare([b]), e) && Absorbed(r, [b], e);
  }

  lemma {:induction false} BlockFormatJoins(r: Rules, w: string, b: string, e: string, p: string)
    requires Sound(r) && Whole(w) && w !in r.quantWord && !IsQuantLevel(w) && w != "ud"
    requires Whole(b) && b in r.quantWord && b in r.blockWord && Whole(e) && IsBlockFormat(e) && p == w + ['-'] + b
    ensures Family(r, TokensOf(r, [p + ['-'] + e])) == Family(r, TokensOf(r, [p]))
    ensures TokensOf(r, [p]) == [w]
  {
    WholeIsOneField(w, "");
    assert "" + w == w;
    TunedFields(w, '-', b);
    assert Fields(p) == [w, b];
    BlockFormatIsAbsorbed(r, w, b, e);
    TokensOfLast(r, [], p);
    assert [] + [p] == [p] && [] + [p + ['-'] + e] == [p + ['-'] + e] && TokensOf(r, []) == [];
    TunedNameDiffers(r, [], p, '-', e);
  }

  /** What a name has to be for this: three tokens in no table but the block words'. */
  predicate Swallows(r: Rules, w: string, b: string, e: string)
  {
    && Whole(w) && w !in r.quantWord && !IsQuantLevel(w) && w != "ud" && w !in r.packaging && w !in r.role
    && Whole(b) && b in r.quantWord && b in r.blockWord
    && Whole(e) && IsBlockFormat(e) && e !in r.packaging && e !in r.role && !IsVersion(e) && e != w
  }

  lemma {:induction false} FineTuneJoins(r: Rules, w: string, b: string, e: string, p: string)
    requires Sound(r) && Swallows(r, w, b, e) && p == w + ['-'] + b
    ensures Family(r, TokensOf(r, [p + ['-'] + e])) == Family(r, TokensOf(r, [p])) && !Represented(r, TokensOf(r, [p]), e)
  {
    BlockFormatJoins(r, w, b, e, p);
    NewAfterOne(r, w, e);
  }

  lemma {:induction false} NewAfterOne(r: Rules, w: string, e: string)
    requires NameTest(r)(w) && NameTest(r)(e) && !IsVersion(e) && e != w
    ensures !Represented(r, [w], e)
  {
    WhereSnoc(NameTest(r), [], w);
    assert [] + [w] == [w];
    assert Named(r, [w]) == [w];
  }

  lemma {:induction false} RealTablesSwallow(impl: Impl, w: string, b: string, e: string)
    requires w == "llama" && b == "fp8" && e == "ember"
    ensures Swallows(RulesOf(impl), w, b, e)
  {
    LlamaIsAName(w);
    EmberIsAName(e);
    Fp8IsABlockWord(b);
  }

  /** So a fine-tune can join its base with a token that is nowhere in it: "ember"
      after "llama-fp8" reads as a block format. */
  lemma {:induction false} FineTuneCanJoin(impl: Impl, base: string, tuned: string)
    requires base == "llama-fp8" && tuned == "llama-fp8-ember"
    ensures var r := RulesOf(impl);
            Family(r, TokensOf(r, [tuned])) == Family(r, TokensOf(r, [base])) && !Represented(r, TokensOf(r, [base]), "ember")
  {
    var w, b, e := "llama", "fp8", "ember";
    assert base == w + ['-'] + b && tuned == base + ['-'] + e;
    TablesAreSound(impl);
    RealTablesSwallow(impl, w, b, e);
    FineTuneJoins(RulesOf(impl), w, b, e, base);
  }

  lemma {:induction false} LlamaIsAName(w: string)
    requires w == "llama"
    ensures Whole(w) && w !in PACKAGING && w !in ROLE && !IsQuantLevel(w) && w != "ud"
    ensures w !in QUANT_WORD_1 && w !in QUANT_WORD_2 && w !in QUANT_WORD_3 && w !in QUANT_WORD_4
  {
    assert |w| == 5 && w[0] == 'l';
  }

  lemma {:induction false} EmberIsAName(e: string)
    requires e == "ember"
    ensures Whole(e) && e !in PACKAGING && e !in ROLE && !IsVersion(e) && IsBlockFormat(e) && e != "llama"
  {
    assert |e| == 5 && e[0] == 'e' && e[1] == 'm';
  }

  lemma {:induction false} Fp8IsABlockWord(b: string)
    requires b == "fp8"
    ensures Whole(b) && b in QUANT_WORD_2 && b in RulesOf(Go).blockWord
  {
  }

  // ---- the two implementations ----

  function WordTest(): string -> bool { t => !NumberOrOf(t) }

  lemma {:induction false} WhereOfFront(p: string -> bool, t: string, s: seq<string>)
    ensures Where(p, [t] + s) == (if p(t) then [t] else []) + Where(p, s)
  {
    WhereAppends(p, [t], s);
    WhereSnoc(p, [], t);
    assert [] + [t] == [t];
  }

  /** A number or an "of" at the front is all a turn can take of what a scan keeps:
      the words after it are kept as they are. */
  lemma {:induction false} NumbersHideNoWord(r: Rules, raw: seq<string>)
    requires Sound(r) && raw != [] && NumberOrOf(raw[0])
    ensures Where(WordTest(), KeptTokens(r, raw)) == Where(WordTest(), KeptTokens(r, raw[1..]))
    decreases |raw|
  {
    NumbersStartNone(r, raw);
    ScanStep(r, raw);
    if ShardRun(r, raw) {
      assert raw[1..][1..] == raw[2..] && raw[2..][1..] == raw[3..];
      NumbersHideNoWord(r, raw[1..]);
      NumbersHideNoWord(r, raw[2..]);
      assert [] + KeptTokens(r, raw[3..]) == KeptTokens(r, raw[3..]);
    } else {
      WhereOfFront(WordTest(), raw[0], KeptTokens(r, raw[1..]));
      assert [] + Where(WordTest(), KeptTokens(r, raw[1..])) == Where(WordTest(), KeptTokens(r, raw[1..]));
    }
  }

  /** The two implementations always keep the same words, whatever wraps. */
  lemma {:induction false} WordsAgree(r: Rules, raw: seq<string>)
    requires Sound(r)
    ensures Where(WordTest(), KeptTokens(Other(r, Go), raw)) == Where(WordTest(), KeptTokens(Other(r, Python), raw))
    decreases |raw|
  {
    var go, py := Other(r, Go), Other(r, Python);
    if raw == [] {
      NothingKept(go);
      NothingKept(py);
    } else if NumberOrOf(raw[0]) {
      NumbersHideNoWord(go, raw);
      NumbersHideNoWord(py, raw);
      WordsAgree(r, raw[1..]);
    } else {
      RunsIgnoreImpl(go, Python, raw);
      assert Other(go, Python) == py && !ShardRun(go, raw) && !ShardRun(py, raw);
      var rest := raw[StepLength(go, raw)..];
      ScanStep(go, raw);
      ScanStep(py, raw);
      WordsAgree(r, rest);
      WhereAppends(WordTest(), Head(go, raw), KeptTokens(go, rest));
      WhereAppends(WordTest(), Head(go, raw), KeptTokens(py, rest));
    }
  }

  lemma {:induction false} NamesKeepWords(r: Rules, parts: seq<string>)
    requires Sound(r)
    ensures Where(WordTest(), TokensOf(Other(r, Go), parts)) == Where(WordTest(), TokensOf(Other(r, Python), parts))
  {
    if parts != [] {
      var raw := Fields(parts[0]);
      WordsAgree(r, raw);
      NamesKeepWords(r, parts[1..]);
      WhereAppends(WordTest(), KeptTokens(Other(r, Go), raw), TokensOf(Other(r, Go), parts[1..]));
      WhereAppends(WordTest(), KeptTokens(Other(r, Python), raw), TokensOf(Other(r, Python), parts[1..]));
    }
  }

  lemma {:induction false} NamesKeepQuant(r: Rules, parts: seq<string>, before: string)
    requires Sound(r)
    ensures QuantOf(Other(r, Go), parts, before) == QuantOf(Other(r, Python), parts, before)
  {
    if parts != [] {
      QuantsAgree(r, Fields(parts[0]));
      var q := Join(QuantTokens(Other(r, Go), Fields(parts[0])), '_');
      NamesKeepQuant(r, parts[1..], if q != "" then q else before);
    }
  }

  /** Roles are words, so the same words have the same roles. */
  lemma {:induction false} WordsHaveRoles(r: Rules, a: seq<string>, b: seq<string>)
    requires Sound(r) && Where(WordTest(), a) == Where(WordTest(), b)
    ensures Roles(r, a) == Roles(r, b)
  {
    WhereOfWhere(RoleTest(r), WordTest(), a);
    WhereOfWhere(RoleTest(r), WordTest(), b);
  }

  /** The numbers of a name that no shard of Python's wraps in Go. */
  predicate NothingWraps(r: Rules, parts: seq<string>)
  {
    forall i :: 0 <= i < |parts| ==> NoShardWraps(Segments(Other(r, Python), Fields(parts[i])))
  }

  lemma {:induction false} LengthsTell(a: seq<string>, x: seq<string>, b: seq<string>, y: seq<string>)
    requires |a| >= |b| && |x| >= |y|
    ensures a + x == b + y <==> a == b && x == y
  {
    if a + x == b + y {
      assert |a + x| == |b + y|;
      assert a == (a + x)[..|a|] && b == (b + y)[..|b|];
      assert x == (a + x)[|a|..] && y == (b + y)[|b|..];
    }
  }

  /** For every name Go never keeps fewer tokens than Python, and the two keep the same
      exactly when nothing wraps. */
  lemma {:induction false} TokensAgreeExactly(r: Rules, parts: seq<string>)
    requires Sound(r)
    ensures var a, b := TokensOf(Other(r, Go), parts), TokensOf(Other(r, Python), parts);
            |a| >= |b| && (a == b <==> NothingWraps(r, parts))
  {
    if parts != [] {
      var go, py, raw, rest := Other(r, Go), Other(r, Python), Fields(parts[0]), parts[1..];
      KeptAgreeExactly(r, raw);
      TokensAgreeExactly(r, rest);
      LengthsTell(KeptTokens(go, raw), TokensOf(go, rest), KeptTokens(py, raw), TokensOf(py, rest));
      assert forall i :: 0 <= i < |rest| ==> rest[i] == parts[i + 1];
    }
  }

  /** Over all names the two implementations give the same quant; they scan a name
      alike, and keep the same tokens of it, exactly when nothing wraps, and then give
      the same name; and when something does, the families are still the same exactly
      when the numbers and "of"s that Go keeps and Python drops, or the other way,
      leave the base parts. */
  lemma {:induction false} ImplementationsAgree(r: Rules, parts: seq<string>)
    requires Sound(r)
    ensures var go, py := Other(r, Go), Other(r, Python);
            && Parsed(go, parts).quant == Parsed(py, parts).quant
            && ((forall i :: 0 <= i < |parts| ==> Segments(go, Fields(parts[i])) == Segments(py, Fields(parts[i])))
                <==> NothingWraps(r, parts))
            && (TokensOf(go, parts) == TokensOf(py, parts) <==> NothingWraps(r, parts))
            && (NothingWraps(r, parts) ==> Parsed(go, parts) == Parsed(py, parts))
            && (Parsed(go, parts) == Parsed(py, parts)
                <==> BaseParts(go, TokensOf(go, parts)) == BaseParts(py, TokensOf(py, parts)))
  {
    NamesKeepQuant(r, parts, "");
    forall i | 0 <= i < |parts|
      ensures Segments(Other(r, Go), Fields(parts[i])) == Segments(Other(r, Python), Fields(parts[i]))
              <==> NoShardWraps(Segments(Other(r, Python), Fields(parts[i])))
    {
      ScansAgreeExactly(r, Fields(parts[i]));
    }
    if NothingWraps(r, parts) {
      TokensAgree(r, parts, "");
    }
    TokensAgreeExactly(r, parts);
    FamiliesAgree(r, parts);
  }

  /** With digit runs of at most eighteen digits nothing wraps. */
  lemma {:induction false} ShortNamesAgree(r: Rules, parts: seq<string>)
    requires forall p :: p in parts ==> ShortNumbers(Fields(p))
    ensures NothingWraps(r, parts) && Parsed(Other(r, Go), parts) == Parsed(Other(r, Python), parts)
  {
    forall i | 0 <= i < |parts| ensures NoShardWraps(Segments(Other(r, Python), Fields(parts[i]))) {
      assert parts[i] in parts;
      ScansAgree(r, Fields(parts[i]));
      ScansAgreeExactly(r, Fields(parts[i]));
    }
    TokensAgree(r, parts, "");
  }

  lemma {:induction false} TokensAgree(r: Rules, parts: seq<string>, before: string)
    requires NothingWraps(r, parts)
    ensures TokensOf(Other(r, Go), parts) == TokensOf(Other(r, Python), parts)
    ensures QuantOf(Other(r, Go), parts, before) == QuantOf(Other(r, Python), parts, before)
  {
    if parts != [] {
      ScansAgreeExactly(r, Fields(parts[0]));
      assert forall i :: 0 <= i < |parts[1..]| ==> parts[1..][i] == parts[i + 1];
      var q := Join(QuantTokens(Other(r, Go), Fields(parts[0])), '_');
      TokensAgree(r, parts[1..], if q != "" then q else before);
    }
  }

  lemma {:induction false} FamiliesAgree(r: Rules, parts: seq<string>)
    requires Sound(r)
    ensures var go, py := Other(r, Go), Other(r, Python);
            Family(go, TokensOf(go, parts)) == Family(py, TokensOf(py, parts))
            <==> BaseParts(go, TokensOf(go, parts)) == BaseParts(py, TokensOf(py, parts))
  {
    var go, py := Other(r, Go), Other(r, Python);
    var a, b := TokensOf(go, parts), TokensOf(py, parts);
    NamesKeepWords(r, parts);
    WordsHaveRoles(go, a, b);
    SameRoles(go, py, b);
    TokensAreWhole(go, parts);
    TokensAreWhole(py, parts);
    PartsAreWhole(go, a);
    PartsAreWhole(py, b);
    SplitsTell(BaseParts(go, a), Roles(go, a), BaseParts(py, b), Roles(py, b));
    if Family(go, a) == Family(py, b) {
      JoinInjective(AllParts(go, a), AllParts(py, b));
    }
  }

  lemma {:induction false} SameRoles(r: Rules, s: Rules, toks: seq<string>)
    requires r.role == s.role && r.packaging == s.packaging
    ensures Roles(r, toks) == Roles(s, toks)
  {
    WhereOfWhere(RoleTest(r), RoleTest(s), toks);
    WhereOfWhere(RoleTest(s), RoleTest(s), toks);
    SameWhere(RoleTest(r), RoleTest(s), toks);
  }

  lemma {:induction false} SameWhere(p: string -> bool, q: string -> bool, s: seq<string>)
    requires forall t :: p(t) == q(t)
    ensures Where(p, s) == Where(q, s)
  {
    if s != [] {
      SameWhere(p, q, s[..|s| - 1]);
    }
  }

  /** Where a number does wrap, the names can differ: of a number that is 2^64 Python
      makes a shard and an empty family, Go a model. */
  lemma {:induction false} NamesDiffer(t: string, p: string)
    requires t == WRAPS && p == t + ['-'] + "of" + ['-'] + t
    ensures Parsed(RulesOf(Python), [p]).family == "" && Parsed(RulesOf(Go), [p]).family != ""
  {
    WrapsIsDigits(t);
    DigitsAreWhole(t);
    WrapsIsAName(t);
    TablesAreSound(Go);
    assert Other(RulesOf(Go), Python) == RulesOf(Python);
    LongNumberNames(RulesOf(Go), t, p);
  }

  lemma {:induction false} DigitsAreWhole(t: string)
    requires AllDigits(t) && t != ""
    ensures Whole(t)
  {
    forall i | 0 <= i < |t| ensures !IsBreak(t[i]) {
      assert Identity.IsDigit(t[i]);
    }
  }

  lemma {:induction false} WrapsIsAName(t: string)
    requires AllDigits(t) && t != ""
    ensures forall impl :: t !in RulesOf(impl).packaging && t !in RulesOf(impl).role
  {
    PackagingIsWords(t);
    RolesAreWords(t);
  }

  lemma {:induction false} LongNumberNames(go: Rules, t: string, p: string)
    requires Sound(go) && go.impl == Go && t == WRAPS && Whole(t) && AllDigits(t) && t !in go.packaging && t !in go.role
    requires p == t + ['-'] + "of" + ['-'] + t
    ensures Parsed(Other(go, Python), [p]).family == "" && Parsed(go, [p]).family != ""
  {
    var py := Other(go, Python);
    assert Other(go, Go) == go;
    var raw := [t, "of", t];
    WholeIsOneField(t, "");
    assert "" + t == t;
    TunedFields(t, '-', "of");
    TunedFields(t + ['-'] + "of", '-', t);
    assert Fields(p) == raw;
    LongNumbersDisagree(go, t);
    LongNumberTokens(go, t, raw);
    NamesOfTokens(go, t, p);
  }

  /** A part whose tokens Go keeps and Python drops. */
  lemma {:induction false} NamesOfTokens(go: Rules, t: string, p: string)
    requires t !in go.packaging && t !in go.role
    requires t in KeptTokens(go, Fields(p)) && KeptTokens(Other(go, Python), Fields(p)) == []
    ensures Parsed(Other(go, Python), [p]).family == "" && Parsed(go, [p]).family != ""
  {
    var py := Other(go, Python);
    TokensOfLast(go, [], p);
    TokensOfLast(py, [], p);
    assert [] + [p] == [p] && TokensOf(go, []) == [] && TokensOf(py, []) == [];
    HasName(go, TokensOf(go, [p]));
    assert t in TokensOf(go, [p]) && NameTest(go)(t);
    TokensAreWhole(go, [p]);
    PartsAreWhole(go, TokensOf(go, [p]));
    JoinStarts(AllParts(go, TokensOf(go, [p])));
    assert TokensOf(py, [p]) == [] && AllParts(py, []) == [];
  }

  lemma {:induction false} LongNumberTokens(go: Rules, t: string, raw: seq<string>)
    requires Sound(go) && raw == [t, "of", t] && NumberOrOf(t) && !ShardRun(go, raw) && ShardRun(Other(go, Python), raw)
    ensures t in KeptTokens(go, raw) && KeptTokens(Other(go, Python), raw) == []
  {
    NumbersStartNone(go, raw);
    ScanStep(go, raw);
    ScanStep(Other(go, Python), raw);
    assert raw[3..] == [];
    NothingKept(Other(go, Python));
  }

  // ---- the assembling loops ----

  /** A Go set: a map whose missing keys read as false. */
  predicate Holds(m: map<string, bool>, t: string) { t in m && m[t] }

  /** The first loop of the Go split: packaging dropped, roles once, the rest kept. */
  method SortTokens(r: Rules, toks: seq<string>) returns (kept: seq<string>, roles: seq<string>)
    ensures kept == Named(r, toks) && roles == Roles(r, toks)
  {
    kept, roles := [], [];
    var isRole: map<string, bool> := map[];
    for i := 0 to |toks|
      invariant kept == Named(r, toks[..i]) && roles == Roles(r, toks[..i])
      invariant forall t :: Holds(isRole, t) <==> t in roles
    {
      var t := toks[i];
      assert toks[..i + 1] == toks[..i] + [t];
      SnocSplits(r, toks[..i], t);
      RoleMembers(r, toks[..i], t);
      if t in r.packaging {
      } else if t in r.role {
        if !Holds(isRole, t) {
          isRole := isRole[t := true];
          roles := roles + [t];
        }
      } else {
        kept := kept + [t];
      }
    }
    assert toks[..|toks|] == toks;
  }

  method SplitParts(r: Rules, toks: seq<string>) returns (baseParts: seq<string>, roles: seq<string>)
    ensures baseParts == BaseParts(r, toks) && roles == Roles(r, toks)
  {
    var kept;
    kept, roles := SortTokens(r, toks);
    if |kept| == 0 {
      return [], roles;
    }
    var base, rest := kept[0], kept[1..];
    var seen := map[base := true];
    if |rest| > 0 && IsVersion(rest[0]) {
      seen := seen[rest[0] := true];
      base, rest := base + rest[0], rest[1..];
      seen := seen[base := true];
    }
    assert base == Base(kept) && rest == Rest(kept);
    var params, variants := Divide(rest, seen, Seen(kept));
    baseParts := [base] + params + variants;
  }

  /** One more token in the second loop of either implementation. */
  lemma {:induction false} DivideStep(rest: seq<string>, i: nat, known: set<string>)
    requires i < |rest|
    ensures var once, t := Fresh(rest[..i], known), rest[i];
            if t in known || t in once then Fresh(rest[..i + 1], known) == once
            else
              && Fresh(rest[..i + 1], known) == once + [t]
              && Where(IsParams, once + [t]) == (if IsParams(t) then Where(IsParams, once) + [t] else Where(IsParams, once))
              && Where(VariantTest(), once + [t]) == if IsParams(t) then Where(VariantTest(), once) else Where(VariantTest(), once) + [t]
  {
    var once, t := Fresh(rest[..i], known), rest[i];
    assert rest[..i + 1] == rest[..i] + [t];
    FreshSnoc(rest[..i], known, t);
    WhereSnoc(IsParams, once, t);
    WhereSnoc(VariantTest(), once, t);
  }

  /** A Go set holds what was known and what came since. */
  ghost predicate Holding(m: map<string, bool>, known: set<string>, once: seq<string>)
  {
    forall t :: Holds(m, t) <==> t in known || t in once
  }

  lemma {:induction false} HoldingOne(m: map<string, bool>, known: set<string>, once: seq<string>, t: string)
    requires Holding(m, known, once)
    ensures Holding(m[t := true], known, once + [t])
  {
  }

  /** The second loop of the Go split. */
  method Divide(rest: seq<string>, before: map<string, bool>, ghost known: set<string>)
    returns (params: seq<string>, variants: seq<string>)
    requires forall t :: Holds(before, t) <==> t in known
    ensures params == Where(IsParams, Fresh(rest, known)) && variants == Where(VariantTest(), Fresh(rest, known))
  {
    params, variants := [], [];
    var seen := before;
    ghost var once: seq<string> := [];
    for i := 0 to |rest|
      invariant once == Fresh(rest[..i], known)
      invariant Holding(seen, known, once)
      invariant params == Where(IsParams, once) && variants == Where(VariantTest(), once)
    {
      var t := rest[i];
      DivideStep(rest, i, known);
      if Holds(seen, t) {
        continue;
      }
      HoldingOne(seen, known, once, t);
      seen := seen[t := true];
      once := once + [t];
      if IsParams(t) {
        params := params + [t];
      } else {
        variants := variants + [t];
      }
    }
    assert rest[..|rest|] == rest;
  }

  method AssembleGo(r: Rules, toks: seq<string>, quant: string) returns (n: Name)
    ensures n == Name(Family(r, toks), quant)
  {
    var baseParts, roles := SplitParts(r, toks);
    if |baseParts| == 0 {
      assert baseParts + roles == roles;
      return Name(Join(roles, '-'), quant);
    }
    return Name(Join(baseParts + roles, '-'), quant);
  }

  method ComponentGo(r: Rules, parts: seq<string>) returns (base: string, role: string)
    ensures match Component(r, TokensOf(r, parts))
            case Some((b, x)) => base == b && role == x
            case None => base == "" && role == ""
  {
    var toks, _ := GatherGo(r, parts);
    var baseParts, roles := SplitParts(r, toks);
    if |roles| != 1 || |baseParts| == 0 {
      return "", "";
    }
    return Join(baseParts, '-'), roles[0];
  }

  lemma {:induction false} PartStep(r: Rules, parts: seq<string>, i: nat, toks: seq<string>, quant: string)
    requires i < |parts|
    ensures var t := KeptTokens(r, Fields(parts[i]));
            toks + TokensOf(r, parts[i..]) == toks + t + TokensOf(r, parts[i + 1..])
    ensures var q := Join(QuantTokens(r, Fields(parts[i])), '_');
            QuantOf(r, parts[i..], quant) == QuantOf(r, parts[i + 1..], if q != "" then q else quant)
  {
    assert parts[i..][1..] == parts[i + 1..];
    assert parts[i..][0] == parts[i];
  }

  lemma {:induction false} NoParts(r: Rules, parts: seq<string>, toks: seq<string>, quant: string)
    requires parts == []
    ensures toks + TokensOf(r, parts) == toks && QuantOf(r, parts, quant) == quant
  {
  }

  /** The loop over the parts of a name, the last quant winning. */
  method GatherGo(r: Rules, parts: seq<string>) returns (toks: seq<string>, quant: string)
    ensures toks == TokensOf(r, parts) && quant == QuantOf(r, parts, "")
  {
    toks, quant := [], "";
    assert parts[0..] == parts;
    ghost var allToks, allQuant := TokensOf(r, parts), QuantOf(r, parts, "");
    for i := 0 to |parts|
      invariant toks + TokensOf(r, parts[i..]) == allToks
      invariant QuantOf(r, parts[i..], quant) == allQuant
    {
      PartStep(r, parts, i, toks, quant);
      var t, q := TokensGo(r, Fields(parts[i]));
      var joined := Join(q, '_');
      if joined != "" {
        quant := joined;
      }
      toks := toks + t;
    }
    NoParts(r, parts[|parts|..], toks, quant);
  }

  method ParseGo(r: Rules, parts: seq<string>) returns (n: Name)
    ensures n == Parsed(r, parts)
  {
    var toks, quant := GatherGo(r, parts);
    n := AssembleGo(r, toks, quant);
  }

  /** The Python assembly: roles told apart by looking through the list, what was
      seen in a set. */
  method AssemblePy(r: Rules, toks: seq<string>, quant: string) returns (n: Name)
    ensures n == Name(Family(r, toks), quant)
  {
    var kept, roles := SortTokensPy(r, toks);
    if |kept| == 0 {
      assert [] + roles == roles;
      return Name(Join(roles, '-'), quant);
    }
    var base, rest := kept[0], kept[1..];
    var seen := {base};
    if |rest| > 0 && IsVersion(rest[0]) {
      seen := seen + {rest[0]};
      base, rest := base + rest[0], rest[1..];
      seen := seen + {base};
    }
    assert base == Base(kept) && rest == Rest(kept);
    assert seen == Seen(kept);
    var params, variants := DividePy(rest, seen);
    assert [base] + params + variants == BaseParts(r, toks);
    return Name(Join([base] + params + variants + roles, '-'), quant);
  }

  /** The second loop of the Python assembly. */
  method DividePy(rest: seq<string>, known: set<string>) returns (params: seq<string>, variants: seq<string>)
    ensures params == Where(IsParams, Fresh(rest, known)) && variants == Where(VariantTest(), Fresh(rest, known))
  {
    params, variants := [], [];
    var seen := known;
    ghost var once: seq<string> := [];
    for i := 0 to |rest|
      invariant once == Fresh(rest[..i], known)
      invariant forall t :: t in seen <==> t in known || t in once
      invariant params == Where(IsParams, once) && variants == Where(VariantTest(), once)
    {
      var t := rest[i];
      DivideStep(rest, i, known);
      if t in seen {
        continue;
      }
      seen := seen + {t};
      once := once + [t];
      if IsParams(t) {
        params := params + [t];
      } else {
        variants := variants + [t];
      }
    }
    assert rest[..|rest|] == rest;
  }

  method SortTokensPy(r: Rules, toks: seq<string>) returns (kept: seq<string>, roles: seq<string>)
    ensures kept == Named(r, toks) && roles == Roles(r, toks)
  {
    kept, roles := [], [];
    for i := 0 to |toks|
      invariant kept == Named(r, toks[..i]) && roles == Roles(r, toks[..i])
    {
      var t := toks[i];
      assert toks[..i + 1] == toks[..i] + [t];
      SnocSplits(r, toks[..i], t);
      RoleMembers(r, toks[..i], t);
      if t in r.packaging {
        continue;
      }
      if t in r.role {
        if t !in roles {
          roles := roles + [t];
        }
      } else {
        kept := kept + [t];
      }
    }
    assert toks[..|toks|] == toks;
  }

  method ParsePy(r: Rules, parts: seq<string>) returns (n: Name)
    ensures n == Parsed(r, parts)
  {
    var toks, quant := [], "";
    assert parts[0..] == parts;
    ghost var allToks, allQuant := TokensOf(r, parts), QuantOf(r, parts, "");
    for i := 0 to |parts|
      invariant toks + TokensOf(r, parts[i..]) == allToks
      invariant QuantOf(r, parts[i..], quant) == allQuant
    {
      PartStep(r, parts, i, toks, quant);
      SplitsAgree(parts[i]);
      var t, q := TokensPy(r, PyFields(parts[i]));
      var joined := Join(q, '_');
      if joined != "" {
        quant := joined;
      }
      toks := toks + t;
    }
    NoParts(r, parts[|parts|..], toks, quant);
    n := AssemblePy(r, toks, quant);
  }
}
