/** Diffs with hunks that have no old side: what the hunk loop makes of them, and when
    that is what they mean. */
module Insertions {
  import opened Patches

  /** Where the loop stands after a hunk. A unified diff numbers an empty old side by
      the line before it, and the loop reads that number like any other. */
  function Resumes(e: Edit): int { if e.gone == [] then e.start - 1 else After(e) }

  function Starts(e: Edit): int { if e.gone == [] then e.start - 1 else e.start }

  /** One hunk, read from line k on, in front of o. */
  function LandsAt(lines: seq<string>, e: Edit, k: int, o: Outcome): Outcome
  {
    if Sees(lines, e.start, e.gone) || e.gone == [] then Prepend(Slice(lines, k, Starts(e)) + e.come, o) else Differs
  }

  function Landed(lines: seq<string>, es: Edits, k: int): Outcome
  {
    if es.NoEdit? then Patched(Slice(lines, k, |lines|))
    else LandsAt(lines, es.e, k, Landed(lines, es.rest, Resumes(es.e)))
  }

  // ---- the loop lands so ----

  lemma {:induction false} AddedApplies(read: Reading, lines: seq<string>, body: seq<Line>, tail: seq<string>, c: int)
    requires LinesArePlain(read) && Old(body) == [] && (tail == [] || read(tail[0]) != NotHeader)
    ensures Body(read, lines, BodyText(body) + tail, c) == Prepend(New(body), Outer(read, lines, tail, c))
    decreases |body|
  {
    var all := BodyText(body) + tail;
    if body == [] {
      assert all == tail;
      PrependNothing(Outer(read, lines, tail, c));
    } else {
      LineReads(body[0]);
      assert all[0] == LineText(body[0]) && all[1..] == BodyText(body[1..]) + tail;
      AddedApplies(read, lines, body[1..], tail, c);
      PrependTwice([body[0].text], New(body[1..]), Outer(read, lines, tail, c));
    }
  }

  lemma {:induction false} HunkLands(read: Reading, heading: Heading, lines: seq<string>, h: Hunk, at: nat, tail: seq<string>, k: int)
    requires ReadsRight(read, heading) && (tail == [] || read(tail[0]) != NotHeader)
    ensures var e := EditOf(h);
            Outer(read, lines, HunkText(heading, h, at) + tail, k)
            == LandsAt(lines, e, k, Outer(read, lines, tail, Resumes(e)))
  {
    var e, more := EditOf(h), BodyText(h.body) + tail;
    var o := Outer(read, lines, tail, Resumes(e));
    assert HunkText(heading, h, at) + tail == [heading(h, at)] + more;
    HeaderGoesOn(read, lines, heading(h, at), more, k, Starts(e));
    BodyLands(read, lines, h, tail);
    PrependTwice(Slice(lines, k, Starts(e)), e.come, o);
  }

  lemma {:induction false} BodyLands(read: Reading, lines: seq<string>, h: Hunk, tail: seq<string>)
    requires LinesArePlain(read) && (tail == [] || read(tail[0]) != NotHeader)
    ensures var e := EditOf(h);
            Body(read, lines, BodyText(h.body) + tail, Starts(e))
            == if Sees(lines, e.start, e.gone) || e.gone == [] then Prepend(e.come, Outer(read, lines, tail, Resumes(e))) else Differs
  {
    if Old(h.body) == [] {
      AddedApplies(read, lines, h.body, tail, h.start - 1);
    } else {
      BodyApplies(read, lines, h.body, tail, h.start, After(EditOf(h)));
    }
  }

  lemma {:induction false} HunkGoesOn(
      read: Reading, heading: Heading, lines: seq<string>, hs: Hunks, at: nat, text: seq<string>, tail: seq<string>, k: int)
    requires ReadsRight(read, heading) && (tail == [] || read(tail[0]) != NotHeader)
    requires hs.Then? && text == HunkText(heading, hs.h, at) + tail
    requires var j := Resumes(EditOf(hs.h)); Outer(read, lines, tail, j) == Landed(lines, EditsOf(hs.rest), j)
    ensures Outer(read, lines, text, k) == Landed(lines, EditsOf(hs), k)
  {
    HunkLands(read, heading, lines, hs.h, at, tail, k);
  }

  /** Over all ordered diffs, whatever sides their hunks have: what the loop gives. */
  lemma {:induction false} DiffLands(read: Reading, heading: Heading, lines: seq<string>, hs: Hunks, c: nat, d: nat, k: int)
    requires ReadsRight(read, heading) && Ordered(EditsOf(hs), c)
    ensures Outer(read, lines, DiffText(heading, hs, c, d), k) == Landed(lines, EditsOf(hs), k)
    decreases hs
  {
    if hs.Then? {
      var e := EditOf(hs.h);
      var at, tail := DiffTextHeads(heading, hs, c, d);
      DiffLands(read, heading, lines, hs.rest, After(e), at + |e.come|, Resumes(e));
      DiffTextStarts(read, heading, hs.rest, After(e), at + |e.come|);
      HunkGoesOn(read, heading, lines, hs, at, DiffText(heading, hs, c, d), tail, k);
    }
  }

  // ---- and gives these lines ----

  function LandedLines(lines: seq<string>, es: Edits, k: int): seq<string>
  {
    if es.NoEdit? then Slice(lines, k, |lines|)
    else Slice(lines, k, Starts(es.e)) + es.e.come + LandedLines(lines, es.rest, Resumes(es.e))
  }

  lemma {:induction false} LandedAreLines(lines: seq<string>, es: Edits, k: int)
    requires AllFit(lines, es)
    ensures Landed(lines, es, k) == Patched(LandedLines(lines, es, k))
    decreases es
  {
    if es.Next? {
      LandedAreLines(lines, es.rest, Resumes(es.e));
    }
  }

  predicate InsertsAt(es: Edits, c: nat) { es.Next? && es.e.gone == [] && es.e.start == c }

  /** No two insertions at one place. */
  predicate Apart(es: Edits)
  {
    es.NoEdit? || (Apart(es.rest) && !(es.e.gone == [] && InsertsAt(es.rest, es.e.start)))
  }

  predicate AllAre(new_: seq<string>, t: string) { forall i :: 0 <= i < |new_| ==> new_[i] == t }

  /** Nothing but copies of line k. */
  predicate Copies(new_: seq<string>, lines: seq<string>, k: nat)
    requires k < |lines|
  {
    forall i :: 0 <= i < |new_| ==> new_[i] == lines[k]
  }

  /** Where the loop goes on after an insertion at the top. */
  function FirstLine(lines: seq<string>, es: Edits): int { if es.NoEdit? then |lines| - 1 else Starts(es.e) }

  /** Every insertion lands where it should: below a line of its own, of which it only
      adds copies; or at the top, when what follows begins at the last line and the
      lines above that and the new ones are the same either way round. */
  predicate RightPlaces(lines: seq<string>, es: Edits, c: nat)
    requires AllFit(lines, es)
  {
    if es.NoEdit? then true
    else if es.e.gone != [] then RightPlaces(lines, es.rest, After(es.e))
    else if es.e.start > 0 then
      c < es.e.start && Copies(es.e.come, lines, es.e.start - 1) && RightPlaces(lines, es.rest, es.e.start)
    else if lines == [] then true
    else
      && FirstLine(lines, es.rest) == |lines| - 1
      && es.e.come + lines[..|lines| - 1] == lines[..|lines| - 1] + es.e.come
      && RightPlaces(lines, es.rest, 0)
  }

  // ---- pieces of the file ----

  lemma {:induction false} SliceBack(lines: seq<string>, i: nat, j: int)
    requires -1 <= j <= i && i <= |lines| && (j >= 0 || i == 0)
    ensures |lines| == 0 || j >= 0 ==> Slice(lines, i, j) == []
  {
  }

  /** One line before c, and then on from c. */
  lemma {:induction false} SliceFromBefore(lines: seq<string>, c: nat, j: nat)
    requires 1 <= c <= j <= |lines|
    ensures Slice(lines, c - 1, j) == lines[c - 1..c] + Slice(lines, c, j)
  {
  }

  /** From a line before c the loop gives that line first, unless an insertion stands
      right at c. */
  lemma {:induction false} LagsByOne(lines: seq<string>, es: Edits, c: nat)
    requires 1 <= c <= |lines| && Ordered(es, c) && AllFit(lines, es) && !InsertsAt(es, c)
    ensures LandedLines(lines, es, c - 1) == lines[c - 1..c] + LandedLines(lines, es, c)
  {
    if es.NoEdit? {
      SliceFromBefore(lines, c, |lines|);
    } else {
      SliceFromBefore(lines, c, Starts(es.e));
      var a, b, rest := Slice(lines, c, Starts(es.e)), es.e.come, LandedLines(lines, es.rest, Resumes(es.e));
      var t := lines[c - 1..c];
      assert t + a + b + rest == t + (a + b + rest);
    }
  }

  lemma {:induction false} AllAreExactly(new_: seq<string>, t: string)
    ensures new_ + [t] == [t] + new_ <==> AllAre(new_, t)
  {
    if new_ + [t] == [t] + new_ {
      CopiesUpTo(new_, t, |new_|);
    }
  }

  lemma {:induction false} CopiesUpTo(new_: seq<string>, t: string, k: nat)
    requires new_ + [t] == [t] + new_ && k <= |new_|
    ensures AllAre(new_[..k], t)
  {
    if k > 0 {
      CopiesUpTo(new_, t, k - 1);
      assert (new_ + [t])[k - 1] == new_[k - 1];
      assert k > 1 ==> ([t] + new_)[k - 1] == new_[k - 2] == new_[..k - 1][k - 2];
      assert new_[..k] == new_[..k - 1] + [new_[k - 1]];
    }
  }

  /** Pieces of the same length in front tell two texts apart. */
  lemma {:induction false} FrontsTell(a: seq<string>, x: seq<string>, b: seq<string>, y: seq<string>)
    requires |a| == |b|
    ensures a + x == b + y <==> a == b && x == y
  {
    if a + x == b + y {
      assert a == (a + x)[..|a|] && b == (b + y)[..|b|];
      assert x == (a + x)[|a|..] && y == (b + y)[|b|..];
    }
  }

  // ---- an insertion below the top ----

  lemma {:induction false} EarlyInsertion(lines: seq<string>, e: Edit, c: nat, x: seq<string>, y: seq<string>)
    requires e.gone == [] && c < e.start <= |lines|
    ensures var early := Slice(lines, c, e.start - 1) + e.come + (lines[e.start - 1..e.start] + x);
            var right := lines[c..e.start] + e.come + y;
            && (early == right <==> Copies(e.come, lines, e.start - 1) && x == y)
            && |early| - |x| == |right| - |y|
  {
    var k := e.start - 1;
    var pre, t, new_ := lines[c..k], lines[k], e.come;
    SliceIs(lines, c, k);
    assert lines[c..e.start] == pre + [t];
    assert lines[k..e.start] == [t];
    assert pre + new_ + ([t] + x) == pre + (new_ + [t]) + x;
    assert pre + [t] + new_ + y == pre + ([t] + new_) + y;
    FrontsTell(pre + (new_ + [t]), x, pre + ([t] + new_), y);
    FrontsTell(pre, new_ + [t], pre, [t] + new_);
    AllAreExactly(new_, t);
  }

  /** An insertion right after the hunk before it gives the line before it again. */
  lemma {:induction false} TouchingInsertion(lines: seq<string>, e: Edit, x: seq<string>)
    requires e.gone == [] && 0 < e.start <= |lines|
    ensures var z := lines[e.start - 1..e.start] + x; Slice(lines, e.start, e.start - 1) + e.come + z == e.come + z
  {
    SliceBack(lines, e.start, e.start - 1);
    assert [] + e.come == e.come;
  }

  predicate NoTop(es: Edits) { es.NoEdit? || ((es.e.gone != [] || es.e.start > 0) && NoTop(es.rest)) }

  /** Without insertions at the top: the loop never gives less than the diff means, and
      gives what it means exactly when every insertion lands where it should. */
  lemma {:induction false} LandsRightExactly(lines: seq<string>, es: Edits, c: nat)
    requires c <= |lines| && Ordered(es, c) && AllFit(lines, es) && Apart(es) && NoTop(es)
    ensures |LandedLines(lines, es, c)| >= |Splice(lines, es, c)|
    ensures LandedLines(lines, es, c) == Splice(lines, es, c) <==> RightPlaces(lines, es, c)
    decreases es
  {
    if es.NoEdit? {
      SliceIs(lines, c, c);
    } else {
      LandsRightExactly(lines, es.rest, After(es.e));
      if es.e.gone != [] {
        EditLandsRight(lines, es, c);
      } else if c < es.e.start {
        EarlyLandsRight(lines, es, c);
      } else {
        TouchingLandsRight(lines, es, c);
      }
    }
  }

  /** Never less, and the same outcome exactly when right. */
  ghost predicate Tells(x: seq<string>, y: seq<string>, right: bool) { |x| >= |y| && (Patched(x) == Patched(y) <==> right) }

  ghost predicate RestLandsRight(lines: seq<string>, es: Edits, c: nat)
    requires c <= |lines| && Ordered(es, c) && AllFit(lines, es)
  {
    Tells(LandedLines(lines, es, c), Splice(lines, es, c), RightPlaces(lines, es, c))
  }

  lemma {:induction false} EditLandsRight(lines: seq<string>, es: Edits, c: nat)
    requires es.Next? && es.e.gone != [] && c <= |lines| && Ordered(es, c) && AllFit(lines, es)
    requires RestLandsRight(lines, es.rest, After(es.e))
    ensures RestLandsRight(lines, es, c)
  {
    var front := lines[c..es.e.start] + es.e.come;
    SliceIs(lines, c, es.e.start);
    FrontsTell(front, LandedLines(lines, es.rest, After(es.e)), front, Splice(lines, es.rest, After(es.e)));
  }

  lemma {:induction false} EarlyTells(lines: seq<string>, e: Edit, c: nat, z: seq<string>, x: seq<string>, y: seq<string>)
    requires e.gone == [] && c < e.start <= |lines| && z == lines[e.start - 1..e.start] + x
    ensures var landed, meant := Slice(lines, c, e.start - 1) + e.come + z, lines[c..e.start] + e.come + y;
            |x| >= |y| ==> Tells(landed, meant, Copies(e.come, lines, e.start - 1) && x == y)
  {
    EarlyInsertion(lines, e, c, x, y);
  }

  lemma {:induction false} EarlyLandsSo(lines: seq<string>, es: Edits, c: nat, x: seq<string>, y: seq<string>, right: bool)
    requires es.Next? && es.e.gone == [] && c < es.e.start && c <= |lines| && Ordered(es, c) && AllFit(lines, es)
    requires LandedLines(lines, es.rest, es.e.start - 1) == lines[es.e.start - 1..es.e.start] + x
    requires y == Splice(lines, es.rest, es.e.start) && right == RightPlaces(lines, es.rest, es.e.start) && Tells(x, y, right)
    ensures RestLandsRight(lines, es, c)
  {
    EarlyTells(lines, es.e, c, LandedLines(lines, es.rest, es.e.start - 1), x, y);
  }

  lemma {:induction false} EarlyLandsRight(lines: seq<string>, es: Edits, c: nat)
    requires es.Next? && es.e.gone == [] && c < es.e.start && c <= |lines| && Ordered(es, c) && AllFit(lines, es)
    requires !InsertsAt(es.rest, es.e.start) && RestLandsRight(lines, es.rest, After(es.e))
    ensures RestLandsRight(lines, es, c)
  {
    var s := es.e.start;
    LagsByOne(lines, es.rest, s);
    EarlyLandsSo(lines, es, c, LandedLines(lines, es.rest, s), Splice(lines, es.rest, s), RightPlaces(lines, es.rest, s));
  }

  lemma {:induction false} TouchingLandsRight(lines: seq<string>, es: Edits, c: nat)
    requires es.Next? && es.e.gone == [] && c == es.e.start > 0 && c <= |lines| && Ordered(es, c) && AllFit(lines, es)
    requires !InsertsAt(es.rest, c) && RestLandsRight(lines, es.rest, c)
    ensures RestLandsRight(lines, es, c)
  {
    LagsByOne(lines, es.rest, c);
    TouchingInsertion(lines, es.e, LandedLines(lines, es.rest, c));
    assert lines[c..c] == [];
  }

  // ---- an insertion at the top ----

  /** After an insertion at the top the loop stands before the last line, from where it
      gives nothing until it comes to its next line. */
  lemma {:induction false} TopResumes(lines: seq<string>, es: Edits)
    requires lines != [] && Ordered(es, 0) && AllFit(lines, es) && NoTop(es)
    ensures 0 <= FirstLine(lines, es) < |lines|
    ensures LandedLines(lines, es, -1) == LandedLines(lines, es, FirstLine(lines, es))
  {
    var q := FirstLine(lines, es);
    if es.Next? {
      assert Slice(lines, -1, q) == [] && Slice(lines, q, q) == [];
    }
  }

  lemma {:induction false} SpliceFromFirst(lines: seq<string>, es: Edits)
    requires lines != [] && Ordered(es, 0) && AllFit(lines, es) && NoTop(es)
    ensures var q := FirstLine(lines, es);
            0 <= q < |lines| && Ordered(es, q) && Splice(lines, es, 0) == lines[..q] + Splice(lines, es, q)
  {
    var q := FirstLine(lines, es);
    if es.NoEdit? {
      assert lines[0..] == lines[..q] + lines[q..];
    } else {
      var rest := es.e.come + Splice(lines, es.rest, After(es.e));
      assert lines[0..es.e.start] == lines[..q] + lines[q..es.e.start];
      assert lines[0..es.e.start] + es.e.come + Splice(lines, es.rest, After(es.e)) == lines[0..es.e.start] + rest;
      assert lines[q..es.e.start] + es.e.come + Splice(lines, es.rest, After(es.e)) == lines[q..es.e.start] + rest;
      assert lines[..q] + lines[q..es.e.start] + rest == lines[..q] + (lines[q..es.e.start] + rest);
    }
  }

  /** Where the rest begins does not matter to it. */
  lemma {:induction false} PlacesFromFirst(lines: seq<string>, es: Edits)
    requires lines != [] && Ordered(es, 0) && AllFit(lines, es) && NoTop(es) && FirstLine(lines, es) >= 0
    ensures RightPlaces(lines, es, FirstLine(lines, es)) == RightPlaces(lines, es, 0)
  {
  }

  lemma {:induction false} TopTells(lines: seq<string>, new_: seq<string>, q: nat, x: seq<string>, y: seq<string>)
    requires lines != [] && q < |lines| && |x| >= |y|
    ensures var top := lines[..|lines| - 1];
            top + new_ + x == new_ + (lines[..q] + y) <==> q == |lines| - 1 && new_ + top == top + new_ && x == y
  {
    var top := lines[..|lines| - 1];
    assert new_ + (lines[..q] + y) == new_ + lines[..q] + y;
    if q == |lines| - 1 {
      FrontsTell(top + new_, x, new_ + lines[..q], y);
    } else {
      assert |top + new_ + x| > |new_ + lines[..q] + y|;
    }
  }

  lemma {:induction false} TopIsRightExactly(lines: seq<string>, e: Edit, rest: Edits)
    requires e.gone == [] && e.start == 0
    requires Ordered(rest, 0) && AllFit(lines, rest) && Apart(rest) && NoTop(rest)
    ensures LandedLines(lines, Next(e, rest), 0) == Splice(lines, Next(e, rest), 0) <==> RightPlaces(lines, Next(e, rest), 0)
  {
    var n := |lines|;
    assert lines[0..0] == [] && [] + e.come == e.come;
    if lines == [] {
      assert rest.NoEdit?;
    } else {
      var q := FirstLine(lines, rest);
      TopResumes(lines, rest);
      SpliceFromFirst(lines, rest);
      PlacesFromFirst(lines, rest);
      LandsRightExactly(lines, rest, q);
      assert Slice(lines, 0, -1) == lines[..n - 1];
      TopTells(lines, e.come, q, LandedLines(lines, rest, q), Splice(lines, rest, q));
    }
  }

  // ---- insertions at one place ----

  /** Insertions at one place taken together. */
  function Merged(es: Edits): Edits
  {
    if es.NoEdit? then es
    else
      var m := Merged(es.rest);
      if es.e.gone == [] && InsertsAt(m, es.e.start) then Next(m.e.(come := es.e.come + m.e.come), m.rest)
      else Next(es.e, m)
  }

  /** They mean the same so, and the loop gives the same. */
  lemma {:induction false} MergedMeans(lines: seq<string>, es: Edits, c: nat, k: int)
    requires c <= |lines| && Ordered(es, c) && AllFit(lines, es)
    ensures var m := Merged(es);
            && Ordered(m, c) && AllFit(lines, m) && Apart(m)
            && Splice(lines, m, c) == Splice(lines, es, c) && LandedLines(lines, m, k) == LandedLines(lines, es, k)
    decreases es
  {
    if es.Next? {
      var e, m := es.e, Merged(es.rest);
      MergedMeans(lines, es.rest, After(e), Resumes(e));
      if e.gone == [] && InsertsAt(m, e.start) {
        TakenTogether(lines, e, m, c, k);
      }
    }
  }

  lemma {:induction false} Together(a: seq<string>, b: seq<string>, none: seq<string>, c: seq<string>, d: seq<string>)
    requires none == []
    ensures a + (b + c) + d == a + b + (none + c + d)
  {
    assert none + c + d == c + d;
    assert a + (b + c) + d == a + b + (c + d);
  }

  lemma {:induction false} TakenTogether(lines: seq<string>, e: Edit, m: Edits, c: nat, k: int)
    requires e.gone == [] && InsertsAt(m, e.start)
    requires c <= |lines| && Ordered(Next(e, m), c) && AllFit(lines, Next(e, m))
    ensures var one := Next(m.e.(come := e.come + m.e.come), m.rest);
            && Ordered(one, c) && AllFit(lines, one) && Splice(lines, one, c) == Splice(lines, Next(e, m), c)
            && LandedLines(lines, one, k) == LandedLines(lines, Next(e, m), k)
  {
    var s := e.start;
    LandsTogether(lines, e, m, k);
    Together(lines[c..s], e.come, lines[s..s], m.e.come, Splice(lines, m.rest, s));
  }

  lemma {:induction false} LandsTogether(lines: seq<string>, e: Edit, m: Edits, k: int)
    requires e.gone == [] && InsertsAt(m, e.start)
    ensures LandedLines(lines, Next(m.e.(come := e.come + m.e.come), m.rest), k) == LandedLines(lines, Next(e, m), k)
  {
    var j := e.start - 1;
    Together(Slice(lines, k, j), e.come, Slice(lines, j, j), m.e.come, LandedLines(lines, m.rest, j));
  }

  lemma {:induction false} ApartStays(es: Edits)
    requires Apart(es)
    ensures Merged(es) == es
  {
    if es.Next? {
      ApartStays(es.rest);
    }
  }

  // ---- every ordered diff that fits ----

  lemma {:induction false} OnlyFirstIsTop(es: Edits, c: nat)
    requires Ordered(es, c) && Apart(es)
    ensures c > 0 || InsertsAt(es, c) || es.NoEdit? || es.e.gone != [] || NoTop(es)
    ensures c > 0 ==> NoTop(es)
    decreases es
  {
    if es.Next? {
      OnlyFirstIsTop(es.rest, After(es.e));
    }
  }

  lemma {:induction false} NoTopAfter(es: Edits)
    requires Ordered(es, 0) && Apart(es) && !InsertsAt(es, 0)
    ensures NoTop(es)
    decreases es
  {
    if es.Next? {
      OnlyFirstIsTop(es.rest, After(es.e));
    }
  }

  /** The same of the lines: no two insertions at one place. */
  lemma {:induction false} LinesAreRightExactly(lines: seq<string>, es: Edits)
    requires Ordered(es, 0) && AllFit(lines, es) && Apart(es)
    ensures LandedLines(lines, es, 0) == Splice(lines, es, 0) <==> RightPlaces(lines, es, 0)
  {
    if InsertsAt(es, 0) {
      NoTopAfter(es.rest);
      TopIsRightExactly(lines, es.e, es.rest);
    } else {
      NoTopAfter(es);
      LandsRightExactly(lines, es, 0);
    }
  }

  /** For every ordered diff that fits its file, with hunks of any sides: the loop gives
      what the diff means exactly when every insertion, those at one place taken
      together, lands where it should. */
  lemma {:induction false} DiffIsRightExactly(read: Reading, heading: Heading, names: seq<string>, lines: seq<string>, hs: Hunks)
    requires ReadsRight(read, heading) && |names| == 2
    requires var es := EditsOf(hs); Ordered(es, 0) && AllFit(lines, es)
    ensures AllFit(lines, Merged(EditsOf(hs)))
    ensures Run(read, lines, Diff(heading, names, hs)) == Patched(Splice(lines, EditsOf(hs), 0))
            <==> RightPlaces(lines, Merged(EditsOf(hs)), 0)
  {
    var es := EditsOf(hs);
    RunsAsOuter(read, heading, names, lines, hs);
    DiffLands(read, heading, lines, hs, 0, 0, 0);
    LandedAreLines(lines, es, 0);
    MergedMeans(lines, es, 0, 0);
    LinesAreRightExactly(lines, Merged(es));
  }

  // ---- two that go wrong ----

  function Insertion(start: nat, t: string): Hunk { Hunk(start, [Added(t)]) }

  lemma {:induction false} InsertionMeans(start: nat, t: string)
    ensures EditOf(Insertion(start, t)) == Edit(start, [], [t])
  {
    var body := [Added(t)];
    assert body[1..] == [];
    assert Old(body) == Old(body[1..]) && New(body) == [t] + New(body[1..]);
  }

  /** A line added after the first of two lands before it. */
  lemma {:induction false} InsertionGoesWrong(read: Reading, heading: Heading, names: seq<string>, lines: seq<string>, t: string)
    requires ReadsRight(read, heading) && |names| == 2 && |lines| == 2 && t != lines[0]
    ensures var hs := Then(Insertion(1, t), End);
            && EditsOf(hs) == Next(Edit(1, [], [t]), NoEdit) && AllFit(lines, EditsOf(hs))
            && Run(read, lines, Diff(heading, names, hs)) == Patched([t] + lines)
            && Splice(lines, EditsOf(hs), 0) == [lines[0], t, lines[1]]
  {
    var hs, e := Then(Insertion(1, t), End), Edit(1, [], [t]);
    InsertionMeans(1, t);
    assert EditsOf(hs) == Next(e, EditsOf(End));
    RunsAsOuter(read, heading, names, lines, hs);
    DiffLands(read, heading, lines, hs, 0, 0, 0);
    LandedAreLines(lines, EditsOf(hs), 0);
    assert Slice(lines, 0, 0) == [] && Slice(lines, 0, 2) == lines;
    assert LandedLines(lines, NoEdit, 0) == lines;
    assert [] + [t] + lines == [t] + lines;
    assert lines[0..1] + [t] + lines[1..] == [lines[0], t, lines[1]];
  }

  /** After a replacement of the first of two lines, a copy of that line added below it
      brings the old line back as well. */
  lemma {:induction false} TouchingGoesWrong(read: Reading, heading: Heading, names: seq<string>, lines: seq<string>, t: string)
    requires ReadsRight(read, heading) && |names| == 2 && |lines| == 2
    ensures var x := lines[0];
            var hs := Then(Hunk(0, [Deleted(x), Added(t)]), Then(Insertion(1, x), End));
            && Ordered(EditsOf(hs), 0) && AllFit(lines, EditsOf(hs))
            && Run(read, lines, Diff(heading, names, hs)) == Patched([t, x, x, lines[1]])
            && Splice(lines, EditsOf(hs), 0) == [t, x, lines[1]]
  {
    var x := lines[0];
    var body := [Deleted(x), Added(t)];
    var hs := Then(Hunk(0, body), Then(Insertion(1, x), End));
    SwapMeans(x, t, body);
    InsertionMeans(1, x);
    var last := Next(Edit(1, [], [x]), NoEdit);
    assert EditsOf(hs.rest) == Next(Edit(1, [], [x]), EditsOf(End)) == last;
    assert EditsOf(hs) == Next(Edit(0, [x], [t]), last);
    assert lines[0..1] == [x];
    RunsAsOuter(read, heading, names, lines, hs);
    DiffLands(read, heading, lines, hs, 0, 0, 0);
    LandedAreLines(lines, EditsOf(hs), 0);
    TouchingLines(lines, x, t, last);
  }

  lemma {:induction false} TouchingLines(lines: seq<string>, x: string, t: string, last: Edits)
    requires |lines| == 2 && x == lines[0] && last == Next(Edit(1, [], [x]), NoEdit) && lines[0..1] == [x]
    ensures var es := Next(Edit(0, [x], [t]), last);
            && Ordered(es, 0) && AllFit(lines, es)
            && LandedLines(lines, es, 0) == [t, x, x, lines[1]] && Splice(lines, es, 0) == [t, x, lines[1]]
  {
    assert Slice(lines, 0, 0) == [] && Slice(lines, 1, 0) == [] && Slice(lines, 0, 2) == lines;
    assert LandedLines(lines, last, 1) == [] + [x] + lines;
    assert [] + [t] + ([] + [x] + lines) == [t, x, x, lines[1]];
    assert lines[0..0] == [] && lines[1..1] == [];
    assert Splice(lines, last, 1) == [] + [x] + lines[1..];
  }

  lemma {:induction false} SwapMeans(x: string, t: string, body: seq<Line>)
    requires body == [Deleted(x), Added(t)]
    ensures Old(body) == [x] && New(body) == [t]
  {
    assert body[1..] == [Added(t)] && body[1..][1..] == [];
    assert Old(body[1..]) == Old(body[1..][1..]) && New(body[1..]) == [t] + New(body[1..][1..]);
    assert Old(body) == [x] + Old(body[1..]) && New(body) == New(body[1..]);
  }
}
