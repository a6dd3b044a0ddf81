/** References as they may be written: what every text after a scheme is read as. */
module Locators {
  import Bytes
  import opened References

  type Piece = Bytes.Option<string>

  function Value(p: Piece): string { if p.Some? then p.value else "" }

  /** A piece behind its mark, if there is one. */
  function Mark(c: char, p: Piece): string { if p.Some? then [c] + p.value else "" }

  lemma {:induction false} PieceCuts(a: string, c: char, p: Piece)
    requires c !in a
    ensures Before(a + Mark(c, p), c) == a && After(a + Mark(c, p), c) == Value(p)
  {
    if p.Some? {
      assert a + ([c] + p.value) == a + [c] + p.value;
      CutsAt(a, c, p.value);
    } else {
      NoTail(a);
      HasNoCut(a, c);
    }
  }

  lemma {:induction false} PieceOf(s: string, c: char) returns (p: Piece)
    ensures s == Before(s, c) + Mark(c, p) && c !in Before(s, c) && Value(p) == After(s, c)
  {
    CutJoins(s, c);
    if c in s {
      HasCut(s, c);
      p := Bytes.Some(After(s, c));
      assert Before(s, c) + [c] + After(s, c) == Before(s, c) + ([c] + After(s, c));
    } else {
      HasNoCut(s, c);
      p := Bytes.None;
      NoTail(s);
    }
  }

  // ---- hf ----

  /** org, a name and a path in it, a revision and a file at it, a quantisation. */
  datatype Locator = Locator(org: string, name: Piece, path: Piece, revision: Piece, file: Piece, quant: Piece)

  function Inner(l: Locator): Piece { if l.name.Some? then Bytes.Some(l.name.value + Mark('/', l.path)) else Bytes.None }

  function Pinned(l: Locator): Piece { if l.revision.Some? then Bytes.Some(l.revision.value + Mark('/', l.file)) else Bytes.None }

  function Written(l: Locator): string { l.org + Mark('/', Inner(l)) + Mark('@', Pinned(l)) + Mark('#', l.quant) }

  /** No piece holds the mark that ends it. */
  predicate WellMarked(l: Locator)
  {
    && '/' !in l.org && '/' !in Value(l.name) && '/' !in Value(l.revision)
    && '@' !in l.org + Mark('/', Inner(l)) && '#' !in l.org + Mark('/', Inner(l)) + Mark('@', Pinned(l))
  }

  /** What an hf text means: it needs an org and a name, and a file named at a revision
      goes before a path in the repository. */
  function MeantHF(l: Locator): Result
  {
    if l.org == "" || Value(l.name) == "" then Bad(NoOrgRepo)
    else
      var file := if l.revision.Some? then Value(l.file) else "";
      Good(Ref("hf", l.org + "/" + l.name.value, Value(l.revision), Value(l.quant), if file != "" then file else Value(l.path), ""))
  }

  lemma {:induction false} InnerCuts(l: Locator)
    requires WellMarked(l)
    ensures Before(Value(Inner(l)), '/') == Value(l.name) && After(Value(Inner(l)), '/') == if l.name.Some? then Value(l.path) else ""
  {
    NothingCut('/');
    if l.name.Some? {
      PieceCuts(l.name.value, '/', l.path);
    }
  }

  lemma {:induction false} PinnedCuts(l: Locator)
    requires WellMarked(l)
    ensures Before(Value(Pinned(l)), '/') == Value(l.revision) && After(Value(Pinned(l)), '/') == if l.revision.Some? then Value(l.file) else ""
  {
    NothingCut('/');
    if l.revision.Some? {
      PieceCuts(l.revision.value, '/', l.file);
    }
  }

  lemma {:induction false} WrittenReads(l: Locator)
    requires WellMarked(l)
    ensures ReadHF(Written(l)) == MeantHF(l)
  {
    var path := l.org + Mark('/', Inner(l));
    PieceCuts(path + Mark('@', Pinned(l)), '#', l.quant);
    PieceCuts(path, '@', Pinned(l));
    PieceCuts(l.org, '/', Inner(l));
    InnerCuts(l);
    PinnedCuts(l);
  }

  /** Every text is written from pieces so. */
  lemma {:induction false} LocatorOf(s: string) returns (l: Locator)
    ensures WellMarked(l) && s == Written(l)
  {
    var quant := PieceOf(s, '#');
    var main := Before(s, '#');
    var pin := PieceOf(main, '@');
    var path := Before(main, '@');
    var inner := PieceOf(path, '/');
    var name, below, revision, file: Piece := Bytes.None, Bytes.None, Bytes.None, Bytes.None;
    if inner.Some? {
      below := PieceOf(inner.value, '/');
      name := Bytes.Some(Before(inner.value, '/'));
    }
    if pin.Some? {
      file := PieceOf(pin.value, '/');
      revision := Bytes.Some(Before(pin.value, '/'));
    }
    l := Locator(Before(path, '/'), name, below, revision, file, quant);
    assert Inner(l) == inner && Pinned(l) == pin;
  }

  /** Over all texts: an hf reference is read as the pieces it is written from. */
  lemma {:induction false} HFReadsExactly(s: string, res: Result)
    ensures ReadHF(s) == res <==> exists l: Locator :: WellMarked(l) && s == Written(l) && res == MeantHF(l)
  {
    var l := LocatorOf(s);
    WrittenReads(l);
    forall k: Locator | WellMarked(k) && s == Written(k) && res == MeantHF(k) ensures ReadHF(s) == res {
      WrittenReads(k);
    }
  }

  // ---- ollama ----

  /** Over all texts: an ollama reference is a name with Ollama's own tag, or a name and
      what follows its last colon. */
  lemma {:induction false} OllamaReadsExactly(s: string, name: string, tag: string)
    requires ':' !in tag
    ensures ':' !in s ==> ReadOllama(s) == if s == "" then Bad(NoName) else Good(Ref("ollama", s, "latest", "", "", ""))
    ensures s == name + [':'] + tag ==> ReadOllama(s) == if name == "" then Bad(NoName) else Good(Ref("ollama", name, tag, "", "", ""))
  {
    if s == name + [':'] + tag {
      LastCutsAt(name, ':', tag);
      assert s[..|name|] == name && s[|name| + 1..] == tag;
    }
  }

  // ---- schemes ----

  /** Over all texts with a scheme and a clean end, and all without one. */
  lemma {:induction false} SchemesExactly(scheme: string, body: string, s: string)
    requires scheme != "" && !IsSpace(scheme[0]) && ':' !in scheme
    requires s == scheme + "://" + body && EndsCleanly(s)
    ensures Read(s) == if scheme == "hf" then ReadHF(body) else if scheme == "ollama" then ReadOllama(body) else Bad(Unsupported)
  {
    SchemeReads(s, scheme, body, |scheme|);
    assert body[..|body|] == body;
  }

  lemma {:induction false} NoSchemeIsRefused(s: string)
    requires forall i: nat :: !SchemeAt(s, i)
    requires s == "" || (!IsSpace(s[0]) && !IsSpace(s[|s| - 1]))
    ensures Read(s) == Bad(NoScheme)
  {
    assert Trim(s) == s;
  }
}
