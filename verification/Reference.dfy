/** References to models as text: printing one, and reading one back. */
module References {
  datatype Ref = Ref(registry: string, repo: string, revision: string, quant: string, file: string, credential: string)

  datatype Fault = NoScheme | NoOrgRepo | NoName | Unsupported

  datatype Result = Good(ref: Ref) | Bad(fault: Fault)

  const HF: string := "hf"
  const OLLAMA: string := "ollama"

  // ---- text ----

  /** The first place of c from i on, or -1. */
  function IndexFrom(s: string, c: char, i: nat): (j: int)
    requires i <= |s|
    ensures if j < 0 then j == -1 && forall k :: i <= k < |s| ==> s[k] != c
            else i <= j < |s| && s[j] == c && forall k :: i <= k < j ==> s[k] != c
    decreases |s| - i
  {
    if i == |s| then -1 else if s[i] == c then i else IndexFrom(s, c, i + 1)
  }

  function Index(s: string, c: char): int { IndexFrom(s, c, 0) }

  /** The last place of c before n, or -1. */
  function LastBelow(s: string, c: char, n: nat): (j: int)
    requires n <= |s|
    ensures if j < 0 then j == -1 && forall k :: 0 <= k < n ==> s[k] != c
            else j < n && s[j] == c && forall k :: j < k < n ==> s[k] != c
  {
    if n == 0 then -1 else if s[n - 1] == c then n - 1 else LastBelow(s, c, n - 1)
  }

  function LastIndex(s: string, c: char): int { LastBelow(s, c, |s|) }

  /** What stands before the first c, or all of it, and what after, or nothing. */
  function Before(s: string, c: char): string { if Index(s, c) >= 0 then s[..Index(s, c)] else s }

  function After(s: string, c: char): string { if Index(s, c) >= 0 then s[Index(s, c) + 1..] else "" }

  lemma {:induction false} CutsAt(a: string, c: char, b: string)
    requires c !in a
    ensures Before(a + [c] + b, c) == a && After(a + [c] + b, c) == b
  {
    var s := a + [c] + b;
    assert s[|a|] == c && s[..|a|] == a && s[|a| + 1..] == b;
    assert forall k :: 0 <= k < |a| ==> s[k] == a[k];
    assert Index(s, c) == |a|;
  }

  lemma {:induction false} CutJoins(s: string, c: char)
    ensures c !in Before(s, c)
    ensures s == if c in s then Before(s, c) + [c] + After(s, c) else Before(s, c)
  {
  }

  lemma {:induction false} LastCutsAt(a: string, c: char, b: string)
    requires c !in b
    ensures LastIndex(a + [c] + b, c) == |a|
  {
    var s := a + [c] + b;
    assert s[|a|] == c;
    assert forall k :: |a| < k < |s| ==> s[k] == b[k - |a| - 1];
  }

  function Split(s: string, c: char): (parts: seq<string>)
    ensures parts != []
    decreases |s|
  {
    if Index(s, c) >= 0 then [Before(s, c)] + Split(After(s, c), c) else [s]
  }

  function Join(parts: seq<string>, c: char): string
    requires parts != []
  {
    if |parts| == 1 then parts[0] else parts[0] + [c] + Join(parts[1..], c)
  }

  lemma {:induction false} SplitJoins(s: string, c: char)
    ensures Join(Split(s, c), c) == s
    decreases |s|
  {
    CutJoins(s, c);
    if c in s {
      SplitJoins(After(s, c), c);
      assert Split(s, c)[1..] == Split(After(s, c), c);
    }
  }

  /** Unicode white space, as Go trims it. */
  predicate IsSpace(c: char)
  {
    || '\t' <= c <= '\r' || c == ' ' || c == '\U{0085}' || c == '\U{00A0}' || c == '\U{1680}'
    || '\U{2000}' <= c <= '\U{200A}' || c == '\U{2028}' || c == '\U{2029}' || c == '\U{202F}' || c == '\U{205F}'
    || c == '\U{3000}'
  }

  function TrimLeft(s: string): string { if s != "" && IsSpace(s[0]) then TrimLeft(s[1..]) else s }

  function TrimRight(s: string): (t: string)
    ensures |t| <= |s| && t == s[..|t|]
    ensures t == s <==> s == "" || !IsSpace(s[|s| - 1])
  {
    if s != "" && IsSpace(s[|s| - 1]) then TrimRight(s[..|s| - 1]) else s
  }

  function Trim(s: string): string { TrimRight(TrimLeft(s)) }

  predicate SchemeAt(s: string, i: nat) { i + 3 <= |s| && s[i] == ':' && s[i + 1] == '/' && s[i + 2] == '/' }

  /** The first place of "://" from i on, or -1. */
  function SchemeFrom(s: string, i: nat): (j: int)
    requires i <= |s|
    ensures if j < 0 then j == -1 && forall k: nat :: i <= k ==> !SchemeAt(s, k)
            else i <= j && SchemeAt(s, j) && forall k: nat :: i <= k < j ==> !SchemeAt(s, k)
    decreases |s| - i
  {
    if i == |s| then -1 else if SchemeAt(s, i) then i else SchemeFrom(s, i + 1)
  }

  // ---- what the printer and the readers compute ----

  function Text(r: Ref): string
  {
    if r.registry == HF then
      var plain := "hf://" + r.repo;
      var pinned := if r.revision != "" then plain + "@" + r.revision else plain;
      if r.file != "" then pinned + "/" + r.file else if r.quant != "" then pinned + "#" + r.quant else pinned
    else if r.registry == OLLAMA then
      var plain := "ollama://" + r.repo;
      if r.revision != "" then plain + ":" + r.revision else plain
    else if r.registry != "" then r.registry + "://" + r.repo
    else r.repo
  }

  function ReadHF(rest: string): Result
  {
    var main, quant := Before(rest, '#'), After(rest, '#');
    var path, pin := Before(main, '@'), After(main, '@');
    var org, inner := Before(path, '/'), After(path, '/');
    var name, file := Before(inner, '/'), After(inner, '/');
    if org == "" || name == "" then Bad(NoOrgRepo)
    else
      Good(Ref(HF, org + "/" + name, Before(pin, '/'), quant, if After(pin, '/') != "" then After(pin, '/') else file, ""))
  }

  function ReadOllama(rest: string): Result
  {
    var i := LastIndex(rest, ':');
    if rest == "" || i == 0 then Bad(NoName)
    else if i < 0 then Good(Ref(OLLAMA, rest, "latest", "", "", ""))
    else Good(Ref(OLLAMA, rest[..i], rest[i + 1..], "", "", ""))
  }

  function Read(s: string): Result
  {
    var t := Trim(s);
    var i := SchemeFrom(t, 0);
    if i < 0 then Bad(NoScheme)
    else if t[..i] == HF then ReadHF(t[i + 3..])
    else if t[..i] == OLLAMA then ReadOllama(t[i + 3..])
    else Bad(Unsupported)
  }

  // ---- the code ----

  /** The print of a reference, which reads back as it exactly when it is one that
      survives; what those are is said below. */
  method String(r: Ref) returns (s: string)
    ensures s == Text(r)
    ensures Read(s) == Good(r) <==> HFOk(r) || OllamaOk(r)
  {
    PrintReadsBackExactly(r);
    if r.registry == HF {
      s := "hf://" + r.repo;
      if r.revision != "" {
        s := s + "@" + r.revision;
      }
      if r.file != "" {
        s := s + "/" + r.file;
      } else if r.quant != "" {
        s := s + "#" + r.quant;
      }
      return s;
    }
    if r.registry == OLLAMA {
      s := "ollama://" + r.repo;
      if r.revision != "" {
        s := s + ":" + r.revision;
      }
      return s;
    }
    if r.registry != "" {
      return r.registry + "://" + r.repo;
    }
    return r.repo;
  }

  lemma {:induction false} SplitCases(s: string)
    ensures var parts := Split(s, '/');
            var org, inner := Before(s, '/'), After(s, '/');
            if '/' !in s then parts == [s] && org == s && inner == ""
            else
              && |parts| >= 2 && parts[0] == org && parts[1] == Before(inner, '/')
              && (|parts| == 2 <==> '/' !in inner)
              && (|parts| > 2 ==> Join(parts[2..], '/') == After(inner, '/'))
  {
    if '/' in s {
      var inner := After(s, '/');
      var parts := Split(s, '/');
      assert parts[1..] == Split(inner, '/');
      if '/' in inner {
        assert parts[2..] == Split(inner, '/')[1..] == Split(After(inner, '/'), '/');
        SplitJoins(After(inner, '/'), '/');
      }
    }
  }

  method ParseHF(whole: string) returns (res: Result)
    ensures res == ReadHF(whole)
  {
    var r := Ref(HF, "", "", "", "", "");
    var rest := whole;
    var i := Index(rest, '#');
    if i >= 0 {
      r := r.(quant := rest[i + 1..]);
      rest := rest[..i];
    }
    var pinned, path := ParsePin(r, rest);
    res := ParsePath(pinned, path);
  }

  /** The middle part of the HF reader: a revision, and a path after it. */
  method ParsePin(before: Ref, main: string) returns (r: Ref, rest: string)
    requires before.revision == "" && before.file == ""
    ensures rest == Before(main, '@')
    ensures var pin := After(main, '@'); r == before.(revision := Before(pin, '/'), file := After(pin, '/'))
  {
    rest := main;
    var i, after := Index(rest, '@'), "";
    if i >= 0 {
      after := rest[i + 1..];
      rest := rest[..i];
    }
    CutIs(main, '@', i);
    r := ParseRevision(before, after);
  }

  lemma {:induction false} CutIs(s: string, c: char, i: int)
    requires i == Index(s, c)
    ensures i < |s|
    ensures if i >= 0 then Before(s, c) == s[..i] && After(s, c) == s[i + 1..] else Before(s, c) == s && After(s, c) == ""
  {
  }

  lemma {:induction false} NothingCut(c: char)
    ensures Before("", c) == "" && After("", c) == ""
  {
  }

  method ParseRevision(before: Ref, after: string) returns (r: Ref)
    requires before.revision == "" && before.file == ""
    ensures r == before.(revision := Before(after, '/'), file := After(after, '/'))
  {
    var j := Index(after, '/');
    CutIs(after, '/', j);
    if j >= 0 {
      r := before.(revision := after[..j], file := after[j + 1..]);
    } else {
      r := before.(revision := after);
    }
  }

  /** The last part of the HF reader: the repository, and a path inside it. */
  method ParsePath(before: Ref, rest: string) returns (res: Result)
    ensures var org, inner := Before(rest, '/'), After(rest, '/');
            var name, file := Before(inner, '/'), After(inner, '/');
            res == if org == "" || name == "" then Bad(NoOrgRepo)
                   else Good(before.(repo := org + "/" + name, file := if before.file != "" then before.file else file))
  {
    var r := before;
    var parts := Split(rest, '/');
    SplitCases(rest);
    if |parts| < 2 {
      return Bad(NoOrgRepo);
    } else if |parts| == 2 {
      r := r.(repo := parts[0] + "/" + parts[1]);
    } else {
      r := r.(repo := parts[0] + "/" + parts[1]);
      if r.file == "" {
        r := r.(file := Join(parts[2..], '/'));
      }
    }
    CutJoins(rest, '/');
    CutJoins(After(rest, '/'), '/');
    SlashEnds(parts[0], parts[1]);
    if r.repo == "/" || r.repo[0] == '/' || r.repo[|r.repo| - 1] == '/' {
      return Bad(NoOrgRepo);
    }
    return Good(r);
  }

  lemma {:induction false} SlashEnds(a: string, b: string)
    requires '/' !in a && '/' !in b
    ensures var s := a + "/" + b; s[0] == '/' || s[|s| - 1] == '/' <==> a == "" || b == ""
  {
    var s := a + "/" + b;
    assert a != "" ==> s[0] == a[0];
    assert b != "" ==> s[|s| - 1] == b[|b| - 1];
  }

  method ParseOllama(rest: string) returns (res: Result)
    ensures res == ReadOllama(rest)
  {
    var r := Ref(OLLAMA, "", "latest", "", "", "");
    if rest == "" {
      return Bad(NoName);
    }
    var i := LastIndex(rest, ':');
    if i >= 0 {
      r := r.(repo := rest[..i], revision := rest[i + 1..]);
    } else {
      r := r.(repo := rest);
    }
    if r.repo == "" {
      return Bad(NoName);
    }
    return Good(r);
  }

  method ParseRef(s: string) returns (res: Result)
    ensures res == Read(s)
  {
    var t := Trim(s);
    var i := SchemeFrom(t, 0);
    if i < 0 {
      return Bad(NoScheme);
    }
    var scheme, rest := t[..i], t[i + 3..];
    if scheme == HF {
      res := ParseHF(rest);
    } else if scheme == OLLAMA {
      res := ParseOllama(rest);
    } else {
      res := Bad(Unsupported);
    }
  }

  // ---- which references survive being printed and read ----

  predicate EndsCleanly(s: string) { s == "" || !IsSpace(s[|s| - 1]) }

  /** org/name, both there, without the marks that end a repository. */
  predicate RepoOk(repo: string)
  {
    var org, name := Before(repo, '/'), After(repo, '/');
    org != "" && name != "" && '/' !in name && '@' !in repo && '#' !in repo
  }

  predicate HFFits(r: Ref)
  {
    && r.registry == HF && r.credential == "" && RepoOk(r.repo)
    && '/' !in r.revision && '#' !in r.revision
    && (r.file == "" || r.quant == "") && '#' !in r.file && (r.revision == "" ==> '@' !in r.file)
  }

  predicate HFOk(r: Ref) { HFFits(r) && EndsCleanly(Text(r)) }

  predicate OllamaFits(r: Ref)
  {
    && r.registry == OLLAMA && r.quant == "" && r.file == "" && r.credential == ""
    && r.repo != "" && r.revision != "" && ':' !in r.revision
  }

  predicate OllamaOk(r: Ref) { OllamaFits(r) && EndsCleanly(Text(r)) }

  function Pin(r: Ref): string { if r.revision != "" then "@" + r.revision else "" }

  function Pick(r: Ref): string { if r.file != "" then "/" + r.file else if r.quant != "" then "#" + r.quant else "" }

  function HFBody(r: Ref): string { r.repo + Pin(r) + Pick(r) }

  lemma {:induction false} HasNoCut(s: string, c: char)
    requires c !in s
    ensures Before(s, c) == s && After(s, c) == ""
  {
  }

  lemma {:induction false} HasCut(s: string, c: char)
    requires c in s
    ensures Index(s, c) >= 0 && s == Before(s, c) + [c] + After(s, c) && c !in Before(s, c)
  {
    var k :| 0 <= k < |s| && s[k] == c;
    assert Index(s, c) >= 0;
  }

  /** What is before a '#' and what is after, in a printed hf reference. */
  lemma {:induction false} QuantReads(r: Ref)
    requires HFFits(r)
    ensures var main := r.repo + Pin(r) + if r.file != "" then "/" + r.file else "";
            Before(HFBody(r), '#') == main && After(HFBody(r), '#') == r.quant
  {
    var main := r.repo + Pin(r) + if r.file != "" then "/" + r.file else "";
    if r.file == "" && r.quant != "" {
      assert HFBody(r) == main + ['#'] + r.quant;
      CutsAt(main, '#', r.quant);
    } else {
      assert HFBody(r) == main;
      HasNoCut(main, '#');
    }
  }

  lemma {:induction false} PathReads(repo: string, tail: string)
    requires RepoOk(repo)
    ensures var path := repo + if tail != "" then "/" + tail else "";
            var org, inner := Before(path, '/'), After(path, '/');
            && org + "/" + Before(inner, '/') == repo && org != "" && Before(inner, '/') != ""
            && After(inner, '/') == tail
  {
    var org, name := Before(repo, '/'), After(repo, '/');
    HasSlash(repo);
    if tail == "" {
      assert repo + "" == repo;
      HasNoCut(name, '/');
    } else {
      var inner := name + ['/'] + tail;
      assert repo + ("/" + tail) == org + ['/'] + inner;
      CutsAt(org, '/', inner);
      CutsAt(name, '/', tail);
    }
  }

  lemma {:induction false} HasSlash(repo: string)
    requires After(repo, '/') != ""
    ensures repo == Before(repo, '/') + "/" + After(repo, '/') && '/' !in Before(repo, '/')
  {
    assert repo[Index(repo, '/')] == '/';
  }

  /** The revision, and the file after it, in what stands before the '#'. */
  lemma {:induction false} PinReads(r: Ref)
    requires HFFits(r)
    ensures var main := r.repo + Pin(r) + if r.file != "" then "/" + r.file else "";
            && Before(main, '@') == r.repo + (if r.revision == "" && r.file != "" then "/" + r.file else "")
            && Before(After(main, '@'), '/') == r.revision
            && After(After(main, '@'), '/') == if r.revision != "" then r.file else ""
  {
    var tail := if r.file != "" then "/" + r.file else "";
    if r.revision == "" {
      NoTail(r.repo);
      NoneAfter(r.repo, r.file, '@');
      HasNoCut(r.repo + tail, '@');
      NothingCut('/');
    } else {
      PinnedReads(r.repo, r.revision, tail);
      RevisionReads(r.revision, r.file);
    }
  }

  /** A text without c, and one after a slash, have none together. */
  lemma {:induction false} NoneAfter(repo: string, file: string, c: char)
    requires c !in repo && c !in file && c != '/'
    ensures c !in repo + if file != "" then "/" + file else ""
  {
  }

  lemma {:induction false} PinnedReads(repo: string, revision: string, tail: string)
    requires '@' !in repo
    ensures var main := repo + ("@" + revision) + tail;
            Before(main, '@') == repo && After(main, '@') == revision + tail
  {
    Assoc(repo, "@", revision);
    Assoc(repo + "@", revision, tail);
    CutsAt(repo, '@', revision + tail);
  }

  lemma {:induction false} RevisionReads(revision: string, file: string)
    requires '/' !in revision
    ensures var after := revision + if file != "" then "/" + file else "";
            Before(after, '/') == revision && After(after, '/') == file
  {
    if file == "" {
      NoTail(revision);
      HasNoCut(revision, '/');
    } else {
      Assoc(revision, "/", file);
      CutsAt(revision, '/', file);
    }
  }

  lemma {:induction false} HFReads(r: Ref)
    requires HFFits(r)
    ensures ReadHF(HFBody(r)) == Good(r)
  {
    QuantReads(r);
    PinReads(r);
    PathReads(r.repo, if r.revision == "" then r.file else "");
  }

  lemma {:induction false} OllamaReads(repo: string, revision: string)
    requires repo != "" && revision != "" && ':' !in revision
    ensures ReadOllama(OllamaBody(Ref(OLLAMA, repo, revision, "", "", ""))) == Good(Ref(OLLAMA, repo, revision, "", "", ""))
  {
    var rest := repo + [':'] + revision;
    assert OllamaBody(Ref(OLLAMA, repo, revision, "", "", "")) == rest;
    LastCutsAt(repo, ':', revision);
    assert rest[..|repo|] == repo && rest[|repo| + 1..] == revision;
  }

  // ---- and that no others do ----

  lemma {:induction false} TrimKeeps(s: string, k: nat)
    requires k < |s| && !IsSpace(s[k])
    ensures |TrimRight(s)| > k
  {
    if IsSpace(s[|s| - 1]) {
      TrimKeeps(s[..|s| - 1], k);
    }
  }

  lemma {:induction false} SchemeFound(t: string, scheme: string, k: nat)
    requires k == |scheme| && k + 3 <= |t| && (forall i :: 0 <= i < k ==> scheme[i] != ':')
    requires forall i :: 0 <= i < k ==> t[i] == scheme[i]
    requires t[k] == ':' && t[k + 1] == '/' && t[k + 2] == '/'
    ensures SchemeFrom(t, 0) == k && t[..k] == scheme
  {
    assert SchemeAt(t, k);
    assert t[..k] == scheme;
  }

  /** What trimming leaves of a scheme and a body. */
  lemma {:induction false} SchemeStays(s: string, scheme: string, body: string, k: nat) returns (n: nat)
    requires k == |scheme| > 0 && s == scheme + "://" + body && !IsSpace(scheme[0])
    ensures n == |TrimRight(s)| - k - 3 && n <= |body| && (n == |body| <==> EndsCleanly(s))
    ensures Trim(s) == TrimRight(s) == s[..k + 3 + n] && s[k..k + 3] == "://" && s[..k] == scheme
    ensures s[k + 3..] == body
  {
    assert s[0] == scheme[0] && s[k + 2] == '/';
    TrimKeeps(s, k + 2);
    n := |TrimRight(s)| - k - 3;
    assert TrimLeft(s) == s;
  }

  /** Reading a text that starts with a scheme is reading what is left of the rest
      once trimmed. */
  lemma {:induction false} SchemeReads(s: string, scheme: string, body: string, k: nat)
    requires k == |scheme| > 0 && !IsSpace(scheme[0]) && (forall i :: 0 <= i < k ==> scheme[i] != ':')
    requires s == scheme + "://" + body
    ensures var n := |TrimRight(s)| - k - 3;
            && 0 <= n <= |body| && (n == |body| <==> EndsCleanly(s))
            && Read(s) == if scheme == HF then ReadHF(body[..n]) else if scheme == OLLAMA then ReadOllama(body[..n]) else Bad(Unsupported)
  {
    var n := SchemeStays(s, scheme, body, k);
    var t := s[..k + 3 + n];
    assert s[k] == ':' && s[k + 1] == '/' && s[k + 2] == '/';
    SchemeFound(t, scheme, k);
    assert t[k + 3..] == s[k + 3..][..n];
  }

  /** What is read of a text prints no longer than it. */
  lemma {:induction false} ReadIsNoLonger(rest: string)
    requires ReadHF(rest).Good?
    ensures |HFBody(ReadHF(rest).ref)| <= |rest|
  {
    var main := Before(rest, '#');
    var path, pin := Before(main, '@'), After(main, '@');
    var inner := After(path, '/');
    CutJoins(rest, '#');
    CutLength(rest, '#');
    CutLength(main, '@');
    CutLength(path, '/');
    CutLength(inner, '/');
    CutLength(pin, '/');
  }

  lemma {:induction false} CutLength(s: string, c: char)
    ensures |s| == |Before(s, c)| + (if Index(s, c) >= 0 then 1 + |After(s, c)| else 0)
    ensures Index(s, c) < 0 ==> After(s, c) == "" && Before(s, c) == s
  {
  }

  lemma {:induction false} CutsAreParts(s: string, c: char, d: char)
    requires d !in s
    ensures d !in Before(s, c) && d !in After(s, c)
  {
  }

  /** What any read hf reference is like. */
  lemma {:induction false} ReadIsLike(rest: string)
    requires ReadHF(rest).Good?
    ensures var r := ReadHF(rest).ref;
            && r.registry == HF && r.credential == "" && RepoOk(r.repo)
            && '/' !in r.revision && '#' !in r.revision && '#' !in r.file
  {
    var main := Before(rest, '#');
    var path, pin := Before(main, '@'), After(main, '@');
    var org, inner := Before(path, '/'), After(path, '/');
    var name := Before(inner, '/');
    CutJoins(rest, '#');
    CutJoins(main, '@');
    CutsAreParts(main, '@', '#');
    CutsAreParts(path, '/', '#');
    CutsAreParts(path, '/', '@');
    CutsAreParts(inner, '/', '#');
    CutsAreParts(inner, '/', '@');
    CutsAreParts(pin, '/', '#');
    CutJoins(pin, '/');
    CutJoins(path, '/');
    CutJoins(inner, '/');
    CutsAt(org, '/', name);
  }

  lemma {:induction false} HFNeedsOne(r: Ref)
    requires ReadHF(HFBody(r)) == Good(r)
    ensures r.file == "" || r.quant == ""
  {
    ReadIsLike(HFBody(r));
    if r.file != "" {
      NoMark(r.repo, r.revision, r.file);
      HasNoCut(HFBody(r), '#');
    }
  }

  lemma {:induction false} NoMark(repo: string, revision: string, file: string)
    requires '#' !in repo && '#' !in revision && '#' !in file
    ensures '#' !in repo + (if revision != "" then "@" + revision else "") + ("/" + file)
  {
    NoneIn(repo, if revision != "" then "@" + revision else "", '#');
    NoneIn(repo + (if revision != "" then "@" + revision else ""), "/" + file, '#');
  }

  lemma {:induction false} NoneIn(a: string, b: string, c: char)
    requires c !in a && c !in b
    ensures c !in a + b
  {
  }

  lemma {:induction false} HFNeedsNoAt(r: Ref)
    requires ReadHF(HFBody(r)) == Good(r) && r.revision == ""
    ensures '@' !in r.file
  {
    ReadIsLike(HFBody(r));
    if '@' in r.file {
      AtIsLost(r);
    }
  }

  lemma {:induction false} UnpinnedBody(r: Ref)
    requires RepoOk(r.repo) && r.revision == "" && '@' in r.file && '#' !in r.file
    ensures var f1, f2 := Before(r.file, '@'), After(r.file, '@');
            var path := r.repo + "/" + f1;
            && HFBody(r) == path + ['@'] + f2 && '@' !in path && '#' !in HFBody(r) && |r.file| == |f1| + 1 + |f2|
  {
    var f1, f2 := Before(r.file, '@'), After(r.file, '@');
    HasCut(r.file, '@');
    NoTail(r.repo);
    Assoc(f1, ['@'], f2);
    Assoc(r.repo, "/", r.file);
    Assoc(r.repo + "/", f1, ['@'] + f2);
    Assoc(r.repo + "/" + f1, ['@'], f2);
    NoneIn(r.repo, "/", '@');
    NoneIn(r.repo + "/", f1, '@');
    NoneIn(r.repo, "/" + r.file, '#');
  }

  /** Without a revision, a '@' in the file is taken for one. */
  lemma {:induction false} AtIsLost(r: Ref)
    requires r.registry == HF && RepoOk(r.repo) && r.revision == "" && '@' in r.file && '#' !in r.file
    ensures ReadHF(HFBody(r)) != Good(r)
  {
    var f1, f2 := Before(r.file, '@'), After(r.file, '@');
    var body := HFBody(r);
    UnpinnedBody(r);
    HasNoCut(body, '#');
    CutsAt(r.repo + "/" + f1, '@', f2);
    CutLength(f2, '/');
    FileOfPath(r.repo, f1);
    assert ReadHF(body).Good? ==> |ReadHF(body).ref.file| < |r.file|;
  }

  lemma {:induction false} FileOfPath(repo: string, file: string)
    requires RepoOk(repo)
    ensures After(After(repo + "/" + file, '/'), '/') == file
  {
    var org, name := Before(repo, '/'), After(repo, '/');
    HasSlash(repo);
    var inner := name + ['/'] + file;
    assert repo + "/" + file == org + ['/'] + inner;
    CutsAt(org, '/', inner);
    CutsAt(name, '/', file);
  }

  lemma {:induction false} SchemesAreWords(scheme: string)
    requires scheme == HF || scheme == OLLAMA
    ensures scheme != "" && !IsSpace(scheme[0]) && forall i :: 0 <= i < |scheme| ==> scheme[i] != ':'
    ensures |scheme| == if scheme == HF then 2 else 6
  {
  }

  lemma {:induction false} Assoc(a: string, b: string, c: string)
    ensures a + b + c == a + (b + c)
  {
  }

  lemma {:induction false} NoTail(a: string)
    ensures a + "" == a
  {
  }

  lemma {:induction false} SchemeMarks()
    ensures "hf://" == HF + "://" && "ollama://" == OLLAMA + "://" && HF != OLLAMA
  {
    assert |HF| != |OLLAMA|;
  }

  /** A first piece, an optional second and an optional third, grouped either way. */
  lemma {:induction false} GroupsJoin(plain: string, start: string, repo: string, pin: string, pick: string)
    requires plain == start + repo
    ensures plain + pin + pick == start + (repo + pin + pick)
  {
    Assoc(start, repo, pin);
    Assoc(start, repo + pin, pick);
  }

  lemma {:induction false} HFBodyPrints(r: Ref)
    requires r.registry == HF
    ensures Text(r) == r.registry + "://" + HFBody(r)
  {
    var plain := "hf://" + r.repo;
    SchemeMarks();
    GroupsJoin(plain, HF + "://", r.repo, Pin(r), Pick(r));
    NoTail(plain);
    NoTail(plain + Pin(r));
    Assoc(plain, "@", r.revision);
    Assoc(plain + Pin(r), "/", r.file);
    Assoc(plain + Pin(r), "#", r.quant);
  }

  lemma {:induction false} HFReadsRest(r: Ref, s: string)
    requires r.registry == HF && s == Text(r)
    ensures var n := |TrimRight(s)| - 5;
            && 0 <= n <= |HFBody(r)| && (n == |HFBody(r)| <==> EndsCleanly(s))
            && Read(s) == ReadHF(HFBody(r)[..n])
  {
    SchemesAreWords(r.registry);
    HFBodyPrints(r);
    SchemeReads(s, r.registry, HFBody(r), 2);
  }

  lemma {:induction false} HFBodyExactly(r: Ref, body: string, n: nat)
    requires body == HFBody(r) && n <= |body|
    ensures ReadHF(body[..n]) == Good(r) <==> n == |body| && HFFits(r)
  {
    assert body[..|body|] == body;
    if HFFits(r) {
      HFReads(r);
    }
    if ReadHF(body[..n]) == Good(r) {
      ReadIsNoLonger(body[..n]);
      ReadIsLike(body);
      HFNeedsOne(r);
      if r.revision == "" {
        HFNeedsNoAt(r);
      }
    }
  }

  lemma {:induction false} HFExactly(r: Ref, s: string)
    requires r.registry == HF && s == Text(r)
    ensures Read(s) == Good(r) <==> HFOk(r)
  {
    HFReadsRest(r, s);
    HFBodyExactly(r, HFBody(r), |TrimRight(s)| - 5);
  }

  function OllamaBody(r: Ref): string { r.repo + if r.revision != "" then ":" + r.revision else "" }

  lemma {:induction false} OllamaPrints(r: Ref)
    requires r.registry == OLLAMA
    ensures Text(r) == r.registry + "://" + OllamaBody(r)
  {
    SchemeMarks();
    var start, plain := OLLAMA + "://", "ollama://" + r.repo;
    Assoc(plain, ":", r.revision);
    Assoc(start, r.repo, ":" + r.revision);
    NoTail(r.repo);
  }

  lemma {:induction false} TagStays(r: Ref, s: string)
    requires r.registry == OLLAMA && s == r.registry + "://" + OllamaBody(r) && r.revision != ""
    ensures |TrimRight(s)| > 9 + |r.repo|
  {
    SchemesAreWords(r.registry);
    assert OllamaBody(r)[|r.repo|] == ':';
    assert s[9 + |r.repo|] == ':';
    TrimKeeps(s, 9 + |r.repo|);
  }

  lemma {:induction false} OllamaReadsRest(r: Ref, s: string)
    requires r.registry == OLLAMA && s == Text(r)
    ensures var n := |TrimRight(s)| - 9;
            && 0 <= n <= |OllamaBody(r)| && (n == |OllamaBody(r)| <==> EndsCleanly(s))
            && (r.revision != "" ==> n > |r.repo|)
            && Read(s) == ReadOllama(OllamaBody(r)[..n])
  {
    SchemesAreWords(r.registry);
    SchemeMarks();
    OllamaPrints(r);
    SchemeReads(s, r.registry, OllamaBody(r), 6);
    if r.revision != "" {
      TagStays(r, s);
    }
  }

  lemma {:induction false} OllamaExactly(r: Ref, s: string)
    requires r.registry == OLLAMA && s == Text(r)
    ensures Read(s) == Good(r) <==> OllamaOk(r)
  {
    OllamaReadsRest(r, s);
    OllamaBodyExactly(r, OllamaBody(r), |TrimRight(s)| - 9);
  }

  lemma {:induction false} OllamaBodyExactly(r: Ref, body: string, n: nat)
    requires r.registry == OLLAMA && body == OllamaBody(r) && n <= |body|
    requires r.revision != "" ==> n > |r.repo|
    ensures ReadOllama(body[..n]) == Good(r)
            <==> n == |body| && OllamaFits(r)
  {
    assert body[..|body|] == body;
    if OllamaFits(r) {
      OllamaReads(r.repo, r.revision);
    }
    if ReadOllama(body[..n]) == Good(r) {
      OllamaNeeds(r, body, n);
    }
  }

  lemma {:induction false} OllamaNeeds(r: Ref, body: string, n: nat)
    requires body == OllamaBody(r) && n <= |body|
    requires r.revision != "" ==> n > |r.repo|
    requires ReadOllama(body[..n]) == Good(r)
    ensures n == |body| && r.quant == "" && r.file == "" && r.credential == ""
    ensures r.repo != "" && r.revision != "" && ':' !in r.revision
  {
    var i := LastIndex(body[..n], ':');
    assert i >= 0;
    assert |r.repo| == i && |r.revision| == n - i - 1;
  }

  /** Over all references, printing and reading back gives the same one exactly for
      the hf references with no credential whose repository is org/name, whose
      revision has no '/' or '#', that name a file or a quant and not both, the file
      without '#' and, if there is no revision, without '@'; and the ollama ones with
      a name and a tag without ':' and nothing else; printed without white space at
      the end. */
  lemma {:induction false} PrintReadsBackExactly(r: Ref)
    ensures Read(Text(r)) == Good(r) <==> HFOk(r) || OllamaOk(r)
  {
    if r.registry == HF {
      HFExactly(r, Text(r));
    } else if r.registry == OLLAMA {
      OllamaExactly(r, Text(r));
    }
  }

  /** What was read prints and reads back unless it has both a file and a quant, or an
      unpinned file with a '@', or now ends in white space. */
  lemma {:induction false} ReadPrintsBackExactly(s: string)
    requires Read(s).Good? && Read(s).ref.registry == HF
    ensures var r := Read(s).ref;
            Read(Text(r)) == Good(r)
            <==> (r.file == "" || r.quant == "") && (r.revision == "" ==> '@' !in r.file) && EndsCleanly(Text(r))
  {
    var t := Trim(s);
    ReadIsLike(t[SchemeFrom(t, 0) + 3..]);
    PrintReadsBackExactly(Read(s).ref);
  }
}
