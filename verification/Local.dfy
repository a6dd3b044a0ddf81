/** Local copies put in front of the sources a registry gave. */
module Locals {
  /** A source of an artifact; store is its one attribute when it is a local copy. */
  datatype Source = Source(scheme: string, locator: string, priority: int, attrs: map<string, string>)

  datatype Spec = Spec(digest: string, sources: seq<Source>)

  datatype Hit = Hit(store: string, path: string, size: int)

  const FILE: string := "file"

  /** The front of the line: the first local copy goes here, the next one after it. */
  const FRONT: int := -100

  /** What placeKey makes of a path: one key for one place. */
  type Keying = string -> string

  // ---- finding ----

  /** The copies a store can name a path for. */
  function WithPath(refs: seq<Hit>): seq<Hit>
  {
    if refs == [] then []
    else
      var init, h := refs[..|refs| - 1], refs[|refs| - 1];
      if h.path == "" then WithPath(init) else WithPath(init) + [h]
  }

  method Find(refs: seq<Hit>) returns (hits: seq<Hit>)
    ensures hits == WithPath(refs)
    ensures forall h :: h in hits <==> h in refs && h.path != ""
  {
    hits := [];
    for i := 0 to |refs|
      invariant hits == WithPath(refs[..i])
      invariant forall h :: h in hits <==> h in refs[..i] && h.path != ""
    {
      assert refs[..i + 1] == refs[..i] + [refs[i]];
      if refs[i].path == "" {
        continue;
      }
      hits := hits + [refs[i]];
    }
    assert refs[..|refs|] == refs;
  }

  // ---- the merge ----

  function PlaceOf(key: Keying, s: Source): string { key(s.locator) }

  /** The places the sources already name by file. */
  ghost function Named(key: Keying, sources: seq<Source>): set<string>
  {
    set s | s in sources && s.scheme == FILE :: PlaceOf(key, s)
  }

  function CopyOf(h: Hit, n: nat): Source { Source(FILE, h.path, FRONT + n, map["store" := h.store]) }

  /** The sources added for the hits: one for each place not known before. */
  ghost function Copies(key: Keying, hits: seq<Hit>, known: set<string>): seq<Source>
  {
    if hits == [] then []
    else
      var init, h := hits[..|hits| - 1], hits[|hits| - 1];
      var before := Copies(key, init, known);
      if key(h.path) in known || key(h.path) in Named(key, before) then before else before + [CopyOf(h, |before|)]
  }

  ghost function Augmented(key: Keying, hits: seq<Hit>, spec: Spec): Spec
  {
    spec.(sources := Copies(key, hits, Named(key, spec.sources)) + spec.sources)
  }

  predicate Has(m: map<string, bool>, k: string) { k in m && m[k] }

  lemma {:induction false} NamedSnoc(key: Keying, sources: seq<Source>, s: Source)
    ensures Named(key, sources + [s]) == Named(key, sources) + if s.scheme == FILE then {PlaceOf(key, s)} else {}
  {
    var all := sources + [s];
    assert forall x :: x in all <==> x in sources || x == s;
  }

  /** The first loop: what is already named, in a map. */
  method Already(key: Keying, sources: seq<Source>) returns (already: map<string, bool>)
    ensures forall k :: Has(already, k) <==> k in Named(key, sources)
  {
    already := map[];
    for i := 0 to |sources|
      invariant forall k :: Has(already, k) <==> k in Named(key, sources[..i])
    {
      assert sources[..i + 1] == sources[..i] + [sources[i]];
      NamedSnoc(key, sources[..i], sources[i]);
      if sources[i].scheme == FILE {
        already := already[key(sources[i].locator) := true];
      }
    }
    assert sources[..|sources|] == sources;
  }

  method Augment(key: Keying, hits: seq<Hit>, spec: Spec) returns (r: Spec)
    ensures r == Augmented(key, hits, spec)
  {
    ghost var known := Named(key, spec.sources);
    if |hits| == 0 {
      assert [] + spec.sources == spec.sources;
      return spec;
    }
    var already := Already(key, spec.sources);
    var local: seq<Source> := [];
    for i := 0 to |hits|
      invariant local == Copies(key, hits[..i], known)
      invariant forall k :: Has(already, k) <==> k in known || k in Named(key, local)
    {
      assert hits[..i + 1][..i] == hits[..i];
      var h := hits[i];
      var k := key(h.path);
      if Has(already, k) {
        continue;
      }
      already := already[k := true];
      NamedSnoc(key, local, CopyOf(h, |local|));
      local := local + [Source(FILE, h.path, FRONT + |local|, map["store" := h.store])];
    }
    assert hits[..|hits|] == hits;
    return spec.(sources := local + spec.sources);
  }

  // ---- what the merge promises ----

  ghost predicate HitPlace(key: Keying, hits: seq<Hit>, k: string) { exists h :: h in hits && key(h.path) == k }

  /** A hit added as the source of its place. */
  ghost predicate FromHit(hits: seq<Hit>, s: Source)
  {
    exists h :: h in hits && s == Source(FILE, h.path, s.priority, map["store" := h.store])
  }

  /** The added sources are local copies, one for each hit place not named before and
      no other, in strictly rising order from -100. */
  lemma {:induction false} CopiesAre(key: Keying, hits: seq<Hit>, known: set<string>)
    ensures var added := Copies(key, hits, known);
            && |added| <= |hits|
            && (forall i :: 0 <= i < |added| ==> added[i].priority == FRONT + i && FromHit(hits, added[i]))
            && (forall i, j :: 0 <= i < j < |added| ==> PlaceOf(key, added[i]) != PlaceOf(key, added[j]))
            && (forall i :: 0 <= i < |added| ==> PlaceOf(key, added[i]) !in known)
            && (forall k :: k in Named(key, added) <==> k !in known && HitPlace(key, hits, k))
  {
    if hits != [] {
      var init, h := hits[..|hits| - 1], hits[|hits| - 1];
      var before := Copies(key, init, known);
      CopiesAre(key, init, known);
      assert hits == init + [h];
      OneMoreHit(key, init, h);
      forall s | FromHit(init, s) ensures FromHit(hits, s) {
      }
      if key(h.path) !in known && key(h.path) !in Named(key, before) {
        AddsNew(key, init, h, before, known);
      }
    }
  }

  lemma {:induction false} OneMoreHit(key: Keying, init: seq<Hit>, h: Hit)
    ensures forall k :: HitPlace(key, init + [h], k) <==> HitPlace(key, init, k) || k == key(h.path)
  {
    var all := init + [h];
    assert h in all && forall x :: x in all <==> x in init || x == h;
  }

  lemma {:induction false} AddsNew(key: Keying, init: seq<Hit>, h: Hit, before: seq<Source>, known: set<string>)
    requires key(h.path) !in known && key(h.path) !in Named(key, before)
    requires forall i :: 0 <= i < |before| ==> before[i].scheme == FILE
    ensures var s := CopyOf(h, |before|);
            && FromHit(init + [h], s) && s.priority == FRONT + |before|
            && Named(key, before + [s]) == Named(key, before) + {key(h.path)}
            && forall i :: 0 <= i < |before| ==> PlaceOf(key, before[i]) != key(h.path)
  {
    var s := CopyOf(h, |before|);
    NamedSnoc(key, before, s);
    assert h in init + [h];
    forall i | 0 <= i < |before| ensures PlaceOf(key, before[i]) != key(h.path) {
      assert before[i] in before;
    }
  }

  /** The registry's sources stay as they were, after the copies; every place of a
      hit is named; and no place is named that was not one or the other. */
  lemma {:induction false} AugmentKeepsAndNames(key: Keying, hits: seq<Hit>, spec: Spec)
    ensures var r := Augmented(key, hits, spec);
            var n := |r.sources| - |spec.sources|;
            && n >= 0 && r.digest == spec.digest && r.sources[n..] == spec.sources
            && forall k :: k in Named(key, r.sources) <==> k in Named(key, spec.sources) || HitPlace(key, hits, k)
  {
    var known := Named(key, spec.sources);
    var added := Copies(key, hits, known);
    CopiesAre(key, hits, known);
    NamedJoin(key, added, spec.sources);
  }

  lemma {:induction false} NamedJoin(key: Keying, a: seq<Source>, b: seq<Source>)
    ensures Named(key, a + b) == Named(key, a) + Named(key, b)
  {
    assert forall s :: s in a + b <==> s in a || s in b;
  }

  lemma {:induction false} NothingNew(key: Keying, hits: seq<Hit>, known: set<string>)
    requires forall h :: h in hits ==> key(h.path) in known
    ensures Copies(key, hits, known) == []
  {
    if hits != [] {
      NothingNew(key, hits[..|hits| - 1], known);
    }
  }

  /** Done twice over the same stores, it adds nothing the second time. */
  lemma {:induction false} AugmentIsIdempotent(key: Keying, hits: seq<Hit>, spec: Spec)
    ensures Augmented(key, hits, Augmented(key, hits, spec)) == Augmented(key, hits, spec)
  {
    var r := Augmented(key, hits, spec);
    AugmentKeepsAndNames(key, hits, spec);
    forall h | h in hits ensures key(h.path) in Named(key, r.sources) {
      assert HitPlace(key, hits, key(h.path));
    }
    NothingNew(key, hits, Named(key, r.sources));
    assert [] + r.sources == r.sources;
  }

  /** The places of hits that no source names yet. */
  ghost function NewPlaces(key: Keying, hits: seq<Hit>, sources: seq<Source>): set<string>
  {
    set h | h in hits && key(h.path) !in Named(key, sources) :: key(h.path)
  }

  lemma {:induction false} PlacesAreAsMany(key: Keying, sources: seq<Source>)
    requires forall i :: 0 <= i < |sources| ==> sources[i].scheme == FILE
    requires forall i, j :: 0 <= i < j < |sources| ==> PlaceOf(key, sources[i]) != PlaceOf(key, sources[j])
    ensures |Named(key, sources)| == |sources|
  {
    if sources == [] {
      assert Named(key, sources) == {};
    } else {
      var n := |sources| - 1;
      var init, last := sources[..n], sources[n];
      assert sources == init + [last];
      PlacesAreAsMany(key, init);
      NamedSnoc(key, init, last);
    }
  }

  /** There are as many copies as new places. */
  lemma {:induction false} CopiesPerPlace(key: Keying, hits: seq<Hit>, sources: seq<Source>)
    ensures |Copies(key, hits, Named(key, sources))| == |NewPlaces(key, hits, sources)|
  {
    var known := Named(key, sources);
    var added := Copies(key, hits, known);
    CopiesAre(key, hits, known);
    PlacesAreAsMany(key, added);
    assert Named(key, added) == NewPlaces(key, hits, sources) by {
      forall k ensures k in Named(key, added) <==> k in NewPlaces(key, hits, sources) {
        assert HitPlace(key, hits, k) <==> exists h :: h in hits && key(h.path) == k;
      }
    }
  }

  /** Every copy is ahead of a source at priority p, as a registry gives from 0 up,
      exactly when there is no new place or there are at most p + 100. */
  lemma {:induction false} CopiesLeadExactly(key: Keying, hits: seq<Hit>, spec: Spec, p: int)
    ensures var r := Augmented(key, hits, spec);
            var places := |NewPlaces(key, hits, spec.sources)|;
            (forall i :: 0 <= i < |r.sources| - |spec.sources| ==> r.sources[i].priority < p)
            <==> places == 0 || places <= p - FRONT
  {
    var known := Named(key, spec.sources);
    var added, r := Copies(key, hits, known), Augmented(key, hits, spec);
    CopiesAre(key, hits, known);
    CopiesPerPlace(key, hits, spec.sources);
    assert forall i :: 0 <= i < |added| ==> r.sources[i] == added[i];
    if 0 < |added| && |added| > p - FRONT {
      var i := if p < FRONT then 0 else p - FRONT;
      assert r.sources[i].priority >= p;
    }
  }

  // ---- more copies than that ----

  function PathOf(n: nat): string { seq(n, _ => 'a') }

  /** n copies in n places. */
  function CopiesIn(n: nat): seq<Hit> { if n == 0 then [] else CopiesIn(n - 1) + [Hit("store", PathOf(n), 0)] }

  lemma {:induction false} PlacesAreMany(n: nat)
    ensures var added := Copies(p => p, CopiesIn(n), {});
            |added| == n && forall s :: s in added ==> |s.locator| <= n
  {
    if n > 0 {
      var key: Keying := p => p;
      var hits := CopiesIn(n);
      assert hits[..|hits| - 1] == CopiesIn(n - 1) && hits[|hits| - 1] == Hit("store", PathOf(n), 0);
      PlacesAreMany(n - 1);
      var before := Copies(key, CopiesIn(n - 1), {});
      assert key(PathOf(n)) !in Named(key, before);
    }
  }

  /** The hundred-and-first copy is level with a registry's first source. */
  lemma {:induction false} CopiesRunOut(digest: string, remote: Source)
    requires remote.scheme != FILE && remote.priority == 0
    ensures var r := Augmented(p => p, CopiesIn(101), Spec(digest, [remote]));
            |r.sources| == 102 && r.sources[100].priority == 0 && r.sources[101] == remote
  {
    var key: Keying := p => p;
    var sources := [remote];
    assert Named(key, sources) == {};
    PlacesAreMany(101);
    CopiesAre(key, CopiesIn(101), {});
  }
}
