/** The hunk loop that applies a unified diff to the lines of a file. */
module Patches {
  import opened Bytes

  /** BadHunk and Differs are the loop's own refusals; Broken is a header or line
      Python itself cannot read. */
  datatype Outcome = Patched(lines: seq<string>) | BadHunk | Differs | Broken

  // ---- Python's lists and numbers ----

  /** Where an index used as a slice bound falls. */
  function Bound(n: nat, i: int): (b: nat)
    ensures b <= n
  {
    if i < 0 then (if n + i < 0 then 0 else n + i) else if i > n then n else i
  }

  function Slice(lines: seq<string>, i: int, j: int): seq<string>
  {
    var a, b := Bound(|lines|, i), Bound(|lines|, j);
    if a < b then lines[a..b] else []
  }

  /** The line at an index, which counts from the end when negative. */
  function LineAt(lines: seq<string>, i: int): Option<string>
  {
    if 0 <= i < |lines| then Some(lines[i])
    else if -|lines| <= i < 0 then Some(lines[|lines| + i])
    else None
  }

  predicate IsSpace(c: char) { c == ' ' || c == '\t' || c == '\n' || c == '\r' }

  predicate IsHeader(chunk: string) { |chunk| >= 3 && chunk[..3] == "@@ " }

  function SkipSpace(s: string): string { if s != "" && IsSpace(s[0]) then SkipSpace(s[1..]) else s }

  function UpTo(s: string, stop: char -> bool): string
  {
    if s == "" || stop(s[0]) then "" else [s[0]] + UpTo(s[1..], stop)
  }

  function Digit(c: char): Option<nat> { if '0' <= c <= '9' then Some((c - '0') as nat) else None }

  function NumberFrom(s: string, n: nat): Option<nat>
  {
    if s == "" then Some(n)
    else match Digit(s[0]) case None => None case Some(d) => NumberFrom(s[1..], 10 * n + d)
  }

  function ToInt(s: string): Option<int>
  {
    if s == "" then None
    else if s[0] == '-' || s[0] == '+' then
      if |s| == 1 then None
      else match NumberFrom(s[1..], 0) case None => None case Some(n) => Some(if s[0] == '-' then -(n as int) else n as int)
    else match NumberFrom(s, 0) case None => None case Some(n) => Some(n)
  }

  /** What a chunk is to the loop: no header, one it cannot read, or one that starts
      at an index. */
  datatype Header = NotHeader | Unreadable | Start(first: int)

  /** A header starts at its second word, up to a comma, without its first character,
      less one. */
  function ReadHeader(chunk: string): Header
  {
    if !IsHeader(chunk) then NotHeader
    else
      var word := UpTo(SkipSpace(chunk[3..]), c => IsSpace(c));
      var side := UpTo(word, c => c == ',');
      match ToInt(if side == "" then "" else side[1..])
      case None => Unreadable
      case Some(n) => Start(n - 1)
  }

  type Reading = string -> Header

  // ---- the loop ----

  function Prepend(lines: seq<string>, o: Outcome): Outcome
  {
    if o.Patched? then Patched(lines + o.lines) else o
  }

  /** The outer loop from a header on, with the lines before cursor dealt with. */
  function Outer(read: Reading, lines: seq<string>, chunks: seq<string>, cursor: int): Outcome
    decreases |chunks|, 0
  {
    if chunks == [] then Patched(Slice(lines, cursor, |lines|))
    else
      match read(chunks[0])
      case NotHeader => BadHunk
      case Unreadable => Broken
      case Start(first) => Prepend(Slice(lines, cursor, first), Body(read, lines, chunks[1..], first))
  }

  /** What one line of a hunk does: stop the loop, or give lines and move the cursor. */
  datatype Move = Stop(o: Outcome) | Go(more: seq<string>, at: int)

  function LineMove(lines: seq<string>, line: string, cursor: int): Move
  {
    if line == "" then Stop(Broken)
    else if line[0] == ' ' || line[0] == '-' then
      if cursor >= |lines| then Stop(Differs)
      else
        match LineAt(lines, cursor)
        case None => Stop(Broken)
        case Some(t) =>
          if t != line[1..] then Stop(Differs) else Go(if line[0] == ' ' then [line[1..]] else [], cursor + 1)
    else Go(if line[0] == '+' then [line[1..]] else [], cursor)
  }

  /** The inner loop: the lines of a hunk, up to the next header. */
  function Body(read: Reading, lines: seq<string>, chunks: seq<string>, cursor: int): Outcome
    decreases |chunks|, 1
  {
    if chunks == [] || read(chunks[0]) != NotHeader then Outer(read, lines, chunks, cursor)
    else
      match LineMove(lines, chunks[0], cursor)
      case Stop(o) => o
      case Go(more, at) => Prepend(more, Body(read, lines, chunks[1..], at))
  }

  lemma {:induction false} PrependTwice(a: seq<string>, b: seq<string>, o: Outcome)
    ensures Prepend(a, Prepend(b, o)) == Prepend(a + b, o)
  {
    if o.Patched? {
      assert a + (b + o.lines) == a + b + o.lines;
    }
  }

  /** One turn of the inner loop. */
  method BodyLine(lines: seq<string>, line: string, cursor: int, result: seq<string>)
    returns (stop: Option<Outcome>, at: int, grown: seq<string>)
    ensures match LineMove(lines, line, cursor)
            case Stop(o) => stop == Some(o) && !o.Patched?
            case Go(more, next) => stop.None? && grown == result + more && at == next
  {
    at, grown := cursor, result;
    if line == "" {
      return Some(Broken), at, grown;
    }
    if line[0] == ' ' || line[0] == '-' {
      if cursor >= |lines| {
        return Some(Differs), at, grown;
      }
      var t := LineAt(lines, cursor);
      if t.None? {
        return Some(Broken), at, grown;
      }
      if t.value != line[1..] {
        return Some(Differs), at, grown;
      }
      at := cursor + 1;
    }
    if line[0] == ' ' || line[0] == '+' {
      grown := result + [line[1..]];
    }
    return None, at, grown;
  }

  /** What the loop over a whole diff gives; its first two chunks name the files. */
  function Run(read: Reading, lines: seq<string>, chunks: seq<string>): Outcome
  {
    Outer(read, lines, if |chunks| < 2 then [] else chunks[2..], 0)
  }

  /** The two loops, over the lines of the file and the chunks of the diff. */
  method Apply(lines: seq<string>, chunks: seq<string>) returns (o: Outcome)
    ensures o == Run(ReadHeader, lines, chunks)
  {
    var result, cursor: int := [], 0;
    var index := 2;
    ghost var all := Run(ReadHeader, lines, chunks);
    ghost var left := if |chunks| < 2 then [] else chunks[2..];
    while index < |chunks|
      invariant 2 <= index
      invariant left == if index < |chunks| then chunks[index..] else []
      invariant all == Prepend(result, Outer(ReadHeader, lines, left, cursor))
      decreases |chunks| - index
    {
      var header := ReadHeader(chunks[index]);
      if header.NotHeader? {
        return BadHunk;
      }
      if header.Unreadable? {
        return Broken;
      }
      var first := header.first;
      PrependTwice(result, Slice(lines, cursor, first), Body(ReadHeader, lines, left[1..], first));
      result := result + Slice(lines, cursor, first);
      cursor, index := first, index + 1;
      left := left[1..];
      while index < |chunks| && ReadHeader(chunks[index]) == NotHeader
        invariant 2 <= index <= |chunks|
        invariant left == chunks[index..]
        invariant all == Prepend(result, Body(ReadHeader, lines, left, cursor))
      {
        var stop, at, grown := BodyLine(lines, chunks[index], cursor, result);
        if stop.Some? {
          return stop.value;
        }
        PrependTwice(result, LineMove(lines, chunks[index], cursor).more, Body(ReadHeader, lines, left[1..], at));
        cursor, result, index := at, grown, index + 1;
        left := left[1..];
      }
    }
    return Patched(result + Slice(lines, cursor, |lines|));
  }

  // ---- diffs ----

  datatype Line = Context(text: string) | Deleted(text: string) | Added(text: string)

  /** A hunk at a position of the old file, counted from 0. */
  datatype Hunk = Hunk(start: nat, body: seq<Line>)

  /** The hunks of a diff, in order. */
  datatype Hunks = End | Then(h: Hunk, rest: Hunks)

  /** What a hunk means: the lines that go, from where, and those that come. */
  datatype Edit = Edit(start: nat, gone: seq<string>, come: seq<string>)

  datatype Edits = NoEdit | Next(e: Edit, rest: Edits)

  function Old(body: seq<Line>): seq<string>
  {
    if body == [] then [] else (if body[0].Added? then [] else [body[0].text]) + Old(body[1..])
  }

  function New(body: seq<Line>): seq<string>
  {
    if body == [] then [] else (if body[0].Deleted? then [] else [body[0].text]) + New(body[1..])
  }

  function Swap(body: seq<Line>): seq<Line>
  {
    if body == [] then []
    else
      [match body[0] case Context(t) => Context(t) case Deleted(t) => Added(t) case Added(t) => Deleted(t)] + Swap(body[1..])
  }

  function LineText(l: Line): string
  {
    match l case Context(t) => " " + t case Deleted(t) => "-" + t case Added(t) => "+" + t
  }

  function BodyText(body: seq<Line>): seq<string>
  {
    if body == [] then [] else [LineText(body[0])] + BodyText(body[1..])
  }

  function Dec(n: nat): string { if n < 10 then [('0' as int + n) as char] else Dec(n / 10) + [('0' as int + n % 10) as char] }

  /** The number a unified diff gives a side: the first line counted from 1, or the
      line before when the side is empty. */
  function Place(start: nat, length: nat): nat { if length == 0 then start else start + 1 }

  /** One side of a header: a length of one may be left out. */
  function SideText(start: nat, length: nat, short: bool): string
  {
    Dec(Place(start, length)) + if short && length == 1 then "" else "," + Dec(length)
  }

  /** A header; note is what a diff may write after it, and the line end. */
  function HeaderText(h: Hunk, newStart: nat, short: bool, note: string): string
  {
    "@@ -" + SideText(h.start, |Old(h.body)|, short) + " +" + SideText(newStart, |New(h.body)|, short) + " @@" + note
  }

  function EditOf(h: Hunk): Edit { Edit(h.start, Old(h.body), New(h.body)) }

  function EditsOf(hs: Hunks): Edits { if hs.End? then NoEdit else Next(EditOf(hs.h), EditsOf(hs.rest)) }

  function After(e: Edit): nat { e.start + |e.gone| }

  /** In order from line c on, and no two overlap. */
  predicate Ordered(es: Edits, c: nat) { es.NoEdit? || (c <= es.e.start && Ordered(es.rest, After(es.e))) }

  predicate HasOld(es: Edits) { es.NoEdit? || (es.e.gone != [] && HasOld(es.rest)) }

  predicate HasNew(es: Edits) { es.NoEdit? || (es.e.come != [] && HasNew(es.rest)) }

  /** How hunks are headed, given where the new side starts. */
  type Heading = (Hunk, nat) -> string

  /** No line of a hunk is read as a header. */
  ghost predicate LinesArePlain(read: Reading) { forall l :: read(LineText(l)) == NotHeader }

  /** Headings are read as a unified diff means them, and no line of a hunk is one. */
  ghost predicate ReadsRight(read: Reading, heading: Heading)
  {
    && LinesArePlain(read)
    && forall h, at :: read(heading(h, at)) == Start(Place(h.start, |Old(h.body)|) - 1)
  }

  function HunkText(heading: Heading, h: Hunk, at: nat): seq<string> { [heading(h, at)] + BodyText(h.body) }

  /** The chunks of the hunks from line c of the old file and line d of the new. */
  function DiffText(heading: Heading, hs: Hunks, c: nat, d: nat): seq<string>
    requires Ordered(EditsOf(hs), c)
  {
    if hs.End? then []
    else
      var e := EditOf(hs.h);
      var at := e.start - c + d;
      HunkText(heading, hs.h, at) + DiffText(heading, hs.rest, After(e), at + |e.come|)
  }

  /** The same edits the other way: what came goes, what went comes. */
  function Reversed(es: Edits, c: nat, d: nat): Edits
    requires Ordered(es, c)
  {
    if es.NoEdit? then NoEdit
    else
      var at := es.e.start - c + d;
      Next(Edit(at, es.e.come, es.e.gone), Reversed(es.rest, After(es.e), at + |es.e.come|))
  }

  /** The hunks of the diff with + and - swapped, at the starts of the new side. */
  function Swapped(hs: Hunks, c: nat, d: nat): Hunks
    requires Ordered(EditsOf(hs), c)
  {
    if hs.End? then End
    else
      var e := EditOf(hs.h);
      var at := e.start - c + d;
      Then(Hunk(at, Swap(hs.h.body)), Swapped(hs.rest, After(e), at + |e.come|))
  }

  /** The lines from c on start with side. */
  predicate Sees(lines: seq<string>, c: nat, side: seq<string>)
  {
    c + |side| <= |lines| && lines[c..c + |side|] == side
  }

  /** Every edit finds the lines that go where it starts. */
  predicate AllFit(lines: seq<string>, es: Edits)
  {
    es.NoEdit? || (Sees(lines, es.e.start, es.e.gone) && AllFit(lines, es.rest))
  }

  /** The lines from c on, with what goes replaced by what comes. */
  function Splice(lines: seq<string>, es: Edits, c: nat): seq<string>
    requires c <= |lines| && Ordered(es, c) && AllFit(lines, es)
  {
    if es.NoEdit? then lines[c..] else lines[c..es.e.start] + es.e.come + Splice(lines, es.rest, After(es.e))
  }

  // ---- reading a header back ----

  lemma {:induction false} DecIsDigits(n: nat)
    ensures Dec(n) != "" && forall i :: 0 <= i < |Dec(n)| ==> '0' <= Dec(n)[i] <= '9'
  {
    if n >= 10 {
      DecIsDigits(n / 10);
    }
  }

  lemma {:induction false} NumberSnoc(s: string, c: char, n: nat)
    requires '0' <= c <= '9' && NumberFrom(s, n).Some?
    ensures NumberFrom(s + [c], n) == Some(10 * NumberFrom(s, n).value + (c - '0') as nat)
  {
    if s == "" {
      assert (s + [c])[1..] == "";
    } else {
      assert (s + [c])[1..] == s[1..] + [c];
      NumberSnoc(s[1..], c, 10 * n + Digit(s[0]).value);
    }
  }

  lemma {:induction false} DecReads(n: nat)
    ensures NumberFrom(Dec(n), 0) == Some(n)
  {
    if n >= 10 {
      DecReads(n / 10);
      NumberSnoc(Dec(n / 10), ('0' as int + n % 10) as char, 0);
    } else {
      assert Dec(n)[1..] == "";
    }
  }

  lemma {:induction false} UpToStops(s: string, c: char, tail: string, stop: char -> bool)
    requires stop(c) && forall i :: 0 <= i < |s| ==> !stop(s[i])
    ensures UpTo(s + [c] + tail, stop) == s
  {
    var all := s + [c] + tail;
    if s != "" {
      assert all[1..] == s[1..] + [c] + tail;
      UpToStops(s[1..], c, tail, stop);
    }
  }

  lemma {:induction false} UpToEnds(s: string, stop: char -> bool)
    requires forall i :: 0 <= i < |s| ==> !stop(s[i])
    ensures UpTo(s, stop) == s
  {
    if s != "" {
      UpToEnds(s[1..], stop);
    }
  }

  lemma {:induction false} HeaderPieces(place: string, count: string, side: string, note: string)
    ensures "@@ -" + (place + count) + " +" + side + " @@" + note == "@@ " + (("-" + place + count) + [' '] + ("+" + side + " @@" + note))
  {
    assert "@@ -" == "@@ " + "-" && " +" == [' '] + "+";
  }

  /** Of a header only the old side's number is read. */
  lemma {:induction false} HeaderReads(h: Hunk, newStart: nat, short: bool, note: string)
    ensures ReadHeader(HeaderText(h, newStart, short, note)) == Start(Place(h.start, |Old(h.body)|) - 1)
  {
    var t, length := HeaderText(h, newStart, short, note), |Old(h.body)|;
    var place, count := Dec(Place(h.start, length)), if short && length == 1 then "" else "," + Dec(length);
    var tail := "+" + SideText(newStart, |New(h.body)|, short) + " @@" + note;
    HeaderPieces(place, count, SideText(newStart, |New(h.body)|, short), note);
    assert SideText(h.start, length, short) == place + count;
    DecIsDigits(Place(h.start, length));
    DecIsDigits(length);
    DecReads(Place(h.start, length));
    HeaderWord(t, "-" + place + count, tail, place, count);
  }

  predicate IsCount(count: string)
  {
    count == "" || (count[0] == ',' && forall i :: 1 <= i < |count| ==> '0' <= count[i] <= '9')
  }

  lemma {:induction false} HeaderWord(t: string, word: string, tail: string, place: string, count: string)
    requires t == "@@ " + (word + [' '] + tail) && word == "-" + place + count
    requires place != "" && (forall i :: 0 <= i < |place| ==> '0' <= place[i] <= '9') && IsCount(count)
    requires NumberFrom(place, 0).Some?
    ensures ReadHeader(t) == Start(NumberFrom(place, 0).value - 1)
  {
    var rest := word + [' '] + tail;
    assert t[..3] == "@@ " && t[3..] == rest;
    assert rest[0] == '-' && SkipSpace(rest) == rest;
    UpToStops(word, ' ', tail, c => IsSpace(c));
    if count == "" {
      assert word == "-" + place;
      UpToEnds("-" + place, c => c == ',');
    } else {
      assert word == ("-" + place) + [','] + count[1..];
      UpToStops("-" + place, ',', count[1..], c => c == ',');
    }
    assert ("-" + place)[1..] == place;
  }

  lemma {:induction false} LineIsNoHeader(l: Line)
    ensures ReadHeader(LineText(l)) == NotHeader
  {
    var t := LineText(l);
    assert |t| >= 3 ==> t[..3][0] == t[0];
  }

  /** The usual headings, with or without counts of one, and with any note. */
  function Headings(short: bool, note: string): Heading { (h: Hunk, at: nat) => HeaderText(h, at, short, note) }

  /** The reader of headers reads the usual ones right. */
  lemma {:induction false} UsualHeadersReadRight(short: bool, note: string)
    ensures ReadsRight(ReadHeader, Headings(short, note))
  {
    forall l ensures ReadHeader(LineText(l)) == NotHeader {
      LineIsNoHeader(l);
    }
    forall h, at ensures ReadHeader(Headings(short, note)(h, at)) == Start(Place(h.start, |Old(h.body)|) - 1) {
      HeaderReads(h, at, short, note);
    }
  }

  // ---- a diff splices ----

  /** A hunk's lines at c, when o is what comes after them. */
  function Finish(lines: seq<string>, body: seq<Line>, c: nat, o: Outcome): Outcome
  {
    if Sees(lines, c, Old(body)) then Prepend(New(body), o) else Differs
  }

  /** The inner loop over a hunk's lines, which end where its old side does: it passes
      exactly when the old side is there, and then leaves the new one. */
  lemma {:induction false} BodyApplies(
      read: Reading, lines: seq<string>, body: seq<Line>, tail: seq<string>, c: nat, end: nat)
    requires LinesArePlain(read) && (tail == [] || read(tail[0]) != NotHeader)
    requires end == c + |Old(body)| && (Old(body) == [] ==> c <= |lines|)
    ensures Body(read, lines, BodyText(body) + tail, c) == Finish(lines, body, c, Outer(read, lines, tail, end))
    decreases |body|
  {
    if body == [] {
      BodyEnds(read, lines, tail, c);
    } else {
      BodyStep(read, lines, body, tail, c);
      if body[0].Added? {
        AddedFirst(lines, body, c, Outer(read, lines, tail, end));
        BodyApplies(read, lines, body[1..], tail, c, end);
      } else {
        OldFirst(lines, body, c, Outer(read, lines, tail, end));
        if c < |lines| && lines[c] == body[0].text {
          BodyApplies(read, lines, body[1..], tail, c + 1, end);
        }
      }
    }
  }

  lemma {:induction false} BodyEnds(read: Reading, lines: seq<string>, tail: seq<string>, c: nat)
    requires (tail == [] || read(tail[0]) != NotHeader) && c <= |lines|
    ensures Body(read, lines, BodyText([]) + tail, c) == Finish(lines, [], c, Outer(read, lines, tail, c))
  {
    assert BodyText([]) + tail == tail;
    NothingToFinish(lines, c, Outer(read, lines, tail, c));
  }

  lemma {:induction false} NothingToFinish(lines: seq<string>, c: nat, o: Outcome)
    requires c <= |lines|
    ensures Finish(lines, [], c, o) == o
  {
    assert lines[c..c] == [];
    PrependNothing(o);
  }

  lemma {:induction false} AddedFirst(lines: seq<string>, body: seq<Line>, c: nat, o: Outcome)
    requires body != [] && body[0].Added?
    ensures |Old(body[1..])| == |Old(body)| && (Old(body[1..]) == [] <==> Old(body) == [])
    ensures Finish(lines, body, c, o) == Prepend(NewOf(body[0]), Finish(lines, body[1..], c, o))
  {
    assert Old(body) == Old(body[1..]);
    PrependTwice(NewOf(body[0]), New(body[1..]), o);
  }

  lemma {:induction false} OldFirst(lines: seq<string>, body: seq<Line>, c: nat, o: Outcome)
    requires body != [] && !body[0].Added?
    ensures |Old(body[1..])| + 1 == |Old(body)|
    ensures Finish(lines, body, c, o)
            == if c < |lines| && lines[c] == body[0].text
               then Prepend(NewOf(body[0]), Finish(lines, body[1..], c + 1, o)) else Differs
  {
    OldStep(lines, body, c);
    PrependTwice(NewOf(body[0]), New(body[1..]), o);
    assert New(body) == NewOf(body[0]) + New(body[1..]);
  }

  lemma {:induction false} BodyStep(read: Reading, lines: seq<string>, body: seq<Line>, tail: seq<string>, c: nat)
    requires LinesArePlain(read) && body != []
    ensures Body(read, lines, BodyText(body) + tail, c)
            == var more := BodyText(body[1..]) + tail;
               if body[0].Added? then Prepend(NewOf(body[0]), Body(read, lines, more, c))
               else if c < |lines| && lines[c] == body[0].text then Prepend(NewOf(body[0]), Body(read, lines, more, c + 1))
               else Differs
  {
    var all := BodyText(body) + tail;
    LineReads(body[0]);
    assert all[0] == LineText(body[0]) && all[1..] == BodyText(body[1..]) + tail;
  }

  function NewOf(l: Line): seq<string> { if l.Deleted? then [] else [l.text] }

  lemma {:induction false} PrependNothing(o: Outcome)
    ensures Prepend([], o) == o
  {
    if o.Patched? {
      assert [] + o.lines == o.lines;
    }
  }

  lemma {:induction false} LineReads(l: Line)
    ensures var t := LineText(l);
            t != "" && t[1..] == l.text && t[0] == match l case Context(_) => ' ' case Deleted(_) => '-' case Added(_) => '+'
  {
    assert LineText(l)[1..] == l.text;
  }

  lemma {:induction false} OldStep(lines: seq<string>, body: seq<Line>, c: nat)
    requires body != [] && !body[0].Added?
    ensures |Old(body)| == |Old(body[1..])| + 1
    ensures Sees(lines, c, Old(body)) <==> c < |lines| && lines[c] == body[0].text && Sees(lines, c + 1, Old(body[1..]))
  {
    var side, rest := Old(body), Old(body[1..]);
    assert side == [body[0].text] + rest && side[1..] == rest;
    if c + |side| <= |lines| {
      var seen := lines[c..c + |side|];
      assert seen[0] == lines[c] && seen[1..] == lines[c + 1..c + |side|];
      assert seen == [seen[0]] + seen[1..];
    }
  }

  lemma {:induction false} DiffTextStarts(read: Reading, heading: Heading, hs: Hunks, c: nat, d: nat)
    requires ReadsRight(read, heading) && Ordered(EditsOf(hs), c)
    ensures DiffText(heading, hs, c, d) == [] || read(DiffText(heading, hs, c, d)[0]) != NotHeader
  {
    if hs.Then? {
      assert read(heading(hs.h, hs.h.start - c + d)) != NotHeader;
    }
  }

  lemma {:induction false} HeaderGoesOn(read: Reading, lines: seq<string>, header: string, more: seq<string>, c: int, first: int)
    requires read(header) == Start(first)
    ensures Outer(read, lines, [header] + more, c) == Prepend(Slice(lines, c, first), Body(read, lines, more, first))
  {
    assert ([header] + more)[1..] == more;
  }

  lemma {:induction false} HunkApplies(read: Reading, heading: Heading, lines: seq<string>, h: Hunk, at: nat, tail: seq<string>, c: nat)
    requires ReadsRight(read, heading) && Old(h.body) != [] && (tail == [] || read(tail[0]) != NotHeader) && c <= h.start
    ensures var e := EditOf(h);
            Outer(read, lines, HunkText(heading, h, at) + tail, c)
            == if Sees(lines, e.start, e.gone) then Prepend(lines[c..e.start] + e.come, Outer(read, lines, tail, After(e)))
               else Differs
  {
    var more := BodyText(h.body) + tail;
    assert HunkText(heading, h, at) + tail == [heading(h, at)] + more;
    HeaderGoesOn(read, lines, heading(h, at), more, c, h.start);
    BodyApplies(read, lines, h.body, tail, h.start, After(EditOf(h)));
    SliceFinish(lines, h, c, Outer(read, lines, tail, After(EditOf(h))));
  }

  lemma {:induction false} SliceFinish(lines: seq<string>, h: Hunk, c: nat, o: Outcome)
    requires c <= h.start && Old(h.body) != []
    ensures Prepend(Slice(lines, c, h.start), Finish(lines, h.body, h.start, o))
            == if Sees(lines, h.start, Old(h.body)) then Prepend(lines[c..h.start] + New(h.body), o) else Differs
  {
    if Sees(lines, h.start, Old(h.body)) {
      SliceIs(lines, c, h.start);
      PrependTwice(lines[c..h.start], New(h.body), o);
    }
  }

  lemma {:induction false} SliceIs(lines: seq<string>, i: nat, j: nat)
    requires i <= j <= |lines|
    ensures Slice(lines, i, j) == lines[i..j] && Slice(lines, i, |lines|) == lines[i..]
  {
  }

  /** One edit of a splice, as the loop comes to it. */
  lemma {:induction false} SpliceNext(lines: seq<string>, e: Edit, rest: Edits, c: nat)
    requires c <= e.start && Ordered(rest, After(e)) && Sees(lines, e.start, e.gone)
    ensures Prepend(lines[c..e.start] + e.come, Meant(lines, rest, After(e))) == Meant(lines, Next(e, rest), c)
  {
  }

  lemma {:induction false} DiffTextHeads(heading: Heading, hs: Hunks, c: nat, d: nat) returns (at: nat, tail: seq<string>)
    requires hs.Then? && Ordered(EditsOf(hs), c)
    ensures var e := EditOf(hs.h);
            && c <= e.start && Ordered(EditsOf(hs.rest), After(e)) && EditsOf(hs) == Next(e, EditsOf(hs.rest))
            && tail == DiffText(heading, hs.rest, After(e), at + |e.come|)
            && DiffText(heading, hs, c, d) == HunkText(heading, hs.h, at) + tail
  {
    at := EditOf(hs.h).start - c + d;
    tail := DiffText(heading, hs.rest, After(EditOf(hs.h)), at + |EditOf(hs.h).come|);
  }

  /** What the loop over a diff gives, by what the edits mean. */
  function Meant(lines: seq<string>, es: Edits, c: nat): Outcome
    requires c <= |lines| && Ordered(es, c)
  {
    if AllFit(lines, es) then Patched(Splice(lines, es, c)) else Differs
  }

  lemma {:induction false} DiffNext(
      read: Reading, heading: Heading, lines: seq<string>, h: Hunk, at: nat, tail: seq<string>, c: nat, rest: Edits)
    requires ReadsRight(read, heading) && Old(h.body) != [] && (tail == [] || read(tail[0]) != NotHeader)
    requires c <= h.start && c <= |lines| && Ordered(rest, After(EditOf(h)))
    requires After(EditOf(h)) <= |lines| ==>
               Outer(read, lines, tail, After(EditOf(h))) == Meant(lines, rest, After(EditOf(h)))
    ensures Outer(read, lines, HunkText(heading, h, at) + tail, c) == Meant(lines, Next(EditOf(h), rest), c)
  {
    HunkApplies(read, heading, lines, h, at, tail, c);
    if Sees(lines, h.start, Old(h.body)) {
      SpliceNext(lines, EditOf(h), rest, c);
    }
  }

  /** For hunks in order that do not overlap and have an old side each, the loop
      succeeds exactly when every context and deleted line is where the hunk says,
      and then gives the file with each old side replaced by its new side. */
  lemma {:induction false} DiffSplices(read: Reading, heading: Heading, lines: seq<string>, hs: Hunks, c: nat, d: nat)
    requires ReadsRight(read, heading) && c <= |lines| && Ordered(EditsOf(hs), c) && HasOld(EditsOf(hs))
    ensures Outer(read, lines, DiffText(heading, hs, c, d), c) == Meant(lines, EditsOf(hs), c)
    decreases hs
  {
    if hs.End? {
      SliceIs(lines, c, c);
    } else {
      var e := EditOf(hs.h);
      var at, tail := DiffTextHeads(heading, hs, c, d);
      DiffTextStarts(read, heading, hs.rest, After(e), at + |e.come|);
      if After(e) <= |lines| {
        DiffSplices(read, heading, lines, hs.rest, After(e), at + |e.come|);
      }
      DiffNext(read, heading, lines, hs.h, at, tail, c, EditsOf(hs.rest));
    }
  }

  // ---- and the swapped diff takes it back ----

  lemma {:induction false} SwapSwapsSides(body: seq<Line>)
    ensures Old(Swap(body)) == New(body) && New(Swap(body)) == Old(body)
  {
    if body != [] {
      SwapSwapsSides(body[1..]);
      assert Swap(body)[1..] == Swap(body[1..]);
    }
  }

  lemma {:induction false} SwappedIsReversed(hs: Hunks, c: nat, d: nat)
    requires Ordered(EditsOf(hs), c)
    ensures EditsOf(Swapped(hs, c, d)) == Reversed(EditsOf(hs), c, d)
    decreases hs
  {
    if hs.Then? {
      var e := EditOf(hs.h);
      SwapSwapsSides(hs.h.body);
      SwappedIsReversed(hs.rest, After(e), e.start - c + d + |e.come|);
    }
  }

  lemma {:induction false} ReversedIsOrdered(es: Edits, c: nat, d: nat)
    requires Ordered(es, c)
    ensures Ordered(Reversed(es, c, d), d)
    ensures HasNew(es) ==> HasOld(Reversed(es, c, d))
    decreases es
  {
    if es.Next? {
      ReversedIsOrdered(es.rest, After(es.e), es.e.start - c + d + |es.e.come|);
    }
  }

  /** From line d on, now is lines from c on with the edits made: each piece is where
      the two positions, moved on together, say. It reads the same both ways. */
  predicate Edited(lines: seq<string>, es: Edits, c: nat, now: seq<string>, d: nat)
    requires Ordered(es, c)
  {
    if es.NoEdit? then c <= |lines| && d <= |now| && lines[c..] == now[d..]
    else
      var at := es.e.start - c + d;
      && Sees(lines, es.e.start, es.e.gone) && Sees(now, at, es.e.come)
      && lines[c..es.e.start] == now[d..at]
      && Edited(lines, es.rest, After(es.e), now, at + |es.e.come|)
  }

  lemma {:induction false} EditedBothWays(lines: seq<string>, es: Edits, c: nat, now: seq<string>, d: nat)
    requires Ordered(es, c) && Edited(lines, es, c, now, d)
    ensures Ordered(Reversed(es, c, d), d) && Edited(now, Reversed(es, c, d), d, lines, c)
    decreases es
  {
    if es.Next? {
      var at := es.e.start - c + d;
      var rest := Reversed(es.rest, After(es.e), at + |es.e.come|);
      EditedBothWays(lines, es.rest, After(es.e), now, at + |es.e.come|);
      EditedBack(lines, es, c, now, d, at, rest);
    }
  }

  lemma {:induction false} EditedBack(lines: seq<string>, es: Edits, c: nat, now: seq<string>, d: nat, at: nat, rest: Edits)
    requires es.Next? && Ordered(es, c) && at == es.e.start - c + d
    requires Sees(lines, es.e.start, es.e.gone) && Sees(now, at, es.e.come) && lines[c..es.e.start] == now[d..at]
    requires Ordered(rest, at + |es.e.come|) && Edited(now, rest, at + |es.e.come|, lines, After(es.e))
    ensures var back := Next(Edit(at, es.e.come, es.e.gone), rest); Ordered(back, d) && Edited(now, back, d, lines, c)
  {
    assert at - d + c == es.e.start;
  }

  lemma {:induction false} Pieces(now: seq<string>, d: nat, at: nat, n: nat)
    requires d <= at && at + n <= |now|
    ensures now[d..] == now[d..at] + now[at..at + n] + now[at + n..]
  {
  }

  lemma {:induction false} EditedIsSplice(lines: seq<string>, es: Edits, c: nat, now: seq<string>, d: nat)
    requires c <= |lines| && d <= |now| && Ordered(es, c) && Edited(lines, es, c, now, d)
    ensures AllFit(lines, es) && Splice(lines, es, c) == now[d..]
    decreases es
  {
    if es.Next? {
      var at := es.e.start - c + d;
      EditedIsSplice(lines, es.rest, After(es.e), now, at + |es.e.come|);
      Pieces(now, d, at, |es.e.come|);
    }
  }

  lemma {:induction false} SpliceIsEdited(lines: seq<string>, es: Edits, c: nat, now: seq<string>, d: nat)
    requires c <= |lines| && d <= |now| && Ordered(es, c) && AllFit(lines, es) && now[d..] == Splice(lines, es, c)
    ensures Edited(lines, es, c, now, d)
    decreases es
  {
    if es.Next? {
      var e := es.e;
      SpliceFalls(lines[c..e.start], e.come, Splice(lines, es.rest, After(e)), now, d);
      SpliceIsEdited(lines, es.rest, After(e), now, e.start - c + d + |e.come|);
    }
  }

  /** Where three pieces fall. */
  lemma {:induction false} SpliceFalls(pre: seq<string>, mid: seq<string>, rest: seq<string>, now: seq<string>, d: nat)
    requires d <= |now| && now[d..] == pre + mid + rest
    ensures var at := d + |pre|;
            && at + |mid| <= |now|
            && now[d..at] == pre && Sees(now, at, mid) && now[at + |mid|..] == rest
  {
    var at := d + |pre|;
    assert |now[d..]| == |pre| + |mid| + |rest|;
    assert now[d..at] == now[d..][..|pre|] == pre;
    assert now[at..at + |mid|] == now[d..][|pre|..|pre| + |mid|] == mid;
    assert now[at + |mid|..] == now[d..][|pre| + |mid|..] == rest;
  }

  /** The reversed edits undo the edits. */
  lemma {:induction false} ReversedRestores(lines: seq<string>, es: Edits)
    requires Ordered(es, 0) && AllFit(lines, es)
    ensures var now, back := Splice(lines, es, 0), Reversed(es, 0, 0);
            Ordered(back, 0) && AllFit(now, back) && Splice(now, back, 0) == lines
  {
    var now := Splice(lines, es, 0);
    assert now[0..] == now && lines[0..] == lines;
    SpliceIsEdited(lines, es, 0, now, 0);
    EditedBothWays(lines, es, 0, now, 0);
    EditedIsSplice(now, Reversed(es, 0, 0), 0, lines, 0);
  }

  function Diff(heading: Heading, names: seq<string>, hs: Hunks): seq<string>
    requires |names| == 2 && Ordered(EditsOf(hs), 0)
  {
    names + DiffText(heading, hs, 0, 0)
  }

  lemma {:induction false} RunsAsOuter(read: Reading, heading: Heading, names: seq<string>, lines: seq<string>, hs: Hunks)
    requires |names| == 2 && Ordered(EditsOf(hs), 0)
    ensures Run(read, lines, Diff(heading, names, hs)) == Outer(read, lines, DiffText(heading, hs, 0, 0), 0)
  {
    assert Diff(heading, names, hs)[2..] == DiffText(heading, hs, 0, 0);
  }

  /** Applying a diff and then the swapped one restores the file. */
  lemma {:induction false} SwappedDiffRestores(read: Reading, heading: Heading, names: seq<string>, lines: seq<string>, hs: Hunks)
    requires ReadsRight(read, heading) && |names| == 2
    requires Ordered(EditsOf(hs), 0) && HasOld(EditsOf(hs)) && HasNew(EditsOf(hs))
    requires Run(read, lines, Diff(heading, names, hs)).Patched?
    ensures Ordered(EditsOf(Swapped(hs, 0, 0)), 0)
    ensures Run(read, Run(read, lines, Diff(heading, names, hs)).lines, Diff(heading, names, Swapped(hs, 0, 0))) == Patched(lines)
  {
    var es, back := EditsOf(hs), Swapped(hs, 0, 0);
    SwappedIsReversed(hs, 0, 0);
    ReversedIsOrdered(es, 0, 0);
    RunsAsOuter(read, heading, names, lines, hs);
    DiffSplices(read, heading, lines, hs, 0, 0);
    var now := Splice(lines, es, 0);
    RunsAsOuter(read, heading, names, now, back);
    ReversedRestores(lines, es);
    DiffSplices(read, heading, now, back, 0, 0);
  }
}
