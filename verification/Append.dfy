/** What a token written after a name comes to in the scan: kept in its place, or
    taken by what stands before it, and then exactly what is left. */
module Appends {
  import opened Identity

  // ---- what may take the token, at one turn of the scan ----

  /** What follows a prefix ud, or everything. */
  function Bare(raw: seq<string>): seq<string> { if |raw| > 1 && raw[0] == "ud" then raw[1..] else raw }

  /** b is a run that reads on into t: a lone block word before a block format, or a
      level with nothing but tails before one more tail. */
  predicate Open(r: Rules, b: seq<string>, t: string)
    requires b != []
  {
    if b[0] in r.quantWord then b[0] in r.blockWord && |b| == 1 && IsBlockFormat(t)
    else IsQuantLevel(b[0]) && Tails(r, b[1..]) == |b| - 1 && t in r.quantTail
  }

  /** A turn at raw takes t as the count of a shard. */
  predicate Closes(r: Rules, raw: seq<string>, t: string)
  {
    |raw| == 2 && raw[1] == "of" && Positive(r.impl, raw[0]) && Positive(r.impl, t)
  }

  /** The scan of raw ends in an index and "of", of which t is the count. */
  predicate ClosesShard(r: Rules, raw: seq<string>, t: string)
    decreases |raw|
  {
    raw != [] && (Closes(r, raw, t) || ClosesShard(r, raw[StepLength(r, raw)..], t))
  }

  /** The scan has a use for t after raw: as a run of its own, as the rest of an open
      run, or as the count of a shard. */
  predicate Absorbed(r: Rules, raw: seq<string>, t: string)
    decreases |raw|
  {
    if raw == [] then QuantRun(r, [t]) > 0
    else Closes(r, raw, t) || Open(r, Bare(raw), t) || Absorbed(r, raw[StepLength(r, raw)..], t)
  }

  // ---- one turn before t ----

  lemma {:induction false} TailsOfSnoc(r: Rules, raw: seq<string>, t: string)
    ensures Tails(r, raw + [t]) == Tails(r, raw) + if Tails(r, raw) == |raw| && t in r.quantTail then 1 else 0
  {
    if raw == [] {
      assert raw + [t] == [t] && [t][1..] == [];
    } else {
      assert (raw + [t])[1..] == raw[1..] + [t];
      TailsOfSnoc(r, raw[1..], t);
    }
  }

  lemma {:induction false} BareRunOfSnoc(r: Rules, b: seq<string>, t: string)
    requires b != []
    ensures Open(r, b, t) ==> BareRun(r, b) == |b| && BareRun(r, b + [t]) == |b| + 1
    ensures !Open(r, b, t) ==> BareRun(r, b + [t]) == BareRun(r, b)
  {
    assert (b + [t])[1..] == b[1..] + [t];
    TailsOfSnoc(r, b[1..], t);
    if |b| == 1 {
      assert (b + [t])[1] == t;
    }
  }

  /** A prefix ud belongs to a run exactly when one follows at once. */
  lemma {:induction false} UdRun(r: Rules, raw: seq<string>)
    requires Sound(r) && |raw| > 1 && raw[0] == "ud"
    ensures QuantRun(r, raw) == if BareRun(r, raw[1..]) > 0 then 1 + BareRun(r, raw[1..]) else 0
  {
    UdIsNoRun(r, raw);
    if raw[1] == "ud" {
      UdIsNoRun(r, raw[1..]);
    }
  }

  lemma {:induction false} QuantRunOfSnoc(r: Rules, raw: seq<string>, t: string)
    requires Sound(r) && raw != []
    ensures Open(r, Bare(raw), t) ==> QuantRun(r, raw) == |raw| && QuantRun(r, raw + [t]) == |raw| + 1
    ensures !Open(r, Bare(raw), t) && raw != ["ud"] ==> QuantRun(r, raw + [t]) == QuantRun(r, raw)
  {
    if raw[0] == "ud" {
      UdIsNoRun(r, raw);
      if |raw| > 1 {
        assert (raw + [t])[1..] == raw[1..] + [t];
        UdRun(r, raw);
        UdRun(r, raw + [t]);
        BareRunOfSnoc(r, raw[1..], t);
      } else {
        assert raw == ["ud"];
      }
    } else {
      BareRunOfSnoc(r, raw, t);
    }
  }

  lemma {:induction false} ShardRunOfSnoc(r: Rules, raw: seq<string>, t: string)
    requires raw != []
    ensures ShardRun(r, raw + [t]) <==> ShardRun(r, raw) || Closes(r, raw, t)
  {
    if |raw| == 2 {
      assert (raw + [t])[2] == t;
    }
  }

  lemma {:induction false} TurnIsKept(r: Rules, raw: seq<string>, t: string)
    requires Sound(r) && raw != [] && !Closes(r, raw, t) && !Open(r, Bare(raw), t)
    requires raw == ["ud"] ==> QuantRun(r, [t]) == 0
    ensures StepLength(r, raw + [t]) == StepLength(r, raw) && Head(r, raw + [t]) == Head(r, raw)
    ensures (raw + [t])[StepLength(r, raw)..] == raw[StepLength(r, raw)..] + [t]
  {
    ShardRunOfSnoc(r, raw, t);
    QuantRunOfSnoc(r, raw, t);
    if raw == ["ud"] {
      var all := raw + [t];
      assert all[1..] == [t];
      UdIsNoRun(r, raw);
      UdIsNoRun(r, all);
    }
  }

  // ---- the turns that take t ----

  lemma {:induction false} ShardTakes(r: Rules, raw: seq<string>, t: string)
    requires Sound(r) && Closes(r, raw, t)
    ensures KeptTokens(r, raw) == raw && KeptTokens(r, raw + [t]) == []
  {
    var all := raw + [t];
    assert all[0] == raw[0] && all[1] == raw[1] && all[2] == t && all[3..] == [];
    assert raw[1..] == ["of"] && raw[1..][1..] == [];
    NothingKept(r);
    NumbersStartNone(r, raw);
    NumbersStartNone(r, raw[1..]);
    ScanStep(r, all);
    ScanStep(r, raw);
    ScanStep(r, raw[1..]);
    assert raw == [raw[0]] + ["of"];
  }

  lemma {:induction false} RunTakes(r: Rules, raw: seq<string>, t: string)
    requires Sound(r) && raw != [] && Open(r, Bare(raw), t)
    ensures KeptTokens(r, raw) == [] && KeptTokens(r, raw + [t]) == []
    ensures !Closes(r, raw, t) && StepLength(r, raw) == |raw|
  {
    var all := raw + [t];
    QuantRunOfSnoc(r, raw, t);
    if Positive(r.impl, raw[0]) {
      NumbersStartNone(r, raw);
    }
    NothingKept(r);
    assert raw[|raw|..] == [] && all[|all|..] == [];
    ScanStep(r, raw);
    ScanStep(r, all);
  }

  lemma {:induction false} LoneUdTaken(r: Rules, raw: seq<string>, t: string)
    requires Sound(r) && raw == ["ud"] && QuantRun(r, [t]) > 0
    ensures SameButUd(KeptTokens(r, raw), KeptTokens(r, raw + [t]))
  {
    RunsOfOne(r, t);
    RunsStart(r, [t]);
    RunStartsAreInert(r, t);
    UdTakesRun(r, raw, [t]);
  }

  lemma {:induction false} RunsOfOne(r: Rules, t: string)
    requires QuantRun(r, [t]) > 0
    ensures QuantRun(r, [t]) == 1
  {
  }

  // ---- the whole scan ----

  /** What the scan keeps with t and what without, by the way t is taken: last, as
      the end of a shard, or as part of a run, with at most a ud before it. */
  ghost predicate Scans(r: Rules, raw: seq<string>, t: string, before: seq<string>, after: seq<string>)
  {
    if !Absorbed(r, raw, t) then after == before + [t]
    else if ClosesShard(r, raw, t) then |raw| >= 2 && before == after + [raw[|raw| - 2], "of"]
    else SameButUd(before, after)
  }

  lemma {:induction false} NothingBefore(r: Rules, t: string)
    ensures Scans(r, [], t, KeptTokens(r, []), KeptTokens(r, [t]))
  {
    NothingKept(r);
    assert [t][1..] == [];
    ScanStep(r, [t]);
    if QuantRun(r, [t]) > 0 {
      RunsOfOne(r, t);
    }
  }

  lemma {:induction false} TakenAtTurn(r: Rules, raw: seq<string>, t: string)
    requires Sound(r) && raw != []
    requires Closes(r, raw, t) || Open(r, Bare(raw), t) || (raw == ["ud"] && QuantRun(r, [t]) > 0)
    ensures Scans(r, raw, t, KeptTokens(r, raw), KeptTokens(r, raw + [t]))
  {
    if Closes(r, raw, t) {
      ShardTakes(r, raw, t);
      assert raw == [] + [raw[0], "of"];
    } else {
      var rest := raw[StepLength(r, raw)..];
      if Open(r, Bare(raw), t) {
        RunTakes(r, raw, t);
      } else {
        UdIsNoRun(r, raw);
        LoneUdTaken(r, raw, t);
      }
      assert rest == [];
      assert !ClosesShard(r, rest, t) && (Open(r, Bare(raw), t) || Absorbed(r, rest, t));
    }
  }

  /** Two scans that go on alike after a turn. */
  lemma {:induction false} ScansAfter(r: Rules, raw: seq<string>, t: string, before: seq<string>, after: seq<string>)
    requires raw != [] && !Closes(r, raw, t) && !Open(r, Bare(raw), t)
    requires Scans(r, raw[StepLength(r, raw)..], t, before, after)
    ensures Scans(r, raw, t, Head(r, raw) + before, Head(r, raw) + after)
  {
    var head, rest := Head(r, raw), raw[StepLength(r, raw)..];
    if !Absorbed(r, rest, t) {
      assert head + (before + [t]) == head + before + [t];
    } else if ClosesShard(r, rest, t) {
      assert rest[|rest| - 2] == raw[|raw| - 2];
      assert head + (after + [raw[|raw| - 2], "of"]) == head + after + [raw[|raw| - 2], "of"];
    } else {
      SameAfterHead(head, before, after);
    }
  }

  /** Over all raw tokens and every further one: a token the scan has no use for is
      kept last; one that closes a shard takes the index and "of" with it; any other
      is dropped, and with it at most a ud before it. */
  lemma {:induction false} AppendScans(r: Rules, raw: seq<string>, t: string)
    requires Sound(r)
    ensures Scans(r, raw, t, KeptTokens(r, raw), KeptTokens(r, raw + [t]))
    decreases |raw|
  {
    if raw == [] {
      assert raw + [t] == [t];
      NothingBefore(r, t);
    } else if Closes(r, raw, t) || Open(r, Bare(raw), t) || (raw == ["ud"] && QuantRun(r, [t]) > 0) {
      TakenAtTurn(r, raw, t);
    } else {
      var rest := raw[StepLength(r, raw)..];
      TurnIsKept(r, raw, t);
      ScanStep(r, raw);
      ScanStep(r, raw + [t]);
      AppendScans(r, rest, t);
      ScansAfter(r, raw, t, KeptTokens(r, rest), KeptTokens(r, rest + [t]));
    }
  }

  /** A shard is only closed by a token that is absorbed. */
  lemma {:induction false} ClosersAreAbsorbed(r: Rules, raw: seq<string>, t: string)
    requires ClosesShard(r, raw, t)
    ensures Absorbed(r, raw, t) && |raw| >= 2 && raw[|raw| - 1] == "of"
    decreases |raw|
  {
    if !Closes(r, raw, t) {
      ClosersAreAbsorbed(r, raw[StepLength(r, raw)..], t);
    }
  }

  /** A token is kept in its place exactly when it is not absorbed. */
  lemma {:induction false} AppendedIsKeptExactly(r: Rules, raw: seq<string>, t: string)
    requires Sound(r)
    ensures KeptTokens(r, raw + [t]) == KeptTokens(r, raw) + [t] <==> !Absorbed(r, raw, t)
  {
    AppendScans(r, raw, t);
  }
}
