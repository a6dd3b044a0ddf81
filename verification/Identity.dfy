/** Model names: the scan of raw tokens and the assembly of a family. */
module Identity {
  import opened Bytes
  import opened Powers

  /** How an implementation adds up a number: in a machine word, or without bound. */
  datatype Impl = Go | Python

  /** The tables the scan and the assembly consult. */
  datatype Rules = Rules(
    impl: Impl, quantWord: set<string>, blockWord: set<string>, quantTail: set<string>, packaging: set<string>, role: set<string>)

  const QUANT_WORD_1: set<string> := {"bf16", "f16", "fp16", "f32", "fp32", "bf32"}
  const QUANT_WORD_2: set<string> := {"f8", "fp8", "fp6", "fp4", "mxfp4", "nvfp4"}
  const QUANT_WORD_3: set<string> := {"rocmfp4", "int2", "int4", "int8", "awq", "gptq"}
  const QUANT_WORD_4: set<string> := {"2bit", "3bit", "4bit", "6bit", "8bit"}

  const QUANT_TAIL: set<string> := {"0", "1", "k", "s", "m", "l", "xs", "xl", "xxs", "xxl", "nl"}

  const PACKAGING: set<string> := {
    "gguf", "ggml", "safetensors", "safetensor", "onnx", "mlx", "pytorch", "hf", "model", "models", "weights",
    "snapshot", "snapshots", "blobs", "main", "latest", "mtp", "scaled", "fast", "ud", "moe", "flm", "oga", "ort",
    "npu", "cpu", "gpu", "cuda", "rocm", "hip", "vulkan", "dml", "hybrid", "llamacpp", "ryzenai",
    "it", "instruct", "chat"}

  const ROLE: set<string> := {"mmproj", "vae", "lora", "adapter", "projector", "clip", "draft"}

  function RulesOf(impl: Impl): Rules
  {
    Rules(impl, QUANT_WORD_1 + QUANT_WORD_2 + QUANT_WORD_3 + QUANT_WORD_4, {"fp8", "f8", "fp4"}, QUANT_TAIL, PACKAGING, ROLE)
  }

  /** What the tables have to be for the scan to keep to itself: no quant word
      reads as a number, a tail, a block format or one of the scan's own words. */
  ghost predicate Sound(r: Rules)
  {
    && (forall t :: t in r.quantWord ==> PlainWord(t) && t !in r.quantTail)
    && "ud" !in r.quantTail && "ud" in r.packaging
    && (forall t :: t in r.quantTail ==> !IsQuantLevel(t))
    && (forall t :: t in r.packaging || t in r.role ==> !NumberOrOf(t))
  }

  /** What a shard is made of. */
  predicate NumberOrOf(t: string) { t == "of" || (t != "" && AllDigits(t)) }

  predicate PlainWord(t: string) { t != "" && t[0] != 'e' && t[0] != 'u' && t != "of" && !AllDigits(t) }

  lemma {:induction false} WordsArePlain1(t: string)
    ensures t in QUANT_WORD_1 ==> PlainWord(t) && t !in QUANT_TAIL
  {
    assert t in QUANT_WORD_1 ==> !IsDigit(t[0]);
  }

  lemma {:induction false} WordsArePlain2(t: string)
    ensures t in QUANT_WORD_2 ==> PlainWord(t) && t !in QUANT_TAIL
  {
    assert t in QUANT_WORD_2 ==> !IsDigit(t[0]);
  }

  lemma {:induction false} WordsArePlain3(t: string)
    ensures t in QUANT_WORD_3 ==> PlainWord(t) && t !in QUANT_TAIL
  {
    assert t in QUANT_WORD_3 ==> !IsDigit(t[0]);
  }

  lemma {:induction false} WordsArePlain4(t: string)
    ensures t in QUANT_WORD_4 ==> PlainWord(t) && t !in QUANT_TAIL
  {
    assert t in QUANT_WORD_4 ==> !IsDigit(t[1]);
  }

  lemma {:induction false} TailsAreNoLevels(t: string)
    ensures t in QUANT_TAIL ==> !IsQuantLevel(t) && t != "ud"
  {
  }

  lemma {:induction false} PackagingIsWords(t: string)
    ensures t in PACKAGING ==> !NumberOrOf(t)
  {
    assert t in PACKAGING ==> t != "" && !IsDigit(t[0]) && t != "of";
  }

  lemma {:induction false} RolesAreWords(t: string)
    ensures t in ROLE ==> !NumberOrOf(t)
  {
    assert t in ROLE ==> t != "" && !IsDigit(t[0]) && t != "of";
  }

  lemma {:induction false} TablesAreSound(impl: Impl)
    ensures Sound(RulesOf(impl))
  {
    var r := RulesOf(impl);
    forall t | t in r.quantWord ensures PlainWord(t) && t !in r.quantTail {
      WordsArePlain1(t);
      WordsArePlain2(t);
      WordsArePlain3(t);
      WordsArePlain4(t);
    }
    forall t | t in r.quantTail ensures !IsQuantLevel(t) && t != "ud" {
      TailsAreNoLevels(t);
    }
    forall t | t in r.packaging || t in r.role ensures !NumberOrOf(t) {
      PackagingIsWords(t);
      RolesAreWords(t);
    }
  }

  // ---- single tokens ----

  predicate IsDigit(c: char) { '0' <= c <= '9' }

  predicate AllDigits(t: string) { forall i :: 0 <= i < |t| ==> IsDigit(t[i]) }

  function CutPrefix(t: string, c: char): string { if t != "" && t[0] == c then t[1..] else t }

  const TWO_63: int := 0x8000_0000_0000_0000
  const TWO_64: int := 0x1_0000_0000_0000_0000

  /** Two's complement in 64 bits. */
  function Wrap64(n: int): int { (n + TWO_63) % TWO_64 - TWO_63 }

  /** The value of the digits of t after n, as each implementation adds it up. */
  function Run(impl: Impl, t: string, n: int): int
    requires AllDigits(t)
  {
    if t == "" then n
    else
      var next := n * 10 + (t[0] - '0') as int;
      Run(impl, t[1..], if impl.Go? then Wrap64(next) else next)
  }

  function Digits(impl: Impl, t: string): int
  {
    if t == "" || !AllDigits(t) then 0 else Run(impl, t, 0)
  }

  predicate Positive(impl: Impl, t: string) { Digits(impl, t) > 0 }

  predicate IsVersion(t: string)
  {
    var body := CutPrefix(t, 'v');
    body != "" && IsDigit(body[0]) && forall i :: 0 <= i < |body| ==> IsDigit(body[i]) || body[i] == '.'
  }

  function Count(t: string, c: char): nat
  {
    if t == "" then 0 else (if t[0] == c then 1 else 0) + Count(t[1..], c)
  }

  function CountDigits(t: string): nat
  {
    if t == "" then 0 else (if IsDigit(t[0]) then 1 else 0) + CountDigits(t[1..])
  }

  predicate ParamChar(c: char) { IsDigit(c) || c == '.' || c == 'x' }

  predicate IsParams(t: string)
  {
    && t != "" && (t[|t| - 1] == 'b' || t[|t| - 1] == 'm' || t[|t| - 1] == 'k')
    && var body := CutPrefix(t[..|t| - 1], 'a');
       && body != "" && (forall i :: 0 <= i < |body| ==> ParamChar(body[i]))
       && CountDigits(body) > 0 && Count(body, '.') <= 1 && Count(body, 'x') <= 1
  }

  predicate IsQuantLevel(t: string)
  {
    var body := CutPrefix(t, 'i');
    |body| >= 2 && body[0] == 'q' && AllDigits(body[1..])
  }

  predicate IsBlockFormat(t: string) { |t| >= 4 && t[0] == 'e' && 'm' in t }

  // ---- runs at the front of the raw tokens ----

  predicate ShardRun(r: Rules, raw: seq<string>)
  {
    |raw| > 2 && raw[1] == "of" && Positive(r.impl, raw[0]) && Positive(r.impl, raw[2])
  }

  function Tails(r: Rules, raw: seq<string>): (n: nat)
    ensures n <= |raw|
  {
    if raw != [] && raw[0] in r.quantTail then 1 + Tails(r, raw[1..]) else 0
  }

  /** The length of a quant word or level at the front, with what belongs to it. */
  function BareRun(r: Rules, raw: seq<string>): (n: nat)
    requires raw != []
    ensures n <= |raw|
  {
    if raw[0] in r.quantWord then
      if raw[0] in r.blockWord && |raw| > 1 && IsBlockFormat(raw[1]) then 2 else 1
    else if IsQuantLevel(raw[0]) then 1 + Tails(r, raw[1..])
    else 0
  }

  function QuantRun(r: Rules, raw: seq<string>): (n: nat)
    requires raw != []
    ensures n <= |raw|
  {
    if raw[0] == "ud" && |raw| > 1 && QuantRun(r, raw[1..]) > 0 then
      if BareRun(r, raw[1..]) > 0 then 1 + BareRun(r, raw[1..]) else 0
    else BareRun(r, raw)
  }

  // ---- the scan ----

  datatype Segment = Kept(token: string) | Shard(index: string, of_: string, count: string) | Quant(run: seq<string>)

  function Segments(r: Rules, raw: seq<string>): seq<Segment>
  {
    if raw == [] then []
    else if ShardRun(r, raw) then [Shard(raw[0], raw[1], raw[2])] + Segments(r, raw[3..])
    else if QuantRun(r, raw) == 0 then [Kept(raw[0])] + Segments(r, raw[1..])
    else [Quant(raw[..QuantRun(r, raw)])] + Segments(r, raw[QuantRun(r, raw)..])
  }

  function Text(s: Segment): seq<string>
  {
    match s case Kept(t) => [t] case Shard(a, o, n) => [a, o, n] case Quant(run) => run
  }

  function Flatten(segs: seq<Segment>): seq<string>
  {
    if segs == [] then [] else Text(segs[0]) + Flatten(segs[1..])
  }

  function KeptOf(segs: seq<Segment>): seq<string>
  {
    if segs == [] then [] else (if segs[0].Kept? then [segs[0].token] else []) + KeptOf(segs[1..])
  }

  /** The first quant run; none is empty. */
  function FirstQuant(segs: seq<Segment>): seq<string>
  {
    if segs == [] then [] else if segs[0].Quant? then segs[0].run else FirstQuant(segs[1..])
  }

  /** The tokens a scan keeps. */
  function KeptTokens(r: Rules, raw: seq<string>): seq<string> { KeptOf(Segments(r, raw)) }

  function QuantTokens(r: Rules, raw: seq<string>): seq<string> { FirstQuant(Segments(r, raw)) }

  ghost predicate SegmentOk(r: Rules, s: Segment)
  {
    match s
    case Kept(_) => true
    case Shard(a, o, n) => o == "of" && Positive(r.impl, a) && Positive(r.impl, n)
    case Quant(run) => run != [] && (exists more :: QuantRun(r, run + more) == |run|)
  }

  /** The scan partitions its input: in order, nothing lost and nothing twice, and
      what is dropped is a shard triple or a quant run. */
  lemma {:induction false} ScanPartitions(r: Rules, raw: seq<string>)
    ensures Flatten(Segments(r, raw)) == raw
    ensures forall s :: s in Segments(r, raw) ==> SegmentOk(r, s)
    decreases |raw|
  {
    if raw != [] {
      var n := StepLength(r, raw);
      ScanPartitions(r, raw[n..]);
      FirstSegment(r, raw);
      assert raw == raw[..n] + raw[n..];
    }
  }

  lemma {:induction false} FirstSegment(r: Rules, raw: seq<string>)
    requires raw != []
    ensures var n := StepLength(r, raw);
            var segs := Segments(r, raw);
            segs != [] && segs == [segs[0]] + Segments(r, raw[n..]) && Text(segs[0]) == raw[..n] && SegmentOk(r, segs[0])
  {
    var n := StepLength(r, raw);
    if TakesRun(r, raw) {
      assert raw == raw[..n] + raw[n..];
      assert SegmentOk(r, Quant(raw[..n]));
    }
  }

  /** How far one turn of the scan goes. */
  function StepLength(r: Rules, raw: seq<string>): (n: nat)
    requires raw != []
    ensures 0 < n <= |raw|
  {
    if ShardRun(r, raw) then 3 else if QuantRun(r, raw) == 0 then 1 else QuantRun(r, raw)
  }

  predicate TakesRun(r: Rules, raw: seq<string>)
    requires raw != []
  {
    !ShardRun(r, raw) && QuantRun(r, raw) > 0
  }

  /** What one turn of the scan keeps. */
  function Head(r: Rules, raw: seq<string>): seq<string>
    requires raw != []
  {
    if ShardRun(r, raw) || QuantRun(r, raw) > 0 then [] else [raw[0]]
  }

  lemma {:induction false} ScanStep(r: Rules, raw: seq<string>)
    requires raw != []
    ensures var n := StepLength(r, raw);
            && KeptTokens(r, raw) == Head(r, raw) + KeptTokens(r, raw[n..])
            && QuantTokens(r, raw) == if TakesRun(r, raw) then raw[..n] else QuantTokens(r, raw[n..])
  {
  }

  lemma {:induction false} NothingKept(r: Rules)
    ensures KeptTokens(r, []) == [] && QuantTokens(r, []) == []
  {
  }

  // ---- the scanning loops ----

  /** The run at i, by recursion on a prefix ud and a loop over tails. */
  method QuantRunAt(r: Rules, raw: seq<string>, i: nat) returns (n: nat)
    requires i < |raw|
    ensures n == QuantRun(r, raw[i..])
    decreases |raw| - i
  {
    n := 0;
    assert raw[i..][1..] == raw[i + 1..];
    if raw[i] == "ud" && i + 1 < |raw| {
      var m := QuantRunAt(r, raw, i + 1);
      if m > 0 {
        n := 1;
      }
    }
    var t := raw[i + n];
    ghost var bare := raw[i + n..];
    assert bare[1..] == raw[i + n + 1..];
    if t in r.quantWord {
      n := n + 1;
      if t in r.blockWord && i + n < |raw| && IsBlockFormat(raw[i + n]) {
        n := n + 1;
      }
    } else if IsQuantLevel(t) {
      n := n + 1;
      ghost var first := n;
      while i + n < |raw| && raw[i + n] in r.quantTail
        invariant first <= n && i + n <= |raw|
        invariant Tails(r, bare[1..]) == n - first + Tails(r, raw[i + n..])
      {
        assert raw[i + n..][1..] == raw[i + n + 1..];
        n := n + 1;
      }
    } else {
      n := 0;
    }
  }

  lemma {:induction false} ScanAt(r: Rules, raw: seq<string>, i: nat)
    requires i < |raw|
    ensures var n := StepLength(r, raw[i..]);
            && i + n <= |raw|
            && KeptTokens(r, raw[i..]) == Head(r, raw[i..]) + KeptTokens(r, raw[i + n..])
            && QuantTokens(r, raw[i..]) == if TakesRun(r, raw[i..]) then raw[i..i + n] else QuantTokens(r, raw[i + n..])
  {
    ScanStep(r, raw[i..]);
    var n := StepLength(r, raw[i..]);
    assert raw[i..][n..] == raw[i + n..] && raw[i..][..n] == raw[i..i + n];
  }

  /** One turn of either loop: how far it goes, the tokens kept so far, and the run
      it takes. */
  method Turn(r: Rules, raw: seq<string>, i: nat, before: seq<string>) returns (n: nat, kept: seq<string>, run: seq<string>)
    requires i < |raw|
    ensures 0 < n && i + n <= |raw|
    ensures kept + KeptTokens(r, raw[i + n..]) == before + KeptTokens(r, raw[i..])
    ensures QuantTokens(r, raw[i..]) == if run != [] then run else QuantTokens(r, raw[i + n..])
  {
    ScanAt(r, raw, i);
    Keeps(r, raw, i, before);
    if ShardRun(r, raw[i..]) {
      return 3, before, [];
    }
    n := QuantRunAt(r, raw, i);
    if n == 0 {
      return 1, before + [raw[i]], [];
    }
    return n, before, raw[i..i + n];
  }

  /** What a turn adds to the tokens kept so far. */
  lemma {:induction false} Keeps(r: Rules, raw: seq<string>, i: nat, before: seq<string>)
    requires i < |raw|
    ensures var n, head := StepLength(r, raw[i..]), Head(r, raw[i..]);
            && i + n <= |raw|
            && (if head == [] then before else before + head) + KeptTokens(r, raw[i + n..]) == before + KeptTokens(r, raw[i..])
  {
    ScanAt(r, raw, i);
    var rest := KeptTokens(r, raw[i + StepLength(r, raw[i..])..]);
    if Head(r, raw[i..]) == [] {
      assert [] + rest == rest;
    } else {
      KeepsOne(before, raw[i], rest);
    }
  }

  lemma {:induction false} KeepsOne(before: seq<string>, t: string, after: seq<string>)
    ensures before + [t] + after == before + ([t] + after)
  {
  }

  /** The Go loop: quant is nil, here empty, until the first run. */
  method TokensGo(r: Rules, raw: seq<string>) returns (kept: seq<string>, quant: seq<string>)
    ensures kept == KeptTokens(r, raw) && quant == QuantTokens(r, raw)
  {
    kept, quant := [], [];
    var i := 0;
    assert raw[0..] == raw;
    ghost var allKept, allQuant := KeptTokens(r, raw), QuantTokens(r, raw);
    while i < |raw|
      invariant 0 <= i <= |raw|
      invariant kept + KeptTokens(r, raw[i..]) == allKept
      invariant (if quant != [] then quant else QuantTokens(r, raw[i..])) == allQuant
    {
      var n, grown, run := Turn(r, raw, i, kept);
      kept, i := grown, i + n;
      if run != [] && quant == [] {
        quant := run;
      }
    }
    AllScanned(r, raw, i, kept);
  }

  /** The Python loop: quant is None until the first run, and empty in the end if
      there was none. */
  method TokensPy(r: Rules, raw: seq<string>) returns (kept: seq<string>, quant: seq<string>)
    ensures kept == KeptTokens(r, raw) && quant == QuantTokens(r, raw)
  {
    kept := [];
    var first: Option<seq<string>> := None;
    var i := 0;
    assert raw[0..] == raw;
    ghost var allKept, allQuant := KeptTokens(r, raw), QuantTokens(r, raw);
    while i < |raw|
      invariant 0 <= i <= |raw|
      invariant kept + KeptTokens(r, raw[i..]) == allKept
      invariant (if first.Some? then first.value else QuantTokens(r, raw[i..])) == allQuant
    {
      var n, grown, run := Turn(r, raw, i, kept);
      kept, i := grown, i + n;
      if run != [] && first.None? {
        first := Some(run);
      }
    }
    AllScanned(r, raw, i, kept);
    quant := if first.Some? then first.value else [];
  }

  lemma {:induction false} AllScanned(r: Rules, raw: seq<string>, i: nat, kept: seq<string>)
    requires i == |raw|
    ensures kept + KeptTokens(r, raw[i..]) == kept && QuantTokens(r, raw[i..]) == []
  {
    NothingKept(r);
    assert raw[i..] == [];
  }

  /** The Go accumulator: a machine word. */
  method DigitsGo(t: string) returns (n: int)
    ensures n == Digits(Go, t)
  {
    n := 0;
    for i := 0 to |t|
      invariant forall j :: 0 <= j < i ==> IsDigit(t[j])
      invariant AllDigits(t[i..]) ==> Run(Go, t[i..], n) == Run(Go, t, 0)
    {
      if t[i] < '0' || t[i] > '9' {
        return 0;
      }
      assert t[i..][1..] == t[i + 1..];
      assert AllDigits(t[i + 1..]) ==> AllDigits(t[i..]);
      n := Wrap64(n * 10 + (t[i] - '0') as int);
    }
  }

  method IsVersionGo(t: string) returns (ok: bool)
    ensures ok == IsVersion(t)
  {
    var body := CutPrefix(t, 'v');
    if body == "" {
      return false;
    }
    for i := 0 to |body|
      invariant forall j :: 0 <= j < i ==> IsDigit(body[j]) || body[j] == '.'
    {
      if (body[i] < '0' || body[i] > '9') && body[i] != '.' {
        return false;
      }
    }
    return '0' <= body[0] <= '9';
  }

  method IsParamsGo(t: string) returns (ok: bool)
    ensures ok == IsParams(t)
  {
    if t == "" {
      return false;
    }
    var last := t[|t| - 1];
    if last != 'b' && last != 'm' && last != 'k' {
      return false;
    }
    var body := CutPrefix(t[..|t| - 1], 'a');
    if body == "" {
      return false;
    }
    var digits, dots, xs := 0, 0, 0;
    for i := 0 to |body|
      invariant forall j :: 0 <= j < i ==> ParamChar(body[j])
      invariant digits + CountDigits(body[i..]) == CountDigits(body)
      invariant dots + Count(body[i..], '.') == Count(body, '.')
      invariant xs + Count(body[i..], 'x') == Count(body, 'x')
    {
      assert body[i..][1..] == body[i + 1..];
      if IsDigit(body[i]) {
        digits := digits + 1;
      } else if body[i] == '.' {
        dots := dots + 1;
      } else if body[i] == 'x' {
        xs := xs + 1;
      } else {
        return false;
      }
    }
    return digits > 0 && dots <= 1 && xs <= 1;
  }

  // ---- the width of a number ----

  lemma {:induction false} WrapAbsorbs(n: int, m: int, d: int)
    requires m == Wrap64(n)
    ensures Wrap64(m * 10 + d) == Wrap64(n * 10 + d)
  {
    var k := (n + TWO_63) / TWO_64;
    assert m == n - k * TWO_64;
    var x := n * 10 + d + TWO_63;
    assert m * 10 + d + TWO_63 == x - (k * 10) * TWO_64;
    ModShift(x, -(k * 10));
  }

  lemma {:induction false} ModShift(x: int, k: int)
    ensures (x + k * TWO_64) % TWO_64 == x % TWO_64
  {
  }

  lemma {:induction false} RunWraps(t: string, n: int, m: int)
    requires AllDigits(t) && m == Wrap64(n)
    ensures Run(Go, t, m) == Wrap64(Run(Python, t, n))
  {
    if t != "" {
      var d := (t[0] - '0') as int;
      WrapAbsorbs(n, m, d);
      RunWraps(t[1..], n * 10 + d, Wrap64(m * 10 + d));
    }
  }

  /** The Go number is the true one modulo 2^64, so the two agree on a shard
      number exactly when the wrapped value is as positive as the true one. */
  lemma {:induction false} DigitsWrap(t: string)
    ensures Digits(Go, t) == Wrap64(Digits(Python, t))
  {
    if t != "" && AllDigits(t) {
      RunWraps(t, 0, 0);
    }
  }

  lemma {:induction false} RunBound(t: string, n: nat)
    requires AllDigits(t)
    ensures n <= Run(Python, t, n) < (n + 1) * Pow10(|t|)
  {
    if t != "" {
      var m: nat := n * 10 + (t[0] - '0') as int;
      var p := Pow10(|t| - 1);
      RunBound(t[1..], m);
      MulMono((n + 1) * 10, m + 1, p);
      TenTimes(n + 1, p);
    }
  }

  lemma {:induction false} TenTimes(a: nat, p: nat)
    ensures a * 10 * p == a * (10 * p)
  {
  }

  lemma {:induction false} Pow10Of18()
    ensures Pow10(18) == 1_000_000_000_000_000_000
  {
    assert Pow10(6) == 1_000_000;
    assert Pow10(12) == 1_000_000 * Pow10(6);
    assert Pow10(18) == 1_000_000 * Pow10(12);
  }

  /** Up to eighteen digits nothing wraps. */
  lemma {:induction false} ShortDigitsAgree(t: string)
    requires |t| <= 18
    ensures Digits(Go, t) == Digits(Python, t)
  {
    DigitsWrap(t);
    if t != "" && AllDigits(t) {
      RunBound(t, 0);
      Pow10Grows(|t|, 18);
      Pow10Of18();
    }
  }

  /** No run of digits in raw is longer than eighteen. */
  predicate ShortNumbers(raw: seq<string>) { forall i :: 0 <= i < |raw| ==> AllDigits(raw[i]) ==> |raw[i]| <= 18 }

  lemma {:induction false} ShortOrZero(t: string)
    requires AllDigits(t) ==> |t| <= 18
    ensures Digits(Go, t) == Digits(Python, t)
  {
    if AllDigits(t) {
      ShortDigitsAgree(t);
    }
  }

  /** The same tables, read by the other implementation. */
  function Other(r: Rules, impl: Impl): Rules { r.(impl := impl) }

  lemma {:induction false} TailsIgnoreImpl(r: Rules, impl: Impl, raw: seq<string>)
    ensures Tails(Other(r, impl), raw) == Tails(r, raw)
  {
    if raw != [] {
      TailsIgnoreImpl(r, impl, raw[1..]);
    }
  }

  lemma {:induction false} RunsIgnoreImpl(r: Rules, impl: Impl, raw: seq<string>)
    requires raw != []
    ensures QuantRun(Other(r, impl), raw) == QuantRun(r, raw)
  {
    TailsIgnoreImpl(r, impl, raw[1..]);
    if |raw| > 1 {
      TailsIgnoreImpl(r, impl, raw[1..][1..]);
      RunsIgnoreImpl(r, impl, raw[1..]);
    }
  }

  /** A shard's two numbers stay positive in 64 bits. */
  predicate StaysShard(s: Segment)
  {
    s.Shard? ==> Wrap64(Digits(Python, s.index)) > 0 && Wrap64(Digits(Python, s.count)) > 0
  }

  predicate NoShardWraps(segs: seq<Segment>) { forall i :: 0 <= i < |segs| ==> StaysShard(segs[i]) }

  lemma {:induction false} DigitsAreNatural(t: string)
    ensures Digits(Python, t) >= 0
  {
    if t != "" && AllDigits(t) {
      RunBound(t, 0);
    }
  }

  /** What is a shard in Go is one in Python, and the other way when it does not wrap. */
  lemma {:induction false} ShardsAgree(r: Rules, raw: seq<string>)
    ensures ShardRun(Other(r, Go), raw)
            <==> ShardRun(Other(r, Python), raw) && Wrap64(Digits(Python, raw[0])) > 0 && Wrap64(Digits(Python, raw[2])) > 0
  {
    if |raw| > 2 {
      DigitsWrap(raw[0]);
      DigitsWrap(raw[2]);
      DigitsAreNatural(raw[0]);
      DigitsAreNatural(raw[2]);
    }
  }

  lemma {:induction false} NoWrapHeads(first: Segment, rest: seq<Segment>)
    ensures NoShardWraps([first] + rest) <==> StaysShard(first) && NoShardWraps(rest)
  {
    var segs := [first] + rest;
    assert segs[0] == first && forall i :: 0 <= i < |rest| ==> segs[i + 1] == rest[i];
  }

  /** The two implementations see the same segments exactly when no shard that Python
      sees has a number that wraps to zero or below in Go's machine word. */
  lemma {:induction false} ScansAgreeExactly(r: Rules, raw: seq<string>)
    ensures Segments(Other(r, Go), raw) == Segments(Other(r, Python), raw) <==> NoShardWraps(Segments(Other(r, Python), raw))
    decreases |raw|
  {
    if raw != [] {
      var go, py := Other(r, Go), Other(r, Python);
      ShardsAgree(r, raw);
      RunsIgnoreImpl(go, Python, raw);
      assert Other(go, Python) == py;
      FirstSegment(go, raw);
      FirstSegment(py, raw);
      var n := StepLength(py, raw);
      var s := Segments(py, raw)[0];
      NoWrapHeads(s, Segments(py, raw[n..]));
      if StaysShard(s) {
        assert StepLength(go, raw) == n && Segments(go, raw)[0] == s;
        ScansAgreeExactly(r, raw[n..]);
        SameTails([s], Segments(go, raw[n..]), Segments(py, raw[n..]));
      } else {
        assert !Segments(go, raw)[0].Shard?;
      }
    }
  }

  lemma {:induction false} SameTails<T>(a: seq<T>, x: seq<T>, y: seq<T>)
    ensures a + x == a + y <==> x == y
  {
    if a + x == a + y {
      assert x == (a + x)[|a|..] && y == (a + y)[|a|..];
    }
  }

  lemma {:induction false} SegmentIsInRaw(r: Rules, raw: seq<string>, s: Segment)
    requires s in Segments(r, raw) && s.Shard?
    ensures s.index in raw && s.count in raw
  {
    ScanPartitions(r, raw);
    TextIsInFlat(Segments(r, raw), s);
    assert s.index == Text(s)[0] && s.count == Text(s)[2];
  }

  lemma {:induction false} TextIsInFlat(segs: seq<Segment>, s: Segment)
    requires s in segs
    ensures forall i :: 0 <= i < |Text(s)| ==> Text(s)[i] in Flatten(segs)
  {
    if s != segs[0] {
      TextIsInFlat(segs[1..], s);
    }
  }

  /** Up to eighteen digits, then, they always do. */
  lemma {:induction false} ScansAgree(r: Rules, raw: seq<string>)
    requires ShortNumbers(raw)
    ensures Segments(Other(r, Go), raw) == Segments(Other(r, Python), raw)
  {
    var py := Other(r, Python);
    var segs := Segments(py, raw);
    ScanPartitions(py, raw);
    forall i | 0 <= i < |segs| ensures StaysShard(segs[i]) {
      if segs[i].Shard? {
        var s := segs[i];
        assert s in segs;
        SegmentIsInRaw(py, raw, s);
        ShortOrZero(s.index);
        ShortOrZero(s.count);
        DigitsWrap(s.index);
        DigitsWrap(s.count);
      }
    }
    ScansAgreeExactly(r, raw);
  }

  // ---- numbers never hide a quantisation ----

  /** A number starts no run. */
  lemma {:induction false} NumbersStartNone(r: Rules, raw: seq<string>)
    requires Sound(r) && raw != [] && NumberOrOf(raw[0])
    ensures QuantRun(r, raw) == 0 && raw[0] != "ud" && !IsQuantLevel(raw[0]) && raw[0] !in r.quantWord
  {
    assert raw[0] == "of" || IsDigit(raw[0][0]);
  }

  /** A number or an "of" at the front, in a shard or not, hides no run after it. */
  lemma {:induction false} NumbersHideNone(r: Rules, raw: seq<string>)
    requires Sound(r) && raw != [] && NumberOrOf(raw[0])
    ensures QuantTokens(r, raw) == QuantTokens(r, raw[1..])
    decreases |raw|
  {
    NumbersStartNone(r, raw);
    ScanStep(r, raw);
    if ShardRun(r, raw) {
      assert raw[1..][1..] == raw[2..] && raw[2..][1..] == raw[3..];
      NumbersHideNone(r, raw[1..]);
      NumbersHideNone(r, raw[2..]);
    }
  }

  /** The two implementations always see the same quantisation, whatever wraps. */
  lemma {:induction false} QuantsAgree(r: Rules, raw: seq<string>)
    requires Sound(r)
    ensures QuantTokens(Other(r, Go), raw) == QuantTokens(Other(r, Python), raw)
    decreases |raw|
  {
    var go, py := Other(r, Go), Other(r, Python);
    if raw == [] {
      NothingKept(go);
      NothingKept(py);
    } else if NumberOrOf(raw[0]) {
      NumbersHideNone(go, raw);
      NumbersHideNone(py, raw);
      QuantsAgree(r, raw[1..]);
    } else {
      RunsIgnoreImpl(go, Python, raw);
      assert Other(go, Python) == py && !ShardRun(go, raw) && !ShardRun(py, raw);
      ScanStep(go, raw);
      ScanStep(py, raw);
      QuantsAgree(r, raw[StepLength(go, raw)..]);
    }
  }

  // ---- what is kept tells ----

  /** A number or an "of" that starts no shard is kept. */
  lemma {:induction false} NumberIsKept(r: Rules, raw: seq<string>)
    requires Sound(r) && raw != [] && NumberOrOf(raw[0]) && !ShardRun(r, raw)
    ensures KeptTokens(r, raw) == [raw[0]] + KeptTokens(r, raw[1..])
    ensures |KeptTokens(r, raw)| == 1 + |KeptTokens(r, raw[1..])| && KeptTokens(r, raw)[0] == raw[0]
  {
    NumbersStartNone(r, raw);
    ScanStep(r, raw);
  }

  lemma {:induction false} OfIsKept(r: Rules, raw: seq<string>, k: nat)
    requires Sound(r) && k < |raw| && raw[k] == "of"
    ensures KeptTokens(r, raw[k..]) == ["of"] + KeptTokens(r, raw[k + 1..])
    ensures |KeptTokens(r, raw[k..])| == 1 + |KeptTokens(r, raw[k + 1..])| && KeptTokens(r, raw[k..])[0] == "of"
  {
    assert !IsDigit(raw[k][0]);
    NumberIsKept(r, raw[k..]);
    assert raw[k..][1..] == raw[k + 1..];
  }

  lemma {:induction false} ShardIsDropped(r: Rules, raw: seq<string>)
    requires ShardRun(r, raw)
    ensures KeptTokens(r, raw) == KeptTokens(r, raw[3..])
  {
    ScanStep(r, raw);
  }

  /** With a number or an "of" in front a scan keeps at most one token more, and at
      most two fewer. */
  lemma {:induction false} NumberChangesFew(r: Rules, raw: seq<string>)
    requires Sound(r) && raw != [] && NumberOrOf(raw[0])
    ensures |KeptTokens(r, raw[1..])| - 2 <= |KeptTokens(r, raw)| <= |KeptTokens(r, raw[1..])| + 1
    decreases |raw|
  {
    if ShardRun(r, raw) {
      ShardIsDropped(r, raw);
      OfIsKept(r, raw, 1);
      NumberChangesFew(r, raw[2..]);
      assert raw[2..][1..] == raw[3..];
    } else {
      NumberIsKept(r, raw);
    }
  }

  /** Where Python takes a shard and Go does not, Go keeps as much and another token:
      a number where Python keeps an "of". */
  lemma {:induction false} WrappedIsKept(go: Rules, py: Rules, raw: seq<string>)
    requires Sound(go) && Sound(py) && ShardRun(py, raw) && !ShardRun(go, raw)
    requires |KeptTokens(go, raw[2..])| >= |KeptTokens(py, raw[2..])|
    ensures |KeptTokens(go, raw)| >= |KeptTokens(py, raw)| && KeptTokens(go, raw) != KeptTokens(py, raw)
  {
    NumberIsKept(go, raw);
    OfIsKept(go, raw, 1);
    ShardIsDropped(py, raw);
    NumberChangesFew(py, raw[2..]);
    assert raw[2..][1..] == raw[3..];
    if ShardRun(py, raw[2..]) {
      assert raw[2..][1] == raw[3];
      OfIsKept(py, raw, 3);
    } else {
      NumberIsKept(py, raw[2..]);
    }
  }

  /** For every raw list Go never keeps fewer tokens than Python, and the two keep the
      same exactly when no shard that Python sees wraps. */
  lemma {:induction false} KeptAgreeExactly(r: Rules, raw: seq<string>)
    requires Sound(r)
    ensures var a, b := KeptTokens(Other(r, Go), raw), KeptTokens(Other(r, Python), raw);
            |a| >= |b| && (a == b <==> NoShardWraps(Segments(Other(r, Python), raw)))
    decreases |raw|
  {
    var go, py := Other(r, Go), Other(r, Python);
    if raw == [] {
      NothingKept(go);
      NothingKept(py);
    } else {
      var n, s := StepLength(py, raw), Segments(py, raw)[0];
      ShardsAgree(r, raw);
      FirstSegment(py, raw);
      NoWrapHeads(s, Segments(py, raw[n..]));
      if StaysShard(s) {
        RunsIgnoreImpl(go, Python, raw);
        assert Other(go, Python) == py;
        ScanStep(go, raw);
        ScanStep(py, raw);
        KeptAgreeExactly(r, raw[n..]);
        SameTails(Head(py, raw), KeptTokens(go, raw[n..]), KeptTokens(py, raw[n..]));
      } else {
        KeptAgreeExactly(r, raw[2..]);
        WrappedIsKept(go, py, raw);
      }
    }
  }

  /** 2^64 written out. */
  const WRAPS: string := "18446744073709551616"

  lemma {:induction false} RunOfFive(t: string, n: int)
    requires |t| == 5 && AllDigits(t)
    ensures Run(Python, t, n) == n * 100000 + (t[0] - '0') as int * 10000 + (t[1] - '0') as int * 1000
                                 + (t[2] - '0') as int * 100 + (t[3] - '0') as int * 10 + (t[4] - '0') as int
  {
    var a := n * 10 + (t[0] - '0') as int;
    var b := a * 10 + (t[1] - '0') as int;
    var c := b * 10 + (t[2] - '0') as int;
    var d := c * 10 + (t[3] - '0') as int;
    assert Run(Python, t, n) == Run(Python, t[1..], a);
    assert Run(Python, t[1..], a) == Run(Python, t[1..][1..], b);
    assert t[1..][1..] == t[2..];
    assert Run(Python, t[2..], b) == Run(Python, t[2..][1..], c);
    assert t[2..][1..] == t[3..];
    assert Run(Python, t[3..], c) == Run(Python, t[3..][1..], d);
    assert t[3..][1..] == t[4..];
    assert Run(Python, t[4..], d) == Run(Python, t[4..][1..], d * 10 + (t[4] - '0') as int);
  }

  lemma {:induction false} RunSplits(t: string, k: nat, n: int)
    requires AllDigits(t) && k <= |t|
    ensures AllDigits(t[..k]) && AllDigits(t[k..])
    ensures Run(Python, t, n) == Run(Python, t[k..], Run(Python, t[..k], n))
  {
    if k > 0 {
      RunSplits(t[1..], k - 1, n * 10 + (t[0] - '0') as int);
      assert t[1..][..k - 1] == t[..k][1..] && t[1..][k - 1..] == t[k..];
    }
  }

  lemma {:induction false} WrapsIsDigits(t: string)
    requires t == WRAPS
    ensures |t| == 20 && AllDigits(t)
  {
  }

  lemma {:induction false} NextFive(t: string, i: nat, n: int, d: int)
    requires AllDigits(t) && i + 5 <= |t|
    requires d == (t[i] - '0') as int * 10000 + (t[i + 1] - '0') as int * 1000
                  + (t[i + 2] - '0') as int * 100 + (t[i + 3] - '0') as int * 10 + (t[i + 4] - '0') as int
    ensures AllDigits(t[i..]) && AllDigits(t[i + 5..])
    ensures Run(Python, t[i..], n) == Run(Python, t[i + 5..], n * 100000 + d)
  {
    var u := t[i..];
    RunSplits(u, 5, n);
    RunOfFive(u[..5], n);
    assert u[5..] == t[i + 5..];
  }

  lemma {:induction false} RunOfWraps(t: string)
    requires t == WRAPS
    ensures AllDigits(t) && Run(Python, t, 0) == TWO_64
  {
    WrapsIsDigits(t);
    FirstTenOfWraps(t);
    LastTenOfWraps(t);
  }

  lemma {:induction false} FirstTenOfWraps(t: string)
    requires t == WRAPS && |t| == 20 && AllDigits(t)
    ensures AllDigits(t[10..]) && Run(Python, t, 0) == Run(Python, t[10..], 1844674407)
  {
    NextFive(t, 0, 0, 18446);
    NextFive(t, 5, 18446, 74407);
    assert t[0..] == t;
  }

  lemma {:induction false} LastTenOfWraps(t: string)
    requires t == WRAPS && |t| == 20 && AllDigits(t)
    ensures AllDigits(t[10..]) && Run(Python, t[10..], 1844674407) == TWO_64
  {
    NextFive(t, 10, 1844674407, 37095);
    NextFive(t, 15, 184467440737095, 51616);
    assert t[20..] == "";
  }

  /** Beyond that they part: a shard number that is a multiple of 2^64 is zero in
      Go, so what Python drops as a shard, Go keeps as three tokens. */
  lemma {:induction false} LongNumbersDisagree(r: Rules, t: string)
    requires t == WRAPS
    ensures ShardRun(Other(r, Python), [t, "of", t]) && !ShardRun(Other(r, Go), [t, "of", t])
  {
    RunOfWraps(t);
    DigitsWrap(t);
  }

  // ---- appending to the raw tokens ----

  /** What a token may not do to the tokens before it. */
  predicate Inert(r: Rules, t: string)
  {
    !Positive(r.impl, t) && t !in r.quantTail && !IsBlockFormat(t) && t != "of"
  }

  predicate StartsRun(r: Rules, t: string) { t == "ud" || t in r.quantWord || IsQuantLevel(t) }

  lemma {:induction false} RunsStart(r: Rules, q: seq<string>)
    requires q != [] && QuantRun(r, q) > 0
    ensures StartsRun(r, q[0])
  {
  }

  lemma {:induction false} RunStartsAreInert(r: Rules, t: string)
    requires Sound(r) && StartsRun(r, t)
    ensures Inert(r, t)
  {
    if t !in r.quantWord {
      assert !IsDigit(t[0]);
    }
  }

  lemma {:induction false} TailsStop(r: Rules, raw: seq<string>, q: seq<string>)
    requires q != [] && q[0] !in r.quantTail
    ensures Tails(r, raw + q) == Tails(r, raw)
  {
    if raw == [] {
      assert raw + q == q;
    } else {
      assert (raw + q)[1..] == raw[1..] + q;
      TailsStop(r, raw[1..], q);
    }
  }

  lemma {:induction false} BareRunStops(r: Rules, raw: seq<string>, q: seq<string>)
    requires raw != [] && q != [] && Inert(r, q[0])
    ensures BareRun(r, raw + q) == BareRun(r, raw)
  {
    assert (raw + q)[1..] == raw[1..] + q;
    TailsStop(r, raw[1..], q);
    if |raw| == 1 {
      assert (raw + q)[1] == q[0];
    }
  }

  lemma {:induction false} UdIsNoRun(r: Rules, raw: seq<string>)
    requires Sound(r) && raw != [] && raw[0] == "ud"
    ensures BareRun(r, raw) == 0
  {
    assert raw[0][0] == 'u';
  }

  lemma {:induction false} SecondUd(r: Rules, raw: seq<string>)
    requires Sound(r) && |raw| > 1 && raw[0] == "ud" && raw[1] == "ud"
    ensures QuantRun(r, raw) == 0
  {
    UdIsNoRun(r, raw);
    UdIsNoRun(r, raw[1..]);
  }

  /** Only a lone ud reads on into what is appended. */
  lemma {:induction false} QuantRunStops(r: Rules, raw: seq<string>, q: seq<string>)
    requires Sound(r) && raw != [] && !(|raw| == 1 && raw[0] == "ud") && q != [] && Inert(r, q[0])
    ensures QuantRun(r, raw + q) == QuantRun(r, raw)
  {
    BareRunStops(r, raw, q);
    if raw[0] == "ud" {
      assert (raw + q)[1..] == raw[1..] + q;
      if raw[1] == "ud" {
        SecondUd(r, raw);
        SecondUd(r, raw + q);
      } else {
        BareRunStops(r, raw[1..], q);
        QuantRunStops(r, raw[1..], q);
      }
    }
  }

  lemma {:induction false} ShardRunStops(r: Rules, raw: seq<string>, q: seq<string>)
    requires raw != [] && q != [] && Inert(r, q[0])
    ensures ShardRun(r, raw + q) == ShardRun(r, raw)
  {
    if |raw| == 1 {
      assert (raw + q)[1] == q[0];
    } else if |raw| == 2 {
      assert (raw + q)[2] == q[0];
    }
  }

  /** One turn before an appended run is the turn it was. */
  lemma {:induction false} TurnStays(r: Rules, raw: seq<string>, q: seq<string>)
    requires Sound(r) && raw != [] && !(|raw| == 1 && raw[0] == "ud") && q != [] && Inert(r, q[0])
    ensures StepLength(r, raw + q) == StepLength(r, raw) && Head(r, raw + q) == Head(r, raw)
    ensures (raw + q)[StepLength(r, raw)..] == raw[StepLength(r, raw)..] + q
  {
    ShardRunStops(r, raw, q);
    QuantRunStops(r, raw, q);
  }

  /** The same tokens, but for a ud at the very end. */
  ghost predicate SameButUd(before: seq<string>, after: seq<string>) { after == before || after + ["ud"] == before }

  lemma {:induction false} SameAfterHead(head: seq<string>, before: seq<string>, after: seq<string>)
    requires SameButUd(before, after)
    ensures SameButUd(head + before, head + after)
  {
    assert head + after + ["ud"] == head + (after + ["ud"]);
  }

  /** Appending a quant run keeps every kept token, but for a ud at the very end. */
  lemma {:induction false} QuantRunKeepsTokens(r: Rules, raw: seq<string>, q: seq<string>)
    requires Sound(r) && q != [] && QuantRun(r, q) == |q|
    ensures SameButUd(KeptTokens(r, raw), KeptTokens(r, raw + q))
    decreases |raw|
  {
    RunsStart(r, q);
    RunStartsAreInert(r, q[0]);
    if raw == [] {
      assert raw + q == q;
      RunIsDropped(r, q);
    } else if |raw| == 1 && raw[0] == "ud" {
      UdTakesRun(r, raw, q);
    } else {
      var n := StepLength(r, raw);
      TurnStays(r, raw, q);
      ScanStep(r, raw);
      ScanStep(r, raw + q);
      QuantRunKeepsTokens(r, raw[n..], q);
      SameAfterHead(Head(r, raw), KeptTokens(r, raw[n..]), KeptTokens(r, raw[n..] + q));
    }
  }

  /** A run that is all there is leaves nothing kept. */
  lemma {:induction false} RunIsDropped(r: Rules, q: seq<string>)
    requires Sound(r) && q != [] && QuantRun(r, q) == |q| && Inert(r, q[0])
    ensures KeptTokens(r, q) == []
  {
    ScanStep(r, q);
    assert q[|q|..] == [];
    NothingKept(r);
  }

  lemma {:induction false} UdTakesRun(r: Rules, raw: seq<string>, q: seq<string>)
    requires Sound(r) && |raw| == 1 && raw[0] == "ud" && q != [] && QuantRun(r, q) == |q| && Inert(r, q[0])
    ensures SameButUd(KeptTokens(r, raw), KeptTokens(r, raw + q))
  {
    var all := raw + q;
    assert all[1..] == q && raw[1..] == [];
    RunStartsAreInert(r, "ud");
    NothingKept(r);
    UdIsNoRun(r, raw);
    ScanStep(r, raw);
    ScanStep(r, all);
    RunIsDropped(r, q);
    assert KeptTokens(r, raw) == ["ud"];
    if q[0] == "ud" {
      SecondUd(r, all);
      assert KeptTokens(r, all) == ["ud"];
    } else {
      assert QuantRun(r, q) == BareRun(r, q);
      assert all[|all|..] == [];
      assert KeptTokens(r, all) == [];
    }
  }
}
