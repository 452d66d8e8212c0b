/**
 * `pc_delta_features.py`: the PC of every `I` line, the deltas between consecutive PCs, and one
 * streaming pass over the deltas that keeps three bounded FIFOs (`last_k`, `win`, `ngram_buf`)
 * and an n-gram counter and emits a row of integer features once `K` deltas have been seen.
 * The script's constants `K = 8`, `WIN = 32`, `NGRAM = 2` are parameters here.
 */
module PcFeatures {
  import opened Wrappers
  import opened Text
  import opened Dicts

  /** Why collecting the PCs stops: an `I` line with no second token (`IndexError`), or a token
      `int(_, 16)` rejects (`ValueError`). Lines are numbered from 0 over the whole file. */
  datatype PcError = NoPcToken(line: nat) | BadPc(line: nat, token: string)

  /** The token of an `I` line with the tracer's `Ox` marker (letter O) spelled `0x`. */
  function FixMarker(addr: string): (r: string)
    ensures |r| == |addr|
    ensures |addr| >= 2 ==> r[2..] == addr[2..]
    ensures |r| >= 2 ==> r[..2] != "Ox"
  {
    if |addr| >= 2 && addr[..2] == "Ox" then "0x" + addr[2..] else addr
  }

  /** What line `no` contributes: nothing unless it starts with `I`; then the PC its second
      whitespace-separated token spells in base 16, or the error. */
  function PcOfLine(line: string, no: nat): (r: Option<Result<int, PcError>>)
    ensures r.None? <==> !StartsWith(line, "I")
  {
    if !StartsWith(line, "I") then None
    else
      var parts := Split(line);
      if |parts| < 2 then Some(Err(NoPcToken(no)))
      else
        var addr := FixMarker(Strip(parts[1]));
        match ParseInt(addr, 16)
        case Some(v) => Some(Ok(v))
        case None => Some(Err(BadPc(no, addr)))
  }

  /** The PCs of `lines[..i]`, or the first error among them. */
  function PcsUpTo(lines: seq<string>, i: nat): (r: Result<seq<int>, PcError>)
    requires i <= |lines|
    ensures r.Err? ==> r.error.line < i
  {
    if i == 0 then Ok([])
    else
      match PcsUpTo(lines, i - 1)
      case Err(e) => Err(e)
      case Ok(pcs) =>
        match PcOfLine(lines[i - 1], i - 1)
        case None => Ok(pcs)
        case Some(Err(e)) => Err(e)
        case Some(Ok(v)) => Ok(pcs + [v])
  }

  /** The number of `I` lines among `lines[..i]`. */
  function ICount(lines: seq<string>, i: nat): (c: nat)
    requires i <= |lines|
    ensures c <= i
  {
    if i == 0 then 0 else ICount(lines, i - 1) + (if StartsWith(lines[i - 1], "I") then 1 else 0)
  }

  /** The body of the loop for one line: `None` when it is not an `I` line. */
  method LinePc(line: string, i: nat) returns (r: Option<Result<int, PcError>>)
    ensures r == PcOfLine(line, i)
  {
    if !StartsWith(line, "I") {
      return None;
    }
    var parts := Split(line);
    if |parts| < 2 {
      return Some(Err(NoPcToken(i)));
    }
    var addr := Strip(parts[1]);
    if |addr| >= 2 && addr[..2] == "Ox" {
      addr := "0x" + addr[2..];
    }
    var v := ParseInt(addr, 16);
    if v.None? {
      return Some(Err(BadPc(i, addr)));
    }
    return Some(Ok(v.value));
  }

  /** The loop `for line in f: if line.startswith("I"): ... pcs.append(int(addr, 16))`. */
  method CollectPcs(lines: seq<string>) returns (r: Result<seq<int>, PcError>)
    ensures r == PcsUpTo(lines, |lines|)
  {
    var pcs := [];
    ghost var outcomes: seq<Option<Result<int, PcError>>> := [];
    for i := 0 to |lines|
      invariant |outcomes| == i && OutcomesOf(lines, outcomes)
      invariant Collect(outcomes) == Ok(pcs)
    {
      var stop;
      outcomes, pcs, stop := CollectLine(lines, i, outcomes, pcs);
      if stop.Some? {
        CollectedError(lines, outcomes);
        return Err(stop.value);
      }
    }
    CollectedLines(lines, outcomes);
    return Ok(pcs);
  }

  /** `outcomes` are the outcomes of the first lines, in order. */
  ghost predicate OutcomesOf(lines: seq<string>, outcomes: seq<Option<Result<int, PcError>>>) {
    |outcomes| <= |lines| && forall j {:trigger PcOfLine(lines[j], j)} :: 0 <= j < |outcomes| ==> outcomes[j] == PcOfLine(lines[j], j)
  }

  /** One iteration of that loop, on the next line. */
  method CollectLine(lines: seq<string>, i: nat, ghost outcomes: seq<Option<Result<int, PcError>>>, pcs: seq<int>)
      returns (ghost outcomes': seq<Option<Result<int, PcError>>>, pcs': seq<int>, stop: Option<PcError>)
    requires i == |outcomes| < |lines| && OutcomesOf(lines, outcomes) && Collect(outcomes) == Ok(pcs)
    ensures |outcomes'| == |outcomes| + 1 && OutcomesOf(lines, outcomes')
    ensures Collect(outcomes') == if stop.Some? then Err(stop.value) else Ok(pcs')
  {
    var pc := LinePc(lines[i], i);
    CollectSnoc(outcomes, pc);
    outcomes' := outcomes + [pc];
    pcs', stop := pcs, None;
    if pc.Some? {
      if pc.value.Err? {
        stop := Some(pc.value.error);
      } else {
        pcs' := pcs + [pc.value.value];
      }
    }
  }

  /** `PcsUpTo` over the lines' outcomes already computed. */
  function Collect(outcomes: seq<Option<Result<int, PcError>>>): Result<seq<int>, PcError> {
    if outcomes == [] then Ok([])
    else
      match Collect(outcomes[..|outcomes| - 1])
      case Err(e) => Err(e)
      case Ok(pcs) =>
        match outcomes[|outcomes| - 1]
        case None => Ok(pcs)
        case Some(Err(e)) => Err(e)
        case Some(Ok(v)) => Ok(pcs + [v])
  }

  lemma CollectSnoc(outcomes: seq<Option<Result<int, PcError>>>, p: Option<Result<int, PcError>>)
    ensures Collect(outcomes + [p]) ==
      match Collect(outcomes)
      case Err(e) => Err(e)
      case Ok(pcs) =>
        match p
        case None => Ok(pcs)
        case Some(Err(e)) => Err(e)
        case Some(Ok(v)) => Ok(pcs + [v])
  {
    assert (outcomes + [p])[..|outcomes|] == outcomes;
  }

  /** Collecting the outcomes of the first lines is `PcsUpTo` of that many lines. */
  lemma {:induction false} CollectedLines(lines: seq<string>, outcomes: seq<Option<Result<int, PcError>>>)
    requires OutcomesOf(lines, outcomes)
    ensures Collect(outcomes) == PcsUpTo(lines, |outcomes|)
  {
    if outcomes != [] {
      var init := outcomes[..|outcomes| - 1];
      OutcomesInit(lines, outcomes);
      CollectedLines(lines, init);
      CollectedLast(lines, outcomes);
    }
  }

  lemma OutcomesInit(lines: seq<string>, outcomes: seq<Option<Result<int, PcError>>>)
    requires outcomes != [] && OutcomesOf(lines, outcomes)
    ensures OutcomesOf(lines, outcomes[..|outcomes| - 1])
  {
    var init := outcomes[..|outcomes| - 1];
    forall j | 0 <= j < |init| ensures init[j] == PcOfLine(lines[j], j) {
      assert init[j] == outcomes[j];
    }
  }

  lemma CollectedLast(lines: seq<string>, outcomes: seq<Option<Result<int, PcError>>>)
    requires outcomes != [] && OutcomesOf(lines, outcomes)
    requires Collect(outcomes[..|outcomes| - 1]) == PcsUpTo(lines, |outcomes| - 1)
    ensures Collect(outcomes) == PcsUpTo(lines, |outcomes|)
  {
    var n := |outcomes|;
    assert outcomes[n - 1] == PcOfLine(lines[n - 1], n - 1);
  }

  /** A failed prefix of the outcomes is the result for the whole file. */
  lemma CollectedError(lines: seq<string>, outcomes: seq<Option<Result<int, PcError>>>)
    requires OutcomesOf(lines, outcomes)
    requires Collect(outcomes).Err?
    ensures PcsUpTo(lines, |lines|) == Collect(outcomes)
  {
    CollectedLines(lines, outcomes);
    ErrorSticks(lines, |outcomes|, |lines|);
  }

  /** Once a line has failed, the failure is the result for every longer prefix. */
  lemma ErrorSticks(lines: seq<string>, i: nat, k: nat)
    requires i <= k <= |lines| && PcsUpTo(lines, i).Err?
    ensures PcsUpTo(lines, k) == PcsUpTo(lines, i)
  {
    ErrorSteps(lines);
    Chain((j: nat) => if j <= |lines| then PcsUpTo(lines, j) else Ok([]), (j: nat) => PcsUpTo(lines, i), i, k);
  }

  /** Every line after a failure changes nothing. */
  lemma ErrorSteps(lines: seq<string>)
    ensures forall j :: 0 <= j < |lines| && PcsUpTo(lines, j).Err? ==> PcsUpTo(lines, j + 1) == PcsUpTo(lines, j)
  {
    forall j | 0 <= j < |lines| && PcsUpTo(lines, j).Err? {
      ErrorStep(lines, j + 1);
    }
  }

  /** Two chains that start equal, and that stay equal from each position to the next, are equal
      at every later position. */
  lemma {:induction false} Chain<T>(f: nat -> T, h: nat -> T, i: nat, k: nat)
    requires i <= k && f(i) == h(i)
    requires forall j :: i <= j < k && f(j) == h(j) ==> f(j + 1) == h(j + 1)
    ensures f(k) == h(k)
    decreases k
  {
    if i < k {
      Chain(f, h, i, k - 1);
    }
  }

  /** A line after a failure changes nothing. */
  lemma ErrorStep(lines: seq<string>, k: nat)
    requires 0 < k <= |lines| && PcsUpTo(lines, k - 1).Err?
    ensures PcsUpTo(lines, k) == PcsUpTo(lines, k - 1)
  {
  }

  /** Without an error, there is one PC per `I` line, and every line that is not an `I` line
      contributes nothing. */
  lemma {:induction false} PcsCount(lines: seq<string>, i: nat)
    requires i <= |lines| && PcsUpTo(lines, i).Ok?
    ensures |PcsUpTo(lines, i).value| == ICount(lines, i)
    decreases i
  {
    if i > 0 {
      PcsCountStep(lines, i);
      PcsCount(lines, i - 1);
    }
  }

  lemma PcsCountStep(lines: seq<string>, i: nat)
    requires 0 < i <= |lines| && PcsUpTo(lines, i).Ok?
    ensures PcsUpTo(lines, i - 1).Ok?
    ensures |PcsUpTo(lines, i).value| == |PcsUpTo(lines, i - 1).value| + if StartsWith(lines[i - 1], "I") then 1 else 0
    ensures ICount(lines, i) == ICount(lines, i - 1) + if StartsWith(lines[i - 1], "I") then 1 else 0
  {
  }

  /** Without an error, the `I` line `j` contributes the PC at position `ICount(lines, j)`: the
      value its second token spells in base 16 after the `Ox` rewrite. */
  lemma {:induction false} PcsAt(lines: seq<string>, i: nat, j: nat)
    requires i <= |lines| && j < i && PcsUpTo(lines, i).Ok? && StartsWith(lines[j], "I")
    ensures ICount(lines, j) < |PcsUpTo(lines, i).value|
    ensures PcOfLine(lines[j], j) == Some(Ok(PcsUpTo(lines, i).value[ICount(lines, j)]))
    decreases i
  {
    PcsCountStep(lines, i);
    PcsCount(lines, i - 1);
    PcsCount(lines, i);
    if j < i - 1 {
      PcsAt(lines, i - 1, j);
      assert PcsUpTo(lines, i).value[..|PcsUpTo(lines, i - 1).value|] == PcsUpTo(lines, i - 1).value;
    }
  }

  /** The tracer's instruction line splits into `I` and the marked hex token. */
  lemma TracerLineTokens(h: string)
    requires h != [] && AllDigits(h, 16)
    ensures StartsWith("I Ox" + h + "\n", "I")
    ensures Split("I Ox" + h + "\n") == ["I", "Ox" + h]
  {
    var w := "Ox" + h;
    var line := "I Ox" + h + "\n";
    DigitsNoSpace(h, 16);
    StartsWithPrefix(line, "I");
    assert line[..1] == "I";
    assert NoSpace(w) by {
      assert forall k :: 2 <= k < |w| ==> w[k] == h[k - 2];
    }
    assert line == Join(["I", w], " ") + "\n";
    SplitJoined(["I", w], "\n");
    assert Split("\n") == [];
  }

  /** The marked token reads back as `0x` followed by the digits. */
  lemma MarkedToken(h: string)
    requires h != [] && AllDigits(h, 16)
    ensures FixMarker(Strip("Ox" + h)) == "0x" + h
  {
    var w := "Ox" + h;
    DigitsNoSpace(h, 16);
    assert !IsSpace(w[|w| - 1]) by {
      assert w[|w| - 1] == h[|h| - 1];
    }
    StripTrimmed(w, []);
    assert w + [] == w;
    StartsWithPrefix(w, "Ox");
    assert w[..2] == "Ox";
    assert w[2..] == h;
  }

  /** The tracer's instruction line `I Ox<hex ip>` yields `ip`. */
  lemma TracerLine(ip: nat, no: nat)
    ensures PcOfLine("I Ox" + Hex(ip) + "\n", no) == Some(Ok(ip))
  {
    var h := Hex(ip);
    TracerLineTokens(h);
    MarkedToken(h);
    Parse0xHex(ip);
  }

  /** Every `deltas[i]` is `pcs[i+1] - pcs[i]`, and there is one fewer delta than PCs. */
  predicate IsDeltas(pcs: seq<int>, deltas: seq<int>)
    ensures IsDeltas(pcs, deltas) ==> |deltas| + 1 == |pcs| || (pcs == [] && deltas == [])
  {
    |deltas| == Max0(|pcs| - 1) && forall i :: 0 <= i < |deltas| ==> deltas[i] == pcs[i + 1] - pcs[i]
  }

  /** `for i in range(len(pcs) - 1): deltas.append(pcs[i+1] - pcs[i])`. */
  method ComputeDeltas(pcs: seq<int>) returns (deltas: seq<int>)
    ensures IsDeltas(pcs, deltas)
  {
    deltas := [];
    var i := 0;
    while i < |pcs| - 1
      invariant 0 <= i <= Max0(|pcs| - 1)
      invariant |deltas| == i && forall k :: 0 <= k < i ==> deltas[k] == pcs[k + 1] - pcs[k]
    {
      deltas := deltas + [pcs[i + 1] - pcs[i]];
      i := i + 1;
    }
  }

  function SumOf(s: seq<int>): int {
    if s == [] then 0 else SumOf(s[..|s| - 1]) + s[|s| - 1]
  }

  /** The deltas lose nothing: the first PC plus the first `i` deltas is the `i`-th PC. */
  lemma {:induction false} DeltasTelescope(pcs: seq<int>, deltas: seq<int>, i: nat)
    requires IsDeltas(pcs, deltas) && i < |pcs|
    ensures pcs[0] + SumOf(deltas[..i]) == pcs[i]
  {
    if i > 0 {
      DeltasTelescope(pcs, deltas, i - 1);
      assert deltas[..i][..i - 1] == deltas[..i - 1];
    }
  }

  /** The last `min(n, cap)` of the first `n` elements of `s`, oldest first: what a
      `deque(maxlen=cap)` holds after `s[0]`, ..., `s[n-1]` were appended. */
  function Window(s: seq<int>, n: nat, cap: nat): (w: seq<int>)
    requires n <= |s|
    ensures |w| == Min(n, cap)
  {
    s[n - Min(n, cap)..n]
  }

  /** `q.append(x)` on a `deque(maxlen=cap)`: a full deque drops its oldest element. */
  function Push(q: seq<int>, x: int, cap: nat): (r: seq<int>)
    requires |q| <= cap
    ensures |r| <= cap
  {
    if |q| == cap then (q + [x])[1..] else q + [x]
  }

  /** Appending the next element to the window gives the next window. */
  lemma PushWindow(s: seq<int>, n: nat, cap: nat)
    requires n < |s|
    ensures Push(Window(s, n, cap), s[n], cap) == Window(s, n + 1, cap)
  {
    var w := Window(s, n, cap);
    if n >= cap {
      assert (w + [s[n]])[1..] == s[n + 1 - cap..n + 1];
    } else {
      assert w + [s[n]] == s[..n + 1];
    }
  }

  /** The n-grams counted once the first `n` deltas have been seen: one per position `t` whose
      `ngram_buf` is full, the last `g` deltas up to `t`. */
  function Ngrams(s: seq<int>, n: nat, g: nat): (ns: seq<seq<int>>)
    requires n <= |s|
    ensures |ns| == Max0(n - Max0(g - 1))
  {
    if n == 0 then []
    else Ngrams(s, n - 1, g) + (if n >= g then [s[n - g..n]] else [])
  }

  /** `ngram_counts` once the first `n` deltas have been seen: `ngram_counts[tuple(ngram_buf)] += 1`
      at every position whose buffer is full. */
  function NgramCounts(s: seq<int>, n: nat, g: nat): (r: ODict<seq<int>, nat>)
    requires n <= |s|
  {
    if n == 0 then Empty()
    else
      var prev := NgramCounts(s, n - 1, g);
      if n >= g then Put(prev, s[n - g..n], Get(prev, s[n - g..n]) + 1) else prev
  }

  lemma {:induction false} NgramCountsValid(s: seq<int>, n: nat, g: nat)
    requires n <= |s|
    ensures NgramCounts(s, n, g).Valid()
  {
    if n > 0 {
      NgramCountsValid(s, n - 1, g);
      if n >= g {
        var prev := NgramCounts(s, n - 1, g);
        PutValid(prev, s[n - g..n], Get(prev, s[n - g..n]) + 1);
      }
    }
  }

  /** `Counter` increments in order build the tally of what was counted. */
  lemma TallyStep<T(!new)>(s: seq<T>, x: T)
    ensures TallyOf(s + [x]) == Increment(TallyOf(s), x)
  {
    assert (s + [x])[..|s|] == s;
  }

  /** The counter is the tally of the n-grams seen so far. */
  lemma NgramCountsTally(s: seq<int>, n: nat, g: nat)
    requires n <= |s|
    ensures NgramCounts(s, n, g) == TallyOf(Ngrams(s, n, g))
  {
    TallyBase(s, g);
    TallySteps(s, g);
    Chain((j: nat) => if j <= |s| then NgramCounts(s, j, g) else Empty(),
          (j: nat) => if j <= |s| then TallyOf(Ngrams(s, j, g)) else Empty(), 0, n);
  }

  /** Before any delta both are empty. */
  lemma TallyBase(s: seq<int>, g: nat)
    ensures NgramCounts(s, 0, g) == TallyOf(Ngrams(s, 0, g))
  {
    assert Ngrams(s, 0, g) == [];
  }

  /** Each delta keeps the counter equal to the tally. */
  lemma TallySteps(s: seq<int>, g: nat)
    ensures forall j :: 0 <= j < |s| && NgramCounts(s, j, g) == TallyOf(Ngrams(s, j, g)) ==>
      NgramCounts(s, j + 1, g) == TallyOf(Ngrams(s, j + 1, g))
  {
    forall j | 0 <= j < |s| && NgramCounts(s, j, g) == TallyOf(Ngrams(s, j, g)) {
      TallyAdvance(s, j, g);
    }
  }

  /** Delta `j` raises the counter and the tally alike. */
  lemma TallyAdvance(s: seq<int>, j: nat, g: nat)
    requires j < |s| && NgramCounts(s, j, g) == TallyOf(Ngrams(s, j, g))
    ensures NgramCounts(s, j + 1, g) == TallyOf(Ngrams(s, j + 1, g))
  {
    NgramStep(s, j, g);
    TallyCounted(Ngrams(s, j, g), NgramAt(s, j, g), Ngrams(s, j + 1, g));
    CountedUnique(NgramCounts(s, j, g), Ngrams(s, j, g), NgramAt(s, j, g), Ngrams(s, j + 1, g),
                  NgramCounts(s, j + 1, g), TallyOf(Ngrams(s, j + 1, g)));
  }

  /** The n-gram that delta `j` completes, once its buffer is full. */
  function NgramAt(s: seq<int>, j: nat, g: nat): (o: Option<seq<int>>)
    ensures o.Some? <==> j < |s| && j + 1 >= g
    ensures o.Some? ==> o.value == s[j + 1 - g..j + 1]
  {
    if j < |s| && j + 1 >= g then Some(s[j + 1 - g..j + 1]) else None
  }

  /** The effect of delta `j` on the counter and on the n-grams seen. */
  lemma NgramStep(s: seq<int>, j: nat, g: nat)
    requires j < |s|
    ensures Counted(NgramCounts(s, j, g), Ngrams(s, j, g), NgramAt(s, j, g), NgramCounts(s, j + 1, g), Ngrams(s, j + 1, g))
  {
    if j + 1 >= g {
      var w := s[j + 1 - g..j + 1];
      assert NgramAt(s, j, g) == Some(w);
      assert Ngrams(s, j + 1, g) == Ngrams(s, j, g) + [w];
      assert NgramCounts(s, j + 1, g) == Put(NgramCounts(s, j, g), w, Get(NgramCounts(s, j, g), w) + 1);
    } else {
      assert NgramAt(s, j, g) == None;
      assert Ngrams(s, j + 1, g) == Ngrams(s, j, g);
      assert NgramCounts(s, j + 1, g) == NgramCounts(s, j, g);
    }
  }

  /** `next` and `more` follow `prev` and `ns` by counting `o`, when there is one. */
  ghost predicate Counted<T(!new)>(prev: ODict<T, nat>, ns: seq<T>, o: Option<T>, next: ODict<T, nat>, more: seq<T>) {
    match o
    case None => next == prev && more == ns
    case Some(w) => more == ns + [w] && next == Put(prev, w, Get(prev, w) + 1)
  }

  /** Counting is deterministic: the same start and the same element give the same counter. */
  lemma CountedUnique<T(!new)>(prev: ODict<T, nat>, ns: seq<T>, o: Option<T>, more: seq<T>, next: ODict<T, nat>, next': ODict<T, nat>)
    requires Counted(prev, ns, o, next, more) && Counted(prev, ns, o, next', more)
    ensures next == next'
  {
  }

  /** `Counter` counts what it is given one element after another. */
  lemma TallyCounted<T(!new)>(ns: seq<T>, o: Option<T>, more: seq<T>)
    requires o.None? ==> more == ns
    requires o.Some? ==> more == ns + [o.value]
    ensures Counted(TallyOf(ns), ns, o, TallyOf(more), more)
  {
    if o.Some? {
      TallyPut(ns, o.value, more);
    }
  }

  /** Storing the raised count of one more element continues the tally. */
  lemma TallyPut<T(!new)>(ns: seq<T>, w: T, more: seq<T>)
    requires more == ns + [w]
    ensures TallyOf(more) == Put(TallyOf(ns), w, Get(TallyOf(ns), w) + 1)
  {
    TallyStep(ns, w);
    IncrementIsPut(TallyOf(ns), w);
  }

  /** The length of the run of values equal to the last one at the end of `s`; 1 for an empty `s`. */
  function TrailingRun(s: seq<int>): (r: nat)
    ensures 1 <= r && (s != [] ==> r <= |s|)
    ensures s != [] ==> forall k :: |s| - r <= k < |s| ==> s[k] == s[|s| - 1]
    ensures s != [] && r < |s| ==> s[|s| - r - 1] != s[|s| - 1]
  {
    if |s| <= 1 then 1
    else if s[|s| - 2] == s[|s| - 1] then
      var r := TrailingRun(s[..|s| - 1]);
      1 + r
    else 1
  }

  /** The `runlen` loop over `reversed(last_k)`: every later value is compared with the first one
      seen, the most recent delta. */
  method RunLength(lk: seq<int>) returns (runlen: nat)
    ensures runlen == TrailingRun(lk)
  {
    runlen := 1;
    var prev: Option<int> := None;
    var k := |lk|;
    while k > 0
      invariant 0 <= k <= |lk|
      invariant prev == if k == |lk| then None else Some(lk[|lk| - 1])
      invariant 1 <= runlen && k + runlen == |lk| + (if k == |lk| then 1 else 0)
      invariant k < |lk| ==> TrailingRun(lk) >= runlen
      invariant forall j :: k <= j < |lk| ==> lk[j] == lk[|lk| - 1]
      decreases k
    {
      var val := lk[k - 1];
      if prev.None? {
        prev := Some(val);
        k := k - 1;
        continue;
      }
      if val == prev.value {
        runlen := runlen + 1;
      } else {
        break;
      }
      k := k - 1;
    }
  }

  /** One feature row. `target` is `None` where the script writes `''`. */
  datatype PcRow = PcRow(pc: int, pcNext: int, lastK: seq<int>, runlen: nat, topCounts: seq<nat>, target: Option<int>)

  /** `[c[i] if i < len(c) else 0 for i in range(width)]`, as the `delta_i` and `ngram_top` loops do. */
  function Padded(c: seq<int>, width: nat): (p: seq<int>)
    ensures |p| == width
    ensures forall i :: 0 <= i < width ==> p[i] == if i < |c| then c[i] else 0
  {
    seq(width, i requires 0 <= i < width => if i < |c| then c[i] else 0)
  }

  /** The row emitted at position `t`, from the deltas alone. */
  function RowAt(pcs: seq<int>, deltas: seq<int>, t: nat, k: nat, g: nat): (r: PcRow)
    requires IsDeltas(pcs, deltas) && t < |deltas|
    ensures r.pc == pcs[t + 1] && |r.lastK| == Min(t + 1, k) && |r.topCounts| <= 3
    ensures r.target.Some? <==> t + 2 < |pcs|
    ensures r.target.Some? ==> r.target.value == pcs[t + 2] - pcs[t + 1] && r.pcNext == pcs[t + 2]
  {
    var counts := NgramCounts(deltas, t + 1, g);
    NgramCountsValid(deltas, t + 1, g);
    PcRow(
      pcs[t + 1],
      if t + 2 < |pcs| then pcs[t + 2] else 0,
      Window(deltas, t + 1, k),
      TrailingRun(Window(deltas, t + 1, k)),
      TopCounts(Values(counts), 3),
      if t + 1 < |deltas| then Some(deltas[t + 1]) else None)
  }

  /** The `ngram_top{i+1}_cnt` cells of a row. */
  function TopColumns(r: PcRow): seq<int> {
    Padded(r.topCounts, 3)
  }

  /** The `delta_i` cells of a row: `lk[-K + i]`, the whole deque once it holds `K` deltas. */
  method LastKColumns(lk: seq<int>, k: nat) returns (cols: seq<int>)
    ensures |cols| == k
    ensures |lk| == k ==> cols == lk
    ensures forall i :: 0 <= i < k ==> cols[i] == if |lk| == k then lk[i] else if i < |lk| then lk[i] else 0
  {
    cols := [];
    var i := 0;
    while i < k
      invariant 0 <= i <= k && |cols| == i
      invariant forall j :: 0 <= j < i ==> cols[j] == if |lk| == k then lk[j] else if j < |lk| then lk[j] else 0
    {
      cols := cols + [if |lk| == k then lk[|lk| - k + i] else if i < |lk| then lk[i] else 0];
      i := i + 1;
    }
  }

  /** Positions `t` that emit a row. */
  function FirstRow(k: nat): nat { Max0(k - 1) }

  /** The start of one round of the streaming loop: push `deltas[t]` into the three deques and
      count the n-gram once `ngram_buf` is full. */
  method Advance(deltas: seq<int>, t: nat, k: nat, win: nat, g: nat,
                 lastK: seq<int>, window: seq<int>, ngramBuf: seq<int>, counts: ODict<seq<int>, nat>)
    returns (lastK': seq<int>, window': seq<int>, ngramBuf': seq<int>, counts': ODict<seq<int>, nat>)
    requires t < |deltas|
    requires lastK == Window(deltas, t, k) && window == Window(deltas, t, win) && ngramBuf == Window(deltas, t, g)
    requires counts == NgramCounts(deltas, t, g)
    ensures lastK' == Window(deltas, t + 1, k) && window' == Window(deltas, t + 1, win)
    ensures ngramBuf' == Window(deltas, t + 1, g)
    ensures counts' == NgramCounts(deltas, t + 1, g)
  {
    var d := deltas[t];
    assert deltas[..t + 1] == deltas[..t] + [d];
    PushWindow(deltas, t, k);
    PushWindow(deltas, t, win);
    PushWindow(deltas, t, g);
    lastK' := Push(lastK, d, k);
    window' := Push(window, d, win);
    ngramBuf' := Push(ngramBuf, d, g);
    counts' := counts;
    if |ngramBuf'| == g {
      assert ngramBuf' == deltas[t + 1 - g..t + 1];
      counts' := Put(counts, ngramBuf', Get(counts, ngramBuf') + 1);
    }
  }

  /** The row for position `t`, once `last_k` is full. */
  method EmitRow(pcs: seq<int>, deltas: seq<int>, t: nat, k: nat, g: nat, lastK: seq<int>, counts: ODict<seq<int>, nat>)
    returns (row: PcRow)
    requires IsDeltas(pcs, deltas) && t < |deltas|
    requires lastK == Window(deltas, t + 1, k) && |lastK| == k && counts == NgramCounts(deltas, t + 1, g)
    ensures row == RowAt(pcs, deltas, t, k, g)
  {
    var cols := LastKColumns(lastK, k);
    var runlen := RunLength(lastK);
    NgramCountsValid(deltas, t + 1, g);
    var top := TopCounts(Values(counts), 3);
    var target := if t + 1 < |deltas| then Some(deltas[t + 1]) else None;
    var pcNext := if t + 2 < |pcs| then pcs[t + 2] else 0;
    row := PcRow(pcs[t + 1], pcNext, cols, runlen, top, target);
  }

  /** The rows emitted at positions before `t`: one per position from `FirstRow(k)` on. */
  function RowsBefore(pcs: seq<int>, deltas: seq<int>, k: nat, g: nat, t: nat): (rows: seq<PcRow>)
    requires IsDeltas(pcs, deltas) && t <= |deltas|
    ensures |rows| == Max0(t - FirstRow(k))
    ensures forall r :: 0 <= r < |rows| ==> rows[r] == RowAt(pcs, deltas, r + FirstRow(k), k, g)
  {
    seq(Max0(t - FirstRow(k)), r requires 0 <= r < Max0(t - FirstRow(k)) => RowAt(pcs, deltas, r + FirstRow(k), k, g))
  }

  /** Position `t` adds its row once `last_k` is full, and nothing before that. */
  lemma RowsBeforeNext(pcs: seq<int>, deltas: seq<int>, k: nat, g: nat, t: nat)
    requires IsDeltas(pcs, deltas) && t < |deltas|
    ensures RowsBefore(pcs, deltas, k, g, t + 1) ==
      RowsBefore(pcs, deltas, k, g, t) + (if t >= FirstRow(k) then [RowAt(pcs, deltas, t, k, g)] else [])
  {
    if t >= FirstRow(k) {
      RowsBeforeGrow(pcs, deltas, k, g, t);
    }
  }

  /** From `FirstRow(k)` on, position `t` adds its own row. */
  lemma RowsBeforeGrow(pcs: seq<int>, deltas: seq<int>, k: nat, g: nat, t: nat)
    requires IsDeltas(pcs, deltas) && FirstRow(k) <= t < |deltas|
    ensures RowsBefore(pcs, deltas, k, g, t + 1) == RowsBefore(pcs, deltas, k, g, t) + [RowAt(pcs, deltas, t, k, g)]
  {
    var prev := RowsBefore(pcs, deltas, k, g, t);
    var next := RowsBefore(pcs, deltas, k, g, t + 1);
    assert next[|prev|] == RowAt(pcs, deltas, t, k, g);
    Extended(prev, next, RowAt(pcs, deltas, t, k, g));
  }

  /** A sequence that agrees with `prev` and has `x` after it is `prev + [x]`. */
  lemma Extended<T>(prev: seq<T>, next: seq<T>, x: T)
    requires |next| == |prev| + 1 && next[|prev|] == x
    requires forall r :: 0 <= r < |prev| ==> next[r] == prev[r]
    ensures next == prev + [x]
  {
  }

  /** What the streaming loop keeps between rounds, once the deltas before `t` are in. */
  ghost predicate Streamed(pcs: seq<int>, deltas: seq<int>, t: nat, k: nat, win: nat, g: nat,
                           lastK: seq<int>, window: seq<int>, ngramBuf: seq<int>, counts: ODict<seq<int>, nat>, rows: seq<PcRow>)
    requires IsDeltas(pcs, deltas) && t <= |deltas|
  {
    && lastK == Window(deltas, t, k) && window == Window(deltas, t, win) && ngramBuf == Window(deltas, t, g)
    && counts == NgramCounts(deltas, t, g)
    && rows == RowsBefore(pcs, deltas, k, g, t)
  }

  /** One round of the streaming loop, for the delta at `t`. */
  method StreamStep(pcs: seq<int>, deltas: seq<int>, t: nat, k: nat, win: nat, g: nat,
                    lastK: seq<int>, window: seq<int>, ngramBuf: seq<int>, counts: ODict<seq<int>, nat>, rows: seq<PcRow>)
    returns (lastK': seq<int>, window': seq<int>, ngramBuf': seq<int>, counts': ODict<seq<int>, nat>, rows': seq<PcRow>)
    requires IsDeltas(pcs, deltas) && t < |deltas|
    requires Streamed(pcs, deltas, t, k, win, g, lastK, window, ngramBuf, counts, rows)
    ensures Streamed(pcs, deltas, t + 1, k, win, g, lastK', window', ngramBuf', counts', rows')
  {
    lastK', window', ngramBuf', counts' := Advance(deltas, t, k, win, g, lastK, window, ngramBuf, counts);
    RowsBeforeNext(pcs, deltas, k, g, t);
    rows' := rows;
    if |lastK'| < k {
      return;
    }
    var row := EmitRow(pcs, deltas, t, k, g, lastK', counts');
    rows' := rows + [row];
  }

  /** The streaming loop `for t, d in enumerate(deltas)`: pushes `d` into the three deques, counts
      the full n-gram, and from position `K - 1` on emits the row for `t`. */
  method StreamRows(pcs: seq<int>, deltas: seq<int>, k: nat, win: nat, g: nat) returns (rows: seq<PcRow>)
    requires IsDeltas(pcs, deltas)
    ensures |rows| == Max0(|deltas| - FirstRow(k))
    ensures forall r :: 0 <= r < |rows| ==> rows[r] == RowAt(pcs, deltas, r + FirstRow(k), k, g)
  {
    var lastK: seq<int> := [];
    var window: seq<int> := [];
    var ngramBuf: seq<int> := [];
    var ngramCounts := Empty<seq<int>, nat>();
    rows := [];
    for t := 0 to |deltas|
      invariant Streamed(pcs, deltas, t, k, win, g, lastK, window, ngramBuf, ngramCounts, rows)
    {
      lastK, window, ngramBuf, ngramCounts, rows := StreamStep(pcs, deltas, t, k, win, g, lastK, window, ngramBuf, ngramCounts, rows);
    }
  }

  /** The whole script on the lines of a trace file. */
  method PcDeltaFeatures(lines: seq<string>, k: nat, win: nat, g: nat) returns (r: Result<seq<PcRow>, PcError>)
    ensures r.Err? <==> PcsUpTo(lines, |lines|).Err?
    ensures r.Err? ==> r.error == PcsUpTo(lines, |lines|).error
    ensures r.Ok? ==> exists deltas ::
      && IsDeltas(PcsUpTo(lines, |lines|).value, deltas)
      && |r.value| == Max0(|deltas| - FirstRow(k))
      && forall i :: 0 <= i < |r.value| ==> r.value[i] == RowAt(PcsUpTo(lines, |lines|).value, deltas, i + FirstRow(k), k, g)
  {
    var pcs := CollectPcs(lines);
    if pcs.Err? {
      return Err(pcs.error);
    }
    var deltas := ComputeDeltas(pcs.value);
    var rows := StreamRows(pcs.value, deltas, k, win, g);
    return Ok(rows);
  }

  /** Each deque holds the last `min(t + 1, cap)` deltas once the delta at `t` is in. */
  lemma DequeContents(deltas: seq<int>, t: nat, cap: nat)
    requires t < |deltas|
    ensures var w := Window(deltas, t + 1, cap);
      && |w| == Min(t + 1, cap)
      && forall i :: 0 <= i < |w| ==> w[i] == deltas[t + 1 - |w| + i]
  {
  }

  /** A row's `delta_i` is `deltas[t - K + 1 + i]`, most recent last. */
  lemma RowDeltas(pcs: seq<int>, deltas: seq<int>, t: nat, k: nat, g: nat, i: nat)
    requires IsDeltas(pcs, deltas) && FirstRow(k) <= t < |deltas| && i < k
    ensures |RowAt(pcs, deltas, t, k, g).lastK| == k
    ensures RowAt(pcs, deltas, t, k, g).lastK[i] == deltas[t - k + 1 + i]
  {
  }

  /** `1 <= runlen <= K` (for `K >= 1`); that the run is maximal is `TrailingRun`'s promise. */
  lemma RunBounds(pcs: seq<int>, deltas: seq<int>, t: nat, k: nat, g: nat)
    requires IsDeltas(pcs, deltas) && FirstRow(k) <= t < |deltas| && k >= 1
    ensures 1 <= RowAt(pcs, deltas, t, k, g).runlen <= k
  {
  }

  /** The label is the step to the next PC: `target_delta == pc_next - pc` when there is a next delta;
      otherwise `pc_next` is 0 and there is no target. */
  lemma TargetIsNextStep(pcs: seq<int>, deltas: seq<int>, t: nat, k: nat, g: nat)
    requires IsDeltas(pcs, deltas) && t < |deltas|
    ensures var row := RowAt(pcs, deltas, t, k, g);
      && (row.target.Some? <==> t + 2 < |pcs|)
      && (row.target.Some? ==> row.target.value == row.pcNext - row.pc)
      && (row.target.None? ==> row.pcNext == 0)
  {
  }

  /** The n-gram counts at `t` add up to the number of full buffers so far,
      `max(0, t + 1 - NGRAM + 1)` for `NGRAM >= 1`, and count each n-gram with its multiplicity. */
  lemma NgramTotals(deltas: seq<int>, t: nat, g: nat)
    requires t < |deltas|
    ensures NgramCounts(deltas, t + 1, g).Valid()
    ensures var counts := NgramCounts(deltas, t + 1, g);
      && Total(counts) == Max0(t + 1 - Max0(g - 1))
      && forall w :: Get(counts, w) == multiset(Ngrams(deltas, t + 1, g))[w]
  {
    NgramCountsTally(deltas, t + 1, g);
  }

  /** The n-gram counted at position `t >= NGRAM - 1` is the last `NGRAM` deltas up to `t`,
      and it is the `(t - (NGRAM - 1))`-th one counted. */
  lemma {:induction false} NgramsAt(s: seq<int>, n: nat, g: nat, t: nat)
    requires n <= |s| && Max0(g - 1) <= t < n
    ensures t - Max0(g - 1) < |Ngrams(s, n, g)|
    ensures Ngrams(s, n, g)[t - Max0(g - 1)] == s[t + 1 - g..t + 1]
    decreases n
  {
    var prev := Ngrams(s, n - 1, g);
    assert Ngrams(s, n, g) == prev + (if n >= g then [s[n - g..n]] else []);
    if t + 1 < n {
      NgramsAt(s, n - 1, g, t);
    }
  }

  /** The top counts are in non-increasing order, at most three, padded with zeros to three
      columns, and no count left out exceeds a reported one. */
  lemma TopCountsFacts(r: PcRow, pcs: seq<int>, deltas: seq<int>, t: nat, k: nat, g: nat)
    requires IsDeltas(pcs, deltas) && t < |deltas| && r == RowAt(pcs, deltas, t, k, g)
    ensures |r.topCounts| <= 3 && NonIncreasing(r.topCounts)
    ensures NgramCounts(deltas, t + 1, g).Valid()
    ensures var vals := Values(NgramCounts(deltas, t + 1, g));
      && |r.topCounts| == Min(3, |vals|)
      && multiset(r.topCounts) <= multiset(vals)
      && forall v, a :: v in multiset(vals) - multiset(r.topCounts) && 0 <= a < |r.topCounts| ==> v <= r.topCounts[a]
    ensures forall i :: |r.topCounts| <= i < 3 ==> TopColumns(r)[i] == 0
  {
    NgramCountsValid(deltas, t + 1, g);
    TopCountsAreLargest(Values(NgramCounts(deltas, t + 1, g)), 3);
  }
}
