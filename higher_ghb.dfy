/**
 * `ghb2_pipeline2.py`: groups the rows of a lower GHB table into disjoint windows of `n` rows and
 * summarises each window: per delta column the comma-joined pattern, the most frequent delta and
 * the number of stride (sign) changes; over the window the number of memory-segment transitions,
 * the read and write counts and the dominant contiguous subsequence of access types.
 */
module HigherGhb {
  import opened Wrappers
  import opened Text
  import opened Dicts

  /** The number of positions `i >= 1` where `s[i]` differs from `s[i - 1]`. */
  function Changes<T(==)>(s: seq<T>): (c: nat)
    ensures c <= Max0(|s| - 1)
  {
    if |s| <= 1 then 0 else Changes(s[..|s| - 1]) + (if s[|s| - 1] != s[|s| - 2] then 1 else 0)
  }

  /** No change at all exactly when every element equals the first. */
  lemma {:induction false} ChangesZeroIff<T>(s: seq<T>)
    ensures Changes(s) == 0 <==> forall i :: 0 <= i < |s| ==> s[i] == s[0]
  {
    if |s| > 1 {
      var init := s[..|s| - 1];
      ChangesZeroIff(init);
      assert forall i :: 0 <= i < |init| ==> init[i] == s[i];
    }
  }

  // ----- Segment transitions -----

  datatype Segment = Stack | Code | Other

  /** `map_segment`: by the prefix of the address text. */
  function SegmentOf(addr: string): (seg: Segment)
    ensures seg == Stack ==> |addr| >= 3 && addr[..3] == "0x7"
    ensures seg == Code ==> |addr| >= 3 && addr[..3] == "0x5"
    ensures seg == Other ==> !(|addr| >= 3 && addr[..3] in {"0x7", "0x5"})
  {
    StartsWithPrefix(addr, "0x7");
    StartsWithPrefix(addr, "0x5");
    if StartsWith(addr, "0x7") then Stack
    else if StartsWith(addr, "0x5") then Code
    else Other
  }

  function Segments(addrs: seq<string>): (segs: seq<Segment>)
    ensures |segs| == |addrs| && forall i :: 0 <= i < |addrs| ==> segs[i] == SegmentOf(addrs[i])
  {
    seq(|addrs|, i requires 0 <= i < |addrs| => SegmentOf(addrs[i]))
  }

  /** `count_segment_transitions`: the number of neighbours in different segments. */
  function SegmentTransitions(addrs: seq<string>): (c: nat)
    ensures c <= Max0(|addrs| - 1)
  {
    Changes(Segments(addrs))
  }

  /** The count is zero exactly when every address of the window lies in one segment. */
  lemma SegmentTransitionsZeroIff(addrs: seq<string>)
    ensures SegmentTransitions(addrs) == 0 <==> forall i :: 0 <= i < |addrs| ==> SegmentOf(addrs[i]) == SegmentOf(addrs[0])
  {
    ChangesZeroIff(Segments(addrs));
  }

  // ----- Delta metrics -----

  /** A delta cell of the lower table: `Null` (NaN after `read_csv`), or a value with the text
      `str(x)` gives for it and its integer value `int(float(x))`. */
  datatype DeltaCell = Null | Present(text: string, value: int)

  /** `delta_series.dropna().astype(float).astype(int).tolist()`. */
  function ValidDeltas(cells: seq<DeltaCell>): (vs: seq<int>)
    ensures |vs| <= |cells|
  {
    if cells == [] then []
    else
      var init := ValidDeltas(cells[..|cells| - 1]);
      match cells[|cells| - 1]
      case Null => init
      case Present(_, v) => init + [v]
  }

  /** `np.sign`. */
  function Sign(x: int): int {
    if x > 0 then 1 else if x < 0 then -1 else 0
  }

  /** The signs of the non-zero values among `s[..i]`, in order. */
  function NonZeroSigns(s: seq<int>, i: nat): (z: seq<int>)
    requires i <= |s|
    ensures |z| <= i
    ensures forall k :: 0 <= k < |z| ==> z[k] == 1 || z[k] == -1
  {
    if i == 0 then [] else NonZeroSigns(s, i - 1) + (if s[i - 1] != 0 then [Sign(s[i - 1])] else [])
  }

  /** The number of stride changes: sign flips between consecutive non-zero deltas, zeros being
      skipped. */
  function StrideChanges(s: seq<int>): nat {
    Changes(NonZeroSigns(s, |s|))
  }

  /** What the stride loop keeps once it has looked at `valid[..i]`. */
  ghost predicate StrideSoFar(valid: seq<int>, i: nat, previousSign: int, strideChanges: nat)
    requires i <= |valid|
  {
    var z := NonZeroSigns(valid, i);
    previousSign == (if z == [] then 0 else z[|z| - 1]) && strideChanges == Changes(z)
  }

  /** One more element: a change is exactly a flip against the last element. */
  lemma ChangesSnoc(z: seq<int>, x: int)
    ensures Changes(z + [x]) == Changes(z) + (if z != [] && x != z[|z| - 1] then 1 else 0)
    ensures (z + [x])[|z|] == x
  {
    var w := z + [x];
    assert w[..|w| - 1] == z;
    if z != [] {
      assert w[|w| - 1] == x && w[|w| - 2] == z[|z| - 1];
    }
  }

  /** One round of the stride loop, at `valid[i]`. */
  method StrideStep(valid: seq<int>, i: nat, previousSign: int, strideChanges: nat) returns (previousSign': int, strideChanges': nat)
    requires i < |valid| && StrideSoFar(valid, i, previousSign, strideChanges)
    ensures StrideSoFar(valid, i + 1, previousSign', strideChanges')
  {
    var sign := Sign(valid[i]);
    ghost var z := NonZeroSigns(valid, i);
    previousSign', strideChanges' := previousSign, strideChanges;
    if sign != 0 && previousSign != 0 && sign != previousSign {
      strideChanges' := strideChanges + 1;
    }
    if sign != 0 {
      previousSign' := sign;
      assert NonZeroSigns(valid, i + 1) == z + [sign];
      ChangesSnoc(z, sign);
    } else {
      assert NonZeroSigns(valid, i + 1) == z + [];
      assert z + [] == z;
    }
  }

  /** The stride loop over `np.sign(valid_deltas)`: `previous_sign` is the sign of the last non-zero
      delta seen, or 0 before the first one. */
  method CountStrideChanges(valid: seq<int>) returns (strideChanges: nat)
    ensures strideChanges == StrideChanges(valid)
  {
    strideChanges := 0;
    if |valid| > 1 {
      var previousSign := 0;
      for i := 0 to |valid|
        invariant StrideSoFar(valid, i, previousSign, strideChanges)
      {
        previousSign, strideChanges := StrideStep(valid, i, previousSign, strideChanges);
      }
    } else {
      assert NonZeroSigns(valid, |valid|) == [] || |NonZeroSigns(valid, |valid|)| == 1;
    }
  }

  /** At most one change fewer than there are non-zero deltas; none with at most one valid delta. */
  lemma StrideChangesBound(s: seq<int>)
    ensures StrideChanges(s) <= Max0(|NonZeroSigns(s, |s|)| - 1)
    ensures |s| <= 1 ==> StrideChanges(s) == 0
  {
  }

  /** No stride change exactly when all non-zero deltas have the same sign. */
  lemma StrideChangesZeroIff(s: seq<int>)
    ensures StrideChanges(s) == 0 <==>
      forall a, b :: 0 <= a < |NonZeroSigns(s, |s|)| && 0 <= b < |NonZeroSigns(s, |s|)| ==>
        NonZeroSigns(s, |s|)[a] == NonZeroSigns(s, |s|)[b]
  {
    var z := NonZeroSigns(s, |s|);
    assert StrideChanges(s) == Changes(z);
    ChangesZeroIff(z);
  }

  /** `calculate_delta_metrics` without the mean: `(None, 0)` when no delta is valid; otherwise the
      most frequent valid delta (first seen among equals) and the stride changes. */
  function DeltaMetrics(cells: seq<DeltaCell>): (r: (Option<int>, nat))
    ensures r.0.None? <==> ValidDeltas(cells) == []
    ensures r.0.Some? ==> r.0.value in ValidDeltas(cells)
    ensures r.1 <= Max0(|ValidDeltas(cells)| - 1)
  {
    var valid := ValidDeltas(cells);
    if valid == [] then (None, 0)
    else
      var changes := if |valid| > 1 then StrideChanges(valid) else 0;
      StrideChangesBound(valid);
      assert changes <= |valid| - 1;
      (Some(MostCommon(valid)), changes)
  }

  method CalculateDeltaMetrics(cells: seq<DeltaCell>) returns (mostFrequent: Option<int>, strideChanges: nat)
    ensures (mostFrequent, strideChanges) == DeltaMetrics(cells)
  {
    var valid := ValidDeltas(cells);
    if valid == [] {
      return None, 0;
    }
    mostFrequent := Some(MostCommon(valid));
    strideChanges := CountStrideChanges(valid);
  }

  /** The metrics of a column: nothing valid gives `(None, 0)`, and there is at most one stride
      change fewer than there are valid deltas. */
  lemma DeltaMetricsEmpty(cells: seq<DeltaCell>)
    ensures DeltaMetrics(cells).0.None? <==> ValidDeltas(cells) == []
    ensures DeltaMetrics(cells).0.None? ==> DeltaMetrics(cells).1 == 0
    ensures DeltaMetrics(cells).1 <= Max0(|ValidDeltas(cells)| - 1)
  {
    var valid := ValidDeltas(cells);
    if |valid| > 1 {
      StrideChangesBound(valid);
    }
  }

  /** When some delta is valid, the reported one is valid, occurs at least as often as any other,
      and comes first among those as frequent. */
  lemma DeltaMetricsMostFrequent(cells: seq<DeltaCell>)
    requires ValidDeltas(cells) != []
    ensures var valid := ValidDeltas(cells); var mf := DeltaMetrics(cells).0;
      && mf.Some? && mf.value in valid
      && (forall y :: y in valid ==> multiset(valid)[y] <= multiset(valid)[mf.value])
      && exists i :: 0 <= i < |valid| && valid[i] == mf.value &&
           forall j :: 0 <= j < i ==> multiset(valid)[valid[j]] < multiset(valid)[mf.value]
  {
    var valid := ValidDeltas(cells);
    assert DeltaMetrics(cells).0 == Some(MostCommon(valid));
  }

  // ----- Dominant type subsequence -----

  /** The first `k` comma-joined windows of length `len` of `types`, left to right. */
  function WindowsFrom(types: seq<string>, len: nat, k: nat): (ws: seq<string>)
    requires 1 <= len && k + len <= |types| + 1
    ensures |ws| == k
  {
    if k == 0 then [] else WindowsFrom(types, len, k - 1) + [Join(types[k - 1..k - 1 + len], ",")]
  }

  /** All the windows of length `len`. */
  function Windows(types: seq<string>, len: nat): (ws: seq<string>)
    requires 1 <= len <= |types|
    ensures |ws| == |types| - len + 1
  {
    WindowsFrom(types, len, |types| - len + 1)
  }

  lemma {:induction false} WindowsFromAt(types: seq<string>, len: nat, k: nat, i: nat)
    requires 1 <= len && k + len <= |types| + 1 && i < k
    ensures WindowsFrom(types, len, k)[i] == Join(types[i..i + len], ",")
  {
    if i < k - 1 {
      WindowsFromAt(types, len, k - 1, i);
    }
  }

  /** Window `i` joins `types[i:i+len]` with commas. */
  lemma WindowAt(types: seq<string>, len: nat, i: nat)
    requires 1 <= len <= |types| && i <= |types| - len
    ensures Windows(types, len)[i] == Join(types[i..i + len], ",")
  {
    WindowsFromAt(types, len, |types| - len + 1, i);
  }

  /** The largest window length: `range(1, min(len(types), 4))` stops before `min(len, 4)`. */
  function MaxLength(types: seq<string>): nat {
    Max0(Min(|types|, 4) - 1)
  }

  /** The windows of lengths `1..len`, shortest first. */
  function SubsequencesUpTo(types: seq<string>, len: nat): (subs: seq<string>)
    requires len <= MaxLength(types)
  {
    if len == 0 then [] else SubsequencesUpTo(types, len - 1) + Windows(types, len)
  }

  function Subsequences(types: seq<string>): seq<string> {
    SubsequencesUpTo(types, MaxLength(types))
  }

  /** `f"{most_common} ({count})"`. */
  function Labelled(s: string, count: nat): string {
    s + " (" + Decimal(count) + ")"
  }

  /** `get_dominant_subsequence`. */
  function Dominant(types: seq<string>): (r: string)
    ensures |types| <= 1 ==> r == "Null"
  {
    if types == [] then "Null"
    else
      var subs := Subsequences(types);
      if subs == [] then "Null"
      else
        var s := MostCommon(subs);
        Labelled(s, multiset(subs)[s])
  }

  /** The inner loop `for i in range(len(types) - length + 1)`: appends the windows of one length. */
  method AppendWindows(types: seq<string>, len: nat, subsequences: seq<string>) returns (subsequences': seq<string>)
    requires 1 <= len <= |types|
    ensures subsequences' == subsequences + Windows(types, len)
  {
    subsequences' := subsequences;
    for i := 0 to |types| - len + 1
      invariant subsequences' == subsequences + WindowsFrom(types, len, i)
    {
      subsequences' := subsequences' + [Join(types[i..i + len], ",")];
    }
  }

  /** The nested loops that fill `subsequences`, then the counter. */
  method DominantSubsequence(types: seq<string>) returns (r: string)
    ensures r == Dominant(types)
  {
    if types == [] {
      return "Null";
    }
    var subsequences := [];
    for len := 1 to Max0(Min(|types|, 4))
      invariant subsequences == SubsequencesUpTo(types, len - 1)
    {
      subsequences := AppendWindows(types, len, subsequences);
    }
    assert subsequences == Subsequences(types);
    if subsequences == [] {
      return "Null";
    }
    var mostCommon := MostCommon(subsequences);
    var count := multiset(subsequences)[mostCommon];
    return Labelled(mostCommon, count);
  }

  /** There are `len - L + 1` windows of each length `L`. */
  lemma {:induction false} SubsequencesCount(types: seq<string>, len: nat)
    requires len <= MaxLength(types)
    ensures |SubsequencesUpTo(types, len)| == len * |types| + len - len * (len + 1) / 2
  {
    if len > 0 {
      SubsequencesCount(types, len - 1);
      assert len * (len + 1) / 2 == (len - 1) * len / 2 + len by {
        assert len * (len + 1) == (len - 1) * len + 2 * len;
      }
      assert len * |types| == (len - 1) * |types| + |types|;
    }
  }

  /** An empty list and a one-element list both give `'Null'`; a longer one gives a counted window. */
  lemma DominantShort(types: seq<string>)
    ensures |types| <= 1 ==> Dominant(types) == "Null"
    ensures |types| >= 2 ==> exists s, c :: s in Subsequences(types) && c >= 1 && Dominant(types) == Labelled(s, c)
  {
    if |types| >= 2 {
      var subs := Subsequences(types);
      SubsequencesCover(types);
      var s := MostCommon(subs);
      assert s in multiset(subs);
      var c := multiset(subs)[s];
      assert Dominant(types) == Labelled(s, c);
      assert s in subs && c >= 1;
    }
  }

  /** With two types or more the windows of length 1 come first: one per type. */
  lemma SubsequencesCover(types: seq<string>)
    requires |types| >= 2
    ensures |Subsequences(types)| >= |types|
  {
    assert SubsequencesUpTo(types, 1) == SubsequencesUpTo(types, 0) + Windows(types, 1);
    assert SubsequencesUpTo(types, 0) == [];
    SubsequencesPrefix(types, 1, MaxLength(types));
  }

  /** The windows of the shorter lengths come first. */
  lemma {:induction false} SubsequencesPrefix(types: seq<string>, len: nat, top: nat)
    requires len <= top <= MaxLength(types)
    ensures SubsequencesUpTo(types, len) <= SubsequencesUpTo(types, top)
    decreases top
  {
    if len < top {
      SubsequencesPrefix(types, len, top - 1);
    }
  }

  /** No type holds the separator `,`. */
  predicate CommaFree(types: seq<string>) {
    forall i :: 0 <= i < |types| ==> ',' !in types[i]
  }

  /** The number of separators in a string. */
  function Commas(s: string): nat {
    multiset(s)[',']
  }

  /** The text before the first `,`: the first type of a joined window. */
  function Head(s: string): (h: string)
    ensures ',' !in h
  {
    if s == [] || s[0] == ',' then [] else [s[0]] + Head(s[1..])
  }

  lemma {:induction false} HeadWhole(x: string)
    requires ',' !in x
    ensures Head(x) == x
  {
    if x != [] {
      HeadWhole(x[1..]);
    }
  }

  lemma {:induction false} HeadOf(x: string, y: string)
    requires ',' !in x
    ensures Head(x + "," + y) == x
  {
    if x != [] {
      assert (x + "," + y)[1..] == x[1..] + "," + y;
      HeadOf(x[1..], y);
    }
  }

  /** Joining comma-free parts puts one separator between neighbours and the first part in front. */
  lemma {:induction false} JoinCommas(parts: seq<string>)
    requires |parts| >= 1 && CommaFree(parts)
    ensures Commas(Join(parts, ",")) == |parts| - 1
    ensures Head(Join(parts, ",")) == parts[0]
  {
    assert ',' !in parts[0];
    if |parts| == 1 {
      HeadWhole(parts[0]);
    } else {
      var rest := parts[1..];
      assert CommaFree(rest) by {
        forall i | 0 <= i < |rest| ensures ',' !in rest[i] {
          assert rest[i] == parts[i + 1];
        }
      }
      JoinCommas(rest);
      var j := Join(rest, ",");
      assert Join(parts, ",") == parts[0] + "," + j;
      assert multiset(parts[0] + "," + j) == multiset(parts[0]) + multiset(",") + multiset(j);
      HeadOf(parts[0], j);
    }
  }

  /** A window of length `len` has `len - 1` separators and starts with the type at its position. */
  lemma WindowShape(types: seq<string>, len: nat, i: nat)
    requires CommaFree(types) && 1 <= len <= |types| && i <= |types| - len
    ensures Commas(Windows(types, len)[i]) == len - 1
    ensures Head(Windows(types, len)[i]) == types[i]
  {
    var parts := types[i..i + len];
    assert CommaFree(parts) by {
      forall k | 0 <= k < |parts| ensures ',' !in parts[k] {
        assert parts[k] == types[i + k];
      }
    }
    WindowAt(types, len, i);
    JoinCommas(parts);
  }

  /** The windows of length 1 are the types themselves. */
  lemma WindowsOne(types: seq<string>)
    requires |types| >= 1
    ensures Windows(types, 1) == types
  {
    var ws := Windows(types, 1);
    forall i | 0 <= i < |types| ensures ws[i] == types[i] {
      WindowAt(types, 1, i);
      assert types[i..i + 1] == [types[i]];
    }
  }

  /** Every window of length `len` has `len - 1` separators and starts with the type at its position. */
  lemma WindowsShape(types: seq<string>, len: nat)
    requires CommaFree(types) && 1 <= len <= |types|
    ensures var ws := Windows(types, len);
      forall i :: 0 <= i < |ws| ==> Commas(ws[i]) == len - 1 && Head(ws[i]) == types[i]
  {
    forall i | 0 <= i < |types| - len + 1
      ensures Commas(Windows(types, len)[i]) == len - 1 && Head(Windows(types, len)[i]) == types[i]
    {
      WindowShape(types, len, i);
    }
  }

  /** Counting in one layer of texts with `c` separators, each facing the type at its position. */
  lemma LayerCount(ws: seq<string>, types: seq<string>, c: nat, w: string)
    requires |ws| <= |types|
    requires forall i :: 0 <= i < |ws| ==> Commas(ws[i]) == c && Head(ws[i]) == types[i]
    ensures Commas(w) != c ==> multiset(ws)[w] == 0
    ensures multiset(ws)[w] <= multiset(types)[Head(w)]
  {
    LayerUpTo(ws, types, c, w, |ws|);
    TakeAll(ws);
    TakeCount(types, |ws|, Head(w));
  }

  lemma TakeAll(s: seq<string>)
    ensures s[..|s|] == s
  {
  }

  /** A prefix holds `h` at most as often as the whole sequence. */
  lemma TakeCount(s: seq<string>, m: nat, h: string)
    requires m <= |s|
    ensures multiset(s[..m])[h] <= multiset(s)[h]
  {
    assert s == s[..m] + s[m..];
  }

  lemma {:induction false} LayerUpTo(ws: seq<string>, types: seq<string>, c: nat, w: string, m: nat)
    requires m <= |ws| <= |types|
    requires forall i :: 0 <= i < |ws| ==> Commas(ws[i]) == c && Head(ws[i]) == types[i]
    ensures Commas(w) != c ==> multiset(ws[..m])[w] == 0
    ensures multiset(ws[..m])[w] <= multiset(types[..m])[Head(w)]
  {
    if m > 0 {
      LayerUpTo(ws, types, c, w, m - 1);
      assert Commas(ws[m - 1]) == c && Head(ws[m - 1]) == types[m - 1];
      PrefixCount(ws, m, w);
      PrefixCount(types, m, Head(w));
    }
  }

  /** One more element of a prefix adds one occurrence exactly when it is `w`. */
  lemma PrefixCount(s: seq<string>, k: nat, w: string)
    requires 0 < k <= |s|
    ensures multiset(s[..k])[w] == multiset(s[..k - 1])[w] + if s[k - 1] == w then 1 else 0
  {
    assert s[..k] == s[..k - 1] + [s[k - 1]];
  }

  /** How often the windows of length `l` hold `w`, for each `l`. */
  function LayerFn(types: seq<string>, w: string): nat -> nat {
    (l: nat) => if 1 <= l <= |types| then multiset(Windows(types, l))[w] else 0
  }

  /** `f(1) + ... + f(len)`. */
  function SumUpTo(f: nat -> nat, len: nat): nat {
    if len == 0 then 0 else SumUpTo(f, len - 1) + f(len)
  }

  /** Counting in a sequence built layer by layer: `all(l)` is `all(l - 1)` followed by `part(l)`,
      and `count(l)` counts `w` in `part(l)`. */
  lemma {:induction false} SumCounts(all: nat -> seq<string>, part: nat -> seq<string>, count: nat -> nat,
                                     len: nat, w: string)
    requires all(0) == []
    requires forall l: nat :: 1 <= l <= len ==> all(l) == all(l - 1) + part(l) && count(l) == multiset(part(l))[w]
    ensures multiset(all(len))[w] == SumUpTo(count, len)
  {
    if len > 0 {
      SumCounts(all, part, count, len - 1, w);
      AppendCount(all(len - 1), part(len), w);
    }
  }

  lemma AppendCount(a: seq<string>, b: seq<string>, w: string)
    ensures multiset(a + b)[w] == multiset(a)[w] + multiset(b)[w]
  {
  }

  /** One more length adds the windows of that length. */
  lemma SubsStep(types: seq<string>, len: nat)
    requires 1 <= len <= MaxLength(types)
    ensures len <= |types|
    ensures SubsequencesUpTo(types, len) == SubsequencesUpTo(types, len - 1) + Windows(types, len)
  {
  }

  /** The windows of all lengths hold `w` as often as the layers together. */
  lemma SubsCountIs(types: seq<string>, w: string)
    ensures multiset(Subsequences(types))[w] == SumUpTo(LayerFn(types, w), MaxLength(types))
  {
    var top := MaxLength(types);
    var all := (l: nat) => if l <= top then SubsequencesUpTo(types, l) else [];
    var part := (l: nat) => if 1 <= l <= |types| then Windows(types, l) else [];
    forall l: nat | 1 <= l <= top
      ensures all(l) == all(l - 1) + part(l) && LayerFn(types, w)(l) == multiset(part(l))[w]
    {
      SubsStep(types, l);
    }
    SumCounts(all, part, LayerFn(types, w), top, w);
  }

  /** A count `n` of a text with `commas` separators among the windows of lengths `1..len`: none
      when it has `len` separators or more; at most `head`, the count of its first type, when it has
      one or more; `own`, its count among the types, when it has none. */
  predicate CountBounds(n: nat, len: nat, commas: nat, head: nat, own: nat) {
    && (commas >= len ==> n == 0)
    && (commas >= 1 ==> n <= head)
    && (commas == 0 && len >= 1 ==> n == own)
  }

  /** Summing layers that each obey `LayerBounds`. */
  lemma {:induction false} CountUpTo(f: nat -> nat, len: nat, commas: nat, head: nat, own: nat)
    requires forall l: nat :: 1 <= l <= len ==> LayerBounds(f(l), l, commas, head, own)
    ensures CountBounds(SumUpTo(f, len), len, commas, head, own)
  {
    if len > 0 {
      CountUpTo(f, len - 1, commas, head, own);
      assert LayerBounds(f(len), len, commas, head, own);
    }
  }

  /** Every layer of windows obeys `LayerBounds`. */
  lemma AllLayers(types: seq<string>, w: string)
    requires CommaFree(types)
    ensures forall l: nat :: 1 <= l <= MaxLength(types) ==>
      LayerBounds(LayerFn(types, w)(l), l, Commas(w), multiset(types)[Head(w)], multiset(types)[w])
  {
    forall l: nat | 1 <= l <= MaxLength(types)
      ensures LayerBounds(LayerFn(types, w)(l), l, Commas(w), multiset(types)[Head(w)], multiset(types)[w])
    {
      LayerFacts(types, l, w);
    }
  }

  /** How often the windows of all lengths hold a text, against its count among the types. */
  lemma WindowCountBounds(types: seq<string>, w: string)
    requires CommaFree(types) && |types| >= 2
    ensures CountBounds(multiset(Subsequences(types))[w], MaxLength(types), Commas(w),
      multiset(types)[Head(w)], multiset(types)[w])
  {
    var top := MaxLength(types);
    AllLayers(types, w);
    CountUpTo(LayerFn(types, w), top, Commas(w), multiset(types)[Head(w)], multiset(types)[w]);
    SubsCountIs(types, w);
  }

  /** The windows of length `len` hold `w` only when it has `len - 1` separators, at most as often
      as its first type, and as often as `types` when `len` is 1. */
  lemma LayerFacts(types: seq<string>, len: nat, w: string)
    requires CommaFree(types) && 1 <= len <= |types|
    ensures LayerBounds(multiset(Windows(types, len))[w], len, Commas(w), multiset(types)[Head(w)], multiset(types)[w])
  {
    var ws := Windows(types, len);
    WindowsShape(types, len);
    if len == 1 {
      WindowsOne(types);
    }
    LayerCount(ws, types, len - 1, w);
  }

  /** The count `n` of a text with `commas` separators among the windows of length `len`. */
  predicate LayerBounds(n: nat, len: nat, commas: nat, head: nat, own: nat) {
    && (commas != len - 1 ==> n == 0)
    && n <= head
    && (len == 1 ==> n == own)
  }

  /** `s` is what `Counter(subs).most_common(1)` reports: no text of `subs` is more frequent, and
      every text before its first occurrence is less frequent. */
  predicate Winner(subs: seq<string>, s: string) {
    && s in subs
    && (forall y :: y in subs ==> multiset(subs)[y] <= multiset(subs)[s])
    && exists i :: 0 <= i < |subs| && subs[i] == s &&
         forall j :: 0 <= j < i ==> multiset(subs)[subs[j]] < multiset(subs)[s]
  }

  /** With two types or more, `Dominant` labels the counter's winner among the windows with its
      count, and when no type holds a `,` the winner is a single type. */
  lemma DominantWinner(types: seq<string>)
    requires |types| >= 2
    ensures var subs := Subsequences(types);
      exists s :: Winner(subs, s) && Dominant(types) == Labelled(s, multiset(subs)[s])
        && (CommaFree(types) ==> s in types)
  {
    var subs := Subsequences(types);
    SubsequencesCover(types);
    var s := MostCommon(subs);
    assert Winner(subs, s);
    if CommaFree(types) {
      WinnerIsType(types, s);
    }
  }

  /** The counter's winner over comma-free types is a single type: a longer window is no more
      frequent than its first type, which is generated before it. */
  lemma WinnerIsType(types: seq<string>, s: string)
    requires |types| >= 2 && CommaFree(types)
    requires |Subsequences(types)| >= 1 && s == MostCommon(Subsequences(types))
    ensures s in types
  {
    var subs := Subsequences(types);
    var top := MaxLength(types);
    WindowsOne(types);
    assert SubsequencesUpTo(types, 1) == types;
    SubsequencesPrefix(types, 1, top);
    WindowCountBounds(types, s);
    WindowCountBounds(types, Head(s));
    NoCommaCount(Head(s));
    WinnerAmong(subs, types, s);
  }

  /** The counter's winner among `subs`, which begin with the comma-free `types` and count every
      separated text at most as often as its first type, is one of the types. */
  lemma WinnerAmong(subs: seq<string>, types: seq<string>, s: string)
    requires CommaFree(types) && types <= subs && |subs| >= 1 && s == MostCommon(subs)
    requires Commas(s) >= 1 ==> multiset(subs)[s] <= multiset(types)[Head(s)]
    requires multiset(subs)[Head(s)] == multiset(types)[Head(s)]
    requires Commas(s) == 0 ==> multiset(subs)[s] == multiset(types)[s]
    ensures s in types
  {
    var i :| 0 <= i < |subs| && subs[i] == s &&
      forall j :: 0 <= j < i ==> multiset(subs)[subs[j]] < multiset(subs)[s];
    WinnerHasNoComma(subs, types, s, i);
    assert s in multiset(types);
  }

  lemma NoCommaCount(x: string)
    requires ',' !in x
    ensures Commas(x) == 0
  {
    assert ',' !in multiset(x);
  }

  /** A window with a separator cannot win: its first type is at least as frequent and comes first. */
  lemma WinnerHasNoComma(subs: seq<string>, types: seq<string>, s: string, i: nat)
    requires CommaFree(types) && types <= subs && i < |subs| && subs[i] == s
    requires forall j :: 0 <= j < i ==> multiset(subs)[subs[j]] < multiset(subs)[s]
    requires Commas(s) >= 1 ==> multiset(subs)[s] <= multiset(types)[Head(s)]
    requires multiset(subs)[Head(s)] == multiset(types)[Head(s)]
    ensures Commas(s) == 0
  {
    if Commas(s) >= 1 {
      assert Head(s) in multiset(types);
      var q :| 0 <= q < |types| && types[q] == Head(s);
      EarlierType(types, subs, q, i);
      assert false;
    }
  }

  /** A type is generated before every window with a separator. */
  lemma EarlierType(types: seq<string>, subs: seq<string>, q: nat, i: nat)
    requires CommaFree(types) && types <= subs && q < |types| && i < |subs| && Commas(subs[i]) >= 1
    ensures q < i && subs[q] == types[q]
  {
    TypesCommaFree(types, subs);
  }

  /** The leading copy of the types holds no separator. */
  lemma TypesCommaFree(types: seq<string>, subs: seq<string>)
    requires CommaFree(types) && types <= subs
    ensures forall j :: 0 <= j < |types| ==> Commas(subs[j]) == 0
  {
    forall j | 0 <= j < |types|
      ensures Commas(subs[j]) == 0
    {
      assert subs[j] == types[j];
      NoCommaCount(types[j]);
    }
  }

  // ----- Windows of rows -----

  /** The columns of the lower table the summary reads. */
  const DeltaColumns: seq<string> := [
    "Delta_with_1_last_read", "Delta_with_1_last_write", "Delta_with_2_last_read", "Delta_with_2_last_write",
    "Delta_with_3_last_read", "Delta_with_3_last_write", "Delta_with_1_next_read", "Delta_with_1_next_write",
    "Delta_with_2_next_read", "Delta_with_2_next_write", "Delta_with_3_next_read", "Delta_with_3_next_write"]

  /** A row of the lower table: `Address`, `PC` and `Type` as text, and one cell per delta column. */
  datatype LowerRow = LowerRow(address: string, pc: string, kind: string, deltas: seq<DeltaCell>)

  /** Every row has a cell for each delta column (a missing column raises `KeyError`). */
  predicate HasColumns(rows: seq<LowerRow>) {
    forall i :: 0 <= i < |rows| ==> |rows[i].deltas| == |DeltaColumns|
  }

  /** The cell of column `col` in `row`. */
  function CellAt(row: LowerRow, col: nat): DeltaCell {
    if col < |row.deltas| then row.deltas[col] else Null
  }

  /** The cells of column `col` over a window. */
  function ColumnCells(window: seq<LowerRow>, col: nat): (cells: seq<DeltaCell>)
    ensures |cells| == |window| && forall i :: 0 <= i < |window| ==> cells[i] == CellAt(window[i], col)
  {
    seq(|window|, i requires 0 <= i < |window| => CellAt(window[i], col))
  }

  /** A cell in a `_pattern` column: `str(x)`, or `'Null'` for a missing value. */
  function Token(c: DeltaCell): string {
    match c
    case Null => "Null"
    case Present(text, _) => text
  }

  function Pattern(cells: seq<DeltaCell>): (p: string)
    ensures cells == [] ==> p == ""
    ensures |cells| == 1 ==> p == Token(cells[0])
  {
    Join(seq(|cells|, i requires 0 <= i < |cells| => Token(cells[i])), ",")
  }

  /** The three integer cells written per delta column. */
  datatype ColumnSummary = ColumnSummary(pattern: string, mostFrequent: Option<int>, strideChanges: nat)

  /** One `output_row` without its floating-point cells (mean absolute delta, entropies). */
  datatype HigherRow = HigherRow(columns: seq<ColumnSummary>, segmentTransitions: nat, nReads: nat, nWrites: nat, dominant: string)

  function Addresses(window: seq<LowerRow>): (a: seq<string>)
    ensures |a| == |window| && forall i :: 0 <= i < |window| ==> a[i] == window[i].address
  {
    seq(|window|, i requires 0 <= i < |window| => window[i].address)
  }

  function Types(window: seq<LowerRow>): (t: seq<string>)
    ensures |t| == |window| && forall i :: 0 <= i < |window| ==> t[i] == window[i].kind
  {
    seq(|window|, i requires 0 <= i < |window| => window[i].kind)
  }

  /** `sum(t in ['R', 'R2'] for t in types)`. */
  function ReadCount(types: seq<string>): (c: nat)
    ensures c <= |types|
  {
    if types == [] then 0
    else ReadCount(types[..|types| - 1]) + (if types[|types| - 1] == "R" || types[|types| - 1] == "R2" then 1 else 0)
  }

  /** `sum(t == 'W' for t in types)`. */
  function WriteCount(types: seq<string>): (c: nat)
    ensures c <= |types|
  {
    if types == [] then 0
    else WriteCount(types[..|types| - 1]) + (if types[|types| - 1] == "W" then 1 else 0)
  }

  /** A type is counted as a read, as a write, or not at all, so the counts add up to at most the
      window size. */
  lemma {:induction false} ReadsWritesBound(types: seq<string>)
    ensures ReadCount(types) + WriteCount(types) <= |types|
  {
    if types != [] {
      ReadsWritesBound(types[..|types| - 1]);
    }
  }

  function ColumnSummaryOf(window: seq<LowerRow>, col: nat): ColumnSummary {
    var cells := ColumnCells(window, col);
    var (mf, sc) := DeltaMetrics(cells);
    ColumnSummary(Pattern(cells), mf, sc)
  }

  function ColumnSummaries(window: seq<LowerRow>): (cs: seq<ColumnSummary>)
    ensures |cs| == |DeltaColumns| && forall col :: 0 <= col < |cs| ==> cs[col] == ColumnSummaryOf(window, col)
  {
    seq(|DeltaColumns|, col requires 0 <= col < |DeltaColumns| => ColumnSummaryOf(window, col))
  }

  /** The summary of one window. */
  function Summary(window: seq<LowerRow>): (h: HigherRow)
    ensures |h.columns| == |DeltaColumns|
    ensures h.segmentTransitions <= Max0(|window| - 1)
  {
    var types := Types(window);
    HigherRow(ColumnSummaries(window), SegmentTransitions(Addresses(window)),
      ReadCount(types), WriteCount(types), Dominant(types))
  }

  /** The loop `for col in delta_columns`. */
  method SummariseColumns(window: seq<LowerRow>) returns (columns: seq<ColumnSummary>)
    ensures columns == ColumnSummaries(window)
  {
    columns := [];
    var col := 0;
    while col < |DeltaColumns|
      invariant 0 <= col <= |DeltaColumns| && |columns| == col
      invariant forall c :: 0 <= c < col ==> columns[c] == ColumnSummaryOf(window, c)
    {
      var cells := ColumnCells(window, col);
      var pattern := Pattern(cells);
      var mf, sc := CalculateDeltaMetrics(cells);
      columns := columns + [ColumnSummary(pattern, mf, sc)];
      col := col + 1;
    }
  }

  /** The summary of one full window. */
  method SummariseWindow(window: seq<LowerRow>) returns (row: HigherRow)
    ensures row == Summary(window)
  {
    var columns := SummariseColumns(window);
    var segmentChanges := SegmentTransitions(Addresses(window));
    var types := Types(window);
    var dominant := DominantSubsequence(types);
    row := HigherRow(columns, segmentChanges, ReadCount(types), WriteCount(types), dominant);
  }

  /** The full windows of `n` rows starting at `start`, `start + n`, ... */
  function Chunks<T>(rows: seq<T>, n: nat, start: nat): (cs: seq<seq<T>>)
    requires n >= 1 && start <= |rows|
    ensures start + |cs| * n <= |rows|
    decreases |rows| - start
  {
    if start + n > |rows| then [] else [rows[start..start + n]] + Chunks(rows, n, start + n)
  }

  /** The summaries of the windows, in order. */
  function SummariesOf(chunks: seq<seq<LowerRow>>): (hs: seq<HigherRow>)
    ensures |hs| == |chunks| && forall w :: 0 <= w < |chunks| ==> hs[w] == Summary(chunks[w])
  {
    seq(|chunks|, w requires 0 <= w < |chunks| => Summary(chunks[w]))
  }

  /** Appends the summary of one more window. */
  method AppendSummary(result: seq<HigherRow>, ghost done: seq<seq<LowerRow>>, window: seq<LowerRow>) returns (result': seq<HigherRow>)
    requires result == SummariesOf(done)
    ensures result' == SummariesOf(done + [window])
  {
    var row := SummariseWindow(window);
    result' := result + [row];
  }

  /** `process_higher_ghb` without the file I/O: the summary of each full window of `n` rows. */
  method ProcessHigherGhb(rows: seq<LowerRow>, n: int) returns (result: seq<HigherRow>)
    requires n >= 1 && HasColumns(rows)
    ensures result == SummariesOf(Chunks(rows, n, 0))
  {
    result := [];
    var totalRows := |rows|;
    var start := 0;
    ghost var done: seq<seq<LowerRow>> := [];
    while start < totalRows
      invariant 0 <= start <= totalRows
      invariant done + Chunks(rows, n, start) == Chunks(rows, n, 0)
      invariant result == SummariesOf(done)
      decreases totalRows - start
    {
      var window := rows[start..Min(start + n, totalRows)];
      if |window| < n {
        break;
      }
      assert start + n <= totalRows && window == rows[start..start + n];
      ChunksAdvance(rows, n, start, done);
      result := AppendSummary(result, done, window);
      done := done + [window];
      start := start + n;
    }
    assert Chunks(rows, n, start) == [];
  }

  /** Taking the window at `start` moves it from the remaining windows to the finished ones. */
  lemma ChunksAdvance<T>(rows: seq<T>, n: nat, start: nat, done: seq<seq<T>>)
    requires n >= 1 && start + n <= |rows| && done + Chunks(rows, n, start) == Chunks(rows, n, 0)
    ensures (done + [rows[start..start + n]]) + Chunks(rows, n, start + n) == Chunks(rows, n, 0)
  {
    var w := rows[start..start + n];
    assert Chunks(rows, n, start) == [w] + Chunks(rows, n, start + n);
    assert (done + [w]) + Chunks(rows, n, start + n) == done + ([w] + Chunks(rows, n, start + n));
  }

  /** The windows from `start` number `(|rows| - start) div n`. */
  lemma {:induction false} ChunksCount<T>(rows: seq<T>, n: nat, start: nat)
    requires n >= 1 && start <= |rows|
    ensures |Chunks(rows, n, start)| * n <= |rows| - start < (|Chunks(rows, n, start)| + 1) * n
    decreases |rows| - start
  {
    if start + n <= |rows| {
      ChunksCount(rows, n, start + n);
      var c := |Chunks(rows, n, start + n)|;
      assert (c + 1) * n == c * n + n;
      assert (c + 2) * n == (c + 1) * n + n;
    }
  }

  /** `total_rows div n` output rows; the incomplete trailing window is dropped. */
  lemma RowCount(rows: seq<LowerRow>, n: nat)
    requires n >= 1
    ensures |SummariesOf(Chunks(rows, n, 0))| == |rows| / n
  {
    ChunksCount(rows, n, 0);
    DivUnique(|rows|, n, |Chunks(rows, n, 0)|);
  }

  /** The only `c` with `c * n <= x < (c + 1) * n` is `x / n`. */
  lemma DivUnique(x: nat, n: nat, c: nat)
    requires n >= 1 && c * n <= x < (c + 1) * n
    ensures c == x / n
  {
    var q := x / n;
    assert q * n <= x < (q + 1) * n;
    if c < q {
      MulMono(c + 1, q, n);
    } else if c > q {
      MulMono(q + 1, c, n);
    }
  }

  lemma {:induction false} MulMono(a: nat, b: nat, n: nat)
    requires a <= b
    ensures a * n <= b * n
    decreases b - a
  {
    if a < b {
      MulMono(a + 1, b, n);
      assert (a + 1) * n == a * n + n;
    }
  }

  /** Window `w` is rows `start + w * n` to `start + w * n + n - 1`: the windows are disjoint,
      consecutive and of exactly `n` rows. */
  lemma {:induction false} ChunkAt<T>(rows: seq<T>, n: nat, start: nat, w: nat)
    requires n >= 1 && start <= |rows| && w < |Chunks(rows, n, start)|
    ensures start + w * n + n <= |rows|
    ensures Chunks(rows, n, start)[w] == rows[start + w * n..start + w * n + n]
    decreases w
  {
    if w > 0 {
      ChunkAt(rows, n, start + n, w - 1);
      assert start + n + (w - 1) * n == start + w * n;
    }
  }

  /** Output row `w` summarises input rows `w * n` to `w * n + n - 1`. */
  lemma SummaryAt(rows: seq<LowerRow>, n: nat, w: nat)
    requires n >= 1 && w < |rows| / n
    ensures w * n + n <= |rows|
    ensures var out := SummariesOf(Chunks(rows, n, 0));
      w < |out| && out[w] == Summary(rows[w * n..w * n + n])
  {
    var chunks := Chunks(rows, n, 0);
    assert w < |chunks| by {
      RowCount(rows, n);
    }
    ChunkAt(rows, n, 0, w);
    MulMono(0, w, n);
    var window := rows[w * n..w * n + n];
    assert chunks[w] == window;
    assert SummariesOf(chunks)[w] == Summary(window);
  }

  /** The read and write counts of a window add up to at most its size. */
  lemma SummaryReadsWrites(window: seq<LowerRow>)
    ensures Summary(window).nReads + Summary(window).nWrites <= |window|
  {
    ReadsWritesBound(Types(window));
  }
}
