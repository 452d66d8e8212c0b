/**
 * `generate_features` of the rank-i pipeline: for every read or write access and every rank
 * `i` in `1..n`, the signed address delta to a read (`R`, `R2`) and to a write (`W`) found by
 * scanning the access list backward from position `idx - i` and forward from position `idx + i`.
 * A scan stops at the `i`-th access of the class it looks for; when it finds fewer, the delta
 * stays at the first one found, and it is `None` only when it finds none.
 */
module RankFeatures {
  import opened Wrappers
  import opened Text
  import opened TraceParser
  import opened Dicts

  /** An entry that takes part: it has an address and is a read or a write. */
  predicate IsRW(e: Entry)
    ensures IsRW(e) ==> e.addr.Some? && e.kind != "I"
  {
    e.addr.Some? && (e.kind == "R" || e.kind == "W" || e.kind == "R2")
  }

  /** `rw_indices`: the positions of the entries that take part, in order. */
  function RwIndices(es: seq<Entry>): (r: seq<nat>)
    ensures forall a :: 0 <= a < |r| ==> r[a] < |es| && IsRW(es[r[a]])
    ensures forall a, b :: 0 <= a < b < |r| ==> r[a] < r[b]
    ensures forall i :: 0 <= i < |es| && IsRW(es[i]) ==> i in r
  {
    if es == [] then []
    else
      var init := es[..|es| - 1];
      var r0 := RwIndices(init);
      assert forall i :: 0 <= i < |init| ==> init[i] == es[i];
      if IsRW(es[|es| - 1]) then r0 + [|es| - 1] else r0
  }

  /** The access types that take part: `R`, `R2` (the second read of an instruction) and `W`. */
  datatype Op = Read | Read2 | Write

  /** The trace's spelling of an access type. */
  function OpName(op: Op): (s: string)
    ensures IsRW(Entry(0, None, Some(0), s, None))
  {
    match op
    case Read => "R"
    case Read2 => "R2"
    case Write => "W"
  }

  /** The access type of an entry that takes part. */
  function OpOf(e: Entry): (op: Op)
    requires IsRW(e)
    ensures OpName(op) == e.kind
  {
    if e.kind == "R" then Read else if e.kind == "R2" then Read2 else Write
  }

  /** One access of the filtered list. */
  datatype Access = Access(timestamp: nat, pc: Option<int>, op: Op, addr: int)

  /** `entries[rw_indices[k]]` for every `k`. */
  function Accesses(es: seq<Entry>): (acc: seq<Access>)
    ensures |acc| == |RwIndices(es)|
    ensures forall k :: 0 <= k < |acc| ==> var e := es[RwIndices(es)[k]];
      acc[k] == Access(e.timestamp, e.pc, OpOf(e), e.addr.value)
  {
    var r := RwIndices(es);
    seq(|r|, k requires 0 <= k < |r| => var e := es[r[k]]; Access(e.timestamp, e.pc, OpOf(e), e.addr.value))
  }

  /** The class a scan counts: reads are `R` and `R2`, writes are `W`. */
  predicate InClass(a: Access, read: bool) {
    if read then a.op != Write else a.op == Write
  }

  /** The positions `j` with `lo < j <= hi` whose access is of the class, nearest to `hi` first:
      what a backward scan from `hi` meets before it passes `lo`. */
  function Before(acc: seq<Access>, lo: int, hi: int, read: bool): (r: seq<nat>)
    requires hi < |acc|
    ensures forall a :: 0 <= a < |r| ==> lo < r[a] <= hi && InClass(acc[r[a]], read)
    ensures forall a, b :: 0 <= a < b < |r| ==> r[a] > r[b]
    decreases hi + 1
  {
    if hi <= lo || hi < 0 then []
    else (if InClass(acc[hi], read) then [hi] else []) + Before(acc, lo, hi - 1, read)
  }

  /** The positions `j` with `lo <= j < hi` whose access is of the class, nearest to `lo` first:
      what a forward scan from `lo` meets before it reaches `hi`. */
  function After(acc: seq<Access>, lo: int, hi: int, read: bool): (r: seq<nat>)
    requires 0 <= lo && hi <= |acc|
    ensures forall a :: 0 <= a < |r| ==> lo <= r[a] < hi && InClass(acc[r[a]], read)
    ensures forall a, b :: 0 <= a < b < |r| ==> r[a] < r[b]
    decreases hi
  {
    if hi <= lo then []
    else After(acc, lo, hi - 1, read) + (if InClass(acc[hi - 1], read) then [hi - 1] else [])
  }

  /** Where a rank-`i` scan over `ms` ends up: the `i`-th position met, or the first one met when
      there are fewer, or none. */
  function Pick(ms: seq<nat>, i: nat): (r: Option<nat>)
    requires i >= 1
    ensures r.None? <==> ms == []
    ensures r.Some? ==> r.value in ms
  {
    if ms == [] then None
    else if i <= |ms| then Some(ms[i - 1])
    else Some(ms[0])
  }

  /** The address at `k` minus the address at `j`. */
  function Gap(acc: seq<Access>, j: nat, k: nat): int
    requires j < |acc| && k < |acc|
  {
    acc[k].addr - acc[j].addr
  }

  /** `Delta_with_{i}_last_read/write`: current address minus the address the backward scan from
      `idx - i` settles on. */
  function PastDelta(acc: seq<Access>, idx: nat, i: nat, read: bool): (r: Option<int>)
    requires idx < |acc| && i >= 1
    ensures idx < i ==> r.None?
    ensures r.Some? ==> exists j :: 0 <= j <= idx - i && InClass(acc[j], read) && r.value == acc[idx].addr - acc[j].addr
  {
    var p := Pick(Before(acc, -1, idx - i, read), i);
    if p.None? then None else Some(Gap(acc, p.value, idx))
  }

  /** `Delta_with_{i}_next_read/write`: the address the forward scan from `idx + i` settles on
      minus the current address. */
  function FutureDelta(acc: seq<Access>, idx: nat, i: nat, read: bool): (r: Option<int>)
    requires idx < |acc| && i >= 1
    ensures idx + i >= |acc| ==> r.None?
    ensures r.Some? ==> exists j :: idx + i <= j < |acc| && InClass(acc[j], read) && r.value == acc[j].addr - acc[idx].addr
  {
    var p := Pick(After(acc, idx + i, |acc|, read), i);
    if p.None? then None else Some(Gap(acc, idx, p.value))
  }

  /** Cutting a backward scan range at `mid`. */
  lemma {:induction false} BeforeSplit(acc: seq<Access>, lo: int, mid: int, hi: int, read: bool)
    requires lo <= mid <= hi < |acc|
    ensures Before(acc, lo, hi, read) == Before(acc, mid, hi, read) + Before(acc, lo, mid, read)
    decreases hi + 1
  {
    if hi > mid && hi >= 0 {
      BeforeSplit(acc, lo, mid, hi - 1, read);
    }
  }

  /** Cutting a forward scan range at `mid`. */
  lemma {:induction false} AfterSplit(acc: seq<Access>, lo: int, mid: int, hi: int, read: bool)
    requires 0 <= lo <= mid <= hi <= |acc|
    ensures After(acc, lo, hi, read) == After(acc, lo, mid, read) + After(acc, mid, hi, read)
    decreases hi
  {
    if hi > mid {
      AfterSplit(acc, lo, mid, hi - 1, read);
    }
  }

  /** Every position of the class in range is met by the backward scan. */
  lemma {:induction false} BeforeComplete(acc: seq<Access>, lo: int, hi: int, read: bool, j: int)
    requires hi < |acc| && lo < j <= hi && 0 <= j && InClass(acc[j], read)
    ensures j in Before(acc, lo, hi, read)
    decreases hi + 1
  {
    if j < hi {
      BeforeComplete(acc, lo, hi - 1, read, j);
    }
  }

  /** Every position of the class in range is met by the forward scan. */
  lemma {:induction false} AfterComplete(acc: seq<Access>, lo: int, hi: int, read: bool, j: int)
    requires 0 <= lo <= j < hi <= |acc| && InClass(acc[j], read)
    ensures j in After(acc, lo, hi, read)
    decreases hi
  {
    if j < hi - 1 {
      AfterComplete(acc, lo, hi - 1, read, j);
    }
  }

  /** One more step of a backward scan. */
  lemma BeforeStep(acc: seq<Access>, back: int, hi: int, read: bool)
    requires 0 <= back <= hi < |acc|
    ensures Before(acc, back - 1, hi, read) ==
      Before(acc, back, hi, read) + (if InClass(acc[back], read) then [back] else [])
  {
    BeforeSplit(acc, back - 1, back, hi, read);
    assert Before(acc, back - 1, back - 1, read) == [];
  }

  /** One more step of a forward scan. */
  lemma AfterStep(acc: seq<Access>, lo: int, fwd: int, read: bool)
    requires 0 <= lo <= fwd < |acc|
    ensures After(acc, lo, fwd + 1, read) ==
      After(acc, lo, fwd, read) + (if InClass(acc[fwd], read) then [fwd] else [])
  {
  }

  /** A backward rank-`i` scan that meets its `i`-th match at `j` settles on `j`. */
  lemma PastHit(acc: seq<Access>, idx: nat, i: nat, read: bool, j: int)
    requires idx < |acc| && i >= 1
    requires 0 <= j <= idx - i && InClass(acc[j], read) && |Before(acc, j, idx - i, read)| == i - 1
    ensures PastDelta(acc, idx, i, read) == Some(Gap(acc, j, idx))
  {
    var hi := idx - i;
    BeforeSplit(acc, -1, j, hi, read);
    var rest := Before(acc, -1, j, read);
    assert rest == [j] + Before(acc, -1, j - 1, read);
    var ms := Before(acc, -1, hi, read);
    assert ms[i - 1] == rest[0] == j;
    assert Pick(ms, i) == Some(j);
  }

  /** A backward rank-`i` scan that meets fewer than `i` matches settles on the first, if any. */
  lemma PastShort(acc: seq<Access>, idx: nat, i: nat, read: bool)
    requires idx < |acc| && i >= 1
    requires |Before(acc, -1, idx - i, read)| < i
    ensures var ms := Before(acc, -1, idx - i, read);
      PastDelta(acc, idx, i, read) == if ms == [] then None else Some(Gap(acc, ms[0], idx))
  {
  }

  /** A forward rank-`i` scan that meets fewer than `i` matches settles on the first, if any. */
  lemma FutureShort(acc: seq<Access>, idx: nat, i: nat, read: bool)
    requires idx < |acc| && i >= 1
    requires |After(acc, idx + i, |acc|, read)| < i
    ensures var ms := After(acc, idx + i, |acc|, read);
      FutureDelta(acc, idx, i, read) == if ms == [] then None else Some(Gap(acc, idx, ms[0]))
  {
  }

  /** A forward rank-`i` scan that meets its `i`-th match at `j` settles on `j`. */
  lemma FutureHit(acc: seq<Access>, idx: nat, i: nat, read: bool, j: int)
    requires idx < |acc| && i >= 1
    requires idx + i <= j < |acc| && InClass(acc[j], read) && |After(acc, idx + i, j, read)| == i - 1
    ensures FutureDelta(acc, idx, i, read) == Some(Gap(acc, idx, j))
  {
    var lo := idx + i;
    AfterSplit(acc, lo, j + 1, |acc|, read);
    var front := After(acc, lo, j + 1, read);
    assert front == After(acc, lo, j, read) + [j];
    var ms := After(acc, lo, |acc|, read);
    assert ms[i - 1] == front[i - 1] == j;
    FutureOfPick(acc, idx, i, read, j);
  }

  /** The future delta is the gap to the position the scan settles on. */
  lemma FutureOfPick(acc: seq<Access>, idx: nat, i: nat, read: bool, j: nat)
    requires idx < |acc| && i >= 1 && j < |acc|
    requires Pick(After(acc, idx + i, |acc|, read), i) == Some(j)
    ensures FutureDelta(acc, idx, i, read) == Some(Gap(acc, idx, j))
  {
  }

  /** What a backward scan has seen once it has stepped past `back`: `count` matches, fewer than
      `i`, and `delta` to the first of them. */
  ghost predicate PastSoFar(acc: seq<Access>, idx: nat, i: nat, read: bool, back: int, count: nat, delta: Option<int>)
    requires idx < |acc| && i >= 1 && -1 <= back <= idx - i
  {
    var ms := Before(acc, back, idx - i, read);
    count == |ms| < i && delta == if ms == [] then None else Some(Gap(acc, ms[0], idx))
  }

  /** What a forward scan has seen once it has reached `fwd`. */
  ghost predicate FutureSoFar(acc: seq<Access>, idx: nat, i: nat, read: bool, fwd: nat, count: nat, delta: Option<int>)
    requires idx < |acc| && i >= 1 && idx + i <= fwd <= |acc|
  {
    var ms := After(acc, idx + i, fwd, read);
    count == |ms| < i && delta == if ms == [] then None else Some(Gap(acc, idx, ms[0]))
  }

  /** A backward scan passing a position outside the class sees nothing new. */
  lemma PastPass(acc: seq<Access>, idx: nat, i: nat, read: bool, back: nat, count: nat, delta: Option<int>)
    requires idx < |acc| && i >= 1 && back <= idx - i && !InClass(acc[back], read)
    requires PastSoFar(acc, idx, i, read, back, count, delta)
    ensures PastSoFar(acc, idx, i, read, back - 1, count, delta)
  {
    BeforeStep(acc, back, idx - i, read);
  }

  /** A backward scan meeting a match that is not yet the `i`-th counts it, and remembers it when
      it is the first. */
  lemma PastCount(acc: seq<Access>, idx: nat, i: nat, read: bool, back: nat, count: nat, delta: Option<int>)
    requires idx < |acc| && i >= 1 && back <= idx - i && InClass(acc[back], read) && count + 1 < i
    requires PastSoFar(acc, idx, i, read, back, count, delta)
    ensures PastSoFar(acc, idx, i, read, back - 1, count + 1, if count == 0 then Some(Gap(acc, back, idx)) else delta)
  {
    BeforeStep(acc, back, idx - i, read);
  }

  /** A backward scan meeting its `i`-th match settles on it. */
  lemma PastLast(acc: seq<Access>, idx: nat, i: nat, read: bool, back: nat, count: nat, delta: Option<int>)
    requires idx < |acc| && i >= 1 && back <= idx - i && InClass(acc[back], read) && count + 1 == i
    requires PastSoFar(acc, idx, i, read, back, count, delta)
    ensures PastDelta(acc, idx, i, read) == Some(Gap(acc, back, idx))
  {
    PastHit(acc, idx, i, read, back);
  }

  /** One step of the backward scan, at `back`: either the `i`-th match, which settles the delta,
      or one more position seen. */
  method PastVisit(acc: seq<Access>, idx: nat, i: nat, read: bool, back: nat, count: nat, delta: Option<int>)
    returns (count': nat, delta': Option<int>, hit: bool)
    requires idx < |acc| && i >= 1 && back <= idx - i
    requires PastSoFar(acc, idx, i, read, back, count, delta)
    ensures hit ==> delta' == PastDelta(acc, idx, i, read)
    ensures !hit ==> PastSoFar(acc, idx, i, read, back - 1, count', delta')
  {
    count', delta', hit := count, delta, false;
    if !InClass(acc[back], read) {
      PastPass(acc, idx, i, read, back, count, delta);
      return;
    }
    count' := count + 1;
    if count' == 1 {
      delta' := Some(Gap(acc, back, idx));
    }
    if count' == i {
      delta' := Some(Gap(acc, back, idx));
      PastLast(acc, idx, i, read, back, count, delta);
      hit := true;
    } else {
      PastCount(acc, idx, i, read, back, count, delta);
    }
  }

  /** A forward scan passing a position outside the class sees nothing new. */
  lemma FuturePass(acc: seq<Access>, idx: nat, i: nat, read: bool, fwd: nat, count: nat, delta: Option<int>)
    requires idx < |acc| && i >= 1 && idx + i <= fwd < |acc| && !InClass(acc[fwd], read)
    requires FutureSoFar(acc, idx, i, read, fwd, count, delta)
    ensures FutureSoFar(acc, idx, i, read, fwd + 1, count, delta)
  {
    AfterStep(acc, idx + i, fwd, read);
  }

  /** A forward scan meeting a match that is not yet the `i`-th counts it, and remembers it when
      it is the first. */
  lemma FutureCount(acc: seq<Access>, idx: nat, i: nat, read: bool, fwd: nat, count: nat, delta: Option<int>)
    requires idx < |acc| && i >= 1 && idx + i <= fwd < |acc| && InClass(acc[fwd], read) && count + 1 < i
    requires FutureSoFar(acc, idx, i, read, fwd, count, delta)
    ensures FutureSoFar(acc, idx, i, read, fwd + 1, count + 1, if count == 0 then Some(Gap(acc, idx, fwd)) else delta)
  {
    var ms := After(acc, idx + i, fwd, read);
    AfterStep(acc, idx + i, fwd, read);
    assert After(acc, idx + i, fwd + 1, read) == ms + [fwd];
  }

  /** A forward scan meeting its `i`-th match settles on it. */
  lemma FutureLast(acc: seq<Access>, idx: nat, i: nat, read: bool, fwd: nat, count: nat, delta: Option<int>)
    requires idx < |acc| && i >= 1 && idx + i <= fwd < |acc| && InClass(acc[fwd], read) && count + 1 == i
    requires FutureSoFar(acc, idx, i, read, fwd, count, delta)
    ensures FutureDelta(acc, idx, i, read) == Some(Gap(acc, idx, fwd))
  {
    FutureHit(acc, idx, i, read, fwd);
  }

  /** One step of the forward scan, at `fwd`. */
  method FutureVisit(acc: seq<Access>, idx: nat, i: nat, read: bool, fwd: nat, count: nat, delta: Option<int>)
    returns (count': nat, delta': Option<int>, hit: bool)
    requires idx < |acc| && i >= 1 && idx + i <= fwd < |acc|
    requires FutureSoFar(acc, idx, i, read, fwd, count, delta)
    ensures hit ==> delta' == FutureDelta(acc, idx, i, read)
    ensures !hit ==> FutureSoFar(acc, idx, i, read, fwd + 1, count', delta')
  {
    count', delta', hit := count, delta, false;
    if !InClass(acc[fwd], read) {
      FuturePass(acc, idx, i, read, fwd, count, delta);
      return;
    }
    count' := count + 1;
    if count' == 1 {
      delta' := Some(Gap(acc, idx, fwd));
    }
    if count' == i {
      delta' := Some(Gap(acc, idx, fwd));
      FutureLast(acc, idx, i, read, fwd, count, delta);
      hit := true;
    } else {
      FutureCount(acc, idx, i, read, fwd, count, delta);
    }
  }

  /** The backward scan of one rank and one class: `count` the matches met, remember the first,
      stop at the `i`-th. */
  method ScanPast(acc: seq<Access>, idx: nat, i: nat, read: bool) returns (delta: Option<int>)
    requires idx < |acc| && i >= 1
    ensures delta == PastDelta(acc, idx, i, read)
  {
    var previdx := idx - i;
    delta := None;
    if previdx < 0 {
      return;
    }
    var count := 0;
    for back := previdx + 1 downto 0
      invariant PastSoFar(acc, idx, i, read, back - 1, count, delta)
    {
      var hit;
      count, delta, hit := PastVisit(acc, idx, i, read, back, count, delta);
      if hit {
        return;
      }
    }
    PastShort(acc, idx, i, read);
  }

  /** The forward scan of one rank and one class. */
  method ScanFuture(acc: seq<Access>, idx: nat, i: nat, read: bool) returns (delta: Option<int>)
    requires idx < |acc| && i >= 1
    ensures delta == FutureDelta(acc, idx, i, read)
  {
    var nextidx := idx + i;
    delta := None;
    if nextidx >= |acc| {
      return;
    }
    var count := 0;
    for fwd := nextidx to |acc|
      invariant FutureSoFar(acc, idx, i, read, fwd, count, delta)
    {
      var hit;
      count, delta, hit := FutureVisit(acc, idx, i, read, fwd, count, delta);
      if hit {
        return;
      }
    }
    FutureShort(acc, idx, i, read);
  }

  /** One feature row: `Timestamp`, `PC` (`hex` of the pc, or `None`), `Type`, `Address` (`hex`),
      then per rank the four delta columns, kept here as one sequence per class and direction
      (`lastRead[i - 1]` is `Delta_with_{i}_last_read`, and so on). */
  datatype Row = Row(timestamp: nat, pc: Option<string>, kind: string, address: string,
                     lastRead: seq<Option<int>>, lastWrite: seq<Option<int>>,
                     nextRead: seq<Option<int>>, nextWrite: seq<Option<int>>)

  /** One delta column family of a row: the rank `1..n` deltas of one class in one direction. */
  function Column(acc: seq<Access>, idx: nat, n: int, read: bool, past: bool): (col: seq<Option<int>>)
    requires idx < |acc|
    ensures |col| == Max0(n)
  {
    seq(Max0(n), k requires 0 <= k < Max0(n) =>
      if past then PastDelta(acc, idx, k + 1, read) else FutureDelta(acc, idx, k + 1, read))
  }

  /** Extending the rank range by one appends that rank's delta. */
  lemma ColumnStep(acc: seq<Access>, idx: nat, i: nat, read: bool, past: bool)
    requires idx < |acc| && i >= 1
    ensures Column(acc, idx, i, read, past) ==
      Column(acc, idx, i - 1, read, past) + [if past then PastDelta(acc, idx, i, read) else FutureDelta(acc, idx, i, read)]
  {
    var c := Column(acc, idx, i, read, past);
    var c' := Column(acc, idx, i - 1, read, past);
    assert forall k :: 0 <= k < i - 1 ==> c[k] == c'[k];
  }

  /** The row of access `idx`. */
  function RowOf(acc: seq<Access>, idx: nat, n: int): (row: Row)
    requires idx < |acc|
    ensures |row.lastRead| == |row.lastWrite| == |row.nextRead| == |row.nextWrite| == Max0(n)
  {
    var a := acc[idx];
    Row(a.timestamp, if a.pc.Some? then Some(PyHex(a.pc.value)) else None, OpName(a.op), PyHex(a.addr),
        Column(acc, idx, n, true, true), Column(acc, idx, n, false, true),
        Column(acc, idx, n, true, false), Column(acc, idx, n, false, false))
  }

  /** The loop over ranks `1..n` that fills the past columns of one row. */
  method PastColumns(acc: seq<Access>, idx: nat, n: int) returns (lastRead: seq<Option<int>>, lastWrite: seq<Option<int>>)
    requires idx < |acc|
    ensures lastRead == Column(acc, idx, n, true, true) && lastWrite == Column(acc, idx, n, false, true)
  {
    lastRead, lastWrite := [], [];
    var i := 1;
    while i <= n
      invariant 1 <= i <= Max0(n) + 1
      invariant lastRead == Column(acc, idx, i - 1, true, true)
      invariant lastWrite == Column(acc, idx, i - 1, false, true)
    {
      var r := ScanPast(acc, idx, i, true);
      var w := ScanPast(acc, idx, i, false);
      ColumnStep(acc, idx, i, true, true);
      ColumnStep(acc, idx, i, false, true);
      lastRead, lastWrite := lastRead + [r], lastWrite + [w];
      i := i + 1;
    }
    assert Max0(i - 1) == Max0(n);
  }

  /** The loop over ranks `1..n` that fills the future columns of one row. */
  method FutureColumns(acc: seq<Access>, idx: nat, n: int) returns (nextRead: seq<Option<int>>, nextWrite: seq<Option<int>>)
    requires idx < |acc|
    ensures nextRead == Column(acc, idx, n, true, false) && nextWrite == Column(acc, idx, n, false, false)
  {
    nextRead, nextWrite := [], [];
    var i := 1;
    while i <= n
      invariant 1 <= i <= Max0(n) + 1
      invariant nextRead == Column(acc, idx, i - 1, true, false)
      invariant nextWrite == Column(acc, idx, i - 1, false, false)
    {
      var r := ScanFuture(acc, idx, i, true);
      var w := ScanFuture(acc, idx, i, false);
      ColumnStep(acc, idx, i, true, false);
      ColumnStep(acc, idx, i, false, false);
      nextRead, nextWrite := nextRead + [r], nextWrite + [w];
      i := i + 1;
    }
    assert Max0(i - 1) == Max0(n);
  }

  /** The rows of the first `m` accesses. */
  function RowsUpTo(acc: seq<Access>, m: nat, n: int): (rows: seq<Row>)
    requires m <= |acc|
    ensures |rows| == m
  {
    if m == 0 then [] else RowsUpTo(acc, m - 1, n) + [RowOf(acc, m - 1, n)]
  }

  /** Row `k` of the first `m` is the row of access `k`. */
  lemma {:induction false} RowsUpToAt(acc: seq<Access>, m: nat, n: int, k: nat)
    requires k < m <= |acc|
    ensures RowsUpTo(acc, m, n)[k] == RowOf(acc, k, n)
  {
    if k < m - 1 {
      RowsUpToAt(acc, m - 1, n, k);
      EarlierRow(RowsUpTo(acc, m, n), RowsUpTo(acc, m - 1, n), RowOf(acc, m - 1, n), k);
    }
  }

  /** Appending a row keeps the rows before it. */
  lemma EarlierRow(rows: seq<Row>, prev: seq<Row>, last: Row, k: nat)
    requires rows == prev + [last] && k < |prev|
    ensures rows[k] == prev[k]
  {
  }

  /** The body of the access loop: the row of access `idx`. */
  method BuildRow(acc: seq<Access>, idx: nat, n: int) returns (row: Row)
    requires idx < |acc|
    ensures row == RowOf(acc, idx, n)
  {
    var a := acc[idx];
    var lastRead, lastWrite := PastColumns(acc, idx, n);
    var nextRead, nextWrite := FutureColumns(acc, idx, n);
    var pc := if a.pc.Some? then Some(PyHex(a.pc.value)) else None;
    row := Row(a.timestamp, pc, OpName(a.op), PyHex(a.addr), lastRead, lastWrite, nextRead, nextWrite);
  }

  /** `generate_features(entries, n)`: one row per read or write access, in trace order. */
  method GenerateFeatures(entries: seq<Entry>, n: int) returns (rows: seq<Row>)
    ensures |rows| == |RwIndices(entries)|
    ensures forall k :: 0 <= k < |rows| ==> rows[k] == RowOf(Accesses(entries), k, n)
  {
    var acc := Accesses(entries);
    rows := [];
    for idx := 0 to |acc|
      invariant rows == RowsUpTo(acc, idx, n)
    {
      var row := BuildRow(acc, idx, n);
      rows := rows + [row];
    }
    forall k | 0 <= k < |rows| ensures rows[k] == RowOf(acc, k, n) {
      RowsUpToAt(acc, |acc|, n, k);
    }
  }

  /** `f'Delta_with_{i}_{suffix}'`. */
  function DeltaName(i: nat, suffix: string): string {
    "Delta_with_" + Decimal(i) + suffix
  }

  /** The names the rank loop `for i in range(1, m + 1)` adds, two per rank. */
  function RankNames(m: nat, first: string, second: string): (names: seq<string>)
    ensures |names| == 2 * m
    ensures forall i :: 1 <= i <= m ==> names[2 * i - 2] == DeltaName(i, first) && names[2 * i - 1] == DeltaName(i, second)
  {
    if m == 0 then [] else RankNames(m - 1, first, second) + [DeltaName(m, first), DeltaName(m, second)]
  }

  /** The column names of a row, in the order the row dict is filled. */
  function ColumnNames(n: int): (names: seq<string>)
    ensures |names| == 4 + 4 * Max0(n)
    ensures names[..4] == ["Timestamp", "PC", "Type", "Address"]
  {
    var m := Max0(n);
    ["Timestamp", "PC", "Type", "Address"] + RankNames(m, "_last_read", "_last_write") + RankNames(m, "_next_read", "_next_write")
  }

  /** After the four fixed columns come, rank by rank, the two past columns of every rank, then,
      rank by rank, the two future columns. */
  lemma ColumnNamesAt(n: int, i: nat)
    requires 1 <= i <= Max0(n)
    ensures var names := ColumnNames(n);
      && names[2 + 2 * i] == DeltaName(i, "_last_read")
      && names[3 + 2 * i] == DeltaName(i, "_last_write")
      && names[2 + 2 * Max0(n) + 2 * i] == DeltaName(i, "_next_read")
      && names[3 + 2 * Max0(n) + 2 * i] == DeltaName(i, "_next_write")
  {
    var m := Max0(n);
    var fixed: seq<string> := ["Timestamp", "PC", "Type", "Address"];
    var past := RankNames(m, "_last_read", "_last_write");
    var future := RankNames(m, "_next_read", "_next_write");
    assert ColumnNames(n) == fixed + past + future;
    IndexConcat3(fixed, past, future, 2 * i - 2);
    IndexConcat3(fixed, past, future, 2 * i - 1);
    IndexConcat3(fixed, past, future, 2 * m + 2 * i - 2);
    IndexConcat3(fixed, past, future, 2 * m + 2 * i - 1);
  }

  /** Position `|a| + k` of `a + b + c`. */
  lemma IndexConcat3<T>(a: seq<T>, b: seq<T>, c: seq<T>, k: nat)
    requires k < |b| + |c|
    ensures (a + b + c)[|a| + k] == if k < |b| then b[k] else c[k - |b|]
  {
  }

  /** A backward scan meets nothing exactly when no position in range is of the class. */
  lemma BeforeEmptyIff(acc: seq<Access>, lo: int, hi: int, read: bool)
    requires hi < |acc|
    ensures Before(acc, lo, hi, read) == [] <==> forall j :: lo < j <= hi && 0 <= j ==> !InClass(acc[j], read)
  {
    var ms := Before(acc, lo, hi, read);
    if ms == [] {
      forall j | lo < j <= hi && 0 <= j ensures !InClass(acc[j], read) {
        if InClass(acc[j], read) {
          BeforeComplete(acc, lo, hi, read, j);
        }
      }
    }
  }

  /** A forward scan meets nothing exactly when no position in range is of the class. */
  lemma AfterEmptyIff(acc: seq<Access>, lo: int, hi: int, read: bool)
    requires 0 <= lo && hi <= |acc|
    ensures After(acc, lo, hi, read) == [] <==> forall j :: lo <= j < hi ==> !InClass(acc[j], read)
  {
    var ms := After(acc, lo, hi, read);
    if ms == [] {
      forall j | lo <= j < hi ensures !InClass(acc[j], read) {
        if InClass(acc[j], read) {
          AfterComplete(acc, lo, hi, read, j);
        }
      }
    }
  }

  /** A past delta is `None` exactly when no access of the class lies at or before `idx - i`. */
  lemma PastNoneIff(acc: seq<Access>, idx: nat, i: nat, read: bool)
    requires idx < |acc| && i >= 1
    ensures PastDelta(acc, idx, i, read).None? <==> forall j :: 0 <= j <= idx - i ==> !InClass(acc[j], read)
  {
    assert PastDelta(acc, idx, i, read).None? <==> Before(acc, -1, idx - i, read) == [];
    BeforeEmptyIff(acc, -1, idx - i, read);
  }

  /** A future delta is `None` exactly when no access of the class lies at or after `idx + i`. */
  lemma FutureNoneIff(acc: seq<Access>, idx: nat, i: nat, read: bool)
    requires idx < |acc| && i >= 1
    ensures FutureDelta(acc, idx, i, read).None? <==> forall j :: idx + i <= j < |acc| ==> !InClass(acc[j], read)
  {
    assert FutureDelta(acc, idx, i, read).None? <==> After(acc, idx + i, |acc|, read) == [];
    AfterEmptyIff(acc, idx + i, |acc|, read);
  }

  /** With rank 1, or with fewer than `i` matches at or before `idx - i`, the past delta is the one
      to the nearest match at or before `idx - i`. */
  lemma PastNearest(acc: seq<Access>, idx: nat, i: nat, read: bool, j: nat)
    requires idx < |acc| && i >= 1
    requires i == 1 || |Before(acc, -1, idx - i, read)| < i
    requires j <= idx - i && InClass(acc[j], read)
    requires forall k :: j < k <= idx - i ==> !InClass(acc[k], read)
    ensures PastDelta(acc, idx, i, read) == Some(Gap(acc, j, idx))
  {
    var ms := Before(acc, -1, idx - i, read);
    BeforeComplete(acc, -1, idx - i, read, j);
    assert ms[0] == j;
  }

  /** With rank 1, or with fewer than `i` matches at or after `idx + i`, the future delta is the one
      to the nearest match at or after `idx + i`. */
  lemma FutureNearest(acc: seq<Access>, idx: nat, i: nat, read: bool, j: nat)
    requires idx < |acc| && i >= 1
    requires i == 1 || |After(acc, idx + i, |acc|, read)| < i
    requires idx + i <= j < |acc| && InClass(acc[j], read)
    requires forall k :: idx + i <= k < j ==> !InClass(acc[k], read)
    ensures FutureDelta(acc, idx, i, read) == Some(Gap(acc, idx, j))
  {
    var ms := After(acc, idx + i, |acc|, read);
    AfterComplete(acc, idx + i, |acc|, read, j);
    var first := ms[0];
    assert idx + i <= first && InClass(acc[first], read);
    assert first <= j;
    assert first == j;
  }

  /** Rank 1 of the future scan is the nearest access of the class strictly after `idx`. */
  lemma NextNeighbour(acc: seq<Access>, idx: nat, read: bool, j: nat)
    requires idx < j < |acc| && InClass(acc[j], read)
    requires forall k :: idx < k < j ==> !InClass(acc[k], read)
    ensures FutureDelta(acc, idx, 1, read) == Some(acc[j].addr - acc[idx].addr)
  {
    FutureNearest(acc, idx, 1, read, j);
  }

  function At(op: Op, addr: int): Access {
    Access(0, None, op, addr)
  }

  /** Types `R, W, R, R, W` at addresses `100, 104, .., 116`: at position 3 the rank-1 scans start
      at position 2, so the rank-1 past read is position 2, at 108, 4 below, and the rank-1 past
      write is position 1, at 104, 8 below. */
  lemma RankOneExample()
    ensures var acc := [At(Read, 100), At(Write, 104), At(Read, 108), At(Read, 112), At(Write, 116)];
      PastDelta(acc, 3, 1, false) == Some(8) && PastDelta(acc, 3, 1, true) == Some(4)
  {
    var acc := [At(Read, 100), At(Write, 104), At(Read, 108), At(Read, 112), At(Write, 116)];
    PastNearest(acc, 3, 1, false, 1);
    PastNearest(acc, 3, 1, true, 2);
  }

  /** Rank 2 starts its scan two positions back: for four reads at `100, 104, 108, 112`, the rank-2
      past read of position 3 is position 0 (delta 12), not the second-nearest read at 104. */
  lemma RankTwoSkipsExample()
    ensures var acc := [At(Read, 100), At(Read, 104), At(Read, 108), At(Read, 112)];
      PastDelta(acc, 3, 2, true) == Some(12)
  {
    var acc := [At(Read, 100), At(Read, 104), At(Read, 108), At(Read, 112)];
    assert Before(acc, 0, 1, true) == [1];
    PastHit(acc, 3, 2, true, 0);
  }

  /** Fewer than `i` matches do not give `None`: a single read three positions back still fills
      the rank-2 past read column of position 3. */
  lemma ShortScanExample()
    ensures var acc := [At(Read, 100), At(Write, 104), At(Write, 108), At(Write, 112)];
      PastDelta(acc, 3, 2, true) == Some(12)
  {
    var acc := [At(Read, 100), At(Write, 104), At(Write, 108), At(Write, 112)];
    assert Before(acc, -1, 1, true) == [0];
    PastNearest(acc, 3, 2, true, 0);
  }
}
