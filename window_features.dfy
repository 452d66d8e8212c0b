/**
 * `generate_features` of the fixed-window pipeline: every entry with an address gets its rank
 * among the address-bearing entries; an entry whose rank has `n` addresses on each side yields a
 * row of `n` past and `n` future address deltas. The row is a dict whose `Address 1_j` and
 * `Address 2_j` keys are written by both the past and the future loop, so the future values win.
 */
module WindowFeatures {
  import opened Wrappers
  import opened Text
  import opened TraceParser
  import opened Dicts

  /** The number of address-bearing entries among `es[..i]`. */
  function MemCount(es: seq<Entry>, i: nat): (c: nat)
    requires i <= |es|
    ensures c <= i
  {
    if i == 0 then 0 else MemCount(es, i - 1) + (if es[i - 1].addr.Some? then 1 else 0)
  }

  /** The addresses of the address-bearing entries among `es[..i]`, in order. */
  function AddrsUpTo(es: seq<Entry>, i: nat): (addrs: seq<int>)
    requires i <= |es|
    ensures |addrs| == MemCount(es, i)
  {
    if i == 0 then []
    else AddrsUpTo(es, i - 1) + (if es[i - 1].addr.Some? then [es[i - 1].addr.value] else [])
  }

  /** `addrs`: the address of every entry that has one, whatever its type. */
  function Addrs(es: seq<Entry>): (addrs: seq<int>)
    ensures |addrs| == MemCount(es, |es|)
  {
    AddrsUpTo(es, |es|)
  }

  lemma {:induction false} AddrsUpToPrefix(es: seq<Entry>, i: nat, k: nat)
    requires i <= k <= |es|
    ensures AddrsUpTo(es, i) <= AddrsUpTo(es, k)
    decreases k
  {
    if i < k {
      AddrsUpToPrefix(es, i, k - 1);
    }
  }

  lemma {:induction false} MemCountMono(es: seq<Entry>, i: nat, k: nat)
    requires i <= k <= |es|
    ensures MemCount(es, i) <= MemCount(es, k)
    decreases k
  {
    if i < k {
      MemCountMono(es, i, k - 1);
    }
  }

  /** The rank of an address-bearing entry points at its own address, and ranks strictly increase. */
  lemma MemRankAddress(es: seq<Entry>, i: nat)
    requires i < |es| && es[i].addr.Some?
    ensures MemCount(es, i) < |Addrs(es)| && Addrs(es)[MemCount(es, i)] == es[i].addr.value
    ensures forall k :: i < k <= |es| ==> MemCount(es, i) < MemCount(es, k)
  {
    MemRankIndex(es, i);
    forall k | i < k <= |es| ensures MemCount(es, i) < MemCount(es, k) {
      MemCountMono(es, i + 1, k);
    }
  }

  lemma MemRankIndex(es: seq<Entry>, i: nat)
    requires i < |es| && es[i].addr.Some?
    ensures MemCount(es, i) < |Addrs(es)| && Addrs(es)[MemCount(es, i)] == es[i].addr.value
  {
    AddrsUpToPrefix(es, i + 1, |es|);
    assert AddrsUpTo(es, i + 1)[MemCount(es, i)] == es[i].addr.value;
  }

  /** The `timestamp_to_memindex` loop: every entry position is a key, mapped to its rank when it
      has an address and to `None` when it has not. */
  method MemIndexMap(es: seq<Entry>) returns (m: map<nat, Option<nat>>)
    ensures forall i :: i in m <==> 0 <= i < |es|
    ensures forall i :: 0 <= i < |es| ==> m[i] == if es[i].addr.Some? then Some(MemCount(es, i)) else None
  {
    m := map[];
    var memIdx := 0;
    var i := 0;
    while i < |es|
      invariant 0 <= i <= |es|
      invariant memIdx == MemCount(es, i)
      invariant forall k :: k in m <==> 0 <= k < i
      invariant forall k :: 0 <= k < i ==> m[k] == if es[k].addr.Some? then Some(MemCount(es, k)) else None
    {
      if es[i].addr.Some? {
        m := m[i := Some(memIdx)];
        memIdx := memIdx + 1;
      } else {
        m := m[i := None];
      }
      i := i + 1;
    }
  }

  /** The keys of a row, written as the source spells them in `KeyName`. */
  datatype Key = TimestampKey | PcKey | TypeKey | PastKey(j: nat) | FutureKey(j: nat) | Addr1Key(j: nat) | Addr2Key(j: nat)

  function KeyName(k: Key): string {
    match k
    case TimestampKey => "Timestamp"
    case PcKey => "PC"
    case TypeKey => "Type"
    case PastKey(j) => "Delta(i-" + Decimal(j) + ")"
    case FutureKey(j) => "Delta(i+" + Decimal(j) + ")"
    case Addr1Key(j) => "Address 1_" + Decimal(j)
    case Addr2Key(j) => "Address 2_" + Decimal(j)
  }

  /** A cell of a row. */
  datatype Value = Num(int) | Text(string)

  /** The keys of a row once the past loop `for j in range(n, 0, -1)` has done rounds `hi` down to
      `lo + 1`: the three fixed keys, then per round its delta key and its two address keys. */
  function PastOrder(hi: nat, lo: nat): (ks: seq<Key>)
    ensures |ks| == 3 + 3 * Max0(hi - lo)
    decreases hi - lo
  {
    if hi <= lo then [TimestampKey, PcKey, TypeKey]
    else PastOrder(hi, lo + 1) + [PastKey(lo + 1), Addr1Key(lo + 1), Addr2Key(lo + 1)]
  }

  /** The keys the past rounds `hi` down to `lo + 1` have written, with the fixed ones. */
  predicate InPast(k: Key, hi: nat, lo: nat) {
    k == TimestampKey || k == PcKey || k == TypeKey || ((k.PastKey? || k.Addr1Key? || k.Addr2Key?) && lo < k.j <= hi)
  }

  predicate Distinct(ks: seq<Key>) {
    forall a, b :: 0 <= a < b < |ks| ==> ks[a] != ks[b]
  }

  /** Appending keys not yet present to distinct keys keeps them distinct. */
  lemma DistinctAppend(ks: seq<Key>, more: seq<Key>)
    requires Distinct(ks) && Distinct(more) && forall k :: k in more ==> k !in ks
    ensures Distinct(ks + more)
  {
    var all := ks + more;
    forall a, b | 0 <= a < b < |all| ensures all[a] != all[b] {
      if b >= |ks| {
        assert all[b] == more[b - |ks|];
        if a < |ks| {
          assert all[a] in ks;
        } else {
          assert all[a] == more[a - |ks|];
        }
      }
    }
  }

  lemma DistinctEq(ks: seq<Key>, ks': seq<Key>)
    requires ks == ks' && Distinct(ks)
    ensures Distinct(ks')
  {
  }

  lemma DistinctAppend3(ks: seq<Key>, a: Key, b: Key, c: Key)
    requires Distinct(ks) && a !in ks && b !in ks && c !in ks && a != b && a != c && b != c
    ensures Distinct(ks + [a, b, c])
  {
    DistinctAppend(ks, [a, b, c]);
  }

  /** The past rounds `hi` down to `lo + 1` have written exactly their keys. */
  lemma {:induction false} PastOrderHas(hi: nat, lo: nat, k: Key)
    ensures k in PastOrder(hi, lo) <==> InPast(k, hi, lo)
    decreases hi - lo
  {
    if lo < hi {
      PastOrderHas(hi, lo + 1, k);
    }
  }

  /** No past round writes a key twice. */
  lemma {:induction false} PastOrderDistinct(hi: nat, lo: nat)
    ensures Distinct(PastOrder(hi, lo))
    decreases hi - lo
  {
    if lo < hi {
      PastOrderDistinct(hi, lo + 1);
      PastOrderHas(hi, lo + 1, PastKey(lo + 1));
      PastOrderHas(hi, lo + 1, Addr1Key(lo + 1));
      PastOrderHas(hi, lo + 1, Addr2Key(lo + 1));
      var ks := PastOrder(hi, lo + 1) + [PastKey(lo + 1), Addr1Key(lo + 1), Addr2Key(lo + 1)];
      DistinctAppend3(PastOrder(hi, lo + 1), PastKey(lo + 1), Addr1Key(lo + 1), Addr2Key(lo + 1));
      DistinctEq(ks, PastOrder(hi, lo));
    }
  }

  /** The keys after the past loop and future rounds `1..j` of `for j in range(1, n + 1)`: each
      round adds its delta key, its address keys being there already. */
  function FutureOrder(m: nat, j: nat): (ks: seq<Key>)
    ensures |ks| == 3 + 3 * m + j
  {
    if j == 0 then PastOrder(m, 0) else FutureOrder(m, j - 1) + [FutureKey(j)]
  }

  /** The keys present after the past loop and future rounds `1..j`. */
  lemma {:induction false} FutureOrderHas(m: nat, j: nat, k: Key)
    ensures k in FutureOrder(m, j) <==> InPast(k, m, 0) || (k.FutureKey? && 0 < k.j <= j)
  {
    if j == 0 {
      PastOrderHas(m, 0, k);
    } else {
      FutureOrderHas(m, j - 1, k);
    }
  }

  /** No future round adds a key that is there already. */
  lemma {:induction false} FutureOrderDistinct(m: nat, j: nat)
    ensures Distinct(FutureOrder(m, j))
  {
    if j == 0 {
      PastOrderDistinct(m, 0);
    } else {
      FutureOrderDistinct(m, j - 1);
      FutureOrderHas(m, j - 1, FutureKey(j));
      DistinctAppend(FutureOrder(m, j - 1), [FutureKey(j)]);
    }
  }

  /** The key order of a finished row: `3 + 4 * max(0, n)` distinct keys. */
  function RowKeys(n: int): (ks: seq<Key>)
    ensures |ks| == 3 + 4 * Max0(n)
    ensures Distinct(ks)
  {
    FutureOrderDistinct(Max0(n), Max0(n));
    FutureOrder(Max0(n), Max0(n))
  }

  /** `addrs[idx - j]`, the address `j` places back. */
  function Back(addrs: seq<int>, idx: nat, j: nat): int
    requires j <= idx < |addrs|
  {
    addrs[idx - j]
  }

  /** `addrs[idx + j]`, the address `j` places ahead. */
  function Ahead(addrs: seq<int>, idx: nat, j: nat): int
    requires idx + j < |addrs|
  {
    addrs[idx + j]
  }

  /** `Delta(i-j)`: the current address minus the one `j` places back. */
  function PastDelta(addrs: seq<int>, idx: nat, j: nat): (r: int)
    requires j <= idx < |addrs|
    ensures j == 0 ==> r == 0
    ensures (forall a, b :: 0 <= a < b < |addrs| ==> addrs[a] < addrs[b]) && j > 0 ==> r > 0
  {
    addrs[idx] - Back(addrs, idx, j)
  }

  /** `Delta(i+j)`: the address `j` places ahead minus the current one. */
  function FutureDelta(addrs: seq<int>, idx: nat, j: nat): (r: int)
    requires idx + j < |addrs|
    ensures r == PastDelta(addrs, idx + j, j)
  {
    Ahead(addrs, idx, j) - addrs[idx]
  }

  /** The value a finished row holds under `k`; the `Address` keys hold the future pair. */
  function Cell(e: Entry, pc: string, addrs: seq<int>, idx: nat, n: int, k: Key): Value
    requires n <= idx < |addrs| && idx + n < |addrs|
    requires k.PastKey? || k.FutureKey? || k.Addr1Key? || k.Addr2Key? ==> 1 <= k.j <= n
  {
    match k
    case TimestampKey => Num(e.timestamp)
    case PcKey => Text(pc)
    case TypeKey => Text(e.kind)
    case PastKey(j) => Num(PastDelta(addrs, idx, j))
    case FutureKey(j) => Num(FutureDelta(addrs, idx, j))
    case Addr1Key(j) => Num(Ahead(addrs, idx, j))
    case Addr2Key(j) => Num(addrs[idx])
  }

  lemma RowKeyRanks(n: int, k: Key)
    requires k in RowKeys(n)
    ensures k.PastKey? || k.FutureKey? || k.Addr1Key? || k.Addr2Key? ==> 1 <= k.j <= n
  {
    FutureOrderHas(Max0(n), Max0(n), k);
  }

  /** The finished `feature_row` of the entry `e` at rank `idx`, `pc` being `hex(e['pc'])`. */
  function WindowRow(e: Entry, pc: string, addrs: seq<int>, idx: nat, n: int): (row: ODict<Key, Value>)
    requires n <= idx < |addrs| && idx + n < |addrs|
    ensures row.Valid() && |row.keys| == 3 + 4 * Max0(n)
    ensures forall j :: 1 <= j <= n ==> PastKey(j) in row.vals && row.vals[PastKey(j)] == Num(addrs[idx] - addrs[idx - j])
    ensures forall j :: 1 <= j <= n ==> FutureKey(j) in row.vals && row.vals[FutureKey(j)] == Num(addrs[idx + j] - addrs[idx])
  {
    RowDeltaKeys(n);
    var ks := RowKeys(n);
    ODict(ks, map k | k in ks :: (RowKeyRanks(n, k); Cell(e, pc, addrs, idx, n, k)))
  }

  /** Every delta key of rank `1..n` is a key of a finished row. */
  lemma RowDeltaKeys(n: int)
    ensures forall j :: 1 <= j <= n ==> PastKey(j) in RowKeys(n) && FutureKey(j) in RowKeys(n)
  {
    forall j | 1 <= j <= n
      ensures PastKey(j) in RowKeys(n) && FutureKey(j) in RowKeys(n)
    {
      FutureOrderHas(Max0(n), Max0(n), PastKey(j));
      FutureOrderHas(Max0(n), Max0(n), FutureKey(j));
    }
  }

  /** A finished row is a well-formed dict. */
  lemma WindowRowValid(e: Entry, pc: string, addrs: seq<int>, idx: nat, n: int)
    requires n <= idx < |addrs| && idx + n < |addrs|
    ensures WindowRow(e, pc, addrs, idx, n).Valid()
  {
  }

  /** One round `j` of the past loop: `Delta(i-j)`, `Address 1_j`, `Address 2_j`. */
  function PastStep(d: ODict<Key, Value>, addrs: seq<int>, idx: nat, j: nat): (r: ODict<Key, Value>)
    requires 1 <= j <= idx < |addrs|
  {
    Put(Put(Put(d, PastKey(j), Num(PastDelta(addrs, idx, j))), Addr1Key(j), Num(addrs[idx])), Addr2Key(j), Num(Back(addrs, idx, j)))
  }

  /** One round `j` of the future loop: `Delta(i+j)`, then `Address 1_j` and `Address 2_j` again. */
  function FutureStep(d: ODict<Key, Value>, addrs: seq<int>, idx: nat, j: nat): (r: ODict<Key, Value>)
    requires idx + j < |addrs|
  {
    Put(Put(Put(d, FutureKey(j), Num(FutureDelta(addrs, idx, j))), Addr1Key(j), Num(Ahead(addrs, idx, j))), Addr2Key(j), Num(addrs[idx]))
  }

  /** The keys of `d` are `ks`, and they are exactly the keys its mapping has. */
  ghost predicate KeyedBy(d: ODict<Key, Value>, ks: seq<Key>) {
    d.keys == ks && forall k :: k in d.vals <==> k in ks
  }

  lemma PastOrderStep(hi: nat, lo: nat)
    requires lo < hi
    ensures PastOrder(hi, lo) == PastOrder(hi, lo + 1) + [PastKey(lo + 1)] + [Addr1Key(lo + 1)] + [Addr2Key(lo + 1)]
  {
    ThreeMore(PastOrder(hi, lo + 1), PastKey(lo + 1), Addr1Key(lo + 1), Addr2Key(lo + 1));
  }

  /** `KeyedBy` carried across equal dicts and equal key sequences. */
  lemma KeyedByEq(d: ODict<Key, Value>, d': ODict<Key, Value>, ks: seq<Key>, ks': seq<Key>)
    requires d == d' && ks == ks' && KeyedBy(d, ks)
    ensures KeyedBy(d', ks')
  {
  }

  lemma ThreeMore(ks: seq<Key>, a: Key, b: Key, c: Key)
    ensures ks + [a] + [b] + [c] == ks + [a, b, c]
  {
  }

  /** Storing a key not yet present appends it. */
  lemma PutNew(d: ODict<Key, Value>, ks: seq<Key>, k: Key, v: Value)
    requires KeyedBy(d, ks) && k !in ks
    ensures KeyedBy(Put(d, k, v), ks + [k])
  {
  }

  /** Storing a key already present keeps the key order. */
  lemma PutPresent(d: ODict<Key, Value>, ks: seq<Key>, k: Key, v: Value)
    requires KeyedBy(d, ks) && k in ks
    ensures KeyedBy(Put(d, k, v), ks)
  {
  }

  /** The fixed cells of a row. */
  predicate FixedCells(vals: map<Key, Value>, e: Entry, pc: string) {
    && TimestampKey in vals && vals[TimestampKey] == Num(e.timestamp)
    && PcKey in vals && vals[PcKey] == Text(pc)
    && TypeKey in vals && vals[TypeKey] == Text(e.kind)
  }

  /** The cells after past rounds `hi` down to `lo + 1`: each has its delta and the past address pair. */
  ghost predicate PastCells(vals: map<Key, Value>, addrs: seq<int>, idx: nat, hi: nat, lo: nat)
    requires hi <= idx < |addrs|
  {
    forall t :: lo < t <= hi ==>
      && PastKey(t) in vals && vals[PastKey(t)] == Num(PastDelta(addrs, idx, t))
      && Addr1Key(t) in vals && vals[Addr1Key(t)] == Num(addrs[idx])
      && Addr2Key(t) in vals && vals[Addr2Key(t)] == Num(Back(addrs, idx, t))
  }

  /** A past round appends its three keys, none of which was there. */
  lemma PastStepKeys(d: ODict<Key, Value>, addrs: seq<int>, idx: nat, hi: nat, lo: nat)
    requires lo < hi <= idx < |addrs| && KeyedBy(d, PastOrder(hi, lo + 1))
    ensures KeyedBy(PastStep(d, addrs, idx, lo + 1), PastOrder(hi, lo))
  {
    var j := lo + 1;
    var ks := PastOrder(hi, j);
    PastOrderHas(hi, j, PastKey(j));
    PastOrderHas(hi, j, Addr1Key(j));
    PastOrderHas(hi, j, Addr2Key(j));
    var d1 := Put(d, PastKey(j), Num(PastDelta(addrs, idx, j)));
    PutNew(d, ks, PastKey(j), Num(PastDelta(addrs, idx, j)));
    var d2 := Put(d1, Addr1Key(j), Num(addrs[idx]));
    PutNew(d1, ks + [PastKey(j)], Addr1Key(j), Num(addrs[idx]));
    var d3 := Put(d2, Addr2Key(j), Num(Back(addrs, idx, j)));
    PutNew(d2, ks + [PastKey(j)] + [Addr1Key(j)], Addr2Key(j), Num(Back(addrs, idx, j)));
    assert d3 == PastStep(d, addrs, idx, j);
    PastOrderStep(hi, lo);
    KeyedByEq(d3, PastStep(d, addrs, idx, j), ks + [PastKey(j)] + [Addr1Key(j)] + [Addr2Key(j)], PastOrder(hi, lo));
  }

  /** A past round stores its cells and leaves the other cells as they were. */
  lemma PastStepCells(d: ODict<Key, Value>, e: Entry, pc: string, addrs: seq<int>, idx: nat, hi: nat, lo: nat)
    requires lo < hi <= idx < |addrs| && FixedCells(d.vals, e, pc) && PastCells(d.vals, addrs, idx, hi, lo + 1)
    ensures FixedCells(PastStep(d, addrs, idx, lo + 1).vals, e, pc)
    ensures PastCells(PastStep(d, addrs, idx, lo + 1).vals, addrs, idx, hi, lo)
  {
  }

  /** The cells after the past loop and future rounds `1..j`: rounds up to `j` have their future delta
      and have had their address pair rewritten; later rounds still hold the past pair. */
  ghost predicate FutureCells(vals: map<Key, Value>, addrs: seq<int>, idx: nat, m: nat, j: nat)
    requires j <= m <= idx && idx + m < |addrs|
  {
    PastDeltaCells(vals, addrs, idx, m) && FuturePairCells(vals, addrs, idx, j) && PastPairCells(vals, addrs, idx, j, m)
  }

  /** Every past delta of rounds `1..m` is stored. */
  ghost predicate PastDeltaCells(vals: map<Key, Value>, addrs: seq<int>, idx: nat, m: nat)
    requires m <= idx < |addrs|
  {
    forall t :: 0 < t <= m ==> PastKey(t) in vals && vals[PastKey(t)] == Num(PastDelta(addrs, idx, t))
  }

  /** Future rounds `1..j` have stored their delta and their address pair. */
  ghost predicate FuturePairCells(vals: map<Key, Value>, addrs: seq<int>, idx: nat, j: nat)
    requires idx + j < |addrs|
  {
    forall t :: 0 < t <= j ==>
      && FutureKey(t) in vals && vals[FutureKey(t)] == Num(FutureDelta(addrs, idx, t))
      && Addr1Key(t) in vals && vals[Addr1Key(t)] == Num(Ahead(addrs, idx, t))
      && Addr2Key(t) in vals && vals[Addr2Key(t)] == Num(addrs[idx])
  }

  /** Rounds `j + 1..m` still hold the address pair of the past loop. */
  ghost predicate PastPairCells(vals: map<Key, Value>, addrs: seq<int>, idx: nat, j: nat, m: nat)
    requires m <= idx < |addrs|
  {
    forall t :: j < t <= m ==>
      && Addr1Key(t) in vals && vals[Addr1Key(t)] == Num(addrs[idx])
      && Addr2Key(t) in vals && vals[Addr2Key(t)] == Num(Back(addrs, idx, t))
  }

  lemma PastThenFuture(vals: map<Key, Value>, addrs: seq<int>, idx: nat, m: nat)
    requires m <= idx && idx + m < |addrs| && PastCells(vals, addrs, idx, m, 0)
    ensures FutureCells(vals, addrs, idx, m, 0)
  {
  }

  /** A future round appends its delta key; its address keys keep their place. */
  lemma FutureStepKeys(d: ODict<Key, Value>, addrs: seq<int>, idx: nat, m: nat, j: nat)
    requires 1 <= j <= m && idx + m < |addrs| && KeyedBy(d, FutureOrder(m, j - 1))
    ensures KeyedBy(FutureStep(d, addrs, idx, j), FutureOrder(m, j))
  {
    var ks := FutureOrder(m, j);
    FutureOrderHas(m, j - 1, FutureKey(j));
    FutureOrderHas(m, j, Addr1Key(j));
    FutureOrderHas(m, j, Addr2Key(j));
    var d1 := Put(d, FutureKey(j), Num(FutureDelta(addrs, idx, j)));
    PutNew(d, FutureOrder(m, j - 1), FutureKey(j), Num(FutureDelta(addrs, idx, j)));
    var d2 := Put(d1, Addr1Key(j), Num(Ahead(addrs, idx, j)));
    PutPresent(d1, ks, Addr1Key(j), Num(Ahead(addrs, idx, j)));
    var d3 := Put(d2, Addr2Key(j), Num(addrs[idx]));
    PutPresent(d2, ks, Addr2Key(j), Num(addrs[idx]));
    KeyedByEq(d3, FutureStep(d, addrs, idx, j), ks, ks);
  }

  /** A future round stores its delta, rewrites its address pair and leaves the other cells alone. */
  lemma FutureStepCells(d: ODict<Key, Value>, e: Entry, pc: string, addrs: seq<int>, idx: nat, m: nat, j: nat)
    requires 1 <= j <= m <= idx && idx + m < |addrs|
    requires FixedCells(d.vals, e, pc) && FutureCells(d.vals, addrs, idx, m, j - 1)
    ensures FixedCells(FutureStep(d, addrs, idx, j).vals, e, pc)
    ensures FutureCells(FutureStep(d, addrs, idx, j).vals, addrs, idx, m, j)
  {
    var v := d.vals[FutureKey(j) := Num(FutureDelta(addrs, idx, j))][Addr1Key(j) := Num(Ahead(addrs, idx, j))][Addr2Key(j) := Num(addrs[idx])];
    assert FutureStep(d, addrs, idx, j).vals == v;
    FutureFixed(d.vals, e, pc, addrs, idx, j);
    FutureKeepsPastDeltas(d.vals, addrs, idx, m, j);
    FutureAddsPair(d.vals, addrs, idx, j);
    FutureLeavesPastPairs(d.vals, addrs, idx, m, j);
  }

  lemma FutureFixed(vals: map<Key, Value>, e: Entry, pc: string, addrs: seq<int>, idx: nat, j: nat)
    requires 1 <= j && idx + j < |addrs| && FixedCells(vals, e, pc)
    ensures FixedCells(vals[FutureKey(j) := Num(FutureDelta(addrs, idx, j))][Addr1Key(j) := Num(Ahead(addrs, idx, j))][Addr2Key(j) := Num(addrs[idx])], e, pc)
  {
  }

  lemma FutureKeepsPastDeltas(vals: map<Key, Value>, addrs: seq<int>, idx: nat, m: nat, j: nat)
    requires 1 <= j <= m <= idx && idx + m < |addrs| && PastDeltaCells(vals, addrs, idx, m)
    ensures PastDeltaCells(vals[FutureKey(j) := Num(FutureDelta(addrs, idx, j))][Addr1Key(j) := Num(Ahead(addrs, idx, j))][Addr2Key(j) := Num(addrs[idx])], addrs, idx, m)
  {
  }

  lemma FutureAddsPair(vals: map<Key, Value>, addrs: seq<int>, idx: nat, j: nat)
    requires 1 <= j && idx + j < |addrs| && FuturePairCells(vals, addrs, idx, j - 1)
    ensures FuturePairCells(vals[FutureKey(j) := Num(FutureDelta(addrs, idx, j))][Addr1Key(j) := Num(Ahead(addrs, idx, j))][Addr2Key(j) := Num(addrs[idx])], addrs, idx, j)
  {
  }

  lemma FutureLeavesPastPairs(vals: map<Key, Value>, addrs: seq<int>, idx: nat, m: nat, j: nat)
    requires 1 <= j <= m <= idx && idx + m < |addrs| && PastPairCells(vals, addrs, idx, j - 1, m)
    ensures PastPairCells(vals[FutureKey(j) := Num(FutureDelta(addrs, idx, j))][Addr1Key(j) := Num(Ahead(addrs, idx, j))][Addr2Key(j) := Num(addrs[idx])], addrs, idx, j, m)
  {
  }

  /** After both loops the dict is the finished row: every `Address` key holds the future pair. */
  lemma FinishedRow(d: ODict<Key, Value>, e: Entry, pc: string, addrs: seq<int>, idx: nat, n: int)
    requires n <= idx < |addrs| && idx + n < |addrs|
    requires KeyedBy(d, RowKeys(n)) && FixedCells(d.vals, e, pc) && FutureCells(d.vals, addrs, idx, Max0(n), Max0(n))
    ensures d == WindowRow(e, pc, addrs, idx, n)
  {
    var want := WindowRow(e, pc, addrs, idx, n);
    forall k | k in want.vals ensures k in d.vals && d.vals[k] == want.vals[k] {
      RowKeyRanks(n, k);
      FinishedCell(d.vals, e, pc, addrs, idx, n, k);
    }
    assert d.vals == want.vals;
  }

  /** After both loops every key holds the value of the finished row. */
  lemma FinishedCell(vals: map<Key, Value>, e: Entry, pc: string, addrs: seq<int>, idx: nat, n: int, k: Key)
    requires n <= idx < |addrs| && idx + n < |addrs|
    requires FixedCells(vals, e, pc) && FutureCells(vals, addrs, idx, Max0(n), Max0(n))
    requires k.PastKey? || k.FutureKey? || k.Addr1Key? || k.Addr2Key? ==> 1 <= k.j <= n
    ensures k in vals && vals[k] == Cell(e, pc, addrs, idx, n, k)
  {
  }

  /** Round `j` of the past loop. */
  method PastRound(row: ODict<Key, Value>, ghost e: Entry, ghost pc: string, addrs: seq<int>, idx: nat, m: nat, j: nat)
    returns (row': ODict<Key, Value>)
    requires 1 <= j <= m <= idx < |addrs|
    requires KeyedBy(row, PastOrder(m, j)) && FixedCells(row.vals, e, pc) && PastCells(row.vals, addrs, idx, m, j)
    ensures KeyedBy(row', PastOrder(m, j - 1)) && FixedCells(row'.vals, e, pc) && PastCells(row'.vals, addrs, idx, m, j - 1)
  {
    row' := Put(row, PastKey(j), Num(PastDelta(addrs, idx, j)));
    row' := Put(row', Addr1Key(j), Num(addrs[idx]));
    row' := Put(row', Addr2Key(j), Num(Back(addrs, idx, j)));
    PastRoundDone(row, row', e, pc, addrs, idx, m, j);
  }

  lemma PastRoundDone(row: ODict<Key, Value>, row': ODict<Key, Value>, e: Entry, pc: string, addrs: seq<int>, idx: nat, m: nat, j: nat)
    requires 1 <= j <= m <= idx < |addrs|
    requires KeyedBy(row, PastOrder(m, j)) && FixedCells(row.vals, e, pc) && PastCells(row.vals, addrs, idx, m, j)
    requires row' == Put(Put(Put(row, PastKey(j), Num(PastDelta(addrs, idx, j))), Addr1Key(j), Num(addrs[idx])), Addr2Key(j), Num(Back(addrs, idx, j)))
    ensures KeyedBy(row', PastOrder(m, j - 1)) && FixedCells(row'.vals, e, pc) && PastCells(row'.vals, addrs, idx, m, j - 1)
  {
    PastStepKeys(row, addrs, idx, m, j - 1);
    PastStepCells(row, e, pc, addrs, idx, m, j - 1);
  }

  /** The past loop `for j in range(n, 0, -1)` over a row holding its fixed cells. */
  method FillPast(start: ODict<Key, Value>, ghost e: Entry, ghost pc: string, addrs: seq<int>, idx: nat, n: int) returns (row: ODict<Key, Value>)
    requires n <= idx < |addrs|
    requires KeyedBy(start, PastOrder(Max0(n), Max0(n))) && FixedCells(start.vals, e, pc)
    ensures KeyedBy(row, PastOrder(Max0(n), 0)) && FixedCells(row.vals, e, pc) && PastCells(row.vals, addrs, idx, Max0(n), 0)
  {
    var m := Max0(n);
    row := start;
    for j := m + 1 downto 1
      invariant KeyedBy(row, PastOrder(m, j - 1))
      invariant FixedCells(row.vals, e, pc) && PastCells(row.vals, addrs, idx, m, j - 1)
    {
      row := PastRound(row, e, pc, addrs, idx, m, j);
    }
  }

  /** Round `j` of the future loop. */
  method FutureRound(row: ODict<Key, Value>, ghost e: Entry, ghost pc: string, addrs: seq<int>, idx: nat, m: nat, j: nat)
    returns (row': ODict<Key, Value>)
    requires 1 <= j <= m <= idx && idx + m < |addrs|
    requires KeyedBy(row, FutureOrder(m, j - 1)) && FixedCells(row.vals, e, pc) && FutureCells(row.vals, addrs, idx, m, j - 1)
    ensures KeyedBy(row', FutureOrder(m, j)) && FixedCells(row'.vals, e, pc) && FutureCells(row'.vals, addrs, idx, m, j)
  {
    row' := Put(row, FutureKey(j), Num(FutureDelta(addrs, idx, j)));
    row' := Put(row', Addr1Key(j), Num(Ahead(addrs, idx, j)));
    row' := Put(row', Addr2Key(j), Num(addrs[idx]));
    FutureRoundDone(row, row', e, pc, addrs, idx, m, j);
  }

  lemma FutureRoundDone(row: ODict<Key, Value>, row': ODict<Key, Value>, e: Entry, pc: string, addrs: seq<int>, idx: nat, m: nat, j: nat)
    requires 1 <= j <= m <= idx && idx + m < |addrs|
    requires KeyedBy(row, FutureOrder(m, j - 1)) && FixedCells(row.vals, e, pc) && FutureCells(row.vals, addrs, idx, m, j - 1)
    requires row' == Put(Put(Put(row, FutureKey(j), Num(FutureDelta(addrs, idx, j))), Addr1Key(j), Num(Ahead(addrs, idx, j))), Addr2Key(j), Num(addrs[idx]))
    ensures KeyedBy(row', FutureOrder(m, j)) && FixedCells(row'.vals, e, pc) && FutureCells(row'.vals, addrs, idx, m, j)
  {
    FutureStepKeys(row, addrs, idx, m, j);
    FutureStepCells(row, e, pc, addrs, idx, m, j);
  }

  /** The future loop `for j in range(1, n + 1)` over a row the past loop has filled. */
  method FillFuture(start: ODict<Key, Value>, ghost e: Entry, ghost pc: string, addrs: seq<int>, idx: nat, n: int) returns (row: ODict<Key, Value>)
    requires n <= idx < |addrs| && idx + n < |addrs|
    requires KeyedBy(start, FutureOrder(Max0(n), 0)) && FixedCells(start.vals, e, pc)
    requires FutureCells(start.vals, addrs, idx, Max0(n), 0)
    ensures KeyedBy(row, RowKeys(n)) && FixedCells(row.vals, e, pc) && FutureCells(row.vals, addrs, idx, Max0(n), Max0(n))
  {
    var m := Max0(n);
    row := start;
    for j := 1 to m + 1
      invariant KeyedBy(row, FutureOrder(m, j - 1))
      invariant FixedCells(row.vals, e, pc) && FutureCells(row.vals, addrs, idx, m, j - 1)
    {
      row := FutureRound(row, e, pc, addrs, idx, m, j);
    }
  }

  /** Filling one row: the fixed cells, then the past loop, then the future loop. */
  method BuildRow(e: Entry, pc: string, addrs: seq<int>, idx: nat, n: int) returns (row: ODict<Key, Value>)
    requires n <= idx < |addrs| && idx + n < |addrs|
    ensures row.Valid() && row == WindowRow(e, pc, addrs, idx, n)
  {
    var m := Max0(n);
    row := Put(Put(Put(Empty(), TimestampKey, Num(e.timestamp)), PcKey, Text(pc)), TypeKey, Text(e.kind));
    assert KeyedBy(row, PastOrder(m, m));
    row := FillPast(row, e, pc, addrs, idx, n);
    PastThenFuture(row.vals, addrs, idx, m);
    row := FillFuture(row, e, pc, addrs, idx, n);
    FinishedRow(row, e, pc, addrs, idx, n);
    WindowRowValid(e, pc, addrs, idx, n);
  }

  /** Why the fixed-window pipeline stops: `hex(e['pc'])` on an entry that has an address but no PC. */
  datatype WindowError = PcIsNone(timestamp: nat)

  /** The entry at `i` gets a row: it has an address whose rank has `n` addresses on each side. */
  predicate Eligible(es: seq<Entry>, n: int, i: nat)
    requires i < |es|
    ensures Eligible(es, n, i) ==> n + n < |Addrs(es)|
    ensures Eligible(es, n, i) ==>
      es[i].addr.Some? && MemCount(es, i) < |Addrs(es)| && Addrs(es)[MemCount(es, i)] == es[i].addr.value
  {
    if es[i].addr.Some? then
      MemRankIndex(es, i);
      n <= MemCount(es, i) && MemCount(es, i) + n < |Addrs(es)|
    else
      false
  }

  /** The number of eligible entries among `es[..i]`. */
  function EligibleCount(es: seq<Entry>, n: int, i: nat): (c: nat)
    requires i <= |es|
    ensures c <= i
  {
    if i == 0 then 0 else EligibleCount(es, n, i - 1) + (if Eligible(es, n, i - 1) then 1 else 0)
  }

  /** Every eligible entry among `es[..i]` has a PC. */
  predicate PcsPresent(es: seq<Entry>, n: int, i: nat)
    requires i <= |es|
  {
    forall k :: 0 <= k < i && Eligible(es, n, k) ==> es[k].pc.Some?
  }

  /** The rows of the eligible entries among `es[..i]`, in entry order. */
  function Rows(es: seq<Entry>, n: int, i: nat): (rows: seq<ODict<Key, Value>>)
    requires i <= |es| && PcsPresent(es, n, i)
    ensures |rows| == EligibleCount(es, n, i)
  {
    if i == 0 then []
    else if Eligible(es, n, i - 1) then
      MemRankAddress(es, i - 1);
      Rows(es, n, i - 1) + [WindowRow(es[i - 1], PyHex(es[i - 1].pc.value), Addrs(es), MemCount(es, i - 1), n)]
    else Rows(es, n, i - 1)
  }

  /** The first eligible entry without a PC is at `i`. */
  predicate FirstMissingPc(es: seq<Entry>, n: int, i: nat)
    requires i < |es|
  {
    Eligible(es, n, i) && es[i].pc.None? && PcsPresent(es, n, i)
  }

  /** `generate_features(entries, n)`: the row of every eligible entry, in entry order, or the failure
      at the first eligible entry without a PC. */
  method GenerateFeatures(es: seq<Entry>, n: int) returns (r: Result<seq<ODict<Key, Value>>, WindowError>)
    ensures r.Ok? <==> PcsPresent(es, n, |es|)
    ensures r.Ok? ==> r.value == Rows(es, n, |es|)
    ensures r.Err? ==> exists i :: 0 <= i < |es| && FirstMissingPc(es, n, i) && r.error == PcIsNone(es[i].timestamp)
  {
    var addrs := Addrs(es);
    var memIndex := MemIndexMap(es);
    var rows := [];
    var i := 0;
    while i < |es|
      invariant 0 <= i <= |es|
      invariant PcsPresent(es, n, i) && rows == Rows(es, n, i)
    {
      var idx := memIndex[i];
      if idx.Some? {
        MemRankAddress(es, i);
        if !(idx.value < n || idx.value + n >= |addrs|) {
          assert Eligible(es, n, i);
          if es[i].pc.None? {
            assert FirstMissingPc(es, n, i);
            return Err(PcIsNone(es[i].timestamp));
          }
          var row := BuildRow(es[i], PyHex(es[i].pc.value), addrs, idx.value, n);
          rows := rows + [row];
        }
      }
      i := i + 1;
    }
    return Ok(rows);
  }

  /** The eligible entry at `k` has its row at the position counting the eligible entries before it. */
  lemma {:induction false} RowsAt(es: seq<Entry>, n: int, i: nat, k: nat)
    requires k < i <= |es| && PcsPresent(es, n, i) && Eligible(es, n, k) && es[k].pc.Some?
    ensures MemCount(es, k) < |Addrs(es)|
    ensures EligibleCount(es, n, k) < |Rows(es, n, i)|
    ensures Rows(es, n, i)[EligibleCount(es, n, k)] == WindowRow(es[k], PyHex(es[k].pc.value), Addrs(es), MemCount(es, k), n)
    decreases i
  {
    MemRankAddress(es, k);
    if k < i - 1 {
      assert PcsPresent(es, n, i - 1);
      RowsAt(es, n, i - 1, k);
      EligibleCountMono(es, n, k + 1, i - 1);
    }
  }

  lemma {:induction false} EligibleCountMono(es: seq<Entry>, n: int, i: nat, k: nat)
    requires i <= k <= |es|
    ensures EligibleCount(es, n, i) <= EligibleCount(es, n, k)
    decreases k
  {
    if i < k {
      EligibleCountMono(es, n, i, k - 1);
    }
  }

  /** The number of rows: every rank from `max(0, n)` up to, but not including, `min(L, L - n)` gets
      one, `L` being the number of addresses; `max(0, L - 2n)` when `n >= 0`. */
  lemma {:induction false} EligibleCountIs(es: seq<Entry>, n: int, i: nat)
    requires i <= |es|
    ensures EligibleCount(es, n, i) == Max0(Min(MemCount(es, i), Min(|Addrs(es)|, |Addrs(es)| - n)) - Max0(n))
    decreases i
  {
    if i > 0 {
      EligibleCountIs(es, n, i - 1);
      if es[i - 1].addr.Some? {
        MemRankAddress(es, i - 1);
      }
    }
  }

  lemma RowCount(es: seq<Entry>, n: int)
    requires PcsPresent(es, n, |es|)
    ensures |Rows(es, n, |es|)| == Max0(Min(|Addrs(es)|, |Addrs(es)| - n) - Max0(n))
    ensures n >= 0 ==> |Rows(es, n, |es|)| == Max0(|Addrs(es)| - 2 * n)
  {
    EligibleCountIs(es, n, |es|);
  }
}
