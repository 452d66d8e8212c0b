/**
 * `create_markov_chain.build_markov_chain`: counts the consecutive pairs of one column of each
 * file into a nested counter `counts[a][b]`, then turns each state's counts into the probabilities
 * `count / total`. States are abstract values compared by equality; a missing cell (`NaN`) is
 * `None`.
 */
module Markov {
  import opened Wrappers
  import opened Dicts

  /** One CSV file: its columns by name. */
  type Table<S> = map<string, seq<Option<S>>>

  datatype MarkovError = MissingColumn(file: nat)

  /** `dropna().tolist()`. */
  function DropNa<S(==, !new)>(cells: seq<Option<S>>): (vs: seq<S>)
    ensures |vs| <= |cells|
    ensures forall v :: v in vs <==> Some(v) in cells
  {
    if cells == [] then []
    else
      var init := cells[..|cells| - 1];
      assert cells == init + [cells[|cells| - 1]];
      match cells[|cells| - 1]
      case None => DropNa(init)
      case Some(v) => DropNa(init) + [v]
  }

  /** The consecutive pairs `(s[i], s[i + 1])` of one sequence. */
  function Pairs<S(==, !new)>(s: seq<S>): (ps: seq<(S, S)>)
    ensures |ps| == Max0(|s| - 1)
    ensures forall i :: 0 <= i < |ps| ==> ps[i] == (s[i], s[i + 1])
  {
    seq(Max0(|s| - 1), i requires 0 <= i < Max0(|s| - 1) => (s[i], s[i + 1]))
  }

  /** The sequence of every file lacks no column. */
  predicate AllHave<S(==, !new)>(files: seq<Table<S>>, column: string) {
    forall f :: 0 <= f < |files| ==> column in files[f]
  }

  /** The first `k` files all have the column. */
  predicate HaveUpTo<S(==, !new)>(files: seq<Table<S>>, column: string, k: nat) {
    k <= |files| && forall g :: 0 <= g < k ==> column in files[g]
  }

  function Column<S(==, !new)>(file: Table<S>, column: string): seq<S>
    requires column in file
  {
    DropNa(file[column])
  }

  /** The pairs of files `0..k-1`, file by file: a pair never joins the last value of one file to
      the first of the next. */
  function AllPairs<S(==, !new)>(files: seq<Table<S>>, column: string, k: nat): seq<(S, S)>
    requires HaveUpTo(files, column, k)
  {
    if k == 0 then [] else AllPairs(files, column, k - 1) + Pairs(Column(files[k - 1], column))
  }

  /** The first file that lacks the column. */
  predicate FirstMissing<S(==, !new)>(files: seq<Table<S>>, column: string, f: nat) {
    f < |files| && column !in files[f] && forall g :: 0 <= g < f ==> column in files[g]
  }

  // ----- Counting -----

  type Counts<S(!new)> = ODict<S, ODict<S, nat>>

  /** The counter of state `a`: an empty one when `a` has not been seen (the inner `defaultdict`). */
  function Row<S(==, !new)>(c: Counts<S>, a: S): ODict<S, nat> {
    if a in c.vals then c.vals[a] else Empty()
  }

  /** Every row is a valid counter with a positive total. */
  ghost predicate CountsValid<S(!new)>(c: Counts<S>) {
    c.Valid() && forall a :: a in c.vals ==> c.vals[a].Valid() && Total(c.vals[a]) >= 1
  }

  /** `transition_counts[a][b] += 1`. */
  function CountPair<S(==, !new)>(c: Counts<S>, a: S, b: S): (r: Counts<S>)
    requires CountsValid(c)
  {
    var row := Row(c, a);
    Put(c, a, Increment(row, b))
  }

  /** Counting keeps every row a valid counter with a positive total. */
  lemma CountPairValid<S(!new)>(c: Counts<S>, a: S, b: S)
    requires CountsValid(c)
    ensures CountsValid(CountPair(c, a, b))
  {
    var row' := Increment(Row(c, a), b);
    var r := CountPair(c, a, b);
    PutValid(c, a, row');
    forall x | x in r.vals ensures r.vals[x].Valid() && Total(r.vals[x]) >= 1 {
      if x == a {
        assert r.vals[x] == row';
      } else {
        assert r.vals[x] == c.vals[x];
      }
    }
  }

  /** Counting `(a, b)` raises exactly the count of `(a, b)`, by one. */
  lemma CountPairCounts<S(!new)>(c: Counts<S>, a: S, b: S, x: S, y: S)
    requires CountsValid(c)
    ensures Get(Row(CountPair(c, a, b), x), y) == Get(Row(c, x), y) + (if x == a && y == b then 1 else 0)
  {
    if x == a {
      assert Row(CountPair(c, a, b), a) == Increment(Row(c, a), b);
    }
  }

  /** Counting `(a, b)` raises the total of row `a` by one and leaves the other rows alone. */
  lemma CountPairRow<S(!new)>(c: Counts<S>, a: S, b: S, x: S)
    requires CountsValid(c)
    ensures Total(Row(CountPair(c, a, b), x)) == Total(Row(c, x)) + (if x == a then 1 else 0)
    ensures x != a ==> Row(CountPair(c, a, b), x) == Row(c, x)
  {
    if x == a {
      assert Row(CountPair(c, a, b), a) == Increment(Row(c, a), b);
    }
  }

  /** A new source state is added last; the other states keep their places. */
  lemma CountPairKeys<S(!new)>(c: Counts<S>, a: S, b: S)
    requires CountsValid(c)
    ensures forall x :: x in CountPair(c, a, b).vals <==> x in c.vals || x == a
    ensures CountPair(c, a, b).keys == if a in c.vals then c.keys else c.keys + [a]
  {
  }

  /** The counter after the pairs `ps`, in order. */
  function CountsOf<S(!new)>(ps: seq<(S, S)>): (c: Counts<S>)
    ensures CountsValid(c)
  {
    if ps == [] then Empty()
    else
      var init := CountsOf(ps[..|ps| - 1]);
      CountPairValid(init, ps[|ps| - 1].0, ps[|ps| - 1].1);
      CountPair(init, ps[|ps| - 1].0, ps[|ps| - 1].1)
  }

  /** A non-empty sequence is its initial part followed by its last element. */
  lemma Snoc<T>(s: seq<T>)
    requires s != []
    ensures multiset(s) == multiset(s[..|s| - 1]) + multiset{s[|s| - 1]}
    ensures forall x :: x in s <==> x in s[..|s| - 1] || x == s[|s| - 1]
  {
    assert s == s[..|s| - 1] + [s[|s| - 1]];
  }

  lemma PrefixSnoc<T>(s: seq<T>, i: nat)
    requires i < |s|
    ensures s[..i + 1] == s[..i] + [s[i]]
  {
  }

  lemma AppendSnoc<T>(xs: seq<T>, ys: seq<T>, i: nat)
    requires i < |ys|
    ensures xs + ys[..i + 1] == (xs + ys[..i]) + [ys[i]]
  {
    PrefixSnoc(ys, i);
  }

  /** Counting one more pair continues from the counts so far. */
  lemma CountsOfSnoc<S(!new)>(ps: seq<(S, S)>, p: (S, S))
    ensures CountsOf(ps + [p]) == CountPair(CountsOf(ps), p.0, p.1)
  {
    assert (ps + [p])[..|ps|] == ps;
  }

  /** The number of pairs in `ps` that start at `a`. */
  ghost function FromCount<S>(ps: seq<(S, S)>, a: S): nat {
    if ps == [] then 0 else FromCount(ps[..|ps| - 1], a) + (if ps[|ps| - 1].0 == a then 1 else 0)
  }

  /** Each pair increments its own count by exactly one: `counts[a][b]` is the number of pairs
      `(a, b)`. */
  lemma {:induction false} CountsOfGet<S(!new)>(ps: seq<(S, S)>, a: S, b: S)
    ensures Get(Row(CountsOf(ps), a), b) == multiset(ps)[(a, b)]
  {
    if ps != [] {
      var init := ps[..|ps| - 1];
      var last := ps[|ps| - 1];
      CountsOfGet(init, a, b);
      CountPairCounts(CountsOf(init), last.0, last.1, a, b);
      Snoc(ps);
    }
  }

  /** The total of row `a` is the number of pairs leaving `a`. */
  lemma {:induction false} CountsOfTotal<S(!new)>(ps: seq<(S, S)>, a: S)
    ensures Total(Row(CountsOf(ps), a)) == FromCount(ps, a)
  {
    if ps != [] {
      var init := ps[..|ps| - 1];
      var last := ps[|ps| - 1];
      CountsOfTotal(init, a);
      CountPairRow(CountsOf(init), last.0, last.1, a);
    }
  }

  /** The states with a row are exactly the sources of pairs. */
  lemma {:induction false} CountsOfKeys<S(!new)>(ps: seq<(S, S)>, a: S)
    ensures a in CountsOf(ps).vals <==> exists b :: (a, b) in ps
  {
    if ps != [] {
      var init := ps[..|ps| - 1];
      var last := ps[|ps| - 1];
      CountsOfKeys(init, a);
      CountPairKeys(CountsOf(init), last.0, last.1);
      Snoc(ps);
      if a in CountsOf(ps).vals {
        if a == last.0 {
          assert (a, last.1) in ps;
        } else {
          var b :| (a, b) in init;
          assert (a, b) in ps;
        }
      }
      if exists b :: (a, b) in ps {
        var b :| (a, b) in ps;
        if (a, b) != last {
          assert (a, b) in init;
        }
      }
    }
  }

  /** Counting the pairs of one more file continues from the counts so far: the count of `(a, b)`
      grows by the number of pairs `(a, b)` within that file. */
  lemma CountsAcrossFiles<S(!new)>(files: seq<Table<S>>, column: string, k: nat, a: S, b: S)
    requires k < |files| && HaveUpTo(files, column, k + 1)
    ensures Get(Row(CountsOf(AllPairs(files, column, k + 1)), a), b) ==
      Get(Row(CountsOf(AllPairs(files, column, k)), a), b) + multiset(Pairs(Column(files[k], column)))[(a, b)]
  {
    CountsOfGet(AllPairs(files, column, k + 1), a, b);
    CountsOfGet(AllPairs(files, column, k), a, b);
  }

  /** Every pair counted is a neighbouring pair of one file's sequence. */
  lemma {:induction false} PairsWithinFiles<S(!new)>(files: seq<Table<S>>, column: string, k: nat, a: S, b: S)
    requires HaveUpTo(files, column, k) && (a, b) in AllPairs(files, column, k)
    ensures exists f, i ::
      && 0 <= f < k && 0 <= i < |Column(files[f], column)| - 1
      && Column(files[f], column)[i] == a && Column(files[f], column)[i + 1] == b
  {
    var ps := Pairs(Column(files[k - 1], column));
    if (a, b) in ps {
      var i :| 0 <= i < |ps| && ps[i] == (a, b);
      assert Column(files[k - 1], column)[i] == a && Column(files[k - 1], column)[i + 1] == b;
    } else {
      PairsWithinFiles(files, column, k - 1, a, b);
    }
  }

  /** A column with fewer than two values contributes no pair. */
  lemma ShortColumn<S(!new)>(s: seq<S>)
    ensures Pairs(s) == [] <==> |s| < 2
  {
    if |s| >= 2 {
      assert Pairs(s)[0] == (s[0], s[1]);
    }
  }

  /** The sum of the values stored under `keys` (missing keys add nothing). */
  function SumReal<S(==, !new)>(keys: seq<S>, m: map<S, real>): real {
    if keys == [] then 0.0
    else SumReal(keys[..|keys| - 1], m) + (if keys[|keys| - 1] in m then m[keys[|keys| - 1]] else 0.0)
  }

  /** The first `i` entries of `{ns: count / t for ns, count in row.items()}`, in key order. */
  function Scaled<S(==, !new)>(row: ODict<S, nat>, t: real, i: nat): ODict<S, real>
    requires row.Valid() && t > 0.0 && i <= |row.keys|
  {
    if i == 0 then Empty()
    else
      var ns := row.keys[i - 1];
      Put(Scaled(row, t, i - 1), ns, row.vals[ns] as real / t)
  }

  /** `{ns: count / total for ns, count in next_states.items()}`. */
  function Probabilities<S(==, !new)>(row: ODict<S, nat>): ODict<S, real>
    requires row.Valid() && Total(row) >= 1
  {
    Scaled(row, Total(row) as real, |row.keys|)
  }

  /** The scaled row has the row's first `i` keys, in order. */
  lemma {:induction false} ScaledKeys<S(!new)>(row: ODict<S, nat>, t: real, i: nat)
    requires row.Valid() && t > 0.0 && i <= |row.keys|
    ensures Scaled(row, t, i).keys == row.keys[..i]
    ensures forall ns :: ns in Scaled(row, t, i).vals <==> ns in row.keys[..i]
  {
    if i > 0 {
      ScaledKeys(row, t, i - 1);
      assert row.keys[i - 1] !in row.keys[..i - 1];
      PrefixSnoc(row.keys, i - 1);
    }
  }

  /** Each scaled entry is the count over `t`. */
  lemma {:induction false} ScaledValue<S(!new)>(row: ODict<S, nat>, t: real, i: nat, ns: S)
    requires row.Valid() && t > 0.0 && i <= |row.keys| && ns in Scaled(row, t, i).vals && ns in row.vals
    ensures Scaled(row, t, i).vals[ns] == row.vals[ns] as real / t
  {
    if row.keys[i - 1] != ns {
      ScaledValue(row, t, i - 1, ns);
    }
  }

  /** Dividing every summand by `t` divides the sum by `t`. */
  lemma {:induction false} SumScaled<S(!new)>(keys: seq<S>, m: map<S, nat>, p: map<S, real>, t: real)
    requires t > 0.0
    requires forall k :: k in keys ==> k in m && k in p && p[k] == m[k] as real / t
    ensures SumReal(keys, p) == Sum(keys, m) as real / t
  {
    if keys != [] {
      var init := keys[..|keys| - 1];
      var last := keys[|keys| - 1];
      SumScaled(init, m, p, t);
      var x := Sum(init, m) as real;
      var y := m[last] as real;
      DivAdd(x, y, t);
    }
  }

  lemma DivAdd(x: real, y: real, t: real)
    requires t > 0.0
    ensures x / t + y / t == (x + y) / t
  {
  }

  /** A state's probabilities: its successors in their order, each with its count over the
      state's total. */
  lemma ProbabilitiesSpec<S(!new)>(row: ODict<S, nat>)
    requires row.Valid() && Total(row) >= 1
    ensures Probabilities(row).Valid() && Probabilities(row).keys == row.keys
    ensures forall ns :: ns in Probabilities(row).vals <==> ns in row.vals
    ensures forall ns :: ns in row.vals ==> Probabilities(row).vals[ns] == row.vals[ns] as real / Total(row) as real
  {
    ScaledKeys(row, Total(row) as real, |row.keys|);
    assert row.keys[..|row.keys|] == row.keys;
    forall ns | ns in row.vals ensures Probabilities(row).vals[ns] == row.vals[ns] as real / Total(row) as real {
      ScaledValue(row, Total(row) as real, |row.keys|, ns);
    }
  }

  /** A state's probabilities add up to 1. */
  lemma ProbabilitiesSumToOne<S(!new)>(row: ODict<S, nat>)
    requires row.Valid() && Total(row) >= 1
    ensures SumReal(row.keys, Probabilities(row).vals) == 1.0
  {
    var t := Total(row) as real;
    ProbabilitiesSpec(row);
    SumScaled(row.keys, row.vals, Probabilities(row).vals, t);
    assert Sum(row.keys, row.vals) as real == t;
    OneOver(t);
  }

  lemma OneOver(t: real)
    requires t > 0.0
    ensures t / t == 1.0
  {
  }

  /** The matrix rows of the first `i` states, in the counter's key order. */
  function MatrixUpTo<S(==, !new)>(c: Counts<S>, i: nat): ODict<S, ODict<S, real>>
    requires CountsValid(c) && i <= |c.keys|
  {
    if i == 0 then Empty()
    else
      var s := c.keys[i - 1];
      Put(MatrixUpTo(c, i - 1), s, Probabilities(c.vals[s]))
  }

  /** `transition_matrix`. */
  function Matrix<S(==, !new)>(c: Counts<S>): (m: ODict<S, ODict<S, real>>)
    requires CountsValid(c)
    ensures m.keys == c.keys
  {
    MatrixUpToKeys(c, |c.keys|);
    MatrixUpTo(c, |c.keys|)
  }

  /** The matrix has the counter's first `i` states, in the counter's order. */
  lemma {:induction false} MatrixUpToKeys<S(!new)>(c: Counts<S>, i: nat)
    requires CountsValid(c) && i <= |c.keys|
    ensures MatrixUpTo(c, i).keys == c.keys[..i]
    ensures forall s :: s in MatrixUpTo(c, i).vals <==> s in c.keys[..i]
  {
    if i > 0 {
      MatrixUpToKeys(c, i - 1);
      assert c.keys[i - 1] !in c.keys[..i - 1];
      PrefixSnoc(c.keys, i - 1);
    }
  }

  /** Each state of the matrix is mapped to its probabilities. */
  lemma {:induction false} MatrixUpToValue<S(!new)>(c: Counts<S>, i: nat, s: S)
    requires CountsValid(c) && i <= |c.keys| && s in MatrixUpTo(c, i).vals && s in c.vals
    ensures MatrixUpTo(c, i).vals[s] == Probabilities(c.vals[s])
  {
    if c.keys[i - 1] != s {
      MatrixUpToValue(c, i - 1, s);
    }
  }

  /** The matrix has exactly the counter's states, in the counter's order. */
  lemma MatrixKeys<S(!new)>(c: Counts<S>)
    requires CountsValid(c)
    ensures Matrix(c).keys == c.keys
    ensures forall s :: s in Matrix(c).vals <==> s in c.vals
    ensures forall s :: s in Matrix(c).vals ==> Matrix(c).vals[s] == Probabilities(c.vals[s])
  {
    MatrixUpToKeys(c, |c.keys|);
    assert c.keys[..|c.keys|] == c.keys;
    forall s | s in Matrix(c).vals ensures Matrix(c).vals[s] == Probabilities(c.vals[s]) {
      MatrixUpToValue(c, |c.keys|, s);
    }
  }

  /** The states of the chain are the sources of pairs. */
  lemma MatrixStates<S(!new)>(ps: seq<(S, S)>, a: S)
    ensures a in Matrix(CountsOf(ps)).vals <==> exists b :: (a, b) in ps
  {
    MatrixKeys(CountsOf(ps));
    CountsOfKeys(ps, a);
  }

  /** Each state's row is a probability distribution: it sums to 1. */
  lemma MatrixRowSums<S(!new)>(ps: seq<(S, S)>, a: S)
    requires a in Matrix(CountsOf(ps)).vals
    ensures Matrix(CountsOf(ps)).vals[a].Valid()
    ensures SumReal(Matrix(CountsOf(ps)).vals[a].keys, Matrix(CountsOf(ps)).vals[a].vals) == 1.0
  {
    var c := CountsOf(ps);
    MatrixKeys(c);
    var p := Probabilities(c.vals[a]);
    assert Matrix(c).vals[a] == p;
    ProbabilitiesSpec(c.vals[a]);
    ProbabilitiesSumToOne(c.vals[a]);
    assert SumReal(p.keys, p.vals) == 1.0;
  }

  /** The probability of `a -> b` is the number of pairs `(a, b)` over the number of pairs leaving
      `a`. */
  lemma MatrixProbability<S(!new)>(ps: seq<(S, S)>, a: S, b: S)
    requires a in Matrix(CountsOf(ps)).vals && b in Matrix(CountsOf(ps)).vals[a].vals
    ensures FromCount(ps, a) >= 1
    ensures Matrix(CountsOf(ps)).vals[a].vals[b] == multiset(ps)[(a, b)] as real / FromCount(ps, a) as real
  {
    var c := CountsOf(ps);
    MatrixKeys(c);
    CountsOfGet(ps, a, b);
    CountsOfTotal(ps, a);
    var row := c.vals[a];
    assert Row(c, a) == row;
    ProbabilitiesSpec(row);
    assert b in row.vals;
    var t := Total(row) as real;
    var x := row.vals[b] as real;
    assert x == multiset(ps)[(a, b)] as real && t == FromCount(ps, a) as real;
    assert Matrix(c).vals[a].vals[b] == x / t;
  }

  // ----- The procedure -----

  /** The loop over one file's sequence, `transition_counts[seq[i]][seq[i + 1]] += 1`. */
  method CountFile<S(==, !new)>(counts: Counts<S>, ghost before: seq<(S, S)>, sequence: seq<S>) returns (counts': Counts<S>)
    requires counts == CountsOf(before)
    ensures counts' == CountsOf(before + Pairs(sequence))
  {
    counts' := counts;
    ghost var ps := Pairs(sequence);
    assert before + ps[..0] == before;
    for i := 0 to Max0(|sequence| - 1)
      invariant counts' == CountsOf(before + ps[..i])
    {
      var currentState := sequence[i];
      var nextState := sequence[i + 1];
      AppendSnoc(before, ps, i);
      CountsOfSnoc(before + ps[..i], ps[i]);
      counts' := CountPair(counts', currentState, nextState);
    }
    assert ps[..|ps|] == ps;
  }

  /** One iteration of `for csv_file in csv_files` once the column is known to be present. */
  method CountNextFile<S(==, !new)>(files: seq<Table<S>>, column: string, f: nat, counts: Counts<S>) returns (counts': Counts<S>)
    requires f < |files| && HaveUpTo(files, column, f + 1) && counts == CountsOf(AllPairs(files, column, f))
    ensures counts' == CountsOf(AllPairs(files, column, f + 1))
  {
    var sequence := DropNa(files[f][column]);
    counts' := CountFile(counts, AllPairs(files, column, f), sequence);
  }

  /** The normalisation loop over `transition_counts.items()`. */
  method Normalise<S(==, !new)>(counts: Counts<S>) returns (matrix: ODict<S, ODict<S, real>>)
    requires CountsValid(counts)
    ensures matrix == Matrix(counts)
  {
    matrix := Empty();
    for i := 0 to |counts.keys|
      invariant matrix == MatrixUpTo(counts, i)
    {
      matrix := NormaliseState(counts, matrix, i);
    }
  }

  /** `transition_matrix[state] = {...}` for the `i`-th state. */
  method NormaliseState<S(==, !new)>(counts: Counts<S>, matrix: ODict<S, ODict<S, real>>, i: nat) returns (matrix': ODict<S, ODict<S, real>>)
    requires CountsValid(counts) && i < |counts.keys| && matrix == MatrixUpTo(counts, i)
    ensures matrix' == MatrixUpTo(counts, i + 1)
  {
    var state := counts.keys[i];
    matrix' := Put(matrix, state, Probabilities(counts.vals[state]));
  }

  /** `build_markov_chain(csv_files, column_name)`: the chain of all files' pairs when every file has
      the column; otherwise the error for the first file without it, where `df[column_name]` raises. */
  method BuildMarkovChain<S(==, !new)>(files: seq<Table<S>>, column: string) returns (r: Result<ODict<S, ODict<S, real>>, MarkovError>)
    ensures r.Ok? <==> AllHave(files, column)
    ensures r.Ok? ==> r.value == Matrix(CountsOf(AllPairs(files, column, |files|)))
    ensures r.Err? ==> FirstMissing(files, column, r.error.file)
  {
    var counted := CountFiles(files, column);
    match counted
    case Err(e) =>
      return Err(e);
    case Ok(counts) =>
      var matrix := Normalise(counts);
      return Ok(matrix);
  }

  /** The counting loop `for csv_file in csv_files`. */
  method CountFiles<S(==, !new)>(files: seq<Table<S>>, column: string) returns (r: Result<Counts<S>, MarkovError>)
    ensures r.Ok? <==> AllHave(files, column)
    ensures r.Ok? ==> r.value == CountsOf(AllPairs(files, column, |files|))
    ensures r.Err? ==> FirstMissing(files, column, r.error.file)
  {
    var counts: Counts<S> := Empty();
    for f := 0 to |files|
      invariant HaveUpTo(files, column, f)
      invariant counts == CountsOf(AllPairs(files, column, f))
    {
      if column !in files[f] {
        return Err(MissingColumn(f));
      }
      counts := CountNextFile(files, column, f, counts);
    }
    return Ok(counts);
  }
}
