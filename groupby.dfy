/** The `groupby(key).agg(sum)` pipeline shared by all four aggregate
    tables, the `sort_values(by="cnt", ascending=False)` step of two of
    them, the ascending key order `groupby` returns, and `idxmax` over the
    summed totals. */
module GroupBy {
  import opened Rentals

  /** One row of an aggregate table: a group key and that group's sums. */
  datatype Group<K> = Group(key: K, sums: Measures)

  /** The group keys a table holds. */
  function KeysOf<K>(g: seq<Group<K>>): set<K>
  {
    set i | 0 <= i < |g| :: g[i].key
  }

  /** No key occurs in two entries. */
  predicate DistinctKeys<K(==)>(g: seq<Group<K>>)
  {
    forall i, j :: 0 <= i < j < |g| ==> g[i].key != g[j].key
  }

  /** The key values present among `rows`. */
  function KeysIn<K>(rows: seq<Record>, key: Record -> K): set<K>
  {
    set i | 0 <= i < |rows| :: key(rows[i])
  }

  /** The rows of group `k`, in table order. */
  function WithKey<K(==)>(rows: seq<Record>, key: Record -> K, k: K): (w: seq<Record>)
    ensures forall i :: 0 <= i < |w| ==> key(w[i]) == k && w[i] in rows
    ensures w == [] <==> k !in KeysIn(rows, key)
    decreases |rows|
  {
    if rows == [] then []
    else
      var front := WithKey(rows[..|rows| - 1], key, k);
      var last := rows[|rows| - 1];
      KeysInSnoc(rows[..|rows| - 1], last, key);
      assert rows[..|rows| - 1] + [last] == rows;
      if key(last) == k then front + [last] else front
  }

  lemma KeysInSnoc<K>(rows: seq<Record>, r: Record, key: Record -> K)
    ensures KeysIn(rows + [r], key) == KeysIn(rows, key) + {key(r)}
  {
    var s := rows + [r];
    forall x | x in KeysIn(s, key) ensures x in KeysIn(rows, key) + {key(r)} {
      var i :| 0 <= i < |s| && key(s[i]) == x;
      if i < |rows| { assert s[i] == rows[i]; }
    }
    forall x | x in KeysIn(rows, key) + {key(r)} ensures x in KeysIn(s, key) {
      if x == key(r) {
        assert key(s[|rows|]) == x;
      } else {
        var i :| 0 <= i < |rows| && key(rows[i]) == x;
        assert key(s[i]) == x;
      }
    }
  }

  /** The sums a table holds for key `k` (zero when `k` is absent). */
  function Lookup<K(==)>(g: seq<Group<K>>, k: K): Measures
  {
    if g == [] then ZERO
    else if g[0].key == k then g[0].sums
    else Lookup(g[1..], k)
  }

  /** Column-wise sum of a table's measures. */
  function Total<K>(g: seq<Group<K>>): Measures
  {
    if g == [] then ZERO else Plus(g[0].sums, Total(g[1..]))
  }

  lemma {:induction false} KeysOfCons<K>(e: Group<K>, g: seq<Group<K>>)
    ensures KeysOf([e] + g) == {e.key} + KeysOf(g)
  {
    var s := [e] + g;
    forall x | x in KeysOf(s) ensures x in {e.key} + KeysOf(g) {
      var i :| 0 <= i < |s| && s[i].key == x;
      if i > 0 { assert s[i] == g[i - 1]; }
    }
    forall x | x in {e.key} + KeysOf(g) ensures x in KeysOf(s) {
      if x == e.key {
        assert s[0].key == x;
      } else {
        var i :| 0 <= i < |g| && g[i].key == x;
        assert s[i + 1].key == x;
      }
    }
  }

  lemma {:induction false} KeysOfTail<K>(g: seq<Group<K>>)
    requires g != []
    ensures KeysOf(g) == {g[0].key} + KeysOf(g[1..])
  {
    KeysOfCons(g[0], g[1..]);
    assert [g[0]] + g[1..] == g;
  }

  /** In a table with distinct keys, the lookup of an entry's key is that entry's sums. */
  lemma {:induction false} LookupAt<K>(g: seq<Group<K>>, i: nat)
    requires DistinctKeys(g)
    requires i < |g|
    ensures Lookup(g, g[i].key) == g[i].sums
  {
    if i > 0 {
      assert g[0].key != g[i].key;
      assert g[1..][i - 1] == g[i];
      LookupAt(g[1..], i - 1);
    }
  }

  /** Folds one row's measures `m` with key `k` into a table: the entry for
      `k` grows by `m`, or a new entry is appended. */
  function Accumulate<K(==)>(g: seq<Group<K>>, k: K, m: Measures): (g': seq<Group<K>>)
    ensures Total(g') == Plus(Total(g), m)
  {
    if g == [] then [Group(k, m)]
    else if g[0].key == k then
      var r := [Group(k, Plus(g[0].sums, m))] + g[1..];
      assert r[1..] == g[1..];
      r
    else
      var r := [g[0]] + Accumulate(g[1..], k, m);
      assert r[1..] == Accumulate(g[1..], k, m);
      r
  }

  /** Accumulating adds `k` to the keys and no other key. */
  lemma {:induction false} AccumulateKeys<K>(g: seq<Group<K>>, k: K, m: Measures)
    ensures KeysOf(Accumulate(g, k, m)) == KeysOf(g) + {k}
  {
    if g == [] {
      KeysOfCons(Group(k, m), []);
    } else {
      KeysOfTail(g);
      if g[0].key == k {
        KeysOfCons(Group(k, Plus(g[0].sums, m)), g[1..]);
      } else {
        AccumulateKeys(g[1..], k, m);
        KeysOfCons(g[0], Accumulate(g[1..], k, m));
      }
    }
  }

  /** Accumulating never creates a second entry for a key. */
  lemma {:induction false} AccumulateDistinct<K>(g: seq<Group<K>>, k: K, m: Measures)
    requires DistinctKeys(g)
    ensures DistinctKeys(Accumulate(g, k, m))
  {
    if g != [] {
      DistinctTail(g);
      if g[0].key == k {
        DistinctCons(Group(k, Plus(g[0].sums, m)), g[1..]);
      } else {
        AccumulateDistinct(g[1..], k, m);
        AccumulateKeys(g[1..], k, m);
        DistinctCons(g[0], Accumulate(g[1..], k, m));
      }
    }
  }

  /** Accumulating grows the lookup of `k` by `m` and leaves every other key alone. */
  lemma {:induction false} AccumulateLookup<K>(g: seq<Group<K>>, k: K, m: Measures, x: K)
    ensures Lookup(Accumulate(g, k, m), x) == if x == k then Plus(Lookup(g, k), m) else Lookup(g, x)
  {
    if g != [] {
      var g' := Accumulate(g, k, m);
      if g[0].key == k {
        assert g'[1..] == g[1..];
      } else {
        assert g'[1..] == Accumulate(g[1..], k, m);
        AccumulateLookup(g[1..], k, m, x);
      }
    }
  }

  /** `groupby(key).agg({"casual": "sum", "registered": "sum", "cnt": "sum"})`,
      one row at a time: one entry per key present among the rows, no key twice. */
  function GroupSum<K(==)>(rows: seq<Record>, key: Record -> K): (g: seq<Group<K>>)
    ensures DistinctKeys(g)
    ensures KeysOf(g) == KeysIn(rows, key)
    decreases |rows|
  {
    if rows == [] then
      []
    else
      var front := rows[..|rows| - 1];
      var last := rows[|rows| - 1];
      var g0 := GroupSum(front, key);
      AccumulateDistinct(g0, key(last), Of(last));
      AccumulateKeys(g0, key(last), Of(last));
      KeysInSnoc(front, last, key);
      assert front + [last] == rows;
      Accumulate(g0, key(last), Of(last))
  }

  /** The table's entry for any key is the column sums over exactly the rows
      with that key (zero for a key no row has). */
  lemma {:induction false} GroupSumLookup<K>(rows: seq<Record>, key: Record -> K, x: K)
    ensures Lookup(GroupSum(rows, key), x) == SumOf(WithKey(rows, key, x))
    decreases |rows|
  {
    if rows != [] {
      var front := rows[..|rows| - 1];
      var last := rows[|rows| - 1];
      GroupSumLookup(front, key, x);
      AccumulateLookup(GroupSum(front, key), key(last), Of(last), x);
      var w := WithKey(front, key, x);
      if key(last) == x {
        assert (w + [last])[..|w + [last]| - 1] == w;
      }
    }
  }

  /** Every entry carries the column sums over the rows of its group. */
  lemma GroupSumEntries<K>(rows: seq<Record>, key: Record -> K)
    ensures forall i :: 0 <= i < |GroupSum(rows, key)| ==>
      GroupSum(rows, key)[i].sums == SumOf(WithKey(rows, key, GroupSum(rows, key)[i].key))
  {
    var g := GroupSum(rows, key);
    forall i | 0 <= i < |g| ensures g[i].sums == SumOf(WithKey(rows, key, g[i].key)) {
      LookupAt(g, i);
      GroupSumLookup(rows, key, g[i].key);
    }
  }

  /** Grouping conserves the grand total of every measure. */
  lemma {:induction false} GroupSumTotal<K>(rows: seq<Record>, key: Record -> K)
    ensures Total(GroupSum(rows, key)) == SumOf(rows)
    decreases |rows|
  {
    if rows != [] {
      var front := rows[..|rows| - 1];
      var last := rows[|rows| - 1];
      GroupSumTotal(front, key);
    }
  }

  /** Ordered by `rank`, largest first. */
  predicate RankedBy<K>(g: seq<Group<K>>, rank: Group<K> -> int)
  {
    forall i, j :: 0 <= i < j < |g| ==> rank(g[i]) >= rank(g[j])
  }

  /** Places `x` into a table already ordered by `rank`, largest first,
      ahead of every entry it is not ranked below. */
  function InsertBy<K(==)>(x: Group<K>, s: seq<Group<K>>, rank: Group<K> -> int): (r: seq<Group<K>>)
    requires RankedBy(s, rank)
    ensures RankedBy(r, rank)
    ensures multiset(r) == multiset(s) + multiset{x}
    ensures |r| == |s| + 1 && (r[0] == x || (s != [] && r[0] == s[0]))
  {
    if s == [] || rank(x) >= rank(s[0]) then
      [x] + s
    else
      var rest := InsertBy(x, s[1..], rank);
      assert s == [s[0]] + s[1..];
      [s[0]] + rest
  }

  /** A permutation of the table ordered by `rank`, largest first. */
  function SortBy<K(==)>(g: seq<Group<K>>, rank: Group<K> -> int): (s: seq<Group<K>>)
    ensures RankedBy(s, rank)
    ensures multiset(s) == multiset(g)
  {
    if g == [] then []
    else
      assert g == [g[0]] + g[1..];
      InsertBy(g[0], SortBy(g[1..], rank), rank)
  }

  /** Sorting keeps the grand total of every measure. */
  lemma {:induction false} SortByTotal<K>(g: seq<Group<K>>, rank: Group<K> -> int)
    ensures Total(SortBy(g, rank)) == Total(g)
  {
    if g != [] {
      SortByTotal(g[1..], rank);
      InsertByTotal(g[0], SortBy(g[1..], rank), rank);
    }
  }

  lemma {:induction false} InsertByTotal<K>(x: Group<K>, s: seq<Group<K>>, rank: Group<K> -> int)
    requires RankedBy(s, rank)
    ensures Total(InsertBy(x, s, rank)) == Plus(x.sums, Total(s))
  {
    if s != [] && rank(x) < rank(s[0]) {
      var r := InsertBy(x, s, rank);
      assert r[1..] == InsertBy(x, s[1..], rank);
      InsertByTotal(x, s[1..], rank);
    }
  }

  /** A table with distinct keys splits into a head whose key the tail lacks
      and a tail with distinct keys. */
  lemma DistinctTail<K>(g: seq<Group<K>>)
    requires g != [] && DistinctKeys(g)
    ensures DistinctKeys(g[1..]) && g[0].key !in KeysOf(g[1..])
  {
    var tail := g[1..];
    forall i, j | 0 <= i < j < |tail| ensures tail[i].key != tail[j].key {
      assert tail[i] == g[i + 1] && tail[j] == g[j + 1];
    }
    forall i | 0 <= i < |tail| ensures tail[i].key != g[0].key {
      assert tail[i] == g[i + 1];
    }
  }

  /** A head whose key the tail lacks, on a tail with distinct keys, gives distinct keys. */
  lemma DistinctCons<K>(e: Group<K>, g: seq<Group<K>>)
    requires DistinctKeys(g) && e.key !in KeysOf(g)
    ensures DistinctKeys([e] + g)
  {
    var r := [e] + g;
    forall i, j | 0 <= i < j < |r| ensures r[i].key != r[j].key {
      assert r[j] == g[j - 1];
      if i > 0 { assert r[i] == g[i - 1]; } else { assert g[j - 1].key in KeysOf(g); }
    }
  }

  /** Sorting keeps the set of keys, and keeps them distinct. */
  lemma {:induction false} SortByKeys<K>(g: seq<Group<K>>, rank: Group<K> -> int)
    ensures KeysOf(SortBy(g, rank)) == KeysOf(g)
    ensures DistinctKeys(g) ==> DistinctKeys(SortBy(g, rank))
  {
    if g != [] {
      SortByKeys(g[1..], rank);
      KeysOfTail(g);
      InsertByKeys(g[0], SortBy(g[1..], rank), rank);
      if DistinctKeys(g) {
        DistinctTail(g);
        InsertByDistinct(g[0], SortBy(g[1..], rank), rank);
      }
    }
  }

  lemma {:induction false} InsertByKeys<K>(x: Group<K>, s: seq<Group<K>>, rank: Group<K> -> int)
    requires RankedBy(s, rank)
    ensures KeysOf(InsertBy(x, s, rank)) == {x.key} + KeysOf(s)
  {
    if s == [] || rank(x) >= rank(s[0]) {
      KeysOfCons(x, s);
    } else {
      var rest := InsertBy(x, s[1..], rank);
      assert InsertBy(x, s, rank) == [s[0]] + rest;
      InsertByKeys(x, s[1..], rank);
      KeysOfTail(s);
      KeysOfCons(s[0], rest);
    }
  }

  lemma {:induction false} InsertByDistinct<K>(x: Group<K>, s: seq<Group<K>>, rank: Group<K> -> int)
    requires RankedBy(s, rank)
    requires DistinctKeys(s) && x.key !in KeysOf(s)
    ensures DistinctKeys(InsertBy(x, s, rank))
  {
    if s == [] || rank(x) >= rank(s[0]) {
      DistinctCons(x, s);
    } else {
      var rest := InsertBy(x, s[1..], rank);
      assert InsertBy(x, s, rank) == [s[0]] + rest;
      DistinctTail(s);
      KeysOfTail(s);
      InsertByDistinct(x, s[1..], rank);
      InsertByKeys(x, s[1..], rank);
      DistinctCons(s[0], rest);
    }
  }

  /** The summed `cnt` of an entry, the sort key of `sort_values(by="cnt")`. */
  function CntRank<K>(e: Group<K>): int
  {
    e.sums.cnt
  }

  /** Ordered by summed `cnt`, largest first. */
  predicate NonIncreasing<K>(g: seq<Group<K>>)
  {
    forall i, j :: 0 <= i < j < |g| ==> g[i].sums.cnt >= g[j].sums.cnt
  }

  /** `sort_values(by="cnt", ascending=False)`: a permutation of the table
      ordered by summed `cnt`, largest first. Nothing is promised about how
      entries with equal totals are ordered. */
  function SortByCnt<K(==)>(g: seq<Group<K>>): (s: seq<Group<K>>)
    ensures NonIncreasing(s)
    ensures multiset(s) == multiset(g)
  {
    var s := SortBy(g, CntRank);
    assert forall i :: 0 <= i < |s| ==> CntRank(s[i]) == s[i].sums.cnt;
    s
  }

  /** An entry ranked by its key, smallest key first: pandas' `groupby`
      returns its groups in ascending key order. */
  function KeyRank(e: Group<nat>): int
  {
    -(e.key as int)
  }

  /** A table with distinct `nat` keys, put in ascending key order. */
  function SortByKey(g: seq<Group<nat>>): (s: seq<Group<nat>>)
    requires DistinctKeys(g)
    ensures forall i, j :: 0 <= i < j < |s| ==> s[i].key < s[j].key
    ensures multiset(s) == multiset(g)
    ensures KeysOf(s) == KeysOf(g)
  {
    var s := SortBy(g, KeyRank);
    SortByKeys(g, KeyRank);
    AscendingKeys(s);
    s
  }

  /** Ranked by `KeyRank` with no key twice is strictly ascending by key. */
  lemma AscendingKeys(s: seq<Group<nat>>)
    requires RankedBy(s, KeyRank) && DistinctKeys(s)
    ensures forall i, j :: 0 <= i < j < |s| ==> s[i].key < s[j].key
  {
    forall i, j | 0 <= i < j < |s| ensures s[i].key < s[j].key {
      assert KeyRank(s[i]) >= KeyRank(s[j]);
    }
  }

  /** `idxmax` over the `cnt` column: the first position holding the largest total. */
  function IdxMaxCnt<K>(g: seq<Group<K>>): (i: nat)
    requires |g| > 0
    ensures i < |g|
    ensures forall j :: 0 <= j < |g| ==> g[j].sums.cnt <= g[i].sums.cnt
    ensures forall j :: 0 <= j < i ==> g[j].sums.cnt < g[i].sums.cnt
    decreases |g|
  {
    if |g| == 1 then 0
    else
      var i := IdxMaxCnt(g[..|g| - 1]);
      if g[|g| - 1].sums.cnt > g[i].sums.cnt then |g| - 1 else i
  }
}
