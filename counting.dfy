/** The observable meaning of pandas' `value_counts` on one column: the
    distinct non-missing values with their numbers of occurrences, ordered by
    count (descending) or, after `sort_index`, by value. Missing cells are
    not counted, as `value_counts` drops them by default. */
module Counting {
  import opened Trips

  /** One entry of a value count: a value and how often it occurs. */
  datatype Tally<K> = Tally(key: K, count: nat)

  /** Number of cells of `col` that hold `k`. */
  function Count<K(==)>(col: seq<Option<K>>, k: K): nat
  {
    if col == [] then 0
    else Count(col[..|col| - 1], k) + (if col[|col| - 1] == Some(k) then 1 else 0)
  }

  /** Number of non-missing cells of `col`. */
  function Present<K>(col: seq<Option<K>>): nat
  {
    if col == [] then 0
    else Present(col[..|col| - 1]) + (if col[|col| - 1].Some? then 1 else 0)
  }

  function Keys<K>(ts: seq<Tally<K>>): seq<K>
  {
    seq(|ts|, i requires 0 <= i < |ts| => ts[i].key)
  }

  predicate DistinctKeys<K(==)>(ts: seq<Tally<K>>)
  {
    forall i, j :: 0 <= i < j < |ts| ==> ts[i].key != ts[j].key
  }

  /** Sum of the counts of a value count. */
  function Total<K>(ts: seq<Tally<K>>): nat
  {
    if ts == [] then 0 else ts[0].count + Total(ts[1..])
  }

  lemma {:induction false} CountPositive<K>(col: seq<Option<K>>, k: K)
    ensures Count(col, k) > 0 <==> Some(k) in col
  {
    if col != [] {
      var init := col[..|col| - 1];
      CountPositive(init, k);
      assert col == init + [col[|col| - 1]];
    }
  }

  lemma CountSnoc<K>(col: seq<Option<K>>, x: Option<K>, k: K)
    ensures Count(col + [x], k) == Count(col, k) + (if x == Some(k) then 1 else 0)
  {
    assert (col + [x])[..|col|] == col;
  }

  lemma PresentSnoc<K>(col: seq<Option<K>>, x: Option<K>)
    ensures Present(col + [x]) == Present(col) + (if x.Some? then 1 else 0)
  {
    assert (col + [x])[..|col|] == col;
  }

  lemma {:induction false} TotalSnoc<K>(ts: seq<Tally<K>>, t: Tally<K>)
    ensures Total(ts + [t]) == Total(ts) + t.count
  {
    if ts != [] {
      assert (ts + [t])[1..] == ts[1..] + [t];
      TotalSnoc(ts[1..], t);
    }
  }

  /** The distinct non-missing values of `col`, in order of first appearance. */
  function Distinct<K(==)>(col: seq<Option<K>>): (ks: seq<K>)
    ensures forall i :: 0 <= i < |ks| ==> Some(ks[i]) in col
    ensures forall i :: 0 <= i < |col| && col[i].Some? ==> col[i].value in ks
    ensures forall i, j :: 0 <= i < j < |ks| ==> ks[i] != ks[j]
  {
    if col == [] then []
    else
      var init, last := col[..|col| - 1], col[|col| - 1];
      assert col == init + [last];
      var seen := Distinct(init);
      match last
      case None => seen
      case Some(k) => if k in seen then seen else seen + [k]
  }

  /** Pairs each value of `ks` with its number of occurrences in `col`. */
  function TallyAll<K(==)>(col: seq<Option<K>>, ks: seq<K>): seq<Tally<K>>
  {
    seq(|ks|, i requires 0 <= i < |ks| => Tally(ks[i], Count(col, ks[i])))
  }

  /** One more cell adds one to the total of the values that count it. */
  lemma {:induction false} TallyAllSnoc<K>(col: seq<Option<K>>, x: Option<K>, ks: seq<K>)
    requires forall i, j :: 0 <= i < j < |ks| ==> ks[i] != ks[j]
    ensures Total(TallyAll(col + [x], ks))
         == Total(TallyAll(col, ks)) + (if x.Some? && x.value in ks then 1 else 0)
  {
    if ks != [] {
      CountSnoc(col, x, ks[0]);
      assert TallyAll(col + [x], ks)[1..] == TallyAll(col + [x], ks[1..]);
      assert TallyAll(col, ks)[1..] == TallyAll(col, ks[1..]);
      TallyAllSnoc(col, x, ks[1..]);
      assert x.Some? && x.value in ks ==> x.value == ks[0] || x.value in ks[1..];
    }
  }

  /** The counts of all distinct values add up to the number of non-missing cells. */
  lemma {:induction false} TallyTotal<K>(col: seq<Option<K>>)
    ensures Total(TallyAll(col, Distinct(col))) == Present(col)
  {
    if col != [] {
      var init, last := col[..|col| - 1], col[|col| - 1];
      assert col == init + [last];
      var seen := Distinct(init);
      TallyTotal(init);
      TallyAllSnoc(init, last, seen);
      PresentSnoc(init, last);
      if last.Some? && last.value !in seen {
        var k := last.value;
        assert Distinct(col) == seen + [k];
        assert TallyAll(col, seen + [k]) == TallyAll(col, seen) + [Tally(k, Count(col, k))];
        TotalSnoc(TallyAll(col, seen), Tally(k, Count(col, k)));
        CountSnoc(init, last, k);
        CountPositive(init, k);
      }
    }
  }

  // ---------------------------------------------------------------------
  // Ordering by count, descending (value_counts).
  // ---------------------------------------------------------------------

  predicate SortedByCount<K>(ts: seq<Tally<K>>)
  {
    forall i, j :: 0 <= i < j < |ts| ==> ts[i].count >= ts[j].count
  }

  /** No entry of `ts` has key `k`. */
  predicate KeyAbsent<K(==)>(ts: seq<Tally<K>>, k: K)
  {
    forall i :: 0 <= i < |ts| ==> ts[i].key != k
  }

  /** Inserts `t` after every entry whose count is at least its own, so that
      entries of equal count keep the order in which they were inserted. */
  function InsertByCount<K(==)>(t: Tally<K>, ts: seq<Tally<K>>): (r: seq<Tally<K>>)
    ensures multiset(r) == multiset(ts) + multiset{t}
    ensures |r| == |ts| + 1
    ensures Total(r) == Total(ts) + t.count
  {
    if ts == [] then [t]
    else if ts[0].count >= t.count then
      assert ts == [ts[0]] + ts[1..];
      [ts[0]] + InsertByCount(t, ts[1..])
    else
      [t] + ts
  }

  /** Every entry of a sequence is an entry of any permutation of it. */
  lemma PermutationMembers<T>(a: seq<T>, b: seq<T>)
    requires multiset(a) == multiset(b)
    ensures forall i :: 0 <= i < |a| ==> a[i] in b
  {
    forall i | 0 <= i < |a| ensures a[i] in b {
      assert a[i] in multiset(a);
    }
  }

  lemma {:induction false} InsertByCountKeepsOrder<K>(t: Tally<K>, ts: seq<Tally<K>>)
    requires SortedByCount(ts)
    ensures SortedByCount(InsertByCount(t, ts))
  {
    if ts != [] && ts[0].count >= t.count {
      var rest := InsertByCount(t, ts[1..]);
      InsertByCountKeepsOrder(t, ts[1..]);
      assert multiset(rest) == multiset(ts[1..]) + multiset{t};
      PermutationMembers(rest, ts[1..] + [t]);
    }
  }

  lemma {:induction false} InsertByCountKeepsKeysDistinct<K>(t: Tally<K>, ts: seq<Tally<K>>)
    requires DistinctKeys(ts) && KeyAbsent(ts, t.key)
    ensures DistinctKeys(InsertByCount(t, ts))
  {
    if ts != [] && ts[0].count >= t.count {
      var rest := InsertByCount(t, ts[1..]);
      InsertByCountKeepsKeysDistinct(t, ts[1..]);
      assert multiset(rest) == multiset(ts[1..] + [t]);
      PermutationMembers(rest, ts[1..] + [t]);
    }
  }

  /** A stable sort by descending count. */
  function SortByCount<K(==)>(ts: seq<Tally<K>>): (r: seq<Tally<K>>)
    ensures multiset(r) == multiset(ts)
    ensures |r| == |ts|
    ensures Total(r) == Total(ts)
  {
    if ts == [] then []
    else
      var init, last := ts[..|ts| - 1], ts[|ts| - 1];
      assert ts == init + [last];
      TotalSnoc(init, last);
      InsertByCount(last, SortByCount(init))
  }

  lemma {:induction false} SortByCountSorts<K>(ts: seq<Tally<K>>)
    ensures SortedByCount(SortByCount(ts))
    ensures DistinctKeys(ts) ==> DistinctKeys(SortByCount(ts))
  {
    if ts != [] {
      var init, last := ts[..|ts| - 1], ts[|ts| - 1];
      assert ts == init + [last];
      var sorted := SortByCount(init);
      SortByCountSorts(init);
      InsertByCountKeepsOrder(last, sorted);
      if DistinctKeys(ts) {
        PermutationMembers(sorted, init);
        InsertByCountKeepsKeysDistinct(last, sorted);
      }
    }
  }

  // ---------------------------------------------------------------------
  // Ordering by value, ascending (sort_index on a date column).
  // ---------------------------------------------------------------------

  predicate SortedByDate(ts: seq<Tally<Date>>)
  {
    forall i, j :: 0 <= i < j < |ts| ==> Before(ts[i].key, ts[j].key)
  }

  function InsertByDate(t: Tally<Date>, ts: seq<Tally<Date>>): (r: seq<Tally<Date>>)
    ensures multiset(r) == multiset(ts) + multiset{t}
    ensures |r| == |ts| + 1
    ensures Total(r) == Total(ts) + t.count
  {
    if ts == [] then [t]
    else if Before(t.key, ts[0].key) then
      [t] + ts
    else
      assert ts == [ts[0]] + ts[1..];
      [ts[0]] + InsertByDate(t, ts[1..])
  }

  lemma {:induction false} InsertByDateKeepsOrder(t: Tally<Date>, ts: seq<Tally<Date>>)
    requires SortedByDate(ts) && KeyAbsent(ts, t.key)
    ensures SortedByDate(InsertByDate(t, ts))
  {
    if ts != [] && !Before(t.key, ts[0].key) {
      var rest := InsertByDate(t, ts[1..]);
      InsertByDateKeepsOrder(t, ts[1..]);
      BeforeIsStrictTotalOrder(t.key, ts[0].key, t.key);
      assert multiset(rest) == multiset(ts[1..] + [t]);
      PermutationMembers(rest, ts[1..] + [t]);
    }
  }

  /** Chronological sort. */
  function SortByDate(ts: seq<Tally<Date>>): (r: seq<Tally<Date>>)
    ensures multiset(r) == multiset(ts)
    ensures |r| == |ts|
    ensures Total(r) == Total(ts)
  {
    if ts == [] then []
    else
      var init, last := ts[..|ts| - 1], ts[|ts| - 1];
      assert ts == init + [last];
      TotalSnoc(init, last);
      InsertByDate(last, SortByDate(init))
  }

  /** Entries with distinct dates come out in strictly increasing date order. */
  lemma {:induction false} SortByDateSorts(ts: seq<Tally<Date>>)
    requires DistinctKeys(ts)
    ensures SortedByDate(SortByDate(ts))
  {
    if ts != [] {
      var init, last := ts[..|ts| - 1], ts[|ts| - 1];
      assert ts == init + [last];
      var sorted := SortByDate(init);
      SortByDateSorts(init);
      PermutationMembers(sorted, init);
      InsertByDateKeepsOrder(last, sorted);
    }
  }

  // ---------------------------------------------------------------------
  // value_counts, head and sort_index.
  // ---------------------------------------------------------------------

  /** Entries permuted from a table of exact counts keep exact counts. */
  lemma PermutedTalliesExact<K>(col: seq<Option<K>>, r: seq<Tally<K>>)
    requires multiset(r) == multiset(TallyAll(col, Distinct(col)))
    ensures forall i :: 0 <= i < |r| ==> r[i].count == Count(col, r[i].key) && Some(r[i].key) in col
  {
    var ks := Distinct(col);
    var ts := TallyAll(col, ks);
    PermutationMembers(r, ts);
    forall i | 0 <= i < |r|
      ensures r[i].count == Count(col, r[i].key) && Some(r[i].key) in col
    {
      assert r[i] in ts;
    }
  }

  /** The key of every entry of a table is among the table's keys. */
  lemma KeysOfMembers<K>(ts: seq<Tally<K>>)
    ensures forall t :: t in ts ==> t.key in Keys(ts)
  {
    forall t | t in ts ensures t.key in Keys(ts) {
      var m :| 0 <= m < |ts| && ts[m] == t;
      assert Keys(ts)[m] == t.key;
    }
  }

  /** Entries permuted from the table of all distinct values still list every value. */
  lemma PermutedTalliesComplete<K>(col: seq<Option<K>>, r: seq<Tally<K>>)
    requires multiset(r) == multiset(TallyAll(col, Distinct(col)))
    ensures forall i :: 0 <= i < |col| && col[i].Some? ==> col[i].value in Keys(r)
  {
    var ks := Distinct(col);
    var ts := TallyAll(col, ks);
    PermutationMembers(ts, r);
    KeysOfMembers(r);
    forall i | 0 <= i < |col| && col[i].Some?
      ensures col[i].value in Keys(r)
    {
      var j :| 0 <= j < |ks| && ks[j] == col[i].value;
      assert ts[j] in r;
    }
  }

  /** `value_counts()`: every distinct non-missing value once, with its exact
      number of occurrences, in non-increasing order of count. */
  function ValueCounts<K(==)>(col: seq<Option<K>>): (r: seq<Tally<K>>)
    ensures DistinctKeys(r)
    ensures SortedByCount(r)
    ensures forall i :: 0 <= i < |r| ==> r[i].count == Count(col, r[i].key) && r[i].count > 0
    ensures forall i :: 0 <= i < |col| && col[i].Some? ==> col[i].value in Keys(r)
    ensures Total(r) == Present(col)
  {
    var ts := TallyAll(col, Distinct(col));
    var r := SortByCount(ts);
    SortByCountSorts(ts);
    TallyTotal(col);
    PermutedTalliesExact(col, r);
    PermutedTalliesComplete(col, r);
    assert forall i :: 0 <= i < |r| ==> Count(col, r[i].key) > 0 by {
      forall i | 0 <= i < |r| ensures Count(col, r[i].key) > 0 {
        CountPositive(col, r[i].key);
      }
    }
    r
  }

  /** `head(n)`: the first `n` entries, or all of them when there are fewer. */
  function Head<K>(ts: seq<Tally<K>>, n: nat): (r: seq<Tally<K>>)
    ensures |r| <= n && |r| <= |ts|
    ensures r == ts[..|r|]
    ensures |r| < n ==> r == ts
  {
    if |ts| <= n then ts else ts[..n]
  }

  /** `value_counts().sort_index()` on a date column: every distinct date once,
      with its exact count, in strictly increasing chronological order. */
  function DateCounts(col: seq<Option<Date>>): (r: seq<Tally<Date>>)
    ensures SortedByDate(r)
    ensures DistinctKeys(r)
    ensures forall i :: 0 <= i < |r| ==> r[i].count == Count(col, r[i].key) && r[i].count > 0
    ensures forall i :: 0 <= i < |col| && col[i].Some? ==> col[i].value in Keys(r)
    ensures Total(r) == Present(col)
  {
    var ts := TallyAll(col, Distinct(col));
    var r := SortByDate(ts);
    SortByDateSorts(ts);
    TallyTotal(col);
    PermutedTalliesExact(col, r);
    PermutedTalliesComplete(col, r);
    assert forall i :: 0 <= i < |r| ==> Count(col, r[i].key) > 0 by {
      forall i | 0 <= i < |r| ensures Count(col, r[i].key) > 0 {
        CountPositive(col, r[i].key);
      }
    }
    r
  }
}
