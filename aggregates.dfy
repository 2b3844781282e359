/** Grouped statistics: `groupby(key)` with `size()`, `count` and `mean()`,
    and `value_counts()`. */
module Aggregates {
  import opened Tables
  import opened Keys
  import Ranking

  function Sum(xs: seq<real>): real
  {
    if xs == [] then 0.0 else xs[0] + Sum(xs[1..])
  }

  lemma {:induction false} SumConcat(a: seq<real>, b: seq<real>)
    ensures Sum(a + b) == Sum(a) + Sum(b)
  {
    if a == [] {
      assert a + b == b;
    } else {
      assert (a + b)[1..] == a[1..] + b;
      SumConcat(a[1..], b);
    }
  }

  /** Arithmetic mean of the non-null values; None (NaN) when there are none. */
  function Mean(xs: seq<real>): (m: Option<real>)
    ensures m.None? <==> xs == []
  {
    if xs == [] then None else Some(Sum(xs) / (|xs| as real))
  }

  lemma {:induction false} SumBounds(xs: seq<real>, lo: real, hi: real)
    requires forall x :: x in xs ==> lo <= x <= hi
    ensures (|xs| as real) * lo <= Sum(xs) <= (|xs| as real) * hi
  {
    if xs != [] {
      assert xs[0] in xs;
      assert forall x :: x in xs[1..] ==> x in xs;
      SumBounds(xs[1..], lo, hi);
      assert (|xs| as real) * lo == lo + (|xs[1..]| as real) * lo;
      assert (|xs| as real) * hi == hi + (|xs[1..]| as real) * hi;
    }
  }

  /** A mean lies between the smallest and the largest value averaged. */
  lemma MeanBounds(xs: seq<real>, lo: real, hi: real)
    requires xs != []
    requires forall x :: x in xs ==> lo <= x <= hi
    ensures lo <= Mean(xs).value <= hi
  {
    SumBounds(xs, lo, hi);
    var n := |xs| as real;
    assert Sum(xs) / n >= lo by {
      assert Sum(xs) >= n * lo;
    }
    assert Sum(xs) / n <= hi by {
      assert Sum(xs) <= n * hi;
    }
  }

  /** One row as seen by a groupby: its group label and its (nullable) value. */
  datatype Obs = Obs(key: string, value: Option<real>)

  /** One group: its label, its number of rows (`size`), its number of
      non-null values (`count`) and their mean (`mean`). */
  datatype Group = Group(key: string, size: nat, count: nat, mean: Option<real>)

  function Label(o: Obs): string { o.key }

  function GroupKey(g: Group): string { g.key }

  /** The number of rows labelled k. */
  function Size(rows: seq<Obs>, k: string): nat
  {
    if rows == [] then 0 else (if rows[0].key == k then 1 else 0) + Size(rows[1..], k)
  }

  /** The non-null values of the rows labelled k, in row order. */
  function Values(rows: seq<Obs>, k: string): seq<real>
  {
    if rows == [] then []
    else (if rows[0].key == k && rows[0].value.Some? then [rows[0].value.value] else []) + Values(rows[1..], k)
  }

  /** The statistics of group k. */
  function Stat(rows: seq<Obs>, k: string): Group
  {
    Group(k, Size(rows, k), |Values(rows, k)|, Mean(Values(rows, k)))
  }

  function StatOf(rows: seq<Obs>): string -> Group
  {
    k => Stat(rows, k)
  }

  /** The mask "this row is labelled k". */
  function LabelIs(k: string): Obs -> bool
  {
    (o: Obs) => o.key == k
  }

  /** `size()` of group k is the number of rows labelled k. */
  lemma {:induction false} SizeIsCount(rows: seq<Obs>, k: string)
    ensures Size(rows, k) == |Filter(rows, LabelIs(k))|
  {
    if rows != [] {
      SizeIsCount(rows[1..], k);
    }
  }

  /** With no null value, a group's `count` is its `size`. */
  lemma {:induction false} CountIsSize(rows: seq<Obs>, k: string)
    requires forall o :: o in rows ==> o.value.Some?
    ensures |Values(rows, k)| == Size(rows, k)
  {
    if rows != [] {
      assert rows[0] in rows;
      assert forall o :: o in rows[1..] ==> o in rows;
      CountIsSize(rows[1..], k);
    }
  }

  /** The values averaged for group k are the non-null values of its rows. */
  lemma {:induction false} ValuesMembers(rows: seq<Obs>, k: string, v: real)
    ensures v in Values(rows, k) <==> Obs(k, Some(v)) in rows
  {
    if rows != [] {
      ValuesMembers(rows[1..], k, v);
      assert rows == [rows[0]] + rows[1..];
    }
  }

  /** The labels of a table, row by row. */
  function Labels(rows: seq<Obs>): seq<string> { Map(rows, Label) }

  /** The labels of a grouped table, group by group. */
  function GroupKeys(g: seq<Group>): seq<string> { Map(g, GroupKey) }

  /** `df.groupby(key)`: one group per distinct label, in ascending label
      order, each with its size, non-null count and mean. */
  function GroupBy(rows: seq<Obs>): (g: seq<Group>)
    ensures StrictlySorted(GroupKeys(g))
    ensures forall k :: k in GroupKeys(g) <==> k in Labels(rows)
    ensures forall x :: x in g ==> x == Stat(rows, x.key) && x.size > 0
  {
    var ks := SortedDistinct(Labels(rows));
    var g := Map(ks, StatOf(rows));
    assert GroupKeys(g) == ks;
    forall x | x in g ensures x == Stat(rows, x.key) && x.size > 0 {
      var j :| 0 <= j < |g| && g[j] == x;
      LabelSize(rows, ks[j]);
    }
    g
  }

  /** A label occurs in the table exactly when some row carries it. */
  lemma {:induction false} LabelSize(rows: seq<Obs>, k: string)
    ensures Size(rows, k) > 0 <==> k in Labels(rows)
  {
    if rows != [] {
      LabelSize(rows[1..], k);
      assert Labels(rows) == [rows[0].key] + Labels(rows[1..]);
    }
  }

  /** Null values do not count: a row whose value is NaN adds to its group's
      size but changes neither its count nor its mean. */
  lemma {:induction false} NullIgnored(rows: seq<Obs>, k: string, k': string)
    ensures Values(rows + [Obs(k', None)], k) == Values(rows, k)
    ensures Size(rows + [Obs(k', None)], k) == Size(rows, k) + (if k == k' then 1 else 0)
  {
    if rows == [] {
      assert rows + [Obs(k', None)] == [Obs(k', None)];
    } else {
      assert (rows + [Obs(k', None)])[1..] == rows[1..] + [Obs(k', None)];
      NullIgnored(rows[1..], k, k');
    }
  }

  /** The mask "this row's label is in S" (`isin`). */
  function LabelIn(S: set<string>): Obs -> bool
  {
    (o: Obs) => o.key in S
  }

  function GroupIn(S: set<string>): Group -> bool
  {
    (g: Group) => g.key in S
  }

  function StringIn(S: set<string>): string -> bool
  {
    k => k in S
  }

  lemma {:induction false} SizeFiltered(rows: seq<Obs>, S: set<string>, k: string)
    requires k in S
    ensures Size(Filter(rows, LabelIn(S)), k) == Size(rows, k)
    ensures Values(Filter(rows, LabelIn(S)), k) == Values(rows, k)
  {
    if rows != [] {
      var f := Filter(rows, LabelIn(S));
      var rest := Filter(rows[1..], LabelIn(S));
      SizeFiltered(rows[1..], S, k);
      if rows[0].key in S {
        assert f == [rows[0]] + rest;
        assert f[0] == rows[0] && f[1..] == rest;
      } else {
        assert !LabelIn(S)(rows[0]);
        assert f == rest;
        assert rows[0].key != k;
        assert Size(rows, k) == Size(rows[1..], k);
        assert Values(rows, k) == [] + Values(rows[1..], k);
      }
    }
  }

  lemma {:induction false} MapFilterCommute(ks: seq<string>, rows: seq<Obs>, S: set<string>)
    ensures Filter(Map(ks, StatOf(rows)), GroupIn(S)) == Map(Filter(ks, StringIn(S)), StatOf(rows))
  {
    if ks != [] {
      MapFilterCommute(ks[1..], rows, S);
      var m := Map(ks, StatOf(rows));
      var g := Stat(rows, ks[0]);
      assert m[0] == g && m[1..] == Map(ks[1..], StatOf(rows));
      assert GroupIn(S)(g) == StringIn(S)(ks[0]);
      var fk := Filter(ks[1..], StringIn(S));
      if ks[0] in S {
        assert Filter(ks, StringIn(S)) == [ks[0]] + fk;
        MapConcat([ks[0]], fk, StatOf(rows));
      } else {
        assert Filter(ks, StringIn(S)) == fk;
      }
    }
  }

  /** The labels of the rows kept by `isin(S)` are the table's labels in S. */
  lemma {:induction false} LabelsFiltered(rows: seq<Obs>, S: set<string>)
    ensures forall k :: k in Labels(Filter(rows, LabelIn(S))) <==> k in Labels(rows) && k in S
  {
    if rows != [] {
      LabelsFiltered(rows[1..], S);
      var f := Filter(rows, LabelIn(S));
      var rest := Filter(rows[1..], LabelIn(S));
      assert Labels(rows) == [rows[0].key] + Labels(rows[1..]);
      if rows[0].key in S {
        assert f == [rows[0]] + rest;
        assert Labels(f) == [rows[0].key] + Labels(rest);
      } else {
        assert f == rest;
      }
    }
  }

  /** Statistics of a kept label are those of the whole table. */
  lemma StatsFiltered(ks: seq<string>, rows: seq<Obs>, S: set<string>)
    requires forall k :: k in ks ==> k in S
    ensures Map(ks, StatOf(Filter(rows, LabelIn(S)))) == Map(ks, StatOf(rows))
  {
    var a := Map(ks, StatOf(Filter(rows, LabelIn(S))));
    var b := Map(ks, StatOf(rows));
    forall i | 0 <= i < |ks| ensures a[i] == b[i] {
      SizeFiltered(rows, S, ks[i]);
    }
  }

  /** Filtering rows by label before grouping gives exactly the groups of
      those labels, with unchanged statistics: the same table as grouping
      first and filtering the groups. */
  lemma GroupByFilter(rows: seq<Obs>, S: set<string>)
    ensures GroupBy(Filter(rows, LabelIn(S))) == Filter(GroupBy(rows), GroupIn(S))
  {
    var fr := Filter(rows, LabelIn(S));
    var ks := SortedDistinct(Labels(rows));
    var fks := SortedDistinct(Labels(fr));
    var kept := Filter(ks, StringIn(S));
    FilterSorted(ks, S);
    LabelsFiltered(rows, S);
    assert forall k :: k in fks <==> k in kept;
    StrictlySortedUnique(fks, kept);
    MapFilterCommute(ks, rows, S);
    StatsFiltered(fks, rows, S);
  }

  lemma FilterSorted(ks: seq<string>, S: set<string>)
    requires StrictlySorted(ks)
    ensures StrictlySorted(Filter(ks, StringIn(S)))
  {
    var f := Filter(ks, StringIn(S));
    forall i, j | 0 <= i < j < |f| ensures StrLt(f[i], f[j]) {
      var a, b := FilterIndices(ks, StringIn(S), i, j);
    }
  }

  /** How the filtered rows of a table relate to those of its tail. */
  lemma FilterStep<T(!new)>(s: seq<T>, p: T -> bool) returns (d: nat)
    requires s != []
    ensures d == if p(s[0]) then 1 else 0
    ensures |Filter(s, p)| == d + |Filter(s[1..], p)|
    ensures d == 1 ==> Filter(s, p)[0] == s[0]
    ensures forall i :: d <= i < |Filter(s, p)| ==> Filter(s, p)[i] == Filter(s[1..], p)[i - d]
  {
    d := if p(s[0]) then 1 else 0;
    assert Filter(s, p) == (if p(s[0]) then [s[0]] else []) + Filter(s[1..], p);
  }

  /** Two rows of a filtered table come from two rows of the table in the same order. */
  lemma {:induction false} FilterIndices<T(!new)>(s: seq<T>, p: T -> bool, i: nat, j: nat) returns (a: nat, b: nat)
    requires i < j < |Filter(s, p)|
    ensures a < b < |s| && s[a] == Filter(s, p)[i] && s[b] == Filter(s, p)[j]
  {
    var t := s[1..];
    var d := FilterStep(s, p);
    if d == 1 && i == 0 {
      var k := IndexOf(t, Filter(t, p)[j - 1]);
      assert s[k + 1] == t[k];
      a, b := 0, k + 1;
    } else {
      var a', b' := FilterIndices(t, p, i - d, j - d);
      assert s[a' + 1] == t[a'] && s[b' + 1] == t[b'];
      a, b := a' + 1, b' + 1;
    }
  }

  /** One row of `value_counts()`: a distinct value and how often it occurs. */
  datatype Tally<K> = Tally(key: K, n: nat)

  function TallyCount<K>(t: Tally<K>): real { t.n as real }

  function TallyOf<K(==)>(ks: seq<K>): K -> Tally<K>
  {
    k => Tally(k, multiset(ks)[k])
  }

  /** The tallies of the distinct values, in order of first occurrence. */
  lemma Tallies<K(!new)>(ks: seq<K>)
    ensures Distinct(Map(Dedup(ks), TallyOf(ks)))
    ensures forall k :: k in ks <==> Tally(k, multiset(ks)[k]) in Map(Dedup(ks), TallyOf(ks))
    ensures forall t :: t in Map(Dedup(ks), TallyOf(ks)) ==> t.n == multiset(ks)[t.key] && t.n > 0
  {
    var d := Dedup(ks);
    var u := Map(d, TallyOf(ks));
    forall i, j | 0 <= i < j < |u| ensures u[i] != u[j] {
      assert u[i].key == d[i] && u[j].key == d[j];
    }
    forall k ensures k in ks <==> Tally(k, multiset(ks)[k]) in u {
      if k in ks {
        MapMember(d, TallyOf(ks), k);
      }
    }
    forall t | t in u ensures t.n == multiset(ks)[t.key] && t.n > 0 {
      var k := MapWitness(d, TallyOf(ks), t);
    }
  }

  /** `column.value_counts()`: every distinct value once with its number of
      occurrences, most frequent first. */
  function ValueCounts<K(==,!new)>(ks: seq<K>): (r: seq<Tally<K>>)
    ensures Ranking.SortedDesc(r, TallyCount)
    ensures forall t :: t in r ==> t.n == multiset(ks)[t.key] && t.n > 0
    ensures forall k :: k in ks <==> Tally(k, multiset(ks)[k]) in r
    ensures Distinct(r)
  {
    var u := Map(Dedup(ks), TallyOf(ks));
    var r := Ranking.SortDesc(u, TallyCount);
    Tallies(ks);
    DistinctSubMultiset(u, r);
    forall t ensures t in r <==> t in u {
      assert t in r <==> t in multiset(r);
      assert t in u <==> t in multiset(u);
    }
    r
  }

  function TallyKey<K>(t: Tally<K>): K { t.key }

  /** `value_counts` has one row per value. */
  lemma ValueCountsUnique<K(!new)>(ks: seq<K>)
    ensures UniqueBy(ValueCounts(ks), TallyKey)
  {
    var r := ValueCounts(ks);
    forall i, j | 0 <= i < j < |r| ensures TallyKey(r[i]) != TallyKey(r[j]) {
      assert r[i] in r && r[j] in r;
    }
  }

  /** Keeping some rows of a sorted table leaves it sorted. */
  lemma FilterSortedDesc<T(!new)>(s: seq<T>, p: T -> bool, key: T -> real)
    requires Ranking.SortedDesc(s, key)
    ensures Ranking.SortedDesc(Filter(s, p), key)
  {
    var f := Filter(s, p);
    forall i, j | 0 <= i < j < |f| ensures key(f[i]) >= key(f[j]) {
      var a, b := FilterIndices(s, p, i, j);
    }
  }

  /** Keeping some rows of a table sorted by a key leaves it sorted. */
  lemma MapFilterSorted<T(!new)>(s: seq<T>, p: T -> bool, key: T -> string)
    requires StrictlySorted(Map(s, key))
    ensures StrictlySorted(Map(Filter(s, p), key))
  {
    var f := Filter(s, p);
    var ks := Map(s, key);
    forall i, j | 0 <= i < j < |f| ensures StrLt(Map(f, key)[i], Map(f, key)[j]) {
      var a, b := FilterIndices(s, p, i, j);
      assert ks[a] == key(f[i]) && ks[b] == key(f[j]);
    }
  }
}
