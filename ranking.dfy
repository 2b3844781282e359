/** Ordering rows by a numeric column: the stable descending sort behind
    `nlargest`/`nsmallest` (keep='first'), and the minimum and maximum of a
    displayed column that bound a map's colour scale. */
module Ranking {
  import opened Tables

  /** Non-increasing in key. */
  ghost predicate SortedDesc<T>(s: seq<T>, key: T -> real)
  {
    forall i, j :: 0 <= i < j < |s| ==> key(s[i]) >= key(s[j])
  }

  /** Inserts x before the first row whose key is not larger, so that x
      precedes the rows it ties with. */
  function InsertDesc<T>(x: T, t: seq<T>, key: T -> real): (r: seq<T>)
    requires SortedDesc(t, key)
    ensures SortedDesc(r, key)
    ensures multiset(r) == multiset(t) + multiset{x}
  {
    if t == [] then [x]
    else if key(x) >= key(t[0]) then [x] + t
    else
      SortedTail(t, key);
      var u := InsertDesc(x, t[1..], key);
      assert t == [t[0]] + t[1..];
      HeadAbove(x, t, u, key);
      [t[0]] + u
  }

  lemma SortedTail<T>(t: seq<T>, key: T -> real)
    requires t != [] && SortedDesc(t, key)
    ensures SortedDesc(t[1..], key)
    ensures forall y :: y in t[1..] ==> key(t[0]) >= key(y)
  {
    forall y | y in t[1..] ensures key(t[0]) >= key(y) {
      var j :| 0 <= j < |t[1..]| && t[1..][j] == y;
      assert t[j + 1] == y;
    }
  }

  /** The first row stays ahead of x inserted into the rest. */
  lemma HeadAbove<T>(x: T, t: seq<T>, u: seq<T>, key: T -> real)
    requires t != [] && SortedDesc(t, key) && key(x) < key(t[0])
    requires multiset(u) == multiset(t[1..]) + multiset{x}
    ensures forall y :: y in u ==> key(t[0]) >= key(y)
  {
    SortedTail(t, key);
    forall y | y in u ensures key(t[0]) >= key(y) {
      assert y in multiset(u);
      if y != x {
        assert y in multiset(t[1..]);
      }
    }
  }

  /** A stable sort by key, largest first. */
  function SortDesc<T>(s: seq<T>, key: T -> real): (r: seq<T>)
    ensures SortedDesc(r, key)
    ensures multiset(r) == multiset(s)
  {
    if s == [] then []
    else
      assert s == [s[0]] + s[1..];
      InsertDesc(s[0], SortDesc(s[1..], key), key)
  }

  /** The mask "this row's key equals v". */
  function Tied<T>(key: T -> real, v: real): T -> bool
  {
    x => key(x) == v
  }

  lemma {:induction false} InsertDescStable<T(!new)>(x: T, t: seq<T>, key: T -> real, v: real)
    requires SortedDesc(t, key)
    ensures Filter(InsertDesc(x, t, key), Tied(key, v)) == Filter([x], Tied(key, v)) + Filter(t, Tied(key, v))
  {
    if t != [] {
      if key(x) >= key(t[0]) {
        FilterConcat([x], t, Tied(key, v));
      } else {
        InsertDescStable(x, t[1..], key, v);
        assert t == [t[0]] + t[1..];
        TiedSwap(x, t[0], InsertDesc(x, t[1..], key), t[1..], Tied(key, v));
      }
    }
  }

  /** Moving x behind a row it cannot tie with keeps the order of the tied
      rows. */
  lemma TiedSwap<T(!new)>(x: T, y: T, u: seq<T>, rest: seq<T>, p: T -> bool)
    requires !(p(x) && p(y))
    requires Filter(u, p) == Filter([x], p) + Filter(rest, p)
    ensures Filter([y] + u, p) == Filter([x], p) + Filter([y] + rest, p)
  {
    FilterConcat([y], u, p);
    FilterConcat([y], rest, p);
    FilterSingle(x, p);
    FilterSingle(y, p);
    SwapEmpty(Filter([x], p), Filter([y], p), Filter(rest, p));
  }

  lemma SwapEmpty<T>(a: seq<T>, b: seq<T>, c: seq<T>)
    requires a == [] || b == []
    ensures b + (a + c) == a + (b + c)
  {
    if a == [] {
      assert a + c == c;
    } else {
      assert b + (a + c) == a + c;
    }
  }


  /** Stability: among rows with equal keys the sort keeps their input order. */
  lemma {:induction false} SortDescStable<T(!new)>(s: seq<T>, key: T -> real, v: real)
    ensures Filter(SortDesc(s, key), Tied(key, v)) == Filter(s, Tied(key, v))
  {
    if s != [] {
      var p := Tied(key, v);
      var t := SortDesc(s[1..], key);
      assert SortDesc(s, key) == InsertDesc(s[0], t, key);
      SortDescStable(s[1..], key, v);
      InsertDescStable(s[0], t, key, v);
      assert [s[0]] + s[1..] == s;
      FilterConcat([s[0]], s[1..], p);
    }
  }

  function ValueOr(o: Option<real>): real
  {
    match o
    case Some(v) => v
    case None => 0.0
  }

  /** The mask "this row's value is not NaN". */
  function IsDefined<T>(key: T -> Option<real>): T -> bool
  {
    x => key(x).Some?
  }

  /** The mask "this row's value is NaN". */
  function IsNaN<T>(key: T -> Option<real>): T -> bool
  {
    x => key(x).None?
  }

  /** The mask "this row's value is v". */
  function HasValue<T>(key: T -> Option<real>, v: real): T -> bool
  {
    x => key(x) == Some(v)
  }

  /** The sort key of a nullable column, once its NaN rows are set aside. */
  function Score<T>(key: T -> Option<real>): T -> real
  {
    x => ValueOr(key(x))
  }

  /** The whole ranking behind `nlargest`: the rows with a value, largest
      first with ties in row order, then the NaN rows in row order. */
  function RankDesc<T(!new)>(s: seq<T>, key: T -> Option<real>): seq<T>
  {
    SortDesc(Filter(s, IsDefined(key)), Score(key)) + Filter(s, IsNaN(key))
  }

  /** `nlargest(n, column)` with keep='first': n rows of the table (all of
      them when there are fewer), largest value first; a NaN row is kept only
      after every row with a value, so NaN rows fill the result up to n only
      once the rows with a value run out. */
  function NLargest<T(!new)>(s: seq<T>, n: nat, key: T -> Option<real>): (r: seq<T>)
    ensures |r| == Min(n, |s|)
    ensures multiset(r) <= multiset(s)
    ensures forall x :: x in r ==> x in s
    ensures forall i, j :: 0 <= i < j < |r| && key(r[j]).Some? ==>
      key(r[i]).Some? && ValueOr(key(r[i])) >= ValueOr(key(r[j]))
    ensures forall x, y :: x in r && y in s && key(y).Some? && y !in r ==>
      key(x).Some? && ValueOr(key(y)) <= ValueOr(key(x))
  {
    NLargestFacts(s, n, key);
    Take(RankDesc(s, key), n)
  }

  /** The ranking holds every row once; its rows with a value come first,
      in non-increasing order. */
  lemma RankFacts<T(!new)>(s: seq<T>, key: T -> Option<real>)
    ensures var m := |Filter(s, IsDefined(key))|; var rank := RankDesc(s, key);
      && multiset(rank) == multiset(s) && |rank| == |s| && m <= |s|
      && (forall y :: y in s && key(y).Some? ==> y in rank[..m])
      && Ranked(rank, m, key)
  {
    var d := Filter(s, IsDefined(key));
    var sorted := SortDesc(d, Score(key));
    var nan := Filter(s, IsNaN(key));
    var rank := sorted + nan;
    FilterPartition(s, IsDefined(key), IsNaN(key));
    assert |rank| == |multiset(rank)|;
    assert |sorted| == |multiset(d)| == |d|;
    SortDescMembers(d, Score(key));
    assert rank[..|d|] == sorted;
    RankedParts(sorted, nan, key);
  }

  /** Rows with values sorted largest first, then NaN rows, are ranked. */
  lemma RankedParts<T>(sorted: seq<T>, nan: seq<T>, key: T -> Option<real>)
    requires SortedDesc(sorted, Score(key))
    requires forall x :: x in sorted ==> IsDefined(key)(x)
    requires forall x :: x in nan ==> IsNaN(key)(x)
    ensures Ranked(sorted + nan, |sorted|, key)
  {
    var rank := sorted + nan;
    AppendSides(sorted, nan, IsDefined(key), IsNaN(key));
    forall i, j | 0 <= i < j < |sorted| ensures ValueOr(key(rank[i])) >= ValueOr(key(rank[j])) {
      assert rank[i] == sorted[i] && rank[j] == sorted[j];
      assert Score(key)(sorted[i]) >= Score(key)(sorted[j]);
    }
  }

  /** The first m rows hold values, in non-increasing order, and the rest
      are NaN. */
  ghost predicate Ranked<T>(rank: seq<T>, m: nat, key: T -> Option<real>)
  {
    && m <= |rank|
    && (forall k :: 0 <= k < m ==> key(rank[k]).Some?)
    && (forall k :: m <= k < |rank| ==> key(rank[k]).None?)
    && (forall i, j :: 0 <= i < j < m ==> ValueOr(key(rank[i])) >= ValueOr(key(rank[j])))
  }

  /** Rows of a satisfy P and rows of b satisfy Q: so do the positions of
      a + b that hold them. */
  lemma AppendSides<T>(a: seq<T>, b: seq<T>, P: T -> bool, Q: T -> bool)
    requires forall x :: x in a ==> P(x)
    requires forall x :: x in b ==> Q(x)
    ensures forall k :: 0 <= k < |a| ==> P((a + b)[k])
    ensures forall k :: |a| <= k < |a + b| ==> Q((a + b)[k])
  {
    forall k | |a| <= k < |a + b| ensures Q((a + b)[k]) {
      assert (a + b)[k] == b[k - |a|];
    }
  }

  /** The first n rows of a ranking: rows with values first, in
      non-increasing order, and each no smaller than a row with a value
      the cut leaves out. */
  lemma TakeRanked<T>(rank: seq<T>, n: nat, m: nat, key: T -> Option<real>)
    requires Ranked(rank, m, key)
    ensures var r := Take(rank, n);
      && (forall i, j :: 0 <= i < j < |r| && key(r[j]).Some? ==>
        key(r[i]).Some? && ValueOr(key(r[i])) >= ValueOr(key(r[j])))
      && (forall i, k :: 0 <= i < |r| <= k < m ==> key(r[i]).Some? && ValueOr(key(rank[k])) <= ValueOr(key(r[i])))
  {
    var r := Take(rank, n);
    forall i, j | 0 <= i < j < |r| && key(r[j]).Some?
      ensures key(r[i]).Some? && ValueOr(key(r[i])) >= ValueOr(key(r[j]))
    {
      assert r[i] == rank[i] && r[j] == rank[j];
    }
    forall i, k | 0 <= i < |r| <= k < m ensures key(r[i]).Some? && ValueOr(key(rank[k])) <= ValueOr(key(r[i])) {
      assert rank[i] == r[i];
    }
  }

  lemma NLargestFacts<T(!new)>(s: seq<T>, n: nat, key: T -> Option<real>)
    ensures var r := Take(RankDesc(s, key), n);
      && |r| == Min(n, |s|)
      && multiset(r) <= multiset(s)
      && (forall x :: x in r ==> x in s)
      && (forall i, j :: 0 <= i < j < |r| && key(r[j]).Some? ==>
        key(r[i]).Some? && ValueOr(key(r[i])) >= ValueOr(key(r[j])))
      && (forall x, y :: x in r && y in s && key(y).Some? && y !in r ==>
        key(x).Some? && ValueOr(key(y)) <= ValueOr(key(x)))
  {
    var m := |Filter(s, IsDefined(key))|;
    var rank := RankDesc(s, key);
    var r := Take(rank, n);
    RankFacts(s, key);
    TakeMultiset(rank, n);
    TakeRanked(rank, n, m, key);
    forall x | x in r ensures x in s {
      assert x in multiset(r);
    }
    forall x, y | x in r && y in s && key(y).Some? && y !in r
      ensures key(x).Some? && ValueOr(key(y)) <= ValueOr(key(x))
    {
      var k := IndexOf(rank[..m], y);
      assert rank[k] == y;
      TakeIndex(rank, n, k);
      var i := IndexOf(r, x);
    }
  }

  /** The first n rows of a sorted table are no smaller than any row after them. */
  lemma TakeOfSorted<T>(sorted: seq<T>, n: nat, key: T -> real)
    requires SortedDesc(sorted, key)
    ensures forall x, y :: x in Take(sorted, n) && y in sorted && y !in Take(sorted, n) ==> key(y) <= key(x)
  {
    var r := Take(sorted, n);
    forall x, y | x in r && y in sorted && y !in r ensures key(y) <= key(x) {
      var i :| 0 <= i < |r| && r[i] == x;
      var k :| 0 <= k < |sorted| && sorted[k] == y;
      TakeIndex(sorted, n, k);
      assert sorted[i] == x;
    }
  }

  /** The last n rows of a sorted table are no larger than any row before them. */
  lemma LastOfSorted<T>(sorted: seq<T>, n: nat, key: T -> real)
    requires SortedDesc(sorted, key)
    ensures forall x, y :: x in Last(sorted, n) && y in sorted && y !in Last(sorted, n) ==> key(y) >= key(x)
  {
    var r := Last(sorted, n);
    var d := |sorted| - |r|;
    forall x, y | x in r && y in sorted && y !in r ensures key(y) >= key(x) {
      var i :| 0 <= i < |r| && r[i] == x;
      var k :| 0 <= k < |sorted| && sorted[k] == y;
      LastIndex(sorted, n, k);
      assert sorted[d + i] == x;
    }
  }

  /** Ties keep row order: the rows nlargest returns with value v are the
      first of the table's rows with value v, in row order; so are its NaN
      rows among the table's NaN rows. */
  lemma NLargestTies<T(!new)>(s: seq<T>, n: nat, key: T -> Option<real>, v: real)
    ensures Filter(NLargest(s, n, key), HasValue(key, v)) <= Filter(s, HasValue(key, v))
    ensures Filter(NLargest(s, n, key), IsNaN(key)) <= Filter(s, IsNaN(key))
  {
    var rank := RankDesc(s, key);
    assert Take(rank, n) <= rank;
    FilterPrefix(Take(rank, n), rank, HasValue(key, v));
    FilterPrefix(Take(rank, n), rank, IsNaN(key));
    RankValueOrder(s, key, v);
    RankNaNOrder(s, key);
  }

  /** The ranking lists the rows with value v in row order. */
  lemma RankValueOrder<T(!new)>(s: seq<T>, key: T -> Option<real>, v: real)
    ensures Filter(RankDesc(s, key), HasValue(key, v)) == Filter(s, HasValue(key, v))
  {
    var d := Filter(s, IsDefined(key));
    var sorted := SortDesc(d, Score(key));
    var nan := Filter(s, IsNaN(key));
    var q := HasValue(key, v);
    SortDescMembers(d, Score(key));
    FilterConcat(sorted, nan, q);
    SortDescStable(d, Score(key), v);
    FilterSameOn(sorted, Tied(Score(key), v), q);
    FilterSameOn(d, Tied(Score(key), v), q);
    FilterFilter(s, IsDefined(key), q);
    FilterNone(nan, q);
  }

  /** The ranking lists the NaN rows in row order. */
  lemma RankNaNOrder<T(!new)>(s: seq<T>, key: T -> Option<real>)
    ensures Filter(RankDesc(s, key), IsNaN(key)) == Filter(s, IsNaN(key))
  {
    var d := Filter(s, IsDefined(key));
    var sorted := SortDesc(d, Score(key));
    var nan := Filter(s, IsNaN(key));
    SortDescMembers(d, Score(key));
    FilterConcat(sorted, nan, IsNaN(key));
    FilterNone(sorted, IsNaN(key));
    FilterFilter(s, IsNaN(key), IsNaN(key));
  }

  function Negate(o: Option<real>): Option<real>
  {
    match o
    case Some(v) => Some(-v)
    case None => None
  }

  function Negated<T>(key: T -> Option<real>): T -> Option<real>
  {
    x => Negate(key(x))
  }

  /** Negating a column keeps its NaN rows and flips every value. */
  lemma NegatedAt<T>(key: T -> Option<real>, x: T)
    ensures Negated(key)(x).Some? == key(x).Some?
    ensures ValueOr(Negated(key)(x)) == -ValueOr(key(x))
  {
  }

  /** What nlargest promises about the negated column, read back on the
      column itself. */
  lemma Flipped<T>(r: seq<T>, s: seq<T>, key: T -> Option<real>)
    requires forall i, j :: 0 <= i < j < |r| && Negated(key)(r[j]).Some? ==>
      Negated(key)(r[i]).Some? && ValueOr(Negated(key)(r[i])) >= ValueOr(Negated(key)(r[j]))
    requires forall x, y :: x in r && y in s && Negated(key)(y).Some? && y !in r ==>
      Negated(key)(x).Some? && ValueOr(Negated(key)(y)) <= ValueOr(Negated(key)(x))
    ensures forall i, j :: 0 <= i < j < |r| && key(r[j]).Some? ==>
      key(r[i]).Some? && ValueOr(key(r[i])) <= ValueOr(key(r[j]))
    ensures forall x, y :: x in r && y in s && key(y).Some? && y !in r ==>
      key(x).Some? && ValueOr(key(y)) >= ValueOr(key(x))
  {
    forall i, j | 0 <= i < j < |r| && key(r[j]).Some?
      ensures key(r[i]).Some? && ValueOr(key(r[i])) <= ValueOr(key(r[j]))
    {
      NegatedAt(key, r[i]);
      NegatedAt(key, r[j]);
    }
    forall x, y | x in r && y in s && key(y).Some? && y !in r
      ensures key(x).Some? && ValueOr(key(y)) >= ValueOr(key(x))
    {
      NegatedAt(key, x);
      NegatedAt(key, y);
    }
  }

  /** `nsmallest(n, column)` with keep='first': n rows of the table (all of
      them when there are fewer), smallest value first; a NaN row is kept only
      after every row with a value. */
  function NSmallest<T(!new)>(s: seq<T>, n: nat, key: T -> Option<real>): (r: seq<T>)
    ensures |r| == Min(n, |s|)
    ensures multiset(r) <= multiset(s)
    ensures forall x :: x in r ==> x in s
    ensures forall i, j :: 0 <= i < j < |r| && key(r[j]).Some? ==>
      key(r[i]).Some? && ValueOr(key(r[i])) <= ValueOr(key(r[j]))
    ensures forall x, y :: x in r && y in s && key(y).Some? && y !in r ==>
      key(x).Some? && ValueOr(key(y)) >= ValueOr(key(x))
  {
    var r := NLargest(s, n, Negated(key));
    Flipped(r, s, key);
    r
  }

  /** The smallest value of a non-empty column. */
  function MinOf(xs: seq<real>): (m: real)
    requires xs != []
    ensures m in xs && forall x :: x in xs ==> m <= x
  {
    if |xs| == 1 then xs[0]
    else
      var m := MinOf(xs[1..]);
      assert xs == [xs[0]] + xs[1..];
      if xs[0] <= m then xs[0] else m
  }

  /** The largest value of a non-empty column. */
  function MaxOf(xs: seq<real>): (m: real)
    requires xs != []
    ensures m in xs && forall x :: x in xs ==> x <= m
  {
    if |xs| == 1 then xs[0]
    else
      var m := MaxOf(xs[1..]);
      assert xs == [xs[0]] + xs[1..];
      if xs[0] >= m then xs[0] else m
  }

  /** The vmin and vmax of a colour scale over the displayed values: None
      (NaN) when nothing is displayed; otherwise two displayed values that
      enclose every displayed value. */
  function ColourBounds(xs: seq<real>): (b: Option<(real, real)>)
    ensures b.None? <==> xs == []
    ensures b.Some? ==> b.value.0 in xs && b.value.1 in xs
    ensures b.Some? ==> forall x :: x in xs ==> b.value.0 <= x <= b.value.1
  {
    if xs == [] then None else Some((MinOf(xs), MaxOf(xs)))
  }

  /** The m smallest are the first m of the n smallest, for m <= n. */
  lemma NSmallestPrefix<T(!new)>(s: seq<T>, m: nat, n: nat, key: T -> Option<real>)
    requires m <= n
    ensures NSmallest(s, m, key) == Take(NSmallest(s, n, key), m)
  {
    TakeTake(RankDesc(s, Negated(key)), m, n);
  }

  /** A row with a value left out of the n smallest is no smaller than any
      row kept, and every row kept has a value. */
  lemma NSmallestExcluded<T(!new)>(s: seq<T>, n: nat, key: T -> Option<real>, x: T, y: T)
    requires x in NSmallest(s, n, key) && y in s && key(y).Some? && y !in NSmallest(s, n, key)
    ensures key(x).Some? && key(x).value <= key(y).value
  {
  }

  /** Ties keep row order in nsmallest too, and so do its NaN rows. */
  lemma NSmallestTies<T(!new)>(s: seq<T>, n: nat, key: T -> Option<real>, v: real)
    ensures Filter(NSmallest(s, n, key), HasValue(key, v)) <= Filter(s, HasValue(key, v))
    ensures Filter(NSmallest(s, n, key), IsNaN(key)) <= Filter(s, IsNaN(key))
  {
    var r := NLargest(s, n, Negated(key));
    var w := -v;
    NLargestTies(s, n, Negated(key), w);
    NegatedTies(r, s, key, v, w);
  }

  /** Selections by the negated column's masks are selections by the
      column's own: its rows with value -v are the column's rows with
      value v, and both have the same NaN rows. */
  lemma NegatedTies<T(!new)>(r: seq<T>, s: seq<T>, key: T -> Option<real>, v: real, w: real)
    requires w == -v
    requires Filter(r, HasValue(Negated(key), w)) <= Filter(s, HasValue(Negated(key), w))
    requires Filter(r, IsNaN(Negated(key))) <= Filter(s, IsNaN(Negated(key)))
    ensures Filter(r, HasValue(key, v)) <= Filter(s, HasValue(key, v))
    ensures Filter(r, IsNaN(key)) <= Filter(s, IsNaN(key))
  {
    var p := HasValue(Negated(key), w);
    var q := HasValue(key, v);
    forall x ensures p(x) == q(x) {
      assert p(x) == (Negate(key(x)) == Some(-v));
      if key(x).Some? {
        assert Negate(key(x)) == Some(-key(x).value);
      }
    }
    FilterSame(r, p, q);
    FilterSame(s, p, q);
    assert forall x :: IsNaN(Negated(key))(x) == IsNaN(key)(x);
    FilterSame(r, IsNaN(Negated(key)), IsNaN(key));
    FilterSame(s, IsNaN(Negated(key)), IsNaN(key));
  }

  /** Non-decreasing in key. */
  ghost predicate SortedAsc<T>(s: seq<T>, key: T -> real)
  {
    forall i, j :: 0 <= i < j < |s| ==> key(s[i]) <= key(s[j])
  }

  /** A non-decreasing column. */
  ghost predicate Ascending(x: seq<real>)
  {
    forall i, j :: 0 <= i < j < |x| ==> x[i] <= x[j]
  }

  /** Two non-decreasing columns holding the same values, each as often,
      are the same column. */
  lemma {:induction false} SortedValuesEqual(x: seq<real>, y: seq<real>)
    requires multiset(x) == multiset(y) && Ascending(x) && Ascending(y)
    ensures x == y
    decreases |x|
  {
    if x == [] {
      assert |y| == |multiset(y)| == 0;
    } else {
      SameHeads(x, y);
      SortedValuesEqual(x[1..], y[1..]);
      assert x == [x[0]] + x[1..] && y == [y[0]] + y[1..];
    }
  }

  /** Two non-decreasing columns holding the same values start with the
      same value, their smallest, and go on with the same values. */
  lemma SameHeads(x: seq<real>, y: seq<real>)
    requires x != [] && multiset(x) == multiset(y) && Ascending(x) && Ascending(y)
    ensures y != [] && x[0] == y[0]
    ensures multiset(x[1..]) == multiset(y[1..]) && Ascending(x[1..]) && Ascending(y[1..])
  {
    SmallestFirst(x, y);
    assert x == [] + ([x[0]] + x[1..]);
    assert y == [y[0]] + y[1..];
    RemoveOne([], x[1..], y[0], y[1..]);
    assert [] + x[1..] == x[1..];
    AscTail(x);
    AscTail(y);
  }

  lemma AscTail(x: seq<real>)
    requires x != [] && Ascending(x)
    ensures Ascending(x[1..])
  {
    forall i, j | 0 <= i < j < |x[1..]| ensures x[1..][i] <= x[1..][j] {
      assert x[1..][i] == x[i + 1] && x[1..][j] == x[j + 1];
    }
  }

  /** Two non-decreasing columns holding the same values start with the
      same value, their smallest. */
  lemma SmallestFirst(x: seq<real>, y: seq<real>)
    requires x != [] && multiset(x) == multiset(y) && Ascending(x) && Ascending(y)
    ensures y != [] && x[0] == y[0]
  {
    assert x[0] in multiset(y) && y != [];
    assert y[0] in multiset(x);
    var k := IndexOf(y, x[0]);
    var l := IndexOf(x, y[0]);
    if k > 0 {
      assert y[0] <= y[k];
    }
    if l > 0 {
      assert x[0] <= x[l];
    }
  }

  /** Two orderings of the same rows, both non-decreasing in key, list the
      same keys. */
  lemma SortedSameValues<T>(a: seq<T>, b: seq<T>, key: T -> real)
    requires multiset(a) == multiset(b)
    requires SortedAsc(a, key) && SortedAsc(b, key)
    ensures Map(a, key) == Map(b, key)
  {
    MapMultiset(a, b, key);
    assert Ascending(Map(a, key)) && Ascending(Map(b, key));
    SortedValuesEqual(Map(a, key), Map(b, key));
  }

  /** Whatever order a sort leaves tied rows in, when every row has a value
      the n smallest list the same values as the first n rows of that
      sorted table. */
  lemma NSmallestAnyOrder<T(!new)>(s: seq<T>, n: nat, key: T -> Option<real>, sorted: seq<T>)
    requires forall x :: x in s ==> key(x).Some?
    requires multiset(sorted) == multiset(s) && SortedAsc(sorted, Score(key))
    ensures Map(NSmallest(s, n, key), Score(key)) == Map(Take(sorted, n), Score(key))
  {
    var N := if n <= |s| then |s| else n;
    var full := NSmallest(s, N, key);
    RankFacts(s, Negated(key));
    assert full == RankDesc(s, Negated(key));
    forall i, j | 0 <= i < j < |full| ensures Score(key)(full[i]) <= Score(key)(full[j]) {
      assert full[j] in s;
    }
    NSmallestPrefix(s, n, N, key);
    SortedSameValues(full, sorted, Score(key));
    MapTake(full, n, Score(key));
    MapTake(sorted, n, Score(key));
  }

  /** Sorting keeps the same rows. */
  lemma SortDescMembers<T>(s: seq<T>, key: T -> real)
    ensures forall x :: x in SortDesc(s, key) <==> x in s
  {
    var r := SortDesc(s, key);
    forall x ensures x in r <==> x in s {
      assert x in r <==> x in multiset(r);
      assert x in s <==> x in multiset(s);
    }
  }
}
