/** Generic operations on in-memory tables. A table is a sequence of rows;
    these are the relational pieces pandas provides to the dashboard:
    column derivation, boolean filtering, head/tail, inner merge and
    duplicate removal. */
module Tables {

  /** A nullable cell (a pandas NaN / NaT). */
  datatype Option<+T> = None | Some(value: T)

  function Min(a: int, b: int): int
  {
    if a <= b then a else b
  }

  /** The first n rows are rows of the table. */
  lemma TakeMembers<T>(s: seq<T>, n: nat)
    ensures forall x :: x in Take(s, n) ==> x in s
  {
    var t := Take(s, n);
    forall x | x in t ensures x in s {
      var i :| 0 <= i < |t| && t[i] == x;
      assert s[i] == x;
    }
  }

  /** A row that is not among the first n sits at or after position n. */
  lemma TakeIndex<T>(s: seq<T>, n: nat, k: nat)
    requires k < |s|
    ensures s[k] !in Take(s, n) ==> k >= |Take(s, n)|
  {
    if k < |Take(s, n)| {
      assert Take(s, n)[k] == s[k];
    }
  }

  /** A row that is not among the last n sits before them. */
  lemma LastIndex<T>(s: seq<T>, n: nat, k: nat)
    requires k < |s|
    ensures s[k] !in Last(s, n) ==> k < |s| - |Last(s, n)|
  {
    var d := |s| - |Last(s, n)|;
    if k >= d {
      assert Last(s, n)[k - d] == s[k];
    }
  }

  /** The last n rows are rows of the table. */
  lemma LastMembers<T>(s: seq<T>, n: nat)
    ensures forall x :: x in Last(s, n) ==> x in s
  {
    var t := Last(s, n);
    var d := |s| - |t|;
    forall x | x in t ensures x in s {
      var i :| 0 <= i < |t| && t[i] == x;
      assert t[i] == s[d + i];
    }
  }

  /** Derives one value per row (a new column, or a projection). */
  function Map<A, B>(s: seq<A>, f: A -> B): (r: seq<B>)
    ensures |r| == |s|
    ensures forall i :: 0 <= i < |s| ==> r[i] == f(s[i])
  {
    if s == [] then [] else [f(s[0])] + Map(s[1..], f)
  }

  /** Boolean-mask selection `df[mask]`: keeps the rows satisfying p, in order. */
  function Filter<T(!new)>(s: seq<T>, p: T -> bool): (r: seq<T>)
    ensures |r| <= |s|
    ensures forall x :: x in r <==> x in s && p(x)
  {
    if s == [] then [] else (if p(s[0]) then [s[0]] else []) + Filter(s[1..], p)
  }

  lemma MapMember<A, B>(s: seq<A>, f: A -> B, x: A)
    requires x in s
    ensures f(x) in Map(s, f)
  {
    var i :| 0 <= i < |s| && s[i] == x;
    assert Map(s, f)[i] == f(x);
  }

  /** A position at which a row occurs. */
  lemma IndexOf<T>(s: seq<T>, x: T) returns (k: nat)
    requires x in s
    ensures k < |s| && s[k] == x
  {
    k :| k < |s| && s[k] == x;
  }

  lemma MapWitness<A, B>(s: seq<A>, f: A -> B, y: B) returns (x: A)
    requires y in Map(s, f)
    ensures x in s && f(x) == y
  {
    var i :| 0 <= i < |s| && Map(s, f)[i] == y;
    x := s[i];
  }

  lemma FilterSingle<T(!new)>(x: T, p: T -> bool)
    ensures Filter([x], p) == if p(x) then [x] else []
  {
    assert [x][1..] == [];
  }

  /** Filtering a row and the rows after it. */
  lemma FilterHead<T(!new)>(x: T, u: seq<T>, p: T -> bool)
    ensures Filter([x] + u, p) == (if p(x) then [x] else []) + Filter(u, p)
  {
    assert ([x] + u)[0] == x && ([x] + u)[1..] == u;
  }

  lemma {:induction false} FilterConcat<T(!new)>(a: seq<T>, b: seq<T>, p: T -> bool)
    ensures Filter(a + b, p) == Filter(a, p) + Filter(b, p)
  {
    if a == [] {
      assert a + b == b;
    } else {
      var t := a[1..];
      var h := if p(a[0]) then [a[0]] else [];
      calc {
        Filter(a + b, p);
        { assert a + b == [a[0]] + (t + b); }
        Filter([a[0]] + (t + b), p);
        { FilterHead(a[0], t + b, p); }
        h + Filter(t + b, p);
        { FilterConcat(t, b, p); }
        h + (Filter(t, p) + Filter(b, p));
        (h + Filter(t, p)) + Filter(b, p);
        { assert a == [a[0]] + t; FilterHead(a[0], t, p); }
        Filter(a, p) + Filter(b, p);
      }
    }
  }

  /** A mask and its negation split a table: every row lands on exactly one
      side. */
  lemma {:induction false} FilterPartition<T(!new)>(s: seq<T>, p: T -> bool, q: T -> bool)
    requires forall x :: q(x) == !p(x)
    ensures multiset(Filter(s, p)) + multiset(Filter(s, q)) == multiset(s)
  {
    FilterCounts(s, p);
    FilterCounts(s, q);
    var a := multiset(Filter(s, p));
    var b := multiset(Filter(s, q));
    forall x ensures (a + b)[x] == multiset(s)[x] {
      if p(x) {
        assert x !in Filter(s, q);
      } else {
        assert x !in Filter(s, p);
      }
    }
  }

  /** Filtering keeps every copy of each row that passes. */
  lemma {:induction false} FilterCounts<T(!new)>(s: seq<T>, p: T -> bool)
    ensures forall x :: p(x) ==> multiset(Filter(s, p))[x] == multiset(s)[x]
  {
    if s != [] {
      FilterCounts(s[1..], p);
      assert s == [s[0]] + s[1..];
    }
  }

  /** Filtering by q after p, where q implies p, is filtering by q. */
  lemma {:induction false} FilterFilter<T(!new)>(s: seq<T>, p: T -> bool, q: T -> bool)
    requires forall x :: q(x) ==> p(x)
    ensures Filter(Filter(s, p), q) == Filter(s, q)
  {
    if s != [] {
      FilterFilter(s[1..], p, q);
      var t := Filter(s[1..], p);
      if p(s[0]) {
        assert ([s[0]] + t)[1..] == t;
      } else {
        assert Filter(s, p) == t;
      }
    }
  }

  /** No row passes: nothing is selected. */
  lemma FilterNone<T(!new)>(s: seq<T>, p: T -> bool)
    requires forall x :: x in s ==> !p(x)
    ensures Filter(s, p) == []
  {
  }

  /** The first n rows are some of the rows. */
  lemma TakeMultiset<T>(s: seq<T>, n: nat)
    ensures multiset(Take(s, n)) <= multiset(s)
  {
    var t := Take(s, n);
    assert s == t + s[|t|..];
  }

  /** Filtering rows that all pass p changes nothing. */
  lemma {:induction false} FilterAll<T(!new)>(s: seq<T>, p: T -> bool)
    requires forall x :: x in s ==> p(x)
    ensures Filter(s, p) == s
  {
    if s != [] {
      FilterAll(s[1..], p);
    }
  }

  /** `df.head(n)`: the first n rows (all of them when there are fewer). */
  function Take<T>(s: seq<T>, n: nat): (r: seq<T>)
    ensures |r| == Min(n, |s|)
    ensures forall i :: 0 <= i < |r| ==> r[i] == s[i]
  {
    if n <= |s| then s[..n] else s
  }

  /** `df.tail(n)`: the last n rows (all of them when there are fewer). */
  function Last<T>(s: seq<T>, n: nat): (r: seq<T>)
    ensures |r| == Min(n, |s|)
    ensures forall i :: 0 <= i < |r| ==> r[i] == s[|s| - |r| + i]
  {
    if n <= |s| then s[|s| - n..] else s
  }

  /** No two rows share a key. */
  ghost predicate UniqueBy<T, K>(s: seq<T>, key: T -> K)
  {
    forall i, j :: 0 <= i < j < |s| ==> key(s[i]) != key(s[j])
  }

  /** Some row of s carries key k. */
  predicate HasKey<T(==), K(==)>(s: seq<T>, key: T -> K, k: K)
  {
    exists x :: x in s && key(x) == k
  }

  /** The rows of `right` that match one left row `x`, paired with it, in order. */
  function Matches<L(!new), R(!new), K(==)>(x: L, right: seq<R>, lk: L -> K, rk: R -> K): (m: seq<(L, R)>)
    ensures forall p :: p in m <==> p.0 == x && p.1 in right && lk(x) == rk(p.1)
  {
    if right == [] then []
    else (if lk(x) == rk(right[0]) then [(x, right[0])] else []) + Matches(x, right[1..], lk, rk)
  }

  /** `pd.merge(left, right, how='inner')` on lk(left) == rk(right): every
      left row, in order, paired with each matching right row, in order.
      Unmatched rows on either side are dropped, never null-padded. */
  function Join<L(!new), R(!new), K(==)>(left: seq<L>, right: seq<R>, lk: L -> K, rk: R -> K): (j: seq<(L, R)>)
    ensures forall p :: p in j <==> p.0 in left && p.1 in right && lk(p.0) == rk(p.1)
  {
    if left == [] then [] else Matches(left[0], right, lk, rk) + Join(left[1..], right, lk, rk)
  }

  lemma {:induction false} JoinConcat<L(!new), R(!new), K>(a: seq<L>, b: seq<L>, right: seq<R>, lk: L -> K, rk: R -> K)
    ensures Join(a + b, right, lk, rk) == Join(a, right, lk, rk) + Join(b, right, lk, rk)
  {
    if a != [] {
      calc {
        Join(a + b, right, lk, rk);
        Matches(a[0], right, lk, rk) + Join((a + b)[1..], right, lk, rk);
        { assert (a + b)[1..] == a[1..] + b; JoinConcat(a[1..], b, right, lk, rk); }
        Matches(a[0], right, lk, rk) + (Join(a[1..], right, lk, rk) + Join(b, right, lk, rk));
      }
    } else {
      assert a + b == b;
    }
  }

  lemma {:induction false} MatchesConcat<L(!new), R(!new), K>(x: L, a: seq<R>, b: seq<R>, lk: L -> K, rk: R -> K)
    ensures Matches(x, a + b, lk, rk) == Matches(x, a, lk, rk) + Matches(x, b, lk, rk)
  {
    if a != [] {
      calc {
        Matches(x, a + b, lk, rk);
        (if lk(x) == rk(a[0]) then [(x, a[0])] else []) + Matches(x, (a + b)[1..], lk, rk);
        { assert (a + b)[1..] == a[1..] + b; MatchesConcat(x, a[1..], b, lk, rk); }
        (if lk(x) == rk(a[0]) then [(x, a[0])] else []) + (Matches(x, a[1..], lk, rk) + Matches(x, b, lk, rk));
      }
    } else {
      assert a + b == b;
    }
  }

  /** Against a right side with unique keys a left row matches at most once,
      and exactly once when its key occurs there. */
  lemma {:induction false} MatchesUnique<L(!new), R(!new), K>(x: L, right: seq<R>, lk: L -> K, rk: R -> K)
    requires UniqueBy(right, rk)
    ensures |Matches(x, right, lk, rk)| == if HasKey(right, rk, lk(x)) then 1 else 0
  {
    if right != [] {
      MatchesUnique(x, right[1..], lk, rk);
      if lk(x) == rk(right[0]) {
        forall y | y in right[1..] ensures rk(y) != lk(x) {
          var j :| 0 <= j < |right[1..]| && right[1..][j] == y;
          assert right[j + 1] == y;
        }
      } else {
        if HasKey(right, rk, lk(x)) {
          var y :| y in right && rk(y) == lk(x);
          assert y in right[1..];
        }
      }
    }
  }

  /** Against a right side with unique keys, the left halves of the join are
      exactly the left rows whose key occurs on the right, each once and in
      their original order; so the join has at most as many rows as `left`. */
  lemma {:induction false} JoinUniqueRight<L(!new), R(!new), K>(left: seq<L>, right: seq<R>, lk: L -> K, rk: R -> K)
    requires UniqueBy(right, rk)
    ensures Map(Join(left, right, lk, rk), Fst) == Filter(left, KeyIn(right, lk, rk))
    ensures |Join(left, right, lk, rk)| <= |left|
  {
    if left != [] {
      JoinUniqueRight(left[1..], right, lk, rk);
      MatchesUnique(left[0], right, lk, rk);
      var m := Matches(left[0], right, lk, rk);
      var rest := Join(left[1..], right, lk, rk);
      MapConcat(m, rest, Fst);
      if |m| == 1 {
        assert m[0] in m;
        assert Map(m, Fst) == [left[0]];
      } else {
        assert Map(m, Fst) == [];
      }
    }
  }

  function Fst<A, B>(p: (A, B)): A { p.0 }

  /** The mask "this left row's key occurs in `right`" (isin on the key). */
  function KeyIn<L, R(==), K(==)>(right: seq<R>, lk: L -> K, rk: R -> K): L -> bool
  {
    x => HasKey(right, rk, lk(x))
  }

  lemma {:induction false} MapConcat<A, B>(a: seq<A>, b: seq<A>, f: A -> B)
    ensures Map(a + b, f) == Map(a, f) + Map(b, f)
  {
    if a != [] {
      calc {
        Map(a + b, f);
        [f(a[0])] + Map((a + b)[1..], f);
        { assert (a + b)[1..] == a[1..] + b; MapConcat(a[1..], b, f); }
        [f(a[0])] + (Map(a[1..], f) + Map(b, f));
      }
    }
  }

  /** Two orderings of the same rows give the same column values, each as
      often. */
  lemma {:induction false} MapMultiset<A, B>(a: seq<A>, b: seq<A>, f: A -> B)
    requires multiset(a) == multiset(b)
    ensures multiset(Map(a, f)) == multiset(Map(b, f))
    decreases |a|
  {
    if a == [] {
      assert |b| == |multiset(b)| == 0;
    } else {
      var x := a[0];
      assert x in multiset(b);
      var k := IndexOf(b, x);
      var l, r := b[..k], b[k + 1..];
      assert b == l + ([x] + r);
      assert a == [x] + a[1..];
      RemoveOne(l, r, x, a[1..]);
      MapMultiset(a[1..], l + r, f);
      MapConcat(l, [x] + r, f);
      MapConcat([x], r, f);
      MapConcat(l, r, f);
      MapConcat([x], a[1..], f);
    }
  }

  /** Taking one copy of x out of both sides. */
  lemma RemoveOne<T>(l: seq<T>, r: seq<T>, x: T, c: seq<T>)
    requires multiset(l + ([x] + r)) == multiset([x] + c)
    ensures multiset(l + r) == multiset(c)
  {
    var m := multiset{x};
    assert multiset(l + ([x] + r)) == multiset(l) + m + multiset(r);
    assert multiset([x] + c) == m + multiset(c);
    forall y ensures multiset(l + r)[y] == multiset(c)[y] {
      assert (multiset(l) + m + multiset(r))[y] == (m + multiset(c))[y];
    }
  }

  /** The first n values of a column are the column of the first n rows. */
  lemma MapTake<A, B>(s: seq<A>, n: nat, f: A -> B)
    ensures Map(Take(s, n), f) == Take(Map(s, f), n)
  {
  }

  /** A row subset of a unique-keyed table is unique-keyed. */
  lemma {:induction false} FilterUnique<T(!new), K>(s: seq<T>, p: T -> bool, key: T -> K)
    requires UniqueBy(s, key)
    ensures UniqueBy(Filter(s, p), key)
  {
    if s != [] {
      FilterUnique(s[1..], p, key);
      var r := Filter(s[1..], p);
      forall x | x in r ensures key(x) != key(s[0]) {
        var j :| 0 <= j < |s[1..]| && s[1..][j] == x;
        assert s[j + 1] == x;
      }
    }
  }

  /** Joining two unique-keyed tables gives at most one row per key (the
      left halves keep unique keys), and only for keys present on both sides,
      so it has at most min(|left|, |right|) rows. */
  lemma JoinUniqueBoth<L(!new), R(!new), K>(left: seq<L>, right: seq<R>, lk: L -> K, rk: R -> K)
    requires UniqueBy(left, lk) && UniqueBy(right, rk)
    ensures UniqueBy(Map(Join(left, right, lk, rk), Fst), lk)
    ensures |Join(left, right, lk, rk)| <= Min(|left|, |right|)
  {
    var j := Join(left, right, lk, rk);
    JoinUniqueRight(left, right, lk, rk);
    FilterUnique(left, KeyIn(right, lk, rk), lk);
    var f := Map(j, Fst);
    var ks := set i | 0 <= i < |f| :: lk(f[i]);
    var rks := set i | 0 <= i < |right| :: rk(right[i]);
    assert ks <= rks by {
      forall i | 0 <= i < |f| ensures lk(f[i]) in rks {
        assert j[i] in j;
        var r := j[i].1;
        var t :| 0 <= t < |right| && right[t] == r;
      }
    }
    CardinalityOfKeys(f, lk);
    CardinalityOfKeys(right, rk);
    SubsetCardinality(ks, rks);
  }

  lemma SubsetCardinality<T>(a: set<T>, b: set<T>)
    requires a <= b
    ensures |a| <= |b|
  {
    assert b == a + (b - a);
  }

  /** A unique-keyed table has as many distinct keys as rows. */
  lemma {:induction false} CardinalityOfKeys<T(!new), K>(s: seq<T>, key: T -> K)
    requires UniqueBy(s, key)
    ensures |set i | 0 <= i < |s| :: key(s[i])| == |s|
  {
    if s != [] {
      var s' := s[1..];
      CardinalityOfKeys(s', key);
      var ks := set i | 0 <= i < |s| :: key(s[i]);
      var ks' := set i | 0 <= i < |s'| :: key(s'[i]);
      assert ks == ks' + {key(s[0])} by {
        forall k | k in ks ensures k in ks' + {key(s[0])} {
          var i :| 0 <= i < |s| && key(s[i]) == k;
          if i > 0 { assert key(s'[i - 1]) == k; }
        }
        forall k | k in ks' ensures k in ks {
          var i :| 0 <= i < |s'| && key(s'[i]) == k;
          assert key(s[i + 1]) == k;
        }
      }
      assert key(s[0]) !in ks' by {
        forall i | 0 <= i < |s'| ensures key(s'[i]) != key(s[0]) {
          assert s'[i] == s[i + 1];
        }
      }
    }
  }

  /** No row occurs twice. */
  ghost predicate Distinct<T>(s: seq<T>)
  {
    forall i, j :: 0 <= i < j < |s| ==> s[i] != s[j]
  }

  /** `df.drop_duplicates()`: keeps the first occurrence of every row, in order. */
  function Dedup<T(==,!new)>(s: seq<T>): (r: seq<T>)
    ensures Distinct(r)
    ensures forall x :: x in r <==> x in s
    ensures |r| <= |s|
  {
    if s == [] then []
    else
      var d := Dedup(s[..|s| - 1]);
      var x := s[|s| - 1];
      assert forall y :: y in s <==> y in s[..|s| - 1] || y == x by {
        assert s == s[..|s| - 1] + [x];
      }
      if x in d then d else d + [x]
  }

  /** The position of the first occurrence of x. */
  function FirstIndex<T(==)>(s: seq<T>, x: T): (k: nat)
    requires x in s
    ensures k < |s| && s[k] == x && x !in s[..k]
  {
    if s[0] == x then 0 else 1 + FirstIndex(s[1..], x)
  }

  /** Appending rows does not move a first occurrence. */
  lemma {:induction false} FirstIndexPrefix<T>(p: seq<T>, q: seq<T>, x: T)
    requires x in p
    ensures FirstIndex(p + q, x) == FirstIndex(p, x)
  {
    if p[0] != x {
      assert (p + q)[1..] == p[1..] + q;
      FirstIndexPrefix(p[1..], q, x);
    }
  }

  /** `drop_duplicates()` keeps the first occurrence of each row, so the
      rows it keeps stand in the order of their first occurrences. */
  lemma {:induction false} DedupOrder<T(!new)>(s: seq<T>)
    ensures var r := Dedup(s);
      forall i, j :: 0 <= i < j < |r| ==> FirstIndex(s, r[i]) < FirstIndex(s, r[j])
  {
    if s != [] {
      var p := s[..|s| - 1];
      var x := s[|s| - 1];
      var d := Dedup(p);
      DedupOrder(p);
      forall i, j | 0 <= i < j < |d| ensures FirstIndex(p, d[i]) < FirstIndex(p, d[j]) {
        assert Dedup(p)[i] == d[i];
      }
      assert s == p + [x];
      OrderKept(p, x, d);
      if x !in d {
        assert x !in p;
        assert FirstIndex(s, x) == |p| by {
          assert s[..|p|] == p;
        }
        OrderExtended(s, p, x, d);
      }
    }
  }

  /** Rows of p ordered by first occurrence in p are ordered by first
      occurrence in p + [x]. */
  lemma OrderKept<T>(p: seq<T>, x: T, d: seq<T>)
    requires forall y :: y in d ==> y in p
    requires forall i, j :: 0 <= i < j < |d| ==> FirstIndex(p, d[i]) < FirstIndex(p, d[j])
    ensures forall i :: 0 <= i < |d| ==> FirstIndex(p + [x], d[i]) == FirstIndex(p, d[i]) < |p|
    ensures forall i, j :: 0 <= i < j < |d| ==> FirstIndex(p + [x], d[i]) < FirstIndex(p + [x], d[j])
  {
    forall i | 0 <= i < |d| ensures FirstIndex(p + [x], d[i]) == FirstIndex(p, d[i]) < |p| {
      assert d[i] in d;
      FirstIndexPrefix(p, [x], d[i]);
    }
  }

  /** A row first seen after every row of d extends the order. */
  lemma OrderExtended<T>(s: seq<T>, p: seq<T>, x: T, d: seq<T>)
    requires x in s && FirstIndex(s, x) == |p|
    requires forall y :: y in d ==> y in s
    requires forall i :: 0 <= i < |d| ==> FirstIndex(s, d[i]) < |p|
    requires forall i, j :: 0 <= i < j < |d| ==> FirstIndex(s, d[i]) < FirstIndex(s, d[j])
    ensures var r := d + [x];
      forall i, j :: 0 <= i < j < |r| ==> FirstIndex(s, r[i]) < FirstIndex(s, r[j])
  {
    var r := d + [x];
    forall i, j | 0 <= i < j < |r| ensures FirstIndex(s, r[i]) < FirstIndex(s, r[j]) {
      assert r[i] == d[i];
      if j < |d| {
        assert r[j] == d[j];
      } else {
        assert r[j] == x;
      }
    }
  }

  /** Two masks that agree on every row select the same rows. */
  lemma {:induction false} FilterSame<T(!new)>(s: seq<T>, p: T -> bool, q: T -> bool)
    requires forall x :: p(x) == q(x)
    ensures Filter(s, p) == Filter(s, q)
  {
    if s != [] {
      FilterSame(s[1..], p, q);
    }
  }

  /** Filtering a prefix gives a prefix of the filtered whole. */
  lemma {:induction false} FilterPrefix<T(!new)>(a: seq<T>, b: seq<T>, p: T -> bool)
    requires a <= b
    ensures Filter(a, p) <= Filter(b, p)
  {
    FilterConcat(a, b[|a|..], p);
    assert b == a + b[|a|..];
  }

  /** A duplicate-free table holds each row at most once. */
  lemma {:induction false} DistinctMultiset<T>(s: seq<T>, x: T)
    requires Distinct(s)
    ensures multiset(s)[x] <= 1
  {
    if s != [] {
      assert Distinct(s[1..]);
      DistinctMultiset(s[1..], x);
      assert s == [s[0]] + s[1..];
      assert s[0] !in s[1..];
    }
  }

  /** Reordering some of the rows of a duplicate-free table keeps them
      duplicate-free. */
  lemma DistinctSubMultiset<T>(a: seq<T>, b: seq<T>)
    requires Distinct(a) && multiset(b) <= multiset(a)
    ensures Distinct(b)
  {
    forall i, j | 0 <= i < j < |b| ensures b[i] != b[j] {
      var x := b[i];
      DistinctMultiset(a, x);
      assert b == b[..j] + b[j..];
      assert x in b[..j];
      assert b[j] in b[j..];
      assert multiset(b)[x] == multiset(b[..j])[x] + multiset(b[j..])[x];
    }
  }

  /** Reordering some of the rows of a unique-keyed table keeps its keys
      unique. */
  lemma UniqueBySubMultiset<T, K>(a: seq<T>, b: seq<T>, key: T -> K)
    requires UniqueBy(a, key) && multiset(b) <= multiset(a)
    ensures UniqueBy(b, key)
  {
    assert Distinct(a);
    DistinctSubMultiset(a, b);
    forall i, j | 0 <= i < j < |b| ensures key(b[i]) != key(b[j]) {
      assert b[i] in multiset(a) && b[j] in multiset(a);
      var p :| 0 <= p < |a| && a[p] == b[i];
      var q :| 0 <= q < |a| && a[q] == b[j];
    }
  }

  /** Filtering and mapping one more row of a table appends at most one row. */
  lemma MapFilterSnoc<A(!new), B>(s: seq<A>, i: nat, p: A -> bool, f: A -> B)
    requires i < |s|
    ensures Map(Filter(s[..i + 1], p), f) == Map(Filter(s[..i], p), f) + (if p(s[i]) then [f(s[i])] else [])
  {
    var x := s[i];
    assert s[..i + 1] == s[..i] + [x];
    FilterConcat(s[..i], [x], p);
    FilterSingle(x, p);
    var fs := Filter(s[..i], p);
    MapConcat(fs, Filter([x], p), f);
    if p(x) {
      assert Map([x], f) == [f(x)];
    } else {
      assert Map(fs + [], f) == Map(fs, f) + Map([], f);
      assert fs + [] == fs;
    }
  }


  /** Two columns of equal length side by side, row by row. */
  function Zip<A, B>(a: seq<A>, b: seq<B>): (r: seq<(A, B)>)
    requires |a| == |b|
    ensures |r| == |a|
    ensures forall i :: 0 <= i < |a| ==> r[i] == (a[i], b[i])
  {
    if a == [] then [] else [(a[0], b[0])] + Zip(a[1..], b[1..])
  }

  /** Joining two unique-keyed tables: no two joined rows share a key. */
  lemma JoinKeysUnique<L(!new), R(!new), K>(left: seq<L>, right: seq<R>, lk: L -> K, rk: R -> K)
    requires UniqueBy(left, lk) && UniqueBy(right, rk)
    ensures var j := Join(left, right, lk, rk);
      forall a, b :: 0 <= a < b < |j| ==> lk(j[a].0) != lk(j[b].0)
  {
    var j := Join(left, right, lk, rk);
    JoinUniqueBoth(left, right, lk, rk);
    var f := Map(j, Fst);
    forall a, b | 0 <= a < b < |j| ensures lk(j[a].0) != lk(j[b].0) {
      assert f[a] == j[a].0 && f[b] == j[b].0;
    }
  }

  /** Filtering by two tests that agree on every row of the table. */
  lemma {:induction false} FilterSameOn<T(!new)>(s: seq<T>, p: T -> bool, q: T -> bool)
    requires forall x :: x in s ==> p(x) == q(x)
    ensures Filter(s, p) == Filter(s, q)
  {
    if s != [] {
      assert s[0] in s;
      assert forall x :: x in s[1..] ==> x in s;
      FilterSameOn(s[1..], p, q);
    }
  }

  /** The first m rows of the first n rows, for m <= n, are the first m rows. */
  lemma TakeTake<T>(s: seq<T>, m: nat, n: nat)
    requires m <= n
    ensures Take(Take(s, n), m) == Take(s, m)
  {
  }

  // Re-bracketing a three-way merge.

  function Reassoc<A, B, C>(t: ((A, B), C)): (A, (B, C)) { (t.0.0, (t.0.1, t.1)) }

  /** The key of a merged row read from its left part. */
  function OnFst<A, B, K>(k: A -> K): ((A, B)) -> K { (p: (A, B)) => k(p.0) }

  /** The key of a merged row read from its right part. */
  function OnSnd<A, B, K>(k: B -> K): ((A, B)) -> K { (p: (A, B)) => k(p.1) }

  function PairWith<A, B>(x: A): B -> (A, B) { (y: B) => (x, y) }

  lemma {:induction false} MatchesReassoc<A(!new), B(!new), C(!new), K>(x: A, y: B, c: seq<C>, kb: B -> K, kc: C -> K)
    ensures Map(Matches((x, y), c, OnSnd(kb), kc), Reassoc) == Map(Matches(y, c, kb, kc), PairWith(x))
  {
    if c != [] {
      MatchesReassoc(x, y, c[1..], kb, kc);
      var h := if kb(y) == kc(c[0]) then [((x, y), c[0])] else [];
      var h' := if kb(y) == kc(c[0]) then [(y, c[0])] else [];
      MapConcat(h, Matches((x, y), c[1..], OnSnd(kb), kc), Reassoc);
      MapConcat(h', Matches(y, c[1..], kb, kc), PairWith(x));
    }
  }

  lemma {:induction false} MatchesOfMatches<A(!new), B(!new), C(!new), K1, K2>(
    x: A, y: B, c: seq<C>, ka: A -> K1, kb: B -> K1, kb2: B -> K2, kc: C -> K2)
    ensures Matches(x, Matches(y, c, kb2, kc), ka, OnFst(kb))
         == if ka(x) == kb(y) then Map(Matches(y, c, kb2, kc), PairWith(x)) else []
  {
    if c != [] {
      MatchesOfMatches(x, y, c[1..], ka, kb, kb2, kc);
      var h := if kb2(y) == kc(c[0]) then [(y, c[0])] else [];
      MatchesConcat(x, h, Matches(y, c[1..], kb2, kc), ka, OnFst(kb));
      MapConcat(h, Matches(y, c[1..], kb2, kc), PairWith(x));
    }
  }

  lemma {:induction false} MatchesJoinReassoc<A(!new), B(!new), C(!new), K1, K2>(
    x: A, b: seq<B>, c: seq<C>, ka: A -> K1, kb: B -> K1, kb2: B -> K2, kc: C -> K2)
    ensures Map(Join(Matches(x, b, ka, kb), c, OnSnd(kb2), kc), Reassoc)
         == Matches(x, Join(b, c, kb2, kc), ka, OnFst(kb))
  {
    if b != [] {
      MatchesJoinReassoc(x, b[1..], c, ka, kb, kb2, kc);
      var h := if ka(x) == kb(b[0]) then [(x, b[0])] else [];
      var rest := Matches(x, b[1..], ka, kb);
      assert Matches(x, b, ka, kb) == h + rest;
      JoinConcat(h, rest, c, OnSnd(kb2), kc);
      MapConcat(Join(h, c, OnSnd(kb2), kc), Join(rest, c, OnSnd(kb2), kc), Reassoc);
      HeadReassoc(x, b[0], c, ka, kb, kb2, kc);
      assert Join(b, c, kb2, kc) == Matches(b[0], c, kb2, kc) + Join(b[1..], c, kb2, kc);
      MatchesConcat(x, Matches(b[0], c, kb2, kc), Join(b[1..], c, kb2, kc), ka, OnFst(kb));
    }
  }

  lemma HeadReassoc<A(!new), B(!new), C(!new), K1, K2>(
    x: A, y: B, c: seq<C>, ka: A -> K1, kb: B -> K1, kb2: B -> K2, kc: C -> K2)
    ensures Map(Join(if ka(x) == kb(y) then [(x, y)] else [], c, OnSnd(kb2), kc), Reassoc)
         == Matches(x, Matches(y, c, kb2, kc), ka, OnFst(kb))
  {
    MatchesOfMatches(x, y, c, ka, kb, kb2, kc);
    if ka(x) == kb(y) {
      assert [(x, y)][1..] == [];
      assert Join([(x, y)], c, OnSnd(kb2), kc) == Matches((x, y), c, OnSnd(kb2), kc) + [];
      assert Matches((x, y), c, OnSnd(kb2), kc) + [] == Matches((x, y), c, OnSnd(kb2), kc);
      MatchesReassoc(x, y, c, kb2, kc);
    }
  }

  /** Merging three tables gives the same rows whichever two are merged
      first: `(a ⋈ b) ⋈ c` is `a ⋈ (b ⋈ c)`, row for row, in the same order. */
  lemma {:induction false} JoinAssoc<A(!new), B(!new), C(!new), K1, K2>(
    a: seq<A>, b: seq<B>, c: seq<C>, ka: A -> K1, kb: B -> K1, kb2: B -> K2, kc: C -> K2)
    ensures Map(Join(Join(a, b, ka, kb), c, OnSnd(kb2), kc), Reassoc)
         == Join(a, Join(b, c, kb2, kc), ka, OnFst(kb))
  {
    if a != [] {
      JoinAssoc(a[1..], b, c, ka, kb, kb2, kc);
      var m := Matches(a[0], b, ka, kb);
      var rest := Join(a[1..], b, ka, kb);
      JoinConcat(m, rest, c, OnSnd(kb2), kc);
      MapConcat(Join(m, c, OnSnd(kb2), kc), Join(rest, c, OnSnd(kb2), kc), Reassoc);
      MatchesJoinReassoc(a[0], b, c, ka, kb, kb2, kc);
    }
  }
}
