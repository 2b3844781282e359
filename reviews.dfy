/** The Customer Reviews page: the distribution of review scores, a map of
    the 30 cities with the lowest average score, and a chart of the 10 such
    cities, both ranking only cities with at least five reviews. */
module Reviews {
  import opened Tables
  import opened Keys
  import opened Ranking
  import opened Aggregates
  import opened Schema
  import opened CustomerDistribution
  import opened Delivery

  /** The fewest reviews a city needs to be ranked (lines 398 and 462). */
  const MinReviews: nat := 5

  function ReviewScore(r: Review): int { r.score }

  function NegKey(t: Tally<int>): real { -(t.key as real) }

  /** `value_counts().sort_index()` of the scores (line 368): one bar per
      score that occurs, lowest score first, each with the number of reviews
      giving that score. */
  function ScoreDistribution(reviews: seq<Review>): (r: seq<Tally<int>>)
    ensures forall i, j :: 0 <= i < j < |r| ==> r[i].key < r[j].key
    ensures forall t :: t in r ==> t.n == multiset(Map(reviews, ReviewScore))[t.key] && t.n > 0
    ensures forall k :: k in Map(reviews, ReviewScore) <==> Tally(k, multiset(Map(reviews, ReviewScore))[k]) in r
  {
    AscendingCounts(Map(reviews, ReviewScore));
    SortDesc(ValueCounts(Map(reviews, ReviewScore)), NegKey)
  }

  lemma AscendingCounts(ks: seq<int>)
    ensures var r := SortDesc(ValueCounts(ks), NegKey);
      && (forall i, j :: 0 <= i < j < |r| ==> r[i].key < r[j].key)
      && (forall t :: t in r ==> t.n == multiset(ks)[t.key] && t.n > 0)
      && (forall k :: k in ks <==> Tally(k, multiset(ks)[k]) in r)
  {
    var counts := ValueCounts(ks);
    ValueCountsUnique(ks);
    SortDescMembers(counts, NegKey);
    ScoresAscending(counts);
  }

  /** Sorting the tallies by descending negated score puts the scores in
      strictly ascending order, since each occurs once. */
  lemma ScoresAscending(counts: seq<Tally<int>>)
    requires UniqueBy(counts, TallyKey)
    ensures var r := SortDesc(counts, NegKey);
      forall i, j :: 0 <= i < j < |r| ==> r[i].key < r[j].key
  {
    var r := SortDesc(counts, NegKey);
    UniqueBySubMultiset(counts, r, TallyKey);
    forall i, j | 0 <= i < j < |r| ensures r[i].key < r[j].key {
      assert NegKey(r[i]) >= NegKey(r[j]);
      assert TallyKey(r[i]) != TallyKey(r[j]);
    }
  }

  /** Lines 391-392: the reviews merged with the orders on the order id, and
      the result merged with the customers on the customer id; a review
      survives only with an order and that order's customer. */
  function ReviewsWithCity(reviews: seq<Review>, orders: seq<Order>, customers: seq<Customer>)
    : (j: seq<((Review, Order), Customer)>)
    ensures forall t :: t in j <==>
      && t.0.0 in reviews && t.0.1 in orders && t.1 in customers
      && t.0.0.orderId == t.0.1.orderId && t.0.1.customerId == t.1.customerId
  {
    Join(Join(reviews, orders, ReviewOrder, OrderKey), customers, OnSnd(OrderCustomer), CustomerKey)
  }

  /** A merged review as (customer city, score). */
  function RatingObs(t: ((Review, Order), Customer)): Obs { Obs(t.1.city, Some(t.0.0.score as real)) }

  /** Lines 395-398: the cities with at least MinReviews reviews. */
  function WellReviewed(obs: seq<Obs>): (S: set<string>)
    ensures forall k :: k in S <==> k in Labels(obs) && Size(obs, k) >= MinReviews
  {
    var g := GroupBy(obs);
    var S := set x | x in g && x.size >= MinReviews :: x.key;
    forall k ensures k in S <==> k in Labels(obs) && Size(obs, k) >= MinReviews {
      if k in S {
        var x :| x in g && x.size >= MinReviews && x.key == k;
        var i :| 0 <= i < |g| && g[i] == x;
        assert GroupKeys(g)[i] == k;
      }
      if k in Labels(obs) {
        assert k in GroupKeys(g);
        var i :| 0 <= i < |g| && GroupKeys(g)[i] == k;
        assert g[i] in g;
      }
    }
    S
  }

  /** Line 401: the reviews of those cities only. */
  function FromWellReviewed(obs: seq<Obs>): seq<Obs>
  {
    Filter(obs, LabelIn(WellReviewed(obs)))
  }

  /** Line 404: the average score of each of those cities. */
  function CityAvgRatings(obs: seq<Obs>): seq<Group>
  {
    GroupBy(FromWellReviewed(obs))
  }

  /** Filtering the reviews first leaves exactly the groups of the cities
      with enough reviews. */
  lemma CityAvgRatingsFilter(obs: seq<Obs>)
    ensures CityAvgRatings(obs) == Filter(GroupBy(obs), GroupIn(WellReviewed(obs)))
  {
    GroupByFilter(obs, WellReviewed(obs));
  }

  /** Each of those groups has the statistics of all of its city's
      reviews. */
  lemma CityAvgRatingsFacts(obs: seq<Obs>)
    ensures forall g :: g in CityAvgRatings(obs) ==> g == Stat(obs, g.key) && g.size >= MinReviews
  {
    CityAvgRatingsFilter(obs);
  }

  /** Lines 407-410: the 30 cities with the lowest average, lowest first. */
  function Bottom30(obs: seq<Obs>): seq<Group>
  {
    NSmallest(CityAvgRatings(obs), 30, GroupMean)
  }

  /** A city with reviews has an average, since every review has a score. */
  lemma AverageDefined(obs: seq<Obs>, g: Group)
    requires forall o :: o in obs ==> o.value.Some?
    requires g == Stat(obs, g.key) && g.size > 0
    ensures g.mean.Some?
  {
    CountIsSize(obs, g.key);
  }

  /** Every ranked city's average is defined. */
  lemma AveragesDefined(obs: seq<Obs>)
    requires forall o :: o in obs ==> o.value.Some?
    ensures forall g :: g in CityAvgRatings(obs) ==> g.mean.Some?
    ensures Filter(CityAvgRatings(obs), IsDefined(GroupMean)) == CityAvgRatings(obs)
  {
    var c := CityAvgRatings(obs);
    CityAvgRatingsFacts(obs);
    forall g | g in c ensures IsDefined(GroupMean)(g) {
      assert g == Stat(obs, g.key) && g.size > 0;
      AverageDefined(obs, g);
      assert GroupMean(g).Some?;
    }
    FilterAll(c, IsDefined(GroupMean));
  }

  /** The bottom 30: as many cities as there are with enough reviews, up
      to 30, and only such cities, each with the average of all its
      reviews. */
  lemma Bottom30Facts(obs: seq<Obs>)
    requires forall o :: o in obs ==> o.value.Some?
    ensures |Bottom30(obs)| == Min(30, |CityAvgRatings(obs)|)
    ensures forall g :: g in Bottom30(obs) ==> g == Stat(obs, g.key) && Size(obs, g.key) >= MinReviews
  {
    AveragesDefined(obs);
    CityAvgRatingsFacts(obs);
  }

  /** A city with enough reviews is either in the bottom 30 or has an
      average no lower than any city shown. */
  lemma Bottom30Excluded(obs: seq<Obs>, k: string)
    requires forall o :: o in obs ==> o.value.Some?
    requires k in WellReviewed(obs) && k !in GroupKeys(Bottom30(obs))
    ensures Mean(Values(obs, k)).Some?
    ensures forall g :: g in Bottom30(obs) ==> g.mean.Some? && g.mean.value <= Mean(Values(obs, k)).value
  {
    var c := CityAvgRatings(obs);
    var b := Bottom30(obs);
    var h := CityGroup(obs, k);
    AverageDefined(obs, h);
    assert h !in b by {
      KeysOf(b);
    }
    forall g | g in b ensures g.mean.Some? && g.mean.value <= Mean(Values(obs, k)).value {
      NSmallestExcluded(c, 30, GroupMean, g, h);
    }
  }

  lemma KeysOf(b: seq<Group>)
    ensures forall g :: g in b ==> g.key in GroupKeys(b)
  {
    forall g | g in b ensures g.key in GroupKeys(b) {
      var i :| 0 <= i < |b| && b[i] == g;
      assert GroupKeys(b)[i] == g.key;
    }
  }

  /** The group of a city with enough reviews is among the ranked ones. */
  lemma CityGroup(obs: seq<Obs>, k: string) returns (h: Group)
    requires k in WellReviewed(obs)
    ensures h in CityAvgRatings(obs) && h == Stat(obs, k) && h.size > 0
  {
    var c := CityAvgRatings(obs);
    LabelsFiltered(obs, WellReviewed(obs));
    assert k in GroupKeys(c);
    var i :| 0 <= i < |c| && GroupKeys(c)[i] == k;
    assert c[i] in c;
    CityAvgRatingsFacts(obs);
    h := c[i];
  }

  /** Line 413: the bottom 30 merged with the city centroids. */
  function RatingMap(obs: seq<Obs>, geo: seq<GeoPoint>): seq<(Group, Centroid)>
  {
    Join(Bottom30(obs), Centroids(geo), GroupKey, CentroidCity)
  }

  function PairScore(p: (Group, Centroid)): real { ValueOr(p.0.mean) }

  /** The map: the cities of the bottom 30 that have geolocation rows, in
      the same order, so at most 30 and possibly fewer; each with enough
      reviews, the average of all of them, and its centroid. */
  lemma RatingMapFacts(obs: seq<Obs>, geo: seq<GeoPoint>)
    ensures var m := RatingMap(obs, geo);
      && |m| <= 30
      && Map(m, Fst) == Filter(Bottom30(obs), KeyIn(Centroids(geo), GroupKey, CentroidCity))
      && forall p :: p in m ==>
           && p.0 == Stat(obs, p.0.key) && Size(obs, p.0.key) >= MinReviews
           && p.1 in Centroids(geo) && p.1.city == p.0.key && p.0.key in Map(geo, GeoCity)
  {
    var b := Bottom30(obs);
    var cents := Centroids(geo);
    SortedKeysUnique(cents, CentroidCity);
    JoinUniqueRight(b, cents, GroupKey, CentroidCity);
    CityAvgRatingsFacts(obs);
    forall p | p in RatingMap(obs, geo) ensures p.0.key in Map(geo, GeoCity) {
      MapMember(cents, CentroidCity, p.1);
    }
  }

  /** Lines 450-456: the reviews merged with the merge of orders and
      customers. */
  function ReviewsWithCityNested(reviews: seq<Review>, orders: seq<Order>, customers: seq<Customer>)
    : seq<(Review, (Order, Customer))>
  {
    Join(reviews, OrdersWithCity(orders, customers), ReviewOrder, OnFst(OrderKey))
  }

  function NestedRatingObs(t: (Review, (Order, Customer))): Obs { Obs(t.1.1.city, Some(t.0.score as real)) }

  /** The two merges of the page give the same (city, score) rows in the
      same order. */
  lemma RatingJoinsAgree(reviews: seq<Review>, orders: seq<Order>, customers: seq<Customer>)
    ensures Map(ReviewsWithCityNested(reviews, orders, customers), NestedRatingObs)
         == Map(ReviewsWithCity(reviews, orders, customers), RatingObs)
  {
    JoinAssoc(reviews, orders, customers, ReviewOrder, OrderKey, OrderCustomer, CustomerKey);
    var a := ReviewsWithCity(reviews, orders, customers);
    var m := Map(a, Reassoc);
    forall i | 0 <= i < |a| ensures NestedRatingObs(m[i]) == RatingObs(a[i]) {
      assert m[i] == Reassoc(a[i]);
    }
  }

  function CountAtLeast(n: nat): Group -> bool { (g: Group) => g.count >= n }

  /** Lines 458-462: the mean and count of the scores per city, keeping the
      cities with at least MinReviews scores. */
  function CityReviews(obs: seq<Obs>): seq<Group>
  {
    Filter(GroupBy(obs), CountAtLeast(MinReviews))
  }

  /** Line 464: the 10 cities with the lowest average, lowest first. */
  function Worst10(obs: seq<Obs>): seq<Group>
  {
    NSmallest(CityReviews(obs), 10, GroupMean)
  }

  /** The chart: 10 cities (all of them when fewer have enough scores),
      each with at least MinReviews scores and the statistics of all of its
      reviews. */
  lemma Worst10Facts(obs: seq<Obs>)
    ensures var w := Worst10(obs);
      && |w| == Min(10, |CityReviews(obs)|)
      && forall g :: g in w ==> g.count >= MinReviews && g == Stat(obs, g.key)
  {
  }

  /** Filtering on the count after grouping keeps the same cities as
      filtering the reviews before grouping, since no score is missing. */
  lemma CityReviewsAgree(obs: seq<Obs>)
    requires forall o :: o in obs ==> o.value.Some?
    ensures CityReviews(obs) == CityAvgRatings(obs)
  {
    var S := WellReviewed(obs);
    var g := GroupBy(obs);
    CityAvgRatingsFilter(obs);
    forall x | x in g ensures CountAtLeast(MinReviews)(x) == GroupIn(S)(x) {
      CountIsSize(obs, x.key);
      var i :| 0 <= i < |g| && g[i] == x;
      assert GroupKeys(g)[i] == x.key;
    }
    FilterSameOn(g, CountAtLeast(MinReviews), GroupIn(S));
  }

  /** The chart's 10 cities are the first 10 of the map's 30, before the
      coordinate merge drops any, when equal averages keep row order at
      line 407 (AnyTieOrder below drops that choice). */
  lemma Worst10OfBottom30(reviews: seq<Review>, orders: seq<Order>, customers: seq<Customer>)
    ensures Worst10(Map(ReviewsWithCityNested(reviews, orders, customers), NestedRatingObs))
         == Take(Bottom30(Map(ReviewsWithCity(reviews, orders, customers), RatingObs)), 10)
  {
    RatingJoinsAgree(reviews, orders, customers);
    var obs := Map(ReviewsWithCity(reviews, orders, customers), RatingObs);
    forall o | o in obs ensures o.value.Some? {
      var i :| 0 <= i < |obs| && obs[i] == o;
    }
    CityReviewsAgree(obs);
    NSmallestPrefix(CityAvgRatings(obs), 10, 30, GroupMean);
  }

  /** Line 407 sorts with an unstable sort, which may leave cities with
      equal averages in any order: whatever sorted order it picks, the map's
      30 and the chart's 10 list, lowest first, the same averages as the
      first 30 and the first 10 rows of that order. */
  lemma AnyTieOrder(reviews: seq<Review>, orders: seq<Order>, customers: seq<Customer>, sorted: seq<Group>)
    requires multiset(sorted) == multiset(CityAvgRatings(Map(ReviewsWithCity(reviews, orders, customers), RatingObs)))
    requires SortedAsc(sorted, Score(GroupMean))
    ensures Map(Bottom30(Map(ReviewsWithCity(reviews, orders, customers), RatingObs)), Score(GroupMean))
         == Map(Take(sorted, 30), Score(GroupMean))
    ensures Map(Worst10(Map(ReviewsWithCityNested(reviews, orders, customers), NestedRatingObs)), Score(GroupMean))
         == Map(Take(sorted, 10), Score(GroupMean))
  {
    RatingJoinsAgree(reviews, orders, customers);
    var obs := Map(ReviewsWithCity(reviews, orders, customers), RatingObs);
    forall o | o in obs ensures o.value.Some? {
      var i := IndexOf(obs, o);
    }
    var c := CityAvgRatings(obs);
    AveragesDefined(obs);
    CityReviewsAgree(obs);
    NSmallestAnyOrder(c, 30, GroupMean, sorted);
    NSmallestAnyOrder(c, 10, GroupMean, sorted);
  }

  /** The page in order: the score distribution, the map with its colour
      bounds, and the chart. */
  method ReviewsPage(reviews: seq<Review>, orders: seq<Order>, customers: seq<Customer>, geo: seq<GeoPoint>)
    returns (dist: seq<Tally<int>>, shown: seq<(Group, Centroid)>, bounds: Option<(real, real)>, worst: seq<Group>)
    ensures dist == ScoreDistribution(reviews)
    ensures shown == RatingMap(Map(ReviewsWithCity(reviews, orders, customers), RatingObs), geo)
    ensures bounds == ColourBounds(Map(shown, PairScore))
    ensures worst == Worst10(Map(ReviewsWithCityNested(reviews, orders, customers), NestedRatingObs))
    ensures worst == Take(Bottom30(Map(ReviewsWithCity(reviews, orders, customers), RatingObs)), 10)
  {
    dist := ScoreDistribution(reviews);
    var obs := Map(ReviewsWithCity(reviews, orders, customers), RatingObs);
    shown := RatingMap(obs, geo);
    bounds := ColourBounds(Map(shown, PairScore));
    worst := Worst10(Map(ReviewsWithCityNested(reviews, orders, customers), NestedRatingObs));
    Worst10OfBottom30(reviews, orders, customers);
  }
}
