/** The Customer Distribution page: orders per customer city, the 15 cities
    with the most and with the fewest orders, and where their markers go. */
module CustomerDistribution {
  import opened Tables
  import opened Keys
  import opened Schema
  import opened Aggregates
  import Ranking

  /** `pd.merge(orders, customers[['customer_id', 'customer_city']], on='customer_id')`:
      every (order, customer) pair that shares a customer id, and no other. */
  function OrdersWithCity(orders: seq<Order>, customers: seq<Customer>): (j: seq<(Order, Customer)>)
    ensures forall p :: p in j <==> p.0 in orders && p.1 in customers && p.0.customerId == p.1.customerId
  {
    Join(orders, customers, OrderCustomer, CustomerKey)
  }

  /** With customer ids unique, the merge keeps exactly the orders whose
      customer is known, once each and in order: an order without a
      customer row drops out. */
  lemma OrdersWithCityKept(orders: seq<Order>, customers: seq<Customer>)
    requires UniqueBy(customers, CustomerKey)
    ensures Map(OrdersWithCity(orders, customers), Fst) == Filter(orders, KeyIn(customers, OrderCustomer, CustomerKey))
    ensures |OrdersWithCity(orders, customers)| <= |orders|
  {
    JoinUniqueRight(orders, customers, OrderCustomer, CustomerKey);
  }

  /** One row of `city_order_counts`. */
  datatype CityCount = CityCount(city: string, orderCount: nat)

  function CountCity(c: CityCount): string { c.city }

  function CountValue(c: CityCount): real { c.orderCount as real }

  function JoinedCity(p: (Order, Customer)): string { p.1.city }

  function CityObs(p: (Order, Customer)): Obs { Obs(p.1.city, None) }

  function ToCityCount(g: Group): CityCount { CityCount(g.key, g.size) }

  /** The mask "this joined order's customer lives in c". */
  function InCity(c: string): ((Order, Customer)) -> bool
  {
    (p: (Order, Customer)) => p.1.city == c
  }

  /** `groupby('customer_city').size()`: one row per city of the joined
      orders, in ascending city order, holding the number of joined orders
      with that city. */
  function CityOrderCounts(joined: seq<(Order, Customer)>): (r: seq<CityCount>)
    ensures StrictlySorted(Map(r, CountCity))
    ensures forall c :: c in Map(r, CountCity) <==> c in Map(joined, JoinedCity)
    ensures forall x :: x in r ==> x.orderCount == |Filter(joined, InCity(x.city))| && x.orderCount > 0
  {
    var obs := Map(joined, CityObs);
    var g := GroupBy(obs);
    var r := Map(g, ToCityCount);
    assert Map(r, CountCity) == GroupKeys(g);
    assert Labels(obs) == Map(joined, JoinedCity);
    forall x | x in r ensures x.orderCount == |Filter(joined, InCity(x.city))| {
      var i :| 0 <= i < |r| && r[i] == x;
      assert g[i] in g;
      SizeOfCity(joined, x.city);
    }
    r
  }

  lemma {:induction false} SizeOfCity(joined: seq<(Order, Customer)>, c: string)
    ensures Size(Map(joined, CityObs), c) == |Filter(joined, InCity(c))|
  {
    if joined != [] {
      SizeOfCity(joined[1..], c);
      assert Map(joined, CityObs)[1..] == Map(joined[1..], CityObs);
    }
  }

  /** `sort_values(by='order_count', ascending=False)`: most orders first. */
  function ByCountDesc(counts: seq<CityCount>): (s: seq<CityCount>)
    ensures Ranking.SortedDesc(s, CountValue)
    ensures multiset(s) == multiset(counts)
  {
    Ranking.SortDesc(counts, CountValue)
  }

  /** `head(15)` of the ordering. */
  function Top15(counts: seq<CityCount>): seq<CityCount>
  {
    Take(ByCountDesc(counts), 15)
  }

  /** `tail(15)` of the same ordering. */
  function Bottom15(counts: seq<CityCount>): seq<CityCount>
  {
    Last(ByCountDesc(counts), 15)
  }

  /** The ordering holds the rows of the count table, and nothing else. */
  lemma ByCountMembers(counts: seq<CityCount>)
    ensures forall x :: x in ByCountDesc(counts) <==> x in counts
  {
    var s := ByCountDesc(counts);
    forall x ensures x in s <==> x in counts {
      assert x in s <==> x in multiset(s);
      assert x in counts <==> x in multiset(counts);
    }
  }

  /** The top list holds at most 15 rows of the count table, and every city
      left out of it has no more orders than any city in it. */
  lemma TopCities(counts: seq<CityCount>)
    ensures |Top15(counts)| == Min(15, |counts|)
    ensures forall x :: x in Top15(counts) ==> x in counts
    ensures forall x, y :: x in Top15(counts) && y in counts && y !in Top15(counts) ==> y.orderCount <= x.orderCount
  {
    var s := ByCountDesc(counts);
    var top := Top15(counts);
    ByCountMembers(counts);
    TakeMembers(s, 15);
    Ranking.TakeOfSorted(s, 15, CountValue);
  }

  /** The bottom list holds at most 15 rows of the count table, and every
      city left out of it has no fewer orders than any city in it. */
  lemma BottomCities(counts: seq<CityCount>)
    ensures |Bottom15(counts)| == Min(15, |counts|)
    ensures forall x :: x in Bottom15(counts) ==> x in counts
    ensures forall x, y :: x in Bottom15(counts) && y in counts && y !in Bottom15(counts) ==> y.orderCount >= x.orderCount
  {
    var s := ByCountDesc(counts);
    var bottom := Bottom15(counts);
    ByCountMembers(counts);
    LastMembers(s, 15);
    Ranking.LastOfSorted(s, 15, CountValue);
  }

  /** With at least 30 cities the two lists are disjoint and every top city
      has at least as many orders as every bottom city. */
  lemma TopAboveBottom(counts: seq<CityCount>)
    requires UniqueBy(counts, CountCity) && |counts| >= 30
    ensures forall x, y :: x in Top15(counts) && y in Bottom15(counts) ==> x.city != y.city && x.orderCount >= y.orderCount
  {
    var s := ByCountDesc(counts);
    var top := Top15(counts);
    var bottom := Bottom15(counts);
    UniqueBySubMultiset(counts, s, CountCity);
    forall x, y | x in top && y in bottom ensures x.city != y.city && x.orderCount >= y.orderCount {
      var i := IndexOf(top, x);
      var j := IndexOf(bottom, y);
      assert x == s[i] && y == s[|s| - 15 + j];
      assert CountValue(s[i]) >= CountValue(s[|s| - 15 + j]);
      assert CountCity(s[i]) != CountCity(s[|s| - 15 + j]);
    }
  }

  /** The mask "this geolocation row is in city c". */
  function GeoIn(c: string): GeoPoint -> bool
  {
    (g: GeoPoint) => g.city == c
  }

  /** Row i is the first geolocation row whose city is exactly c. */
  ghost predicate IsFirstIn(geo: seq<GeoPoint>, c: string, i: int)
  {
    0 <= i < |geo| && geo[i].city == c && forall j :: 0 <= j < i ==> geo[j].city != c
  }

  /** `geolocation_df[geolocation_df['geolocation_city'] == c]`, then
      `iloc[0]` when that is not empty: the first geolocation row whose city
      is exactly c, if there is one. */
  function FirstWithCity(geo: seq<GeoPoint>, c: string): (r: Option<GeoPoint>)
    ensures r.None? <==> c !in Map(geo, GeoCity)
    ensures r.Some? ==> exists i :: IsFirstIn(geo, c, i) && geo[i] == r.value
  {
    var m := Filter(geo, GeoIn(c));
    assert c in Map(geo, GeoCity) <==> m != [] by {
      if c in Map(geo, GeoCity) {
        var k :| 0 <= k < |geo| && GeoCity(geo[k]) == c;
        assert geo[k] in m;
      }
      if m != [] {
        assert m[0] in m;
        var k :| 0 <= k < |geo| && geo[k] == m[0];
        assert Map(geo, GeoCity)[k] == c;
      }
    }
    if m == [] then None
    else
      FirstOfFilter(geo, GeoIn(c));
      var i :| 0 <= i < |geo| && geo[i] == m[0] && GeoIn(c)(geo[i]) && forall j :: 0 <= j < i ==> !GeoIn(c)(geo[j]);
      assert IsFirstIn(geo, c, i);
      Some(m[0])
  }

  /** The first row a filter keeps is the first row of the table it accepts. */
  lemma {:induction false} FirstOfFilter<T(!new)>(s: seq<T>, p: T -> bool)
    requires Filter(s, p) != []
    ensures exists i :: 0 <= i < |s| && s[i] == Filter(s, p)[0] && p(s[i]) && forall j :: 0 <= j < i ==> !p(s[j])
  {
    if p(s[0]) {
      assert Filter(s, p)[0] == s[0];
    } else {
      assert Filter(s, p) == Filter(s[1..], p);
      FirstOfFilter(s[1..], p);
      var i :| 0 <= i < |s[1..]| && s[1..][i] == Filter(s, p)[0] && p(s[1..][i]) && forall j :: 0 <= j < i ==> !p(s[1..][j]);
      assert s[i + 1] == Filter(s, p)[0];
      forall j | 0 <= j < i + 1 ensures !p(s[j]) {
        if j > 0 {
          assert s[j] == s[1..][j - 1];
        }
      }
    }
  }

  /** A circle marker: the city, its order count and where it is drawn. */
  datatype Marker = Marker(city: string, orderCount: nat, lat: real, lng: real)

  /** The mask "some geolocation row has exactly this city". */
  function Located(geo: seq<GeoPoint>): CityCount -> bool
  {
    (x: CityCount) => x.city in Map(geo, GeoCity)
  }

  /** The marker of a located city, at its first geolocation row. */
  function MarkerAt(geo: seq<GeoPoint>): CityCount -> Marker
  {
    (x: CityCount) =>
      match FirstWithCity(geo, x.city)
      case Some(g) => Marker(x.city, x.orderCount, g.lat, g.lng)
      case None => Marker(x.city, x.orderCount, 0.0, 0.0)
  }

  /** The loop over a city list that places its markers: a city gets a
      marker exactly when some geolocation row has its exact name, at the
      first such row, in list order. */
  method PlaceMarkers(cities: seq<CityCount>, geo: seq<GeoPoint>) returns (ms: seq<Marker>)
    ensures ms == Map(Filter(cities, Located(geo)), MarkerAt(geo))
  {
    ms := [];
    var i := 0;
    while i < |cities|
      invariant 0 <= i <= |cities|
      invariant ms == Map(Filter(cities[..i], Located(geo)), MarkerAt(geo))
    {
      var row := cities[i];
      var cityData := FirstWithCity(geo, row.city);
      MapFilterSnoc(cities, i, Located(geo), MarkerAt(geo));
      if cityData.Some? {
        ms := ms + [Marker(row.city, row.orderCount, cityData.value.lat, cityData.value.lng)];
      }
      i := i + 1;
    }
    assert cities[..i] == cities;
  }

  /** Every marker names a city of the list that has a geolocation row of
      exactly that name, and stands at the first such row; at most one
      marker per listed row. */
  lemma MarkersPlaced(cities: seq<CityCount>, geo: seq<GeoPoint>)
    ensures var ms := Map(Filter(cities, Located(geo)), MarkerAt(geo));
      && |ms| <= |cities|
      && forall m :: m in ms ==>
        (exists x :: x in cities && x.city == m.city && x.orderCount == m.orderCount)
        && exists i :: IsFirstIn(geo, m.city, i) && geo[i].lat == m.lat && geo[i].lng == m.lng
  {
    var f := Filter(cities, Located(geo));
    var ms := Map(f, MarkerAt(geo));
    forall m | m in ms
      ensures (exists x :: x in cities && x.city == m.city && x.orderCount == m.orderCount)
        && exists i :: IsFirstIn(geo, m.city, i) && geo[i].lat == m.lat && geo[i].lng == m.lng
    {
      var k :| 0 <= k < |ms| && ms[k] == m;
      var x := f[k];
      assert x in f;
      assert Located(geo)(x);
      var g := FirstWithCity(geo, x.city).value;
      assert m == Marker(x.city, x.orderCount, g.lat, g.lng);
    }
  }

  /** The page: the top and the bottom 15 cities by order count, and the
      markers of each list. */
  method CustomerPage(orders: seq<Order>, customers: seq<Customer>, geo: seq<GeoPoint>)
    returns (top: seq<CityCount>, bottom: seq<CityCount>, green: seq<Marker>, orange: seq<Marker>)
    ensures top == Top15(CityOrderCounts(OrdersWithCity(orders, customers)))
    ensures bottom == Bottom15(CityOrderCounts(OrdersWithCity(orders, customers)))
    ensures |top| <= 15 && |bottom| <= 15 && |green| <= |top| && |orange| <= |bottom|
    ensures green == Map(Filter(top, Located(geo)), MarkerAt(geo))
    ensures orange == Map(Filter(bottom, Located(geo)), MarkerAt(geo))
  {
    var counts := CityOrderCounts(OrdersWithCity(orders, customers));
    TopCities(counts);
    BottomCities(counts);
    top := Top15(counts);
    bottom := Bottom15(counts);
    green := PlaceMarkers(top, geo);
    orange := PlaceMarkers(bottom, geo);
    MarkersPlaced(top, geo);
    MarkersPlaced(bottom, geo);
  }
}
