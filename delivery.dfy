/** The Delivery Analysis page: the delivery-time column it adds to the
    shared orders table, the histogram of that column, average delivery
    days per customer city joined to city centroids on a map of the 30
    slowest cities, and the 10 cities with the longest average. */
module Delivery {
  import opened Tables
  import opened Keys
  import opened Schema
  import opened Aggregates
  import opened Ranking
  import opened CustomerDistribution

  function AsReal(d: Option<int>): Option<real>
  {
    match d
    case Some(n) => Some(n as real)
    case None => None
  }

  /** `orders_df[orders_df['delivery_time'].between(0, 180)]`, the column the
      histogram counts: the defined day counts from 0 to 180 inclusive, each
      as often as it occurs in the column; NaN never passes `between`. */
  function HistogramDays(col: seq<Option<int>>): (r: seq<int>)
    ensures forall d :: d in r <==> Some(d) in col && 0 <= d <= 180
    ensures forall d :: 0 <= d <= 180 ==> multiset(r)[d] == multiset(col)[Some(d)]
  {
    if col == [] then []
    else
      var rest := HistogramDays(col[1..]);
      assert col == [col[0]] + col[1..];
      match col[0]
      case Some(d) => if 0 <= d <= 180 then [d] + rest else rest
      case None => rest
  }

  /** The orders table the pages share. The Delivery page adds the
      `delivery_time` column to it in place, and a later chart of the same
      page reads that column back. */
  class OrdersFrame {
    var rows: seq<Order>
    var deliveryTime: Option<seq<Option<int>>>

    /** The delivery-time column, once added, has one cell per order. */
    ghost predicate Valid()
      reads this
    {
      deliveryTime.Some? ==> |deliveryTime.value| == |rows|
    }

    /** The table as `load_orders` returns it, without the column. */
    constructor (orders: seq<Order>)
      ensures Valid()
      ensures rows == orders && deliveryTime == None
    {
      rows := orders;
      deliveryTime := None;
    }

    /** `orders_df['delivery_time'] = (delivered - purchase).dt.days`: the
        rows stay as they are; the new column holds each order's delivery
        days. */
    method AddDeliveryTime()
      modifies this
      ensures Valid()
      ensures rows == old(rows)
      ensures deliveryTime == Some(Map(rows, DeliveryDays))
    {
      deliveryTime := Some(Map(rows, DeliveryDays));
    }

    /** `merge(orders_df, customers, on='customer_id').groupby('customer_city')['delivery_time'].mean().nlargest(10)`:
        reads the column, so it can run only after the column was added. */
    method LongestDeliveryTimes(customers: seq<Customer>) returns (top: seq<Group>)
      requires Valid() && deliveryTime.Some?
      ensures top == NLargest(ColumnMeans(Zip(rows, deliveryTime.value), customers), 10, GroupMean)
    {
      top := NLargest(ColumnMeans(Zip(rows, deliveryTime.value), customers), 10, GroupMean);
    }
  }

  function GroupMean(g: Group): Option<real> { g.mean }

  function RowCustomer(r: (Order, Option<int>)): string { r.0.customerId }

  function ColumnObs(p: ((Order, Option<int>), Customer)): Obs { Obs(p.1.city, AsReal(p.0.1)) }

  /** The per-city mean of the stored column (line 343). */
  function ColumnMeans(withColumn: seq<(Order, Option<int>)>, customers: seq<Customer>): seq<Group>
  {
    GroupBy(Map(Join(withColumn, customers, RowCustomer, CustomerKey), ColumnObs))
  }

  function DeliveryObs(p: (Order, Customer)): Obs { Obs(p.1.city, AsReal(DeliveryDays(p.0))) }

  /** The mask "this joined order is of city c and was delivered". */
  function DeliveredIn(c: string): ((Order, Customer)) -> bool
  {
    (p: (Order, Customer)) => p.1.city == c && DeliveryDays(p.0).Some?
  }

  function PairDays(p: (Order, Customer)): real { ValueOr(AsReal(DeliveryDays(p.0))) }

  /** `groupby('customer_city')['delivery_time_days'].mean()` (lines 288-291):
      one group per city of the joined orders, ascending, each holding the
      statistics of that city's rows. */
  function CityDeliveryTimes(joined: seq<(Order, Customer)>): (r: seq<Group>)
    ensures StrictlySorted(GroupKeys(r))
    ensures forall c :: c in GroupKeys(r) <==> c in Map(joined, JoinedCity)
    ensures forall g :: g in r ==> g == Stat(Map(joined, DeliveryObs), g.key)
  {
    assert Labels(Map(joined, DeliveryObs)) == Map(joined, JoinedCity);
    GroupBy(Map(joined, DeliveryObs))
  }

  /** A city's group: its size is the city's number of orders, and its mean
      is taken over the delivery days of the city's delivered orders alone
      (NaN when none was delivered). */
  lemma CityDeliveryStats(joined: seq<(Order, Customer)>, g: Group)
    requires g in CityDeliveryTimes(joined)
    ensures g.size == |Filter(joined, InCity(g.key))|
    ensures g.count == |Filter(joined, DeliveredIn(g.key))|
    ensures g.mean == Mean(Map(Filter(joined, DeliveredIn(g.key)), PairDays))
  {
    SizeOfDeliveryCity(joined, g.key);
    DeliveredOnly(joined, g.key);
  }

  lemma {:induction false} SizeOfDeliveryCity(joined: seq<(Order, Customer)>, c: string)
    ensures Size(Map(joined, DeliveryObs), c) == |Filter(joined, InCity(c))|
  {
    if joined != [] {
      SizeOfDeliveryCity(joined[1..], c);
      assert Map(joined, DeliveryObs)[1..] == Map(joined[1..], DeliveryObs);
    }
  }

  /** The values a city's mean is taken over are the delivery days of its
      delivered orders, in order: an order without a delivery date adds
      nothing. */
  lemma {:induction false} DeliveredOnly(joined: seq<(Order, Customer)>, c: string)
    ensures Values(Map(joined, DeliveryObs), c) == Map(Filter(joined, DeliveredIn(c)), PairDays)
  {
    if joined != [] {
      DeliveredOnly(joined[1..], c);
      var obs := Map(joined, DeliveryObs);
      assert obs[1..] == Map(joined[1..], DeliveryObs);
      var rest := Filter(joined[1..], DeliveredIn(c));
      if DeliveredIn(c)(joined[0]) {
        assert Filter(joined, DeliveredIn(c)) == [joined[0]] + rest;
        MapConcat([joined[0]], rest, PairDays);
      } else {
        assert Filter(joined, DeliveredIn(c)) == rest;
      }
    }
  }

  /** One row of `city_avg_coords`: a geolocation city and the mean of its
      samples' coordinates. */
  datatype Centroid = Centroid(city: string, lat: real, lng: real)

  function CentroidCity(c: Centroid): string { c.city }

  function GeoLat(g: GeoPoint): real { g.lat }

  function GeoLng(g: GeoPoint): real { g.lng }

  function LatObs(g: GeoPoint): Obs { Obs(g.city, Some(g.lat)) }

  function LngObs(g: GeoPoint): Obs { Obs(g.city, Some(g.lng)) }

  function CentroidOf(geo: seq<GeoPoint>): string -> Centroid
  {
    c => Centroid(c, ValueOr(Mean(Values(Map(geo, LatObs), c))), ValueOr(Mean(Values(Map(geo, LngObs), c))))
  }

  /** `groupby('geolocation_city').agg({'geolocation_lat': 'mean',
      'geolocation_lng': 'mean'})`: exactly one row per geolocation city, in
      ascending order, each the centroid of its city. */
  function Centroids(geo: seq<GeoPoint>): (r: seq<Centroid>)
    ensures StrictlySorted(Map(r, CentroidCity))
    ensures forall c :: c in Map(r, CentroidCity) <==> c in Map(geo, GeoCity)
    ensures forall x :: x in r ==> x == CentroidOf(geo)(x.city)
  {
    var ks := SortedDistinct(Map(geo, GeoCity));
    var r := Map(ks, CentroidOf(geo));
    assert Map(r, CentroidCity) == ks;
    r
  }

  /** A centroid sits at the arithmetic mean of its city's samples, of which
      there is at least one. */
  lemma CentroidIsMean(geo: seq<GeoPoint>, x: Centroid)
    requires x in Centroids(geo)
    ensures var samples := Filter(geo, GeoIn(x.city));
      && samples != []
      && x.lat == Sum(Map(samples, GeoLat)) / (|samples| as real)
      && x.lng == Sum(Map(samples, GeoLng)) / (|samples| as real)
  {
    var r := Centroids(geo);
    var i :| 0 <= i < |r| && r[i] == x;
    assert Map(r, CentroidCity)[i] == x.city;
    CitySamples(geo, x.city);
  }

  /** The latitudes and longitudes averaged for city c are those of the
      geolocation rows of c, in order, and there is at least one when c is a
      geolocation city. */
  lemma CitySamples(geo: seq<GeoPoint>, c: string)
    ensures Values(Map(geo, LatObs), c) == Map(Filter(geo, GeoIn(c)), GeoLat)
    ensures Values(Map(geo, LngObs), c) == Map(Filter(geo, GeoIn(c)), GeoLng)
    ensures c in Map(geo, GeoCity) ==> Filter(geo, GeoIn(c)) != []
  {
    CityLats(geo, c);
    CityLngs(geo, c);
    if c in Map(geo, GeoCity) {
      var g := MapWitness(geo, GeoCity, c);
      assert g in Filter(geo, GeoIn(c));
    }
  }

  lemma {:induction false} CityLats(geo: seq<GeoPoint>, c: string)
    ensures Values(Map(geo, LatObs), c) == Map(Filter(geo, GeoIn(c)), GeoLat)
  {
    if geo != [] {
      CityLats(geo[1..], c);
      assert Map(geo, LatObs)[1..] == Map(geo[1..], LatObs);
      var rest := Filter(geo[1..], GeoIn(c));
      if geo[0].city == c {
        assert Filter(geo, GeoIn(c)) == [geo[0]] + rest;
        MapConcat([geo[0]], rest, GeoLat);
      } else {
        assert Filter(geo, GeoIn(c)) == rest;
      }
    }
  }

  lemma {:induction false} CityLngs(geo: seq<GeoPoint>, c: string)
    ensures Values(Map(geo, LngObs), c) == Map(Filter(geo, GeoIn(c)), GeoLng)
  {
    if geo != [] {
      CityLngs(geo[1..], c);
      assert Map(geo, LngObs)[1..] == Map(geo[1..], LngObs);
      var rest := Filter(geo[1..], GeoIn(c));
      if geo[0].city == c {
        assert Filter(geo, GeoIn(c)) == [geo[0]] + rest;
        MapConcat([geo[0]], rest, GeoLng);
      } else {
        assert Filter(geo, GeoIn(c)) == rest;
      }
    }
  }

  /** A centroid lies inside every box that holds all samples of its city. */
  lemma CentroidInBox(geo: seq<GeoPoint>, x: Centroid, south: real, north: real, west: real, east: real)
    requires x in Centroids(geo)
    requires forall g :: g in geo && g.city == x.city ==> south <= g.lat <= north && west <= g.lng <= east
    ensures south <= x.lat <= north && west <= x.lng <= east
  {
    CentroidIsMean(geo, x);
    var samples := Filter(geo, GeoIn(x.city));
    var lats := Map(samples, GeoLat);
    var lngs := Map(samples, GeoLng);
    forall v | v in lats ensures south <= v <= north {
      var i :| 0 <= i < |lats| && lats[i] == v;
      assert samples[i] in samples;
    }
    forall v | v in lngs ensures west <= v <= east {
      var i :| 0 <= i < |lngs| && lngs[i] == v;
      assert samples[i] in samples;
    }
    MeanBounds(lats, south, north);
    MeanBounds(lngs, west, east);
  }

  /** `pd.merge(city_delivery_times, city_avg_coords, left_on='customer_city',
      right_on='geolocation_city')` (line 300). */
  function WithCentroids(times: seq<Group>, cents: seq<Centroid>): seq<(Group, Centroid)>
  {
    Join(times, cents, GroupKey, CentroidCity)
  }

  lemma SortedKeysUnique<T>(s: seq<T>, key: T -> string)
    requires StrictlySorted(Map(s, key))
    ensures UniqueBy(s, key)
  {
    StrictlySortedDistinct(Map(s, key));
  }

  /** The merge of two tables with one row per city has at most one row per
      city, only for cities of both tables, and each row pairs that city's
      row of the one with that city's row of the other. */
  lemma MergeCities(times: seq<Group>, cents: seq<Centroid>)
    requires StrictlySorted(GroupKeys(times)) && StrictlySorted(Map(cents, CentroidCity))
    ensures var m := WithCentroids(times, cents);
      && UniqueBy(m, JoinedGroupCity)
      && |m| <= Min(|times|, |cents|)
      && forall p :: p in m ==> p.0 in times && p.1 in cents && p.0.key == p.1.city
  {
    assert GroupKeys(times) == Map(times, GroupKey);
    SortedKeysUnique(times, GroupKey);
    SortedKeysUnique(cents, CentroidCity);
    JoinUniqueBoth(times, cents, GroupKey, CentroidCity);
    JoinKeysUnique(times, cents, GroupKey, CentroidCity);
  }

  /** Joining the per-city delivery means with the centroids: at most one
      row per city, and only for cities with orders and with geolocation
      rows. */
  lemma WithCentroidsCities(joined: seq<(Order, Customer)>, geo: seq<GeoPoint>)
    ensures var m := WithCentroids(CityDeliveryTimes(joined), Centroids(geo));
      && UniqueBy(m, JoinedGroupCity)
      && |m| <= Min(|CityDeliveryTimes(joined)|, |Centroids(geo)|)
      && forall p :: p in m ==> p.0.key == p.1.city && p.0.key in Map(joined, JoinedCity) && p.0.key in Map(geo, GeoCity)
  {
    var times := CityDeliveryTimes(joined);
    var cents := Centroids(geo);
    MergeCities(times, cents);
    MergedKeys(times, cents, Map(joined, JoinedCity), Map(geo, GeoCity));
  }

  lemma MergedKeys(times: seq<Group>, cents: seq<Centroid>, left: seq<string>, right: seq<string>)
    requires forall c :: c in GroupKeys(times) <==> c in left
    requires forall c :: c in Map(cents, CentroidCity) <==> c in right
    ensures forall p :: p in WithCentroids(times, cents) ==> p.0.key in left && p.1.city in right
  {
    forall p | p in WithCentroids(times, cents) ensures p.0.key in left && p.1.city in right {
      MapMember(times, GroupKey, p.0);
      MapMember(cents, CentroidCity, p.1);
    }
  }

  function JoinedGroupCity(p: (Group, Centroid)): string { p.0.key }

  /** A row of the delivery map. */
  datatype MapRow = MapRow(city: string, days: Option<real>, lat: real, lng: real)

  /** `drop(columns=['geolocation_city'])` on a merged row; the `rename`
      that follows maps each column name to itself and changes nothing. */
  function DropGeoCity(p: (Group, Centroid)): MapRow
  {
    MapRow(p.0.key, p.0.mean, p.1.lat, p.1.lng)
  }

  function MapRowDays(m: MapRow): Option<real> { m.days }

  function ShownDays(m: MapRow): real { ValueOr(m.days) }

  /** `nlargest(30, 'delivery_time_days')` of the merged table (line 307). */
  function SlowestCities(joined: seq<(Order, Customer)>, geo: seq<GeoPoint>): seq<MapRow>
  {
    NLargest(Map(WithCentroids(CityDeliveryTimes(joined), Centroids(geo)), DropGeoCity), 30, MapRowDays)
  }

  /** The 30 slowest of a table with one row per city: 30 rows (all of them
      when there are fewer), each a row of the table and each city once;
      the cities with an average come first, slowest first, and a city
      whose average is NaN is shown only once every city with an average
      is; a city with an average left out is no slower than any city
      shown. */
  lemma ShownFacts(merged: seq<MapRow>)
    requires UniqueBy(merged, MapRowCity)
    ensures var shown := NLargest(merged, 30, MapRowDays);
      && |shown| == Min(30, |merged|)
      && (forall m :: m in shown ==> m in merged)
      && (forall i, j :: 0 <= i < j < |shown| ==> shown[i].city != shown[j].city)
      && (forall i, j :: 0 <= i < j < |shown| && shown[j].days.Some? ==>
        shown[i].days.Some? && ShownDays(shown[i]) >= ShownDays(shown[j]))
      && (forall m, n :: m in shown && n in merged && n.days.Some? && n !in shown ==>
        m.days.Some? && ShownDays(n) <= ShownDays(m))
  {
    UniqueBySubMultiset(merged, NLargest(merged, 30, MapRowDays), MapRowCity);
  }

  /** The averages the colour scale reads: `min()` and `max()` skip NaN. */
  function ShownValues(shown: seq<MapRow>): seq<real>
  {
    Map(Filter(shown, IsDefined(MapRowDays)), ShownDays)
  }

  /** The colour scale of the map (`vmin`/`vmax`, lines 313-314): absent
      (NaN) only when no shown city has an average, and enclosing every
      shown average. */
  lemma ShownBounds(shown: seq<MapRow>)
    ensures var b := ColourBounds(ShownValues(shown));
      && (b.None? <==> forall m :: m in shown ==> m.days.None?)
      && forall m :: m in shown && m.days.Some? ==> b.Some? && b.value.0 <= m.days.value <= b.value.1
  {
    var d := Filter(shown, IsDefined(MapRowDays));
    var b := ColourBounds(ShownValues(shown));
    forall m | m in shown && m.days.Some? ensures b.Some? && b.value.0 <= m.days.value <= b.value.1 {
      assert MapRowDays(m).Some?;
      assert m in d;
      MapMember(d, ShownDays, m);
    }
    if d != [] {
      assert d[0] in d;
    }
  }

  /** Dropping the geolocation city from pairs with one row per city keeps
      one row per city, and every ranked row is one of them with its order
      city among a and b. */
  lemma DroppedCities(pairs: seq<(Group, Centroid)>, a: seq<string>, b: seq<string>)
    requires UniqueBy(pairs, JoinedGroupCity)
    requires forall p :: p in pairs ==> p.0.key in a && p.0.key in b
    ensures UniqueBy(Map(pairs, DropGeoCity), MapRowCity)
    ensures forall m :: m in NLargest(Map(pairs, DropGeoCity), 30, MapRowDays) ==>
      m in Map(pairs, DropGeoCity) && m.city in a && m.city in b
  {
    var merged := Map(pairs, DropGeoCity);
    forall i, j | 0 <= i < j < |merged| ensures MapRowCity(merged[i]) != MapRowCity(merged[j]) {
      assert JoinedGroupCity(pairs[i]) != JoinedGroupCity(pairs[j]);
    }
    forall m | m in merged ensures m.city in a && m.city in b {
      var p := MapWitness(pairs, DropGeoCity, m);
    }
  }

  /** The delivery map: every shown city has orders and geolocation rows,
      and it is drawn from a table with one row per city. */
  lemma SlowestCitiesFacts(joined: seq<(Order, Customer)>, geo: seq<GeoPoint>)
    ensures var merged := Map(WithCentroids(CityDeliveryTimes(joined), Centroids(geo)), DropGeoCity);
      && UniqueBy(merged, MapRowCity)
      && forall m :: m in SlowestCities(joined, geo) ==> m in merged && m.city in Map(geo, GeoCity) && m.city in Map(joined, JoinedCity)
  {
    var pairs := WithCentroids(CityDeliveryTimes(joined), Centroids(geo));
    WithCentroidsCities(joined, geo);
    DroppedCities(pairs, Map(joined, JoinedCity), Map(geo, GeoCity));
  }

  function MapRowCity(m: MapRow): string { m.city }

  function WithDays(o: Order): (Order, Option<int>) { (o, DeliveryDays(o)) }

  lemma {:induction false} MatchesAgree(o: Order, customers: seq<Customer>)
    ensures Map(Matches(WithDays(o), customers, RowCustomer, CustomerKey), ColumnObs)
         == Map(Matches(o, customers, OrderCustomer, CustomerKey), DeliveryObs)
  {
    if customers != [] {
      MatchesAgree(o, customers[1..]);
      var a := Matches(WithDays(o), customers[1..], RowCustomer, CustomerKey);
      var b := Matches(o, customers[1..], OrderCustomer, CustomerKey);
      if o.customerId == customers[0].customerId {
        MapConcat([(WithDays(o), customers[0])], a, ColumnObs);
        MapConcat([(o, customers[0])], b, DeliveryObs);
      } else {
        assert Matches(WithDays(o), customers, RowCustomer, CustomerKey) == a;
        assert Matches(o, customers, OrderCustomer, CustomerKey) == b;
      }
    }
  }

  lemma {:induction false} JoinAgree(rows: seq<Order>, customers: seq<Customer>)
    ensures Map(Join(Map(rows, WithDays), customers, RowCustomer, CustomerKey), ColumnObs)
         == Map(Join(rows, customers, OrderCustomer, CustomerKey), DeliveryObs)
  {
    if rows != [] {
      JoinAgree(rows[1..], customers);
      MatchesAgree(rows[0], customers);
      var w := Map(rows, WithDays);
      assert w[0] == WithDays(rows[0]) && w[1..] == Map(rows[1..], WithDays);
      MapConcat(Matches(w[0], customers, RowCustomer, CustomerKey), Join(w[1..], customers, RowCustomer, CustomerKey), ColumnObs);
      MapConcat(Matches(rows[0], customers, OrderCustomer, CustomerKey), Join(rows[1..], customers, OrderCustomer, CustomerKey), DeliveryObs);
    }
  }

  /** Once the column holds each order's delivery days, the means the last
      chart reads from it are the per-city means of lines 288-291. */
  lemma ColumnAgrees(rows: seq<Order>, customers: seq<Customer>)
    ensures ColumnMeans(Zip(rows, Map(rows, DeliveryDays)), customers) == CityDeliveryTimes(OrdersWithCity(rows, customers))
  {
    assert Zip(rows, Map(rows, DeliveryDays)) == Map(rows, WithDays);
    JoinAgree(rows, customers);
  }

  /** The page in order: add the column, draw its histogram, map the 30
      slowest cities with their colour bounds, and chart the 10 cities with
      the longest average from the stored column. */
  method DeliveryPage(frame: OrdersFrame, customers: seq<Customer>, geo: seq<GeoPoint>)
    returns (hist: seq<int>, shown: seq<MapRow>, bounds: Option<(real, real)>, longest: seq<Group>)
    modifies frame
    ensures frame.Valid() && frame.rows == old(frame.rows)
    ensures frame.deliveryTime == Some(Map(frame.rows, DeliveryDays))
    ensures hist == HistogramDays(Map(frame.rows, DeliveryDays))
    ensures shown == SlowestCities(OrdersWithCity(frame.rows, customers), geo)
    ensures bounds == ColourBounds(ShownValues(shown))
    ensures longest == NLargest(CityDeliveryTimes(OrdersWithCity(frame.rows, customers)), 10, GroupMean)
  {
    frame.AddDeliveryTime();
    hist := HistogramDays(frame.deliveryTime.value);
    shown := SlowestCities(OrdersWithCity(frame.rows, customers), geo);
    bounds := ColourBounds(ShownValues(shown));
    longest := frame.LongestDeliveryTimes(customers);
    ColumnAgrees(frame.rows, customers);
  }
}
