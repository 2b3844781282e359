/** The normalisation the cached loaders apply to the parsed CSV rows:
    city names are title-cased, geolocation rows are de-duplicated after the
    casing, and empty review comments and product categories get a
    placeholder. */
module Loaders {
  import opened Tables
  import opened Text
  import opened Schema
  import opened Frames

  const NoComments: string := "No Comments"
  const OtherCategories: string := "Other Categories"

  function TitleCustomerCity(c: Customer): Customer { c.(city := Title(c.city)) }

  function TitleGeoCity(g: GeoPoint): GeoPoint { g.(city := Title(g.city)) }

  function TitleSellerCity(s: Seller): Seller { s.(city := Title(s.city)) }

  function FillComment(c: Option<string>): string
  {
    match c
    case Some(s) => s
    case None => NoComments
  }

  function FillTitle(r: Review): Review { r.(title := Some(FillComment(r.title))) }

  function FillMessage(r: Review): Review { r.(message := Some(FillComment(r.message))) }

  function FillCategory(p: Product): Product
  {
    p.(category := Some(match p.category case Some(c) => c case None => OtherCategories))
  }

  /** The customer table after `load_customers`: row for row the parsed
      table, with only the city changed, to a title-cased spelling of the
      same letters. */
  function LoadedCustomers(raw: seq<Customer>): (t: seq<Customer>)
    ensures |t| == |raw|
    ensures forall i :: 0 <= i < |raw| ==>
      t[i].(city := raw[i].city) == raw[i] && IsTitled(t[i].city) && SameUpToCase(t[i].city, raw[i].city)
  {
    forall i | 0 <= i < |raw| ensures IsTitled(Title(raw[i].city)) {
      TitleIsTitled(raw[i].city);
    }
    Map(raw, TitleCustomerCity)
  }

  method LoadCustomers(raw: seq<Customer>) returns (df: Frame<Customer>)
    ensures fresh(df)
    ensures df.rows == LoadedCustomers(raw)
  {
    df := new Frame(raw);
    df.Apply(TitleCustomerCity);
  }

  /** The seller table after `load_seller`: as for customers. */
  function LoadedSellers(raw: seq<Seller>): (t: seq<Seller>)
    ensures |t| == |raw|
    ensures forall i :: 0 <= i < |raw| ==>
      t[i].(city := raw[i].city) == raw[i] && IsTitled(t[i].city) && SameUpToCase(t[i].city, raw[i].city)
  {
    forall i | 0 <= i < |raw| ensures IsTitled(Title(raw[i].city)) {
      TitleIsTitled(raw[i].city);
    }
    Map(raw, TitleSellerCity)
  }

  method LoadSellers(raw: seq<Seller>) returns (df: Frame<Seller>)
    ensures fresh(df)
    ensures df.rows == LoadedSellers(raw)
  {
    df := new Frame(raw);
    df.Apply(TitleSellerCity);
  }

  /** The geolocation table after `load_geolocation`: every parsed row with
      its city title-cased, each such row once, and nothing else. */
  function LoadedGeolocation(raw: seq<GeoPoint>): (t: seq<GeoPoint>)
    ensures Distinct(t)
    ensures forall g :: g in raw ==> TitleGeoCity(g) in t
    ensures forall g :: g in t ==> IsTitled(g.city) && exists x :: x in raw && g == TitleGeoCity(x)
  {
    var cased := Map(raw, TitleGeoCity);
    forall g | g in raw ensures TitleGeoCity(g) in cased {
      var i :| 0 <= i < |raw| && raw[i] == g;
      assert cased[i] == TitleGeoCity(g);
    }
    forall g | g in cased ensures IsTitled(g.city) && exists x :: x in raw && g == TitleGeoCity(x) {
      var i :| 0 <= i < |cased| && cased[i] == g;
      assert raw[i] in raw;
      TitleIsTitled(raw[i].city);
    }
    Dedup(cased)
  }

  method LoadGeolocation(raw: seq<GeoPoint>) returns (df: Frame<GeoPoint>)
    ensures fresh(df)
    ensures df.rows == LoadedGeolocation(raw)
  {
    df := new Frame(raw);
    df.Apply(TitleGeoCity);
    df.DropDuplicates();
  }

  /** Two parsed rows that differ only in the letter case of the city are one
      row after loading. */
  lemma CaseVariantsMerge(raw: seq<GeoPoint>, x: GeoPoint, y: GeoPoint)
    requires x in raw && y in raw
    requires x.(city := y.city) == y && SameUpToCase(x.city, y.city)
    ensures TitleGeoCity(x) == TitleGeoCity(y)
    ensures multiset(LoadedGeolocation(raw))[TitleGeoCity(x)] == 1
  {
    TitleUpToCase(x.city, y.city);
    DistinctMultiset(LoadedGeolocation(raw), TitleGeoCity(x));
  }

  /** The order of the two steps matters: two rows that differ only in the
      case of the city are one row after loading, while de-duplicating
      before the casing would keep both, as two identical rows. */
  lemma CasingBeforeDedup(a: GeoPoint, b: GeoPoint)
    requires a != b && TitleGeoCity(a) == TitleGeoCity(b)
    ensures |LoadedGeolocation([a, b])| == 1
    ensures |Map(Dedup([a, b]), TitleGeoCity)| == 2
  {
    var A := TitleGeoCity(a);
    var cased := Map([a, b], TitleGeoCity);
    assert cased == [A, A];
    assert cased[..1] == [A];
    assert [a, b][..1] == [a];
  }

  /** Such rows exist: `SAO PAULO` and `sao paulo` in the same zip code. */
  lemma CaseVariantsExist()
    ensures var a := GeoPoint(1000, 0.0, 0.0, "SAO PAULO", "SP");
      var b := GeoPoint(1000, 0.0, 0.0, "sao paulo", "SP");
      a != b && TitleGeoCity(a) == TitleGeoCity(b)
  {
    var a := GeoPoint(1000, 0.0, 0.0, "SAO PAULO", "SP");
    var b := GeoPoint(1000, 0.0, 0.0, "sao paulo", "SP");
    assert a.city[0] != b.city[0];
    assert SameUpToCase(a.city, b.city) by {
      forall i | 0 <= i < |a.city| ensures Lower(a.city[i]) == Lower(b.city[i]) {
      }
    }
    TitleUpToCase(a.city, b.city);
  }

  /** The review table after `load_order_reviews`: row for row the parsed
      table, with no empty comment title or message left; an empty one reads
      'No Comments' and a present one is kept. */
  function LoadedReviews(raw: seq<Review>): (t: seq<Review>)
    ensures |t| == |raw|
    ensures forall i :: 0 <= i < |raw| ==>
      && t[i].(title := raw[i].title, message := raw[i].message) == raw[i]
      && t[i].title.Some? && t[i].message.Some?
      && (raw[i].title.Some? ==> t[i].title == raw[i].title)
      && (raw[i].title.None? ==> t[i].title == Some(NoComments))
      && (raw[i].message.Some? ==> t[i].message == raw[i].message)
      && (raw[i].message.None? ==> t[i].message == Some(NoComments))
  {
    Map(Map(raw, FillTitle), FillMessage)
  }

  method LoadReviews(raw: seq<Review>) returns (df: Frame<Review>)
    ensures fresh(df)
    ensures df.rows == LoadedReviews(raw)
  {
    df := new Frame(raw);
    df.Apply(FillTitle);
    df.Apply(FillMessage);
  }

  /** The product table after `load_products`: row for row the parsed table,
      with every empty category read as 'Other Categories'. */
  function LoadedProducts(raw: seq<Product>): (t: seq<Product>)
    ensures |t| == |raw|
    ensures forall i :: 0 <= i < |raw| ==>
      && t[i].productId == raw[i].productId
      && (raw[i].category.Some? ==> t[i].category == raw[i].category)
      && (raw[i].category.None? ==> t[i].category == Some(OtherCategories))
  {
    Map(raw, FillCategory)
  }

  method LoadProducts(raw: seq<Product>) returns (df: Frame<Product>)
    ensures fresh(df)
    ensures df.rows == LoadedProducts(raw)
  {
    df := new Frame(raw);
    df.Apply(FillCategory);
  }
}
