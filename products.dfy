/** The Product Analysis page: the ten product categories with the most
    and the fewest ordered items. */
module Products {
  import opened Tables
  import opened Ranking
  import opened Aggregates
  import opened Schema
  import Loaders

  /** Lines 486-490: every order item merged on its product id with its
      product's row of the products merged with their English category
      name; an item survives only if its product is listed and that
      product's category is named in the translation table. */
  function ProductsWithCategory(items: seq<OrderItem>, products: seq<Product>, names: seq<CategoryName>)
    : (j: seq<(OrderItem, (Product, CategoryName))>)
    ensures forall t :: t in j <==>
      && t.0 in items && t.1.0 in products && t.1.1 in names
      && t.0.productId == t.1.0.productId && t.1.0.category == Some(t.1.1.name)
  {
    var pc := Join(products, names, ProductCategory, TranslationKey);
    forall p: (Product, CategoryName) ensures p in pc <==> p.0 in products && p.1 in names && p.0.category == Some(p.1.name) {
      assert ProductCategory(p.0) == p.0.category && TranslationKey(p.1) == Some(p.1.name);
    }
    forall p: (Product, CategoryName) ensures OnFst(ProductKey)(p) == p.0.productId {
      assert OnFst(ProductKey)(p) == ProductKey(p.0);
    }
    Join(items, pc, ItemProduct, OnFst(ProductKey))
  }

  function EnglishName(t: (OrderItem, (Product, CategoryName))): string { t.1.1.english }

  /** `value_counts()` of the English category names: one row per category
      with its number of ordered items, most items first. */
  function CategoryOrders(items: seq<OrderItem>, products: seq<Product>, names: seq<CategoryName>): seq<Tally<string>>
  {
    ValueCounts(Map(ProductsWithCategory(items, products, names), EnglishName))
  }

  /** `head(10)` (line 496). */
  function TopCategories(items: seq<OrderItem>, products: seq<Product>, names: seq<CategoryName>): seq<Tally<string>>
  {
    Take(CategoryOrders(items, products, names), 10)
  }

  /** `tail(10)` of the same ordering (line 514). */
  function BottomCategories(items: seq<OrderItem>, products: seq<Product>, names: seq<CategoryName>): seq<Tally<string>>
  {
    Last(CategoryOrders(items, products, names), 10)
  }

  /** The count of a category is the number of merged items carrying its
      English name; the categories are exactly those of the merged items,
      each once, most items first. */
  lemma CategoryOrdersFacts(items: seq<OrderItem>, products: seq<Product>, names: seq<CategoryName>)
    ensures var names' := Map(ProductsWithCategory(items, products, names), EnglishName);
      var c := CategoryOrders(items, products, names);
      && SortedDesc(c, TallyCount)
      && UniqueBy(c, TallyKey)
      && (forall t :: t in c ==> t.n == multiset(names')[t.key] && t.n > 0)
      && forall k :: k in names' <==> Tally(k, multiset(names')[k]) in c
  {
    ValueCountsUnique(Map(ProductsWithCategory(items, products, names), EnglishName));
  }

  /** The top ten: at most ten categories, and every category left out has
      no more items than any shown. */
  lemma TopCategoriesFacts(items: seq<OrderItem>, products: seq<Product>, names: seq<CategoryName>)
    ensures var c := CategoryOrders(items, products, names);
      var top := TopCategories(items, products, names);
      && |top| == Min(10, |c|)
      && (forall t :: t in top ==> t in c)
      && forall x, y :: x in top && y in c && y !in top ==> y.n <= x.n
  {
    var c := CategoryOrders(items, products, names);
    var top := TopCategories(items, products, names);
    TakeMembers(c, 10);
    TakeOfSorted(c, 10, TallyCount);
  }

  /** The bottom ten: at most ten categories, and every category left out
      has no fewer items than any shown. */
  lemma BottomCategoriesFacts(items: seq<OrderItem>, products: seq<Product>, names: seq<CategoryName>)
    ensures var c := CategoryOrders(items, products, names);
      var bottom := BottomCategories(items, products, names);
      && |bottom| == Min(10, |c|)
      && (forall t :: t in bottom ==> t in c)
      && forall x, y :: x in bottom && y in c && y !in bottom ==> y.n >= x.n
  {
    var c := CategoryOrders(items, products, names);
    var bottom := BottomCategories(items, products, names);
    LastMembers(c, 10);
    LastOfSorted(c, 10, TallyCount);
  }

  /** Products whose category was empty read 'Other Categories' after
      loading; unless the translation table names that category, their
      items are counted in no category. */
  lemma OtherCategoriesDropped(items: seq<OrderItem>, raw: seq<Product>, names: seq<CategoryName>)
    requires forall c :: c in names ==> c.name != Loaders.OtherCategories
    ensures forall t, i ::
      (t in ProductsWithCategory(items, Loaders.LoadedProducts(raw), names) && 0 <= i < |raw| && raw[i].category.None?)
      ==> t.1.0 != Loaders.LoadedProducts(raw)[i]
  {
  }
}
