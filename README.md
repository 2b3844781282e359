# Brazilian e-commerce dashboard: the data pipeline

The dashboard reads the nine tables of the Olist e-commerce data set:
customers, geolocation, orders, order items, payments, reviews, products,
category translations and sellers. It normalises some of them and, page by
page, merges, groups, filters and ranks them into the tables its charts and
maps draw. This project models that pipeline in Dafny and proves what each
step keeps, drops and orders.

- **Tables** are sequences of typed records (`Schema`). A cell that can be
  empty is an `Option`, and a parsed timestamp is a whole number of seconds.
- **pandas operations** are functions over sequences:
  - the inner `merge` (`Tables.Join`, every matching pair, left rows in
    order);
  - `groupby` with `size`, `count` and `mean`, where NaN is skipped
    (`Aggregates.GroupBy`, one group per label in ascending order);
  - `value_counts` (`Aggregates.ValueCounts`);
  - `nlargest`/`nsmallest` with keep='first', NaN rows last (`Ranking`);
  - `head`/`tail` (`Tables.Take`/`Tables.Last`);
  - `drop_duplicates` (`Tables.Dedup`);
  - `str.title` (`Text.Title`).
- **In-place updates** are methods on classes:
  - the cached loaders change a `Frames.Frame` in place (column assignment,
    `fillna(inplace=True)`, `drop_duplicates(inplace=True)`);
  - the Delivery page adds the `delivery_time` column to the shared orders
    table, and a later chart on the same page reads it
    (`Delivery.OrdersFrame`).
- **The pages** (`CustomerDistribution`, `Delivery`, `Reviews`, `Products`,
  `Payments`) are functions that follow the source's chains of calls. Lemmas
  state what those chains promise:
  - which rows survive a merge;
  - that filtering happens before ranking;
  - the bounds on result sizes;
  - the order of ranked rows;
  - where markers are placed;
  - the colour-scale bounds.

Where two ways of computing the same table appear in the source, a lemma
shows they agree:
- the chart at line 343 reads the stored column, and gives the same
  per-city means as lines 288-291;
- the two ways of merging reviews with customers at lines 391-392 and
  450-456 give the same rows;
- the worst-10 chart shows the first ten averages of the bottom-30 table,
  whatever the order among ties at line 407;
- dropping 'not_defined' after grouping is the same as dropping it before.

The model follows pandas 2.2. Two facts depend on that version:
- an inner `merge` keeps the order of the left rows;
- a chained `df['col'].fillna(..., inplace=True)` (lines 56-57 and 63)
  writes through to the frame. Under copy-on-write, the default from
  pandas 3, it would leave the frame unchanged, and
  `Loaders.LoadedReviews` and `Loaders.LoadedProducts` would not hold.

## Model

| member | source | states |
|---|---|---|
| `Text.Title` | Dashboard/ecommerce-dashboard.py:21 | `str.title()` keeps the length and changes only the case of each character. |
| `Text.TitleIsTitled` | Dashboard/ecommerce-dashboard.py:21 | Every result of `title()` is title-cased: a letter after a cased letter is not upper case, and any other letter is not lower case. |
| `Text.TitleFixedIffTitled` | Dashboard/ecommerce-dashboard.py:21 | `title()` leaves a string unchanged exactly when it is already title-cased (both directions). |
| `Text.TitleIdempotent` | Dashboard/ecommerce-dashboard.py:21 | Title-casing twice is the same as title-casing once. |
| `Text.TitleUpToCase` | Dashboard/ecommerce-dashboard.py:27 | City names that differ only in letter case have the same title form. |
| `Frames.Frame.constructor` | Dashboard/ecommerce-dashboard.py:20 | After `read_csv`, the frame holds the parsed rows. |
| `Frames.Frame.Apply` | Dashboard/ecommerce-dashboard.py:21 | A whole-column assignment rewrites every row in place, in row order. |
| `Frames.Frame.DropDuplicates` | Dashboard/ecommerce-dashboard.py:28 | In-place de-duplication keeps each distinct row once, first copy first, and loses no distinct row. |
| `Loaders.LoadedCustomers` | Dashboard/ecommerce-dashboard.py:21 | The customer table has the same rows, with only the city changed, to a title-cased spelling of the same letters. |
| `Loaders.LoadCustomers` | Dashboard/ecommerce-dashboard.py:19-22 | The loader's frame ends up holding exactly the normalised customer table. |
| `Loaders.LoadedGeolocation` | Dashboard/ecommerce-dashboard.py:27-28 | The geolocation rows are distinct. Every parsed row appears with its city title-cased, and every row is such a row. |
| `Loaders.LoadGeolocation` | Dashboard/ecommerce-dashboard.py:25-29 | Title-casing and then de-duplicating in place gives the normalised geolocation table. |
| `Loaders.CaseVariantsMerge` | Dashboard/ecommerce-dashboard.py:27-28 | Two parsed rows that differ only in the case of the city leave exactly one row after loading. |
| `Loaders.CasingBeforeDedup` | Dashboard/ecommerce-dashboard.py:27-28 | The order of the two steps matters: de-duplicating before casing would keep two identical rows where loading keeps one. |
| `Loaders.CaseVariantsExist` | Dashboard/ecommerce-dashboard.py:27 | Such rows exist: `SAO PAULO` and `sao paulo` are different but title-case alike. |
| `Loaders.LoadedReviews` | Dashboard/ecommerce-dashboard.py:56-57 | No review is left with an empty comment title or message. An empty one becomes 'No Comments' and a present one is kept. Nothing else changes. |
| `Loaders.LoadReviews` | Dashboard/ecommerce-dashboard.py:52-58 | The two in-place `fillna` calls give the normalised review table. |
| `Loaders.LoadedProducts` | Dashboard/ecommerce-dashboard.py:63 | No product is left without a category. An empty one becomes 'Other Categories' and a present one is kept. |
| `Loaders.LoadProducts` | Dashboard/ecommerce-dashboard.py:61-64 | The in-place `fillna` gives the normalised product table. |
| `Loaders.LoadedSellers` | Dashboard/ecommerce-dashboard.py:73 | The seller table has the same rows, with only the city changed, to a title-cased spelling of the same letters. |
| `Loaders.LoadSellers` | Dashboard/ecommerce-dashboard.py:71-74 | The loader's frame ends up holding exactly the normalised seller table. |
| `Tables.Join` | Dashboard/ecommerce-dashboard.py:208 | A pair is in an inner merge exactly when its left row and right row are in their tables and their keys are equal. |
| `Tables.JoinUniqueRight` | Dashboard/ecommerce-dashboard.py:208 | With unique right keys, the merge keeps exactly the left rows whose key occurs on the right, once each and in order. |
| `Tables.JoinUniqueBoth` | Dashboard/ecommerce-dashboard.py:300 | With unique keys on both sides, the merge has unique keys and no more rows than the smaller table. |
| `Tables.JoinAssoc` | Dashboard/ecommerce-dashboard.py:450-456 | Merging (a with b) with c gives the rows of merging a with (b with c), in the same order, regrouped. |
| `Tables.Take` | Dashboard/ecommerce-dashboard.py:217 | `head(n)` gives the first min(n, length) rows, in order. |
| `Tables.Last` | Dashboard/ecommerce-dashboard.py:218 | `tail(n)` gives the last min(n, length) rows, in order. |
| `Tables.Dedup` | Dashboard/ecommerce-dashboard.py:28 | `drop_duplicates` gives distinct rows, keeps every distinct row of its input, and never adds rows. |
| `Tables.DedupOrder` | Dashboard/ecommerce-dashboard.py:28 | `drop_duplicates` keeps the first copy of each row: the kept rows appear in the order of their first occurrences. |
| `Aggregates.GroupBy` | Dashboard/ecommerce-dashboard.py:211 | `groupby` gives one group per label that occurs, in strictly ascending label order. Each group holds that label's statistics. |
| `Aggregates.NullIgnored` | Dashboard/ecommerce-dashboard.py:291 | A row with a NaN value adds to its group's size but not to its count or its mean. |
| `Aggregates.GroupByFilter` | Dashboard/ecommerce-dashboard.py:401-404 | Grouping the rows whose label is in S gives the groups of the whole table whose label is in S. |
| `Aggregates.ValueCounts` | Dashboard/ecommerce-dashboard.py:537 | `value_counts` lists each value that occurs exactly once, with its number of occurrences, most frequent first. |
| `Aggregates.MeanBounds` | Dashboard/ecommerce-dashboard.py:294-297 | The mean of values that all lie in [lo, hi] lies in [lo, hi]. |
| `Ranking.SortDesc` | Dashboard/ecommerce-dashboard.py:214 | The descending sort is non-increasing and is a permutation of its input. |
| `Ranking.SortDescStable` | Dashboard/ecommerce-dashboard.py:307 | The descending sort keeps the input order among rows with equal keys. |
| `Ranking.RankFacts` | Dashboard/ecommerce-dashboard.py:307 | The ranking `nlargest` cuts is a permutation of the table: every row with a value comes before every NaN row, and the rows with values are non-increasing. |
| `Ranking.NLargest` | Dashboard/ecommerce-dashboard.py:307 | `nlargest(n)` returns min(n, number of rows) rows of its input, each no more often than in the input. Rows with values come first, non-increasing, and NaN rows only after them, so NaN rows fill up the result when fewer than n rows have values. No row with a value that is left out is larger than a row kept. |
| `Ranking.NLargestTies` | Dashboard/ecommerce-dashboard.py:344 | keep='first': the kept rows with a given value are the first rows of the table with that value, in row order. The kept NaN rows are likewise the first NaN rows. |
| `Ranking.NSmallest` | Dashboard/ecommerce-dashboard.py:464 | `nsmallest(n)` returns min(n, number of rows) rows of its input, each no more often than in the input. Rows with values come first, non-decreasing, and NaN rows only after them. No row with a value that is left out is smaller than a row kept. |
| `Ranking.NSmallestTies` | Dashboard/ecommerce-dashboard.py:464 | keep='first' for `nsmallest`: the kept rows with a given value, and the kept NaN rows, are the first such rows of the table, in row order. |
| `Ranking.NSmallestPrefix` | Dashboard/ecommerce-dashboard.py:464 | The m smallest rows are the first m of the n smallest, for m ≤ n. |
| `Ranking.SortedSameValues` | Dashboard/ecommerce-dashboard.py:407 | Two ascending orders of the same rows list the same values, whatever they do among ties. |
| `Ranking.NSmallestAnyOrder` | Dashboard/ecommerce-dashboard.py:407-410 | When every row has a value, `nsmallest(n)` lists the same values as the first n rows of any ascending `sort_values` of the table, stable or not. |
| `Ranking.ColourBounds` | Dashboard/ecommerce-dashboard.py:314 | The colour scale runs from the minimum to the maximum of the shown values. Both bounds are shown values, and every shown value lies between them. |
| `Schema.DeliveryDays` | Dashboard/ecommerce-dashboard.py:268-269 | Delivery days are the whole-day floor of delivered minus purchase. They are NaN exactly when either timestamp is missing. |
| `Schema.DeliveryDaysFloor` | Dashboard/ecommerce-dashboard.py:288 | Rounding is down: one second short of a day counts as 0 days, one second before purchase counts as -1, and a non-negative gap never gives negative days. |
| `CustomerDistribution.OrdersWithCity` | Dashboard/ecommerce-dashboard.py:208 | An order and a customer are paired exactly when they share a customer id. |
| `CustomerDistribution.OrdersWithCityKept` | Dashboard/ecommerce-dashboard.py:208 | With unique customer ids, the merge keeps exactly the orders whose customer is known, once each and in order. |
| `CustomerDistribution.CityOrderCounts` | Dashboard/ecommerce-dashboard.py:211 | There is one row per city of the joined orders, in ascending order. Each count is the number of joined orders in that city, and is positive. |
| `CustomerDistribution.ByCountDesc` | Dashboard/ecommerce-dashboard.py:214 | The sort by count is non-increasing and is a permutation of the count table. |
| `CustomerDistribution.Top15` | Dashboard/ecommerce-dashboard.py:217 | The 15 cities with the most orders; its contract is stated by `CustomerDistribution.TopCities`. |
| `CustomerDistribution.Bottom15` | Dashboard/ecommerce-dashboard.py:218 | The 15 cities with the fewest orders; its contract is stated by `CustomerDistribution.BottomCities`. |
| `CustomerDistribution.TopCities` | Dashboard/ecommerce-dashboard.py:217 | `head(15)` holds min(15, n) rows of the count table. No city left out has more orders than a city kept. |
| `CustomerDistribution.BottomCities` | Dashboard/ecommerce-dashboard.py:218 | `tail(15)` holds min(15, n) rows of the count table. No city left out has fewer orders than a city kept. |
| `CustomerDistribution.TopAboveBottom` | Dashboard/ecommerce-dashboard.py:214-218 | With unique cities and at least 30 of them, the two lists are disjoint. Every top city has at least as many orders as every bottom city. |
| `CustomerDistribution.FirstWithCity` | Dashboard/ecommerce-dashboard.py:226-228 | The lookup finds nothing exactly when no geolocation row has that exact city name. Otherwise it returns the first such row. |
| `CustomerDistribution.PlaceMarkers` | Dashboard/ecommerce-dashboard.py:225-236 | The marker loop places a marker for exactly the listed cities that have a geolocation row, in list order, at that city's first row. |
| `CustomerDistribution.MarkersPlaced` | Dashboard/ecommerce-dashboard.py:225-250 | Each marker names a listed city with its order count and stands at the first geolocation row of that exact name. There are no more markers than listed cities. |
| `CustomerDistribution.CustomerPage` | Dashboard/ecommerce-dashboard.py:208-250 | The page gives the top and bottom lists (at most 15 each) and their markers (no more than the cities listed). |
| `Delivery.HistogramDays` | Dashboard/ecommerce-dashboard.py:273 | The histogram counts exactly the defined day counts in [0, 180], each as often as it occurs. NaN is never counted. |
| `Delivery.OrdersFrame.constructor` | Dashboard/ecommerce-dashboard.py:79 | The shared orders table starts without a delivery-time column. |
| `Delivery.OrdersFrame.AddDeliveryTime` | Dashboard/ecommerce-dashboard.py:268-269 | Adding the column changes no order row. The column holds each order's delivery days, one cell per order. |
| `Delivery.OrdersFrame.LongestDeliveryTimes` | Dashboard/ecommerce-dashboard.py:342-344 | The chart can only run once the column exists. It gives `nlargest(10)` of the per-city means of the stored column, where a city with no delivered order has a NaN mean and ranks last. |
| `Delivery.ColumnMeans` | Dashboard/ecommerce-dashboard.py:342-343 | The per-city means of the stored column; `Delivery.ColumnAgrees` shows they equal the means of lines 288-291. |
| `Delivery.CityDeliveryTimes` | Dashboard/ecommerce-dashboard.py:287-291 | There is one group per city of the joined orders, in ascending order, each holding that city's statistics. |
| `Delivery.CityDeliveryStats` | Dashboard/ecommerce-dashboard.py:288-291 | A city's size is its number of orders, its count is its number of delivered orders, and its mean is over the delivered orders' days alone. |
| `Delivery.Centroids` | Dashboard/ecommerce-dashboard.py:294-297 | Exactly one centroid per geolocation city, in ascending order. |
| `Delivery.CentroidIsMean` | Dashboard/ecommerce-dashboard.py:294-297 | A centroid's latitude and longitude are the arithmetic means over that city's samples, of which there is at least one. |
| `Delivery.CentroidInBox` | Dashboard/ecommerce-dashboard.py:294-297 | A centroid lies inside every box that holds all of its city's samples. |
| `Delivery.WithCentroids` | Dashboard/ecommerce-dashboard.py:300 | The merge of the per-city means with the centroids; `Delivery.MergeCities` and `Delivery.WithCentroidsCities` state its rows. |
| `Delivery.DropGeoCity` | Dashboard/ecommerce-dashboard.py:303 | Dropping `geolocation_city` keeps the city, its mean and its centroid coordinates. |
| `Delivery.MergeCities` | Dashboard/ecommerce-dashboard.py:300 | Merging two tables with one row per city gives at most one row per city, no more rows than either table, and only pairs of same-city rows. |
| `Delivery.WithCentroidsCities` | Dashboard/ecommerce-dashboard.py:300 | The merged table has one row per city, and only cities that have both orders and geolocation rows. |
| `Delivery.ShownFacts` | Dashboard/ecommerce-dashboard.py:307 | The map shows min(30, number of merged rows) rows of the merged table, each city once. Cities with averages come first, slowest first, and cities whose average is NaN only after them. No city with an average that is left out is slower than a city shown. |
| `Delivery.ShownBounds` | Dashboard/ecommerce-dashboard.py:314 | The colour scale skips NaN: it has bounds exactly when some shown city has an average, and every shown average lies between them. |
| `Delivery.SlowestCitiesFacts` | Dashboard/ecommerce-dashboard.py:300-307 | Every city on the delivery map has orders and geolocation rows, and comes from a table with one row per city. |
| `Delivery.SlowestCities` | Dashboard/ecommerce-dashboard.py:300-307 | The 30 slowest cities with their centroids; `Delivery.ShownFacts` and `Delivery.SlowestCitiesFacts` state its rows. |
| `Delivery.ColumnAgrees` | Dashboard/ecommerce-dashboard.py:342-343 | The per-city means read from the stored column equal those computed at lines 288-291. |
| `Delivery.DeliveryPage` | Dashboard/ecommerce-dashboard.py:268-344 | The page adds the column without changing the orders. It then gives the histogram, the 30-city map with its colour bounds, and the 10-city chart. |
| `Reviews.ScoreDistribution` | Dashboard/ecommerce-dashboard.py:368 | There is one bar per score that occurs, in strictly ascending score order. Each bar holds the number of reviews with that score. |
| `Reviews.ReviewsWithCity` | Dashboard/ecommerce-dashboard.py:391-392 | A review, order and customer are combined exactly when the review's order id and the order's customer id match. |
| `Reviews.WellReviewed` | Dashboard/ecommerce-dashboard.py:395-398 | A city is well reviewed exactly when it has at least 5 reviews. |
| `Reviews.CityAvgRatings` | Dashboard/ecommerce-dashboard.py:401-404 | The per-city averages of the well-reviewed cities; `Reviews.CityAvgRatingsFilter` and `Reviews.CityAvgRatingsFacts` state its groups. |
| `Reviews.Bottom30` | Dashboard/ecommerce-dashboard.py:407-410 | The 30 lowest averages; `Reviews.Bottom30Facts` and `Reviews.Bottom30Excluded` state its rows. |
| `Reviews.CityAvgRatingsFilter` | Dashboard/ecommerce-dashboard.py:401-404 | Filtering the reviews to well-reviewed cities and then grouping equals grouping and then keeping the well-reviewed cities' groups. |
| `Reviews.CityAvgRatingsFacts` | Dashboard/ecommerce-dashboard.py:404 | Every averaged city has at least 5 reviews, and its group holds the statistics of all of its reviews. |
| `Reviews.Bottom30Facts` | Dashboard/ecommerce-dashboard.py:407-410 | The bottom 30 has min(30, number of qualifying cities) rows. Each has at least 5 reviews and the average of all of them. |
| `Reviews.Bottom30Excluded` | Dashboard/ecommerce-dashboard.py:407-410 | A well-reviewed city left out of the bottom 30 has an average no lower than that of any city kept. |
| `Reviews.RatingMap` | Dashboard/ecommerce-dashboard.py:413 | The bottom 30 merged with the centroids; `Reviews.RatingMapFacts` states its rows. |
| `Reviews.RatingMapFacts` | Dashboard/ecommerce-dashboard.py:413 | The map holds the bottom-30 cities that have geolocation rows, in the same order, so at most 30 and possibly fewer. Each has at least 5 reviews, its average and its centroid. |
| `Reviews.RatingJoinsAgree` | Dashboard/ecommerce-dashboard.py:450-456 | The nested merge gives the same (city, score) rows, in the same order, as the chained merge at lines 391-392. |
| `Reviews.CityReviews` | Dashboard/ecommerce-dashboard.py:458-463 | The per-city statistics of cities with at least 5 reviews; `Reviews.CityReviewsAgree` shows they equal `Reviews.CityAvgRatings`. |
| `Reviews.Worst10` | Dashboard/ecommerce-dashboard.py:464 | The 10 lowest averages; `Reviews.Worst10Facts` states its rows. |
| `Reviews.Worst10Facts` | Dashboard/ecommerce-dashboard.py:458-464 | The worst-10 chart has min(10, number of cities with at least 5 reviews) cities. Each has at least 5 reviews and the statistics of all of them. |
| `Reviews.CityReviewsAgree` | Dashboard/ecommerce-dashboard.py:458-463 | Grouping first and then keeping cities with count ≥ 5 gives the same groups as filtering the reviews first. |
| `Reviews.Worst10OfBottom30` | Dashboard/ecommerce-dashboard.py:464 | With the stable order among equal averages at line 407, the worst-10 chart is the first 10 rows of the bottom-30 table. |
| `Reviews.AnyTieOrder` | Dashboard/ecommerce-dashboard.py:407-464 | For any ascending order of the averaged cities at line 407, stable or not, the bottom 30 and the worst 10 list the same averages as its first 30 and first 10 rows. |
| `Reviews.ReviewsPage` | Dashboard/ecommerce-dashboard.py:368-464 | The page gives the score bars, the map with its colour bounds, and the worst-10 chart. Under the stable order at line 407, the chart equals the first 10 of the bottom 30. |
| `Products.ProductsWithCategory` | Dashboard/ecommerce-dashboard.py:486-490 | An item, product and translation are combined exactly when the product ids match and the product's category has that translation. |
| `Products.CategoryOrders` | Dashboard/ecommerce-dashboard.py:496 | `value_counts` of the English category names; `Products.CategoryOrdersFacts` states its rows. |
| `Products.TopCategories` | Dashboard/ecommerce-dashboard.py:496 | The 10 categories with the most items; `Products.TopCategoriesFacts` states its rows. |
| `Products.BottomCategories` | Dashboard/ecommerce-dashboard.py:514 | The 10 categories with the fewest items; `Products.BottomCategoriesFacts` states its rows. |
| `Products.CategoryOrdersFacts` | Dashboard/ecommerce-dashboard.py:496 | There is one row per English category of the merged items, with its number of items, most items first. |
| `Products.TopCategoriesFacts` | Dashboard/ecommerce-dashboard.py:496 | The top 10 are min(10, n) category rows. No category left out has more items than one kept. |
| `Products.BottomCategoriesFacts` | Dashboard/ecommerce-dashboard.py:514 | The bottom 10 are min(10, n) category rows. No category left out has fewer items than one kept. |
| `Products.OtherCategoriesDropped` | Dashboard/ecommerce-dashboard.py:486-490 | When no translation is named 'Other Categories', no merged row uses a product whose category was empty when loaded. |
| `Payments.PaymentDistributionFacts` | Dashboard/ecommerce-dashboard.py:537-538 | The pie has a slice for a payment type exactly when the type has more than 1000 rows. Each slice holds that row count, largest first. |
| `Payments.PaymentDistribution` | Dashboard/ecommerce-dashboard.py:537-538 | The pie's slices; `Payments.PaymentDistributionFacts` states them. |
| `Payments.AveragePurchaseKeys` | Dashboard/ecommerce-dashboard.py:553-554 | The average table has one row per payment type except 'not_defined', in ascending order. |
| `Payments.AverageOfType` | Dashboard/ecommerce-dashboard.py:553 | Each type's average is the sum of its payment values over its (non-zero) number of payments. |
| `Payments.AveragePurchase` | Dashboard/ecommerce-dashboard.py:553-554 | The average payment per type; `Payments.AveragePurchaseKeys`, `Payments.AverageOfType` and `Payments.NotDefinedBeforeGrouping` state its rows. |
| `Payments.NotDefinedBeforeGrouping` | Dashboard/ecommerce-dashboard.py:553-554 | Dropping 'not_defined' after grouping gives the groups of the payments without it. |

## Left out

- Rendering: the Streamlit page setup, sidebar, CSS and images, markdown
  text, folium maps, plotly charts and the page radio. These are library
  calls with no data logic.
- The overview tiles (lines 164-173): `nunique` counts and two means that
  are only displayed, formatted with `:.2f`.
- `st.cache_data` memoisation. The model loads each table once.
- `read_csv` and `to_datetime`. These are file input and a foreign parser.
  Their output is taken as given: typed rows, with timestamps as integer
  seconds and `Option` where a cell may be empty.
- The missing-file handler (lines 88-101). The unguarded loads at lines
  77-85 run first, so a missing file raises before the handler can be
  reached.
- Colour interpolation inside `LinearColormap`. Only its `vmin`/`vmax`
  bounds are modelled. When no shown row has a value the model gives no
  bounds (`None`), where pandas would pass NaN. The popup and colour of a
  shown row whose average is NaN are not modelled.
- Floating point. Coordinates, payment values and means are exact reals.
  The `:.2f` popups are not modelled.
- The drawing half of the marker loops (lines 229-236 and 243-250) and the
  loops at lines 318-326 and 424-432. Where a marker goes is modelled, but
  not its drawing.
- `Text.Title`: it follows Python's `str.title` only for ASCII and the
  Latin-1 letters with a one-to-one case pair. Other characters (ß, ÿ, µ,
  ª, º, and everything from U+0100 on) are treated as uncased and kept
  as they are.
- `CustomerDistribution.ByCountDesc`: the source's `sort_values` at line
  214 is not stable, so its order among cities with equal counts is
  unspecified. The model picks the stable order. The top-15 and bottom-15
  facts are proved for that order. They would hold for any order among
  ties, but which of two cities with equal counts gets listed is not
  something the source promises. The same holds for the
  sort inside `value_counts`.
- `Reviews.Worst10OfBottom30`: the sort at line 407 is unstable too. It is
  modelled as `nsmallest(30)`, which keeps equal averages in row order.
  The equality of rows holds for that order only: with another order
  among cities tied at the tenth average, line 464 can pick other cities.
  What holds for every order is stated by `Reviews.AnyTieOrder`: the two
  lists show the same averages.
- `Reviews.ReviewsPage`: its last ensures rests on the same chosen order at
  line 407, for the same reason.
- `Ranking.NLargest` and `Ranking.NSmallest`: when n is at least the number
  of rows, pandas does not rank by keep='first' but returns
  `sort_values(...).head(n)`, whose order among ties is unspecified. The
  model keeps the keep='first' order in that case as well.
- `Tables.Join`: pandas's exact row order for a many-to-many merge is
  modelled as a nested loop, left rows in order and their right matches in
  order. A merge is bounded by its smaller input only when both key
  columns are unique, and only that case is proved (`Tables.JoinUniqueBoth`).
- Join keys are never NaN in the model. pandas would match NaN keys with
  each other.
- The product size, weight and photo columns and the order-item prices and
  freight: no page reads them. The seller table is loaded and normalised
  but read by no page either.
- `Delivery.DropGeoCity`: `drop(columns=['geolocation_city'])` at line 303
  is a projection of each merged row. The `rename` at line 304 maps every
  column name to itself and so is not modelled.
