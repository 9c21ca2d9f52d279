/** The catalogue view model of the shop page: effective price and mean rating,
    price-range statistics, per-category and per-colour counts, the filter
    predicate, the key-selected stable sort and fixed-size pagination. */
module Catalog {
  import opened Wrappers
  import Seqs
  import StableSort

  datatype Review = Review(rating: Option<int>)

  /** One listing entry: a product together with one of its variants. */
  datatype ShopProduct = ShopProduct(
    productId: Option<string>,
    productName: Option<string>,
    productDescription: Option<string>,
    productCreatedAt: Option<int>,
    categoryId: Option<string>,
    categoryName: Option<string>,
    variantId: Option<string>,
    variantPrice: Option<int>,
    variantDiscountPrice: Option<int>,
    variantSku: Option<string>,
    colorId: Option<string>,
    colorName: Option<string>,
    variantCreatedAt: Option<int>,
    mainImageUrl: Option<string>,
    images: Option<seq<string>>,
    reviews: Option<seq<Review>>)

  /** A creation time in milliseconds; an absent or empty timestamp counts as 0. */
  function Time(t: Option<int>): int {
    t.GetOr(0)
  }

  // ---------------------------------------------------------------- price

  /** The discount wins exactly when it is positive and below the base price. */
  function EffectivePrice(base: int, discount: int): (price: int)
    ensures price < base <==> 0 < discount < base
    ensures price == base || (price == discount && 0 < discount < base)
    ensures base >= 0 ==> 0 <= price <= base
  {
    if discount > 0 && discount < base then discount else base
  }

  /** `getProductPrice`: absent prices count as 0. */
  function ProductPrice(p: ShopProduct): (price: int)
    ensures p.variantPrice.None? ==> price == 0
    ensures p.variantDiscountPrice.None? ==> price == p.variantPrice.GetOr(0)
    ensures price < p.variantPrice.GetOr(0) <==>
              p.variantDiscountPrice.Some? && 0 < p.variantDiscountPrice.value < p.variantPrice.GetOr(0)
    ensures price == p.variantPrice.GetOr(0) || Some(price) == p.variantDiscountPrice
    ensures !(p.variantDiscountPrice.Some? && 0 < p.variantDiscountPrice.value < p.variantPrice.GetOr(0)) ==>
              price == p.variantPrice.GetOr(0)
    ensures p.variantDiscountPrice.Some? && 0 < p.variantDiscountPrice.value < p.variantPrice.GetOr(0) ==>
              price == p.variantDiscountPrice.value
    ensures p.variantPrice.GetOr(0) >= 0 ==> 0 <= price <= p.variantPrice.GetOr(0)
  {
    EffectivePrice(p.variantPrice.GetOr(0), p.variantDiscountPrice.GetOr(0))
  }

  // --------------------------------------------------------------- rating

  function RatingOf(r: Review): int {
    r.rating.GetOr(0)
  }

  /** The `reduce` over the reviews: the sum of their ratings, absent = 0. */
  function SumRatings(rs: seq<Review>): int
    decreases |rs|
  {
    if rs == [] then 0 else SumRatings(rs[..|rs| - 1]) + RatingOf(rs[|rs| - 1])
  }

  /** `total / n` for a positive count. */
  function Mean(total: int, n: nat): (m: real)
    requires n > 0
    ensures m * (n as real) == total as real
  {
    total as real / n as real
  }

  /** `getProductRating`: the mean rating, 0 without reviews. */
  function ProductRating(p: ShopProduct): (avg: real)
    ensures p.reviews.GetOr([]) == [] ==> avg == 0.0
    ensures p.reviews.GetOr([]) != [] ==>
              avg * (|p.reviews.GetOr([])| as real) == SumRatings(p.reviews.GetOr([])) as real
  {
    var rs := p.reviews.GetOr([]);
    if |rs| == 0 then 0.0 else Mean(SumRatings(rs), |rs|)
  }

  lemma {:induction false} SumRatingsBounds(rs: seq<Review>, lo: int, hi: int)
    requires forall i :: 0 <= i < |rs| ==> lo <= RatingOf(rs[i]) <= hi
    ensures lo * |rs| <= SumRatings(rs) <= hi * |rs|
    decreases |rs|
  {
    if rs != [] {
      SumRatingsBounds(rs[..|rs| - 1], lo, hi);
      assert lo * |rs| == lo * (|rs| - 1) + lo;
      assert hi * |rs| == hi * (|rs| - 1) + hi;
    }
  }

  /** A mean of `n` values lies between bounds that hold for the total. */
  lemma MeanBetween(total: int, n: nat, lo: int, hi: int)
    requires n > 0 && lo * n <= total <= hi * n
    ensures lo as real <= Mean(total, n) <= hi as real
  {
    var q := Mean(total, n);
    assert (lo * n) as real == lo as real * n as real;
    assert (hi * n) as real == hi as real * n as real;
    assert (q - lo as real) * n as real == total as real - lo as real * n as real;
    assert (hi as real - q) * n as real == hi as real * n as real - total as real;
  }

  /** The mean lies between any lower and upper bound of the individual ratings
      (so between the least and the greatest rating). */
  lemma RatingBetween(p: ShopProduct, lo: int, hi: int)
    requires p.reviews.GetOr([]) != []
    requires forall i :: 0 <= i < |p.reviews.GetOr([])| ==> lo <= RatingOf(p.reviews.GetOr([])[i]) <= hi
    ensures lo as real <= ProductRating(p) <= hi as real
  {
    var rs := p.reviews.GetOr([]);
    SumRatingsBounds(rs, lo, hi);
    MeanBetween(SumRatings(rs), |rs|, lo, hi);
  }

  // ---------------------------------------------------------- price stats

  datatype PriceRange = PriceRange(min: int, max: int)

  function MinOf(xs: seq<int>): (m: int)
    requires |xs| > 0
    ensures m in xs && forall i :: 0 <= i < |xs| ==> m <= xs[i]
    decreases |xs|
  {
    if |xs| == 1 then xs[0]
    else
      var rest := MinOf(xs[1..]);
      assert forall i :: 1 <= i < |xs| ==> xs[i] == xs[1..][i - 1];
      if xs[0] <= rest then xs[0] else rest
  }

  function MaxOf(xs: seq<int>): (m: int)
    requires |xs| > 0
    ensures m in xs && forall i :: 0 <= i < |xs| ==> xs[i] <= m
    decreases |xs|
  {
    if |xs| == 1 then xs[0]
    else
      var rest := MaxOf(xs[1..]);
      assert forall i :: 1 <= i < |xs| ==> xs[i] == xs[1..][i - 1];
      if xs[0] >= rest then xs[0] else rest
  }

  /** `products.map(getProductPrice).filter((v) => v > 0)`. */
  function PositivePrices(ps: seq<ShopProduct>): (xs: seq<int>)
    ensures forall x :: x in xs ==> x > 0 && exists i :: 0 <= i < |ps| && ProductPrice(ps[i]) == x
    ensures forall i :: 0 <= i < |ps| && ProductPrice(ps[i]) > 0 ==> ProductPrice(ps[i]) in xs
  {
    var prices := seq(|ps|, i requires 0 <= i < |ps| => ProductPrice(ps[i]));
    var positive := (v: int) => v > 0;
    var xs := Seqs.Filter(prices, positive);
    assert forall i :: 0 <= i < |ps| ==> prices[i] == ProductPrice(ps[i]) && prices[i] in prices;
    assert forall i :: 0 <= i < |ps| && ProductPrice(ps[i]) > 0 ==> positive(prices[i]);
    xs
  }

  /** `priceStats`: the least and greatest positive effective price, or (0, 0). */
  function PriceStats(ps: seq<ShopProduct>): (r: PriceRange)
    ensures (forall i :: 0 <= i < |ps| ==> ProductPrice(ps[i]) <= 0) ==> r == PriceRange(0, 0)
    ensures (exists i :: 0 <= i < |ps| && ProductPrice(ps[i]) > 0) ==>
              && 0 < r.min <= r.max
              && (exists i :: 0 <= i < |ps| && ProductPrice(ps[i]) == r.min)
              && (exists i :: 0 <= i < |ps| && ProductPrice(ps[i]) == r.max)
    ensures forall i :: 0 <= i < |ps| && ProductPrice(ps[i]) > 0 ==> r.min <= ProductPrice(ps[i]) <= r.max
  {
    if |ps| == 0 then PriceRange(0, 0)
    else
      var prices := PositivePrices(ps);
      if |prices| == 0 then PriceRange(0, 0)
      else
        assert prices[0] in prices;
        assert forall x :: x in prices ==> exists j :: 0 <= j < |prices| && prices[j] == x;
        PriceRange(MinOf(prices), MaxOf(prices))
  }

  // --------------------------------------------------------------- counts

  datatype Facet = ByCategory | ByColor

  function FacetId(p: ShopProduct, f: Facet): Option<string> {
    match f
    case ByCategory => p.categoryId
    case ByColor => p.colorId
  }

  /** The number of products carrying the id `id` in facet `f`. */
  function Occurrences(ps: seq<ShopProduct>, f: Facet, id: string): nat
    decreases |ps|
  {
    if ps == [] then 0
    else Occurrences(ps[..|ps| - 1], f, id) + (if FacetId(ps[|ps| - 1], f) == Some(id) then 1 else 0)
  }

  /** `map.get(id) ?? 0`. */
  function CountFor(m: map<string, nat>, id: string): nat {
    if id in m then m[id] else 0
  }

  /** `categoryCounts` / `colorCounts`: the `Map` filled by the `forEach` loop. */
  method CountBy(ps: seq<ShopProduct>, f: Facet) returns (m: map<string, nat>)
    ensures forall id :: id != "" ==> CountFor(m, id) == Occurrences(ps, f, id)
    ensures "" !in m
    ensures forall id :: id in m ==> m[id] > 0
  {
    m := map[];
    var i := 0;
    while i < |ps|
      invariant 0 <= i <= |ps|
      invariant forall id :: id != "" ==> CountFor(m, id) == Occurrences(ps[..i], f, id)
      invariant "" !in m
      invariant forall id :: id in m ==> m[id] > 0
    {
      assert ps[..i + 1][..i] == ps[..i];
      var id := FacetId(ps[i], f);
      if id.Some? && id.value != "" {
        m := m[id.value := CountFor(m, id.value) + 1];
      }
      i := i + 1;
    }
    assert ps[..|ps|] == ps;
  }

  /** What the sidebar shows for a list of ids: an empty id always shows 0. */
  function TotalShown(ps: seq<ShopProduct>, f: Facet, ids: seq<string>): nat
    decreases |ids|
  {
    if ids == [] then 0
    else TotalShown(ps, f, ids[..|ids| - 1]) + (if ids[|ids| - 1] == "" then 0 else Occurrences(ps, f, ids[|ids| - 1]))
  }

  /** How many of `ids` the product `p` is counted under. */
  function Hits(p: ShopProduct, f: Facet, ids: seq<string>): nat
    decreases |ids|
  {
    if ids == [] then 0
    else Hits(p, f, ids[..|ids| - 1]) + (if ids[|ids| - 1] != "" && FacetId(p, f) == Some(ids[|ids| - 1]) then 1 else 0)
  }

  lemma {:induction false} HitsAtMostOne(p: ShopProduct, f: Facet, ids: seq<string>)
    requires Seqs.Distinct(ids)
    ensures Hits(p, f, ids) <= 1
  {
    if FacetId(p, f).Some? && FacetId(p, f).value != "" {
      HitsIsCount(p, f, ids);
      Seqs.DistinctCountAtMostOne(ids, FacetId(p, f).value);
    } else {
      HitsZero(p, f, ids);
    }
  }

  lemma {:induction false} HitsIsCount(p: ShopProduct, f: Facet, ids: seq<string>)
    requires FacetId(p, f).Some? && FacetId(p, f).value != ""
    ensures Hits(p, f, ids) == Seqs.CountOf(ids, FacetId(p, f).value)
    decreases |ids|
  {
    if ids != [] {
      HitsIsCount(p, f, ids[..|ids| - 1]);
    }
  }

  lemma {:induction false} HitsZero(p: ShopProduct, f: Facet, ids: seq<string>)
    requires !(FacetId(p, f).Some? && FacetId(p, f).value != "")
    ensures Hits(p, f, ids) == 0
    decreases |ids|
  {
    if ids != [] {
      HitsZero(p, f, ids[..|ids| - 1]);
    }
  }

  lemma {:induction false} TotalShownStep(ps: seq<ShopProduct>, f: Facet, ids: seq<string>)
    requires ps != []
    ensures TotalShown(ps, f, ids) == TotalShown(ps[..|ps| - 1], f, ids) + Hits(ps[|ps| - 1], f, ids)
    decreases |ids|
  {
    if ids != [] {
      TotalShownStep(ps, f, ids[..|ids| - 1]);
    }
  }

  /** Each product is counted under at most one of a list of distinct ids, and
      products without an id under none, so the counts shown sum to at most the
      number of products. */
  lemma {:induction false} CountsBounded(ps: seq<ShopProduct>, f: Facet, ids: seq<string>)
    requires Seqs.Distinct(ids)
    ensures TotalShown(ps, f, ids) <= |ps|
    decreases |ps|
  {
    if ps == [] {
      TotalShownEmpty(f, ids);
    } else {
      CountsBounded(ps[..|ps| - 1], f, ids);
      TotalShownStep(ps, f, ids);
      HitsAtMostOne(ps[|ps| - 1], f, ids);
    }
  }

  lemma {:induction false} TotalShownEmpty(f: Facet, ids: seq<string>)
    ensures TotalShown([], f, ids) == 0
    decreases |ids|
  {
    if ids != [] {
      TotalShownEmpty(f, ids[..|ids| - 1]);
    }
  }

  // --------------------------------------------------------------- filter

  /** The selection the filter reads. */
  datatype Criteria = Criteria(categoryId: string, colorId: string, minPrice: int, maxPrice: int, rating: int)

  const AllIds := "all"

  /** The `filter` callback, guard by guard. A price bound of 0 is falsy, i.e. no bound. */
  predicate Keeps(c: Criteria, p: ShopProduct) {
    if c.categoryId != AllIds && p.categoryId != Some(c.categoryId) then false
    else if c.colorId != AllIds && p.colorId != Some(c.colorId) then false
    else
      var price := ProductPrice(p);
      if c.minPrice != 0 && price < c.minPrice then false
      else if c.maxPrice != 0 && price > c.maxPrice then false
      else if c.rating > 0 && ProductRating(p) < c.rating as real then false
      else true
  }

  /** The guards are independent conditions joined by AND: their order does not matter. */
  lemma KeepsIsConjunction(c: Criteria, p: ShopProduct)
    ensures Keeps(c, p) <==>
      && (c.categoryId == AllIds || p.categoryId == Some(c.categoryId))
      && (c.colorId == AllIds || p.colorId == Some(c.colorId))
      && (c.minPrice == 0 || c.minPrice <= ProductPrice(p))
      && (c.maxPrice == 0 || ProductPrice(p) <= c.maxPrice)
      && (c.rating <= 0 || c.rating as real <= ProductRating(p))
  {
  }

  function KeepsFn(c: Criteria): ShopProduct -> bool {
    p => Keeps(c, p)
  }

  /** `products.filter(...)`: an order-preserving selection of exactly the kept items. */
  function FilterProducts(ps: seq<ShopProduct>, c: Criteria): (r: seq<ShopProduct>)
    ensures Seqs.Subseq(r, ps)
    ensures forall x :: x in r ==> x in ps && Keeps(c, x)
    ensures forall x :: x in ps && Keeps(c, x) ==> x in r
    ensures forall x :: x in ps ==> multiset(r)[x] == if Keeps(c, x) then multiset(ps)[x] else 0
  {
    Seqs.Filter(ps, KeepsFn(c))
  }

  // ----------------------------------------------------------------- sort

  /** The comparator `(a, b) => Rank(a) - Rank(b)` of each sort key. */
  function Rank(sortBy: string, p: ShopProduct): real {
    if sortBy == "price_asc" then ProductPrice(p) as real
    else if sortBy == "price_desc" then -(ProductPrice(p) as real)
    else if sortBy == "rating_desc" then -ProductRating(p)
    else -(Time(p.productCreatedAt) as real)
  }

  function RankBy(sortBy: string): ShopProduct -> real {
    p => Rank(sortBy, p)
  }

  /** The `sort` applied to the filter result. */
  function SortProducts(ps: seq<ShopProduct>, sortBy: string): seq<ShopProduct> {
    StableSort.Sort(ps, RankBy(sortBy))
  }

  /** The sorted list is a permutation, ordered by the selected key. */
  lemma SortProductsOrder(ps: seq<ShopProduct>, sortBy: string)
    ensures multiset(SortProducts(ps, sortBy)) == multiset(ps)
    ensures sortBy == "price_asc" ==> forall i, j :: 0 <= i < j < |ps| ==>
              ProductPrice(SortProducts(ps, sortBy)[i]) <= ProductPrice(SortProducts(ps, sortBy)[j])
    ensures sortBy == "price_desc" ==> forall i, j :: 0 <= i < j < |ps| ==>
              ProductPrice(SortProducts(ps, sortBy)[i]) >= ProductPrice(SortProducts(ps, sortBy)[j])
    ensures sortBy == "rating_desc" ==> forall i, j :: 0 <= i < j < |ps| ==>
              ProductRating(SortProducts(ps, sortBy)[i]) >= ProductRating(SortProducts(ps, sortBy)[j])
    ensures sortBy != "price_asc" && sortBy != "price_desc" && sortBy != "rating_desc" ==>
              forall i, j :: 0 <= i < j < |ps| ==>
                Time(SortProducts(ps, sortBy)[i].productCreatedAt) >= Time(SortProducts(ps, sortBy)[j].productCreatedAt)
  {
    var r := SortProducts(ps, sortBy);
    StableSort.SortPermutes(ps, RankBy(sortBy));
    StableSort.SortIsSorted(ps, RankBy(sortBy));
    assert forall i, j :: 0 <= i < j < |r| ==> Rank(sortBy, r[i]) <= Rank(sortBy, r[j]);
  }

  /** Ties keep the filter's order: the items of any one rank appear in input order. */
  lemma SortProductsStable(ps: seq<ShopProduct>, sortBy: string, k: real)
    ensures StableSort.WithRank(SortProducts(ps, sortBy), RankBy(sortBy), k)
         == StableSort.WithRank(ps, RankBy(sortBy), k)
  {
    StableSort.SortIsStable(ps, RankBy(sortBy), k);
  }

  // ----------------------------------------------------------- pagination

  const PageSize: nat := 24

  /** `Math.max(1, Math.ceil(n / pageSize))`. */
  function TotalPages(n: nat): (t: nat)
    ensures t >= 1
    ensures n <= t * PageSize
    ensures n == 0 ==> t == 1
    ensures n > 0 ==> (t - 1) * PageSize < n
  {
    var ceil := (n + PageSize - 1) / PageSize;
    if ceil < 1 then 1 else ceil
  }

  /** `Math.min(page, totalPages)`. */
  function CurrentPage(page: int, total: nat): (c: int)
    ensures c <= total && c <= page
    ensures c == page || c == total
  {
    if page < total then page else total
  }

  /** `Array.prototype.slice(start, end)` for non-negative bounds: both clamp to the length. */
  function Slice<T>(s: seq<T>, start: nat, end: nat): (r: seq<T>)
    ensures |r| <= if end >= start then end - start else 0
    ensures start <= end <= |s| ==> r == s[start..end]
    ensures start <= |s| <= end ==> r == s[start..]
    ensures |s| <= start ==> r == []
    ensures start < end && start < |s| ==> r != []
  {
    var lo := if start < |s| then start else |s|;
    var hi := if end < |s| then end else |s|;
    if hi <= lo then [] else s[lo..hi]
  }

  /** `pagedProducts`: the slice of page `current` (pages are 1-based). */
  function PageOf<T>(s: seq<T>, current: int): (r: seq<T>)
    requires current >= 1
    ensures |r| <= PageSize
  {
    Slice(s, (current - 1) * PageSize, (current - 1) * PageSize + PageSize)
  }

  /** Pages 1..k laid end to end. */
  function Pages<T>(s: seq<T>, k: nat): seq<T> {
    if k == 0 then [] else Pages(s, k - 1) + PageOf(s, k)
  }

  lemma {:induction false} PagesArePrefix<T>(s: seq<T>, k: nat)
    ensures Pages(s, k) == s[..if k * PageSize < |s| then k * PageSize else |s|]
  {
    if k > 0 {
      PagesArePrefix(s, k - 1);
      var a := (k - 1) * PageSize;
      var b := k * PageSize;
      assert b == a + PageSize;
      if b <= |s| {
        assert s[..b] == s[..a] + s[a..b];
      } else if a <= |s| {
        assert s[..|s|] == s[..a] + s[a..];
      }
    }
  }

  /** Pages 1..totalPages reconstruct the sorted list exactly, every page holds
      at most 24 items, every page in range is non-empty for a non-empty list,
      and an empty list has one empty page. */
  lemma PaginationCovers<T>(s: seq<T>)
    ensures Pages(s, TotalPages(|s|)) == s
    ensures forall c :: 1 <= c <= TotalPages(|s|) && |s| > 0 ==> PageOf(s, c) != []
    ensures |s| == 0 ==> TotalPages(|s|) == 1 && PageOf(s, 1) == []
  {
    var t := TotalPages(|s|);
    PagesArePrefix(s, t);
    assert s[..|s|] == s;
    forall c | 1 <= c <= t && |s| > 0 ensures PageOf(s, c) != [] {
      PageInRange(|s|, c);
    }
    if |s| == 0 {
      assert PageOf(s, 1) == Slice(s, 0, PageSize);
    }
  }

  lemma PageInRange(n: nat, c: int)
    requires n > 0 && 1 <= c <= TotalPages(n)
    ensures (c - 1) * PageSize < n
  {
    var t := TotalPages(n);
    assert (c - 1) * PageSize <= (t - 1) * PageSize;
  }

  // --------------------------------------------------- the initial bounds

  /** The criteria after a reset: everything, newest first, bounds from `priceStats`. */
  function ResetCriteria(ps: seq<ShopProduct>): Criteria {
    Criteria(AllIds, AllIds, PriceStats(ps).min, PriceStats(ps).max, 0)
  }

  /** With the initial price bounds every positively priced item is shown, and
      items priced 0 or less are hidden as soon as some price is positive. */
  lemma ResetCriteriaKeeps(ps: seq<ShopProduct>, i: nat)
    requires i < |ps|
    ensures Keeps(ResetCriteria(ps), ps[i]) <==> ProductPrice(ps[i]) > 0 || PriceStats(ps) == PriceRange(0, 0)
  {
    if ProductPrice(ps[i]) > 0 {
      assert exists j :: 0 <= j < |ps| && ProductPrice(ps[j]) > 0;
    } else if exists j :: 0 <= j < |ps| && ProductPrice(ps[j]) > 0 {
      assert PriceStats(ps).min > 0;
    } else {
      assert PriceStats(ps) == PriceRange(0, 0);
    }
  }
}
