/** The shop page's filter state and its handlers: seven `useState` fields
    (category, colour, rating, minPrice, maxPrice, sortBy, page) and the view
    derived from them on every render. */
module ShopShell {
  import opened Wrappers
  import opened Catalog
  import StableSort

  /** The seven fields, as one value. */
  datatype FilterState = FilterState(
    categoryId: string, colorId: string, rating: int,
    minPrice: int, maxPrice: int, sortBy: string, page: int)

  class Shell {
    const products: seq<ShopProduct>
    const priceStats: PriceRange
    var categoryId: string
    var colorId: string
    var rating: int
    var minPrice: int
    var maxPrice: int
    var sortBy: string
    var page: int

    /** `page` never drops below 1; `priceStats` is the memo of the products. */
    ghost predicate Valid()
      reads this
    {
      page >= 1 && priceStats == PriceStats(products)
    }

    ghost function State(): FilterState
      reads this
    {
      FilterState(categoryId, colorId, rating, minPrice, maxPrice, sortBy, page)
    }

    /** The first render: `initialCategoryId ?? "all"`, newest first, page 1,
        price bounds from `priceStats`. */
    constructor (products: seq<ShopProduct>, initialCategoryId: Option<string>)
      ensures Valid()
      ensures this.products == products
      ensures State() == FilterState(initialCategoryId.GetOr(AllIds), AllIds, 0,
                                     PriceStats(products).min, PriceStats(products).max, "newest", 1)
    {
      this.products := products;
      var stats := PriceStats(products);
      priceStats := stats;
      sortBy := "newest";
      categoryId := initialCategoryId.GetOr(AllIds);
      colorId := AllIds;
      rating := 0;
      page := 1;
      minPrice := stats.min;
      maxPrice := stats.max;
    }

    function Criteria(): Catalog.Criteria
      reads this
    {
      Catalog.Criteria(categoryId, colorId, minPrice, maxPrice, rating)
    }

    /** `filteredProducts`: filtered, then sorted by `sortBy`. */
    function Filtered(): seq<ShopProduct>
      reads this
    {
      SortProducts(FilterProducts(products, Criteria()), sortBy)
    }

    function TotalPages(): nat
      reads this
    {
      Catalog.TotalPages(|Filtered()|)
    }

    function CurrentPage(): int
      reads this
    {
      Catalog.CurrentPage(page, TotalPages())
    }

    /** `pagedProducts`. */
    function PagedProducts(): seq<ShopProduct>
      reads this
      requires Valid()
    {
      PageOf(Filtered(), CurrentPage())
    }

    /** One render of the listing: filter, sort the fresh result array in place,
        clamp the page and slice it. */
    method RenderPage() returns (paged: seq<ShopProduct>, currentPage: int, totalPages: nat)
      requires Valid()
      ensures paged == PagedProducts()
      ensures currentPage == CurrentPage() && 1 <= currentPage <= totalPages
      ensures totalPages == TotalPages()
      ensures |paged| <= PageSize
    {
      var kept := FilterProducts(products, Criteria());
      var sorted := StableSort.SortedCopy(kept, RankBy(sortBy));
      totalPages := Catalog.TotalPages(|sorted|);
      currentPage := Catalog.CurrentPage(page, totalPages);
      paged := PageOf(sorted, currentPage);
    }

    /** `handleReset`. */
    method HandleReset()
      requires Valid()
      modifies this
      ensures Valid()
      ensures State() == FilterState(AllIds, AllIds, 0, priceStats.min, priceStats.max, "newest", 1)
    {
      categoryId := AllIds;
      colorId := AllIds;
      rating := 0;
      minPrice := priceStats.min;
      maxPrice := priceStats.max;
      sortBy := "newest";
      page := 1;
    }

    /** `handleCategoryChange`. */
    method HandleCategoryChange(next: string)
      requires Valid()
      modifies this
      ensures Valid()
      ensures State() == old(State()).(categoryId := next, page := 1)
    {
      categoryId := next;
      page := 1;
    }

    /** `handleColorChange`. */
    method HandleColorChange(next: string)
      requires Valid()
      modifies this
      ensures Valid()
      ensures State() == old(State()).(colorId := next, page := 1)
    {
      colorId := next;
      page := 1;
    }

    /** `handleRatingChange`. */
    method HandleRatingChange(next: int)
      requires Valid()
      modifies this
      ensures Valid()
      ensures State() == old(State()).(rating := next, page := 1)
    {
      rating := next;
      page := 1;
    }

    /** `handleSortChange`. */
    method HandleSortChange(next: string)
      requires Valid()
      modifies this
      ensures Valid()
      ensures State() == old(State()).(sortBy := next, page := 1)
    {
      sortBy := next;
      page := 1;
    }

    /** `handleMinPriceChange`. */
    method HandleMinPriceChange(next: int)
      requires Valid()
      modifies this
      ensures Valid()
      ensures State() == old(State()).(minPrice := next, page := 1)
    {
      minPrice := next;
      page := 1;
    }

    /** `handleMaxPriceChange`. */
    method HandleMaxPriceChange(next: int)
      requires Valid()
      modifies this
      ensures Valid()
      ensures State() == old(State()).(maxPrice := next, page := 1)
    {
      maxPrice := next;
      page := 1;
    }

    /** `handlePageChange`: `Math.min(Math.max(nextPage, 1), totalPages)`; nothing else changes. */
    method HandlePageChange(nextPage: int)
      requires Valid()
      modifies this
      ensures Valid()
      ensures 1 <= page <= TotalPages()
      ensures nextPage < 1 ==> page == 1
      ensures 1 <= nextPage <= old(TotalPages()) ==> page == nextPage
      ensures nextPage > old(TotalPages()) ==> page == old(TotalPages())
      ensures State() == old(State()).(page := page)
    {
      var total := TotalPages();
      var atLeastOne := if nextPage > 1 then nextPage else 1;
      page := if atLeastOne < total then atLeastOne else total;
    }

    /** The "all" button beside the category heading: `setCategoryId("all")`
        without resetting the page. */
    method ShowAllCategories()
      requires Valid()
      modifies this
      ensures Valid()
      ensures State() == old(State()).(categoryId := AllIds)
    {
      categoryId := AllIds;
    }
  }
}
