/** The data layer's reshaping of fetched product rows (each with nested
    variants, images, colour and category) into one listing entry per variant. */
module ProductRows {
  import opened Wrappers
  import Seqs
  import StableSort
  import opened Catalog

  datatype VariantImage = VariantImage(imageUrl: Option<string>, isMain: Option<bool>, createdAt: Option<int>)

  datatype VariantColor = VariantColor(name: Option<string>, hexCode: Option<string>)

  datatype Variant = Variant(
    id: Option<string>,
    price: Option<int>,
    discountPrice: Option<int>,
    sku: Option<string>,
    colorId: Option<string>,
    colors: Option<VariantColor>,
    variantImages: Option<seq<VariantImage>>,
    createdAt: Option<int>)

  datatype CategoryRef = CategoryRef(name: Option<string>)

  datatype ProductRow = ProductRow(
    id: string,
    name: Option<string>,
    description: Option<string>,
    isActive: Option<bool>,
    createdAt: Option<int>,
    categoryId: Option<string>,
    categories: Option<CategoryRef>,
    productVariants: Option<seq<Variant>>,
    reviews: Option<seq<Review>>)

  // ----------------------------------------------------------- pickImages

  datatype PickedImages = PickedImages(main: Option<string>, list: seq<string>)

  function IsMain(img: VariantImage): bool {
    img.isMain == Some(true)
  }

  /** Newest first: the comparator `bTime - aTime`. */
  function NewestFirst(img: VariantImage): real {
    -(Time(img.createdAt) as real)
  }

  /** `img.image_url`, with a missing URL read as the (falsy) empty string. */
  function UrlOf(img: VariantImage): string {
    img.imageUrl.GetOr("")
  }

  function UrlFn(): VariantImage -> string { img => UrlOf(img) }
  function NonEmptyFn(): string -> bool { u => u != "" }

  /** `sorted.map((img) => img.image_url).filter(Boolean)`: the present URLs, in
      image order, each as often as it occurs. */
  function PresentUrls(images: seq<VariantImage>): (urls: seq<string>)
    ensures Seqs.Subseq(urls, Seqs.Map(images, UrlFn()))
    ensures forall u :: u in urls ==> u != "" && exists i :: 0 <= i < |images| && images[i].imageUrl == Some(u)
    ensures forall i :: 0 <= i < |images| && images[i].imageUrl.Some? && images[i].imageUrl.value != "" ==>
              images[i].imageUrl.value in urls
    ensures forall u :: u != "" ==> multiset(urls)[u] == multiset(Seqs.Map(images, UrlFn()))[u]
    ensures |urls| <= |images|
  {
    var all := Seqs.Map(images, UrlFn());
    var urls := Seqs.Filter(all, NonEmptyFn());
    assert forall i :: 0 <= i < |images| ==> all[i] == UrlOf(images[i]);
    urls
  }

  /** The `find(is_main)?.image_url ?? images[0]?.image_url` rule. */
  function MainImage(images: seq<VariantImage>): (main: Option<string>)
    ensures images == [] ==> main == None
    ensures images != [] && (forall i :: 0 <= i < |images| ==> !IsMain(images[i])) ==> main == images[0].imageUrl
    ensures forall k :: 0 <= k < |images| && IsMain(images[k]) && (forall j :: 0 <= j < k ==> !IsMain(images[j])) ==>
              main == if images[k].imageUrl.Some? then images[k].imageUrl else images[0].imageUrl
  {
    match Seqs.FirstIndex(images, IsMain)
    case Some(k) => if images[k].imageUrl.Some? then images[k].imageUrl else Seqs.Head(images).value.imageUrl
    case None => if images == [] then None else images[0].imageUrl
  }

  /** `pickImages`: the main image and the newest-first URL list, from a sorted copy. */
  function PickImages(v: Variant): (r: PickedImages)
    ensures v.variantImages.GetOr([]) == [] ==> r == PickedImages(None, [])
    ensures r.main == MainImage(v.variantImages.GetOr([]))
    ensures |r.list| <= |v.variantImages.GetOr([])|
    ensures forall u :: u in r.list ==> u != "" && exists img :: img in v.variantImages.GetOr([]) && img.imageUrl == Some(u)
    ensures forall img :: img in v.variantImages.GetOr([]) && img.imageUrl.Some? && img.imageUrl.value != "" ==>
              img.imageUrl.value in r.list
    ensures forall u :: u != "" ==> multiset(r.list)[u] == multiset(Seqs.Map(v.variantImages.GetOr([]), UrlFn()))[u]
  {
    var images := v.variantImages.GetOr([]);
    if |images| == 0 then PickedImages(None, [])
    else
      var sorted := StableSort.Sort(images, NewestFirst);
      var list := PresentUrls(sorted);
      StableSort.SortPermutes(images, NewestFirst);
      forall u | u in list ensures exists img :: img in images && img.imageUrl == Some(u) {
        var i :| 0 <= i < |sorted| && sorted[i].imageUrl == Some(u);
        assert sorted[i] in multiset(sorted);
      }
      forall img | img in images && img.imageUrl.Some? && img.imageUrl.value != "" ensures img.imageUrl.value in list {
        assert img in multiset(sorted);
        var i :| 0 <= i < |sorted| && sorted[i] == img;
      }
      Seqs.MapMultiset(sorted, images, UrlFn());
      PickedImages(MainImage(images), list)
  }

  /** The list keeps the present URLs of the images ordered newest first
      (a permutation of the input; equal times keep their input order), in that order. */
  lemma PickedListNewestFirst(v: Variant)
    requires v.variantImages.GetOr([]) != []
    ensures var images := v.variantImages.GetOr([]);
            var sorted := StableSort.Sort(images, NewestFirst);
            && PickImages(v).list == PresentUrls(sorted)
            && Seqs.Subseq(PickImages(v).list, Seqs.Map(sorted, UrlFn()))
            && multiset(sorted) == multiset(images)
            && (forall i, j :: 0 <= i < j < |sorted| ==> Time(sorted[i].createdAt) >= Time(sorted[j].createdAt))
  {
    var images := v.variantImages.GetOr([]);
    StableSort.SortPermutes(images, NewestFirst);
    StableSort.SortIsSorted(images, NewestFirst);
  }

  // ----------------------------------------------------------- flattening

  /** The entry pushed for a product without variants. */
  function BareEntry(row: ProductRow): ShopProduct {
    ShopProduct(
      productId := Some(row.id),
      productName := row.name,
      productDescription := row.description,
      productCreatedAt := row.createdAt,
      categoryId := row.categoryId,
      categoryName := if row.categories.Some? then row.categories.value.name else None,
      variantId := None,
      variantPrice := None,
      variantDiscountPrice := None,
      variantSku := None,
      colorId := None,
      colorName := None,
      variantCreatedAt := None,
      mainImageUrl := None,
      images := None,
      reviews := Some(row.reviews.GetOr([])))
  }

  /** The entry pushed for one variant of a product. */
  function VariantEntry(row: ProductRow, v: Variant): ShopProduct {
    var images := PickImages(v);
    ShopProduct(
      productId := Some(row.id),
      productName := row.name,
      productDescription := row.description,
      productCreatedAt := row.createdAt,
      categoryId := row.categoryId,
      categoryName := if row.categories.Some? then row.categories.value.name else None,
      variantId := v.id,
      variantPrice := v.price,
      variantDiscountPrice := v.discountPrice,
      variantSku := v.sku,
      colorId := v.colorId,
      colorName := if v.colors.Some? then v.colors.value.name else None,
      variantCreatedAt := v.createdAt,
      mainImageUrl := images.main,
      images := Some(images.list),
      reviews := Some(row.reviews.GetOr([])))
  }

  function VariantEntries(row: ProductRow, vs: seq<Variant>): seq<ShopProduct> {
    Seqs.Map(vs, VariantEntryFn(row))
  }

  function VariantEntryFn(row: ProductRow): Variant -> ShopProduct {
    v => VariantEntry(row, v)
  }

  function RowEntries(row: ProductRow): seq<ShopProduct> {
    var vs := row.productVariants.GetOr([]);
    if |vs| == 0 then [BareEntry(row)] else VariantEntries(row, vs)
  }

  function RowEntriesFn(): ProductRow -> seq<ShopProduct> {
    row => RowEntries(row)
  }

  /** What the loop produces: each row's entries, in row order. */
  function FlattenRows(rows: seq<ProductRow>): seq<ShopProduct> {
    Seqs.FlatMap(rows, RowEntriesFn())
  }

  lemma FlattenStep(rows: seq<ProductRow>, i: nat)
    requires i < |rows|
    ensures FlattenRows(rows[..i + 1]) == FlattenRows(rows[..i]) + RowEntries(rows[i])
  {
    assert rows[..i + 1][..i] == rows[..i];
  }

  /** The inner `forEach`: the entries one product row pushes. */
  method PushRow(product: ProductRow) returns (entries: seq<ShopProduct>)
    ensures entries == RowEntries(product)
  {
    var variants := product.productVariants.GetOr([]);
    if |variants| == 0 {
      return [BareEntry(product)];
    }
    entries := [];
    var j := 0;
    while j < |variants|
      invariant 0 <= j <= |variants|
      invariant entries == VariantEntries(product, variants[..j])
    {
      Seqs.MapStep(variants, VariantEntryFn(product), j);
      entries := entries + [VariantEntry(product, variants[j])];
      j := j + 1;
    }
    assert variants[..j] == variants;
  }

  /** The `flattened` array filled by the nested `forEach` loops. */
  method Flatten(rows: seq<ProductRow>) returns (flattened: seq<ShopProduct>)
    ensures flattened == FlattenRows(rows)
  {
    flattened := [];
    var i := 0;
    while i < |rows|
      invariant 0 <= i <= |rows|
      invariant flattened == FlattenRows(rows[..i])
    {
      var entries := PushRow(rows[i]);
      FlattenStep(rows, i);
      flattened := flattened + entries;
      i := i + 1;
    }
    assert rows[..|rows|] == rows;
  }

  /** `max(1, #variants)` entries per row. */
  function EntryCount(rows: seq<ProductRow>): nat
    decreases |rows|
  {
    if rows == [] then 0
    else
      var n := |rows[|rows| - 1].productVariants.GetOr([])|;
      EntryCount(rows[..|rows| - 1]) + (if n == 0 then 1 else n)
  }

  /** The output has one entry per variant, and exactly one for a product without variants. */
  lemma {:induction false} FlattenLength(rows: seq<ProductRow>)
    ensures |FlattenRows(rows)| == EntryCount(rows)
    decreases |rows|
  {
    if rows != [] {
      FlattenLength(rows[..|rows| - 1]);
    }
  }

  /** Product order, then variant order: flattening distributes over concatenation. */
  lemma FlattenAppend(a: seq<ProductRow>, b: seq<ProductRow>)
    ensures FlattenRows(a + b) == FlattenRows(a) + FlattenRows(b)
  {
    Seqs.FlatMapAppend(a, b, RowEntriesFn());
  }

  /** A product without variants yields one entry with its product and category
      fields and nothing of a variant; a product with k variants yields k entries,
      the k-th built from the k-th variant. */
  lemma RowEntriesShape(row: ProductRow)
    ensures row.productVariants.GetOr([]) == [] ==>
              && RowEntries(row) == [BareEntry(row)]
              && RowEntries(row)[0].productId == Some(row.id)
              && RowEntries(row)[0].categoryId == row.categoryId
              && RowEntries(row)[0].variantId.None? && RowEntries(row)[0].variantPrice.None?
              && RowEntries(row)[0].variantDiscountPrice.None? && RowEntries(row)[0].variantSku.None?
              && RowEntries(row)[0].colorId.None? && RowEntries(row)[0].colorName.None?
    ensures var vs := row.productVariants.GetOr([]);
            |vs| > 0 ==>
              && |RowEntries(row)| == |vs|
              && forall k :: 0 <= k < |vs| ==>
                   && RowEntries(row)[k] == VariantEntry(row, vs[k])
                   && RowEntries(row)[k].productId == Some(row.id)
                   && RowEntries(row)[k].categoryId == row.categoryId
                   && RowEntries(row)[k].variantId == vs[k].id
                   && RowEntries(row)[k].variantPrice == vs[k].price
                   && RowEntries(row)[k].variantDiscountPrice == vs[k].discountPrice
                   && RowEntries(row)[k].variantSku == vs[k].sku
                   && RowEntries(row)[k].colorId == vs[k].colorId
                   && RowEntries(row)[k].colorName == (if vs[k].colors.Some? then vs[k].colors.value.name else None)
                   && RowEntries(row)[k].variantCreatedAt == vs[k].createdAt
                   && RowEntries(row)[k].mainImageUrl == PickImages(vs[k]).main
                   && RowEntries(row)[k].images == Some(PickImages(vs[k]).list)
  {
  }

  /** Every entry of a row carries the row's id, category id and reviews. */
  lemma RowEntryOrigin(row: ProductRow, e: ShopProduct)
    requires e in RowEntries(row)
    ensures e.productId == Some(row.id) && e.reviews == Some(row.reviews.GetOr([]))
    ensures e.categoryId == row.categoryId
  {
    var vs := row.productVariants.GetOr([]);
    if vs != [] {
      var k :| 0 <= k < |VariantEntries(row, vs)| && VariantEntries(row, vs)[k] == e;
      assert e == VariantEntry(row, vs[k]);
    }
  }

  /** Every entry comes from some row and carries that row's id, category id and
      reviews (`reviews ?? []`). */
  lemma FlattenOrigin(rows: seq<ProductRow>, e: ShopProduct)
    requires e in FlattenRows(rows)
    ensures exists i :: 0 <= i < |rows| && e.productId == Some(rows[i].id)
                        && e.reviews == Some(rows[i].reviews.GetOr([]))
                        && e.categoryId == rows[i].categoryId
  {
    Seqs.FlatMapOrigin(rows, RowEntriesFn(), e);
    var i :| 0 <= i < |rows| && e in RowEntriesFn()(rows[i]);
    RowEntryOrigin(rows[i], e);
  }
}
