/** The product page's variant selection: the selected variant, the sizes and
    colours available beside it, the colour/size "best match" rule, the shown
    price and the rating clamp. */
module ProductInfo {
  import opened Wrappers
  import Seqs
  import Dedupe
  import Catalog

  datatype Variant = Variant(
    variantId: Option<string>,
    variantPrice: Option<int>,
    variantDiscountPrice: Option<int>,
    variantSku: Option<string>,
    colorId: Option<string>,
    colorName: Option<string>,
    colorHex: Option<string>,
    sizeId: Option<string>,
    sizeName: Option<string>)

  /** `variants.find((item) => item.variant_id === id) ?? variants[0]`. */
  function SelectVariant(variants: seq<Variant>, id: Option<string>): (r: Option<Variant>)
    ensures r.None? <==> variants == []
    ensures (exists i :: 0 <= i < |variants| && variants[i].variantId == id) ==>
              r.Some? && r.value.variantId == id &&
              exists k :: 0 <= k < |variants| && variants[k] == r.value &&
                          forall j :: 0 <= j < k ==> variants[j].variantId != id
    ensures variants != [] && (forall i :: 0 <= i < |variants| ==> variants[i].variantId != id) ==>
              r == Some(variants[0])
  {
    match Seqs.Find(variants, (v: Variant) => v.variantId == id)
    case Some(v) => Some(v)
    case None => Seqs.Head(variants)
  }

  /** `item.size_id ?? item.size_name ?? ""`. */
  function SizeKey(v: Variant): string {
    if v.sizeId.Some? then v.sizeId.value else v.sizeName.GetOr("")
  }

  /** `item.color_id ?? item.color_name ?? ""`. */
  function ColorKey(v: Variant): string {
    if v.colorId.Some? then v.colorId.value else v.colorName.GetOr("")
  }

  function SizeKeyFn(): Variant -> string { v => SizeKey(v) }
  function ColorKeyFn(): Variant -> string { v => ColorKey(v) }

  /** `item.color_id === selectedColorId`, and its mirror for sizes. */
  function ColorIs(c: Option<string>): Variant -> bool { (v: Variant) => v.colorId == c }
  function SizeIs(s: Option<string>): Variant -> bool { (v: Variant) => v.sizeId == s }

  /** `availableSizes`: the `sizes` prop while no colour is selected, otherwise
      one variant per size among the variants of the selected colour. */
  function AvailableSizes(variants: seq<Variant>, sizes: seq<Variant>, selectedColor: Option<string>): (r: seq<Variant>)
    ensures !Truthy(selectedColor) ==> r == sizes
    ensures Truthy(selectedColor) ==> forall i :: 0 <= i < |r| ==> r[i] in variants && r[i].colorId == selectedColor
    ensures Truthy(selectedColor) ==> forall i, j :: 0 <= i < j < |r| ==> SizeKey(r[i]) != SizeKey(r[j])
    ensures Truthy(selectedColor) ==> forall i :: 0 <= i < |r| ==> SizeKey(r[i]) != ""
    ensures Truthy(selectedColor) ==> Seqs.Subseq(r, variants)
    ensures Truthy(selectedColor) ==>
              forall v :: v in variants && v.colorId == selectedColor && SizeKey(v) != "" ==>
                Dedupe.HasKey(r, SizeKeyFn(), SizeKey(v))
    ensures Truthy(selectedColor) ==>
              Dedupe.FirstOccurrences(r, Seqs.Filter(variants, ColorIs(selectedColor)), SizeKeyFn())
  {
    if !Truthy(selectedColor) then sizes
    else
      Dedupe.UniqueOfFilter(variants, ColorIs(selectedColor), SizeKeyFn());
      Dedupe.Unique(Seqs.Filter(variants, ColorIs(selectedColor)), SizeKeyFn())
  }

  /** `availableColors`: the mirror image of `availableSizes`. */
  function AvailableColors(variants: seq<Variant>, colors: seq<Variant>, selectedSize: Option<string>): (r: seq<Variant>)
    ensures !Truthy(selectedSize) ==> r == colors
    ensures Truthy(selectedSize) ==> forall i :: 0 <= i < |r| ==> r[i] in variants && r[i].sizeId == selectedSize
    ensures Truthy(selectedSize) ==> forall i, j :: 0 <= i < j < |r| ==> ColorKey(r[i]) != ColorKey(r[j])
    ensures Truthy(selectedSize) ==> forall i :: 0 <= i < |r| ==> ColorKey(r[i]) != ""
    ensures Truthy(selectedSize) ==> Seqs.Subseq(r, variants)
    ensures Truthy(selectedSize) ==>
              forall v :: v in variants && v.sizeId == selectedSize && ColorKey(v) != "" ==>
                Dedupe.HasKey(r, ColorKeyFn(), ColorKey(v))
    ensures Truthy(selectedSize) ==>
              Dedupe.FirstOccurrences(r, Seqs.Filter(variants, SizeIs(selectedSize)), ColorKeyFn())
  {
    if !Truthy(selectedSize) then colors
    else
      Dedupe.UniqueOfFilter(variants, SizeIs(selectedSize), ColorKeyFn());
      Dedupe.Unique(Seqs.Filter(variants, SizeIs(selectedSize)), ColorKeyFn())
  }

  /** The variant `handleColorSelect(c)` picks: colour `c` with the current size
      if there is one, else the first variant of colour `c`. */
  function ColorMatch(variants: seq<Variant>, c: string, currentSize: Option<string>): (m: Option<Variant>)
    ensures m.Some? ==> m.value in variants && m.value.colorId == Some(c)
    ensures m.None? <==> forall i :: 0 <= i < |variants| ==> variants[i].colorId != Some(c)
    ensures (exists i :: 0 <= i < |variants| && variants[i].colorId == Some(c) && variants[i].sizeId == currentSize) ==>
              && m.Some? && m.value.sizeId == currentSize
              && exists k :: 0 <= k < |variants| && variants[k] == m.value &&
                   forall j :: 0 <= j < k ==> !(variants[j].colorId == Some(c) && variants[j].sizeId == currentSize)
    ensures (forall i :: 0 <= i < |variants| ==> !(variants[i].colorId == Some(c) && variants[i].sizeId == currentSize)) ==>
              m.Some? ==>
                exists k :: 0 <= k < |variants| && variants[k] == m.value &&
                  forall j :: 0 <= j < k ==> variants[j].colorId != Some(c)
  {
    match Seqs.Find(variants, (v: Variant) => v.colorId == Some(c) && v.sizeId == currentSize)
    case Some(v) => Some(v)
    case None => Seqs.Find(variants, (v: Variant) => v.colorId == Some(c))
  }

  /** The variant `handleSizeSelect(s)` picks: size `s` with the current colour
      if there is one, else the first variant of size `s`. */
  function SizeMatch(variants: seq<Variant>, s: string, currentColor: Option<string>): (m: Option<Variant>)
    ensures m.Some? ==> m.value in variants && m.value.sizeId == Some(s)
    ensures m.None? <==> forall i :: 0 <= i < |variants| ==> variants[i].sizeId != Some(s)
    ensures (exists i :: 0 <= i < |variants| && variants[i].sizeId == Some(s) && variants[i].colorId == currentColor) ==>
              && m.Some? && m.value.colorId == currentColor
              && exists k :: 0 <= k < |variants| && variants[k] == m.value &&
                   forall j :: 0 <= j < k ==> !(variants[j].sizeId == Some(s) && variants[j].colorId == currentColor)
    ensures (forall i :: 0 <= i < |variants| ==> !(variants[i].sizeId == Some(s) && variants[i].colorId == currentColor)) ==>
              m.Some? ==>
                exists k :: 0 <= k < |variants| && variants[k] == m.value &&
                  forall j :: 0 <= j < k ==> variants[j].sizeId != Some(s)
  {
    match Seqs.Find(variants, (v: Variant) => v.sizeId == Some(s) && v.colorId == currentColor)
    case Some(v) => Some(v)
    case None => Seqs.Find(variants, (v: Variant) => v.sizeId == Some(s))
  }

  /** Variant ids, where present, identify one variant. */
  ghost predicate UniqueIds(variants: seq<Variant>) {
    forall i, j ::
      (0 <= i < |variants| && 0 <= j < |variants| && variants[i].variantId.Some? &&
       variants[i].variantId == variants[j].variantId) ==> i == j
  }

  /** Selecting by the matched variant's id finds that very variant when ids are unique. */
  lemma SelectMatched(variants: seq<Variant>, m: Variant)
    requires UniqueIds(variants) && m in variants && m.variantId.Some?
    ensures SelectVariant(variants, m.variantId) == Some(m)
  {
    var k :| 0 <= k < |variants| && variants[k] == m;
    var r := SelectVariant(variants, m.variantId);
    var k' :| 0 <= k' < |variants| && variants[k'] == r.value &&
              forall j :: 0 <= j < k' ==> variants[j].variantId != m.variantId;
    assert variants[k'].variantId == variants[k].variantId;
  }

  // ------------------------------------------------------ price and rating

  datatype ShownPrice = ShownPrice(price: int, compareAt: Option<int>)

  predicate HasDiscount(base: int, discount: int) {
    discount > 0 && base > 0 && discount < base
  }

  /** The price block: the discount with the base struck through when there is
      a discount, else the base alone. It always agrees with the listing's rule. */
  function PriceShown(base: Option<int>, discount: Option<int>): (r: ShownPrice)
    ensures r.compareAt.Some? <==> HasDiscount(base.GetOr(0), discount.GetOr(0))
    ensures r.compareAt.Some? ==> r.compareAt.value == base.GetOr(0) && r.price < r.compareAt.value
    ensures r.price == Catalog.EffectivePrice(base.GetOr(0), discount.GetOr(0))
  {
    var b := base.GetOr(0);
    var d := discount.GetOr(0);
    if HasDiscount(b, d) then ShownPrice(d, Some(b)) else ShownPrice(b, None)
  }

  /** `typeof reviewsAvg === "number" ? Math.max(0, Math.min(5, reviewsAvg)) : 0`. */
  function ShownRating(reviewsAvg: Option<real>): (r: real)
    ensures 0.0 <= r <= 5.0
    ensures reviewsAvg.None? ==> r == 0.0
    ensures reviewsAvg.Some? && 0.0 <= reviewsAvg.value <= 5.0 ==> r == reviewsAvg.value
    ensures reviewsAvg.Some? && reviewsAvg.value < 0.0 ==> r == 0.0
    ensures reviewsAvg.Some? && reviewsAvg.value > 5.0 ==> r == 5.0
  {
    match reviewsAvg
    case None => 0.0
    case Some(x) =>
      var capped := if x < 5.0 then x else 5.0;
      if capped > 0.0 then capped else 0.0
  }

  // ---------------------------------------------------------------- state

  /** The component's `selectedVariantId` state over its fixed props. */
  class Picker {
    const variants: seq<Variant>
    const colors: seq<Variant>
    const sizes: seq<Variant>
    var selectedVariantId: Option<string>

    constructor (variants: seq<Variant>, colors: seq<Variant>, sizes: seq<Variant>, initialVariantId: Option<string>)
      ensures this.variants == variants && this.colors == colors && this.sizes == sizes
      ensures selectedVariantId == match SelectVariant(variants, initialVariantId)
                                   case Some(v) => v.variantId
                                   case None => None
    {
      this.variants := variants;
      this.colors := colors;
      this.sizes := sizes;
      var initial := SelectVariant(variants, initialVariantId);
      selectedVariantId := match initial case Some(v) => v.variantId case None => None;
    }

    function Selected(): Option<Variant>
      reads this
    {
      SelectVariant(variants, selectedVariantId)
    }

    function SelectedColorId(): Option<string>
      reads this
    {
      match Selected() case Some(v) => v.colorId case None => None
    }

    function SelectedSizeId(): Option<string>
      reads this
    {
      match Selected() case Some(v) => v.sizeId case None => None
    }

    /** `handleColorSelect`: returns the path pushed to the router, if any. */
    method HandleColorSelect(c: Option<string>) returns (pushed: Option<string>)
      modifies this
      ensures !Truthy(c) ==> selectedVariantId == old(selectedVariantId) && pushed == None
      ensures Truthy(c) ==>
                var m := ColorMatch(variants, c.value, old(SelectedSizeId()));
                if m.Some? && Truthy(m.value.variantId) then
                  selectedVariantId == m.value.variantId && pushed == Some("/product/" + m.value.variantId.value)
                else
                  selectedVariantId == old(selectedVariantId) && pushed == None
    {
      pushed := None;
      if !Truthy(c) {
        return;
      }
      var matched := ColorMatch(variants, c.value, SelectedSizeId());
      if matched.Some? && Truthy(matched.value.variantId) {
        selectedVariantId := matched.value.variantId;
        pushed := Some("/product/" + matched.value.variantId.value);
      }
    }

    /** `handleSizeSelect`: returns the path pushed to the router, if any. */
    method HandleSizeSelect(s: Option<string>) returns (pushed: Option<string>)
      modifies this
      ensures !Truthy(s) ==> selectedVariantId == old(selectedVariantId) && pushed == None
      ensures Truthy(s) ==>
                var m := SizeMatch(variants, s.value, old(SelectedColorId()));
                if m.Some? && Truthy(m.value.variantId) then
                  selectedVariantId == m.value.variantId && pushed == Some("/product/" + m.value.variantId.value)
                else
                  selectedVariantId == old(selectedVariantId) && pushed == None
    {
      pushed := None;
      if !Truthy(s) {
        return;
      }
      var matched := SizeMatch(variants, s.value, SelectedColorId());
      if matched.Some? && Truthy(matched.value.variantId) {
        selectedVariantId := matched.value.variantId;
        pushed := Some("/product/" + matched.value.variantId.value);
      }
    }
  }

  /** After a colour pick that changed the selection, the selected variant has
      that colour, and it keeps the previous size whenever some variant of the
      new colour has it (with unique variant ids). */
  lemma ColorSelectionHasColor(variants: seq<Variant>, c: string, currentSize: Option<string>)
    requires UniqueIds(variants)
    requires ColorMatch(variants, c, currentSize).Some?
    requires ColorMatch(variants, c, currentSize).value.variantId.Some?
    ensures var m := ColorMatch(variants, c, currentSize).value;
            SelectVariant(variants, m.variantId) == Some(m) && m.colorId == Some(c)
    ensures (exists i :: 0 <= i < |variants| && variants[i].colorId == Some(c) && variants[i].sizeId == currentSize) ==>
              ColorMatch(variants, c, currentSize).value.sizeId == currentSize
  {
    SelectMatched(variants, ColorMatch(variants, c, currentSize).value);
  }

  /** The mirror image for a size pick. */
  lemma SizeSelectionHasSize(variants: seq<Variant>, s: string, currentColor: Option<string>)
    requires UniqueIds(variants)
    requires SizeMatch(variants, s, currentColor).Some?
    requires SizeMatch(variants, s, currentColor).value.variantId.Some?
    ensures var m := SizeMatch(variants, s, currentColor).value;
            SelectVariant(variants, m.variantId) == Some(m) && m.sizeId == Some(s)
    ensures (exists i :: 0 <= i < |variants| && variants[i].sizeId == Some(s) && variants[i].colorId == currentColor) ==>
              SizeMatch(variants, s, currentColor).value.colorId == currentColor
  {
    SelectMatched(variants, SizeMatch(variants, s, currentColor).value);
  }
}
