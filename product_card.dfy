/** The listing's product card: the image and price shown, the link target,
    click and keyboard activation, and the wishlist and add-to-cart buttons
    with their in-flight guards. The two network calls are split into the
    step that sends the request and the step that handles the reply. */
module Card {
  import opened Wrappers
  import Catalog

  datatype CardProduct = CardProduct(
    productId: Option<string>,
    productName: Option<string>,
    variantId: Option<string>,
    variantPrice: Option<int>,
    variantDiscountPrice: Option<int>,
    colorName: Option<string>,
    categoryName: Option<string>,
    mainImageUrl: Option<string>,
    images: Option<seq<string>>,
    isWishlisted: Option<bool>)

  const Placeholder: string := "/assets/logo.png"

  /** `main_image_url || images[0] || "/assets/logo.png"`: the first non-empty
      candidate, so a card always has an image. */
  function CardImage(p: CardProduct): (image: string)
    ensures image != ""
    ensures Truthy(p.mainImageUrl) ==> image == p.mainImageUrl.value
    ensures !Truthy(p.mainImageUrl) && p.images.Some? && |p.images.value| > 0 && p.images.value[0] != "" ==>
              image == p.images.value[0]
    ensures !Truthy(p.mainImageUrl) && !(p.images.Some? && |p.images.value| > 0 && p.images.value[0] != "") ==>
              image == Placeholder
  {
    if Truthy(p.mainImageUrl) then p.mainImageUrl.value
    else if p.images.Some? && |p.images.value| > 0 && p.images.value[0] != "" then p.images.value[0]
    else Placeholder
  }

  /** `x || 0` on a number: absent and zero both read as 0. */
  function OrZero(x: Option<int>): int {
    x.GetOr(0)
  }

  /** The card's `hasDiscount`. */
  predicate HasDiscount(p: CardProduct) {
    OrZero(p.variantDiscountPrice) > 0 && OrZero(p.variantPrice) > 0 &&
    OrZero(p.variantDiscountPrice) < OrZero(p.variantPrice)
  }

  /** The card's `price`: the discount exactly when there is one, else the
      base; the same rule the listing sorts and filters by. */
  function CardPrice(p: CardProduct): (price: int)
    ensures HasDiscount(p) ==> price == OrZero(p.variantDiscountPrice) && price < OrZero(p.variantPrice)
    ensures !HasDiscount(p) ==> price == OrZero(p.variantPrice)
    ensures price == Catalog.EffectivePrice(OrZero(p.variantPrice), OrZero(p.variantDiscountPrice))
  {
    if HasDiscount(p) then OrZero(p.variantDiscountPrice) else OrZero(p.variantPrice)
  }

  /** `productHref`; `encode` stands for `encodeURIComponent`. */
  function ProductHref(p: CardProduct, encode: string -> string): (href: Option<string>)
    ensures href.None? <==> !Truthy(p.variantId)
    ensures href.Some? ==> href.value == "/product/" + encode(p.variantId.value)
  {
    if !Truthy(p.variantId) then None else Some("/product/" + encode(p.variantId.value))
  }

  /** The keys that activate a focused card. */
  predicate ActivationKey(key: string) {
    key == "Enter" || key == " "
  }

  datatype CartRequest = CartRequest(variantId: string, qty: int)

  /** One rendered card: its fixed product and its three state flags. */
  class ProductCard {
    const product: CardProduct
    const encode: string -> string
    var isWishlisted: bool
    var isToggling: bool
    var isAdding: bool

    constructor (product: CardProduct, encode: string -> string)
      ensures this.product == product && this.encode == encode
      ensures isWishlisted == (product.isWishlisted == Some(true))
      ensures !isToggling && !isAdding
    {
      this.product := product;
      this.encode := encode;
      isWishlisted := product.isWishlisted == Some(true);
      isToggling := false;
      isAdding := false;
    }

    function Href(): Option<string>
      reads this
    {
      ProductHref(product, encode)
    }

    /** `handleCardClick`: the path navigated to, if any. */
    method HandleCardClick() returns (pushed: Option<string>)
      ensures pushed.Some? <==> Truthy(product.variantId)
      ensures pushed.Some? ==> pushed == Href()
    {
      pushed := Href();
    }

    /** `handleCardKeyDown`: navigates, and suppresses the default action, only
      for Enter or Space on a card that has a link. */
    method HandleCardKeyDown(key: string) returns (pushed: Option<string>, preventDefault: bool)
      ensures pushed.Some? <==> Truthy(product.variantId) && ActivationKey(key)
      ensures pushed.Some? ==> pushed == Href()
      ensures preventDefault <==> pushed.Some?
    {
      var href := Href();
      if href.None? {
        return None, false;
      }
      if ActivationKey(key) {
        return href, true;
      }
      return None, false;
    }

    /** The re-sync of `isWishlisted` when the `is_wishlisted` prop changes. */
    method SyncWishlisted(flag: Option<bool>)
      modifies this
      ensures isWishlisted == (flag == Some(true))
      ensures isToggling == old(isToggling) && isAdding == old(isAdding)
    {
      isWishlisted := flag == Some(true);
    }

    /** The start of `handleToggleWishlist`: the variant id posted, if any. */
    method BeginToggleWishlist() returns (request: Option<string>)
      modifies this
      ensures request.Some? <==> Truthy(product.variantId) && !old(isToggling)
      ensures request.Some? ==> request.value == product.variantId.value && isToggling
      ensures request.None? ==> isToggling == old(isToggling)
      ensures isWishlisted == old(isWishlisted) && isAdding == old(isAdding)
    {
      if !Truthy(product.variantId) || isToggling {
        return None;
      }
      isToggling := true;
      request := Some(product.variantId.value);
    }

    /** The end of `handleToggleWishlist`: an OK reply sets the flag to the
        reply's `wishlisted`; any other outcome keeps it. */
    method FinishToggleWishlist(ok: bool, wishlisted: Option<bool>)
      modifies this
      ensures !isToggling
      ensures ok ==> isWishlisted == (wishlisted == Some(true))
      ensures !ok ==> isWishlisted == old(isWishlisted)
      ensures isAdding == old(isAdding)
    {
      if ok {
        isWishlisted := wishlisted == Some(true);
      }
      isToggling := false;
    }

    /** The start of `handleAddToCart`: the cart line posted, if any. */
    method BeginAddToCart() returns (request: Option<CartRequest>)
      modifies this
      ensures request.Some? <==> Truthy(product.variantId) && !old(isAdding)
      ensures request.Some? ==> request.value == CartRequest(product.variantId.value, 1) && isAdding
      ensures request.None? ==> isAdding == old(isAdding)
      ensures isWishlisted == old(isWishlisted) && isToggling == old(isToggling)
    {
      if !Truthy(product.variantId) || isAdding {
        return None;
      }
      isAdding := true;
      request := Some(CartRequest(product.variantId.value, 1));
    }

    /** The end of `handleAddToCart`, given the response status (`None` when the
        request failed outright): 401 sends the shopper to the login page. */
    method FinishAddToCart(status: Option<int>) returns (redirect: Option<string>)
      modifies this
      ensures !isAdding
      ensures redirect.Some? <==> status == Some(401)
      ensures redirect.Some? ==> redirect.value == "/login"
      ensures isWishlisted == old(isWishlisted) && isToggling == old(isToggling)
    {
      redirect := if status == Some(401) then Some("/login") else None;
      isAdding := false;
    }
  }

  /** The card shows the price the listing uses for every product whose
      price fields agree with the card's. */
  lemma CardPriceMatchesListing(p: CardProduct, q: Catalog.ShopProduct)
    requires q.variantPrice == p.variantPrice && q.variantDiscountPrice == p.variantDiscountPrice
    ensures CardPrice(p) == Catalog.ProductPrice(q)
    ensures OrZero(p.variantPrice) >= 0 ==> 0 <= CardPrice(p) <= OrZero(p.variantPrice)
  {
  }
}
