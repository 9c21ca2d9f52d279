# Storefront core in Dafny

This project models the client-side logic of an Arabic-language fashion
storefront (a Next.js / React application backed by Supabase), and proves
properties of that model. It covers:

- **The shop listing page** (`ShopPageShell`), in modules `Catalog` and
  `ShopShell`:
  - the effective price of a product and its mean rating;
  - the price range of the catalogue;
  - the per-category and per-colour counts;
  - the filter (category, colour, price bounds, minimum rating);
  - the four sort orders;
  - pages of 24;
  - the seven state fields and the handlers that change them.
- **The data layer** (`lib/data/products.ts`), in module `ProductRows`: it turns
  fetched product rows (with nested variants, images, colour and category) into
  one listing entry per variant, or one entry for a product without variants.
  It also picks each variant's main image and its newest-first image list.
- **The product page**:
  - `ProductInfo`: the selected variant; the sizes and colours available beside
    it, de-duplicated by `uniqueBy`; the colour/size "best match" rule; the
    price shown; the rating clamp.
  - `ReviewTabs`: the four review orders, the reviewer's display name and
    initials, and the add-review form's gate and reset.
  - `Gallery`: the de-duplicated thumbnail strip and the large image.
- **The product card** (`Card`): its image and price; its link; click and
  keyboard activation; the wishlist and add-to-cart buttons with their
  in-flight guards.
- **The sign-in / sign-up dialog** (`Auth`): validation before anything is
  sent; the normalised sign-up input; which fields the mode switch and the
  close action clear.

## Shared modules

| module | what it holds |
|---|---|
| `Wrappers` | `Option`; JavaScript truthiness of an optional string |
| `Seqs` | `filter` and `find`; `map` and `flatMap`; the subsequence relation |
| `StableSort` | `Array.prototype.sort` with a numeric comparator |
| `Dedupe` | the `uniqueBy` filter over a `seen` set |
| `Text` | `trim`, `slice(0, n)` and `toLowerCase` |

`StableSort` has two parts:

- the functional stable insertion sort `Sort`, which is the specification;
- the in-place array insertion sort `SortInPlace`, proved to compute it.

`SortedCopy` is `[...s].sort(cmp)`. It is used wherever the source sorts a
fresh array:

- the filter result of the listing;
- the copy of the review list;
- the copy of a variant's images.

Each comparator `(a, b) => key(a) - key(b)` is modelled as the rank `key`. A
descending comparator `key(b) - key(a)` is modelled as the rank `-key`.

Stateful components are classes. Their fields mirror the components'
`useState` hooks, and their methods mirror the event handlers. Each
asynchronous handler (a `fetch` or an authentication call) is split in two:

- a `Begin…` method: the guard and the request sent;
- a `Finish…` method: the handling of the reply, together with the `finally`
  block.

This keeps the "in flight" flag observable.

## Model

| member | source | states |
|---|---|---|
| `Catalog.ProductPrice` | components/shop/ShopPageShell.tsx:18-23 | Absent prices count as 0: no base price gives 0, no discount gives the base. The price is the discount exactly when a discount is present, positive and below the base; otherwise it is the base. For a non-negative base it lies in [0, base]. |
| `Catalog.EffectivePrice` | components/shop/ShopPageShell.tsx:18-23 | The price is below the base exactly when the discount is positive and below the base. Otherwise it is the base. For a non-negative base it lies in [0, base]. |
| `Catalog.Mean` | components/shop/ShopPageShell.tsx:29 | `total / n` times `n` gives back the total. |
| `Catalog.ProductRating` | components/shop/ShopPageShell.tsx:25-30 | 0 without reviews. Otherwise the mean times the review count equals the sum of the ratings (absent rating = 0). |
| `Catalog.SumRatingsBounds` | components/shop/ShopPageShell.tsx:28 | Per-review bounds `lo..hi` bound the sum by `lo*n..hi*n`. |
| `Catalog.MeanBetween` | components/shop/ShopPageShell.tsx:29 | A mean lies between bounds that hold for the total. |
| `Catalog.RatingBetween` | components/shop/ShopPageShell.tsx:25-30 | The mean rating lies between any lower and upper bound of the individual ratings. |
| `Catalog.MinOf` | components/shop/ShopPageShell.tsx:50 | `Math.min(...xs)` is an element of `xs` and at most every element. |
| `Catalog.MaxOf` | components/shop/ShopPageShell.tsx:50 | `Math.max(...xs)` is an element of `xs` and at least every element. |
| `Catalog.PositivePrices` | components/shop/ShopPageShell.tsx:48 | Exactly the positive effective prices of the products. |
| `Catalog.PriceStats` | components/shop/ShopPageShell.tsx:46-51 | (0, 0) when no price is positive. Otherwise 0 < min <= max, both attained, and every positive price lies within. |
| `Catalog.CountBy` | components/shop/ShopPageShell.tsx:56-74 | The map's count for every non-empty id equals the number of products carrying it. There is no entry for the empty id, and no zero entry. |
| `Catalog.CountsBounded` | components/shop/ShopPageShell.tsx:56-74 | Over distinct ids, the counts shown in the sidebar sum to at most the number of products. |
| `Catalog.HitsAtMostOne` | components/shop/ShopPageShell.tsx:58-62 | A product is counted under at most one of a list of distinct ids. |
| `Catalog.Keeps` | components/shop/ShopPageShell.tsx:78-90 | The filter callback, guard by guard: category, colour, lower and upper price bound (0 meaning none), minimum rating. |
| `Catalog.KeepsIsConjunction` | components/shop/ShopPageShell.tsx:78-90 | The sequence of early returns keeps a product exactly when every guard passes. |
| `Catalog.FilterProducts` | components/shop/ShopPageShell.tsx:76-90 | The result keeps the input's order. A product is in it exactly when it passes the guards, and as many times as in the input. |
| `Catalog.SortProductsOrder` | components/shop/ShopPageShell.tsx:91-108 | A permutation ordered by the chosen key: price ascending, price descending, or rating descending. Any other key sorts by creation time, newest first. |
| `Catalog.SortProductsStable` | components/shop/ShopPageShell.tsx:91-108 | Products of equal key keep the filter's order. |
| `Catalog.TotalPages` | components/shop/ShopPageShell.tsx:111 | At least 1. 24 per page cover the list, and the last page is not empty (1 for an empty list). |
| `Catalog.CurrentPage` | components/shop/ShopPageShell.tsx:112 | The requested page, capped at the total: never above the total or the request, and one of the two. |
| `Catalog.Slice` | components/shop/ShopPageShell.tsx:115 | `slice(start, end)` clamps both bounds to the length. It is non-empty when the range starts inside the list. |
| `Catalog.PageOf` | components/shop/ShopPageShell.tsx:113-116 | A page holds at most 24 products. |
| `Catalog.PagesArePrefix` | components/shop/ShopPageShell.tsx:113-116 | Pages 1..k laid end to end are the first 24k products. |
| `Catalog.PaginationCovers` | components/shop/ShopPageShell.tsx:111-116 | Pages 1..totalPages reconstruct the list exactly. Each page in range is non-empty for a non-empty list. An empty list has one empty page. |
| `Catalog.PageInRange` | components/shop/ShopPageShell.tsx:111-112 | A page number within the total starts inside the list. |
| `Catalog.ResetCriteriaKeeps` | components/shop/ShopPageShell.tsx:118-126 | With the reset (initial) bounds, a product is shown exactly when its price is positive or no price is positive. |
| `ShopShell.Shell.constructor` | components/shop/ShopPageShell.tsx:39-54 | The initial state: `initialCategoryId ?? "all"`, colour "all", rating 0, bounds from the price range, "newest", page 1. |
| `ShopShell.Shell.RenderPage` | components/shop/ShopPageShell.tsx:76-116 | The render computes the specified page, sorting a fresh array in place. The current page lies in 1..totalPages, and at most 24 products are shown. |
| `ShopShell.Shell.HandleReset` | components/shop/ShopPageShell.tsx:118-126 | Every field returns to its initial value, the price bounds to the price range. |
| `ShopShell.Shell.HandleCategoryChange` | components/shop/ShopPageShell.tsx:128-131 | Sets the category and page 1; nothing else changes. |
| `ShopShell.Shell.HandleColorChange` | components/shop/ShopPageShell.tsx:133-136 | Sets the colour and page 1; nothing else changes. |
| `ShopShell.Shell.HandleRatingChange` | components/shop/ShopPageShell.tsx:138-141 | Sets the minimum rating and page 1; nothing else changes. |
| `ShopShell.Shell.HandleSortChange` | components/shop/ShopPageShell.tsx:143-146 | Sets the sort key and page 1; nothing else changes. |
| `ShopShell.Shell.HandleMinPriceChange` | components/shop/ShopPageShell.tsx:148-151 | Sets the lower bound and page 1; nothing else changes. |
| `ShopShell.Shell.HandleMaxPriceChange` | components/shop/ShopPageShell.tsx:153-156 | Sets the upper bound and page 1; nothing else changes. |
| `ShopShell.Shell.HandlePageChange` | components/shop/ShopPageShell.tsx:158-161 | The page is clamped into 1..totalPages: below-range requests give 1, in-range requests are kept, above-range requests give the last page. Nothing else changes. |
| `ShopShell.Shell.ShowAllCategories` | components/shop/ShopPageShell.tsx:179-185 | The "all" button sets the category to "all" and leaves the page as it was. |
| `StableSort.SortIsSorted` | components/shop/ShopPageShell.tsx:91-108 | The sort's result is non-decreasing in rank. |
| `StableSort.SortPermutes` | components/shop/ShopPageShell.tsx:91-108 | The sort's result is a permutation of its input. |
| `StableSort.SortIsStable` | components/shop/ShopPageShell.tsx:91-108 | For every rank, the elements of that rank keep their input order. |
| `StableSort.InsertInPlace` | components/shop/ShopPageShell.tsx:91-108 | One insertion pass on the array computes the functional insertion and leaves the rest of the array alone. |
| `StableSort.SortInPlace` | components/shop/ShopPageShell.tsx:91-108 | The in-place array sort yields exactly `Sort` of the old contents. |
| `StableSort.SortedCopy` | components/product/ProductTabs.tsx:78 | Sorting a copy yields `Sort` of the input. |
| `Seqs.Filter` | components/shop/ShopPageShell.tsx:77-90 | `filter` gives a subsequence holding exactly the elements that pass, each as often as in the input. |
| `Seqs.Find` | components/product/ProductInfo.tsx:66 | `find` gives the first element that passes, or none exactly when none passes. |
| `Seqs.MapMultiset` | lib/data/products.ts:72-79 | Mapping a permutation of a sequence gives a permutation of its images. |
| `Seqs.Head` | components/product/ProductInfo.tsx:67 | `s[0]`, absent exactly for an empty array. |
| `Dedupe.UniqueBy` | components/product/ProductInfo.tsx:37-45 | The loop over a `seen` set computes `Unique`. |
| `Dedupe.UniqueIsSubseq` | components/product/ProductInfo.tsx:37-45 | The output is a subsequence of the input. |
| `Dedupe.UniqueDistinctKeys` | components/product/ProductInfo.tsx:37-45 | The output's keys are non-empty and pairwise distinct. |
| `Dedupe.UniqueKeys` | components/product/ProductInfo.tsx:37-45 | The output's keys are exactly the input's non-empty keys. |
| `Dedupe.UniqueKeepsFirst` | components/product/ProductInfo.tsx:37-45 | The first occurrence of every non-empty key is kept. |
| `Dedupe.UniqueCovers` | components/product/ProductInfo.tsx:37-45 | Every input item with a non-empty key has its key among the output's keys. |
| `Dedupe.UniquePositions` | components/product/ProductInfo.tsx:37-45 | The output takes its items, in increasing input position, from exactly the positions of the first occurrences of the non-empty keys. |
| `Dedupe.UniqueOfFilter` | components/product/ProductInfo.tsx:82-96 | `uniqueBy` over a filtered list: a subsequence of the unfiltered list, of passing items, with distinct non-empty keys covering every passing key, and exactly the first occurrences of the filtered list in its order. |
| `Dedupe.UniqueFirstOccurrences` | components/product/ProductInfo.tsx:37-45 | The output is exactly the items at the first occurrences of the non-empty keys, in input order. |
| `Dedupe.Unique` | components/product/ProductInfo.tsx:37-45 | An item is kept when its key is non-empty and not among the keys seen before it. |
| `Dedupe.UniqueHead` | components/product/ProductGallery.tsx:14-20 | A first item with a non-empty key stays first. |
| `Text.Trim` | components/product/ProductTabs.tsx:37 | `trim` never lengthens, and leaves no ECMAScript whitespace at either end. |
| `Text.TrimIsInfix` | components/product/ProductTabs.tsx:37 | `trim` keeps one contiguous block and removes only whitespace around it. |
| `Text.TrimEmpty` | components/product/ProductTabs.tsx:75 | A string trims to "" exactly when it is all whitespace. |
| `Text.TrimIdempotent` | components/shared/AuthModal.tsx:94 | Trimming twice is trimming once. |
| `Text.Prefix` | components/product/ProductTabs.tsx:33 | `slice(0, n)` is the prefix of length min(n, length). |
| `Text.ToLower` | components/shared/AuthModal.tsx:87 | `toLowerCase` keeps the length and lowers each ASCII letter. |
| `ProductRows.PresentUrls` | lib/data/products.ts:79 | A subsequence of the images' URLs in image order. It holds every non-empty URL, as often as the images carry it, and no empty or missing one. |
| `ProductRows.MainImage` | lib/data/products.ts:71 | The first image flagged main, if it has a URL. Otherwise the first image's URL. None for no images. |
| `ProductRows.PickImages` | lib/data/products.ts:68-81 | No images give (none, []). The main image follows `MainImage`. The list holds only non-empty URLs of the variant's own images, and every such URL as often as the images carry it. |
| `ProductRows.PickedListNewestFirst` | lib/data/products.ts:72-79 | The list is the present URLs of a permutation of the images ordered newest first, kept in that order: a subsequence of that permutation's URLs. |
| `ProductRows.BareEntry` | lib/data/products.ts:109-119 | The entry of a product without variants: product and category fields, `reviews ?? []`, no variant fields. |
| `ProductRows.VariantEntry` | lib/data/products.ts:122-141 | The entry of one variant: the product's fields, the variant's fields and its picked images. |
| `ProductRows.RowEntriesShape` | lib/data/products.ts:107-143 | A row without variants yields one entry with no variant fields. A row with k variants yields k entries, the k-th being `VariantEntry` of the k-th variant: the row's id and category, the variant's id, price, discount, sku, colour id, colour name and creation time, and its picked main image and list. |
| `ProductRows.PushRow` | lib/data/products.ts:108-142 | The inner loop pushes exactly the row's entries. |
| `ProductRows.Flatten` | lib/data/products.ts:106-145 | The nested loops produce each row's entries in row order. |
| `ProductRows.FlattenLength` | lib/data/products.ts:106-145 | One entry per variant, and a single entry for a product without variants. |
| `ProductRows.FlattenAppend` | lib/data/products.ts:107 | Flattening distributes over concatenation (product order, then variant order). |
| `ProductRows.RowEntryOrigin` | lib/data/products.ts:110-141 | Every entry of a row carries the row's id, category id and `reviews ?? []`. |
| `ProductRows.FlattenOrigin` | lib/data/products.ts:106-145 | Every flattened entry comes from some row and carries its id, category id and reviews. |
| `ProductInfo.SelectVariant` | components/product/ProductInfo.tsx:65-77 | The first variant of the requested id if there is one, else `variants[0]`; absent only for no variants. |
| `ProductInfo.AvailableSizes` | components/product/ProductInfo.tsx:82-88 | The `sizes` prop while no colour is selected. Otherwise a subsequence of the variants of the selected colour with non-empty, pairwise distinct size keys, covering the size key of every such variant. It is exactly the first variant of each size, in the order of the selected colour's variants. |
| `ProductInfo.AvailableColors` | components/product/ProductInfo.tsx:90-96 | The `colors` prop while no size is selected. Otherwise a subsequence of the variants of the selected size with non-empty, pairwise distinct colour keys, covering the colour key of every such variant. It is exactly the first variant of each colour, in the order of the selected size's variants. |
| `ProductInfo.ColorMatch` | components/product/ProductInfo.tsx:100-103 | A variant of the colour, found exactly when one exists. The first variant of the colour and the current size when there is one, else the first variant of the colour. |
| `ProductInfo.SizeMatch` | components/product/ProductInfo.tsx:112-115 | A variant of the size, found exactly when one exists. The first variant of the size and the current colour when there is one, else the first variant of the size. |
| `ProductInfo.SelectMatched` | components/product/ProductInfo.tsx:72-77 | With unique ids, selecting a variant's id selects that very variant. |
| `ProductInfo.PriceShown` | components/product/ProductInfo.tsx:159-164 | A struck-through price appears exactly when there is a discount, and it is above the shown price. The shown price equals the listing's effective price. |
| `ProductInfo.ShownRating` | components/product/ProductInfo.tsx:165-166 | The average clamped into [0, 5], or 0 when there is none. |
| `ProductInfo.Picker.constructor` | components/product/ProductInfo.tsx:65-70 | The initial selection is the id of `SelectVariant` on `initialVariantId`. |
| `ProductInfo.Picker.HandleColorSelect` | components/product/ProductInfo.tsx:98-108 | Nothing happens for a falsy colour or a match without an id. Otherwise the match is selected and `/product/<id>` is pushed. |
| `ProductInfo.Picker.HandleSizeSelect` | components/product/ProductInfo.tsx:110-120 | The mirror image, for sizes. |
| `ProductInfo.ColorSelectionHasColor` | components/product/ProductInfo.tsx:98-108 | After a colour pick, the new selection has that colour. It keeps the previous size whenever some variant of the colour has it. |
| `ProductInfo.SizeSelectionHasSize` | components/product/ProductInfo.tsx:110-120 | After a size pick, the new selection has that size. It keeps the previous colour whenever some variant of the size has it. |
| `ReviewTabs.SortedReviews` | components/product/ProductTabs.tsx:77-97 | A sorted copy of the reviews, by the chosen rank. |
| `ReviewTabs.SortedReviewsOrder` | components/product/ProductTabs.tsx:79-96 | A permutation. "oldest" ascends in time, "rating_high" descends in rating, "rating_low" ascends in rating, and any other key descends in time. |
| `ReviewTabs.SortedReviewsStable` | components/product/ProductTabs.tsx:77-97 | Reviews of equal key keep their order. |
| `ReviewTabs.DisplayName` | components/product/ProductTabs.tsx:31-34 | "مستخدم" without a user id. Otherwise "مستخدم " followed by the first (up to) four characters of the id. |
| `ReviewTabs.Initials` | components/product/ProductTabs.tsx:36-40 | Two characters of the trimmed name when it has two. Otherwise the display name's first two. Never more than two. |
| `ReviewTabs.InitialsLength` | components/product/ProductTabs.tsx:36-40 | The initials are always exactly two characters. |
| `ReviewTabs.ReviewForm.constructor` | components/product/ProductTabs.tsx:70-73 | The form starts at rating 0, hover 0, an empty comment, not submitting. |
| `ReviewTabs.ReviewForm.CanSubmit` | components/product/ProductTabs.tsx:75 | A rating is chosen, the trimmed comment is non-empty and no submission is in flight. |
| `ReviewTabs.ReviewForm.BeginSubmit` | components/product/ProductTabs.tsx:99-113 | A request is sent exactly when `canSubmit` holds and there is a product id. It carries the trimmed comment and marks the form as submitting. |
| `ReviewTabs.ReviewForm.FinishSubmit` | components/product/ProductTabs.tsx:114-125 | Not submitting afterwards. On success, rating, hover and comment are cleared, so the form cannot submit again. Otherwise they are kept. |
| `Gallery.GalleryImagesShape` | components/product/ProductGallery.tsx:13-21 | No repeats and no empty URL. A non-empty main image comes first. Every non-empty input URL appears, and nothing else. |
| `Gallery.GalleryImages` | components/product/ProductGallery.tsx:13-21 | The truthy URLs of the main image and the thumbnails, each kept at its first occurrence. |
| `Gallery.GalleryImagesOrder` | components/product/ProductGallery.tsx:13-21 | The strip takes its URLs, in increasing position, from exactly the first occurrences of the non-empty URLs of `[mainImage, ...thumbnails]`. |
| `Gallery.GalleryView.constructor` | components/product/ProductGallery.tsx:13-25 | The strip is `GalleryImages`. The active image is its first entry, or the main image for an empty strip. |
| `Gallery.GalleryView.Active` | components/product/ProductGallery.tsx:27 | The chosen image, or the main image when it is empty. |
| `Gallery.GalleryView.SelectThumbnail` | components/product/ProductGallery.tsx:32-39 | A click makes that thumbnail active, and it becomes the only one highlighted. |
| `Gallery.InitialActive` | components/product/ProductGallery.tsx:23-27 | The first active image is the main image whenever that is non-empty. An empty strip leaves it empty. |
| `Gallery.OneThumbnailActive` | components/product/ProductGallery.tsx:32-34 | At most one thumbnail matches any active image. |
| `Card.CardImage` | components/shared/ProductCard.tsx:33-36 | `main_image_url`, else the first image, else the logo placeholder; never empty. |
| `Card.CardPrice` | components/shared/ProductCard.tsx:40-44 | The discount exactly when there is one, else the base (with falsy values read as 0). It is the listing's effective price. |
| `Card.CardPriceMatchesListing` | components/shared/ProductCard.tsx:40-44 | The card shows the listing's price for the same price fields. |
| `Card.ProductHref` | components/shared/ProductCard.tsx:50-54 | No link exactly when the variant id is missing. Otherwise `/product/` followed by the encoded id. |
| `Card.ProductCard.constructor` | components/shared/ProductCard.tsx:45-49 | The wishlist flag starts as `Boolean(is_wishlisted)`, nothing in flight. |
| `Card.ProductCard.HandleCardClick` | components/shared/ProductCard.tsx:60-63 | Navigates exactly when there is a link. |
| `Card.ProductCard.HandleCardKeyDown` | components/shared/ProductCard.tsx:65-71 | Navigates and prevents the default action exactly for Enter or Space on a card with a link. |
| `Card.ProductCard.SyncWishlisted` | components/shared/ProductCard.tsx:56-58 | A change of the prop resets the flag to `Boolean(is_wishlisted)`. |
| `Card.ProductCard.BeginToggleWishlist` | components/shared/ProductCard.tsx:73-81 | Posts exactly when there is a variant id and no toggle is in flight, and then marks one in flight. |
| `Card.ProductCard.FinishToggleWishlist` | components/shared/ProductCard.tsx:82-87 | Nothing in flight afterwards. An OK reply sets the flag to `Boolean(wishlisted)`, any other outcome keeps it. |
| `Card.ProductCard.BeginAddToCart` | components/shared/ProductCard.tsx:90-98 | Posts `{variant_id, qty: 1}` exactly when there is a variant id and no add is in flight, and then marks one in flight. |
| `Card.ProductCard.FinishAddToCart` | components/shared/ProductCard.tsx:99-105 | Nothing in flight afterwards. A 401 redirects to `/login`, and nothing else does. |
| `Auth.Validate` | components/shared/AuthModal.tsx:67-82 | "fill all fields" exactly when a field the mode needs is missing. "passwords differ" exactly when nothing is missing, in sign-up with differing passwords. None otherwise. |
| `Auth.NormalEmail` | components/shared/AuthModal.tsx:87 | The e-mail a sign-up sends: the typed e-mail trimmed, then lower-cased (its properties are stated by `Auth.NormalEmailShape`). |
| `Auth.NormalEmailShape` | components/shared/AuthModal.tsx:87 | The normalised e-mail is empty exactly when the typed one is blank. It has no surrounding whitespace and is a fixed point of normalisation. |
| `Auth.SubmitRequest` | components/shared/AuthModal.tsx:86-108 | Sign-up sends the trimmed, lower-cased e-mail and the trimmed name. Sign-in sends the e-mail as typed. |
| `Auth.AuthForm.constructor` | components/shared/AuthModal.tsx:25-32 | Every field starts at its initial value. |
| `Auth.AuthForm.ModeChanged` | components/shared/AuthModal.tsx:36-43 | A mode switch clears name, passwords, both visibility flags and the status. It keeps the e-mail. |
| `Auth.AuthForm.ResetFields` | components/shared/AuthModal.tsx:47-56 | Every field, the e-mail and the in-flight flag included, returns to its initial value. |
| `Auth.AuthForm.BeginSubmit` | components/shared/AuthModal.tsx:63-108 | A failed check sets its status and sends nothing. Otherwise the status is cleared, the form is in flight, and the request is `SubmitRequest`. |
| `Auth.AuthForm.FinishSubmit` | components/shared/AuthModal.tsx:98-122 | Not in flight afterwards. Errors show their message or the fallback. A sign-up shows the confirmation or signed-in message. A sign-in clears every field and closes the dialog. |
| `Auth.SignupRequestShape` | components/shared/AuthModal.tsx:67-94 | A sign-up request is sent only with a non-blank normalised e-mail, a trimmed non-empty name and equal non-empty passwords. |

## Left out

- I/O, dropped: the Supabase query in `fetchProducts` (the `is_active` filter, the newest-first order, the category filter, the error path). The rows it returns are the input of `ProductRows.Flatten`.
- Effects of web APIs, not modelled: router navigation, `window.location`, the clipboard, `fetch` and the authentication client. The methods return what would be pushed, posted or redirected to, or take the reply as a parameter.
- Dates: parsing is outside the model. Timestamps are given as already-parsed milliseconds. A date string that parses to `NaN` makes the source comparators inconsistent; that case is not modelled.
- Numbers: prices and ratings are integers, and only the mean rating is a real (exact rational). Floating-point rounding, `NaN` from `Number("")`-style input and `Intl.NumberFormat` are not modelled.
- Missing values: `null` and `undefined` are both `None`. Where the source tells them apart, the model does not:
  - `initialVariantId === null` never matches a variant without an id;
  - `handleCategoryChange(category.id ?? null)` can set the category to `null`.
- `Text.ToLower`: lower-cases ASCII letters only. Full Unicode case mapping is outside the model; the Arabic text the site uses has no case.
- `ReviewTabs.Initials`: lengths and `slice` count Unicode code points, where JavaScript counts UTF-16 code units. A name made of one character outside the Basic Multilingual Plane (an emoji) has length 2 in JavaScript and is kept; the model falls back to the display name. `Text.Prefix`, and so the four-character id prefix of `ReviewTabs.DisplayName`, differs the same way.
- `Text.Prefix`: counts code points, not UTF-16 code units; see the line above.
- `Card.ProductHref`: `encodeURIComponent` is a parameter of the card, not modelled.
- Rendering: the JSX itself is not modelled. This includes star rendering, `formatDate`, the `open` check of the dialog, the password-visibility toggles, and the hover state beyond its reset.
- `ProductInfo`'s own wishlist toggle and copy-link handlers: not core.
- `ProductInfo.Picker`: the selection state of the variant picker is modelled, but the colour and size lists it renders come from props.
- React's batching of state updates: each handler is one atomic method. In the sign-in success path, the status set just before `handleClose` is overwritten by the reset, which the model reproduces.
- The `disabled={isSubmitting}` attribute of the dialog's submit button is rendering. `Auth.AuthForm.BeginSubmit` itself has no in-flight guard, like `handleSubmit`.
- Page refreshes: `router.refresh()` after a review or a sign-in is not modelled; `Auth.AuthForm.FinishSubmit` only reports it as a flag.
- The grid/list view toggle of the shop page is presentation only.
- `Gallery.GalleryView.SelectThumbnail`: takes the index of a thumbnail in the strip, since a click can only target a rendered thumbnail.
