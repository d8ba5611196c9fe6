# Product spotlight and product inquiry, in Dafny

This project models two storefront scripts of a Shopify theme.

- `assets/product-spotlight.js` is the variant selector of the product
  spotlight section. The page embeds the product's variants. Each variant has
  a color, a size, an availability flag, a stock quantity, prices, an image
  and an id. Clicking a color button does three things:
  - it shows that color's images as gallery thumbnails, one per distinct
    image URL, and puts the first one into the main image;
  - it builds one size button per distinct size of the color, disabled unless
    the first variant of that color and size is in stock;
  - it clicks the first enabled size, or shows the "not available" fallback
    when every size is disabled.

  Clicking a size marks its button active and writes the variant's stock
  line, price pair and add-to-cart link.
- `assets/product-inquiry.js` is the inline validation of the inquiry form.
  When the variant `<select>` changes, the quantity input takes the selected
  option's `data-min`, `data-max` and `data-step`, and its value is clamped
  into range. The submit button is disabled and relabelled when the option is
  sold out, and an inline error message appears.

Layout:

- `options.dfy`: the `Option` type.
- `decimal.dfy`: the decimal text of a natural number, with its parser and the
  round trip between them. This is how `prefix + variant.qty` and the
  `/cart/add?id=…` link render numbers.
- `sequences.dfy`: order-preserving first-occurrence de-duplication. This is
  what a JavaScript `Set` gives, either spread into an array or used as a
  `seen` set inside a filter. The file also has its coverage, count, order and
  first-occurrence lemmas.
- `variants.dfy`: the `Variant` record and the look-ups of the script's
  "UTILITIES" section.
- `display.dfy`: what one variant shows, namely the stock line, the price pair
  and the cart link.
- `spotlight.dfy`: the selector as a class. Its state is the selected color,
  the selected size, the color buttons and the written page (`View`). Its
  invariant `Valid()` ties the page to the catalog and the selection. Before
  any color is selected (there is no color button) it constrains only the
  buttons and the thumbnails. Once a color is selected, the thumbnails, the
  size buttons, the stock line, the price block's visibility and the cart link
  are determined by the selection. The price pair is determined too, unless
  the selected color has no variants at all, in which case it keeps what was
  shown before. Two parts are not determined: the main image and whether a
  gallery instance exists, which an earlier color may have left behind
  (`Spotlight.ViewDeterminedBySelection`). The main image is whichever
  thumbnail was shown last, and the server-rendered image only if no color
  shown so far had images. When the shown color's `data-color` is empty, the
  main image is whatever an earlier color left.
- `inquiry.dfy`: the quantity clamp and the inquiry form as a class.

A few points about the code that the model makes explicit:

- A size button looks only at the first variant of its color and size. A
  later in-stock duplicate of the same pair does not enable the button
  (`Variants.FirstVariantDecidesSizeButton`).
- `updateCartLink` makes the link live for an available variant even when its
  quantity is 0 (`Display.CartLinkIgnoresStock`). The widget never exposes
  this rule. The size button of such a variant is disabled, so it cannot be
  selected, and every selected size has a positive quantity
  (`Spotlight.SelectedSizeShowsQuantity`). The fallback with no size looks up
  a `null` size, which matches no variant.
- In `updateQuantityLimits` the max clamp runs after the min clamp, so the
  max wins when `data-max` is below `data-min`.
- `parseInt(value) || min` reads a quantity of 0 as missing. So with a
  negative `data-min`, a second run moves a value the first run clamped to 0
  (`Inquiry.InquiryForm.ZeroValueIsReadAsMissing`).

## Model

| member | source | states |
|---|---|---|
| Decimal.NatToDecimal | assets/product-spotlight.js:305 | the decimal text of a number is non-empty, all digits, and has no leading zero |
| Decimal.ParseDecimal | assets/product-spotlight.js:305 | a text parses as a number exactly when it is a non-empty run of digits |
| Decimal.ParseNatToDecimal | assets/product-spotlight.js:305 | parsing the decimal text of a quantity gives the quantity back |
| Sequences.DedupBy | assets/product-spotlight.js:381-387 | every element kept by the `seen`-set filter comes from the input and has an unseen key, and no two kept elements share a key |
| Sequences.DedupByCovers | assets/product-spotlight.js:381-387 | the kept keys are exactly the input's keys minus those already seen |
| Sequences.DedupByCount | assets/product-spotlight.js:381-387 | one element is kept per distinct unseen key |
| Sequences.DedupBySubseq | assets/product-spotlight.js:381-387 | de-duplication only deletes elements and keeps their order |
| Sequences.DedupByFirstAt | assets/product-spotlight.js:383-386 | the kept element at each position is the first input element with its key |
| Sequences.DedupByFirst | assets/product-spotlight.js:383-386 | every kept element is the first input element with its key |
| Sequences.DedupByOrderAt | assets/product-spotlight.js:383-386 | of two kept elements, the earlier one's key first occurs earlier in the input |
| Sequences.DedupByOrder | assets/product-spotlight.js:383-386 | kept elements follow the order of their keys' first occurrences |
| Sequences.FirstIndex | assets/product-spotlight.js:383-386 | the reference for "first occurrence" in the de-duplication lemmas: the index is within bounds and, when below the length, holds the key |
| Sequences.FirstIndexIsFirst | assets/product-spotlight.js:383-386 | no element before the found index has the key |
| Sequences.SubseqTrans | assets/product-spotlight.js:377-387 | a subsequence of a subsequence is a subsequence, so the two filters compose |
| Variants.IsWhitespace | assets/product-spotlight.js:378 | the characters `trim()` removes: the ECMAScript WhiteSpace and LineTerminator characters |
| Variants.TrimStart | assets/product-spotlight.js:378 | the leading-whitespace part of `trim()`: the result is a suffix, does not start with whitespace, and only whitespace was dropped |
| Variants.TrimEnd | assets/product-spotlight.js:378 | the trailing-whitespace part of `trim()`: the result is a prefix, does not end with whitespace, and only whitespace was dropped |
| Variants.Trim | assets/product-spotlight.js:378 | the trimmed text is empty exactly when every character is whitespace |
| Variants.NonBlank | assets/product-spotlight.js:378 | the image test: some character of the URL is not whitespace |
| Variants.NonBlankIsTrimTest | assets/product-spotlight.js:378 | NonBlank holds exactly when the URL is non-empty and its trimmed text is non-empty, as `v.imageUrl && v.imageUrl.trim() !== ''` tests |
| Variants.WithImage | assets/product-spotlight.js:377-379 | keeps the variants of the color whose image URL is not blank after trimming, and only those, in catalog order |
| Variants.WithImageExact | assets/product-spotlight.js:377-379 | each such variant is kept as many times as the catalog holds it, and every other variant is dropped |
| Variants.ColorVariants | assets/product-spotlight.js:376-388 | every thumbnail variant has the color and a non-blank image, and no two thumbnails share an image URL |
| Variants.ColorVariantsAll | assets/product-spotlight.js:390-392 | keeps the variants of the color, and only those, in catalog order |
| Variants.ColorVariantsAllExact | assets/product-spotlight.js:390-392 | each variant of the color is kept as many times as the catalog holds it, and every other variant is dropped |
| Variants.SizesOf | assets/product-spotlight.js:395 | the sizes of the variants, position by position |
| Variants.UniqueSizes | assets/product-spotlight.js:394-396 | each listed size is the size of some variant, and no size is listed twice |
| Variants.IsVariantFor | assets/product-spotlight.js:399 | the match of `findVariant`: same color and same size, where a `null` size matches nothing |
| Variants.IsVariantAvailable | assets/product-spotlight.js:406-408 | a variant is in stock when it exists, is marked available and has a positive quantity |
| Variants.FindVariant | assets/product-spotlight.js:398-400 | nothing is found exactly when no variant has that color and size; otherwise the result is the first such variant |
| Variants.FindVariantBySize | assets/product-spotlight.js:402-404 | nothing is found exactly when no variant has the size; otherwise the result is the first such variant |
| Variants.ColorVariantsOrder | assets/product-spotlight.js:376-388 | the thumbnails keep catalog order |
| Variants.ColorVariantsCover | assets/product-spotlight.js:376-388 | every non-blank image URL of the color has a thumbnail |
| Variants.ColorVariantsCount | assets/product-spotlight.js:376-388 | there are as many thumbnails as distinct image URLs of the color |
| Variants.ColorVariantsFirstOccurrence | assets/product-spotlight.js:382-387 | each thumbnail is the first imaged variant of the color with its URL, and the thumbnails follow the order of those first occurrences |
| Variants.UniqueSizesCover | assets/product-spotlight.js:394-396 | every size of the color's variants gets a button |
| Variants.UniqueSizesOrder | assets/product-spotlight.js:394-396 | sizes are listed in the order in which they first occur |
| Variants.FindBySizeIsFindVariant | assets/product-spotlight.js:184-201 | looking a size up among the color's variants finds the same variant as the catalog look-up for that color and size |
| Variants.FirstOfColorIsFound | assets/product-spotlight.js:366-368 | the catalog look-up for the first variant's own color and size finds that variant |
| Variants.FindVariantNullSize | assets/product-spotlight.js:364 | a look-up with a `null` size finds nothing, so the cart link is disabled |
| Variants.FirstVariantDecidesSizeButton | assets/product-spotlight.js:200-221 | an in-stock variant does not enable its size button when an earlier variant of the same color and size is sold out |
| Display.StockText | assets/product-spotlight.js:298-310 | not available gives the not-available text; otherwise the prefix is followed by the quantity's decimal text (no leading zero, parsing back to the quantity) when it is positive, and by "Available" when it is not |
| Display.PriceFor | assets/product-spotlight.js:319-327 | the new price is shown; the old price is shown exactly when the compare-at price exceeds the price, and is empty otherwise |
| Display.CartAddHref | assets/product-spotlight.js:336 | the cart-add href parses back to exactly the variant's id, whose digits have no leading zero |
| Display.CartAddHrefInjective | assets/product-spotlight.js:336 | distinct variant ids give distinct cart-add hrefs |
| Display.CartLinkFor | assets/product-spotlight.js:330-344 | the link is live exactly when the variant exists and is available, and it then adds that variant's id; otherwise it is "#" |
| Display.CartLinkIgnoresStock | assets/product-spotlight.js:335 | an available variant with no stock gets a live cart link but is not "available" for its size button |
| Spotlight.CreateSizeButtons | assets/product-spotlight.js:197-226 | one inactive button per size, in order, disabled exactly when the size's first variant is not in stock |
| Spotlight.FirstEnabled | assets/product-spotlight.js:347 | returns the index of the first enabled size button, or nothing when all are disabled |
| Spotlight.FirstEnabledSize | assets/product-spotlight.js:347 | nothing exactly when every button is disabled; otherwise the size of the first enabled button |
| Spotlight.FirstEnabledSizeAt | assets/product-spotlight.js:346-351 | the button found by the search carries the size that is selected |
| Spotlight.VariantSelector.constructor | assets/product-spotlight.js:410-415 | the page is consistent after start-up. With no color button, nothing is selected and the page is as rendered with no size buttons or thumbnails. Otherwise the first color is selected with only its button pressed, the selected size is the first enabled size, the main image is the first thumbnail when the color has images (else the rendered one), a gallery exists exactly when there are thumbnails, and a color with no variants keeps the rendered prices |
| Spotlight.VariantSelector.HandleColorClick | assets/product-spotlight.js:84-90 | after a color click the page is consistent with the catalog and the selection. Only the clicked button is pressed, the selected size is the first enabled size, and the main image is the first thumbnail when the color has images. A color with no variants leaves the prices as they were |
| Spotlight.VariantSelector.UpdateColorButtonStates | assets/product-spotlight.js:274-281 | exactly the clicked color button is pressed, and nothing else about the buttons changes |
| Spotlight.VariantSelector.RenderThumbnailsForColor | assets/product-spotlight.js:121-134 | the gallery holds the color's de-duplicated images and shows the first; with no images the gallery is emptied and the main image is kept |
| Spotlight.VariantSelector.UpdateMainImage | assets/product-spotlight.js:167-177 | the main image shows the thumbnail at the index when the color is set and the index is in range; otherwise nothing changes |
| Spotlight.VariantSelector.HandleThumbnailClick | assets/product-spotlight.js:110-115 | a reported click shows the clicked thumbnail's image; the page stays consistent |
| Spotlight.VariantSelector.LoadSizesForColor | assets/product-spotlight.js:179-195 | the size buttons match the color, the first enabled size is selected, and the gallery is untouched; with no variants for the color the prices are untouched |
| Spotlight.VariantSelector.SelectFirstAvailableSize | assets/product-spotlight.js:346-355 | the first enabled size is selected and shown, or the no-size fallback is shown when all are disabled; with no variants the prices are untouched |
| Spotlight.VariantSelector.HandleSizeClick | assets/product-spotlight.js:101-108 | the clicked size becomes selected, its button alone is active, and the stock line, prices and cart link describe its variant |
| Spotlight.VariantSelector.SizeButtonsActivate | assets/product-spotlight.js:101-104 | marking one button active shows its size as the selected one; an enabled button's size has an in-stock variant |
| Spotlight.VariantSelector.ClickSizeButton | assets/product-spotlight.js:217-223 | a click on a disabled size button changes nothing. On an enabled one it selects its size and leaves the gallery, the main image and the buttons' sizes and disabled states unchanged |
| Spotlight.VariantSelector.UpdateSizeButtonStates | assets/product-spotlight.js:283-290 | exactly the clicked size button is active, and nothing else changes |
| Spotlight.VariantSelector.UpdateStockInfo | assets/product-spotlight.js:292-313 | with no matching variant nothing changes; otherwise the stock line is the variant's stock text |
| Spotlight.VariantSelector.UpdatePrice | assets/product-spotlight.js:315-328 | with no matching variant nothing changes; otherwise the prices are the variant's price pair |
| Spotlight.VariantSelector.UpdateCartLink | assets/product-spotlight.js:330-344 | the cart link is the one for the matching variant, or disabled when there is none |
| Spotlight.VariantSelector.HandleNoAvailableSizes | assets/product-spotlight.js:357-370 | the price block is hidden, the stock line says not available and the cart link is dead. The prices become those of the color's first variant, or stay as they were when the color has no variants |
| Spotlight.SelectedSizeHasOneActiveButton | assets/product-spotlight.js:283-290 | a selected size has exactly one active button, and that button is enabled |
| Spotlight.SelectedSizeShowsQuantity | assets/product-spotlight.js:298-310 | a selected size always shows the prefix and a positive quantity and has a live cart link |
| Spotlight.ViewDeterminedBySelection | assets/product-spotlight.js:84-108 | two consistent selectors with the same catalog and selection show the same thumbnails, size buttons, stock line, price-block visibility and cart link, and the same prices unless the color has no variants |
| Spotlight.Init | assets/product-spotlight.js:22-59 | the widget starts exactly when the variant data parsed to a non-empty array. The page is then consistent, and when a color button exists its color is selected with only its button pressed, the first enabled size is selected and the main image (with the color as its alt text) is the first thumbnail. It keeps the given stock labels. Without a color button the page is as rendered, with no size buttons, slides or gallery. The rendered main image stays when the first color is empty or has no images, and the rendered price stays when it has no variants |
| Inquiry.OrNumber | assets/product-inquiry.js:21 | a parsed non-zero number is kept; NaN or 0 gives the fallback |
| Inquiry.OrText | assets/product-inquiry.js:52-53 | a non-empty label is kept; an empty one gives the default |
| Inquiry.ClampQuantity | assets/product-inquiry.js:30-40 | the value never exceeds the max; it is at least the min unless max < min, when it is the max; an in-range value is kept |
| Inquiry.InquiryForm.LimitsFor | assets/product-inquiry.js:18-41 | min and step default to 1 and are never 0, and the max is copied. A value already in range is kept, one below the min becomes the min, and one above the max becomes the max. When max < min the value is the max |
| Inquiry.InquiryForm.LimitsIdempotent | assets/product-inquiry.js:30-40 | a second run with the same option changes nothing, unless the first left 0 under a negative min |
| Inquiry.InquiryForm.ZeroValueIsReadAsMissing | assets/product-inquiry.js:30 | with min -5 and max 0, a quantity of 3 is clamped to 0 and a second run moves it to -5 |
| Inquiry.InquiryForm.constructor | assets/product-inquiry.js:63-64 | at load the quantity input takes the initially selected option's limits, and nothing else changes |
| Inquiry.InquiryForm.UpdateQuantityLimits | assets/product-inquiry.js:18-41 | without a quantity input or an option nothing changes; otherwise only the quantity input changes, to its limits for the option |
| Inquiry.InquiryForm.OnVariantChange | assets/product-inquiry.js:44-61 | the submit button is disabled exactly for a sold-out option and labelled accordingly; a sold-out option shows the inline message, and an available one hides it |
| Inquiry.InquiryForm.ShowInlineMessage | assets/product-inquiry.js:11-16 | the message is shown only when both the wrapper and the message element exist |

## Left out

- The gallery widget (Swiper) is not modelled: its breakpoints, its direction and the resize handler that re-orients it after a 150 ms debounce. The model keeps only whether a gallery instance exists, and the index of a clicked slide arrives as a parameter.
- `JSON.parse` of the embedded data is not modelled. `Spotlight.Init` receives the parse result as an `Option` (`None` for a missing script element or a parse error).
- Building the DOM is not modelled: element creation, classes, `aria-*` attributes and `alt`/`width`/`height`. A button is its size plus its disabled and active flags, and a thumbnail is its variant.
- Spotlight.VariantSelector.constructor: size buttons and gallery slides already in the server-rendered page are not represented. With no color button, the source leaves them in place, and the model's page shows none.
- Spotlight.VariantSelector.HandleColorClick: the spotlight's guards for missing page elements (`if (!elements.stockInfo) return` and similar) are not modelled. Every element is assumed present, as is a `data-color` on every color button. So are the stock element's `data-available-prefix` and `data-not-available-text`. Without the prefix, the source writes `undefined + qty` (the text "NaN") at assets/product-spotlight.js:305 and "undefinedAvailable" at :309. Without the not-available text, it writes no text at :302.
- Spotlight.VariantSelector.HandleSizeClick: requires the clicked button to be enabled, because browsers deliver no click to a disabled button. `Spotlight.VariantSelector.ClickSizeButton` models that gating for any button.
- JavaScript numbers are modelled as integers. The stock quantity is rendered as decimal digits, without the exponent form JavaScript uses above 1e21. A variant id is a natural number, and prices are compared as integers (minor units).
- `parseInt` on attribute strings is abstracted. A parsed attribute is an `Option<int>` (`None` for NaN). `data-max` is blank, not a number, or a limit.
- Inquiry.InquiryForm.OnVariantChange: three cases make the source throw, and none is modelled. They are an undefined selected option (`selectedIndex` of -1), a missing submit button (the throw comes at `submitButton.disabled`, after the quantity update has run), and a submit button without its `span`. The model always writes the submit button's fields. A missing form means no handler is installed at all.
- The other scripts of the theme (featured products, dark-mode toggle, responsive video, contact form) are not part of this model.
