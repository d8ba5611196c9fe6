/**
 * The product-spotlight variant selector (assets/product-spotlight.js): the
 * selection state, the buttons the script creates and the parts of the page
 * it writes, and the click handlers that keep them in step.
 */
module Spotlight {
  import opened Options
  import opened Decimal
  import opened Variants
  import opened Display

  /** A `.color-btn`: its `data-color` and its active/aria-pressed state. */
  datatype ColorButton = ColorButton(color: string, pressed: bool)

  /** A size button the script created: its size, the disabled/unavailable state and the active/aria-pressed state. */
  datatype SizeButton = SizeButton(size: string, disabled: bool, active: bool)

  /**
   * The parts of the page the widget writes. Only the size buttons and gallery
   * slides the script creates are represented: any server-rendered ones are
   * not, so a widget without color buttons starts from none of either.
   */
  datatype View = View(
    sizeButtons: seq<SizeButton>,
    thumbnails: seq<Variant>,   // the gallery slides, one per variant
    galleryPresent: bool,       // a gallery widget instance exists
    mainImage: string,
    mainImageAlt: string,
    stockText: string,
    price: PriceView,
    priceVisible: bool,         // display of the price block
    cart: CartLink)

  /** createSizeButtons: one button per size, disabled unless its first variant is in stock. */
  method CreateSizeButtons(sizes: seq<string>, colorVariants: seq<Variant>) returns (buttons: seq<SizeButton>)
    ensures |buttons| == |sizes|
    ensures forall k :: 0 <= k < |sizes| ==> (buttons[k].size == sizes[k] && !buttons[k].active
      && (buttons[k].disabled <==> !IsVariantAvailable(FindVariantBySize(colorVariants, sizes[k]))))
  {
    buttons := [];
    for k := 0 to |sizes|
      invariant |buttons| == k
      invariant forall j :: 0 <= j < k ==> (buttons[j].size == sizes[j] && !buttons[j].active
        && (buttons[j].disabled <==> !IsVariantAvailable(FindVariantBySize(colorVariants, sizes[j]))))
    {
      var variant := FindVariantBySize(colorVariants, sizes[k]);
      buttons := buttons + [SizeButton(sizes[k], !IsVariantAvailable(variant), false)];
    }
  }

  /** `querySelector('.swatch-option-size:not(.unavailable)')`: the first enabled size button. */
  method FirstEnabled(buttons: seq<SizeButton>) returns (r: Option<nat>)
    ensures r.Some? ==> (r.value < |buttons| && !buttons[r.value].disabled
      && forall j :: 0 <= j < r.value ==> buttons[j].disabled)
    ensures r.None? ==> forall j :: 0 <= j < |buttons| ==> buttons[j].disabled
  {
    var k := 0;
    while k < |buttons|
      invariant k <= |buttons|
      invariant forall j :: 0 <= j < k ==> buttons[j].disabled
    {
      if !buttons[k].disabled {
        return Some(k);
      }
      k := k + 1;
    }
    return None;
  }

  /** The size of the first enabled button, or nothing when every button is disabled. */
  function FirstEnabledSize(buttons: seq<SizeButton>): (r: Option<string>)
    ensures r.None? <==> forall j :: 0 <= j < |buttons| ==> buttons[j].disabled
    ensures r.Some? ==> exists k :: (0 <= k < |buttons| && buttons[k].size == r.value
      && !buttons[k].disabled && forall j :: 0 <= j < k ==> buttons[j].disabled)
  {
    if buttons == [] then None
    else if !buttons[0].disabled then Some(buttons[0].size)
    else
      var r := FirstEnabledSize(buttons[1..]);
      assert forall j :: 1 <= j < |buttons| ==> buttons[j] == buttons[1..][j - 1];
      r
  }

  /** The button found by FirstEnabled carries the size FirstEnabledSize names. */
  lemma {:induction false} FirstEnabledSizeAt(buttons: seq<SizeButton>, k: nat)
    requires k < |buttons| && !buttons[k].disabled
    requires forall j :: 0 <= j < k ==> buttons[j].disabled
    ensures FirstEnabledSize(buttons) == Some(buttons[k].size)
  {
    if k > 0 {
      assert buttons[0].disabled;
      FirstEnabledSizeAt(buttons[1..], k - 1);
    }
  }

  class VariantSelector {
    const catalog: seq<Variant>
    const notAvailableText: string   // data-not-available-text of the stock element
    const availablePrefix: string    // data-available-prefix of the stock element
    var colorButtons: seq<ColorButton>
    var selectedColor: Option<string>
    var selectedSize: Option<string>
    var view: View

    /** The gallery shows the color's de-duplicated images, and the main image is one of them. */
    ghost predicate ThumbnailsShown(color: string, thumbnails: seq<Variant>, galleryPresent: bool,
                                    mainImage: string, mainImageAlt: string)
    {
      && thumbnails == ColorVariants(catalog, color)
      && (thumbnails != [] ==> galleryPresent)
      && (color != "" && thumbnails != [] ==>
            exists k :: 0 <= k < |thumbnails| && mainImage == thumbnails[k].imageUrl && mainImageAlt == color)
    }

    /**
     * One button per distinct size of the color, in order of first occurrence;
     * disabled exactly when the first variant of that color and size is not in
     * stock; active exactly when it is the selected size.
     */
    ghost predicate SizeButtonsShown(color: string, selected: Option<string>, buttons: seq<SizeButton>)
    {
      var sizes := UniqueSizes(ColorVariantsAll(catalog, color));
      && |buttons| == |sizes|
      && forall k :: 0 <= k < |sizes| ==>
           && buttons[k].size == sizes[k]
           && (buttons[k].disabled <==> !IsVariantAvailable(FindVariant(catalog, color, Some(sizes[k]))))
           && (buttons[k].active <==> selected == Some(sizes[k]))
    }

    /** A selected size is in stock, and the stock line, prices and cart link describe its variant. */
    ghost predicate SizeShown(color: string, size: string, v: View)
    {
      var found := FindVariant(catalog, color, Some(size));
      && IsVariantAvailable(found)
      && v.stockText == StockText(found.value, notAvailableText, availablePrefix)
      && v.price == PriceFor(found.value)
      && v.cart == CartLinkFor(found)
      && v.priceVisible
    }

    /**
     * No size of the color is in stock: price block hidden, "not available",
     * dead cart link, and the prices of the color's first variant.
     */
    ghost predicate NoSizeShown(color: string, v: View)
    {
      var all := ColorVariantsAll(catalog, color);
      && (forall k :: 0 <= k < |v.sizeButtons| ==> v.sizeButtons[k].disabled)
      && !v.priceVisible
      && v.stockText == notAvailableText
      && v.cart == CartLinkFor(None)
      && (all != [] ==> v.price == PriceFor(all[0]))
    }

    /** The gallery of the selected color as the page shows it. */
    ghost predicate GalleryValid(color: string)
      reads this
    {
      ThumbnailsShown(color, view.thumbnails, view.galleryPresent, view.mainImage, view.mainImageAlt)
    }

    /** What the widget created or wrote agrees with the catalog and the selection. */
    ghost predicate Valid()
      reads this
    {
      && (selectedColor.None? ==> selectedSize.None? && view.sizeButtons == [] && view.thumbnails == [])
      && (selectedColor.Some? ==>
            && GalleryValid(selectedColor.value)
            && SizeButtonsShown(selectedColor.value, selectedSize, view.sizeButtons)
            && (selectedSize.Some? ==> SizeShown(selectedColor.value, selectedSize.value, view))
            && (selectedSize.None? ==> NoSizeShown(selectedColor.value, view)))
    }

    /**
     * init after a successful load: the page as rendered, then the first color
     * button (if any) is clicked.
     */
    constructor (catalog: seq<Variant>, colorButtons: seq<ColorButton>,
                 notAvailableText: string, availablePrefix: string, page: View)
      requires |catalog| > 0
      ensures Valid()
      ensures this.catalog == catalog && this.notAvailableText == notAvailableText
      ensures this.availablePrefix == availablePrefix
      ensures |this.colorButtons| == |colorButtons|
      ensures colorButtons == [] ==> selectedColor.None? && this.colorButtons == colorButtons
      ensures colorButtons != [] ==> (selectedColor == Some(colorButtons[0].color)
        && forall k :: 0 <= k < |colorButtons| ==>
             this.colorButtons[k] == colorButtons[k].(pressed := k == 0))
      ensures colorButtons == [] ==> (selectedSize.None?
        && view == page.(sizeButtons := [], thumbnails := [], galleryPresent := false))
      ensures colorButtons != [] ==> selectedSize == FirstEnabledSize(view.sizeButtons)
      ensures view.galleryPresent == (view.thumbnails != [])
      ensures colorButtons != [] && colorButtons[0].color != "" && view.thumbnails != [] ==>
        view.mainImage == view.thumbnails[0].imageUrl && view.mainImageAlt == colorButtons[0].color
      ensures colorButtons == [] || colorButtons[0].color == "" || view.thumbnails == [] ==>
        view.mainImage == page.mainImage && view.mainImageAlt == page.mainImageAlt
      ensures colorButtons != [] && ColorVariantsAll(catalog, colorButtons[0].color) == [] ==>
        view.price == page.price
    {
      this.catalog := catalog;
      this.notAvailableText := notAvailableText;
      this.availablePrefix := availablePrefix;
      this.colorButtons := colorButtons;
      selectedColor := None;
      selectedSize := None;
      view := page.(sizeButtons := [], thumbnails := [], galleryPresent := false);
      new;
      if |colorButtons| > 0 {
        HandleColorClick(0);
      }
    }

    /**
     * handleColorClick: select the color, re-render its gallery and size
     * buttons, clear the size and auto-select the first enabled size (or fall
     * back to the no-size display).
     */
    method HandleColorClick(i: nat)
      requires i < |colorButtons|
      modifies this
      ensures Valid()
      ensures selectedColor == Some(old(colorButtons[i].color))
      ensures |colorButtons| == old(|colorButtons|)
      ensures forall k :: 0 <= k < |colorButtons| ==>
        colorButtons[k] == old(colorButtons[k]).(pressed := k == i)
      ensures selectedSize == FirstEnabledSize(view.sizeButtons)
      ensures ColorVariantsAll(catalog, selectedColor.value) == [] ==> view.price == old(view.price)
      ensures view.galleryPresent == (view.thumbnails != [] || old(view.galleryPresent))
      ensures var c := selectedColor.value;
        if c != "" && view.thumbnails != []
        then view.mainImage == view.thumbnails[0].imageUrl && view.mainImageAlt == c
        else view.mainImage == old(view.mainImage) && view.mainImageAlt == old(view.mainImageAlt)
    {
      var color := colorButtons[i].color;
      selectedColor := Some(color);
      UpdateColorButtonStates(i);
      RenderThumbnailsForColor(color);
      LoadSizesForColor(color);
    }

    /** updateColorButtonStates: clear every color button, then mark the clicked one. */
    method UpdateColorButtonStates(active: nat)
      requires active < |colorButtons|
      modifies this`colorButtons
      ensures |colorButtons| == old(|colorButtons|)
      ensures forall k :: 0 <= k < |colorButtons| ==>
        colorButtons[k] == old(colorButtons[k]).(pressed := k == active)
    {
      var k := 0;
      while k < |colorButtons|
        invariant k <= |colorButtons| == old(|colorButtons|)
        invariant forall j :: 0 <= j < |colorButtons| ==>
          colorButtons[j] == old(colorButtons[j]).(pressed := if j < k then false else old(colorButtons[j]).pressed)
      {
        colorButtons := colorButtons[k := colorButtons[k].(pressed := false)];
        k := k + 1;
      }
      colorButtons := colorButtons[active := colorButtons[active].(pressed := true)];
    }

    /** renderThumbnailsForColor: rebuild the gallery for the color, show its first image. */
    method RenderThumbnailsForColor(color: string)
      requires selectedColor == Some(color)
      modifies this`view
      ensures GalleryValid(color)
      ensures view.galleryPresent == (view.thumbnails != [] || old(view.galleryPresent))
      ensures if color != "" && view.thumbnails != []
        then view.mainImage == view.thumbnails[0].imageUrl && view.mainImageAlt == color
        else view.mainImage == old(view.mainImage) && view.mainImageAlt == old(view.mainImageAlt)
      ensures view.(thumbnails := old(view.thumbnails), galleryPresent := old(view.galleryPresent),
        mainImage := old(view.mainImage), mainImageAlt := old(view.mainImageAlt)) == old(view)
    {
      view := view.(thumbnails := []);
      var colorVariants := ColorVariants(catalog, color);
      if |colorVariants| == 0 {
        return;
      }
      view := view.(thumbnails := colorVariants);
      UpdateMainImage(0);
      // initSwiper: any previous gallery instance is destroyed and a new one created.
      view := view.(galleryPresent := true);
    }

    /** updateMainImage: show the image of the selected color's thumbnail at `index`, if there is one. */
    method UpdateMainImage(index: int)
      modifies this`view
      ensures var cv := if selectedColor.Some? then ColorVariants(catalog, selectedColor.value) else [];
        if selectedColor.Some? && selectedColor.value != "" && 0 <= index < |cv|
        then view == old(view).(mainImage := cv[index].imageUrl, mainImageAlt := cv[index].color)
        else view == old(view)
    {
      if selectedColor.None? || selectedColor.value == "" {
        return;
      }
      var colorVariants := ColorVariants(catalog, selectedColor.value);
      if 0 <= index < |colorVariants| {
        var variant := colorVariants[index];
        view := view.(mainImage := variant.imageUrl, mainImageAlt := variant.color);
      }
    }

    /** handleThumbnailClick: the gallery reports the clicked slide's index, or nothing. */
    method HandleThumbnailClick(clickedIndex: Option<int>)
      requires Valid()
      modifies this`view
      ensures Valid()
      ensures var t := old(view.thumbnails);
        if clickedIndex.Some? && 0 <= clickedIndex.value < |t| && selectedColor.value != ""
        then view == old(view).(mainImage := t[clickedIndex.value].imageUrl, mainImageAlt := t[clickedIndex.value].color)
        else view == old(view)
    {
      if clickedIndex.Some? {
        UpdateMainImage(clickedIndex.value);
      }
    }

    /** loadSizesForColor: clear the sizes, build one button per distinct size, auto-select. */
    method LoadSizesForColor(color: string)
      requires selectedColor == Some(color) && GalleryValid(color)
      modifies this`view, this`selectedSize
      ensures Valid()
      ensures selectedSize == FirstEnabledSize(view.sizeButtons)
      ensures ColorVariantsAll(catalog, color) == [] ==> view.price == old(view.price)
      ensures view.thumbnails == old(view.thumbnails) && view.galleryPresent == old(view.galleryPresent)
      ensures view.mainImage == old(view.mainImage) && view.mainImageAlt == old(view.mainImageAlt)
    {
      // clearSizes
      view := view.(sizeButtons := []);
      selectedSize := None;
      var colorVariants := ColorVariantsAll(catalog, color);
      var uniqueSizes := UniqueSizes(colorVariants);
      var buttons := CreateSizeButtons(uniqueSizes, colorVariants);
      forall k | 0 <= k < |uniqueSizes|
        ensures FindVariantBySize(colorVariants, uniqueSizes[k]) == FindVariant(catalog, color, Some(uniqueSizes[k]))
      {
        FindBySizeIsFindVariant(catalog, color, uniqueSizes[k]);
      }
      view := view.(sizeButtons := buttons);
      assert SizeButtonsShown(color, selectedSize, view.sizeButtons);
      SelectFirstAvailableSize(colorVariants);
    }

    /** selectFirstAvailableSize: click the first enabled size, or show the no-size fallback. */
    method SelectFirstAvailableSize(colorVariants: seq<Variant>)
      requires selectedColor.Some? && colorVariants == ColorVariantsAll(catalog, selectedColor.value)
      requires selectedSize.None? && GalleryValid(selectedColor.value)
        && SizeButtonsShown(selectedColor.value, selectedSize, view.sizeButtons)
      modifies this`view, this`selectedSize
      ensures Valid() && selectedColor == old(selectedColor)
      ensures selectedSize == FirstEnabledSize(view.sizeButtons)
      ensures colorVariants == [] ==> view.price == old(view.price)
      ensures view.thumbnails == old(view.thumbnails) && view.galleryPresent == old(view.galleryPresent)
      ensures view.mainImage == old(view.mainImage) && view.mainImageAlt == old(view.mainImageAlt)
    {
      var firstAvailable := FirstEnabled(view.sizeButtons);
      if firstAvailable.Some? {
        var k := firstAvailable.value;
        assert colorVariants != [] by {
          var sizes := UniqueSizes(colorVariants);
          assert k < |sizes|;
          var v :| v in colorVariants && v.size == sizes[k];
        }
        view := view.(priceVisible := true);
        HandleSizeClick(k);
        FirstEnabledSizeAt(view.sizeButtons, k);
      } else {
        HandleNoAvailableSizes(colorVariants);
        assert view.sizeButtons == old(view.sizeButtons);
      }
    }

    /**
     * handleSizeClick: select the size, mark its button, and show the stock,
     * prices and cart link of its variant. Browsers deliver no click to a
     * disabled button, so the button is enabled.
     */
    method HandleSizeClick(k: nat)
      requires selectedColor.Some? && GalleryValid(selectedColor.value)
        && SizeButtonsShown(selectedColor.value, selectedSize, view.sizeButtons)
      requires k < |view.sizeButtons| && !view.sizeButtons[k].disabled && view.priceVisible
      modifies this`view, this`selectedSize
      ensures Valid()
      ensures selectedSize == Some(old(view.sizeButtons[k].size))
      ensures view.thumbnails == old(view.thumbnails) && view.galleryPresent == old(view.galleryPresent)
      ensures view.mainImage == old(view.mainImage) && view.mainImageAlt == old(view.mainImageAlt)
      ensures |view.sizeButtons| == old(|view.sizeButtons|)
      ensures forall j :: 0 <= j < |view.sizeButtons| ==> (view.sizeButtons[j].size == old(view.sizeButtons[j].size)
        && view.sizeButtons[j].disabled == old(view.sizeButtons[j].disabled))
    {
      var color := selectedColor.value;
      var size := view.sizeButtons[k].size;
      var before := view.sizeButtons;
      selectedSize := Some(size);
      UpdateSizeButtonStates(k);
      SizeButtonsActivate(color, old(selectedSize), before, view.sizeButtons, k);
      UpdateStockInfo(color, Some(size));
      UpdatePrice(color, Some(size));
      UpdateCartLink(color, Some(size));
    }

    /**
     * Marking button `k` active, and no other, shows its size as the selected
     * one; and an enabled button's size has an in-stock variant.
     */
    lemma SizeButtonsActivate(color: string, selected: Option<string>, buttons: seq<SizeButton>,
                              buttons': seq<SizeButton>, k: nat)
      requires SizeButtonsShown(color, selected, buttons)
      requires k < |buttons| == |buttons'|
      requires forall j :: 0 <= j < |buttons| ==> buttons'[j] == buttons[j].(active := j == k)
      ensures SizeButtonsShown(color, Some(buttons[k].size), buttons')
      ensures IsVariantAvailable(FindVariant(catalog, color, Some(buttons[k].size))) <==> !buttons[k].disabled
    {
      var sizes := UniqueSizes(ColorVariantsAll(catalog, color));
      forall j | 0 <= j < |sizes|
        ensures buttons'[j].active <==> Some(buttons[k].size) == Some(sizes[j])
      {
        assert buttons[k].size == sizes[k];
      }
    }

    /** A click on a size button: the browser ignores it when the button is disabled. */
    method ClickSizeButton(k: nat)
      requires Valid() && k < |view.sizeButtons|
      modifies this`view, this`selectedSize
      ensures Valid()
      ensures old(view.sizeButtons[k].disabled) ==> selectedSize == old(selectedSize) && view == old(view)
      ensures !old(view.sizeButtons[k].disabled) ==> selectedSize == Some(old(view.sizeButtons[k].size))
      ensures view.thumbnails == old(view.thumbnails) && view.galleryPresent == old(view.galleryPresent)
      ensures view.mainImage == old(view.mainImage) && view.mainImageAlt == old(view.mainImageAlt)
      ensures |view.sizeButtons| == old(|view.sizeButtons|)
      ensures forall j :: 0 <= j < |view.sizeButtons| ==> (view.sizeButtons[j].size == old(view.sizeButtons[j].size)
        && view.sizeButtons[j].disabled == old(view.sizeButtons[j].disabled))
    {
      if !view.sizeButtons[k].disabled {
        HandleSizeClick(k);
      }
    }

    /** updateSizeButtonStates: clear every size button, then mark the clicked one. */
    method UpdateSizeButtonStates(active: nat)
      requires active < |view.sizeButtons|
      modifies this`view
      ensures |view.sizeButtons| == old(|view.sizeButtons|)
      ensures forall k :: 0 <= k < |view.sizeButtons| ==>
        view.sizeButtons[k] == old(view.sizeButtons[k]).(active := k == active)
      ensures view.(sizeButtons := old(view.sizeButtons)) == old(view)
    {
      var buttons := view.sizeButtons;
      var k := 0;
      while k < |buttons|
        invariant k <= |buttons| == old(|view.sizeButtons|)
        invariant forall j :: 0 <= j < |buttons| ==>
          buttons[j] == old(view.sizeButtons[j]).(active := if j < k then false else old(view.sizeButtons[j]).active)
      {
        buttons := buttons[k := buttons[k].(active := false)];
        k := k + 1;
      }
      buttons := buttons[active := buttons[active].(active := true)];
      view := view.(sizeButtons := buttons);
    }

    /**
     * updateStockInfo: nothing changes when no variant matches. The branch
     * on stock is the one Display.StockText states; the ensures ties the two.
     */
    method UpdateStockInfo(color: string, size: Option<string>)
      modifies this`view
      ensures var v := FindVariant(catalog, color, size);
        view == if v.None? then old(view)
                else old(view).(stockText := StockText(v.value, notAvailableText, availablePrefix))
    {
      var variant := FindVariant(catalog, color, size);
      if variant.None? {
        return;
      }
      var text: string;
      if !variant.value.available {
        text := notAvailableText;
      } else if variant.value.qty > 0 {
        text := availablePrefix + NatToDecimal(variant.value.qty);
      } else {
        text := availablePrefix + "Available";
      }
      view := view.(stockText := text);
    }

    /**
     * updatePrice: nothing changes when no variant matches. The branch on the
     * compare-at price is the one Display.PriceFor states; the ensures ties the two.
     */
    method UpdatePrice(color: string, size: Option<string>)
      modifies this`view
      ensures var v := FindVariant(catalog, color, size);
        view == if v.None? then old(view) else old(view).(price := PriceFor(v.value))
    {
      var variant := FindVariant(catalog, color, size);
      if variant.None? {
        return;
      }
      var price := view.price.(newPrice := variant.value.priceMoney);
      if variant.value.compareAtPrice > variant.value.price {
        price := price.(oldPrice := variant.value.compareAtPriceMoney, oldPriceVisible := true);
      } else {
        price := price.(oldPrice := "", oldPriceVisible := false);
      }
      view := view.(price := price);
    }

    /**
     * updateCartLink: the branch on availability is the one
     * Display.CartLinkFor states; the ensures ties the two.
     */
    method UpdateCartLink(color: string, size: Option<string>)
      modifies this`view
      ensures view == old(view).(cart := CartLinkFor(FindVariant(catalog, color, size)))
    {
      var variant := FindVariant(catalog, color, size);
      if variant.Some? && variant.value.available {
        view := view.(cart := CartLink(CartAddHref(variant.value.id), false));
      } else {
        view := view.(cart := CartLink("#", true));
      }
    }

    /** handleNoAvailableSizes */
    method HandleNoAvailableSizes(colorVariants: seq<Variant>)
      requires selectedColor.Some? && colorVariants == ColorVariantsAll(catalog, selectedColor.value)
      requires selectedSize.None? && GalleryValid(selectedColor.value)
        && SizeButtonsShown(selectedColor.value, selectedSize, view.sizeButtons)
      requires forall k :: 0 <= k < |view.sizeButtons| ==> view.sizeButtons[k].disabled
      modifies this`view
      ensures Valid()
      ensures view.(priceVisible := old(view.priceVisible), stockText := old(view.stockText),
        cart := old(view.cart), price := old(view.price)) == old(view)
      ensures colorVariants == [] ==> view.price == old(view.price)
    {
      var color := selectedColor.value;
      view := view.(priceVisible := false);
      view := view.(stockText := notAvailableText);
      FindVariantNullSize(catalog, color);
      UpdateCartLink(color, None);
      if |colorVariants| > 0 {
        var firstVariant := colorVariants[0];
        FirstOfColorIsFound(catalog, color);
        UpdatePrice(firstVariant.color, Some(firstVariant.size));
      }
      assert view.sizeButtons == old(view.sizeButtons) && view.thumbnails == old(view.thumbnails);
    }
  }

  /**
   * In a valid selector the selected size has exactly one button: it is
   * enabled and it is the only active one.
   */
  lemma SelectedSizeHasOneActiveButton(s: VariantSelector)
    requires s.Valid() && s.selectedSize.Some?
    ensures exists k :: (0 <= k < |s.view.sizeButtons| && s.view.sizeButtons[k].active
      && !s.view.sizeButtons[k].disabled && s.view.sizeButtons[k].size == s.selectedSize.value)
    ensures forall j, k :: (0 <= j < |s.view.sizeButtons| && 0 <= k < |s.view.sizeButtons|
      && s.view.sizeButtons[j].active && s.view.sizeButtons[k].active) ==> j == k
  {
    var color, size := s.selectedColor.value, s.selectedSize.value;
    var all := ColorVariantsAll(s.catalog, color);
    var sizes := UniqueSizes(all);
    var v := FindVariant(s.catalog, color, Some(size)).value;
    assert v in all;
    UniqueSizesCover(all);
    var k :| 0 <= k < |sizes| && sizes[k] == size;
    assert s.view.sizeButtons[k].size == size;
  }

  /**
   * Whatever size is selected, the stock line is the availability prefix
   * followed by the variant's quantity, and the cart link adds that variant:
   * the "not available" and quantity-less "Available" lines never show for a
   * selected size, because a size is only selectable when in stock.
   */
  lemma SelectedSizeShowsQuantity(s: VariantSelector)
    requires s.Valid() && s.selectedSize.Some?
    ensures var v := FindVariant(s.catalog, s.selectedColor.value, s.selectedSize);
      && v.Some? && v.value.qty > 0
      && s.view.stockText == s.availablePrefix + NatToDecimal(v.value.qty)
      && !s.view.cart.disabled && HrefVariantId(s.view.cart.href) == Some(v.value.id)
  {
  }

  /**
   * Most of the widget's output is determined by the catalog and the
   * selection: two valid selectors over the same catalog and labels with the
   * same selection show the same thumbnails, size buttons, stock line,
   * price-block visibility and cart link, and the same prices unless the color
   * has no variants. The main image and the gallery instance are not
   * determined by the selection.
   */
  lemma ViewDeterminedBySelection(a: VariantSelector, b: VariantSelector)
    requires a.Valid() && b.Valid()
    requires a.catalog == b.catalog && a.notAvailableText == b.notAvailableText
    requires a.availablePrefix == b.availablePrefix
    requires a.selectedColor == b.selectedColor && a.selectedSize == b.selectedSize
    requires a.selectedColor.Some?
    ensures a.view.thumbnails == b.view.thumbnails && a.view.sizeButtons == b.view.sizeButtons
    ensures a.view.stockText == b.view.stockText && a.view.cart == b.view.cart
    ensures a.view.priceVisible == b.view.priceVisible
    ensures a.selectedSize.Some? || ColorVariantsAll(a.catalog, a.selectedColor.value) != [] ==>
      a.view.price == b.view.price
  {
    var sizes := UniqueSizes(ColorVariantsAll(a.catalog, a.selectedColor.value));
    assert |a.view.sizeButtons| == |sizes| == |b.view.sizeButtons|;
    forall k | 0 <= k < |sizes| ensures a.view.sizeButtons[k] == b.view.sizeButtons[k] {
    }
  }

  /**
   * init: the widget starts only when the embedded variant data parsed to a
   * non-empty array.
   */
  method Init(parsed: Option<seq<Variant>>, colorButtons: seq<ColorButton>,
              notAvailableText: string, availablePrefix: string, page: View)
    returns (selector: Option<VariantSelector>)
    ensures selector.None? <==> parsed.None? || parsed.value == []
    ensures selector.Some? ==> (fresh(selector.value) && selector.value.Valid()
      && selector.value.catalog == parsed.value
      && selector.value.notAvailableText == notAvailableText
      && selector.value.availablePrefix == availablePrefix
      && selector.value.view.galleryPresent == (selector.value.view.thumbnails != []))
    ensures selector.Some? && colorButtons == [] ==>
      var s := selector.value;
      && s.selectedColor.None? && s.selectedSize.None? && s.colorButtons == []
      && s.view == page.(sizeButtons := [], thumbnails := [], galleryPresent := false)
    ensures selector.Some? && colorButtons != [] ==>
      var s := selector.value;
      && s.selectedColor == Some(colorButtons[0].color)
      && |s.colorButtons| == |colorButtons|
      && (forall k :: 0 <= k < |colorButtons| ==> s.colorButtons[k] == colorButtons[k].(pressed := k == 0))
      && s.selectedSize == FirstEnabledSize(s.view.sizeButtons)
      && (colorButtons[0].color != "" && s.view.thumbnails != [] ==>
            s.view.mainImage == s.view.thumbnails[0].imageUrl
            && s.view.mainImageAlt == colorButtons[0].color)
      && (colorButtons[0].color == "" || s.view.thumbnails == [] ==>
            s.view.mainImage == page.mainImage && s.view.mainImageAlt == page.mainImageAlt)
      && (ColorVariantsAll(parsed.value, colorButtons[0].color) == [] ==> s.view.price == page.price)
  {
    if parsed.None? || parsed.value == [] {
      return None;
    }
    var s := new VariantSelector(parsed.value, colorButtons, notAvailableText, availablePrefix, page);
    return Some(s);
  }
}
