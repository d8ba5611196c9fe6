/**
 * What the spotlight shows for one variant: the stock line, the price pair
 * and the add-to-cart link (updateStockInfo, updatePrice and updateCartLink
 * in assets/product-spotlight.js).
 */
module Display {
  import opened Options
  import opened Decimal
  import opened Variants

  /**
   * The stock line, by priority: not available, then a positive quantity,
   * then available with no tracked quantity.
   */
  function StockText(v: Variant, notAvailableText: string, availablePrefix: string): (r: string)
    ensures !v.available ==> r == notAvailableText
    ensures v.available ==> |availablePrefix| <= |r| && r[..|availablePrefix|] == availablePrefix
    ensures v.available && v.qty > 0 ==> ParseDecimal(r[|availablePrefix|..]) == Some(v.qty)
    ensures v.available && v.qty > 0 ==> (|r| > |availablePrefix|
      && (|r| > |availablePrefix| + 1 ==> r[|availablePrefix|] != '0'))
    ensures v.available && v.qty <= 0 ==> r[|availablePrefix|..] == "Available"
  {
    if !v.available then notAvailableText
    else if v.qty > 0 then
      ParseNatToDecimal(v.qty);
      var r := availablePrefix + NatToDecimal(v.qty);
      assert r[|availablePrefix|..] == NatToDecimal(v.qty);
      r
    else
      var r := availablePrefix + "Available";
      assert r[|availablePrefix|..] == "Available";
      r
  }

  /** The new-price text and the old-price element (its text and whether it is displayed). */
  datatype PriceView = PriceView(newPrice: string, oldPrice: string, oldPriceVisible: bool)

  function PriceFor(v: Variant): (r: PriceView)
    ensures r.newPrice == v.priceMoney
    ensures r.oldPriceVisible <==> v.compareAtPrice > v.price
    ensures r.oldPriceVisible ==> r.oldPrice == v.compareAtPriceMoney
    ensures !r.oldPriceVisible ==> r.oldPrice == ""
  {
    if v.compareAtPrice > v.price then PriceView(v.priceMoney, v.compareAtPriceMoney, true)
    else PriceView(v.priceMoney, "", false)
  }

  /** The add-to-cart anchor: its href and whether it carries the disabled/unavailable state. */
  datatype CartLink = CartLink(href: string, disabled: bool)

  const CartAddPrefix: string := "/cart/add?id="
  const CartAddSuffix: string := "&quantity=1"

  /** The href of updateCartLink's template: it names the variant's id and nothing else. */
  function CartAddHref(id: nat): (href: string)
    ensures HrefVariantId(href) == Some(id)
    ensures |href| > |CartAddPrefix| + |CartAddSuffix|
    ensures |href| > |CartAddPrefix| + |CartAddSuffix| + 1 ==> href[|CartAddPrefix|] != '0'
  {
    var d := NatToDecimal(id);
    var href := CartAddPrefix + d + CartAddSuffix;
    assert href[..|CartAddPrefix|] == CartAddPrefix;
    assert href[|href| - |CartAddSuffix|..] == CartAddSuffix;
    assert href[|CartAddPrefix|..|href| - |CartAddSuffix|] == d;
    ParseNatToDecimal(id);
    href
  }

  /** The variant id a cart-add href names, if it is one. */
  function HrefVariantId(href: string): Option<nat> {
    var p, q := |CartAddPrefix|, |CartAddSuffix|;
    if |href| >= p + q && href[..p] == CartAddPrefix && href[|href| - q..] == CartAddSuffix
    then ParseDecimal(href[p..|href| - q])
    else None
  }

  /** Distinct variants get distinct cart-add links. */
  lemma CartAddHrefInjective(a: nat, b: nat)
    requires a != b
    ensures CartAddHref(a) != CartAddHref(b)
  {
  }

  /**
   * The link adds one unit of the variant to the cart exactly when the
   * variant exists and is marked available; the stock quantity is not consulted.
   */
  function CartLinkFor(v: Option<Variant>): (r: CartLink)
    ensures !r.disabled <==> v.Some? && v.value.available
    ensures !r.disabled ==> HrefVariantId(r.href) == Some(v.value.id)
    ensures r.disabled ==> r.href == "#" && HrefVariantId(r.href) == None
  {
    if v.Some? && v.value.available then
      CartLink(CartAddHref(v.value.id), false)
    else CartLink("#", true)
  }

  /**
   * An available variant with no stock still gets a live cart link, though
   * its size button is disabled.
   */
  lemma CartLinkIgnoresStock(v: Variant)
    requires v.available && v.qty <= 0
    ensures !CartLinkFor(Some(v)).disabled && !IsVariantAvailable(Some(v))
  {
  }
}
