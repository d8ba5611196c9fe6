/**
 * Inline validation of the product-inquiry form (assets/product-inquiry.js):
 * the quantity input's limits follow the selected variant option, and the
 * submit button and error message follow its availability.
 */
module Inquiry {
  import opened Options

  /**
   * `data-max` of an option after the script reads it: the empty string
   * means no maximum (`null`); otherwise `parseInt` gives a number or NaN
   * (NaN also when the attribute is missing).
   */
  datatype MaxAttr = Blank | NotANumber | Limit(value: int)

  /** A variant `<option>`: disabled when sold out, and its quantity rules as `parseInt` reads them (`None` for NaN). */
  datatype VariantOption = VariantOption(disabled: bool, min: Option<int>, max: MaxAttr, step: Option<int>)

  /** The quantity input's min, max and step attributes and its value as `parseInt` reads it. */
  datatype QtyInput = QtyInput(min: int, max: MaxAttr, step: int, value: Option<int>)

  /** The part of the form the script writes. */
  datatype FormView = FormView(
    qty: QtyInput,
    submitDisabled: bool,
    submitLabel: string,
    errorHidden: bool,
    errorMessage: string)

  /** `parseInt(x) || fallback`: NaN and 0 are falsy. */
  function OrNumber(parsed: Option<int>, fallback: int): (r: int)
    ensures parsed.Some? && parsed.value != 0 ==> r == parsed.value
    ensures parsed.None? || parsed == Some(0) ==> r == fallback
  {
    if parsed.Some? && parsed.value != 0 then parsed.value else fallback
  }

  /** `s || fallback` on strings: the empty string (or a missing data attribute) is falsy. */
  function OrText(s: string, fallback: string): (r: string)
    ensures s != "" ==> r == s
    ensures s == "" ==> r == fallback
  {
    if s != "" then s else fallback
  }

  /**
   * The two sequential clamps of updateQuantityLimits: raise to `min`, then
   * lower to `max`. The max clamp runs last, so it wins when max < min.
   */
  method ClampQuantity(current: int, min: int, max: MaxAttr) returns (r: int)
    ensures max.Limit? ==> r <= max.value
    ensures !max.Limit? || min <= max.value ==> r >= min
    ensures max.Limit? && max.value < min ==> r == max.value
    ensures min <= current && (!max.Limit? || current <= max.value) ==> r == current
    ensures current < min && (!max.Limit? || min <= max.value) ==> r == min
    ensures max.Limit? && min <= max.value < current ==> r == max.value
    ensures r == current || r == min || (max.Limit? && r == max.value)
  {
    r := current;
    if r < min {
      r := min;
    }
    if max.Limit? && r > max.value {
      r := max.value;
    }
  }

  class InquiryForm {
    const hasQtyInput: bool
    const hasVariantSelect: bool
    const hasErrorWrapper: bool
    const hasErrorMessage: bool
    const labelDefault: string   // data-label-default of the submit button, "" when missing
    const labelSoldOut: string   // data-label-sold-out of the submit button, "" when missing
    var view: FormView

    /** The page as rendered, then the limits of the initially selected option. */
    constructor (hasQtyInput: bool, hasVariantSelect: bool, hasErrorWrapper: bool, hasErrorMessage: bool,
                 labelDefault: string, labelSoldOut: string, page: FormView, initialOption: Option<VariantOption>)
      ensures this.hasQtyInput == hasQtyInput && this.hasVariantSelect == hasVariantSelect
      ensures this.hasErrorWrapper == hasErrorWrapper && this.hasErrorMessage == hasErrorMessage
      ensures this.labelDefault == labelDefault && this.labelSoldOut == labelSoldOut
      ensures view.(qty := page.qty) == page
      ensures !(hasVariantSelect && hasQtyInput && initialOption.Some?) ==> view == page
      ensures hasVariantSelect && hasQtyInput && initialOption.Some? ==>
        view.qty == LimitsFor(initialOption.value, page.qty)
    {
      this.hasQtyInput := hasQtyInput;
      this.hasVariantSelect := hasVariantSelect;
      this.hasErrorWrapper := hasErrorWrapper;
      this.hasErrorMessage := hasErrorMessage;
      this.labelDefault := labelDefault;
      this.labelSoldOut := labelSoldOut;
      view := page;
      new;
      if hasVariantSelect {
        UpdateQuantityLimits(initialOption);
      }
    }

    /**
     * The quantity input after updateQuantityLimits ran for `option`: min and
     * step are never 0 (a 0 or NaN falls back to 1), the max is copied, and
     * the value is kept when already in range, otherwise clamped into it
     * (to the max when max < min). The clamping is the one ClampQuantity
     * computes step by step; UpdateQuantityLimits calls that method.
     */
    static ghost function LimitsFor(option: VariantOption, qty: QtyInput): (r: QtyInput)
      ensures r.min == OrNumber(option.min, 1) && r.min != 0
      ensures r.step == OrNumber(option.step, 1) && r.step != 0
      ensures r.max == option.max && r.value.Some?
      ensures option.max.Limit? ==> r.value.value <= option.max.value
      ensures !option.max.Limit? || r.min <= option.max.value ==> r.value.value >= r.min
      ensures var start := OrNumber(qty.value, r.min);
        r.min <= start && (!option.max.Limit? || start <= option.max.value) ==> r.value.value == start
      ensures var start := OrNumber(qty.value, r.min);
        start < r.min && (!option.max.Limit? || r.min <= option.max.value) ==> r.value == Some(r.min)
      ensures var start := OrNumber(qty.value, r.min);
        option.max.Limit? && r.min <= option.max.value < start ==> r.value == Some(option.max.value)
      ensures option.max.Limit? && option.max.value < r.min ==> r.value == Some(option.max.value)
    {
      var min := OrNumber(option.min, 1);
      var start := OrNumber(qty.value, min);
      var raised := if start < min then min else start;
      var value := if option.max.Limit? && raised > option.max.value then option.max.value else raised;
      QtyInput(min, option.max, OrNumber(option.step, 1), Some(value))
    }

    /**
     * Running updateQuantityLimits again for the same option changes nothing,
     * unless the first run left the value at 0 under a negative minimum.
     */
    static lemma LimitsIdempotent(option: VariantOption, qty: QtyInput)
      requires OrNumber(option.min, 1) > 0 || LimitsFor(option, qty).value != Some(0)
      ensures LimitsFor(option, LimitsFor(option, qty)) == LimitsFor(option, qty)
    {
    }

    /**
     * `parseInt(value) || min` reads a value of 0 as missing: with min -5 and
     * max 0, a quantity of 3 is clamped to 0, and a second run moves it to -5.
     */
    static lemma ZeroValueIsReadAsMissing()
      ensures var option := VariantOption(false, Some(-5), Limit(0), None);
        var once := LimitsFor(option, QtyInput(1, Blank, 1, Some(3)));
        once.value == Some(0) && LimitsFor(option, once).value == Some(-5)
    {
    }

    /**
     * updateQuantityLimits: min and step default to 1, the max is copied
     * ('' when blank), and the value is clamped.
     */
    method UpdateQuantityLimits(option: Option<VariantOption>)
      modifies this`view
      ensures !hasQtyInput || option.None? ==> view == old(view)
      ensures hasQtyInput && option.Some? ==> view == old(view).(qty := LimitsFor(option.value, old(view.qty)))
    {
      if !hasQtyInput || option.None? {
        return;
      }
      var opt := option.value;
      var min := OrNumber(opt.min, 1);
      var max := opt.max;
      var step := OrNumber(opt.step, 1);
      var currentValue := OrNumber(view.qty.value, min);
      currentValue := ClampQuantity(currentValue, min, max);
      view := view.(qty := QtyInput(min, max, step, Some(currentValue)));
    }

    /**
     * The variant select's change handler: the submit button is disabled and
     * relabelled when the option is sold out, and the inline error shown;
     * otherwise the button is enabled and the error hidden.
     */
    method OnVariantChange(option: VariantOption)
      requires hasVariantSelect
      modifies this`view
      ensures view.submitDisabled == option.disabled
      ensures view.submitLabel == if option.disabled then OrText(labelSoldOut, "Sold Out")
                                  else OrText(labelDefault, "Add to cart")
      ensures view.qty == if hasQtyInput then LimitsFor(option, old(view.qty)) else old(view.qty)
      ensures option.disabled && hasErrorWrapper && hasErrorMessage ==>
        !view.errorHidden && view.errorMessage == OrText(labelSoldOut, "Selected variant is not available.")
      ensures option.disabled && !(hasErrorWrapper && hasErrorMessage) ==>
        view.errorHidden == old(view.errorHidden) && view.errorMessage == old(view.errorMessage)
      ensures !option.disabled ==> (view.errorMessage == old(view.errorMessage)
        && view.errorHidden == (hasErrorWrapper || old(view.errorHidden)))
    {
      var isAvailable := !option.disabled;
      UpdateQuantityLimits(Some(option));
      view := view.(submitDisabled := !isAvailable);
      view := view.(submitLabel := if isAvailable then OrText(labelDefault, "Add to cart")
                                   else OrText(labelSoldOut, "Sold Out"));
      if !isAvailable {
        var soldOutMessage := OrText(labelSoldOut, "Selected variant is not available.");
        ShowInlineMessage(soldOutMessage);
      } else if hasErrorWrapper {
        view := view.(errorHidden := true);
      }
    }

    /** showInlineMessage: only when both the wrapper and the message element exist. */
    method ShowInlineMessage(message: string)
      modifies this`view
      ensures view == if hasErrorWrapper && hasErrorMessage
                      then old(view).(errorHidden := false, errorMessage := message)
                      else old(view)
    {
      if hasErrorWrapper && hasErrorMessage {
        view := view.(errorHidden := false, errorMessage := message);
      }
    }
  }
}
