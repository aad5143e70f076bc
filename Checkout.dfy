/**
 The checkout page itself: the colour table and its label lookup, the order
 summary, the submit button's `disabled` state and label, and the page state
 (`formData`, `isSubmitting`) with the handlers that change it.
 `formatPrice` is left uninterpreted: an amount appears in the views below as
 the integer it would format.
 */
module Checkout {
  import opened Wrappers
  import opened Pricing
  import opened OrderForm
  import opened Stepper
  import opened JsString

  datatype ColorChoice = ColorChoice(value: string, caption: string, swatch: string)

  /** The colour buttons, in display order. */
  const Colors: seq<ColorChoice> := [
    ColorChoice("default", "Default White", "#f5f5f5"),
    ColorChoice("black", "Midnight Black", "#1a1a1a"),
    ColorChoice("blue", "Ocean Blue", "#2563eb"),
    ColorChoice("green", "Forest Green", "#16a34a"),
    ColorChoice("pink", "Rose Pink", "#db2777")
  ]

  /** `choices.find(c => c.value === value)?.label`: the label of the first choice
      with that value, `None` (rendered as nothing) when there is none. */
  function FindLabel(choices: seq<ColorChoice>, value: string): (r: Option<string>)
    ensures r.None? <==> forall i | 0 <= i < |choices| :: choices[i].value != value
    ensures r.Some? ==> exists i | 0 <= i < |choices| ::
      && choices[i].value == value && choices[i].caption == r.value
      && forall j | 0 <= j < i :: choices[j].value != value
  {
    if choices == [] then None
    else if choices[0].value == value then Some(choices[0].caption)
    else
      var r := FindLabel(choices[1..], value);
      assert forall i | 1 <= i < |choices| :: choices[i] == choices[1..][i - 1];
      r
  }

  predicate DistinctValues(choices: seq<ColorChoice>) {
    forall i, j | 0 <= i < j < |choices| :: choices[i].value != choices[j].value
  }

  /** With distinct values, looking up a choice's value gives that choice's label. */
  lemma FindLabelOfChoice(choices: seq<ColorChoice>, k: int)
    requires DistinctValues(choices) && 0 <= k < |choices|
    ensures FindLabel(choices, choices[k].value) == Some(choices[k].caption)
  {
    var r := FindLabel(choices, choices[k].value);
    var i :| 0 <= i < |choices| && choices[i].value == choices[k].value && choices[i].caption == r.value
      && forall j | 0 <= j < i :: choices[j].value != choices[k].value;
    assert i == k;
  }

  /** The label the summary shows for the selected colour. */
  function ColorLabel(value: string): Option<string> {
    FindLabel(Colors, value)
  }

  /** Every colour button's value shows its own label; the initial `default` shows
      `Default White`; a value outside the table shows nothing. */
  lemma ColorLabels()
    ensures forall k | 0 <= k < |Colors| :: ColorLabel(Colors[k].value) == Some(Colors[k].caption)
    ensures ColorLabel(InitialDraft.productColor) == Some("Default White")
    ensures ColorLabel("red") == None
  {
    assert DistinctValues(Colors);
    forall k | 0 <= k < |Colors| ensures ColorLabel(Colors[k].value) == Some(Colors[k].caption) {
      FindLabelOfChoice(Colors, k);
    }
    assert Colors[0].value == InitialDraft.productColor;
  }

  /** The shipping cell of the summary: `Free`, or a formatted charge. */
  datatype ShippingCell = Free | Charged(amount: int)

  /** What the order summary card shows. `discount` is the optional "Shipping
      Discount" row with the amount it subtracts. */
  datatype OrderSummary = OrderSummary(
    colorLabel: Option<string>,
    quantity: int,
    price: int,
    shipping: ShippingCell,
    discount: Option<int>,
    total: int)

  function ShippingAmount(cell: ShippingCell): int {
    match cell
    case Free => 0
    case Charged(amount) => amount
  }

  function Summary(d: OrderDraft): OrderSummary {
    var shipping := ShippingCost(d.quantity);
    OrderSummary(
      ColorLabel(d.productColor),
      d.quantity,
      Subtotal(d.quantity),
      if shipping == 0 then Free else Charged(shipping),
      if d.quantity >= 2 then Some(5) else None,
      Total(d.quantity))
  }

  /** The summary's rows agree with each other: shipping shows `Free` exactly when the
      discount row is shown, which is exactly from two bottles on; the total is the
      price plus the shipping shown, and also the price plus the standard charge
      minus the discount. */
  lemma SummaryIsConsistent(d: OrderDraft)
    ensures Summary(d).shipping == Free <==> Summary(d).discount.Some?
    ensures Summary(d).discount.Some? <==> d.quantity >= 2
    ensures Summary(d).shipping != Free ==> Summary(d).shipping == Charged(StandardShipping)
    ensures Summary(d).price == UnitPrice * d.quantity
    ensures Summary(d).total == Summary(d).price + ShippingAmount(Summary(d).shipping)
    ensures Summary(d).total == Summary(d).price + StandardShipping - Summary(d).discount.GetOr(0)
  {
    ShippingFreeIff(d.quantity);
  }

  /** The submit button's text: the spinner with `Processing...`, the hint, or
      `Pay` followed by the formatted total. */
  datatype ButtonLabel = Processing | FillRequiredFields | Pay(amount: int)

  /** `disabled={isSubmitting || !isFormValid()}`. */
  predicate SubmitDisabled(isSubmitting: bool, d: OrderDraft) {
    isSubmitting || !IsFormValid(d)
  }

  /** The label, chosen in priority order: submitting, then invalid, then pay. */
  function SubmitLabel(isSubmitting: bool, d: OrderDraft): ButtonLabel {
    if isSubmitting then Processing
    else if !IsFormValid(d) then FillRequiredFields
    else Pay(Total(d.quantity))
  }

  /** Each label is shown exactly in its case, and the `Pay` label (with the
      summary's total) is shown exactly when the button is enabled. */
  lemma LabelMatchesState(isSubmitting: bool, d: OrderDraft)
    ensures SubmitLabel(isSubmitting, d) == Processing <==> isSubmitting
    ensures SubmitLabel(isSubmitting, d) == FillRequiredFields <==> !isSubmitting && !IsFormValid(d)
    ensures SubmitLabel(isSubmitting, d).Pay? <==> !SubmitDisabled(isSubmitting, d)
    ensures SubmitLabel(isSubmitting, d).Pay? ==> SubmitLabel(isSubmitting, d).amount == Summary(d).total
  {
  }

  /** A fresh page shows the hint on a disabled button. */
  lemma InitialButton()
    ensures SubmitDisabled(false, InitialDraft)
    ensures SubmitLabel(false, InitialDraft) == FillRequiredFields
  {
    InitialDraftInvalid();
  }

  /** A fresh page's summary: `Default White`, one bottle at 35, shipping charged at 5,
      no discount row, total 40; the quantity starts inside the stepper's range. */
  lemma InitialSummary()
    ensures Summary(InitialDraft) == OrderSummary(Some("Default White"), 1, 35, Charged(5), None, 40)
    ensures InRange(InitialDraft.quantity)
  {
    ColorLabels();
  }

  /** The checkout page's state and the handlers that change it. */
  class CheckoutPage {
    var formData: OrderDraft
    var isSubmitting: bool

    /** The page's initial state: the initial draft, not submitting. */
    constructor ()
      ensures formData == InitialDraft && !isSubmitting
    {
      formData := InitialDraft;
      isSubmitting := false;
    }

    /** The quantity is in the buttons' range [1, 10]. */
    predicate QuantityInRange()
      reads this
    {
      InRange(formData.quantity)
    }

    /** `handleInputChange` and `handleSelectChange` on a string field (the text
        inputs, the municipality select, the colour and payment buttons). */
    method SetField(f: TextField, value: string)
      modifies this
      ensures formData == WithText(old(formData), f, value)
      ensures isSubmitting == old(isSubmitting)
      ensures old(QuantityInRange()) ==> QuantityInRange()
    {
      formData := WithText(formData, f, value);
    }

    /** The `-` button's click handler. */
    method DecrementQuantity()
      modifies this
      ensures formData == WithQuantity(old(formData), Decremented(old(formData.quantity)))
      ensures old(formData.quantity) > 1 ==> formData.quantity == old(formData.quantity) - 1
      ensures old(formData.quantity) <= 1 ==> formData == old(formData)
      ensures isSubmitting == old(isSubmitting)
      ensures old(QuantityInRange()) ==> QuantityInRange()
    {
      if formData.quantity > 1 {
        formData := WithQuantity(formData, formData.quantity - 1);
      }
    }

    /** The `+` button's click handler. */
    method IncrementQuantity()
      modifies this
      ensures formData == WithQuantity(old(formData), Incremented(old(formData.quantity)))
      ensures old(formData.quantity) < 10 ==> formData.quantity == old(formData.quantity) + 1
      ensures old(formData.quantity) >= 10 ==> formData == old(formData)
      ensures isSubmitting == old(isSubmitting)
      ensures old(QuantityInRange()) ==> QuantityInRange()
    {
      if formData.quantity < 10 {
        formData := WithQuantity(formData, formData.quantity + 1);
      }
    }

    /** The quantity input's change handler, given the input's raw value. It does not
        keep the quantity in range (see `Stepper.TypedInputEscapesRange`). */
    method TypeQuantity(raw: string)
      modifies this
      ensures formData == WithQuantity(old(formData), TypedQuantity(raw))
      ensures isSubmitting == old(isSubmitting)
    {
      formData := WithQuantity(formData, TypedQuantity(raw));
    }

    /** A click on the submit button: a disabled button does nothing; otherwise
        `handleSubmit` sets `isSubmitting`. Reports whether submission started. */
    method ClickSubmit() returns (started: bool)
      modifies this
      ensures started == !SubmitDisabled(old(isSubmitting), old(formData))
      ensures isSubmitting == (old(isSubmitting) || started)
      ensures formData == old(formData)
    {
      started := !SubmitDisabled(isSubmitting, formData);
      if started {
        isSubmitting := true;
      }
    }

    /** The end of `handleSubmit`'s simulated delay: `isSubmitting` is cleared. */
    method FinishSubmit()
      modifies this
      ensures !isSubmitting
      ensures formData == old(formData)
    {
      isSubmitting := false;
    }
  }

  /** The draft of a buyer who filled in every required field and chose two bottles. */
  const FilledDraft: OrderDraft :=
    OrderDraft("Ana", "a@b.co", "+670 7000000", "Dili", "Dili", "default", 2, "cod")

  lemma FilledDraftPays()
    ensures !SubmitDisabled(false, FilledDraft)
    ensures SubmitLabel(false, FilledDraft) == Pay(70)
  {
    TrimNonEmptyAt("Ana", 0);
    TrimNonEmptyAt("+670 7000000", 0);
    TrimNonEmptyAt("Dili", 0);
    EmailExamplesDecideValidity(FilledDraft);
    assert FilledDraft == FilledDraft.(email := "a@b.co");
  }

  /** A client of the page: filling in the form enables the button, a click starts
      submission, the button then shows `Processing...` until the delay ends, and
      afterwards it offers to pay the same total again. */
  method CheckoutSession(p: CheckoutPage)
    requires p.formData == InitialDraft && !p.isSubmitting
    modifies p
    ensures p.formData == FilledDraft
    ensures !p.isSubmitting && SubmitLabel(p.isSubmitting, p.formData) == Pay(70)
  {
    p.SetField(Name, "Ana");
    p.SetField(Email, "a@b.co");
    p.SetField(Phone, "+670 7000000");
    p.SetField(Address, "Dili");
    p.SetField(Municipality, "Dili");
    p.IncrementQuantity();
    assert p.formData == FilledDraft;
    FilledDraftPays();
    var started := p.ClickSubmit();
    assert started && SubmitLabel(p.isSubmitting, p.formData) == Processing;
    p.FinishSubmit();
  }
}
