/**
 The checkout form's order draft (`formData`), its single-field updates and the
 validity check `isFormValid` that gates the submit button.
 */
module OrderForm {
  import opened JsString
  import opened EmailPattern

  /** The draft the page keeps in `formData`. */
  datatype OrderDraft = OrderDraft(
    name: string,
    email: string,
    phone: string,
    address: string,
    municipality: string,
    productColor: string,
    quantity: int,
    paymentMethod: string)

  /** The draft a checkout session starts from. */
  const InitialDraft: OrderDraft := OrderDraft("", "", "", "", "", "default", 1, "cod")

  /** The string-valued keys of the draft, as the inputs and selects name them. */
  datatype TextField = Name | Email | Phone | Address | Municipality | ProductColor | PaymentMethod

  function Get(d: OrderDraft, f: TextField): string {
    match f
    case Name => d.name
    case Email => d.email
    case Phone => d.phone
    case Address => d.address
    case Municipality => d.municipality
    case ProductColor => d.productColor
    case PaymentMethod => d.paymentMethod
  }

  /** `{ ...prev, [name]: value }` for a string field: that field becomes `value`,
      every other field keeps its value. */
  function WithText(d: OrderDraft, f: TextField, value: string): (r: OrderDraft)
    ensures Get(r, f) == value
    ensures forall g :: g != f ==> Get(r, g) == Get(d, g)
    ensures r.quantity == d.quantity
  {
    match f
    case Name => d.(name := value)
    case Email => d.(email := value)
    case Phone => d.(phone := value)
    case Address => d.(address := value)
    case Municipality => d.(municipality := value)
    case ProductColor => d.(productColor := value)
    case PaymentMethod => d.(paymentMethod := value)
  }

  /** `{ ...prev, quantity: value }`. */
  function WithQuantity(d: OrderDraft, quantity: int): (r: OrderDraft)
    ensures r.quantity == quantity
    ensures forall g :: Get(r, g) == Get(d, g)
  {
    d.(quantity := quantity)
  }

  /** Two drafts that agree on every field are equal, so the contracts of `WithText`
      and `WithQuantity` determine their results completely. */
  lemma DraftsAgreeOnFields(a: OrderDraft, b: OrderDraft)
    requires forall f :: Get(a, f) == Get(b, f)
    requires a.quantity == b.quantity
    ensures a == b
  {
    assert Get(a, Name) == Get(b, Name) && Get(a, Email) == Get(b, Email);
    assert Get(a, Phone) == Get(b, Phone) && Get(a, Address) == Get(b, Address);
    assert Get(a, Municipality) == Get(b, Municipality);
    assert Get(a, ProductColor) == Get(b, ProductColor);
    assert Get(a, PaymentMethod) == Get(b, PaymentMethod);
  }

  /** Writing a field twice keeps the later value; writing two different fields
      commutes. */
  lemma WithTextOverwritesAndCommutes(d: OrderDraft, f: TextField, g: TextField, v: string, w: string)
    ensures WithText(WithText(d, f, v), f, w) == WithText(d, f, w)
    ensures f != g ==> WithText(WithText(d, f, v), g, w) == WithText(WithText(d, g, w), f, v)
  {
    DraftsAgreeOnFields(WithText(WithText(d, f, v), f, w), WithText(d, f, w));
    if f != g {
      DraftsAgreeOnFields(WithText(WithText(d, f, v), g, w), WithText(WithText(d, g, w), f, v));
    }
  }

  /** `isFormValid`: the five contact and shipping fields are non-empty after `trim()`
      and the raw e-mail has the accepted shape. */
  predicate IsFormValid(d: OrderDraft) {
    && Trim(d.name) != ""
    && Trim(d.email) != ""
    && IsEmailShaped(d.email)
    && Trim(d.phone) != ""
    && Trim(d.address) != ""
    && Trim(d.municipality) != ""
  }

  /** Validity in terms of the characters themselves and the e-mail regular
      expression read literally: each of the five fields holds some non-space
      character and the e-mail matches the pattern. */
  lemma FormValidIff(d: OrderDraft)
    ensures IsFormValid(d) <==>
      && !IsBlank(d.name) && !IsBlank(d.email) && !IsBlank(d.phone)
      && !IsBlank(d.address) && !IsBlank(d.municipality)
      && MatchesPattern(d.email)
  {
    TrimEmptyIffBlank(d.name);
    TrimEmptyIffBlank(d.email);
    TrimEmptyIffBlank(d.phone);
    TrimEmptyIffBlank(d.address);
    TrimEmptyIffBlank(d.municipality);
    ShapedIffMatches(d.email);
  }

  /** The e-mail's `trim() !== ''` test is implied by the pattern test. */
  lemma EmailShapeImpliesNotBlank(email: string)
    requires IsEmailShaped(email)
    ensures Trim(email) != ""
  {
    ShapedHasOneAtAndNoSpace(email);
    TrimEmptyIffBlank(email);
    assert !IsWhiteSpace(email[0]);
  }

  /** Colour, quantity and payment method never affect validity. */
  lemma ValidityIgnoresOrderDetails(d: OrderDraft, color: string, quantity: int, payment: string)
    ensures IsFormValid(d.(productColor := color, quantity := quantity, paymentMethod := payment))
       == IsFormValid(d)
  {
  }

  /** A fresh checkout cannot be submitted (`BlankRequiredFieldInvalidates` covers
      any draft with a blank required field). */
  lemma InitialDraftInvalid()
    ensures !IsFormValid(InitialDraft)
  {
    assert Trim("") == "";
  }

  /** Blanking any one of the five required fields makes the draft invalid. */
  lemma BlankRequiredFieldInvalidates(d: OrderDraft, f: TextField, value: string)
    requires f != ProductColor && f != PaymentMethod
    requires IsBlank(value)
    ensures !IsFormValid(WithText(d, f, value))
  {
    TrimEmptyIffBlank(value);
  }

  /** With the other four fields filled in, `a@b.co` makes the draft valid and
      `not-an-email` does not. */
  lemma EmailExamplesDecideValidity(d: OrderDraft)
    requires Trim(d.name) != "" && Trim(d.phone) != ""
    requires Trim(d.address) != "" && Trim(d.municipality) != ""
    ensures IsFormValid(d.(email := "a@b.co"))
    ensures !IsFormValid(d.(email := "not-an-email"))
  {
    AcceptedExample();
    RefusedExamples();
    EmailShapeImpliesNotBlank("a@b.co");
  }
}
