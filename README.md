# Checkout order state of the JN Smart Bottle landing page

This project models the only logic in the site: the checkout page
(`src/app/checkout/page.tsx`). The model covers four things:

- **The order draft** (`formData`): its initial value, and the two handlers that replace one field.
- **The quantity stepper**: the guarded `-`/`+` buttons with their `disabled` attributes, and the
  number input fed through `parseInt(value) || 1`.
- **Pricing and the order summary**: unit price 35, shipping 5 waived from two bottles on, the
  total, the `Free` shipping cell and the "Shipping Discount" row, and the colour-label lookup.
- **Form validity and submit gating**: `isFormValid`, with the e-mail pattern
  `^[^\s@]+@[^\s@]+\.[^\s@]+$` written as a string predicate. Also the submit button's
  `disabled` state, its three-way label, and the `isSubmitting` flag.

Modules, one file each:

- `Wrappers`: `Option`.
- `JsString`: the JavaScript white-space set, `trim` and decimal `parseInt`.
- `EmailPattern`: the pattern read literally (`MatchesPattern`), plus a decidable description
  (`IsEmailShaped`), with a proof that the two agree.
- `Pricing`: the pricing expressions.
- `OrderForm`: the draft, its field updates and `isFormValid`.
- `Stepper`: the quantity handlers.
- `Checkout`: the colour table, the summary, the button, and the class `CheckoutPage`.

`CheckoutPage` holds the page's state (`formData`, `isSubmitting`). Each handler is a method,
specified by the pure update function it applies.

White space is one concrete predicate, `JsString.IsWhiteSpace`. It is ECMAScript's WhiteSpace and
LineTerminator code points, with the Zs category of Unicode 15. `String.prototype.trim`, the
regular-expression class `\s` and `parseInt`'s leading-space skip all use this same set.

`formatPrice` (`Intl.NumberFormat`) is uninterpreted. Wherever the page shows a formatted
amount, the view datatypes (`ShippingCell.Charged`, `OrderSummary`, `ButtonLabel.Pay`) carry the
integer amount instead.

The input's `min="1"`/`max="10"` are markup only. The buttons keep the quantity in [1, 10], but
the typed input stores any non-zero parsed integer. `Stepper.TypedInputEscapesRange` shows
that typing `25` stores 25 and typing `-3` stores -3. With -3 the total becomes 35 * -3 + 5 = -100.
The pricing functions are defined over all integers for this reason.

## Model

| member | source | states |
|---|---|---|
| `JsString.TrimStart` | src/app/checkout/page.tsx:79-84 | the result is a suffix of the input, everything cut off is white space, and the result is empty or starts with a non-space character |
| `JsString.TrimEnd` | src/app/checkout/page.tsx:79-84 | the result is a prefix of the input, everything cut off is white space, and the result is empty or ends with a non-space character |
| `JsString.Trim` | src/app/checkout/page.tsx:79-84 | `trim()` gives a slice of the input with only white space cut from each end, and the result begins and ends with a non-space character when it is not empty |
| `JsString.TrimEmptyIffBlank` | src/app/checkout/page.tsx:79-84 | `s.trim() !== ''` holds exactly when `s` has a character that is not white space |
| `JsString.TrimNonEmptyAt` | src/app/checkout/page.tsx:79-84 | one non-space character anywhere is enough for `trim()` to be non-empty |
| `JsString.TrimIdempotent` | src/app/checkout/page.tsx:79-84 | trimming a trimmed string changes nothing |
| `JsString.DigitPrefixLength` | src/app/checkout/page.tsx:295 | `parseInt` reads the longest run of digits: all of its characters are digits, and the next character, if any, is not |
| `JsString.ParseIntOfDecimal` | src/app/checkout/page.tsx:295 | `parseInt` reads back the decimal form of every integer, including negative ones, and ignores anything after the first non-digit (so `"3.5"` parses as 3) |
| `JsString.ParseInt` | src/app/checkout/page.tsx:295 | decimal `parseInt`: characterised by `ParseIntOfDecimal` (it reads back every integer's decimal form, ignoring what follows the digits) and `ParseIntWithoutDigits` (no digit gives `NaN`) |
| `JsString.ParseIntWithoutDigits` | src/app/checkout/page.tsx:295 | a value without any digit, such as the empty value of a cleared input, parses to `NaN` |
| `EmailPattern.IndexOf` | src/app/checkout/page.tsx:77 | finds the first `@`: the result is `None` exactly when there is no `@`; otherwise it is an `@` position with no `@` before it |
| `EmailPattern.MatchesPattern` | src/app/checkout/page.tsx:77 | the regular expression read literally, three non-empty `[^\s@]` runs joined by `@` and `.`; `ShapedIffMatches` proves the decidable `IsEmailShaped` accepts exactly this language |
| `EmailPattern.IsEmailShaped` | src/app/checkout/page.tsx:77 | the decidable test the form uses; `ShapedIffMatches` equates it with the pattern, `ShapedHasOneAtAndNoSpace` and `ConditionsImplyShaped` describe it as no white space, exactly one `@`, a non-empty local part and an inner dot |
| `EmailPattern.ShapedImpliesMatches` | src/app/checkout/page.tsx:77 | every string of the decidable shape has a split `local@host.tld` into `[^\s@]+` runs, so it matches the pattern |
| `EmailPattern.SplitImpliesShaped` | src/app/checkout/page.tsx:77 | every string that splits as the pattern requires has the decidable shape |
| `EmailPattern.ShapedIffMatches` | src/app/checkout/page.tsx:77 | the decidable shape (split at the first `@`: non-empty local part, no white space and no further `@`, an inner `.` in the domain) accepts exactly the strings matching `^[^\s@]+@[^\s@]+\.[^\s@]+$` |
| `EmailPattern.ShapedHasOneAtAndNoSpace` | src/app/checkout/page.tsx:77 | an accepted address has no white space anywhere and exactly one `@` |
| `EmailPattern.ConditionsImplyShaped` | src/app/checkout/page.tsx:77 | conversely, a string with no white space, exactly one `@`, at least one character before it and an inner `.` after it is accepted |
| `EmailPattern.ShapedFromParts` | src/app/checkout/page.tsx:77 | any three non-empty `[^\s@]` runs joined as `local@domain.tld` are accepted |
| `EmailPattern.AcceptedExample` | src/app/checkout/page.tsx:77 | `a@b.co` matches the pattern and is accepted |
| `EmailPattern.AcceptedSeveralDots` | src/app/checkout/page.tsx:77 | `a@b.c.d` is accepted: the domain may hold more than one dot |
| `EmailPattern.RefusedExamples` | src/app/checkout/page.tsx:77 | `not-an-email` and ` a@b.co` are refused; the pattern tests the untrimmed value |
| `EmailPattern.RefusedDotExamples` | src/app/checkout/page.tsx:77 | `a@.co` and `a@b.` are refused: the dot needs a character on each side |
| `Pricing.Subtotal` | src/app/checkout/page.tsx:97 | `productPrice * quantity`; `TotalClosedForm` and `SummaryIsConsistent` pin it to 35 × quantity |
| `Pricing.Total` | src/app/checkout/page.tsx:96-99 | `totalPrice + shippingCost`; characterised by `TotalClosedForm`, `TotalStrictlyIncreasing` and `TotalWithinStepperRange` |
| `Pricing.ShippingCost` | src/app/checkout/page.tsx:98 | shipping is always either 0 or the standard charge 5 |
| `Pricing.ShippingFreeIff` | src/app/checkout/page.tsx:98 | shipping is 0 exactly when quantity ≥ 2, and 5 exactly when quantity < 2 |
| `Pricing.TotalClosedForm` | src/app/checkout/page.tsx:96-99 | the total is 35 × quantity from two bottles on, and 35 × quantity + 5 below two |
| `Pricing.TotalExamples` | src/app/checkout/page.tsx:96-99 | quantities 1, 2 and 10 cost 40, 70 and 350 |
| `Pricing.TotalStrictlyIncreasing` | src/app/checkout/page.tsx:96-99 | a larger quantity always has a larger total, including across the free-shipping threshold |
| `Pricing.TotalWithinStepperRange` | src/app/checkout/page.tsx:96-99 | for quantities 1 to 10 the total lies between 40 and 350 |
| `OrderForm.WithText` | src/app/checkout/page.tsx:52-59 | `{ ...prev, [name]: value }` sets that string field to the value, leaves every other string field and the quantity unchanged |
| `OrderForm.WithQuantity` | src/app/checkout/page.tsx:57-59 | `handleSelectChange('quantity', q)` sets the quantity and leaves every string field unchanged |
| `OrderForm.DraftsAgreeOnFields` | src/app/checkout/page.tsx:16-25 | a draft is determined by its eight fields, so the two update contracts pin their results down completely |
| `OrderForm.WithTextOverwritesAndCommutes` | src/app/checkout/page.tsx:52-59 | the later write to a field wins, and writes to two different fields commute |
| `OrderForm.IsFormValid` | src/app/checkout/page.tsx:76-86 | `isFormValid`; characterised by `FormValidIff`, `ValidityIgnoresOrderDetails` and `BlankRequiredFieldInvalidates` |
| `OrderForm.FormValidIff` | src/app/checkout/page.tsx:76-86 | `isFormValid` holds exactly when name, email, phone, address and municipality each hold a non-space character and the raw e-mail matches the pattern |
| `OrderForm.EmailShapeImpliesNotBlank` | src/app/checkout/page.tsx:80-81 | the e-mail's `trim() !== ''` test is implied by its pattern test |
| `OrderForm.ValidityIgnoresOrderDetails` | src/app/checkout/page.tsx:76-86 | colour, quantity and payment method never affect validity |
| `OrderForm.InitialDraftInvalid` | src/app/checkout/page.tsx:16-25 | the initial draft is invalid |
| `OrderForm.BlankRequiredFieldInvalidates` | src/app/checkout/page.tsx:76-86 | setting any one of the five required fields to an empty or white-space-only value makes the draft invalid |
| `OrderForm.EmailExamplesDecideValidity` | src/app/checkout/page.tsx:76-86 | with the other four fields filled in, e-mail `a@b.co` makes the draft valid and `not-an-email` does not |
| `Stepper.Decremented` | src/app/checkout/page.tsx:276-280 | the `-` handler's guarded step; `DisabledIffNoOp` shows it lowers the quantity by one exactly above 1 |
| `Stepper.Incremented` | src/app/checkout/page.tsx:300-304 | the `+` handler's guarded step; `DisabledIffNoOp` shows it raises the quantity by one exactly below 10 |
| `Stepper.DecrementDisabled` | src/app/checkout/page.tsx:284 | `disabled={formData.quantity <= 1}`; `DisabledIffNoOp` shows it holds exactly when `Decremented` would change nothing |
| `Stepper.IncrementDisabled` | src/app/checkout/page.tsx:308 | `disabled={formData.quantity >= 10}`; `DisabledIffNoOp` shows it holds exactly when `Incremented` would change nothing |
| `Stepper.TypedQuantity` | src/app/checkout/page.tsx:295 | `parseInt(value) \|\| 1` never stores 0 |
| `Stepper.DisabledIffNoOp` | src/app/checkout/page.tsx:276-311 | each button is disabled exactly when its handler would leave the quantity unchanged; an enabled `-` lowers it by one, an enabled `+` raises it by one |
| `Stepper.PressKeepsRange` | src/app/checkout/page.tsx:276-311 | one press keeps a quantity in [1, 10] in range |
| `Stepper.PressesKeepRange` | src/app/checkout/page.tsx:276-311 | every sequence of button presses keeps a quantity in [1, 10] in range |
| `Stepper.ButtonsReachExactlyTheRange` | src/app/checkout/page.tsx:276-311 | starting from the initial quantity 1, the buttons can reach a quantity exactly when it lies in [1, 10] |
| `Stepper.TypedNaNStoresOne` | src/app/checkout/page.tsx:295 | a value that parses to `NaN` stores 1 |
| `Stepper.TypedDecimalStoresIt` | src/app/checkout/page.tsx:291-295 | typing any non-zero integer stores exactly that integer, with no clamp to [1, 10] |
| `Stepper.TypedInputEscapesRange` | src/app/checkout/page.tsx:291-295 | typing `25` stores 25 and typing `-3` stores -3, both outside [1, 10] |
| `Stepper.TypedZeroOrEmptyStoresOne` | src/app/checkout/page.tsx:295 | typing `0`, or clearing the input, stores 1 |
| `Checkout.FindLabel` | src/app/checkout/page.tsx:373 | `find(...)?.label` is undefined exactly when no entry has the value; otherwise it is the label of the first entry that has it |
| `Checkout.ColorLabel` | src/app/checkout/page.tsx:373 | the summary's colour caption; `ColorLabels` gives its value for every colour, for `default` and for an unknown value |
| `Checkout.FindLabelOfChoice` | src/app/checkout/page.tsx:373 | when the values are distinct, looking up an entry's value gives that entry's label |
| `Checkout.ColorLabels` | src/app/checkout/page.tsx:44-50 | every colour button shows its own label in the summary, the initial `default` shows `Default White`, and an unknown value shows nothing |
| `Checkout.SummaryIsConsistent` | src/app/checkout/page.tsx:379-398 | shipping shows `Free` exactly when the discount row is shown, which is exactly when quantity ≥ 2; the price line is 35 × quantity; the total equals the price plus the shipping shown, and also the price plus 5 minus the discount |
| `Checkout.Summary` | src/app/checkout/page.tsx:373-398 | the order summary card; `SummaryIsConsistent` and `InitialSummary` characterise it |
| `Checkout.InitialSummary` | src/app/checkout/page.tsx:16-25 | the initial draft shows `Default White`, one bottle at 35, shipping 5, no discount row and total 40, and its quantity lies in [1, 10] |
| `Checkout.SubmitDisabled` | src/app/checkout/page.tsx:407 | `isSubmitting \|\| !isFormValid()`; `LabelMatchesState` shows `Pay` is offered exactly when it is false |
| `Checkout.SubmitLabel` | src/app/checkout/page.tsx:410-419 | the button text in priority order; `LabelMatchesState` shows each label appears exactly in its case |
| `Checkout.LabelMatchesState` | src/app/checkout/page.tsx:402-419 | the label is `Processing...` exactly while submitting, the hint exactly when not submitting and invalid, and `Pay` exactly when the button is enabled, with the summary's total |
| `Checkout.InitialButton` | src/app/checkout/page.tsx:405-419 | a fresh page shows the hint on a disabled button |
| `Checkout.CheckoutPage.constructor` | src/app/checkout/page.tsx:15-25 | the page starts with the initial draft and is not submitting |
| `Checkout.CheckoutPage.SetField` | src/app/checkout/page.tsx:52-59 | the draft becomes `WithText` of the old draft; the submitting flag is unchanged; the quantity range is kept |
| `Checkout.CheckoutPage.DecrementQuantity` | src/app/checkout/page.tsx:276-280 | above 1 the quantity drops by one; otherwise the draft is unchanged; nothing else changes and the range [1, 10] is kept |
| `Checkout.CheckoutPage.IncrementQuantity` | src/app/checkout/page.tsx:300-304 | below 10 the quantity rises by one; otherwise the draft is unchanged; nothing else changes and the range [1, 10] is kept |
| `Checkout.CheckoutPage.TypeQuantity` | src/app/checkout/page.tsx:295 | the quantity becomes `parseInt(value) \|\| 1` of the raw value; nothing else changes |
| `Checkout.CheckoutPage.ClickSubmit` | src/app/checkout/page.tsx:61-63 | a click starts submission exactly when the button is enabled; the flag is then set and the draft is unchanged |
| `Checkout.CheckoutPage.FinishSubmit` | src/app/checkout/page.tsx:64-70 | after the delay the flag is cleared and the draft is unchanged |
| `Checkout.FilledDraftPays` | src/app/checkout/page.tsx:402-419 | with `Ana`, `a@b.co`, a phone number, `Dili` as address and municipality, and two bottles, the button is enabled and offers `Pay` 70 |
| `Checkout.CheckoutSession` | src/app/checkout/page.tsx:400-419 | filling the five fields with valid values and pressing `+` once enables the button; a click shows `Processing...`; after the delay the button offers `Pay` 70 again |

## Left out

- `formatPrice` (`Intl.NumberFormat`, lines 88-94) is a foreign locale-formatting call. The model keeps the integer amount that would be formatted.
- `handleSubmit`'s timers, toast and navigation (lines 61-74) are left out: the 2-second `setTimeout`, the success toast, and `router.push('/')` after three more seconds. Only the `isSubmitting` flag is kept, set by `ClickSubmit` and cleared by `FinishSubmit`. Edits made while a submission is pending are allowed, as they are on the page.
- `ClickSubmit` stands for the `disabled` button together with `handleSubmit`. `handleSubmit` has no guard of its own: the form that calls it holds only the button, so the `disabled` attribute is its only gate.
- `JsString.ParseInt` models decimal `parseInt`: leading white space, an optional sign, then the longest run of digits. It leaves out the `0x` hexadecimal prefix, which a number input never produces, and the loss of precision past 2^53: for `9007199254740993` JavaScript's `parseInt` gives 9007199254740992, while `ParseInt` gives the exact value.
- `Pricing.Subtotal` and `Pricing.Total` compute on unbounded integers, while the page computes on doubles. For a typed quantity so large that 35 × quantity passes 2^53 (for example 300000000000001), the page's amounts are rounded and the model's are exact.
- `OrderForm.WithText` covers only the draft's own keys. With any other `name`, `[name]: value` would add a new key to the record, but no input on the page has such a name.
- The municipality list (lines 27-42) and the payment-method list (lines 329-333) are not modelled. Only the `<select>` and the buttons restrict those values. Validity checks only that the municipality is non-empty, and the model claims nothing more.
- Styling that depends on the state is left out: hover and tap scales (lines 402-403), `opacity-50` (line 408), and the selected-button borders.
- The Zs white-space characters are fixed at Unicode 15. A JavaScript engine built on another Unicode version may differ.
- The home page, the demo page, the layout and the image-generation route are left out. They are animation, static content, metadata, one third-party SDK call and a file write. The demo page's colour lookup is the same `find`, which `Checkout.FindLabel` models.
