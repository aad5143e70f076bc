/**
 The quantity control of the checkout page: a `-` button and a `+` button, each
 guarded by an `if` and by its `disabled` attribute, and a number input whose
 value goes through `parseInt(value) || 1`. The `min`/`max` attributes of that
 input are markup only, so the typed path is not kept in range.
 */
module Stepper {
  import opened Wrappers
  import opened JsString

  const MinQuantity: int := 1
  const MaxQuantity: int := 10

  predicate InRange(quantity: int) {
    MinQuantity <= quantity <= MaxQuantity
  }

  /** `disabled={formData.quantity <= 1}` on the `-` button. */
  predicate DecrementDisabled(quantity: int) {
    quantity <= MinQuantity
  }

  /** `disabled={formData.quantity >= 10}` on the `+` button. */
  predicate IncrementDisabled(quantity: int) {
    quantity >= MaxQuantity
  }

  /** The `-` handler: lower by one only above 1. */
  function Decremented(quantity: int): int {
    if quantity > MinQuantity then quantity - 1 else quantity
  }

  /** The `+` handler: raise by one only below 10. */
  function Incremented(quantity: int): int {
    if quantity < MaxQuantity then quantity + 1 else quantity
  }

  /** The typed path, `parseInt(e.target.value) || 1`: `NaN` and 0 are falsy and
      become 1; every other parsed integer is stored as it is. */
  function TypedQuantity(raw: string): (quantity: int)
    ensures quantity != 0
  {
    var parsed := ParseInt(raw).GetOr(0);
    if parsed == 0 then 1 else parsed
  }

  /** Each button is enabled exactly when pressing it changes the quantity, so its
      `disabled` attribute and its handler's guard agree. */
  lemma DisabledIffNoOp(quantity: int)
    ensures DecrementDisabled(quantity) <==> Decremented(quantity) == quantity
    ensures IncrementDisabled(quantity) <==> Incremented(quantity) == quantity
    ensures !DecrementDisabled(quantity) ==> Decremented(quantity) == quantity - 1
    ensures !IncrementDisabled(quantity) ==> Incremented(quantity) == quantity + 1
  {
  }

  datatype Press = Minus | Plus

  function Pressed(quantity: int, p: Press): int {
    match p
    case Minus => Decremented(quantity)
    case Plus => Incremented(quantity)
  }

  /** The quantity after pressing the buttons in the order given. */
  function PressAll(quantity: int, presses: seq<Press>): int
    decreases |presses|
  {
    if presses == [] then quantity else PressAll(Pressed(quantity, presses[0]), presses[1..])
  }

  /** One press keeps an in-range quantity in range. */
  lemma PressKeepsRange(quantity: int, p: Press)
    requires InRange(quantity)
    ensures InRange(Pressed(quantity, p))
  {
  }

  /** Any sequence of button presses keeps an in-range quantity in [1, 10]. */
  lemma {:induction false} PressesKeepRange(quantity: int, presses: seq<Press>)
    requires InRange(quantity)
    ensures InRange(PressAll(quantity, presses))
    decreases |presses|
  {
    if presses != [] {
      PressKeepsRange(quantity, presses[0]);
      PressesKeepRange(Pressed(quantity, presses[0]), presses[1..]);
    }
  }

  function Pluses(n: nat): (presses: seq<Press>)
    ensures |presses| == n
  {
    if n == 0 then [] else [Plus] + Pluses(n - 1)
  }

  lemma {:induction false} PlusesAdd(quantity: int, n: nat)
    requires quantity + n <= MaxQuantity
    ensures PressAll(quantity, Pluses(n)) == quantity + n
    decreases n
  {
    if n > 0 {
      assert Pluses(n)[1..] == Pluses(n - 1);
      PlusesAdd(quantity + 1, n - 1);
    }
  }

  /** From the initial quantity 1 the buttons reach exactly the quantities 1 to 10. */
  lemma ButtonsReachExactlyTheRange(target: int)
    ensures (exists presses :: PressAll(1, presses) == target) <==> InRange(target)
  {
    if exists presses :: PressAll(1, presses) == target {
      var presses :| PressAll(1, presses) == target;
      PressesKeepRange(1, presses);
    }
    if InRange(target) {
      PlusesAdd(1, target - 1);
    }
  }

  /** A cleared or non-numeric input stores 1. */
  lemma TypedNaNStoresOne(raw: string)
    requires ParseInt(raw) == None
    ensures TypedQuantity(raw) == 1
  {
  }

  /** Typing the decimal form of any non-zero integer stores exactly that integer,
      even one that is below 1 or above 10; a trailing fraction is cut off. */
  lemma TypedDecimalStoresIt(n: int, rest: string)
    requires n != 0
    requires rest == [] || !IsDigit(rest[0])
    ensures TypedQuantity(IntToDecimal(n) + rest) == n
  {
    ParseIntOfDecimal(n, rest);
  }

  /** Typing exactly the decimal form of a non-zero integer stores that integer. */
  lemma TypedOwnDecimal(n: int)
    requires n != 0
    ensures TypedQuantity(IntToDecimal(n)) == n
  {
    assert IntToDecimal(n) + "" == IntToDecimal(n);
    TypedDecimalStoresIt(n, "");
  }

  /** The typed path leaves the stepper's range: `25` stores 25 and `-3` stores -3. */
  lemma TypedInputEscapesRange()
    ensures TypedQuantity("25") == 25 && !InRange(TypedQuantity("25"))
    ensures TypedQuantity("-3") == -3 && !InRange(TypedQuantity("-3"))
  {
    assert IntToDecimal(25) == "25";
    TypedOwnDecimal(25);
    assert IntToDecimal(-3) == "-3";
    TypedOwnDecimal(-3);
  }

  /** `0` and the empty input store 1. */
  lemma TypedZeroOrEmptyStoresOne()
    ensures TypedQuantity("0") == 1
    ensures TypedQuantity("") == 1
  {
    assert IntToDecimal(0) + "" == IntToDecimal(0) == "0";
    ParseIntOfDecimal(0, "");
    ParseIntWithoutDigits("");
  }
}
