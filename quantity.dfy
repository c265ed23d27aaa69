/**
 * The quantity picker shown before checkout: one integer cell that starts
 * at 1, a minus button that stops at 1, a plus button without a bound, and
 * a confirm button that hands the quantity on and starts over. Prices are
 * in centavos.
 */
module Quantity {

  datatype Action = Decrease | Increase | Confirm

  /** The quantity after one click. */
  function Step(quantity: int, action: Action): int {
    match action
    case Decrease => if quantity > 1 then quantity - 1 else quantity
    case Increase => quantity + 1
    case Confirm => 1
  }

  /** The quantity after a sequence of clicks. */
  function Run(quantity: int, actions: seq<Action>): int
    decreases |actions|
  {
    if actions == [] then quantity else Run(Step(quantity, actions[0]), actions[1..])
  }

  /** The amount to pay: unit price times quantity. */
  function Total(productPrice: int, quantity: int): int {
    productPrice * quantity
  }

  /** No click takes the quantity below 1. */
  lemma StepKeepsPositive(quantity: int, action: Action)
    requires quantity >= 1
    ensures Step(quantity, action) >= 1
  {
  }

  /** `quantity >= 1` holds after any sequence of clicks from the initial 1. */
  lemma {:induction false} RunKeepsPositive(quantity: int, actions: seq<Action>)
    requires quantity >= 1
    ensures Run(quantity, actions) >= 1
    decreases |actions|
  {
    if actions != [] {
      StepKeepsPositive(quantity, actions[0]);
      RunKeepsPositive(Step(quantity, actions[0]), actions[1..]);
    }
  }

  /** The minus button is disabled exactly when clicking it would change nothing. */
  lemma DecreaseDisabledExactlyWhenNoOp(quantity: int)
    requires quantity >= 1
    ensures quantity == 1 <==> Step(quantity, Decrease) == quantity
  {
  }

  /** Minus undoes plus. */
  lemma DecreaseUndoesIncrease(quantity: int)
    requires quantity >= 1
    ensures Step(Step(quantity, Increase), Decrease) == quantity
  {
  }

  /** Each plus click raises the quantity by one, without bound. */
  lemma {:induction false} IncreasesCount(quantity: int, n: nat)
    ensures Run(quantity, seq(n, _ => Increase)) == quantity + n
    decreases n
  {
    if n > 0 {
      var clicks := seq(n, _ => Increase);
      assert clicks[1..] == seq(n - 1, _ => Increase);
      IncreasesCount(quantity + 1, n - 1);
    }
  }

  /** Plus adds one unit price to the total, and minus above 1 takes one away. */
  lemma TotalFollowsClicks(productPrice: int, quantity: int)
    ensures Total(productPrice, Step(quantity, Increase)) == Total(productPrice, quantity) + productPrice
    ensures quantity > 1 ==> Total(productPrice, Step(quantity, Decrease)) == Total(productPrice, quantity) - productPrice
  {
  }

  /** With a positive price every reachable quantity gives a positive total. */
  lemma TotalPositive(productPrice: int, quantity: int)
    ensures productPrice > 0 && quantity >= 1 ==> Total(productPrice, quantity) >= productPrice > 0
  {
  }

  class QuantityDialog {
    const productName: string
    const productPrice: int
    var quantity: int

    constructor(productName: string, productPrice: int)
      ensures this.productName == productName && this.productPrice == productPrice
      ensures quantity == 1
      ensures Valid()
    {
      this.productName := productName;
      this.productPrice := productPrice;
      quantity := 1;
    }

    /** The counter never shows less than one item. */
    predicate Valid()
      reads this
    {
      quantity >= 1
    }

    /** `disabled={quantity === 1}` on the minus button. */
    predicate DecreaseDisabled()
      reads this
    {
      quantity == 1
    }

    /** `total`, shown under the counter. */
    function ShownTotal(): (total: int)
      reads this
      ensures Valid() && productPrice > 0 ==> total >= productPrice
    {
      TotalPositive(productPrice, quantity);
      Total(productPrice, quantity)
    }

    method HandleDecrease()
      requires Valid()
      modifies this
      ensures quantity == Step(old(quantity), Decrease)
      ensures old(DecreaseDisabled()) <==> quantity == old(quantity)
      ensures Valid()
    {
      if quantity > 1 {
        quantity := quantity - 1;
      }
    }

    method HandleIncrease()
      requires Valid()
      modifies this
      ensures quantity == Step(old(quantity), Increase)
      ensures Valid()
    {
      quantity := quantity + 1;
    }

    /** `handleConfirm`: hands the current quantity to `onConfirm`, then starts over at 1. */
    method HandleConfirm() returns (confirmed: int)
      requires Valid()
      modifies this
      ensures confirmed == old(quantity) && confirmed >= 1
      ensures quantity == Step(old(quantity), Confirm)
      ensures Valid()
    {
      confirmed := quantity;
      quantity := 1;
    }
  }
}
