/** The kiosk order session: an append-only cart, totals re-derived from it,
    the loyalty discount, order submission and loyalty-point settlement. */
module Kiosk {
  import opened Wrappers
  import opened Catalog
  import Customization

  /** The flat sales-tax rate, 8.25%. */
  const TaxRate: real := 0.0825

  /** The employee id every kiosk order is filed under. */
  const KioskEmployeeId: string := "e1b4b9a1-8c59-4d92-bd5f-3f7d8f05e123"

  /** The page's totals array: subtotal, tax, gross total and an optional
      fourth discount slot (`None` is the slot being `undefined`). */
  datatype Totals = Totals(subtotal: real, tax: real, gross: real, discount: Option<real>)

  /** The page state the order flow reads and writes. */
  datatype Session = Session(cart: seq<Product>, totals: Totals, customer: Option<Customer>)

  /** The state the page starts in: an empty cart and totals `[0, 0, 0, 0]`. */
  function Start(customer: Option<Customer>): (s: Session)
    ensures s.cart == [] && s.totals.discount == Some(0.0)
  {
    Session([], Totals(0.0, 0.0, 0.0, Some(0.0)), customer)
  }

  /** Sum of the line prices, accumulated front to back. */
  function Subtotal(cart: seq<Product>): real
  {
    if |cart| == 0 then 0.0 else Subtotal(cart[..|cart| - 1]) + cart[|cart| - 1].price
  }

  /** The subtotal of a concatenation is the sum of the subtotals. */
  lemma {:induction false} SubtotalAppend(a: seq<Product>, b: seq<Product>)
    ensures Subtotal(a + b) == Subtotal(a) + Subtotal(b)
    decreases |b|
  {
    if |b| > 0 {
      var b' := b[..|b| - 1];
      assert (a + b)[..|a + b| - 1] == a + b';
      SubtotalAppend(a, b');
    } else {
      assert a + b == a;
    }
  }

  /** The subtotal does not depend on the order the lines were added in. */
  lemma SubtotalOrderIndependent(a: seq<Product>, b: seq<Product>)
    ensures Subtotal(a + b) == Subtotal(b + a)
  {
    SubtotalAppend(a, b);
    SubtotalAppend(b, a);
  }

  /** All line prices are non-negative. */
  predicate PricesNonNegative(cart: seq<Product>) {
    forall i :: 0 <= i < |cart| ==> cart[i].price >= 0.0
  }

  lemma {:induction false} SubtotalNonNegative(cart: seq<Product>)
    requires PricesNonNegative(cart)
    ensures Subtotal(cart) >= 0.0
  {
    if |cart| > 0 {
      SubtotalNonNegative(cart[..|cart| - 1]);
    }
  }

  /** The totals re-derived from a cart, written as a three-element array: the
      discount slot is left undefined. */
  function UpdateTotals(cart: seq<Product>): (t: Totals)
    ensures t.subtotal == Subtotal(cart)
    ensures t.gross == t.subtotal * (1.0 + TaxRate) && t.tax == t.gross - t.subtotal
    ensures t.discount.None?
    ensures PricesNonNegative(cart) ==> 0.0 <= t.subtotal <= t.gross
  {
    assert PricesNonNegative(cart) ==> Subtotal(cart) >= 0.0 by {
      if PricesNonNegative(cart) { SubtotalNonNegative(cart); }
    }
    var sub := Subtotal(cart);
    var tax := sub * TaxRate;
    Totals(sub, tax, sub + tax, None)
  }

  /** `updateTotals` as the page runs it: one pass over the cart accumulating
      the subtotal, then tax and total. */
  method ComputeTotals(cart: seq<Product>) returns (t: Totals)
    ensures t == UpdateTotals(cart)
  {
    var sub := 0.0;
    var i := 0;
    while i < |cart|
      invariant 0 <= i <= |cart|
      invariant sub == Subtotal(cart[..i])
    {
      assert cart[..i + 1][..i] == cart[..i];
      sub := sub + cart[i].price;
      i := i + 1;
    }
    assert cart[..|cart|] == cart;
    var tax := sub * TaxRate;
    t := Totals(sub, tax, sub + tax, None);
  }

  /** An absent discount counts as 0 (`totals[3] ?? 0`). */
  function DiscountOrZero(t: Totals): real {
    t.discount.GetOr(0.0)
  }

  /** The amount charged: gross total minus the discount. */
  function Charge(t: Totals): real {
    t.gross - DiscountOrZero(t)
  }

  /** Session invariant: non-negative prices and points, the first three totals
      derived from the cart, and a discount (when set) between 0 and gross. */
  predicate Valid(s: Session) {
    && PricesNonNegative(s.cart)
    && (s.customer.Some? ==> s.customer.value.points >= 0)
    && s.totals.subtotal == Subtotal(s.cart)
    && s.totals.tax == s.totals.subtotal * TaxRate
    && s.totals.gross == s.totals.subtotal + s.totals.tax
    && (s.totals.discount.Some? ==> 0.0 <= s.totals.discount.value <= s.totals.gross)
  }

  /** The amount charged is never negative and never exceeds the gross total. */
  lemma ChargeBounds(s: Session)
    requires Valid(s)
    ensures 0.0 <= Charge(s.totals) <= s.totals.gross
  {
    SubtotalNonNegative(s.cart);
  }

  /** Add a finalised line: appended at the end, totals re-derived from the
      new cart, any applied discount dropped. */
  function AddProductToCart(s: Session, line: Product): (r: Session)
    ensures |r.cart| == |s.cart| + 1
    ensures r.cart[..|s.cart|] == s.cart && r.cart[|s.cart|] == line
    ensures r.totals.subtotal == Subtotal(s.cart) + line.price
    ensures r.totals == UpdateTotals(r.cart)
    ensures r.totals.discount.None?
    ensures r.customer == s.customer
  {
    var cart := s.cart + [line];
    assert cart[..|cart| - 1] == s.cart;
    Session(cart, UpdateTotals(cart), s.customer)
  }

  /** Cancel the order: empty cart, zero totals, no discount. */
  function ResetOrder(s: Session): (r: Session)
    ensures r.cart == []
    ensures r.totals == Totals(0.0, 0.0, 0.0, None)
    ensures r.customer == s.customer
  {
    Session([], UpdateTotals([]), s.customer)
  }

  /** Redeem the customer's points: a discount of points/10, capped at the
      gross total. Nothing happens without a customer or with an empty cart. */
  function ApplyDiscount(s: Session): (r: Session)
    ensures s.customer.None? || |s.cart| == 0 ==> r == s
    ensures s.customer.Some? && |s.cart| > 0 ==>
      && r.totals.discount.Some?
      && r.totals.discount.value <= s.customer.value.points as real / 10.0
      && r.totals.discount.value <= s.totals.gross
      && (r.totals.discount.value == s.customer.value.points as real / 10.0
          || r.totals.discount.value == s.totals.gross)
    ensures r.cart == s.cart && r.customer == s.customer
    ensures r.totals.subtotal == s.totals.subtotal && r.totals.tax == s.totals.tax
    ensures r.totals.gross == s.totals.gross
  {
    if s.customer.None? || |s.cart| == 0 then s
    else
      var offered := s.customer.value.points as real / 10.0;
      var discount := if offered > s.totals.gross then s.totals.gross else offered;
      s.(totals := Totals(s.totals.subtotal, s.totals.tax, s.totals.gross, Some(discount)))
  }

  /** Applying the discount a second time changes nothing. */
  lemma ApplyDiscountIdempotent(s: Session)
    ensures ApplyDiscount(ApplyDiscount(s)) == ApplyDiscount(s)
  {
  }

  /** The body posted to the order endpoint. */
  datatype OrderPayload = OrderPayload(
    products: seq<string>,
    ingredients: seq<string>,
    employeeId: string,
    total: real,
    discount: real,
    customer: Option<string>)

  /** The product id of every cart line, in cart order. */
  function ProductIds(cart: seq<Product>): (r: seq<string>)
    ensures |r| == |cart|
    ensures forall i :: 0 <= i < |cart| ==> r[i] == cart[i].id
  {
    seq(|cart|, i requires 0 <= i < |cart| => cart[i].id)
  }

  /** Every line's ingredient ids, concatenated in cart order; `None` when a
      line has no ingredient list (reading it throws before any request). */
  function IngredientIds(cart: seq<Product>): (r: Option<seq<string>>)
    ensures r.Some? <==> forall i :: 0 <= i < |cart| ==> cart[i].ingredients.Some?
  {
    if |cart| == 0 then Some([])
    else if cart[0].ingredients.None? then None
    else
      match IngredientIds(cart[1..])
      case None => None
      case Some(rest) => Some(Ids(cart[0].ingredients.value) + rest)
  }

  /** The ingredient list of two carts in sequence is the first cart's list
      followed by the second's. */
  lemma {:induction false} IngredientIdsAppend(a: seq<Product>, b: seq<Product>)
    requires IngredientIds(a).Some? && IngredientIds(b).Some?
    ensures IngredientIds(a + b) == Some(IngredientIds(a).value + IngredientIds(b).value)
  {
    if |a| == 0 {
      assert a + b == b;
      assert [] + IngredientIds(b).value == IngredientIds(b).value;
    } else {
      assert (a + b)[1..] == a[1..] + b;
      assert (a + b)[0] == a[0];
      IngredientIdsAppend(a[1..], b);
      var head := Ids(a[0].ingredients.value);
      var restA := IngredientIds(a[1..]).value;
      var restB := IngredientIds(b).value;
      assert IngredientIds(a).value == head + restA;
      assert IngredientIds(a + b).value == head + (restA + restB);
      assert head + (restA + restB) == (head + restA) + restB;
    }
  }

  /** A single line contributes exactly its own ingredient ids. */
  lemma IngredientIdsSingle(line: Product)
    requires line.ingredients.Some?
    ensures IngredientIds([line]) == Some(Ids(line.ingredients.value))
  {
    assert [line][1..] == [];
    var ids := Ids(line.ingredients.value);
    assert ids + [] == ids;
  }

  /** Every cart line built by finalising a customisation has an ingredient list. */
  predicate Finalized(cart: seq<Product>) {
    forall i :: 0 <= i < |cart| ==> cart[i].ingredients.Some?
  }

  lemma FinalizedLine(product: Product, d: Customization.Dialog)
    ensures Customization.Finalize(product, d).ingredients.Some?
  {
  }

  /** Loyalty settlement after a successful submission, from the totals
      captured before the cart was reset. A non-zero discount costs
      10 × floor(discount) points; a zero or absent discount earns
      ceil(charged amount) points; a guest is left alone. */
  function Settle(customer: Option<Customer>, t: Totals): (r: Option<Customer>)
    ensures customer.None? ==> r.None?
    ensures customer.Some? ==> r.Some? && r.value == customer.value.(points := r.value.points)
    ensures customer.Some? && t.discount.Some? && t.discount.value != 0.0 ==>
      r.value.points == customer.value.points - 10 * t.discount.value.Floor
    ensures customer.Some? && (t.discount.None? || t.discount.value == 0.0) ==>
      r.value.points == customer.value.points + Ceil(Charge(t))
  {
    match customer
    case None => None
    case Some(c) =>
      if t.discount.Some? && t.discount.value != 0.0 then
        Some(c.(points := c.points - t.discount.value.Floor * 10))
      else
        Some(c.(points := c.points + Ceil(Charge(t))))
  }

  /** `Math.ceil` on an exact amount. */
  function Ceil(x: real): (n: int)
    ensures n as real >= x && (n - 1) as real < x
  {
    -((-x).Floor)
  }

  /** The outcome of pressing Submit: the new session and the request sent, if any. */
  datatype SubmitStep = SubmitStep(session: Session, request: Option<OrderPayload>)

  /** Submit the order. `accepted` says whether the order endpoint answered
      with success; a rejected request throws, so nothing after it runs. */
  function SubmitOrder(s: Session, accepted: bool): (r: SubmitStep)
    ensures |s.cart| == 0 ==> r == SubmitStep(s, None)
    ensures |s.cart| > 0 && Finalized(s.cart) ==> r.request.Some?
    ensures r.request.Some? ==>
      && r.request.value.products == ProductIds(s.cart)
      && Some(r.request.value.ingredients) == IngredientIds(s.cart)
      && r.request.value.employeeId == KioskEmployeeId
      && r.request.value.total == Charge(s.totals)
      && r.request.value.discount == DiscountOrZero(s.totals)
      && (s.customer.Some? ==> r.request.value.customer == Some(s.customer.value.id))
      && (s.customer.None? ==> r.request.value.customer.None?)
    ensures r.request.None? || !accepted ==> r.session == s
    ensures r.request.Some? && accepted ==>
      && r.session.cart == []
      && r.session.totals == Totals(0.0, 0.0, 0.0, None)
      && r.session.customer == Settle(s.customer, s.totals)
  {
    if |s.cart| == 0 then SubmitStep(s, None)
    else
      match IngredientIds(s.cart)
      case None => SubmitStep(s, None)
      case Some(ings) =>
        var customerId := match s.customer case None => None case Some(c) => Some(c.id);
        var payload := OrderPayload(ProductIds(s.cart), ings, KioskEmployeeId,
                                    Charge(s.totals), DiscountOrZero(s.totals), customerId);
        if !accepted then SubmitStep(s, Some(payload))
        else
          var settled := Settle(s.customer, s.totals);
          SubmitStep(ResetOrder(s).(customer := settled), Some(payload))
  }

  /** floor(p/10) on exact reals is integer division for a non-negative p. */
  lemma FloorTenth(p: int)
    requires p >= 0
    ensures (p as real / 10.0).Floor == p / 10
  {
    var q := p / 10;
    var m := p % 10;
    assert p == 10 * q + m && 0 <= m < 10;
    assert p as real / 10.0 == q as real + m as real / 10.0;
  }

  /** The floor is monotone. */
  lemma FloorMonotone(x: real, y: real)
    requires x <= y
    ensures x.Floor <= y.Floor
  {
  }

  /** Redeeming a discount produced by `ApplyDiscount` on the same balance
      never drives the balance negative; when the cap did not bite the
      customer keeps exactly points mod 10. */
  lemma RedeemKeepsPointsNonNegative(s: Session)
    requires Valid(s) && s.customer.Some? && |s.cart| > 0
    ensures var t := ApplyDiscount(s).totals;
      && Settle(s.customer, t).value.points >= 0
      && (s.customer.value.points as real / 10.0 <= s.totals.gross && t.discount.value != 0.0 ==>
            Settle(s.customer, t).value.points == s.customer.value.points % 10)
  {
    var p := s.customer.value.points;
    var t := ApplyDiscount(s).totals;
    var d := t.discount.value;
    SubtotalNonNegative(s.cart);
    FloorTenth(p);
    FloorMonotone(d, p as real / 10.0);
    assert d.Floor <= p / 10;
    if p as real / 10.0 <= s.totals.gross {
      assert d == p as real / 10.0;
    }
  }

  /** The session invariant holds at the start and is kept by every step. */
  lemma StartValid(customer: Option<Customer>)
    requires customer.Some? ==> customer.value.points >= 0
    ensures Valid(Start(customer))
  {
  }

  lemma AddKeepsValid(s: Session, line: Product)
    requires Valid(s) && line.price >= 0.0
    ensures Valid(AddProductToCart(s, line))
  {
    var r := AddProductToCart(s, line);
    assert forall i :: 0 <= i < |s.cart| ==> r.cart[i] == s.cart[i];
  }

  lemma ApplyDiscountKeepsValid(s: Session)
    requires Valid(s)
    ensures Valid(ApplyDiscount(s))
  {
    SubtotalNonNegative(s.cart);
  }

  lemma SubmitKeepsValid(s: Session, accepted: bool)
    requires Valid(s)
    requires s.totals.discount.Some? && s.totals.discount.value != 0.0 ==> s.customer.Some? && |s.cart| > 0 && s.totals == ApplyDiscount(s).totals
    ensures Valid(SubmitOrder(s, accepted).session)
  {
    var r := SubmitOrder(s, accepted);
    if r.request.Some? && accepted && s.customer.Some? {
      var t := s.totals;
      if t.discount.Some? && t.discount.value != 0.0 {
        RedeemKeepsPointsNonNegative(s);
      } else {
        ChargeBounds(s);
      }
    }
  }

  /** Worked example: a customer with 0 points buying $10.00 of drinks; the
      discount they apply is 0, which counts as "no discount", so they earn
      ceil(10.825) = 11 points. */
  lemma ZeroDiscountAccrues(product: Product, c: Customer)
    requires product.price == 10.0 && product.ingredients == Some([]) && c.points == 0
    ensures var s := ApplyDiscount(AddProductToCart(Start(Some(c)), product));
      && s.totals.discount == Some(0.0)
      && SubmitOrder(s, true).session.customer == Some(c.(points := 11))
  {
    var s := ApplyDiscount(AddProductToCart(Start(Some(c)), product));
    assert s.cart == [product];
    assert Subtotal([product]) == 10.0 by {
      assert [product][..0] == [];
    }
    assert IngredientIds([product]) == Some([]) by {
      IngredientIdsSingle(product);
    }
    assert Charge(s.totals) == 10.825;
    assert Ceil(10.825) == 11;
  }

  /** Worked example: 50 points against an $8.00 gross gives a $5.00
      discount, $3.00 charged, and all 50 points spent. */
  lemma RedemptionExample(s: Session)
    requires s.customer.Some? && s.customer.value.points == 50 && |s.cart| > 0 && s.totals.gross == 8.0
    ensures var t := ApplyDiscount(s).totals;
      && t.discount == Some(5.0)
      && Charge(t) == 3.0
      && Settle(s.customer, t).value.points == 0
  {
    assert (5.0).Floor == 5;
  }
}
