/** The customisation dialog: size tier, topping selection, the finalised cart
    line, and the dialog's review list. */
module Customization {
  import opened Wrappers
  import opened Seqs
  import opened Catalog

  /** One row of the dialog's fixed size table. */
  datatype SizeTier = SizeTier(name: string, price: real)

  /** The size table the dialog renders, with its surcharges. */
  const Sizes: seq<SizeTier> := [SizeTier("small", 0.0), SizeTier("medium", 1.5), SizeTier("large", 2.0)]

  /** The surcharge finalising adds for the selected size label; any label
      other than "medium" and "large" adds nothing. */
  function Surcharge(size: string): (r: real)
    ensures r >= 0.0
    ensures size != "medium" && size != "large" ==> r == 0.0
  {
    if size == "medium" then 1.5
    else if size == "large" then 2.0
    else 0.0
  }

  /** The surcharges finalising applies agree with the prices the table shows. */
  lemma SurchargeMatchesTable()
    ensures forall k :: 0 <= k < |Sizes| ==> Surcharge(Sizes[k].name) == Sizes[k].price
  {
    assert Sizes[0].name == "small";
  }

  /** The dialog's local state. `reviews` is the review list the dialog
      renders; `None` is a JS `undefined` list. */
  datatype Dialog = Dialog(
    size: string,
    toppings: seq<Ingredient>,
    reviews: Option<seq<Review>>,
    reviewText: string)

  /** The dialog renders only with a defined review list: the list is
      rendered with `map`, which throws on `undefined`. */
  predicate Renders(d: Dialog) {
    d.reviews.Some?
  }

  /** Keeps every topping other than `topping`. */
  function Except(topping: Ingredient): Ingredient -> bool {
    y => y != topping
  }

  /** Click on a topping: an already selected topping is removed everywhere it
      occurs and the other toppings keep their order and multiplicity; an
      unselected one is appended at the end (selection order). */
  function ToggleTopping(selected: seq<Ingredient>, topping: Ingredient): (r: seq<Ingredient>)
    ensures topping in r <==> topping !in selected
    ensures topping in selected ==> forall y :: y in r <==> y in selected && y != topping
    ensures topping in selected ==> forall y :: y != topping ==> Count(r, y) == Count(selected, y)
    ensures topping in selected ==> r == Filter(selected, Except(topping))
    ensures topping in selected ==>
      |r| == |Kept(selected, Except(topping), 0)|
      && forall k :: 0 <= k < |r| ==> r[k] == selected[Kept(selected, Except(topping), 0)[k]]
    ensures topping !in selected ==> |r| == |selected| + 1 && r[..|selected|] == selected && r[|selected|] == topping
  {
    if topping in selected then
      FilterCountAll(selected, Except(topping));
      FilterAt(selected, Except(topping));
      Filter(selected, Except(topping))
    else selected + [topping]
  }

  /** Toggling an unselected topping twice gives back the original selection. */
  lemma ToggleTwiceRestores(selected: seq<Ingredient>, topping: Ingredient)
    requires topping !in selected
    ensures ToggleTopping(ToggleTopping(selected, topping), topping) == selected
  {
    var keep := Except(topping);
    FilterAppend(selected, [topping], keep);
    FilterKeepsAll(selected, keep);
    assert Filter([topping], keep) == [];
  }

  /** Toggling never introduces a duplicate into a duplicate-free selection. */
  lemma ToggleKeepsDistinct(selected: seq<Ingredient>, topping: Ingredient)
    requires Distinct(selected)
    ensures Distinct(ToggleTopping(selected, topping))
  {
    if topping in selected {
      FilterKeepsDistinct(selected, Except(topping));
    }
  }

  lemma {:induction false} FilterKeepsDistinct<T>(xs: seq<T>, keep: T -> bool)
    requires Distinct(xs)
    ensures Distinct(Filter(xs, keep))
  {
    if |xs| > 0 {
      FilterKeepsDistinct(xs[1..], keep);
      var rest := Filter(xs[1..], keep);
      assert xs[0] !in xs[1..];
      assert xs[0] !in rest;
    }
  }

  /** The product's own ingredient ids are present in its optional
      `ingredients` field. */
  predicate ListedBy(product: Product, ing: Ingredient) {
    product.ingredients.Some? && ing.id in Ids(product.ingredients.value)
  }

  /** Selects the catalog ingredients the product lists. */
  function Listed(product: Product): Ingredient -> bool {
    ing => ListedBy(product, ing)
  }

  /** The pre-selected toppings when the dialog opens: the catalog ingredients
      whose id the product lists, in catalog order. */
  function DefaultToppings(product: Product, catalog: seq<Ingredient>): (r: seq<Ingredient>)
    ensures |r| == |Kept(catalog, Listed(product), 0)|
    ensures forall k :: 0 <= k < |r| ==> r[k] == catalog[Kept(catalog, Listed(product), 0)[k]]
    ensures forall i :: 0 <= i < |r| ==> r[i] in catalog && ListedBy(product, r[i])
    ensures forall i :: 0 <= i < |catalog| && ListedBy(product, catalog[i]) ==> catalog[i] in r
    ensures product.ingredients.None? ==> r == []
  {
    var keep := Listed(product);
    FilterAt(catalog, keep);
    assert forall x :: keep(x) == ListedBy(product, x);
    var r := Filter(catalog, keep);
    assert |r| > 0 ==> ListedBy(product, r[0]);
    r
  }

  /** The defaults effect, run when the dialog opens, the product changes or
      the catalog changes: size back to small and the default toppings
      pre-selected; the reviews and the text box are untouched. */
  function Open(d: Dialog, product: Product, catalog: seq<Ingredient>): (r: Dialog)
    ensures r.size == "small"
    ensures r.toppings == DefaultToppings(product, catalog)
    ensures r.reviews == d.reviews && r.reviewText == d.reviewText
  {
    d.(size := "small", toppings := DefaultToppings(product, catalog))
  }

  /** The product-change effect: the review list is reset to the product's
      own `reviews` field; nothing else changes. */
  function ProductChanged(d: Dialog, product: Product): (r: Dialog)
    ensures r.reviews == product.reviews
    ensures r.size == d.size && r.toppings == d.toppings && r.reviewText == d.reviewText
  {
    d.(reviews := product.reviews)
  }

  /** Selecting a product in the kiosk: both effects run. The dialog shows
      the product's defaults and the product's own review list, and renders
      exactly when the product carries one. */
  function SelectProduct(d: Dialog, product: Product, catalog: seq<Ingredient>): (r: Dialog)
    ensures r.size == "small" && r.toppings == DefaultToppings(product, catalog)
    ensures r.reviews == product.reviews && r.reviewText == d.reviewText
    ensures Renders(r) <==> product.reviews.Some?
  {
    Open(ProductChanged(d, product), product, catalog)
  }

  /** The dialog as evidently intended: a product without a review list
      shows an empty one, so the dialog always renders, and a product that
      carries its reviews is shown exactly as before. */
  function SelectProductIntended(d: Dialog, product: Product, catalog: seq<Ingredient>): (r: Dialog)
    ensures Renders(r)
    ensures product.reviews.Some? ==> r == SelectProduct(d, product, catalog)
    ensures product.reviews.None? ==> r.reviews == Some([])
    ensures r.size == "small" && r.toppings == DefaultToppings(product, catalog)
  {
    Open(d.(reviews := Some(product.reviews.GetOr([]))), product, catalog)
  }

  /** Finalise: a copy of the product priced with the size surcharge whose
      ingredients are exactly the current selection. */
  function Finalize(product: Product, d: Dialog): (r: Product)
    ensures r.price == product.price + Surcharge(d.size)
    ensures r.price >= product.price
    ensures r.ingredients == Some(d.toppings)
    ensures r.id == product.id && r.name == product.name && r.description == product.description
    ensures r.customizations == product.customizations && r.hasBoba == product.hasBoba
    ensures r.reviews == product.reviews
  {
    product.(price := product.price + Surcharge(d.size), ingredients := Some(d.toppings))
  }

  /** A product without an ingredient list, finalised straight after opening,
      costs its base price and carries no toppings. */
  lemma FinalizeDefault(product: Product, catalog: seq<Ingredient>, d: Dialog)
    requires product.ingredients.None?
    ensures Finalize(product, Open(d, product, catalog)).price == product.price
    ensures Finalize(product, Open(d, product, catalog)).ingredients == Some([])
  {
  }

  /** Request to post a review. */
  datatype ReviewRequest = ReviewRequest(productId: string, customerId: string, reviewText: string)

  /** How the review request resolved: status 200 with the stored review, some
      other success status, or a rejected request (the HTTP client throws). */
  datatype ReviewReply = Ok200(review: Review) | OtherSuccess | Rejected

  datatype ReviewStep = ReviewStep(dialog: Dialog, request: Option<ReviewRequest>)

  /** Post the text box as a review of `productId`. On a 200 the returned
      review is appended to the list; spreading an undefined list throws, so
      then the handler stops before clearing the text box. */
  function SubmitReview(d: Dialog, productId: string, customer: Option<Customer>, reply: ReviewReply): (r: ReviewStep)
    ensures (customer.None? || d.reviewText == "") ==> r == ReviewStep(d, None)
    ensures customer.Some? && d.reviewText != "" ==>
      r.request == Some(ReviewRequest(productId, customer.value.id, d.reviewText))
    ensures reply.Ok200? && r.request.Some? && d.reviews.Some? ==>
      r.dialog.reviews == Some(d.reviews.value + [reply.review]) && r.dialog.reviewText == ""
    ensures reply.Ok200? && d.reviews.None? ==> r.dialog == d
    ensures reply.OtherSuccess? && r.request.Some? ==> r.dialog == d.(reviewText := "")
    ensures reply.Rejected? ==> r.dialog == d
    ensures r.dialog.size == d.size && r.dialog.toppings == d.toppings
    ensures r.dialog.reviews.Some? <==> d.reviews.Some?
  {
    if customer.None? || d.reviewText == "" then ReviewStep(d, None)
    else
      var req := Some(ReviewRequest(productId, customer.value.id, d.reviewText));
      match reply
      case Ok200(review) =>
        (match d.reviews
         case Some(list) => ReviewStep(d.(reviews := Some(list + [review]), reviewText := ""), req)
         case None => ReviewStep(d, req))
      case OtherSuccess => ReviewStep(d.(reviewText := ""), req)
      case Rejected => ReviewStep(d, req)
  }

  /** Request to delete a review. */
  datatype DeleteRequest = DeleteRequest(reviewId: string, customerId: string)

  /** How the delete request resolved: status 200, another success status, or rejected. */
  datatype DeleteReply = Deleted200 | DeleteOtherSuccess | DeleteRejected

  datatype DeleteStep = DeleteStep(dialog: Dialog, request: Option<DeleteRequest>)

  /** Keeps every review other than `reviewId`. */
  function OtherThan(reviewId: string): Review -> bool {
    (v: Review) => v.id != reviewId
  }

  /** Delete review `reviewId` on behalf of the signed-in customer. On a 200
      the review is filtered out of the list; filtering an undefined list
      throws, and then nothing changes. */
  function DeleteReview(d: Dialog, reviewId: string, customer: Option<Customer>, reply: DeleteReply): (r: DeleteStep)
    ensures (customer.None? || reviewId == "") ==> r == DeleteStep(d, None)
    ensures customer.Some? && reviewId != "" ==> r.request == Some(DeleteRequest(reviewId, customer.value.id))
    ensures r.dialog.reviews.Some? <==> d.reviews.Some?
    ensures r.request.Some? && reply.Deleted200? && d.reviews.Some? ==>
      r.dialog.reviews == Some(Filter(d.reviews.value, OtherThan(reviewId)))
    ensures r.request.Some? && reply.Deleted200? && d.reviews.Some? ==>
      (forall i :: 0 <= i < |r.dialog.reviews.value| ==> r.dialog.reviews.value[i].id != reviewId)
      && (forall v: Review :: v.id != reviewId ==> Count(r.dialog.reviews.value, v) == Count(d.reviews.value, v))
    ensures !reply.Deleted200? || d.reviews.None? ==> r.dialog == d
    ensures r.dialog.reviewText == d.reviewText && r.dialog.toppings == d.toppings
  {
    if customer.None? || reviewId == "" then DeleteStep(d, None)
    else
      var req := Some(DeleteRequest(reviewId, customer.value.id));
      match reply
      case Deleted200 =>
        (match d.reviews
         case Some(list) =>
           FilterCountAll(list, OtherThan(reviewId));
           DeleteStep(d.(reviews := Some(Filter(list, OtherThan(reviewId)))), req)
         case None => DeleteStep(d, req))
      case _ => DeleteStep(d, req)
  }

  /** Filtering out the id of a review appended to a list without that id
      gives back the list. */
  lemma RemoveAppended(list: seq<Review>, review: Review)
    requires forall i :: 0 <= i < |list| ==> list[i].id != review.id
    ensures Filter(list + [review], OtherThan(review.id)) == list
  {
    var keep := OtherThan(review.id);
    assert forall i :: 0 <= i < |list| ==> keep(list[i]);
    FilterAppend(list, [review], keep);
    FilterKeepsAll(list, keep);
    assert Filter([review], keep) == [];
    assert list + [] == list;
  }

  /** Posting a review whose id the list does not hold, then deleting it,
      gives back the original list. */
  lemma SubmitThenDeleteRestores(d: Dialog, productId: string, customer: Customer, review: Review)
    requires d.reviews.Some? && d.reviewText != "" && review.id != ""
    requires forall i :: 0 <= i < |d.reviews.value| ==> d.reviews.value[i].id != review.id
    ensures var posted := SubmitReview(d, productId, Some(customer), Ok200(review)).dialog;
      DeleteReview(posted, review.id, Some(customer), Deleted200).dialog.reviews == d.reviews
  {
    var posted := SubmitReview(d, productId, Some(customer), Ok200(review)).dialog;
    assert posted.reviews == Some(d.reviews.value + [review]);
    RemoveAppended(d.reviews.value, review);
  }

  /** A product straight from the catalog, which carries no review list,
      breaks the dialog: it cannot render, and neither a posted nor a deleted
      review ever reaches the list. */
  lemma CatalogProductBreaksDialog(d: Dialog, product: Product, catalog: seq<Ingredient>, customer: Customer, review: Review, reviewId: string)
    requires FromCatalog(product)
    ensures var shown := SelectProduct(d, product, catalog);
      !Renders(shown)
      && SubmitReview(shown, product.id, Some(customer), Ok200(review)).dialog == shown
      && DeleteReview(shown, reviewId, Some(customer), Deleted200).dialog == shown
  {
  }
}
