/** The review endpoints: adding a review for a known product and customer,
    and deleting one by its owner. */
module ReviewRoute {
  import opened Wrappers
  import opened Uuids

  /** A stored review. */
  datatype ReviewRow = ReviewRow(id: string, productId: string, customerId: string, text: string, createdAt: int)

  /** The reviews by id, with the canonical ids of the products and the
      customer ids that exist. */
  datatype Db = Db(reviews: map<string, ReviewRow>, products: set<string>, customers: set<string>)

  /** A string field of the JSON body: `None` when missing or null. */
  predicate Present(f: Option<string>) {
    f.Some? && f.value != ""
  }

  /** The fields `add_review` reads; the body itself is `None` when it is not a JSON object. */
  datatype AddBody = AddBody(productId: Option<string>, customerId: Option<string>, reviewText: Option<string>)

  /** An endpoint's status, its error message ("" on success) and the store afterwards. */
  datatype Reply = Reply(status: int, error: string, db: Db)

  /** The three fields `add_review` requires are present and non-empty. */
  predicate AllPresent(b: AddBody) {
    Present(b.productId) && Present(b.customerId) && Present(b.reviewText)
  }

  /** `add_review`. `reviewId` and `now` stand for the random id and the clock.
      A missing body answers 500; a missing or empty field 400. The product is
      looked up by its UUID key, so an id that is not a UUID makes the lookup
      raise (500) and any accepted spelling of a stored id finds it. An
      unknown product answers 400 and, after that check, an unknown customer
      400; a review id already taken fails at the commit (500); otherwise the
      review is stored under the product's canonical id. */
  function AddReview(db: Db, body: Option<AddBody>, reviewId: string, now: int): (r: Reply)
    ensures r.status in {200, 400, 500}
    ensures r.status != 200 ==> r.db == db
    ensures body.None? ==> r.status == 500
    ensures body.Some? && !AllPresent(body.value) ==> r == Reply(400, "Missing required fields", db)
    ensures body.Some? && AllPresent(body.value) && ParseUuid(body.value.productId.value).None? ==> r.status == 500
    ensures body.Some? && AllPresent(body.value) && reviewId in db.reviews ==> r.status != 200
    ensures r.status == 200 <==>
      body.Some? && AllPresent(body.value)
      && ParseUuid(body.value.productId.value).Some? && ParseUuid(body.value.productId.value).value in db.products
      && body.value.customerId.value in db.customers && reviewId !in db.reviews
    ensures r.status == 200 ==>
      r.db == db.(reviews := db.reviews[reviewId := ReviewRow(reviewId, ParseUuid(body.value.productId.value).value,
                                       body.value.customerId.value, body.value.reviewText.value, now)])
  {
    match body
    case None => Reply(500, "Something went wrong!", db)
    case Some(b) =>
      if !AllPresent(b) then
        Reply(400, "Missing required fields", db)
      else match ParseUuid(b.productId.value)
        case None => Reply(500, "Something went wrong!", db)
        case Some(productKey) =>
          if productKey !in db.products then Reply(400, "Product not found", db)
          else if b.customerId.value !in db.customers then Reply(400, "Customer not found", db)
          else if reviewId in db.reviews then Reply(500, "Something went wrong!", db)
          else
            var row := ReviewRow(reviewId, productKey, b.customerId.value, b.reviewText.value, now);
            Reply(200, "", db.(reviews := db.reviews[reviewId := row]))
  }

  /** The product is checked before the customer. */
  lemma ProductCheckedFirst(db: Db, b: AddBody, reviewId: string, now: int)
    requires AllPresent(b)
    requires ParseUuid(b.productId.value).Some? && ParseUuid(b.productId.value).value !in db.products
    ensures AddReview(db, Some(b), reviewId, now) == Reply(400, "Product not found", db)
  {
  }

  /** The product's id may be spelled in any form the UUID parser accepts:
      the stored product is found and the review refers to it by its
      canonical id. */
  lemma AnySpellingFindsProduct(db: Db, b: AddBody, canonical: string, reviewId: string, now: int)
    requires AllPresent(b) && b.customerId.value in db.customers && reviewId !in db.reviews
    requires canonical in db.products && ParseUuid(b.productId.value) == Some(canonical)
    ensures var r := AddReview(db, Some(b), reviewId, now);
      r.status == 200 && r.db.reviews[reviewId].productId == canonical
  {
  }

  /** The review record the add endpoint answers with. */
  datatype ReviewJson = ReviewJson(id: string, productId: string, customerId: string, reviewText: string)

  /** The response body as written: its `product_id` field carries the review's own id. */
  function AddResponseAsWritten(row: ReviewRow): (j: ReviewJson)
    ensures j.id == row.id && j.customerId == row.customerId && j.reviewText == row.text
    ensures j.productId == row.id
    ensures j.productId == row.productId <==> row.id == row.productId
  {
    ReviewJson(row.id, row.id, row.customerId, row.text)
  }

  /** As written, a client reading `product_id` from the response gets the
      review id, not the reviewed product. */
  lemma AsWrittenMislabelsProduct()
    ensures var row := ReviewRow("r1", "p1", "c1", "Great", 0);
      AddResponseAsWritten(row).productId == "r1" != row.productId
  {
  }

  /** The response body as evidently intended: each field echoes the stored row. */
  function AddResponse(row: ReviewRow): (j: ReviewJson)
    ensures j.id == row.id && j.productId == row.productId
    ensures j.customerId == row.customerId && j.reviewText == row.text
  {
    ReviewJson(row.id, row.productId, row.customerId, row.text)
  }

  /** The intended response describes exactly the review the endpoint stored. */
  lemma ResponseDescribesStoredReview(db: Db, b: AddBody, reviewId: string, now: int)
    requires AddReview(db, Some(b), reviewId, now).status == 200
    ensures var stored := AddReview(db, Some(b), reviewId, now).db.reviews[reviewId];
      AddResponse(stored) == ReviewJson(reviewId, ParseUuid(b.productId.value).value, b.customerId.value, b.reviewText.value)
  {
  }

  /** The fields `delete_review` reads. */
  datatype DeleteBody = DeleteBody(reviewId: Option<string>, customerId: Option<string>)

  /** Both fields are present and non-empty. */
  predicate Complete(b: DeleteBody) {
    Present(b.reviewId) && Present(b.customerId)
  }

  /** The customer named in the body wrote the stored review. */
  predicate Owns(db: Db, b: DeleteBody)
    requires Complete(b) && b.reviewId.value in db.reviews
  {
    db.reviews[b.reviewId.value].customerId == b.customerId.value
  }

  /** `delete_review`: a missing body answers 500; missing fields or an unknown
      review 400; a customer other than the author 403; otherwise the review
      is removed. */
  function DeleteReview(db: Db, body: Option<DeleteBody>): (r: Reply)
    ensures r.status in {200, 400, 403, 500}
    ensures r.status != 200 ==> r.db == db
    ensures body.Some? && !Complete(body.value) ==> r.status == 400
    ensures body.Some? && Complete(body.value) && body.value.reviewId.value !in db.reviews ==> r.status == 400
    ensures body.Some? && Complete(body.value) && body.value.reviewId.value in db.reviews && !Owns(db, body.value)
      ==> r == Reply(403, "Unauthorized", db)
    ensures r.status == 200 <==> body.Some? && Complete(body.value) && body.value.reviewId.value in db.reviews && Owns(db, body.value)
    ensures r.status == 200 ==> r.db == db.(reviews := db.reviews - {body.value.reviewId.value})
  {
    match body
    case None => Reply(500, "Something went wrong!", db)
    case Some(b) =>
      if !Present(b.reviewId) || !Present(b.customerId) then Reply(400, "Missing required fields", db)
      else if b.reviewId.value !in db.reviews then Reply(400, "Product not found", db)
      else if db.reviews[b.reviewId.value].customerId != b.customerId.value then Reply(403, "Unauthorized", db)
      else Reply(200, "", db.(reviews := db.reviews - {b.reviewId.value}))
  }

  /** A review added under a fresh id and then deleted by its author leaves
      the store as it was. */
  lemma AddThenDeleteRestores(db: Db, b: AddBody, reviewId: string, now: int)
    requires reviewId != "" && reviewId !in db.reviews
    requires AddReview(db, Some(b), reviewId, now).status == 200
    ensures var added := AddReview(db, Some(b), reviewId, now).db;
      DeleteReview(added, Some(DeleteBody(Some(reviewId), b.customerId))) == Reply(200, "", db)
  {
    var added := AddReview(db, Some(b), reviewId, now).db;
    assert added.reviews - {reviewId} == db.reviews;
  }
}
