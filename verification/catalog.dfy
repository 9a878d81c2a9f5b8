/** Records the kiosk receives from the catalog endpoints and the session store. */
module Catalog {
  import opened Wrappers

  /** An ingredient row of the catalog (`IIngredient`). */
  datatype Ingredient = Ingredient(
    id: string,
    name: string,
    quantity: int,
    supplier: string,
    expiration: string)

  /** A review as the review endpoints return it. */
  datatype Review = Review(id: string, customerId: string, reviewText: string)

  /** A product (`IProduct`). `ingredients` is optional: the catalog endpoint
      sends `product_ingredients` instead, so a catalog product arrives without
      it, while a customised cart line always carries one. `reviews` is read
      by the customisation dialog but is sent by no endpoint, so a catalog
      product never carries it. */
  datatype Product = Product(
    id: string,
    name: string,
    description: string,
    price: real,
    customizations: Option<string>,
    hasBoba: bool,
    ingredients: Option<seq<Ingredient>>,
    reviews: Option<seq<Review>>)

  /** A product as the catalog endpoint delivers it: neither optional list is present. */
  predicate FromCatalog(p: Product) {
    p.ingredients.None? && p.reviews.None?
  }

  /** A signed-in loyalty customer. */
  datatype Customer = Customer(id: string, name: string, points: int, picture: Option<string>)

  /** The ids of a list of ingredients, in order. */
  function Ids(ings: seq<Ingredient>): (r: seq<string>)
    ensures |r| == |ings|
    ensures forall i :: 0 <= i < |ings| ==> r[i] == ings[i].id
  {
    if |ings| == 0 then [] else [ings[0].id] + Ids(ings[1..])
  }
}
