/** The order submission endpoint: the order row, its product lines, and the
    all-or-nothing ingredient stock decrement, each committed in its own
    transaction. */
module OrderRoute {
  import opened Wrappers
  import Seqs

  /** The stock after taking one unit per occurrence of an id, front to back;
      `None` when an id is unknown or some occurrence finds stock <= 0. */
  function Decrement(stock: map<string, int>, ids: seq<string>): (r: Option<map<string, int>>)
    ensures r.Some? ==> r.value.Keys == stock.Keys
  {
    if |ids| == 0 then Some(stock)
    else
      var id := ids[0];
      if id !in stock || stock[id] <= 0 then None
      else Decrement(stock[id := stock[id] - 1], ids[1..])
  }

  /** A successful decrement lowers each stock by exactly the number of
      occurrences of its id. */
  lemma {:induction false} DecrementCounts(stock: map<string, int>, ids: seq<string>)
    requires Decrement(stock, ids).Some?
    ensures forall id :: id in stock ==> Decrement(stock, ids).value[id] == stock[id] - Seqs.Count(ids, id)
  {
    if |ids| > 0 {
      var next := stock[ids[0] := stock[ids[0]] - 1];
      DecrementCounts(next, ids[1..]);
      assert forall id :: Seqs.Count(ids, id) == (if id == ids[0] then 1 else 0) + Seqs.Count(ids[1..], id);
    }
  }

  /** Every id is known and has at least as many units as it occurs. */
  predicate Sufficient(stock: map<string, int>, ids: seq<string>) {
    forall i :: 0 <= i < |ids| ==> ids[i] in stock && Seqs.Count(ids, ids[i]) <= stock[ids[i]]
  }

  /** The decrement succeeds exactly when the stock suffices for every id. */
  lemma {:induction false} DecrementIff(stock: map<string, int>, ids: seq<string>)
    ensures Decrement(stock, ids).Some? <==> Sufficient(stock, ids)
  {
    if |ids| > 0 {
      var id := ids[0];
      var rest := ids[1..];
      if id in stock && stock[id] > 0 {
        var next := stock[id := stock[id] - 1];
        DecrementIff(next, rest);
        SufficientStep(stock, ids);
      } else {
        assert !Sufficient(stock, ids) by {
          if id in stock {
            assert Seqs.Count(ids, id) >= 1;
          }
        }
      }
    }
  }

  /** Taking the first unit keeps sufficiency in step with the rest of the ids. */
  lemma SufficientStep(stock: map<string, int>, ids: seq<string>)
    requires |ids| > 0 && ids[0] in stock && stock[ids[0]] > 0
    ensures Sufficient(stock, ids) <==> Sufficient(stock[ids[0] := stock[ids[0]] - 1], ids[1..])
  {
    var id := ids[0];
    var rest := ids[1..];
    var next := stock[id := stock[id] - 1];
    assert forall x :: Seqs.Count(ids, x) == (if x == id then 1 else 0) + Seqs.Count(rest, x);
    if Sufficient(stock, ids) {
      forall i | 0 <= i < |rest| ensures rest[i] in next && Seqs.Count(rest, rest[i]) <= next[rest[i]] {
        assert rest[i] == ids[i + 1];
      }
    }
    if Sufficient(next, rest) {
      forall i | 0 <= i < |ids| ensures ids[i] in stock && Seqs.Count(ids, ids[i]) <= stock[ids[i]] {
        if i > 0 {
          assert ids[i] == rest[i - 1];
        } else if id in rest {
          var k :| 0 <= k < |rest| && rest[k] == id;
          assert Seqs.Count(rest, rest[k]) <= next[rest[k]];
        }
      }
    }
  }

  /** Every stock an order draws on stays non-negative. */
  lemma DecrementKeepsTouchedNonNegative(stock: map<string, int>, ids: seq<string>, i: nat)
    requires Decrement(stock, ids).Some? && i < |ids|
    ensures ids[i] in Decrement(stock, ids).value && Decrement(stock, ids).value[ids[i]] >= 0
  {
    DecrementIff(stock, ids);
    DecrementCounts(stock, ids);
  }

  /** One step of the decrement from position `i`: the id there is taken
      and the ids after it follow. */
  lemma DecrementStep(stock: map<string, int>, ids: seq<string>, i: nat)
    requires i < |ids| && ids[i] in stock && stock[ids[i]] > 0
    ensures Decrement(stock, ids[i..]) == Decrement(stock[ids[i] := stock[ids[i]] - 1], ids[i + 1..])
  {
    assert ids[i..][0] == ids[i] && ids[i..][1..] == ids[i + 1..];
  }

  /** The decrement loop of the endpoint: walks the ids, failing on the first
      unknown or exhausted ingredient. */
  method DecrementStock(stock: map<string, int>, ids: seq<string>) returns (ok: bool, updated: map<string, int>)
    ensures ok <==> Sufficient(stock, ids)
    ensures ok ==> updated.Keys == stock.Keys
    ensures ok ==> forall id :: id in stock ==> updated[id] == stock[id] - Seqs.Count(ids, id)
    ensures !ok ==> updated == stock
  {
    var current := stock;
    var i := 0;
    while i < |ids|
      invariant 0 <= i <= |ids|
      invariant Decrement(current, ids[i..]) == Decrement(stock, ids)
    {
      var id := ids[i];
      if id !in current || current[id] <= 0 {
        assert ids[i..][0] == id;
        assert Decrement(stock, ids).None?;
        DecrementIff(stock, ids);
        return false, stock;
      }
      DecrementStep(current, ids, i);
      current := current[id := current[id] - 1];
      i := i + 1;
    }
    assert ids[i..] == [];
    assert Decrement(stock, ids) == Some(current);
    DecrementIff(stock, ids);
    DecrementCounts(stock, ids);
    return true, current;
  }

  /** A row of the order table; `total` is the client's total as the
      two-decimal column stores it. */
  datatype OrderRow = OrderRow(id: string, employeeId: string, total: real, orderDate: int)

  /** The whole number of cents nearest `x`, halves away from zero. */
  function Cents(x: real): (n: int)
    ensures -0.5 <= n as real - x * 100.0 <= 0.5
    ensures x >= 0.0 ==> n >= 0
  {
    var y := x * 100.0;
    if y >= 0.0 then (y + 0.5).Floor else -((-y + 0.5).Floor)
  }

  /** The value a `Numeric(10, 2)` column stores: rounded to whole cents,
      halves away from zero. */
  function RoundCents(x: real): (r: real)
    ensures -0.005 <= r - x <= 0.005
    ensures (r * 100.0).Floor as real == r * 100.0
    ensures x >= 0.0 ==> r >= 0.0
  {
    var n := Cents(x);
    assert n as real / 100.0 * 100.0 == n as real;
    n as real / 100.0
  }

  /** Whole-cent amounts are stored unchanged. */
  lemma RoundCentsKeepsCents(n: int)
    ensures RoundCents(n as real / 100.0) == n as real / 100.0
  {
    var x := n as real / 100.0;
    assert x * 100.0 == n as real;
    if n >= 0 {
      assert (n as real + 0.5).Floor == n;
    } else {
      assert (-n as real + 0.5).Floor == -n;
    }
  }

  /** A row linking an order to a product. Row ids are random and not modelled. */
  datatype ProductOrderRow = ProductOrderRow(orderId: string, productId: string, quantity: int)

  /** The tables the endpoint touches; `products` is the set of product ids the
      product-line foreign key accepts. */
  datatype Db = Db(orders: seq<OrderRow>, productOrders: seq<ProductOrderRow>, stock: map<string, int>, products: set<string>)

  /** The JSON body; a missing list is `None`. */
  datatype Request = Request(products: Option<seq<string>>, ingredients: Option<seq<string>>, employeeId: string, total: real)

  /** The endpoint as written: the order row is committed first; of the product
      lines only the last one built is added; then the stock is decremented.
      `orderId` and `now` stand for the random id and the clock, and
      `orderAccepted` for whether the database accepts the order row. Any
      failure answers 500 and keeps what earlier phases committed. */
  function SubmitOrder(db: Db, req: Request, orderId: string, now: int, orderAccepted: bool): (r: (int, Db))
    ensures r.0 == 200 || r.0 == 500
    ensures !orderAccepted ==> r == (500, db)
    ensures orderAccepted ==> r.1.orders == db.orders + [OrderRow(orderId, req.employeeId, RoundCents(req.total), now)]
    ensures r.1.stock != db.stock ==> r.0 == 200
    ensures r.0 == 200 ==>
      req.products.Some? && |req.products.value| > 0 && req.ingredients.Some?
      && Decrement(db.stock, req.ingredients.value).Some?
      && r.1.stock == Decrement(db.stock, req.ingredients.value).value
    ensures r.0 == 200 ==>
      var last := req.products.value[|req.products.value| - 1];
      last in db.products && r.1.productOrders == db.productOrders + [ProductOrderRow(orderId, last, 1)]
    ensures orderAccepted && req.products.Some? && |req.products.value| > 0
            && req.products.value[|req.products.value| - 1] in db.products ==>
      r.1.productOrders == db.productOrders + [ProductOrderRow(orderId, req.products.value[|req.products.value| - 1], 1)]
    ensures !(orderAccepted && req.products.Some? && |req.products.value| > 0
              && req.products.value[|req.products.value| - 1] in db.products) ==>
      r.1.productOrders == db.productOrders && r.0 == 500
    ensures r.0 == 200 <==>
      orderAccepted && req.products.Some? && |req.products.value| > 0
      && req.products.value[|req.products.value| - 1] in db.products
      && req.ingredients.Some? && Sufficient(db.stock, req.ingredients.value)
    ensures r.1.products == db.products
  {
    if !orderAccepted then (500, db)
    else
      var db1 := db.(orders := db.orders + [OrderRow(orderId, req.employeeId, RoundCents(req.total), now)]);
      match req.products
      case None => (500, db1)
      case Some(ps) =>
        if |ps| == 0 then (500, db1)
        else
          var last := ps[|ps| - 1];
          if last !in db.products then (500, db1)
          else
            var db2 := db1.(productOrders := db1.productOrders + [ProductOrderRow(orderId, last, 1)]);
            match req.ingredients
            case None => (500, db2)
            case Some(ings) =>
              DecrementIff(db2.stock, ings);
              match Decrement(db2.stock, ings)
              case None => (500, db2)
              case Some(stock) => (200, db2.(stock := stock))
  }

  /** As written, an order of several products records a single line, for the
      last product, and earlier product ids are never checked. */
  lemma OnlyLastLineRecorded(db: Db, orderId: string, now: int)
    requires "tea" !in db.products && "boba" in db.products && "milk" in db.stock && db.stock["milk"] >= 1
    ensures var req := Request(Some(["tea", "boba"]), Some(["milk"]), "e1", 5.0);
      var r := SubmitOrder(db, req, orderId, now, true);
      r.0 == 200 && r.1.productOrders == db.productOrders + [ProductOrderRow(orderId, "boba", 1)]
  {
    assert ["tea", "boba"][1] == "boba";
    assert Decrement(db.stock, ["milk"]) == Some(db.stock["milk" := db.stock["milk"] - 1]);
  }

  /** One quantity-1 line per product, in order. */
  function Lines(orderId: string, products: seq<string>): (rows: seq<ProductOrderRow>)
    ensures |rows| == |products|
    ensures forall i :: 0 <= i < |rows| ==> rows[i] == ProductOrderRow(orderId, products[i], 1)
  {
    if |products| == 0 then [] else [ProductOrderRow(orderId, products[0], 1)] + Lines(orderId, products[1..])
  }

  /** The endpoint as evidently intended: every product of the order gets a
      line, every product id must be known, and the stock phase follows. */
  function SubmitOrderIntended(db: Db, req: Request, orderId: string, now: int, orderAccepted: bool): (r: (int, Db))
    ensures r.0 == 200 || r.0 == 500
    ensures !orderAccepted ==> r == (500, db)
    ensures orderAccepted ==> r.1.orders == db.orders + [OrderRow(orderId, req.employeeId, RoundCents(req.total), now)]
    ensures r.0 == 200 ==>
      req.products.Some? && req.ingredients.Some?
      && (forall i :: 0 <= i < |req.products.value| ==> req.products.value[i] in db.products)
      && r.1.productOrders == db.productOrders + Lines(orderId, req.products.value)
      && Decrement(db.stock, req.ingredients.value).Some?
      && r.1.stock == Decrement(db.stock, req.ingredients.value).value
    ensures r.1.stock != db.stock ==> r.0 == 200
    ensures r.0 == 200 <==>
      orderAccepted && req.products.Some?
      && (forall i :: 0 <= i < |req.products.value| ==> req.products.value[i] in db.products)
      && req.ingredients.Some? && Sufficient(db.stock, req.ingredients.value)
  {
    if !orderAccepted then (500, db)
    else
      var db1 := db.(orders := db.orders + [OrderRow(orderId, req.employeeId, RoundCents(req.total), now)]);
      match req.products
      case None => (500, db1)
      case Some(ps) =>
        if exists i :: 0 <= i < |ps| && ps[i] !in db.products then (500, db1)
        else
          var db2 := db1.(productOrders := db1.productOrders + Lines(orderId, ps));
          match req.ingredients
          case None => (500, db2)
          case Some(ings) =>
            DecrementIff(db2.stock, ings);
            match Decrement(db2.stock, ings)
            case None => (500, db2)
            case Some(stock) => (200, db2.(stock := stock))
  }

  /** The intended endpoint records every line of a successful order after
      the existing ones, each product once per occurrence. */
  lemma IntendedRecordsEveryLine(db: Db, req: Request, orderId: string, now: int, p: string)
    requires SubmitOrderIntended(db, req, orderId, now, true).0 == 200
    ensures var rows := SubmitOrderIntended(db, req, orderId, now, true).1.productOrders;
      rows[..|db.productOrders|] == db.productOrders
      && Seqs.Count(rows[|db.productOrders|..], ProductOrderRow(orderId, p, 1)) == Seqs.Count(req.products.value, p)
  {
    var rows := SubmitOrderIntended(db, req, orderId, now, true).1.productOrders;
    assert rows[|db.productOrders|..] == Lines(orderId, req.products.value);
    LinesCount(orderId, req.products.value, p);
  }

  lemma {:induction false} LinesCount(orderId: string, products: seq<string>, p: string)
    ensures Seqs.Count(Lines(orderId, products), ProductOrderRow(orderId, p, 1)) == Seqs.Count(products, p)
  {
    if |products| > 0 {
      var ls := Lines(orderId, products);
      assert ls[1..] == Lines(orderId, products[1..]);
      LinesCount(orderId, products[1..], p);
    }
  }

  /** For an order of one product the endpoint as written and as intended
      agree: the defect shows only with several products. */
  lemma SingleProductAgrees(db: Db, req: Request, orderId: string, now: int, orderAccepted: bool)
    requires req.products.Some? && |req.products.value| == 1
    ensures SubmitOrder(db, req, orderId, now, orderAccepted) == SubmitOrderIntended(db, req, orderId, now, orderAccepted)
  {
    var ps := req.products.value;
    assert Lines(orderId, ps) == [ProductOrderRow(orderId, ps[0], 1)];
    assert (exists i :: 0 <= i < |ps| && ps[i] !in db.products) <==> ps[0] !in db.products;
  }
}
