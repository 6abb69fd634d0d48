/**
 * The order handlers of backend/controllers/orderController.js over an
 * in-memory order store and product-stock map. Database identity and the
 * clock are parameters: the caller supplies the fresh order id and the
 * current time.
 */
module Orders {
  import opened Results
  import opened JsNumber

  type OrderId = string
  type ProductId = string
  type UserId = string

  /** One line item: which product and how many. */
  datatype Item = Item(product: ProductId, quantity: int)

  /** The fields `newOrder` copies from the request body. */
  datatype Details = Details(
    shippingInfo: string,
    orderItems: seq<Item>,
    paymentInfo: string,
    itemsPrice: real,
    taxPrice: real,
    shippingPrice: real,
    totalPrice: real)

  datatype Order = Order(details: Details, paidAt: int, user: UserId, orderStatus: string, deliveredAt: Option<int>)

  datatype Store = Store(orders: map<OrderId, Order>, stock: map<ProductId, int>)

  /** A handler's answer: success with a status code, or an `ErrorHandler` error. */
  datatype Outcome = Done(status: int) | Rejected(status: int, message: string)

  const NotFound := Rejected(404, "order not found with this id")
  const AlreadyDelivered := Rejected(404, "you have already delivered this order")

  // ---------------------------------------------------------------------
  // newOrder, getSingleOrder, myOrders, deleteOrder
  // ---------------------------------------------------------------------

  /**
   * `newOrder`: store the body fields under a fresh id, owned by the
   * requester and paid now. The status a new order starts with comes from
   * the order schema, which is not part of this model, so it is a parameter.
   */
  function NewOrder(s: Store, id: OrderId, body: Details, requester: UserId, now: int, initialStatus: string): (r: (Store, Outcome))
    requires id !in s.orders
    ensures r.1 == Done(201)
    ensures r.0.stock == s.stock
    ensures r.0.orders.Keys == s.orders.Keys + {id}
    ensures forall k :: k in s.orders ==> r.0.orders[k] == s.orders[k]
    ensures r.0.orders[id].details == body && r.0.orders[id].user == requester && r.0.orders[id].paidAt == now
    ensures r.0.orders[id].deliveredAt == None
  {
    (s.(orders := s.orders[id := Order(body, now, requester, initialStatus, None)]), Done(201))
  }

  /** `getSingleOrder` (without populating the user). */
  function GetSingleOrder(s: Store, id: OrderId): (r: Result<Order, Outcome>)
    ensures r.Success? <==> id in s.orders
    ensures r.Success? ==> r.value == s.orders[id]
    ensures r.Failure? ==> r.error == NotFound
  {
    if id in s.orders then Success(s.orders[id]) else Failure(NotFound)
  }

  /** `myOrders`: `Order.find({user: requester})`. */
  function MyOrders(s: Store, requester: UserId): (r: map<OrderId, Order>)
    ensures forall k :: k in r <==> k in s.orders && s.orders[k].user == requester
    ensures forall k :: k in r ==> r[k] == s.orders[k]
  {
    map k | k in s.orders && s.orders[k].user == requester :: s.orders[k]
  }

  /** `deleteOrder`. */
  function DeleteOrder(s: Store, id: OrderId): (r: (Store, Outcome))
    ensures id !in s.orders ==> r == (s, NotFound)
    ensures id in s.orders ==> r.1 == Done(200) && r.0.stock == s.stock
    ensures id !in r.0.orders
    ensures forall k :: k != id ==> (k in r.0.orders <==> k in s.orders)
    ensures forall k :: k != id && k in s.orders ==> r.0.orders[k] == s.orders[k]
  {
    if id !in s.orders then (s, NotFound)
    else (s.(orders := s.orders - {id}), Done(200))
  }

  // ---------------------------------------------------------------------
  // updateStock and updateOrder
  // ---------------------------------------------------------------------

  /**
   * `updateStock`: subtract the quantity from one product's stock, with no
   * lower bound. A product that is not in the store makes the source throw
   * inside an unawaited callback; the stock is then left as it was. That
   * rejection is unhandled, and backend/server.js:29-35 then closes the
   * server and exits the process, which this model does not follow.
   */
  function UpdateStock(stock: map<ProductId, int>, product: ProductId, quantity: int): (r: map<ProductId, int>)
    ensures r.Keys == stock.Keys
    ensures product in stock ==> r[product] == stock[product] - quantity
    ensures forall p :: p in stock && p != product ==> r[p] == stock[p]
  {
    if product in stock then stock[product := stock[product] - quantity] else stock
  }

  /** The line items applied one after another. */
  function StockAfter(stock: map<ProductId, int>, items: seq<Item>): map<ProductId, int>
    decreases |items|
  {
    if items == [] then stock
    else StockAfter(UpdateStock(stock, items[0].product, items[0].quantity), items[1..])
  }

  /** The total quantity of one product over a list of line items. */
  function QuantityOf(items: seq<Item>, product: ProductId): int
    decreases |items|
  {
    if items == [] then 0
    else (if items[0].product == product then items[0].quantity else 0) + QuantityOf(items[1..], product)
  }

  /** Applying the items subtracts, per product, the summed quantity and adds no product. */
  lemma {:induction false} StockAfterSubtracts(stock: map<ProductId, int>, items: seq<Item>)
    ensures StockAfter(stock, items).Keys == stock.Keys
    ensures forall p :: p in stock ==> StockAfter(stock, items)[p] == stock[p] - QuantityOf(items, p)
    decreases |items|
  {
    if items != [] {
      var next := UpdateStock(stock, items[0].product, items[0].quantity);
      StockAfterSubtracts(next, items[1..]);
    }
  }

  /** The order after an accepted status change. */
  function Transition(o: Order, status: string, now: int): Order {
    o.(orderStatus := status, deliveredAt := if status == "Delivered" then Some(now) else o.deliveredAt)
  }

  /**
   * `updateOrder`: reject an unknown id or an already delivered order;
   * otherwise decrement the stock by the order's line items, set the
   * requested status and stamp the delivery time when it is "Delivered".
   */
  function UpdateOrder(s: Store, id: OrderId, status: string, now: int): (r: (Store, Outcome))
    ensures id !in s.orders ==> r == (s, NotFound)
    ensures id in s.orders && s.orders[id].orderStatus == "Delivered" ==> r == (s, AlreadyDelivered)
    ensures id in s.orders && s.orders[id].orderStatus != "Delivered" ==>
      && r.1 == Done(200)
      && r.0.orders.Keys == s.orders.Keys
      && (forall k :: k in s.orders && k != id ==> r.0.orders[k] == s.orders[k])
      && r.0.orders[id].orderStatus == status
      && r.0.orders[id].details == s.orders[id].details
      && r.0.orders[id].user == s.orders[id].user
      && r.0.orders[id].paidAt == s.orders[id].paidAt
      && (status == "Delivered" ==> r.0.orders[id].deliveredAt == Some(now))
      && (status != "Delivered" ==> r.0.orders[id].deliveredAt == s.orders[id].deliveredAt)
      && r.0.stock.Keys == s.stock.Keys
      && (forall p :: p in s.stock ==> r.0.stock[p] == s.stock[p] - QuantityOf(s.orders[id].details.orderItems, p))
  {
    if id !in s.orders then (s, NotFound)
    else
      var o := s.orders[id];
      if o.orderStatus == "Delivered" then (s, AlreadyDelivered)
      else
        StockAfterSubtracts(s.stock, o.details.orderItems);
        (Store(s.orders[id := Transition(o, status, now)], StockAfter(s.stock, o.details.orderItems)), Done(200))
  }

  // ---------------------------------------------------------------------
  // Lemmas
  // ---------------------------------------------------------------------

  /** A product that no line item names keeps its stock through an accepted update. */
  lemma {:induction false} QuantityOfAbsent(items: seq<Item>, product: ProductId)
    requires forall i :: 0 <= i < |items| ==> items[i].product != product
    ensures QuantityOf(items, product) == 0
    decreases |items|
  {
    if items != [] {
      QuantityOfAbsent(items[1..], product);
    }
  }

  lemma UntouchedProduct(s: Store, id: OrderId, status: string, now: int, product: ProductId)
    requires id in s.orders && s.orders[id].orderStatus != "Delivered"
    requires product in s.stock
    requires forall i :: 0 <= i < |s.orders[id].details.orderItems| ==> s.orders[id].details.orderItems[i].product != product
    ensures UpdateOrder(s, id, status, now).0.stock[product] == s.stock[product]
  {
    QuantityOfAbsent(s.orders[id].details.orderItems, product);
  }

  /** A run of `updateOrder` requests: (id, requested status, time). */
  function UpdateAll(s: Store, requests: seq<(OrderId, string, int)>): Store
    decreases |requests|
  {
    if requests == [] then s
    else UpdateAll(UpdateOrder(s, requests[0].0, requests[0].1, requests[0].2).0, requests[1..])
  }

  /** "Delivered" is terminal: once delivered, no run of updates changes the order. */
  lemma {:induction false} DeliveredIsTerminal(s: Store, id: OrderId, requests: seq<(OrderId, string, int)>)
    requires id in s.orders && s.orders[id].orderStatus == "Delivered"
    ensures id in UpdateAll(s, requests).orders
    ensures UpdateAll(s, requests).orders[id] == s.orders[id]
    decreases |requests|
  {
    if requests != [] {
      var next := UpdateOrder(s, requests[0].0, requests[0].1, requests[0].2).0;
      assert id in next.orders && next.orders[id] == s.orders[id];
      DeliveredIsTerminal(next, id, requests[1..]);
    }
  }

  /** Updating to "Delivered" makes every later update of that order a rejection that changes nothing. */
  lemma DeliveredRejectsLater(s: Store, id: OrderId, now: int, status: string, later: int)
    requires id in s.orders && s.orders[id].orderStatus != "Delivered"
    ensures var s' := UpdateOrder(s, id, "Delivered", now).0;
      UpdateOrder(s', id, status, later) == (s', AlreadyDelivered)
      && s'.orders[id].deliveredAt == Some(now)
  {
  }

  /**
   * Two accepted non-terminal updates of one order subtract its line items
   * twice; nothing bounds the stock from below.
   */
  lemma RepeatedUpdatesSubtractAgain(s: Store, id: OrderId, first: string, second: string, t1: int, t2: int, product: ProductId)
    requires id in s.orders && s.orders[id].orderStatus != "Delivered"
    requires first != "Delivered"
    requires product in s.stock
    ensures var s2 := UpdateOrder(UpdateOrder(s, id, first, t1).0, id, second, t2).0;
      s2.stock[product] == s.stock[product] - 2 * QuantityOf(s.orders[id].details.orderItems, product)
  {
    var s1 := UpdateOrder(s, id, first, t1).0;
    assert s1.orders[id].details == s.orders[id].details;
  }

  /** Concretely: one unit in stock, an order for one unit, two "Shipped" updates leave -1. */
  lemma StockGoesNegative(body: Details, paidAt: int, user: UserId)
    requires body.orderItems == [Item("p", 1)]
    ensures var s := Store(map["o" := Order(body, paidAt, user, "Processing", None)], map["p" := 1]);
      UpdateOrder(UpdateOrder(s, "o", "Shipped", 1).0, "o", "Shipped", 2).0.stock["p"] == -1
  {
    var s := Store(map["o" := Order(body, paidAt, user, "Processing", None)], map["p" := 1]);
    assert QuantityOf(body.orderItems, "p") == 1;
    RepeatedUpdatesSubtractAgain(s, "o", "Shipped", "Shipped", 1, 2, "p");
  }

  /** A new order is visible to its owner and to nobody else, and is found by id. */
  lemma NewOrderVisibility(s: Store, id: OrderId, body: Details, requester: UserId, now: int, initialStatus: string, other: UserId)
    requires id !in s.orders
    requires other != requester
    ensures var s' := NewOrder(s, id, body, requester, now, initialStatus).0;
      && MyOrders(s', requester) == MyOrders(s, requester)[id := s'.orders[id]]
      && MyOrders(s', other) == MyOrders(s, other)
      && GetSingleOrder(s', id) == Success(s'.orders[id])
  {
    var s' := NewOrder(s, id, body, requester, now, initialStatus).0;
    var mine := MyOrders(s', requester);
    var theirs := MyOrders(s', other);
    assert mine.Keys == MyOrders(s, requester).Keys + {id};
    assert theirs.Keys == MyOrders(s, other).Keys;
  }

  /** After a deletion the order is gone for its owner and a second deletion is a not-found. */
  lemma DeleteThenNotFound(s: Store, id: OrderId, requester: UserId)
    requires id in s.orders
    ensures var s' := DeleteOrder(s, id).0;
      && GetSingleOrder(s', id) == Failure(NotFound)
      && DeleteOrder(s', id) == (s', NotFound)
      && MyOrders(s', requester) == MyOrders(s, requester) - {id}
  {
  }

  // ---------------------------------------------------------------------
  // getAllOrders' total amount
  // ---------------------------------------------------------------------

  /**
   * The total as the loop computes it: each step adds `orders.totalPrice`,
   * a property of the array rather than of the order, which reads as
   * undefined and converts to NaN.
   */
  function TotalAmountAsWritten(orders: seq<Order>): Num
    decreases |orders|
  {
    if orders == [] then Finite(0.0)
    else Add(TotalAmountAsWritten(orders[..|orders| - 1]), NaN)
  }

  /** The total the loop is evidently meant to compute: the sum of each order's `totalPrice`. */
  function TotalAmount(orders: seq<Order>): Num
    decreases |orders|
  {
    if orders == [] then Finite(0.0)
    else Add(TotalAmount(orders[..|orders| - 1]), Finite(orders[|orders| - 1].details.totalPrice))
  }

  /** The sum of the prices, as a real. */
  function PriceSum(orders: seq<Order>): real
    decreases |orders|
  {
    if orders == [] then 0.0 else orders[0].details.totalPrice + PriceSum(orders[1..])
  }

  /** As written, any non-empty list of orders totals NaN. */
  lemma {:induction false} TotalAmountAsWrittenIsNaN(orders: seq<Order>)
    requires orders != []
    ensures TotalAmountAsWritten(orders) == NaN
  {
  }

  /** One order priced 10 totals NaN as written and 10 when corrected. */
  lemma TotalAmountCounterexample(o: Order)
    requires o.details.totalPrice == 10.0
    ensures TotalAmountAsWritten([o]) == NaN
    ensures TotalAmount([o]) == Finite(10.0)
  {
    assert [o][..0] == [];
  }

  lemma {:induction false} PriceSumSnoc(orders: seq<Order>, o: Order)
    ensures PriceSum(orders + [o]) == PriceSum(orders) + o.details.totalPrice
    decreases |orders|
  {
    if orders != [] {
      assert (orders + [o])[1..] == orders[1..] + [o];
      PriceSumSnoc(orders[1..], o);
    }
  }

  /** The corrected total is the finite sum of every order's `totalPrice`. */
  lemma {:induction false} TotalAmountIsSum(orders: seq<Order>)
    ensures TotalAmount(orders) == Finite(PriceSum(orders))
    decreases |orders|
  {
    if orders != [] {
      var init := orders[..|orders| - 1];
      var last := orders[|orders| - 1];
      TotalAmountIsSum(init);
      PriceSumSnoc(init, last);
      assert init + [last] == orders;
    }
  }

  /** The totals of two batches of orders add up to the total of both. */
  lemma {:induction false} TotalAmountOfConcat(xs: seq<Order>, ys: seq<Order>)
    ensures TotalAmount(xs + ys) == Add(TotalAmount(xs), TotalAmount(ys))
    decreases |ys|
  {
    if ys == [] {
      assert xs + ys == xs;
    } else {
      var init, last := ys[..|ys| - 1], ys[|ys| - 1];
      assert (xs + ys)[..|xs + ys| - 1] == xs + init;
      assert (xs + ys)[|xs + ys| - 1] == last;
      TotalAmountOfConcat(xs, init);
      AddAssociates(TotalAmount(xs), TotalAmount(init), Finite(last.details.totalPrice));
    }
  }

  /** The total does not depend on the order in which the store lists the orders' two batches. */
  lemma TotalAmountSwap(xs: seq<Order>, ys: seq<Order>)
    ensures TotalAmount(xs + ys) == TotalAmount(ys + xs)
  {
    TotalAmountOfConcat(xs, ys);
    TotalAmountOfConcat(ys, xs);
    AddCommutes(TotalAmount(xs), TotalAmount(ys));
  }
}
