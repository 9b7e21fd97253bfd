/** The order views (order/api/views.py): adding to and removing from the
    cart, checkout, receipt confirmation, and the paid-order listings.

    Each view runs against the catalogue and order tables of one request.
    `user` is the email of the authenticated caller. */
module OrderViews {
  import opened Wrappers
  import opened Discounts
  import opened Catalog
  import opened OrderModels
  import opened OrderSerializers

  /** The refusals the views answer with: 404, 403, a 400 from a serializer,
      and the 400 of an order that is already confirmed. */
  datatype ApiError =
    | NotFound
    | Forbidden
    | BadCart(cartError: CartError)
    | BadCode(codeError: CodeError)
    | AlreadyConfirmed

  // ---------------------------------------------------------------------------
  // Selecting orders

  /** `Order.objects.filter(user=user, is_paid=False).first()`. Orders are
      listed newest first and ids follow creation order, so this is the
      unpaid order of `user` with the highest id. */
  function UnpaidOrder(orders: seq<Order>, user: string): (r: Option<nat>)
    ensures r.Some? ==> r.value < |orders| && orders[r.value].user == user && !orders[r.value].isPaid
    ensures r.Some? ==> forall k :: r.value < k < |orders| ==> orders[k].user != user || orders[k].isPaid
    ensures r.None? ==> forall k :: 0 <= k < |orders| ==> orders[k].user != user || orders[k].isPaid
  {
    if orders == [] then None
    else if orders[|orders| - 1].user == user && !orders[|orders| - 1].isPaid then Some(|orders| - 1)
    else UnpaidOrder(orders[..|orders| - 1], user)
  }

  /** With one cart per user, any unpaid order of `user` is the one selected. */
  lemma TheOnlyCart(orders: seq<Order>, user: string, k: nat)
    requires OneCartPerUser(orders)
    requires k < |orders| && orders[k].user == user && !orders[k].isPaid
    ensures UnpaidOrder(orders, user) == Some(k)
  {
  }

  /** An order no stored item points at has an empty total. */
  lemma {:induction false} NoItemsNoTotal(items: seq<OrderItem>, oid: nat)
    requires forall i :: 0 <= i < |items| ==> items[i].order != oid
    ensures ItemsTotal(items, oid) == 0.0
  {
    if items != [] {
      NoItemsNoTotal(items[..|items| - 1], oid);
    }
  }

  /** `Order.objects.get_or_create(user=user, is_paid=False)`: the caller's
      cart, or a fresh one with every field at its default (in particular a
      `total_price` of 0) appended to the table. */
  method GetOrCreateCart(db: OrderDb, user: string) returns (oid: nat)
    requires db.Valid()
    modifies db`orders
    ensures db.Valid()
    ensures old(UnpaidOrder(db.orders, user)).Some? ==>
      oid == old(UnpaidOrder(db.orders, user)).value && db.orders == old(db.orders)
    ensures old(UnpaidOrder(db.orders, user)).None? ==>
      oid == old(|db.orders|) && db.orders == old(db.orders) + [NewCart(user)]
    ensures UnpaidOrder(db.orders, user) == Some(oid)
  {
    var cart := UnpaidOrder(db.orders, user);
    if cart.Some? {
      return cart.value;
    }
    NoItemsNoTotal(db.items, |db.orders|);
    oid := db.Insert(NewCart(user));
    TheOnlyCart(db.orders, user, oid);
  }

  /** `CartListView`: the items of the caller's cart, none without a cart. */
  function CartItems(orders: seq<Order>, items: seq<OrderItem>, user: string): (r: seq<OrderItem>)
    ensures UnpaidOrder(orders, user).None? ==> r == []
    ensures forall it :: it in r <==> it in items && UnpaidOrder(orders, user) == Some(it.order)
  {
    match UnpaidOrder(orders, user)
    case None => []
    case Some(oid) => ItemsOf(items, oid)
  }

  function ItemsOf(items: seq<OrderItem>, oid: nat): (r: seq<OrderItem>)
    ensures forall it :: it in r <==> it in items && it.order == oid
  {
    if items == [] then []
    else
      var last := items[|items| - 1];
      assert items == items[..|items| - 1] + [last];
      ItemsOf(items[..|items| - 1], oid) + (if last.order == oid then [last] else [])
  }

  // ---------------------------------------------------------------------------
  // CartAddView

  /** `CartAddView.post`: validate the request, then store the item in the
      caller's cart. A refused request changes nothing. */
  method AddToCart(catalog: CatalogDb, db: OrderDb, user: string, req: CartRequest, now: Time)
    returns (r: Result<OrderItem, ApiError>)
    requires db.Valid() && ItemsReferTo(db.items, catalog.products)
    modifies db
    ensures db.Valid() && ItemsReferTo(db.items, catalog.products)
    ensures ValidateCartAdd(catalog.products, catalog.colours, catalog.featureValues, catalog.stocks, req).Err? ==>
      && r == Err(BadCart(ValidateCartAdd(catalog.products, catalog.colours, catalog.featureValues, catalog.stocks, req).error))
      && db.orders == old(db.orders) && db.items == old(db.items) && db.nextItemId == old(db.nextItemId)
    ensures ValidateCartAdd(catalog.products, catalog.colours, catalog.featureValues, catalog.stocks, req).Ok? ==>
      && req.quantity >= 1 && req.productId in catalog.products
      && r.Ok? && db.nextItemId == old(db.nextItemId) + 1
      && CartGained(old(db.orders), old(db.items), old(db.nextItemId), db.orders, db.items, user, req.productId,
                             req.quantity, FinalPrice(catalog.products[req.productId], now), req.colour, req.features,
                             r.value, catalog.products, catalog.codes, now)
  {
    var v := Validate(catalog.products, catalog.colours, catalog.featureValues, catalog.stocks, req);
    if v.Err? {
      return Err(BadCart(v.error));
    }
    assert req.quantity >= 1 && req.productId in catalog.products;
    var price := FinalPrice(catalog.products[req.productId], now);
    var item := StoreCartItem(catalog, db, user, req.productId, req.quantity, price, req.colour, req.features, now);
    return Ok(item);
  }

  /** What adding an item does to the order tables: the caller's cart (the
      existing one, or a new empty one appended to the orders) gains an item
      with the next id, unit price `price` and line total `quantity * price`;
      the cart's `total_price` grows by exactly that line total and its derived
      fields are recomputed; every other order is unchanged; and the cart is
      still the one the caller's requests select. */
  ghost predicate CartGained(orders: seq<Order>, items: seq<OrderItem>, next: nat,
                             orders': seq<Order>, items': seq<OrderItem>, user: string,
                             product: int, quantity: int, price: real, colour: string, features: seq<(string, string)>,
                             item: OrderItem, products: map<int, Product>, codes: map<string, DiscountCode>, now: Time)
    requires ItemsReferTo(items', products)
  {
    var cart := UnpaidOrder(orders, user);
    var oid := if cart.Some? then cart.value else |orders|;
    var grown := if cart.Some? then orders else orders + [NewCart(user)];
    && item == OrderItem(next, oid, product, quantity, price, quantity as real * price, colour, features)
    && items' == items + [item]
    && oid < |grown|
    && orders' == grown[oid := Recomputed(grown[oid].(totalPrice := grown[oid].totalPrice + item.totalPrice),
                                          oid, items', products, codes, now)]
    && orders'[oid].totalPrice == grown[oid].totalPrice + quantity as real * price
    && UnpaidOrder(orders', user) == Some(oid)
  }

  /** The part of `CartAddView.post` after validation: get or create the
      cart, store the item with the given unit price, add its line total to
      the cart's `total_price`, and save the cart. */
  method StoreCartItem(catalog: CatalogDb, db: OrderDb, user: string, product: int, quantity: int, price: real,
                       colour: string, features: seq<(string, string)>, now: Time) returns (item: OrderItem)
    requires db.Valid() && ItemsReferTo(db.items, catalog.products)
    requires quantity >= 1 && product in catalog.products
    modifies db
    ensures db.Valid() && ItemsReferTo(db.items, catalog.products)
    ensures db.nextItemId == old(db.nextItemId) + 1
    ensures CartGained(old(db.orders), old(db.items), old(db.nextItemId), db.orders, db.items, user, product,
                       quantity, price, colour, features, item, catalog.products, catalog.codes, now)
  {
    ghost var ordersBefore := db.orders;
    ghost var cart := UnpaidOrder(db.orders, user);
    ghost var grown := if cart.Some? then db.orders else db.orders + [NewCart(user)];
    var oid := GetOrCreateCart(db, user);
    assert oid == (if cart.Some? then cart.value else |old(db.orders)|) && db.orders == grown;
    ghost var itemsBefore, nextBefore := db.items, db.nextItemId;
    assert Consistent(grown, itemsBefore, nextBefore);
    item := db.InsertItem(oid, product, quantity, price, colour, features);
    assert db.items == itemsBefore + [item];
    AddKeepsConsistent(grown, itemsBefore, nextBefore, oid, item, catalog.products, catalog.codes, now);
    var o := db.orders[oid];
    var saved := o.(totalPrice := o.totalPrice + item.totalPrice);
    db.Save(oid, saved, catalog.products, catalog.codes, now);
    assert db.orders == grown[oid := Recomputed(saved, oid, db.items, catalog.products, catalog.codes, now)];
    assert db.orders[oid].totalPrice == saved.totalPrice;
    TheOnlyCart(db.orders, user, oid);
    CartGainedFrom(ordersBefore, itemsBefore, nextBefore, db.orders, db.items, user, product, quantity,
                   price, colour, features, item, catalog.products, catalog.codes, now);
  }

  /** `CartGained` from its parts, stated on values. */
  lemma CartGainedFrom(orders: seq<Order>, items: seq<OrderItem>, next: nat,
                       orders': seq<Order>, items': seq<OrderItem>, user: string,
                       product: int, quantity: int, price: real, colour: string, features: seq<(string, string)>,
                       item: OrderItem, products: map<int, Product>, codes: map<string, DiscountCode>, now: Time)
    requires ItemsReferTo(items', products)
    requires var cart := UnpaidOrder(orders, user);
      var oid := if cart.Some? then cart.value else |orders|;
      var grown := if cart.Some? then orders else orders + [NewCart(user)];
      && oid < |grown|
      && item == OrderItem(next, oid, product, quantity, price, quantity as real * price, colour, features)
      && items' == items + [item]
      && orders' == grown[oid := Recomputed(grown[oid].(totalPrice := grown[oid].totalPrice + item.totalPrice),
                                            oid, items', products, codes, now)]
      && UnpaidOrder(orders', user) == Some(oid)
    ensures CartGained(orders, items, next, orders', items', user, product, quantity, price, colour, features,
                       item, products, codes, now)
  {
  }

  /** Storing an item of order `oid` under the next id, and saving that order
      with the item's line total added to `total_price`, keeps the tables
      consistent. */
  lemma AddKeepsConsistent(orders: seq<Order>, items: seq<OrderItem>, next: nat, oid: nat, item: OrderItem,
                           products: map<int, Product>, codes: map<string, DiscountCode>, now: Time)
    requires Consistent(orders, items, next) && ItemsReferTo(items + [item], products)
    requires oid < |orders| && item.order == oid && item.id == next
    requires item.quantity >= 1 && item.totalPrice == item.quantity as real * item.price
    ensures Consistent(orders[oid := Recomputed(orders[oid].(totalPrice := orders[oid].totalPrice + item.totalPrice),
                                                oid, items + [item], products, codes, now)],
                       items + [item], next + 1)
  {
    var items' := items + [item];
    var orders' := orders[oid := Recomputed(orders[oid].(totalPrice := orders[oid].totalPrice + item.totalPrice),
                                            oid, items', products, codes, now)];
    forall k | 0 <= k < |orders|
      ensures ItemsTotal(items', k) == ItemsTotal(items, k) + Share(item, k)
    {
      ItemsTotalAppend(items, item, k);
    }
    assert forall i :: 0 <= i < |items| ==> items'[i] == items[i];
    assert forall k :: 0 <= k < |orders| ==> orders'[k].user == orders[k].user && orders'[k].isPaid == orders[k].isPaid;
  }

  /** Deleting the `k`-th item, and saving its order with the item's line total
      taken off `total_price`, keeps the tables consistent. */
  lemma RemoveKeepsConsistent(orders: seq<Order>, items: seq<OrderItem>, next: nat, k: nat,
                              products: map<int, Product>, codes: map<string, DiscountCode>, now: Time)
    requires Consistent(orders, items, next) && ItemsReferTo(items, products) && k < |items|
    ensures var it := items[k];
      var rest := items[..k] + items[k + 1..];
      && ItemsReferTo(rest, products)
      && Consistent(orders[it.order := Recomputed(orders[it.order].(totalPrice := orders[it.order].totalPrice - it.totalPrice),
                                                  it.order, rest, products, codes, now)],
                    rest, next)
  {
    var it := items[k];
    var rest := items[..k] + items[k + 1..];
    assert forall j :: 0 <= j < |rest| ==> rest[j] == if j < k then items[j] else items[j + 1];
    var orders' := orders[it.order := Recomputed(orders[it.order].(totalPrice := orders[it.order].totalPrice - it.totalPrice),
                                                 it.order, rest, products, codes, now)];
    forall o | 0 <= o < |orders|
      ensures ItemsTotal(rest, o) == ItemsTotal(items, o) - Share(it, o)
    {
      ItemsTotalRemove(items, k, o);
    }
    assert forall o :: 0 <= o < |orders| ==> orders'[o].user == orders[o].user && orders'[o].isPaid == orders[o].isPaid;
  }

  // ---------------------------------------------------------------------------
  // CartItemDeleteView

  /** The position of the item with id `id`, if there is one. */
  function FindItem(items: seq<OrderItem>, id: nat): (r: Option<nat>)
    ensures r.Some? ==> r.value < |items| && items[r.value].id == id
    ensures r.None? ==> forall i :: 0 <= i < |items| ==> items[i].id != id
  {
    if items == [] then None
    else if items[|items| - 1].id == id then Some(|items| - 1)
    else FindItem(items[..|items| - 1], id)
  }

  /** `CartItemDeleteView.delete`: 404 for an unknown item; 403, changing
      nothing, when its order belongs to someone else or is paid; otherwise
      the item is deleted and the order saved with the item's line total
      taken off its `total_price`. */
  method DeleteCartItem(catalog: CatalogDb, db: OrderDb, user: string, itemId: nat, now: Time)
    returns (r: Result<(), ApiError>)
    requires db.Valid() && ItemsReferTo(db.items, catalog.products)
    modifies db`orders, db`items
    ensures db.Valid() && ItemsReferTo(db.items, catalog.products)
    ensures old(FindItem(db.items, itemId)).None? ==>
      r == Err(NotFound) && db.orders == old(db.orders) && db.items == old(db.items)
    ensures old(FindItem(db.items, itemId)).Some? ==>
      var k := old(FindItem(db.items, itemId)).value;
      var it := old(db.items[k]);
      && it.order < |old(db.orders)|
      && var o := old(db.orders[it.order]);
         if o.user != user || o.isPaid then
           r == Err(Forbidden) && db.orders == old(db.orders) && db.items == old(db.items)
         else
           && r == Ok(())
           && db.items == old(db.items[..k] + db.items[k + 1..])
           && db.orders == old(db.orders)[it.order := Recomputed(o.(totalPrice := o.totalPrice - it.totalPrice),
                                                                 it.order, db.items, catalog.products, catalog.codes, now)]
           && db.orders[it.order].totalPrice == o.totalPrice - it.totalPrice
  {
    var found := FindItem(db.items, itemId);
    if found.None? {
      return Err(NotFound);
    }
    var k := found.value;
    var it := db.items[k];
    var o := db.orders[it.order];
    if o.user != user || o.isPaid {
      return Err(Forbidden);
    }
    ghost var itemsBefore := db.items;
    RemoveKeepsConsistent(db.orders, db.items, db.nextItemId, k, catalog.products, catalog.codes, now);
    db.DeleteItem(k);
    db.Save(it.order, o.(totalPrice := o.totalPrice - it.totalPrice), catalog.products, catalog.codes, now);
    return Ok(());
  }

  /** Adding an item and then deleting it leaves the items as they were and
      every order's `total_price` as it was; a cart created on the way is empty. */
  method AddThenRemove(catalog: CatalogDb, db: OrderDb, user: string, req: CartRequest, now: Time)
    returns (added: bool)
    requires db.Valid() && ItemsReferTo(db.items, catalog.products)
    modifies db
    ensures db.Valid()
    ensures added <==> ValidateCartAdd(catalog.products, catalog.colours, catalog.featureValues, catalog.stocks, req).Ok?
    ensures db.items == old(db.items)
    ensures |old(db.orders)| <= |db.orders|
    ensures forall k :: 0 <= k < |old(db.orders)| ==> db.orders[k].totalPrice == old(db.orders[k].totalPrice)
    ensures forall k :: |old(db.orders)| <= k < |db.orders| ==> db.orders[k].totalPrice == 0.0
  {
    var r := AddToCart(catalog, db, user, req, now);
    if r.Err? {
      return false;
    }
    ghost var n := |db.items| - 1;
    assert FindItem(db.items, r.value.id) == Some(n);
    var d := DeleteCartItem(catalog, db, user, r.value.id, now);
    assert d.Ok?;
    assert old(db.items) + [r.value] == old(db.items)[..n] + [r.value];
    NoItemsNoTotal(db.items, |old(db.orders)|);
    return true;
  }

  // ---------------------------------------------------------------------------
  // CheckoutView

  /** `CheckoutView.get`: the caller's cart, or 404 when they have none. */
  function CheckoutSummary(orders: seq<Order>, user: string): (r: Result<Order, ApiError>)
    ensures r == Err(NotFound) <==> forall k :: 0 <= k < |orders| ==> orders[k].user != user || orders[k].isPaid
    ensures r.Ok? ==> exists k :: 0 <= k < |orders| && r.value == orders[k] && orders[k].user == user && !orders[k].isPaid
                        && forall j :: k < j < |orders| ==> orders[j].user != user || orders[j].isPaid
  {
    match UnpaidOrder(orders, user)
    case None => Err(NotFound)
    case Some(oid) => Ok(orders[oid])
  }

  /** `CheckoutView.post`: 404 without a cart, 400 when the code does not
      validate (nothing changes then), and otherwise the checkout update on
      the caller's cart, whose id is returned. */
  method CheckoutPost(catalog: CatalogDb, db: OrderDb, user: string, code: Option<string>, now: Time)
    returns (r: Result<nat, ApiError>)
    requires catalog.Valid() && db.Valid() && ItemsReferTo(db.items, catalog.products)
    modifies catalog`codes, db`orders
    ensures catalog.Valid() && db.Valid()
    ensures r == Err(NotFound) <==>
      forall k :: 0 <= k < |old(db.orders)| ==> old(db.orders[k]).user != user || old(db.orders[k]).isPaid
    ensures r.Err? ==> db.orders == old(db.orders) && catalog.codes == old(catalog.codes)
    ensures r.Err? && r != Err(NotFound) ==>
      ValidateDiscountCode(old(catalog.codes), code, now).Err? &&
      r == Err(BadCode(ValidateDiscountCode(old(catalog.codes), code, now).error))
    ensures r.Ok? ==>
      && old(UnpaidOrder(db.orders, user)) == Some(r.value)
      && var d := ValidateDiscountCode(old(catalog.codes), code, now);
         && d.Ok?
         && (d.value.None? ==> catalog.codes == old(catalog.codes))
         && (d.value.Some? ==>
               && code.Some?
               && catalog.codes == old(catalog.codes)[code.value := d.value.value.(usedCount := d.value.value.usedCount + 1)])
         && db.orders == old(db.orders)[r.value := Recomputed(CheckedOut(old(db.orders[r.value]), d.value), r.value,
                                                              db.items, catalog.products, catalog.codes, now)]
         && db.orders[r.value].isPaid && db.orders[r.value].status == Processing
  {
    var cart := UnpaidOrder(db.orders, user);
    if cart.None? {
      return Err(NotFound);
    }
    var d := ValidateDiscountCode(catalog.codes, code, now);
    if d.Err? {
      return Err(BadCode(d.error));
    }
    CheckoutUpdate(catalog, db, cart.value, d.value, now);
    return Ok(cart.value);
  }

  // ---------------------------------------------------------------------------
  // ReceiptView

  /** `ReceiptView.update`: 404 for an order that is not the caller's, 400
      when it is already paid (nothing changes), otherwise the order is saved
      paid, with its status and code as they were. */
  method ConfirmReceipt(catalog: CatalogDb, db: OrderDb, user: string, oid: nat, now: Time)
    returns (r: Result<(), ApiError>)
    requires db.Valid() && ItemsReferTo(db.items, catalog.products)
    modifies db`orders
    ensures db.Valid()
    ensures oid >= |old(db.orders)| || old(db.orders[oid]).user != user ==>
      r == Err(NotFound) && db.orders == old(db.orders)
    ensures oid < |old(db.orders)| && old(db.orders[oid]).user == user && old(db.orders[oid]).isPaid ==>
      r == Err(AlreadyConfirmed) && db.orders == old(db.orders)
    ensures oid < |old(db.orders)| && old(db.orders[oid]).user == user && !old(db.orders[oid]).isPaid ==>
      && r == Ok(())
      && db.orders == old(db.orders)[oid := Recomputed(old(db.orders[oid]).(isPaid := true), oid,
                                                       db.items, catalog.products, catalog.codes, now)]
      && db.orders[oid].isPaid
      && db.orders[oid].status == old(db.orders[oid]).status
      && db.orders[oid].discountCode == old(db.orders[oid]).discountCode
  {
    if oid >= |db.orders| || db.orders[oid].user != user {
      return Err(NotFound);
    }
    var o := db.orders[oid];
    if o.isPaid {
      return Err(AlreadyConfirmed);
    }
    db.Save(oid, o.(isPaid := true), catalog.products, catalog.codes, now);
    return Ok(());
  }

  // ---------------------------------------------------------------------------
  // OrderListView and LatestOrderAPIView

  /** `OrderListView`: the ids of the caller's paid orders, newest first. */
  function PaidOrders(orders: seq<Order>, user: string): (r: seq<nat>)
    ensures forall j :: 0 <= j < |r| ==> r[j] < |orders| && orders[r[j]].user == user && orders[r[j]].isPaid
    ensures forall k :: 0 <= k < |orders| && orders[k].user == user && orders[k].isPaid ==> k in r
    ensures forall a, b :: 0 <= a < b < |r| ==> r[a] > r[b]
  {
    if orders == [] then []
    else
      var n := |orders| - 1;
      (if orders[n].user == user && orders[n].isPaid then [n] else []) + PaidOrders(orders[..n], user)
  }

  /** `LatestOrderAPIView.get`: the caller's newest paid order, or 404. */
  function LatestPaidOrder(orders: seq<Order>, user: string): (r: Result<nat, ApiError>)
    ensures r.Err? ==> r == Err(NotFound)
    ensures r.Ok? ==> r.value < |orders| && orders[r.value].user == user && orders[r.value].isPaid
  {
    if orders == [] then Err(NotFound)
    else if orders[|orders| - 1].user == user && orders[|orders| - 1].isPaid then Ok(|orders| - 1)
    else LatestPaidOrder(orders[..|orders| - 1], user)
  }

  /** The latest order is the head of the order list, and 404 exactly when the list is empty. */
  lemma {:induction false} LatestIsHeadOfList(orders: seq<Order>, user: string)
    ensures PaidOrders(orders, user) == [] <==> LatestPaidOrder(orders, user) == Err(NotFound)
    ensures PaidOrders(orders, user) != [] ==> LatestPaidOrder(orders, user) == Ok(PaidOrders(orders, user)[0])
  {
    if orders != [] {
      LatestIsHeadOfList(orders[..|orders| - 1], user);
    }
  }
}
