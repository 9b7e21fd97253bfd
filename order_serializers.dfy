/** The order serializers (order/api/serializers.py): validation of an
    add-to-cart request against the variant stock, validation of a discount
    code, and the checkout update.

    Cart validation resolves (product, colour, feature selections, quantity)
    against the catalogue tables and changes nothing. `ValidateCartAdd` states
    what it decides; `Validate` is the step-by-step version the serializer runs,
    proved to decide the same. */
module OrderSerializers {
  import opened Wrappers
  import opened Discounts
  import opened Catalog
  import opened OrderModels

  /** The validated fields of `CartAddSerializer`; `features` lists the
      (feature name, value) pairs of `selected_features` in their order. */
  datatype CartRequest = CartRequest(productId: int, quantity: int, colour: string, features: seq<(string, string)>)

  /** No selected feature value is blank. */
  predicate NoBlankValue(features: seq<(string, string)>)
  {
    forall j :: 0 <= j < |features| ==> features[j].1 != ""
  }

  /** The field-level checks that run before `validate`: `quantity` has
      `min_value=1`, and `selected_color` and the values of
      `selected_features` are character fields that refuse a blank string. */
  predicate FieldsValid(req: CartRequest)
  {
    req.quantity >= 1 && req.colour != "" && NoBlankValue(req.features)
  }

  /** Why a cart request is refused. `MultipleMatches` is the
      `MultipleObjectsReturned` a `.get()` raises when two rows match; the
      serializer does not catch it. */
  datatype CartError =
    | QuantityBelowOne
    | ColourBlank
    | FeatureValueBlank
    | InvalidProduct
    | InvalidColour
    | FeatureNotFound(feature: string, value: string)
    | NoStock
    | OnlyAvailable(stock: nat)
    | MultipleMatches

  // ---------------------------------------------------------------------------
  // Lookups

  /** The ids of the colours of product `pid` named `name`, in table order. */
  function ColourMatches(colours: seq<ProductColor>, pid: int, name: string): (r: seq<nat>)
    ensures forall x :: x in r <==>
      exists i :: 0 <= i < |colours| && colours[i].product == pid && colours[i].name == name && colours[i].id == x
  {
    if colours == [] then []
    else
      var last := colours[|colours| - 1];
      var rest := ColourMatches(colours[..|colours| - 1], pid, name);
      assert forall i :: 0 <= i < |colours| - 1 ==> colours[..|colours| - 1][i] == colours[i];
      if last.product == pid && last.name == name then rest + [last.id] else rest
  }

  /** The ids of the feature values named `value` of a feature named `feature`, in table order. */
  function ValueMatches(values: seq<FeatureValue>, feature: string, value: string): (r: seq<nat>)
    ensures forall x :: x in r <==>
      exists i :: 0 <= i < |values| && values[i].feature == feature && values[i].value == value && values[i].id == x
  {
    if values == [] then []
    else
      var last := values[|values| - 1];
      var rest := ValueMatches(values[..|values| - 1], feature, value);
      assert forall i :: 0 <= i < |values| - 1 ==> values[..|values| - 1][i] == values[i];
      if last.feature == feature && last.value == value then rest + [last.id] else rest
  }

  /** Django's `.get()` over the matching ids: the only one, `missing` for none, `MultipleMatches` for several. */
  function Get(ids: seq<nat>, missing: CartError): (r: Result<nat, CartError>)
    ensures r.Ok? <==> |ids| == 1
    ensures r.Ok? ==> ids == [r.value]
    ensures |ids| == 0 ==> r == Err(missing)
    ensures |ids| > 1 ==> r == Err(MultipleMatches)
  {
    if |ids| == 0 then Err(missing)
    else if |ids| > 1 then Err(MultipleMatches)
    else Ok(ids[0])
  }

  /** The feature values the selections name, one per pair, stopping at the
      first pair that does not resolve to exactly one row. */
  function ResolveFeatures(values: seq<FeatureValue>, features: seq<(string, string)>): (r: Result<seq<nat>, CartError>)
    ensures r.Ok? ==> |r.value| == |features|
    ensures r.Err? ==> r.error.FeatureNotFound? || r.error == MultipleMatches
  {
    if features == [] then Ok([])
    else
      var n := |features| - 1;
      match ResolveFeatures(values, features[..n])
      case Err(e) => Err(e)
      case Ok(ids) =>
        match Get(ValueMatches(values, features[n].0, features[n].1), FeatureNotFound(features[n].0, features[n].1))
        case Err(e) => Err(e)
        case Ok(id) => Ok(ids + [id])
  }

  /** On success, the `j`-th resolved id is the only feature value matching the `j`-th pair. */
  lemma {:induction false} ResolvedIdsMatch(values: seq<FeatureValue>, features: seq<(string, string)>)
    requires ResolveFeatures(values, features).Ok?
    ensures forall j :: 0 <= j < |features| ==>
      ValueMatches(values, features[j].0, features[j].1) == [ResolveFeatures(values, features).value[j]]
  {
    if features != [] {
      var n := |features| - 1;
      ResolvedIdsMatch(values, features[..n]);
    }
  }

  /** A failure while resolving a prefix of the pairs is the failure of the whole. */
  lemma {:induction false} ResolvePrefixFailure(values: seq<FeatureValue>, features: seq<(string, string)>, j: nat)
    requires j <= |features| && ResolveFeatures(values, features[..j]).Err?
    ensures ResolveFeatures(values, features) == ResolveFeatures(values, features[..j])
    decreases |features| - j
  {
    if j < |features| {
      var n := |features| - 1;
      assert features[..n][..j] == features[..j];
      if j < n {
        ResolvePrefixFailure(values, features[..n], j);
      } else {
        assert features[..n] == features[..j];
      }
    } else {
      assert features[..j] == features;
    }
  }

  /** Resolution fails at the first pair that does not resolve to exactly one
      feature value: every earlier pair resolved, and that pair's own lookup is
      the error. */
  lemma {:induction false} ResolveFailsAtFirstBadPair(values: seq<FeatureValue>, features: seq<(string, string)>)
    requires ResolveFeatures(values, features).Err?
    ensures exists j ::
      && 0 <= j < |features|
      && ResolveFeatures(values, features[..j]).Ok?
      && Get(ValueMatches(values, features[j].0, features[j].1), FeatureNotFound(features[j].0, features[j].1))
         == Err(ResolveFeatures(values, features).error)
  {
    var n := |features| - 1;
    assert features[..n][..n] == features[..n];
    if ResolveFeatures(values, features[..n]).Err? {
      ResolveFailsAtFirstBadPair(values, features[..n]);
      var j :| 0 <= j < n && ResolveFeatures(values, features[..n][..j]).Ok? &&
        Get(ValueMatches(values, features[..n][j].0, features[..n][j].1), FeatureNotFound(features[..n][j].0, features[..n][j].1))
          == Err(ResolveFeatures(values, features[..n]).error);
      assert features[..n][..j] == features[..j] && features[..n][j] == features[j];
    } else {
      var e := ResolveFeatures(values, features).error;
      assert Get(ValueMatches(values, features[n].0, features[n].1), FeatureNotFound(features[n].0, features[n].1)) == Err(e);
    }
  }

  // ---------------------------------------------------------------------------
  // Stock narrowing

  /** `ProductStock.objects.filter(product=..., color=...)`, in table order. */
  function OfProductColour(stocks: seq<ProductStock>, pid: int, cid: nat): (r: seq<ProductStock>)
    ensures |r| <= |stocks|
    ensures forall s :: s in r <==> s in stocks && s.product == pid && s.colour == cid
  {
    if stocks == [] then []
    else
      var last := stocks[|stocks| - 1];
      var rest := OfProductColour(stocks[..|stocks| - 1], pid, cid);
      assert stocks == stocks[..|stocks| - 1] + [last];
      if last.product == pid && last.colour == cid then rest + [last] else rest
  }

  /** `stock_qs.filter(feature_values=fv)`: the rows linked to feature value `fv`, in order. */
  function WithValue(qs: seq<ProductStock>, fv: nat): (r: seq<ProductStock>)
    ensures |r| <= |qs|
    ensures forall s :: s in r <==> s in qs && fv in s.featureValues
  {
    if qs == [] then []
    else
      var last := qs[|qs| - 1];
      var rest := WithValue(qs[..|qs| - 1], fv);
      assert qs == qs[..|qs| - 1] + [last];
      if fv in last.featureValues then rest + [last] else rest
  }

  /** The candidates after narrowing by each resolved feature value in turn. */
  function Narrow(qs: seq<ProductStock>, ids: seq<nat>): (r: seq<ProductStock>)
    ensures |r| <= |qs|
  {
    if ids == [] then qs else WithValue(Narrow(qs, ids[..|ids| - 1]), ids[|ids| - 1])
  }

  /** The narrowed candidates are exactly the rows linked to every resolved feature value. */
  lemma {:induction false} NarrowMembers(qs: seq<ProductStock>, ids: seq<nat>)
    ensures forall s :: s in Narrow(qs, ids) <==> s in qs && forall f :: f in ids ==> f in s.featureValues
  {
    if ids != [] {
      var n := |ids| - 1;
      NarrowMembers(qs, ids[..n]);
      assert ids == ids[..n] + [ids[n]];
    }
  }

  /** With one stock row per (product, colour), at most one row is a candidate. */
  lemma {:induction false} AtMostOneCandidate(stocks: seq<ProductStock>, pid: int, cid: nat)
    requires StockUniquePerColour(stocks)
    ensures |OfProductColour(stocks, pid, cid)| <= 1
  {
    if stocks != [] {
      var n := |stocks| - 1;
      assert StockUniquePerColour(stocks[..n]);
      AtMostOneCandidate(stocks[..n], pid, cid);
      var rest := OfProductColour(stocks[..n], pid, cid);
      if rest != [] {
        assert rest[0] in stocks[..n];
      }
      if stocks[n].product == pid && stocks[n].colour == cid && rest != [] {
        assert false;
      }
    }
  }

  // ---------------------------------------------------------------------------
  // CartAddSerializer

  /** What `CartAddSerializer` decides: the request back unchanged when it is
      valid, otherwise the first error met. */
  function ValidateCartAdd(products: map<int, Product>, colours: seq<ProductColor>, values: seq<FeatureValue>,
                           stocks: seq<ProductStock>, req: CartRequest): (r: Result<CartRequest, CartError>)
    ensures r.Ok? ==> r.value == req && FieldsValid(req) && 1 <= req.quantity && req.productId in products
    ensures r == Err(QuantityBelowOne) <==> req.quantity < 1
    ensures r == Err(ColourBlank) <==> 1 <= req.quantity && req.colour == ""
    ensures r == Err(FeatureValueBlank) <==> 1 <= req.quantity && req.colour != "" && !NoBlankValue(req.features)
    ensures r == Err(InvalidProduct) <==> FieldsValid(req) && req.productId !in products
    ensures r.Err? && r.error.OnlyAvailable? ==> r.error.stock < req.quantity
  {
    if req.quantity < 1 then Err(QuantityBelowOne)
    else if req.colour == "" then Err(ColourBlank)
    else if !NoBlankValue(req.features) then Err(FeatureValueBlank)
    else if req.productId !in products then Err(InvalidProduct)
    else
      match Get(ColourMatches(colours, req.productId, req.colour), InvalidColour)
      case Err(e) => Err(e)
      case Ok(cid) =>
        match ResolveFeatures(values, req.features)
        case Err(e) => Err(e)
        case Ok(ids) =>
          var qs := Narrow(OfProductColour(stocks, req.productId, cid), ids);
          if |qs| == 0 then Err(NoStock)
          else if qs[0].stock < req.quantity then Err(OnlyAvailable(qs[0].stock))
          else Ok(req)
  }

  /** The field checks and `CartAddSerializer.validate`, step by step: check
      the quantity, the colour and each selected value, look up the product
      and the colour, resolve each feature pair in a loop, then narrow the
      stock rows one feature value at a time and check the first one left. */
  method Validate(products: map<int, Product>, colours: seq<ProductColor>, values: seq<FeatureValue>,
                  stocks: seq<ProductStock>, req: CartRequest) returns (r: Result<CartRequest, CartError>)
    ensures r == ValidateCartAdd(products, colours, values, stocks, req)
  {
    if req.quantity < 1 {
      return Err(QuantityBelowOne);
    }
    if req.colour == "" {
      return Err(ColourBlank);
    }
    var b := 0;
    while b < |req.features|
      invariant 0 <= b <= |req.features|
      invariant forall j :: 0 <= j < b ==> req.features[j].1 != ""
    {
      if req.features[b].1 == "" {
        return Err(FeatureValueBlank);
      }
      b := b + 1;
    }
    if req.productId !in products {
      return Err(InvalidProduct);
    }
    var colour := Get(ColourMatches(colours, req.productId, req.colour), InvalidColour);
    if colour.Err? {
      return Err(colour.error);
    }
    var ids: seq<nat> := [];
    var i := 0;
    while i < |req.features|
      invariant 0 <= i <= |req.features|
      invariant ResolveFeatures(values, req.features[..i]) == Ok(ids)
    {
      var (name, value) := req.features[i];
      var fv := Get(ValueMatches(values, name, value), FeatureNotFound(name, value));
      assert req.features[..i + 1][..i] == req.features[..i];
      if fv.Err? {
        ResolvePrefixFailure(values, req.features, i + 1);
        return Err(fv.error);
      }
      ids := ids + [fv.value];
      i := i + 1;
    }
    assert req.features[..i] == req.features;
    var qs := OfProductColour(stocks, req.productId, colour.value);
    var k := 0;
    while k < |ids|
      invariant 0 <= k <= |ids|
      invariant qs == Narrow(OfProductColour(stocks, req.productId, colour.value), ids[..k])
    {
      assert ids[..k + 1][..k] == ids[..k];
      qs := WithValue(qs, ids[k]);
      k := k + 1;
    }
    assert ids[..k] == ids;
    if |qs| == 0 {
      return Err(NoStock);
    }
    if qs[0].stock < req.quantity {
      return Err(OnlyAvailable(qs[0].stock));
    }
    return Ok(req);
  }

  /** The checks before the stock lookup, in order. */
  lemma EarlyRejections(products: map<int, Product>, colours: seq<ProductColor>, values: seq<FeatureValue>,
                        stocks: seq<ProductStock>, req: CartRequest)
    ensures req.quantity < 1 ==> ValidateCartAdd(products, colours, values, stocks, req) == Err(QuantityBelowOne)
    ensures req.quantity >= 1 && req.colour == "" ==> ValidateCartAdd(products, colours, values, stocks, req) == Err(ColourBlank)
    ensures req.quantity >= 1 && req.colour != "" && !NoBlankValue(req.features) ==>
      ValidateCartAdd(products, colours, values, stocks, req) == Err(FeatureValueBlank)
    ensures FieldsValid(req) && req.productId !in products ==>
      ValidateCartAdd(products, colours, values, stocks, req) == Err(InvalidProduct)
    ensures FieldsValid(req) && req.productId in products && ColourMatches(colours, req.productId, req.colour) == [] ==>
      ValidateCartAdd(products, colours, values, stocks, req) == Err(InvalidColour)
    ensures (FieldsValid(req) && req.productId in products && |ColourMatches(colours, req.productId, req.colour)| == 1 &&
             ResolveFeatures(values, req.features).Err?) ==>
      ValidateCartAdd(products, colours, values, stocks, req) == Err(ResolveFeatures(values, req.features).error)
  {
  }

  /** An accepted request is returned unchanged, and names an existing product,
      a colour of it that is the only one with that name, and a stock row of
      that product and colour that is linked to every selected feature value
      and holds at least the requested quantity. */
  lemma AcceptedMeansStocked(products: map<int, Product>, colours: seq<ProductColor>, values: seq<FeatureValue>,
                             stocks: seq<ProductStock>, req: CartRequest)
    requires ValidateCartAdd(products, colours, values, stocks, req).Ok?
    ensures ValidateCartAdd(products, colours, values, stocks, req).value == req
    ensures FieldsValid(req) && req.productId in products
    ensures ResolveFeatures(values, req.features).Ok?
    ensures exists s ::
      && s in stocks && s.product == req.productId
      && ColourMatches(colours, req.productId, req.colour) == [s.colour]
      && (forall f :: f in ResolveFeatures(values, req.features).value ==> f in s.featureValues)
      && s.stock >= req.quantity
  {
    var cid := Get(ColourMatches(colours, req.productId, req.colour), InvalidColour).value;
    var ids := ResolveFeatures(values, req.features).value;
    var qs := Narrow(OfProductColour(stocks, req.productId, cid), ids);
    NarrowMembers(OfProductColour(stocks, req.productId, cid), ids);
    assert qs[0] in qs;
  }

  /** With one stock row per (product, colour), once the product, colour and
      features resolve and a row qualifies, the outcome depends only on that
      row: 'Only N items available' exactly when its stock N is below the
      quantity, acceptance otherwise. */
  lemma StockCheckUsesTheOnlyCandidate(products: map<int, Product>, colours: seq<ProductColor>, values: seq<FeatureValue>,
                                       stocks: seq<ProductStock>, req: CartRequest, s: ProductStock)
    requires StockUniquePerColour(stocks)
    requires FieldsValid(req) && req.productId in products
    requires |ColourMatches(colours, req.productId, req.colour)| == 1
    requires ResolveFeatures(values, req.features).Ok?
    requires s in stocks && s.product == req.productId && [s.colour] == ColourMatches(colours, req.productId, req.colour)
    requires forall f :: f in ResolveFeatures(values, req.features).value ==> f in s.featureValues
    ensures ValidateCartAdd(products, colours, values, stocks, req) ==
      if s.stock < req.quantity then Err(OnlyAvailable(s.stock)) else Ok(req)
  {
    var cid := s.colour;
    var ids := ResolveFeatures(values, req.features).value;
    var base := OfProductColour(stocks, req.productId, cid);
    AtMostOneCandidate(stocks, req.productId, cid);
    NarrowMembers(base, ids);
    var qs := Narrow(base, ids);
    assert s in qs;
    assert base == [s] by {
      assert s in base;
    }
    assert qs == [s];
  }

  /** When no stock row of the product and colour is linked to every selected
      feature value, the request is refused with 'No stock found'. */
  lemma NoQualifyingRowMeansNoStock(products: map<int, Product>, colours: seq<ProductColor>, values: seq<FeatureValue>,
                                    stocks: seq<ProductStock>, req: CartRequest)
    requires FieldsValid(req) && req.productId in products
    requires |ColourMatches(colours, req.productId, req.colour)| == 1
    requires ResolveFeatures(values, req.features).Ok?
    requires forall s :: s in stocks && s.product == req.productId && [s.colour] == ColourMatches(colours, req.productId, req.colour) ==>
      exists f :: f in ResolveFeatures(values, req.features).value && f !in s.featureValues
    ensures ValidateCartAdd(products, colours, values, stocks, req) == Err(NoStock)
  {
    var cid := ColourMatches(colours, req.productId, req.colour)[0];
    var ids := ResolveFeatures(values, req.features).value;
    var base := OfProductColour(stocks, req.productId, cid);
    NarrowMembers(base, ids);
    var qs := Narrow(base, ids);
    assert |qs| > 0 ==> qs[0] in qs;
  }

  // ---------------------------------------------------------------------------
  // CheckoutSerializer

  datatype CodeError = InvalidCode | ExpiredOrOverused

  /** `CheckoutSerializer.validate_discount_code`: no code for an absent or
      blank field; otherwise the active row with that code, which must also be
      valid now. */
  function ValidateDiscountCode(codes: map<string, DiscountCode>, code: Option<string>, now: Time)
    : (r: Result<Option<DiscountCode>, CodeError>)
    ensures r == Ok(None) <==> code.None? || code.value == ""
    ensures r.Ok? && r.value.Some? ==>
      code.Some? && code.value in codes && r.value.value == codes[code.value] && CodeIsValid(r.value.value, now)
    ensures r == Err(InvalidCode) <==> code.Some? && code.value != "" && (code.value !in codes || !codes[code.value].active)
    ensures r == Err(ExpiredOrOverused) <==>
      code.Some? && code.value != "" && code.value in codes && codes[code.value].active && !CodeIsValid(codes[code.value], now)
  {
    if code.None? || code.value == "" then Ok(None)
    else if code.value !in codes || !codes[code.value].active then Err(InvalidCode)
    else if !CodeIsValid(codes[code.value], now) then Err(ExpiredOrOverused)
    else Ok(Some(codes[code.value]))
  }

  /** The order row `CheckoutSerializer.update` recomputes: paid, processing,
      and carrying the redeemed code if there is one. */
  function CheckedOut(o: Order, discount: Option<DiscountCode>): Order
  {
    o.(discountCode := if discount.Some? then Some(discount.value.code) else o.discountCode,
       isPaid := true, status := Processing)
  }

  /** `CheckoutSerializer.update`: redeem the code (one more use, saved through
      `clean`), mark the order paid and processing, recompute the derived
      fields, and save (which recomputes once more, to the same values). */
  method CheckoutUpdate(catalog: CatalogDb, db: OrderDb, oid: nat, discount: Option<DiscountCode>, now: Time)
    requires catalog.Valid() && db.Valid() && ItemsReferTo(db.items, catalog.products)
    requires oid < |db.orders|
    requires discount.Some? ==>
      discount.value.code in catalog.codes && catalog.codes[discount.value.code] == discount.value &&
      CodeIsValid(discount.value, now)
    modifies catalog`codes, db`orders
    ensures catalog.Valid() && db.Valid()
    ensures discount.None? ==> catalog.codes == old(catalog.codes)
    ensures discount.Some? ==>
      catalog.codes == old(catalog.codes)[discount.value.code := discount.value.(usedCount := discount.value.usedCount + 1)]
    ensures discount.Some? ==> catalog.codes[discount.value.code].usedCount <= catalog.codes[discount.value.code].maxUses
    ensures db.orders ==
      old(db.orders)[oid := Recomputed(CheckedOut(old(db.orders[oid]), discount), oid, db.items, catalog.products, catalog.codes, now)]
  {
    var o := db.orders[oid];
    if discount.Some? {
      var c := discount.value;
      RedeemKeepsCodeAdmissible(c, now);
      var refused := catalog.SaveCode(c.(usedCount := c.usedCount + 1), Some(c.code));
      assert refused.None?;
      o := o.(discountCode := Some(c.code));
    }
    o := o.(status := Processing, isPaid := true);
    assert o == CheckedOut(old(db.orders[oid]), discount);
    // update_final_price on the instance, then save(), which recomputes again
    var computed := Recomputed(o, oid, db.items, catalog.products, catalog.codes, now);
    RecomputeIdempotent(o, oid, db.items, catalog.products, catalog.codes, now);
    db.Save(oid, computed, catalog.products, catalog.codes, now);
    assert forall k :: 0 <= k < |db.orders| ==> db.orders[k].totalPrice == old(db.orders[k].totalPrice);
  }

  /** As written, the validity test that sets `discount_amount` runs after the
      use was counted: redeeming the last use of a code (with the default
      `max_uses` of 1, the only use) leaves `discount_amount` at 0. */
  lemma LastUseGivesNoDiscount(o: Order, oid: nat, items: seq<OrderItem>, products: map<int, Product>,
                               codes: map<string, DiscountCode>, c: DiscountCode, now: Time)
    requires ItemsReferTo(items, products)
    requires c.usedCount + 1 == c.maxUses
    ensures Recomputed(CheckedOut(o, Some(c)), oid, items, products,
                       codes[c.code := c.(usedCount := c.usedCount + 1)], now).discountAmount == 0.0
  {
  }
}
