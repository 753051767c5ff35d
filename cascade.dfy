/** What a type pushes onto an order and its lines: the onchange of the
    type (sale_order_type/models/sale.py:51-74) and the route override of a
    line's product change (sale_order_type/models/sale.py:125-130). */
module TypeCascade {
  import opened SaleTypes

  /** The order fields the onchange may set. */
  datatype OrderField = WarehouseField | PickingPolicyField | PaymentTermField | PricelistField | IncotermField

  datatype FieldValue = RefValue(id: Ref) | PolicyValue(policy: Policy)

  /** The values the onchange collects from a type: each field only when the
      type sets it. */
  function TypeValues(ty: SaleType): (vals: map<OrderField, FieldValue>)
    ensures WarehouseField in vals <==> ty.warehouse != 0
    ensures PickingPolicyField in vals <==> ty.pickingPolicy.Some?
    ensures PaymentTermField in vals <==> ty.paymentTerm != 0
    ensures PricelistField in vals <==> ty.pricelist != 0
    ensures IncotermField in vals <==> ty.incoterm != 0
    ensures WarehouseField in vals ==> vals[WarehouseField] == RefValue(ty.warehouse)
    ensures PickingPolicyField in vals ==> vals[PickingPolicyField] == PolicyValue(ty.pickingPolicy.value)
    ensures PaymentTermField in vals ==> vals[PaymentTermField] == RefValue(ty.paymentTerm)
    ensures PricelistField in vals ==> vals[PricelistField] == RefValue(ty.pricelist)
    ensures IncotermField in vals ==> vals[IncotermField] == RefValue(ty.incoterm)
  {
    var vals := map[];
    var vals := if ty.warehouse != 0 then vals[WarehouseField := RefValue(ty.warehouse)] else vals;
    var vals := if ty.pickingPolicy.Some? then vals[PickingPolicyField := PolicyValue(ty.pickingPolicy.value)] else vals;
    var vals := if ty.paymentTerm != 0 then vals[PaymentTermField := RefValue(ty.paymentTerm)] else vals;
    var vals := if ty.pricelist != 0 then vals[PricelistField := RefValue(ty.pricelist)] else vals;
    if ty.incoterm != 0 then vals[IncotermField := RefValue(ty.incoterm)] else vals
  }

  /** `order.update(vals)` for the fields the onchange collects. */
  function UpdateOrder(o: Order, vals: map<OrderField, FieldValue>): Order
  {
    o.(warehouse := if WarehouseField in vals && vals[WarehouseField].RefValue? then vals[WarehouseField].id else o.warehouse,
       pickingPolicy := if PickingPolicyField in vals && vals[PickingPolicyField].PolicyValue? then Some(vals[PickingPolicyField].policy) else o.pickingPolicy,
       paymentTerm := if PaymentTermField in vals && vals[PaymentTermField].RefValue? then vals[PaymentTermField].id else o.paymentTerm,
       pricelist := if PricelistField in vals && vals[PricelistField].RefValue? then vals[PricelistField].id else o.pricelist,
       incoterm := if IncotermField in vals && vals[IncotermField].RefValue? then vals[IncotermField].id else o.incoterm)
  }

  /** `order.order_line.update({"route_id": route})`: every line gets the route. */
  function SetRoute(lines: seq<Line>, route: Ref): (r: seq<Line>)
    ensures |r| == |lines|
    ensures forall i :: 0 <= i < |lines| ==> r[i] == lines[i].(route := route)
  {
    seq(|lines|, i requires 0 <= i < |lines| => lines[i].(route := route))
  }

  /** The onchange of the type for one order. */
  function Cascade(types: map<Ref, SaleType>, o: Order): (r: Order)
    // each optional field is copied only when the type sets it
    ensures var ty := TypeOf(types, o.typeId);
      && r.warehouse == (if ty.warehouse != 0 then ty.warehouse else o.warehouse)
      && r.pickingPolicy == (if ty.pickingPolicy.Some? then ty.pickingPolicy else o.pickingPolicy)
      && r.paymentTerm == (if ty.paymentTerm != 0 then ty.paymentTerm else o.paymentTerm)
      && r.pricelist == (if ty.pricelist != 0 then ty.pricelist else o.pricelist)
      && r.incoterm == (if ty.incoterm != 0 then ty.incoterm else o.incoterm)
    // every line gets the type's route, the empty one included
    ensures |r.lines| == |o.lines|
    ensures forall i :: 0 <= i < |o.lines| ==>
      r.lines[i].route == TypeOf(types, o.typeId).route && r.lines[i].product == o.lines[i].product
    // nothing else changes
    ensures r.name == o.name && r.typeId == o.typeId && r.partner == o.partner && r.other == o.other
  {
    var orderType := TypeOf(types, o.typeId);
    var vals := TypeValues(orderType);
    var updated := if vals != map[] then UpdateOrder(o, vals) else o;
    updated.(lines := SetRoute(updated.lines, orderType.route))
  }

  /** Running the onchange again on its own result changes nothing. */
  lemma CascadeIdempotent(types: map<Ref, SaleType>, o: Order)
    ensures Cascade(types, Cascade(types, o)) == Cascade(types, o)
  {
    var once := Cascade(types, o);
    var twice := Cascade(types, once);
    assert twice.lines == once.lines;
  }

  /** A line after its product changed: the type's route replaces the line's
      only when the type sets one. */
  function ProductChange(types: map<Ref, SaleType>, orderType: Ref, changed: Line): (r: Line)
    ensures r.product == changed.product
    ensures TypeOf(types, orderType).route != 0 ==> r.route == TypeOf(types, orderType).route
    ensures TypeOf(types, orderType).route == 0 ==> r.route == changed.route
  {
    var route := TypeOf(types, orderType).route;
    if route != 0 then changed.(route := route) else changed
  }

  /** The two rules agree on a line exactly when the type sets a route or the
      line has none: otherwise the onchange empties a route that the product
      change keeps. */
  lemma ProductChangeAgreesWithCascade(types: map<Ref, SaleType>, o: Order, i: nat)
    requires i < |o.lines|
    ensures ProductChange(types, o.typeId, o.lines[i]) == Cascade(types, o).lines[i]
      <==> TypeOf(types, o.typeId).route != 0 || o.lines[i].route == 0
  {
  }
}
