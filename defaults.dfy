/** The type an order gets from its partner or, without a partner, from the
    types of the current company (sale_order_type/models/sale.py:32-49). */
module TypeDefaults {
  import opened SaleTypes

  /** The type `t` exists and belongs to `company` or to no company: the
      search domain `company_id in [company, False]`. */
  predicate InScope(types: map<Ref, SaleType>, company: Ref, t: Ref)
  {
    t != 0 && t in types && (types[t].company == company || types[t].company == 0)
  }

  /** A search with `limit=1`: the first type of `order` in scope, or the
      empty reference when there is none. */
  function FirstInScope(types: map<Ref, SaleType>, company: Ref, order: seq<Ref>): (r: Ref)
    ensures r == 0 <==> forall j :: 0 <= j < |order| ==> !InScope(types, company, order[j])
    ensures r != 0 ==> exists i :: 0 <= i < |order| && order[i] == r && InScope(types, company, r)
                          && forall j :: 0 <= j < i ==> !InScope(types, company, order[j])
  {
    if order == [] then 0
    else if InScope(types, company, order[0]) then order[0]
    else
      var r := FirstInScope(types, company, order[1..]);
      assert forall j :: 1 <= j < |order| ==> order[j] == order[1..][j - 1];
      r
  }

  /** The partner's sale type, else its commercial partner's. */
  function PartnerSaleType(partners: map<Ref, Partner>, partner: Ref): (r: Ref)
    ensures partner in partners && partners[partner].saleType != 0 ==> r == partners[partner].saleType
    ensures partner in partners && partners[partner].saleType == 0 ==>
      r == (if partners[partner].commercial in partners then partners[partners[partner].commercial].saleType else 0)
    ensures partner !in partners ==> r == 0
  {
    if partner !in partners then 0
    else if partners[partner].saleType != 0 then partners[partner].saleType
    else
      var commercial := partners[partner].commercial;
      if commercial in partners then partners[commercial].saleType else 0
  }

  /** The type `_compute_sale_type_id` leaves on order `o`. */
  function ComputedType(cfg: Config, o: Order): (r: Ref)
    // without a partner: the first type of the current company or of none,
    // and the empty type when no type qualifies
    ensures o.partner == 0 ==>
      && (r == 0 <==> forall j :: 0 <= j < |cfg.typeOrder| ==> !InScope(cfg.types, cfg.company, cfg.typeOrder[j]))
      && (r != 0 ==> exists i :: 0 <= i < |cfg.typeOrder| && cfg.typeOrder[i] == r && InScope(cfg.types, cfg.company, r)
                       && forall j :: 0 <= j < i ==> !InScope(cfg.types, cfg.company, cfg.typeOrder[j]))
    // with a partner: its type, else its commercial partner's, else unchanged
    ensures o.partner != 0 && PartnerSaleType(cfg.partners, o.partner) != 0 ==>
      r == PartnerSaleType(cfg.partners, o.partner)
    ensures o.partner != 0 && PartnerSaleType(cfg.partners, o.partner) == 0 ==> r == o.typeId
  {
    if o.partner == 0 then FirstInScope(cfg.types, cfg.company, cfg.typeOrder)
    else
      var saleType := PartnerSaleType(cfg.partners, o.partner);
      if saleType != 0 then saleType else o.typeId
  }

  /** Recomputing the type of an order whose type was just computed changes
      nothing. */
  lemma ComputedTypeStable(cfg: Config, o: Order)
    ensures ComputedType(cfg, o.(typeId := ComputedType(cfg, o))) == ComputedType(cfg, o)
  {
  }
}
