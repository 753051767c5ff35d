/** The invoice values of an order (sale_order_type/models/sale.py:106-112). */
module Invoicing {
  import opened SaleTypes

  const JOURNAL_KEY := "journal_id"
  const SALE_TYPE_KEY := "sale_type_id"

  /** `_prepare_invoice`: `base` is what the base implementation returns. */
  method PrepareInvoice(types: map<Ref, SaleType>, o: Order, base: map<string, Value>)
    returns (res: map<string, Value>)
    ensures var journal := TypeOf(types, o.typeId).journal;
      && res.Keys == base.Keys + (if journal != 0 then {JOURNAL_KEY} else {})
                               + (if o.typeId != 0 then {SALE_TYPE_KEY} else {})
      && (journal != 0 ==> res[JOURNAL_KEY] == RecordId(journal))
      && (o.typeId != 0 ==> res[SALE_TYPE_KEY] == RecordId(o.typeId))
      && (forall k :: k in base && !(k == JOURNAL_KEY && journal != 0) && !(k == SALE_TYPE_KEY && o.typeId != 0)
            ==> res[k] == base[k])
    // an order without a type gets its base values back
    ensures o.typeId == 0 ==> res == base
  {
    res := base;
    var orderType := TypeOf(types, o.typeId);
    if orderType.journal != 0 {
      res := res[JOURNAL_KEY := RecordId(orderType.journal)];
    }
    if o.typeId != 0 {
      res := res[SALE_TYPE_KEY := RecordId(o.typeId)];
    }
  }
}
