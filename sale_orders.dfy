/** The sale order model of the extension (sale_order_type/models/sale.py:9-119)
    as a class over the stored orders and the numbering sequences. */
module SaleOrders {
  import opened SaleTypes
  import opened Renumbering
  import opened TypeDefaults
  import opened TypeCascade

  class Env {
    const config: Config
    /** The stored orders, by id. */
    var orders: map<Ref, Order>
    /** The next number of every numbering sequence. */
    var counters: map<Ref, nat>
    /** The calls made to the base create and write, in order. */
    var calls: seq<BaseCall>

    constructor (config: Config, orders: map<Ref, Order>, counters: map<Ref, nat>)
      ensures this.config == config && this.orders == orders && this.counters == counters
      ensures calls == []
    {
      this.config := config;
      this.orders := orders;
      this.counters := counters;
      calls := [];
    }

    function Snapshot(): Store
      reads this
    {
      Store(orders, counters, calls)
    }

    /** `_get_next_sequence`: the next value of the type's sequence, which
        advances by one; nothing when the type has no sequence. */
    method NextSequence(t: Ref) returns (next: Option<Name>)
      modifies this`counters
      ensures var s := SequenceOf(config.types, t);
        && (s == 0 ==> next == None && counters == old(counters))
        && (s != 0 ==> next == Some(Drawn(s, NextNumber(old(counters), s))) && counters == Advance(old(counters), s))
    {
      var saleType := TypeOf(config.types, t);
      next := None;
      if saleType.sequence != 0 {
        next := Some(Drawn(saleType.sequence, NextNumber(counters, saleType.sequence)));
        counters := Advance(counters, saleType.sequence);
      }
    }

    /** The base create, which receives `vals`. */
    method BaseCreate(vals: Vals)
      modifies this`calls
      ensures calls == old(calls) + [CreateCall(vals)]
    {
      calls := calls + [CreateCall(vals)];
    }

    /** The base write of `vals` to `records`. */
    method BaseWriteOn(records: seq<Ref>, vals: Vals)
      requires forall id :: id in records ==> id in orders
      modifies this`orders, this`calls
      ensures Snapshot() == BaseWrite(old(Snapshot()), records, vals)
    {
      var st := BaseWrite(Snapshot(), records, vals);
      orders, calls := st.orders, st.calls;
    }

    /** `create`: a name is drawn from the type's sequence only when the name
        is absent or "/" and a type with a sequence is given. */
    method Create(vals: Vals) returns (passed: Vals)
      modifies this`counters, this`calls
      ensures calls == old(calls) + [CreateCall(passed)]
      // a name other than "/" is kept whatever the type
      ensures vals.name.Some? && vals.name.value != PLACEHOLDER ==>
        passed == vals && counters == old(counters)
      // no type, or a type without a sequence: nothing is drawn
      ensures (!Truthy(vals.typeId) || SequenceOf(config.types, vals.typeId.value) == 0) ==>
        passed == vals && counters == old(counters)
      // otherwise the name is the sequence's next value, and it advances by one
      ensures (vals.name == None || vals.name == Some(PLACEHOLDER)) && Truthy(vals.typeId)
              && SequenceOf(config.types, vals.typeId.value) != 0 ==>
        var s := SequenceOf(config.types, vals.typeId.value);
        && passed == vals.(name := Some(Drawn(s, NextNumber(old(counters), s))))
        && counters == Advance(old(counters), s)
    {
      passed := vals;
      if (vals.name == None || vals.name == Some(PLACEHOLDER)) && Truthy(vals.typeId) {
        var next := NextSequence(vals.typeId.value);
        if next.Some? {
          passed := passed.(name := next);
        }
      }
      BaseCreate(passed);
    }

    /** `write`: see `Renumbering.WriteSpec` and the lemmas about it. */
    method Write(ids: seq<Ref>, vals: Vals)
      requires forall id :: id in ids ==> id in orders
      modifies this`orders, this`counters, this`calls
      ensures Snapshot() == WriteSpec(config.types, old(Snapshot()), ids, vals)
      // without a truthy type a write is a plain write
      ensures !Truthy(vals.typeId) ==>
        counters == old(counters) && calls == old(calls) + [WriteCall(ids, vals)]
    {
      var typeId := vals.typeId;
      if !Truthy(typeId) {
        BaseWriteOn(ids, vals);
        return;
      }
      var t := typeId.value;
      ghost var st := Snapshot();
      var updated: seq<Ref> := [];
      for i := 0 to |ids|
        invariant Pass(Snapshot(), updated) == RenameLoop(config.types, st, ids[..i], vals, t)
      {
        assert ids[..i + 1][..i] == ids[..i];
        var order := ids[i];
        // the type stays the same
        if orders[order].typeId == t {
          continue;
        }
        var next := NextSequence(t);
        // the new type has no sequence
        if next == None {
          continue;
        }
        var newVals := vals.(name := next);
        BaseWriteSingle(Snapshot(), order, newVals);
        BaseWriteOn([order], newVals);
        updated := updated + [order];
      }
      assert ids[..|ids|] == ids;
      BaseWriteOn(Without(ids, updated), vals);
    }

    /** `onchange_type_id` on the orders `ids`. */
    method OnchangeType(ids: seq<Ref>)
      requires forall id :: id in ids ==> id in orders
      modifies this`orders
      ensures orders.Keys == old(orders).Keys
      ensures forall id :: id in orders ==>
        orders[id] == if id in ids then Cascade(config.types, old(orders)[id]) else old(orders)[id]
    {
      for i := 0 to |ids|
        invariant orders.Keys == old(orders).Keys
        invariant forall id :: id in orders ==>
          orders[id] == if id in ids[..i] then Cascade(config.types, old(orders)[id]) else old(orders)[id]
      {
        var order := ids[i];
        if order in ids[..i] {
          CascadeIdempotent(config.types, old(orders)[order]);
        }
        orders := orders[order := Cascade(config.types, orders[order])];
        assert forall id :: id in ids[..i + 1] <==> id in ids[..i] || id == order;
      }
      assert ids[..|ids|] == ids;
    }

    /** `_compute_sale_type_id` on the orders `ids`. */
    method ComputeSaleType(ids: seq<Ref>)
      requires forall id :: id in ids ==> id in orders
      modifies this`orders
      ensures orders.Keys == old(orders).Keys
      ensures forall id :: id in orders ==>
        orders[id] == if id in ids then old(orders)[id].(typeId := ComputedType(config, old(orders)[id]))
                      else old(orders)[id]
    {
      for i := 0 to |ids|
        invariant orders.Keys == old(orders).Keys
        invariant forall id :: id in orders ==>
          orders[id] == if id in ids[..i] then old(orders)[id].(typeId := ComputedType(config, old(orders)[id]))
                        else old(orders)[id]
      {
        var record := ids[i];
        if record in ids[..i] {
          ComputedTypeStable(config, old(orders)[record]);
        }
        orders := orders[record := orders[record].(typeId := ComputedType(config, orders[record]))];
        assert forall id :: id in ids[..i + 1] <==> id in ids[..i] || id == record;
      }
      assert ids[..|ids|] == ids;
    }
  }
}
