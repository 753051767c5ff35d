/** The specification of `SaleOrder.write` (sale_order_type/models/sale.py:84-104):
    a write that changes the type renumbers, from the new type's sequence,
    every record whose type differs, one record per base write, and then
    writes all the other records in one final base write. */
module Renumbering {
  import opened SaleTypes

  /** What the base write does to one stored order. */
  function ApplyVals(o: Order, vals: Vals): (r: Order)
    ensures r.typeId == (if vals.typeId.Some? then vals.typeId.value else o.typeId)
    ensures r.name == (if vals.name.Some? then vals.name.value else o.name)
    ensures r.partner == o.partner && r.lines == o.lines
  {
    o.(name := if vals.name.Some? then vals.name.value else o.name,
       typeId := if vals.typeId.Some? then vals.typeId.value else o.typeId,
       other := o.other + vals.other)
  }

  /** The base write of `vals` to `records`, logged as one call. */
  function BaseWrite(st: Store, records: seq<Ref>, vals: Vals): (r: Store)
    ensures r.orders.Keys == st.orders.Keys && r.counters == st.counters
    ensures r.calls == st.calls + [WriteCall(records, vals)]
    ensures forall id :: id in st.orders ==>
      r.orders[id] == if id in records then ApplyVals(st.orders[id], vals) else st.orders[id]
  {
    st.(orders := map id | id in st.orders ::
          if id in records then ApplyVals(st.orders[id], vals) else st.orders[id],
        calls := st.calls + [WriteCall(records, vals)])
  }

  /** The base write of one record. */
  lemma BaseWriteSingle(st: Store, id: Ref, vals: Vals)
    requires id in st.orders
    ensures BaseWrite(st, [id], vals)
      == Store(st.orders[id := ApplyVals(st.orders[id], vals)], st.counters, st.calls + [WriteCall([id], vals)])
  {
    assert BaseWrite(st, [id], vals).orders == st.orders[id := ApplyVals(st.orders[id], vals)];
  }

  /** The values written to a renumbered record: the caller's values with the
      name replaced by the drawn one. */
  function Renamed(vals: Vals, s: Ref, n: nat): Vals
  {
    vals.(name := Some(Drawn(s, n)))
  }

  /** The state of the loop: the store and the records renumbered so far. */
  datatype Pass = Pass(store: Store, updated: seq<Ref>)

  /** One iteration of the loop for record `id` and new type `t`. */
  function RenameStep(types: map<Ref, SaleType>, p: Pass, id: Ref, vals: Vals, t: Ref): Pass
    requires id in p.store.orders
  {
    if p.store.orders[id].typeId == t then p
    else
      var s := SequenceOf(types, t);
      if s == 0 then p
      else
        // the base write of the renamed values to this one record
        var renamed := Renamed(vals, s, NextNumber(p.store.counters, s));
        Pass(Store(p.store.orders[id := ApplyVals(p.store.orders[id], renamed)],
                   Advance(p.store.counters, s),
                   p.store.calls + [WriteCall([id], renamed)]),
             p.updated + [id])
  }

  /** The loop over `ids`, in order. */
  function RenameLoop(types: map<Ref, SaleType>, st: Store, ids: seq<Ref>, vals: Vals, t: Ref): (p: Pass)
    requires forall id :: id in ids ==> id in st.orders
    ensures p.store.orders.Keys == st.orders.Keys
    ensures forall id :: id in p.updated ==> id in ids
    decreases |ids|
  {
    if ids == [] then Pass(st, [])
    else
      var p := RenameLoop(types, st, ids[..|ids| - 1], vals, t);
      RenameStep(types, p, ids[|ids| - 1], vals, t)
  }

  /** `self - updated_orders`: the records of `ids` not in `removed`, in order. */
  function Without(ids: seq<Ref>, removed: seq<Ref>): (r: seq<Ref>)
    ensures forall id :: id in r <==> id in ids && id !in removed
  {
    if ids == [] then []
    else (if ids[0] in removed then [] else [ids[0]]) + Without(ids[1..], removed)
  }

  /** The whole write of `vals` to the records `ids`. */
  function WriteSpec(types: map<Ref, SaleType>, st: Store, ids: seq<Ref>, vals: Vals): (r: Store)
    requires forall id :: id in ids ==> id in st.orders
    ensures r.orders.Keys == st.orders.Keys
  {
    if !Truthy(vals.typeId) then BaseWrite(st, ids, vals)
    else
      var p := RenameLoop(types, st, ids, vals, vals.typeId.value);
      BaseWrite(p.store, Without(ids, p.updated), vals)
  }

  /** The records a write renumbers, in the order it renumbers them. */
  function Renumbered(types: map<Ref, SaleType>, st: Store, ids: seq<Ref>, vals: Vals): (u: seq<Ref>)
    requires forall id :: id in ids ==> id in st.orders
    ensures forall id :: id in u ==> id in ids
  {
    if !Truthy(vals.typeId) then []
    else RenameLoop(types, st, ids, vals, vals.typeId.value).updated
  }

  /** The base write calls that renumber `u`, the k-th with number c0 + k. */
  function RenameCalls(vals: Vals, s: Ref, c0: nat, u: seq<Ref>): seq<BaseCall>
    decreases |u|
  {
    if u == [] then []
    else RenameCalls(vals, s, c0, u[..|u| - 1]) + [WriteCall([u[|u| - 1]], Renamed(vals, s, c0 + |u| - 1))]
  }

  /** How many write calls in `calls` touch the record `id`. */
  function WritesOn(calls: seq<BaseCall>, id: Ref): nat
  {
    if calls == [] then 0
    else (if calls[0].WriteCall? && id in calls[0].records then 1 else 0) + WritesOn(calls[1..], id)
  }

  predicate Distinct(u: seq<Ref>)
  {
    forall j, k :: 0 <= j < k < |u| ==> u[j] != u[k]
  }

  /** `u` holds exactly the records of `ids` whose stored type differs from
      `t`, and none when `t` has no sequence. */
  ghost predicate RenamedExactly(types: map<Ref, SaleType>, st: Store, ids: seq<Ref>, t: Ref, u: seq<Ref>)
    requires forall id :: id in ids ==> id in st.orders
  {
    forall id {:trigger id in u} {:trigger id in ids} :: id in u <==> SequenceOf(types, t) != 0 && id in ids && st.orders[id].typeId != t
  }

  /** The sequence has issued one value per record of `u`, and no other
      counter moved. */
  ghost predicate CountersDone(st: Store, s: Ref, u: seq<Ref>, counters: map<Ref, nat>)
  {
    counters == if u == [] then st.counters else st.counters[s := NextNumber(st.counters, s) + |u|]
  }

  /** The k-th record of `u` holds `vals` with the name numbered c0 + k; every
      other record is as it was. */
  ghost predicate OrdersDone(st: Store, vals: Vals, s: Ref, u: seq<Ref>, orders: map<Ref, Order>)
  {
    var c0 := NextNumber(st.counters, s);
    && orders.Keys == st.orders.Keys
    && (forall k :: 0 <= k < |u| ==> u[k] in st.orders && orders[u[k]] == ApplyVals(st.orders[u[k]], Renamed(vals, s, c0 + k)))
    && (forall id {:trigger orders[id]} :: id in st.orders && id !in u ==> orders[id] == st.orders[id])
  }

  /** What the loop has done after the records `ids`: it renumbered exactly
      the records whose stored type differs from `t` (none when `t` has no
      sequence), each once, the k-th with number c0 + k, one base write each. */
  ghost predicate LoopDone(types: map<Ref, SaleType>, st: Store, ids: seq<Ref>, vals: Vals, t: Ref, p: Pass)
    requires forall id :: id in ids ==> id in st.orders
  {
    var s := SequenceOf(types, t);
    && RenamedExactly(types, st, ids, t, p.updated)
    && Distinct(p.updated)
    && CountersDone(st, s, p.updated, p.store.counters)
    && p.store.calls == st.calls + RenameCalls(vals, s, NextNumber(st.counters, s), p.updated)
    && OrdersDone(st, vals, s, p.updated, p.store.orders)
  }

  /** A record the loop has renumbered already holds the new type. */
  lemma RenumberedHoldsType(st: Store, vals: Vals, s: Ref, t: Ref, u: seq<Ref>, orders: map<Ref, Order>, id: Ref)
    requires vals.typeId == Some(t)
    requires OrdersDone(st, vals, s, u, orders)
    requires id in u
    ensures id in orders && orders[id].typeId == t
  {
    var k :| 0 <= k < |u| && u[k] == id;
  }

  lemma RenamedExactlyStep(types: map<Ref, SaleType>, st: Store, prefix: seq<Ref>, id: Ref, t: Ref, u: seq<Ref>, renamed: bool)
    requires forall x :: x in prefix ==> x in st.orders
    requires id in st.orders
    requires RenamedExactly(types, st, prefix, t, u)
    requires renamed ==> id !in u && SequenceOf(types, t) != 0 && st.orders[id].typeId != t
    requires !renamed ==> id in u || SequenceOf(types, t) == 0 || st.orders[id].typeId == t
    ensures RenamedExactly(types, st, prefix + [id], t, if renamed then u + [id] else u)
  {
    assert forall x :: x in prefix + [id] <==> x in prefix || x == id;
  }

  lemma DistinctStep(u: seq<Ref>, id: Ref)
    requires Distinct(u) && id !in u
    ensures Distinct(u + [id])
  {
  }

  lemma OrdersStep(st: Store, vals: Vals, s: Ref, u: seq<Ref>, orders: map<Ref, Order>, id: Ref)
    requires OrdersDone(st, vals, s, u, orders)
    requires id in st.orders && id !in u
    ensures orders[id] == st.orders[id]
    ensures OrdersDone(st, vals, s, u + [id],
      orders[id := ApplyVals(orders[id], Renamed(vals, s, NextNumber(st.counters, s) + |u|))])
  {
    var u' := u + [id];
    forall k | 0 <= k < |u'|
      ensures u'[k] in st.orders
    {
      if k < |u| {
        assert u'[k] == u[k];
      }
    }
  }

  lemma CountersStep(st: Store, s: Ref, u: seq<Ref>, counters: map<Ref, nat>, id: Ref)
    requires CountersDone(st, s, u, counters)
    ensures NextNumber(counters, s) == NextNumber(st.counters, s) + |u|
    ensures CountersDone(st, s, u + [id], Advance(counters, s))
  {
  }

  lemma CallsStep(st: Store, vals: Vals, s: Ref, u: seq<Ref>, calls: seq<BaseCall>, id: Ref)
    requires calls == st.calls + RenameCalls(vals, s, NextNumber(st.counters, s), u)
    ensures calls + [WriteCall([id], Renamed(vals, s, NextNumber(st.counters, s) + |u|))]
      == st.calls + RenameCalls(vals, s, NextNumber(st.counters, s), u + [id])
  {
    assert (u + [id])[..|u|] == u;
  }

  lemma CountersAfterStep(types: map<Ref, SaleType>, st: Store, p: Pass, id: Ref, vals: Vals, t: Ref)
    requires id in p.store.orders
    requires CountersDone(st, SequenceOf(types, t), p.updated, p.store.counters)
    ensures var q := RenameStep(types, p, id, vals, t);
      CountersDone(st, SequenceOf(types, t), q.updated, q.store.counters)
  {
    CountersStep(st, SequenceOf(types, t), p.updated, p.store.counters, id);
  }

  lemma CallsAfterStep(types: map<Ref, SaleType>, st: Store, p: Pass, id: Ref, vals: Vals, t: Ref)
    requires id in p.store.orders
    requires CountersDone(st, SequenceOf(types, t), p.updated, p.store.counters)
    requires p.store.calls == st.calls + RenameCalls(vals, SequenceOf(types, t), NextNumber(st.counters, SequenceOf(types, t)), p.updated)
    ensures var q := RenameStep(types, p, id, vals, t);
      q.store.calls == st.calls + RenameCalls(vals, SequenceOf(types, t), NextNumber(st.counters, SequenceOf(types, t)), q.updated)
  {
    var s := SequenceOf(types, t);
    CountersStep(st, s, p.updated, p.store.counters, id);
    CallsStep(st, vals, s, p.updated, p.store.calls, id);
  }

  lemma OrdersAfterStep(types: map<Ref, SaleType>, st: Store, prefix: seq<Ref>, p: Pass, id: Ref, vals: Vals, t: Ref)
    requires forall x :: x in prefix ==> x in st.orders
    requires id in st.orders
    requires vals.typeId == Some(t)
    requires CountersDone(st, SequenceOf(types, t), p.updated, p.store.counters)
    requires RenamedExactly(types, st, prefix, t, p.updated)
    requires Distinct(p.updated)
    requires OrdersDone(st, vals, SequenceOf(types, t), p.updated, p.store.orders)
    ensures var q := RenameStep(types, p, id, vals, t);
      && RenamedExactly(types, st, prefix + [id], t, q.updated)
      && Distinct(q.updated)
      && OrdersDone(st, vals, SequenceOf(types, t), q.updated, q.store.orders)
  {
    if p.store.orders[id].typeId == t || SequenceOf(types, t) == 0 {
      OrdersAfterSkip(types, st, prefix, p, id, vals, t);
    } else {
      OrdersAfterRename(types, st, prefix, p, id, vals, t);
    }
  }

  lemma OrdersAfterSkip(types: map<Ref, SaleType>, st: Store, prefix: seq<Ref>, p: Pass, id: Ref, vals: Vals, t: Ref)
    requires forall x :: x in prefix ==> x in st.orders
    requires id in st.orders
    requires vals.typeId == Some(t)
    requires RenamedExactly(types, st, prefix, t, p.updated)
    requires OrdersDone(st, vals, SequenceOf(types, t), p.updated, p.store.orders)
    requires p.store.orders[id].typeId == t || SequenceOf(types, t) == 0
    ensures RenamedExactly(types, st, prefix + [id], t, p.updated)
  {
    var s := SequenceOf(types, t);
    var u := p.updated;
    if id in u {
      RenumberedHoldsType(st, vals, s, t, u, p.store.orders, id);
    } else if s != 0 {
      OrdersStep(st, vals, s, u, p.store.orders, id);
    }
    RenamedExactlyStep(types, st, prefix, id, t, u, false);
  }

  /** The record an iteration renumbers had not been renumbered before. */
  lemma RenamedIsNew(types: map<Ref, SaleType>, st: Store, prefix: seq<Ref>, p: Pass, id: Ref, vals: Vals, t: Ref)
    requires forall x :: x in prefix ==> x in st.orders
    requires id in st.orders
    requires vals.typeId == Some(t)
    requires CountersDone(st, SequenceOf(types, t), p.updated, p.store.counters)
    requires RenamedExactly(types, st, prefix, t, p.updated)
    requires Distinct(p.updated)
    requires OrdersDone(st, vals, SequenceOf(types, t), p.updated, p.store.orders)
    requires p.store.orders[id].typeId != t && SequenceOf(types, t) != 0
    ensures id !in p.updated && st.orders[id].typeId != t
    ensures RenameStep(types, p, id, vals, t).updated == p.updated + [id]
  {
    if id in p.updated {
      RenumberedHoldsType(st, vals, SequenceOf(types, t), t, p.updated, p.store.orders, id);
    }
    OrdersStep(st, vals, SequenceOf(types, t), p.updated, p.store.orders, id);
  }

  lemma OrdersAfterRename(types: map<Ref, SaleType>, st: Store, prefix: seq<Ref>, p: Pass, id: Ref, vals: Vals, t: Ref)
    requires forall x :: x in prefix ==> x in st.orders
    requires id in st.orders
    requires vals.typeId == Some(t)
    requires CountersDone(st, SequenceOf(types, t), p.updated, p.store.counters)
    requires RenamedExactly(types, st, prefix, t, p.updated)
    requires Distinct(p.updated)
    requires OrdersDone(st, vals, SequenceOf(types, t), p.updated, p.store.orders)
    requires p.store.orders[id].typeId != t && SequenceOf(types, t) != 0
    ensures var q := RenameStep(types, p, id, vals, t);
      && RenamedExactly(types, st, prefix + [id], t, q.updated)
      && Distinct(q.updated)
      && OrdersDone(st, vals, SequenceOf(types, t), q.updated, q.store.orders)
  {
    RenamedIsNew(types, st, prefix, p, id, vals, t);
    RenamedExactlyStep(types, st, prefix, id, t, p.updated, true);
    DistinctStep(p.updated, id);
    OrdersAfterRenameOrders(types, st, prefix, p, id, vals, t);
  }

  lemma OrdersAfterRenameOrders(types: map<Ref, SaleType>, st: Store, prefix: seq<Ref>, p: Pass, id: Ref, vals: Vals, t: Ref)
    requires forall x :: x in prefix ==> x in st.orders
    requires id in st.orders
    requires vals.typeId == Some(t)
    requires CountersDone(st, SequenceOf(types, t), p.updated, p.store.counters)
    requires RenamedExactly(types, st, prefix, t, p.updated)
    requires Distinct(p.updated)
    requires OrdersDone(st, vals, SequenceOf(types, t), p.updated, p.store.orders)
    requires p.store.orders[id].typeId != t && SequenceOf(types, t) != 0
    ensures var q := RenameStep(types, p, id, vals, t);
      OrdersDone(st, vals, SequenceOf(types, t), q.updated, q.store.orders)
  {
    RenamedIsNew(types, st, prefix, p, id, vals, t);
    CountersStep(st, SequenceOf(types, t), p.updated, p.store.counters, id);
    OrdersStep(st, vals, SequenceOf(types, t), p.updated, p.store.orders, id);
  }

  /** One unfolding of the loop. */
  lemma LoopUnfold(types: map<Ref, SaleType>, st: Store, ids: seq<Ref>, vals: Vals, t: Ref)
    requires forall id :: id in ids ==> id in st.orders
    requires ids != []
    ensures RenameLoop(types, st, ids, vals, t)
      == RenameStep(types, RenameLoop(types, st, ids[..|ids| - 1], vals, t), ids[|ids| - 1], vals, t)
  {
  }

  lemma {:induction false} LoopCounters(types: map<Ref, SaleType>, st: Store, ids: seq<Ref>, vals: Vals, t: Ref)
    requires forall id :: id in ids ==> id in st.orders
    ensures var p := RenameLoop(types, st, ids, vals, t);
      CountersDone(st, SequenceOf(types, t), p.updated, p.store.counters)
  {
    if ids != [] {
      var prefix := ids[..|ids| - 1];
      LoopCounters(types, st, prefix, vals, t);
      LoopUnfold(types, st, ids, vals, t);
      CountersAfterStep(types, st, RenameLoop(types, st, prefix, vals, t), ids[|ids| - 1], vals, t);
    }
  }

  lemma {:induction false} LoopCalls(types: map<Ref, SaleType>, st: Store, ids: seq<Ref>, vals: Vals, t: Ref)
    requires forall id :: id in ids ==> id in st.orders
    ensures var p := RenameLoop(types, st, ids, vals, t);
      var s := SequenceOf(types, t);
      p.store.calls == st.calls + RenameCalls(vals, s, NextNumber(st.counters, s), p.updated)
  {
    if ids != [] {
      var prefix := ids[..|ids| - 1];
      LoopCalls(types, st, prefix, vals, t);
      LoopCounters(types, st, prefix, vals, t);
      LoopUnfold(types, st, ids, vals, t);
      CallsAfterStep(types, st, RenameLoop(types, st, prefix, vals, t), ids[|ids| - 1], vals, t);
    }
  }

  lemma {:induction false} LoopOrders(types: map<Ref, SaleType>, st: Store, ids: seq<Ref>, vals: Vals, t: Ref)
    requires forall id :: id in ids ==> id in st.orders
    requires vals.typeId == Some(t)
    ensures var p := RenameLoop(types, st, ids, vals, t);
      var s := SequenceOf(types, t);
      && RenamedExactly(types, st, ids, t, p.updated)
      && Distinct(p.updated)
      && OrdersDone(st, vals, s, p.updated, p.store.orders)
  {
    if ids != [] {
      var prefix := ids[..|ids| - 1];
      assert ids == prefix + [ids[|ids| - 1]];
      LoopOrders(types, st, prefix, vals, t);
      LoopCounters(types, st, prefix, vals, t);
      LoopUnfold(types, st, ids, vals, t);
      OrdersAfterStep(types, st, prefix, RenameLoop(types, st, prefix, vals, t), ids[|ids| - 1], vals, t);
    }
  }

  lemma RenameLoopDone(types: map<Ref, SaleType>, st: Store, ids: seq<Ref>, vals: Vals, t: Ref)
    requires forall id :: id in ids ==> id in st.orders
    requires vals.typeId == Some(t)
    ensures LoopDone(types, st, ids, vals, t, RenameLoop(types, st, ids, vals, t))
  {
    LoopCounters(types, st, ids, vals, t);
    LoopCalls(types, st, ids, vals, t);
    LoopOrders(types, st, ids, vals, t);
  }

  lemma {:induction false} WritesOnConcat(a: seq<BaseCall>, b: seq<BaseCall>, id: Ref)
    ensures WritesOn(a + b, id) == WritesOn(a, id) + WritesOn(b, id)
  {
    if a == [] {
      assert a + b == b;
    } else {
      assert (a + b)[0] == a[0];
      assert (a + b)[1..] == a[1..] + b;
      WritesOnConcat(a[1..], b, id);
    }
  }

  /** Each renumbered record gets one write call of its own. */
  lemma {:induction false} WritesOnRenameCalls(vals: Vals, s: Ref, c0: nat, u: seq<Ref>, id: Ref)
    requires Distinct(u)
    ensures WritesOn(RenameCalls(vals, s, c0, u), id) == if id in u then 1 else 0
    decreases |u|
  {
    if u != [] {
      var prefix := u[..|u| - 1];
      assert u == prefix + [u[|u| - 1]];
      assert forall x :: x in u <==> x in prefix || x == u[|u| - 1];
      WritesOnRenameCalls(vals, s, c0, prefix, id);
      var last := [WriteCall([u[|u| - 1]], Renamed(vals, s, c0 + |u| - 1))];
      WritesOnConcat(RenameCalls(vals, s, c0, prefix), last, id);
      assert WritesOn(last, id) == if id == u[|u| - 1] then 1 else 0 by {
        assert last[1..] == [];
      }
    }
  }

  /** Who a write renumbers: exactly the records of the batch whose type
      differs from a truthy new type that has a sequence, each once. */
  lemma RenumberedExactly(types: map<Ref, SaleType>, st: Store, ids: seq<Ref>, vals: Vals)
    requires forall id :: id in ids ==> id in st.orders
    ensures var u := Renumbered(types, st, ids, vals);
      && Distinct(u)
      && forall id :: id in u <==>
           Truthy(vals.typeId) && SequenceOf(types, vals.typeId.value) != 0
           && id in ids && st.orders[id].typeId != vals.typeId.value
  {
    if Truthy(vals.typeId) {
      LoopOrders(types, st, ids, vals, vals.typeId.value);
    }
  }

  /** How many sequence values a write consumes: one per renumbered record,
      all from the new type's sequence; a write without a truthy type, or
      whose type has no sequence, consumes none. */
  lemma WriteConsumesSequence(types: map<Ref, SaleType>, st: Store, ids: seq<Ref>, vals: Vals)
    requires forall id :: id in ids ==> id in st.orders
    ensures var u := Renumbered(types, st, ids, vals);
      var r := WriteSpec(types, st, ids, vals);
      && (u == [] ==> r.counters == st.counters)
      && (u != [] ==>
            && Truthy(vals.typeId)
            && var s := SequenceOf(types, vals.typeId.value);
               r.counters == st.counters[s := NextNumber(st.counters, s) + |u|])
  {
    if Truthy(vals.typeId) {
      var t := vals.typeId.value;
      LoopCounters(types, st, ids, vals, t);
      LoopOrders(types, st, ids, vals, t);
    }
  }

  /** What a write leaves in each record: the k-th renumbered record holds the
      written values named with the k-th fresh number, every other record of
      the batch holds the written values with its name as the values say,
      and records outside the batch are untouched. */
  lemma WriteRecords(types: map<Ref, SaleType>, st: Store, ids: seq<Ref>, vals: Vals)
    requires forall id :: id in ids ==> id in st.orders
    ensures var u := Renumbered(types, st, ids, vals);
      var r := WriteSpec(types, st, ids, vals);
      && r.orders.Keys == st.orders.Keys
      && (forall k :: 0 <= k < |u| ==>
            var s := SequenceOf(types, vals.typeId.value);
            r.orders[u[k]] == ApplyVals(st.orders[u[k]], vals).(name := Drawn(s, NextNumber(st.counters, s) + k)))
      && (forall id :: id in ids && id !in u ==> r.orders[id] == ApplyVals(st.orders[id], vals))
      && (forall id :: id in st.orders && id !in ids ==> r.orders[id] == st.orders[id])
  {
    if Truthy(vals.typeId) {
      RenumberingRecords(types, st, ids, vals);
    }
  }

  lemma RenumberingRecords(types: map<Ref, SaleType>, st: Store, ids: seq<Ref>, vals: Vals)
    requires forall id :: id in ids ==> id in st.orders
    requires Truthy(vals.typeId)
    ensures var u := Renumbered(types, st, ids, vals);
      var r := WriteSpec(types, st, ids, vals);
      var s := SequenceOf(types, vals.typeId.value);
      && (forall k :: 0 <= k < |u| ==>
            r.orders[u[k]] == ApplyVals(st.orders[u[k]], vals).(name := Drawn(s, NextNumber(st.counters, s) + k)))
      && (forall id :: id in ids && id !in u ==> r.orders[id] == ApplyVals(st.orders[id], vals))
      && (forall id :: id in st.orders && id !in ids ==> r.orders[id] == st.orders[id])
  {
    var t := vals.typeId.value;
    var s := SequenceOf(types, t);
    LoopOrders(types, st, ids, vals, t);
    var p := RenameLoop(types, st, ids, vals, t);
    var u := p.updated;
    var rest := Without(ids, u);
    assert WriteSpec(types, st, ids, vals) == BaseWrite(p.store, rest, vals);
    forall k | 0 <= k < |u|
      ensures u[k] !in rest
    {
      assert u[k] in u;
    }
  }

  /** The names a write hands out are pairwise distinct and none was issued
      before it: each is a number the sequence had not reached yet. */
  lemma WriteNamesFresh(types: map<Ref, SaleType>, st: Store, ids: seq<Ref>, vals: Vals)
    requires forall id :: id in ids ==> id in st.orders
    ensures var u := Renumbered(types, st, ids, vals);
      var r := WriteSpec(types, st, ids, vals);
      && (forall j, k :: 0 <= j < k < |u| ==> r.orders[u[j]].name != r.orders[u[k]].name)
      && (forall k :: 0 <= k < |u| ==>
            var s := SequenceOf(types, vals.typeId.value);
            r.orders[u[k]].name.Drawn? && r.orders[u[k]].name.sequence == s
            && r.orders[u[k]].name.number >= NextNumber(st.counters, s))
  {
    WriteRecords(types, st, ids, vals);
  }

  /** The calls a renumbering write adds: one per renumbered record, then
      one for the rest of the batch. */
  lemma RenumberingCalls(types: map<Ref, SaleType>, st: Store, ids: seq<Ref>, vals: Vals)
    requires forall id :: id in ids ==> id in st.orders
    requires Truthy(vals.typeId)
    ensures var r := WriteSpec(types, st, ids, vals);
      var u := Renumbered(types, st, ids, vals);
      var s := SequenceOf(types, vals.typeId.value);
      && Distinct(u)
      && r.calls == st.calls + RenameCalls(vals, s, NextNumber(st.counters, s), u) + [WriteCall(Without(ids, u), vals)]
  {
    LoopCalls(types, st, ids, vals, vals.typeId.value);
    LoopOrders(types, st, ids, vals, vals.typeId.value);
  }

  lemma WritesOnSingle(records: seq<Ref>, vals: Vals, id: Ref)
    ensures WritesOn([WriteCall(records, vals)], id) == if id in records then 1 else 0
  {
    assert [WriteCall(records, vals)][1..] == [];
  }

  /** Every record of the batch is written exactly once, by the base write,
      and no other record is written. */
  lemma WriteOnce(types: map<Ref, SaleType>, st: Store, ids: seq<Ref>, vals: Vals)
    requires forall id :: id in ids ==> id in st.orders
    ensures var r := WriteSpec(types, st, ids, vals);
      && |r.calls| > |st.calls| && r.calls[..|st.calls|] == st.calls
      && (forall id :: WritesOn(r.calls[|st.calls|..], id) == if id in ids then 1 else 0)
  {
    if Truthy(vals.typeId) {
      RenumberingWriteOnce(types, st, ids, vals);
    } else {
      var r := WriteSpec(types, st, ids, vals);
      assert r.calls[|st.calls|..] == [WriteCall(ids, vals)];
      forall id ensures WritesOn(r.calls[|st.calls|..], id) == if id in ids then 1 else 0 {
        WritesOnSingle(ids, vals, id);
      }
    }
  }

  lemma RenumberingWriteOnce(types: map<Ref, SaleType>, st: Store, ids: seq<Ref>, vals: Vals)
    requires forall id :: id in ids ==> id in st.orders
    requires Truthy(vals.typeId)
    ensures var r := WriteSpec(types, st, ids, vals);
      && |r.calls| > |st.calls| && r.calls[..|st.calls|] == st.calls
      && (forall id :: WritesOn(r.calls[|st.calls|..], id) == if id in ids then 1 else 0)
  {
    var r := WriteSpec(types, st, ids, vals);
    var u := Renumbered(types, st, ids, vals);
    var s := SequenceOf(types, vals.typeId.value);
    var renames := RenameCalls(vals, s, NextNumber(st.counters, s), u);
    var last := [WriteCall(Without(ids, u), vals)];
    RenumberingCalls(types, st, ids, vals);
    assert r.calls == st.calls + (renames + last);
    assert r.calls[|st.calls|..] == renames + last;
    forall id ensures WritesOn(r.calls[|st.calls|..], id) == if id in ids then 1 else 0 {
      WritesOnConcat(renames, last, id);
      WritesOnRenameCalls(vals, s, NextNumber(st.counters, s), u, id);
      WritesOnSingle(Without(ids, u), vals, id);
    }
  }

  /** Afterwards every record of the batch holds the written type. */
  lemma WriteSetsType(types: map<Ref, SaleType>, st: Store, ids: seq<Ref>, vals: Vals)
    requires forall id :: id in ids ==> id in st.orders
    requires vals.typeId.Some?
    ensures var r := WriteSpec(types, st, ids, vals);
      forall id :: id in ids ==> r.orders[id].typeId == vals.typeId.value
  {
    WriteRecords(types, st, ids, vals);
    var u := Renumbered(types, st, ids, vals);
    forall id | id in ids && id in u
      ensures WriteSpec(types, st, ids, vals).orders[id].typeId == vals.typeId.value
    {
      var k :| 0 <= k < |u| && u[k] == id;
    }
  }
}
