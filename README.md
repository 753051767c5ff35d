# sale_order_type, modelled in Dafny

This project models the `sale_order_type` extension of the sales-order model
in Dafny. The extension assigns each sale order a *type*. The type's record
supplies defaults for a new order: warehouse, picking policy, payment term,
pricelist, incoterm and route. It also supplies the invoice journal and a
numbering sequence for order names. The model covers six rules:

- the type an order gets from its partner or its company (`_compute_sale_type_id`);
- the cascade of a type's defaults onto an order and its lines (`onchange_type_id`);
- sequence-based naming on `create`;
- renumbering on `write` when the type changes;
- the journal and type added to invoice values (`_prepare_invoice`);
- the route override when a line's product changes (`product_id_change`).

Files:

- `types.dfy` (module `SaleTypes`): the records as values. Record references are
  ids, with 0 for the empty reference (False). It also holds the `Store` (the
  stored orders, one counter per numbering sequence, and the log of calls to
  the base `create`/`write`) and the sequence counters (`NextNumber`, `Advance`).
- `defaults.dfy` (module `TypeDefaults`): the default-type choice rule.
- `cascade.dfy` (module `TypeCascade`): the onchange cascade and the product-change route rule.
- `invoicing.dfy` (module `Invoicing`): `_prepare_invoice`.
- `renumbering.dfy` (module `Renumbering`): the specification of `write`.
  `RenameLoop` is the loop over the records and `WriteSpec` is the whole write.
  The module also holds the lemmas about who is renamed, how many sequence
  values are used, and how often each record is written.
- `sale_orders.dfy` (module `SaleOrders`): class `Env` over the stored orders,
  the counters and the call log. Its methods `Create`, `Write`, `OnchangeType`,
  `ComputeSaleType` and `NextSequence` change that state step by step, the way
  the Python code does. `Write`'s `for` loop is proved against `RenameLoop`.

A sequence is a counter: the value it issues is `Drawn(sequence, number)`, and
issuing one moves the counter on by one. Values issued from the same sequence
are therefore distinct, and each is a number the sequence had not reached before.

Two points of the code worth noting:

- Without a partner, `_compute_sale_type_id` assigns the search result even
  when the search finds nothing, so the order's type becomes empty
  (sale_order_type/models/sale.py:35-38). It does not leave the field unchanged.
  Only the partner branch keeps the old value when no type is found.
- On `create`, an absent name is treated like the placeholder `"/"`
  (`vals.get("name", "/") == "/"`), not only an explicit `"/"`.

## Model

| member | source | states |
|---|---|---|
| `SaleTypes.Advance` | sale_order_type/models/sale.py:117-118 | issuing a value moves that sequence's next number on by exactly one; every other sequence keeps its next number |
| `SaleOrders.Env.NextSequence` | sale_order_type/models/sale.py:114-119 | a type without a sequence yields nothing and consumes nothing; otherwise the result is the sequence's next value and the sequence advances by one |
| `SaleOrders.Env.Create` | sale_order_type/models/sale.py:76-82 | a name other than "/" is passed on untouched whatever the type; with no truthy type, or a type without a sequence, nothing is drawn; otherwise the name becomes the next value of the type's sequence, which advances by one; the base create receives exactly these values |
| `SaleOrders.Env.Write` | sale_order_type/models/sale.py:84-104 | the loop and the final write leave exactly the state `WriteSpec` describes; a write without a truthy type is one plain base write that consumes no sequence value |
| `Renumbering.RenameLoop` | sale_order_type/models/sale.py:91-103 | the loop keeps the set of stored records, and every record it renames comes from the batch |
| `Renumbering.Without` | sale_order_type/models/sale.py:104 | `self - updated_orders` holds exactly the records of the batch that were not renamed |
| `Renumbering.WriteSpec` | sale_order_type/models/sale.py:84-104 | a write keeps the set of stored records |
| `Renumbering.Renumbered` | sale_order_type/models/sale.py:90-103 | the renamed records are records of the batch |
| `Renumbering.RenameLoopDone` | sale_order_type/models/sale.py:91-103 | after any prefix of the batch, the loop has renamed exactly the records whose stored type differs from the new one (none if the type has no sequence), each once; the k-th got number c0 + k, and the sequence moved on once per rename; one base write per renamed record was logged, and every other record is untouched |
| `Renumbering.RenumberedExactly` | sale_order_type/models/sale.py:86-98 | a record is renamed if and only if the new type is truthy, has a sequence, and differs from the record's stored type; no record is renamed twice |
| `Renumbering.WriteConsumesSequence` | sale_order_type/models/sale.py:95-103 | a write that renames nothing leaves every counter unchanged; otherwise only the new type's sequence moves, by exactly the number of renamed records |
| `Renumbering.WriteRecords` | sale_order_type/models/sale.py:92-104 | the k-th renamed record holds the written values with the k-th fresh name; every other record of the batch holds the written values with its name as the values give it; records outside the batch are unchanged |
| `Renumbering.WriteNamesFresh` | sale_order_type/models/sale.py:95-103 | the renamed records get pairwise distinct names, all drawn from the new type's sequence at numbers it had not reached before the write |
| `Renumbering.WriteOnce` | sale_order_type/models/sale.py:100-104 | the base calls a write adds touch every record of the batch exactly once and no other record |
| `Renumbering.WriteSetsType` | sale_order_type/models/sale.py:100-104 | afterwards every record of the batch holds the written type |
| `TypeDefaults.FirstInScope` | sale_order_type/models/sale.py:36-38 | the result is empty if and only if no type in search order belongs to the current company or to none; otherwise it is the first such type |
| `TypeDefaults.PartnerSaleType` | sale_order_type/models/sale.py:40-47 | the partner's own sale type wins when set; when it is empty the result is the commercial partner's sale type (empty if there is no commercial partner); an unknown partner gives the empty type |
| `TypeDefaults.ComputedType` | sale_order_type/models/sale.py:35-49 | without a partner, the type is the first type of the search order that belongs to the current company or to none, and empty if there is none; with a partner, it is the partner's (else the commercial partner's) type, else the order keeps its type |
| `TypeDefaults.ComputedTypeStable` | sale_order_type/models/sale.py:32-49 | recomputing the type of an order whose type was just computed gives the same type |
| `SaleOrders.Env.ComputeSaleType` | sale_order_type/models/sale.py:32-49 | every record of the batch gets its computed type, also when it appears twice; nothing else changes |
| `TypeCascade.TypeValues` | sale_order_type/models/sale.py:58-68 | each of warehouse, picking policy, payment term, pricelist and incoterm is among the collected values if and only if the type sets it, and then with the type's value |
| `TypeCascade.SetRoute` | sale_order_type/models/sale.py:72-74 | every line gets the given route and keeps everything else; no line is added or dropped |
| `TypeCascade.Cascade` | sale_order_type/models/sale.py:56-74 | each optional order field takes the type's value when the type sets it and is unchanged otherwise; every line's route becomes the type's route, the empty one included; name, type, partner and other fields are unchanged |
| `TypeCascade.CascadeIdempotent` | sale_order_type/models/sale.py:51-74 | running the onchange again on its own result changes nothing |
| `SaleOrders.Env.OnchangeType` | sale_order_type/models/sale.py:51-74 | every order of the batch holds the cascade of its own type, also when it appears twice; other orders are unchanged |
| `TypeCascade.ProductChange` | sale_order_type/models/sale.py:125-130 | after a product change, the line takes the type's route only when the type sets one, and keeps its own route otherwise |
| `TypeCascade.ProductChangeAgreesWithCascade` | sale_order_type/models/sale.py:125-130 | the product-change rule and the onchange put the same line if and only if the type sets a route or the line has none |
| `Invoicing.PrepareInvoice` | sale_order_type/models/sale.py:106-112 | `journal_id` is set to the type's journal only when the type has one; `sale_type_id` is added whenever the order has a type; every other key of the base values is unchanged; an order without a type gets the base values back |

## Left out

- The ORM search (`search` with a domain and `limit=1`) is modelled as the first type in a given search order that passes the domain's company filter. The order itself and the type model's `_order` are abstract.
- `_default_type_id` (sale_order_type/models/sale.py:28-30), the field default, is not modelled: it is an ORM search with no domain, and the model computes defaults only through `_compute_sale_type_id`.
- `with_context(force_company=...)`: a partner's sale type is a company-dependent property. The model gives each partner one sale type, read as its value for the order's company. `env.company` is a fixed configuration value.
- `next_by_id` formatting (prefix, suffix, padding, date codes) is not modelled. A drawn name is the sequence and its number. Every sequence starts at 1 and moves by 1.
- The base implementations (`super()`) are not modelled beyond what the extension needs. The base create only receives the values and does not store a record. The base write applies `name` and `type_id` to the records and merges every other written key into the record's untyped `other` map, and each call is logged. The base `_prepare_invoice` and `product_id_change` are inputs: their result is given.
- Field declaration metadata (sale_order_type/models/sale.py:12-26) is not modelled: the `readonly` states, `ondelete="restrict"`, `copy=True` and `store=True` are enforced by the framework. A write is therefore not prevented from changing the type of a confirmed order.
- Onchange staging versus persisted writes: `OnchangeType` updates the stored orders directly.
- A write reaches only `name`, `type_id` and the untyped `other` map: a written `partner_id`, `warehouse_id` or other key that has a dedicated field lands in `other`, and the dedicated field keeps its old value.
- Order lines are values inside their order, not separate records.
- A type id that refers to no type is read as the empty type. The framework would raise an error instead.
- A `name` of False in the values cannot be expressed: an absent name is None, and any given name is a `Name`.
