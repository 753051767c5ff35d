/** Records of the sale-order-type extension, as plain values.
    References to other records are record ids; as in the ORM, the id 0
    stands for an empty reference (the value False). */
module SaleTypes {

  datatype Option<+T> = None | Some(value: T)

  /** A record id; 0 is the empty reference. */
  type Ref = nat

  /** The `picking_policy` selection of an order and of a type. */
  datatype Policy = Direct | One

  /** A sale order type: the defaults it cascades onto orders, the journal
      of the invoices, and the numbering sequence (0 when it has none). */
  datatype SaleType = SaleType(
    company: Ref,
    warehouse: Ref,
    pickingPolicy: Option<Policy>,
    paymentTerm: Ref,
    pricelist: Ref,
    incoterm: Ref,
    route: Ref,
    journal: Ref,
    sequence: Ref)

  /** What an empty type reference reads as: every field empty. */
  const EMPTY_TYPE := SaleType(0, 0, None, 0, 0, 0, 0, 0, 0)

  /** A partner: its configured sale type, as seen from the order's company,
      and its commercial partner. */
  datatype Partner = Partner(saleType: Ref, commercial: Ref)

  /** An order name: text given by a caller, or the value a numbering
      sequence issued (its number, before any prefix or padding). */
  datatype Name = Given(text: string) | Drawn(sequence: Ref, number: nat)

  /** The name a caller passes to ask for a generated one. */
  const PLACEHOLDER: Name := Given("/")

  /** Field values the extension passes through without looking at them. */
  datatype Value = RecordId(id: nat) | Text(text: string)

  datatype Line = Line(product: Ref, route: Ref)

  datatype Order = Order(
    name: Name,
    typeId: Ref,
    partner: Ref,
    warehouse: Ref,
    pickingPolicy: Option<Policy>,
    paymentTerm: Ref,
    pricelist: Ref,
    incoterm: Ref,
    lines: seq<Line>,
    other: map<string, Value>)

  /** The values of a create or write call. `name` and `typeId` are None when
      the key is absent; `typeId == Some(0)` is an explicit False. */
  datatype Vals = Vals(name: Option<Name>, typeId: Option<Ref>, other: map<string, Value>)

  /** Configuration the extension reads but never changes: the types, the
      partners, the types in search order, and the user's current company. */
  datatype Config = Config(
    types: map<Ref, SaleType>,
    partners: map<Ref, Partner>,
    typeOrder: seq<Ref>,
    company: Ref)

  /** A call into the base implementation of create or write. */
  datatype BaseCall = CreateCall(vals: Vals) | WriteCall(records: seq<Ref>, vals: Vals)

  /** The persistent state the extension changes: the stored orders, the next
      number of every numbering sequence, and the calls made to the base
      create and write, in order. */
  datatype Store = Store(orders: map<Ref, Order>, counters: map<Ref, nat>, calls: seq<BaseCall>)

  /** The type a reference reads as. */
  function TypeOf(types: map<Ref, SaleType>, t: Ref): SaleType
  {
    if t != 0 && t in types then types[t] else EMPTY_TYPE
  }

  /** The numbering sequence of a type, 0 when it has none. */
  function SequenceOf(types: map<Ref, SaleType>, t: Ref): Ref
  {
    TypeOf(types, t).sequence
  }

  /** Python truthiness of an optional record id. */
  predicate Truthy(r: Option<Ref>)
  {
    r.Some? && r.value != 0
  }

  /** The number a sequence issues next; a sequence never used starts at 1. */
  function NextNumber(counters: map<Ref, nat>, s: Ref): nat
  {
    if s in counters then counters[s] else 1
  }

  /** The counters once sequence `s` has issued one value. */
  function Advance(counters: map<Ref, nat>, s: Ref): (r: map<Ref, nat>)
    ensures NextNumber(r, s) == NextNumber(counters, s) + 1
    ensures forall s' :: s' != s ==> NextNumber(r, s') == NextNumber(counters, s')
  {
    counters[s := NextNumber(counters, s) + 1]
  }
}
