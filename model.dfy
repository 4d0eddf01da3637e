/**
 * The records of the three tables and the joined transaction view, with the
 * fields of the Go model structs. Money is exact (`real`) where the source has
 * `float64`; a time is an `int` chosen by the caller as the value of `now()`,
 * 0 standing for Go's zero `time.Time`.
 */
module Model {
  import opened Basics

  type Money = real
  type Time = int

  datatype Customer = Customer(
    id: int,
    name: string,
    balance: Money,
    createdAt: Time,
    updatedAt: Time,
    deletedAt: Option<Time>)

  datatype Item = Item(
    id: int,
    itemName: string,
    cost: Money,
    price: Money,
    sort: int,
    createdAt: Time,
    updatedAt: Time,
    deletedAt: Option<Time>)

  datatype Transaction = Transaction(
    id: int,
    customerId: int,
    itemId: int,
    qty: int,
    price: Money,
    amount: Money,
    createdAt: Time,
    updatedAt: Time,
    deletedAt: Option<Time>)

  /** A transaction joined with the names of its customer and its item. */
  datatype TransactionView = TransactionView(
    id: int,
    customerId: int,
    customerName: string,
    itemId: int,
    itemName: string,
    qty: int,
    price: Money,
    amount: Money,
    createdAt: Time,
    updatedAt: Time,
    deletedAt: Option<Time>)

  /** The narrowing of a view query; an id of 0 and an empty name mean "not given". */
  datatype TransactionFilter = TransactionFilter(id: int, customerName: string, itemName: string)

  /** Go's zero values of the structs, returned beside an error. */
  const ZeroCustomer := Customer(0, "", 0.0, 0, 0, None)
  const ZeroItem := Item(0, "", 0.0, 0.0, 0, 0, 0, None)
  const ZeroTransaction := Transaction(0, 0, 0, 0, 0.0, 0.0, 0, 0, None)
  const ZeroTransactionView := TransactionView(0, 0, "", 0, "", 0, 0.0, 0.0, 0, 0, None)

  /** A record is active while its soft-delete marker is unset. */
  predicate CustomerLive(c: Customer) { c.deletedAt.None? }
  predicate ItemLive(i: Item) { i.deletedAt.None? }
  predicate TransactionLive(t: Transaction) { t.deletedAt.None? }

  /** The ledger rule: a transaction's amount is its unit price times its quantity. */
  predicate AmountConsistent(t: Transaction) { t.amount == t.price * t.qty as real }
}
