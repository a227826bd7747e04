/** Orders and their line items as values (`model/Order.java`,
    `model/OrderEntry.java`, `model/OrderStatus.java`). Money is an exact
    number of minor currency units. */
module OrderModel {
  import opened Common
  import opened Sorting

  datatype OrderStatus = NEW | IN_PROCESS | PAID | DECLINED

  /** The name of a `Currency` constant; the enum's other constants are not part of this model. */
  type Currency = string

  const USD: Currency := "USD"

  datatype OrderEntry = OrderEntry(id: int, orderId: int, bookId: int, quantity: int, unitPrice: int)

  /** `entries` is None while the list is not loaded (the Java field is null);
      `status` is None when a caller has set it to null. */
  datatype Order = Order(
    id: int,
    userId: int,
    orderDate: int,
    orderCode: string,
    totalPrice: int,
    currency: Currency,
    entries: Option<seq<OrderEntry>>,
    status: Option<OrderStatus>)

  /** `new Order()`: no id yet, currency USD, status NEW, entries not loaded. */
  function NewOrder(): (o: Order)
    ensures o.id == 0 && o.currency == USD && o.status == Some(NEW) && o.entries == None
  {
    Order(0, 0, 0, "", 0, USD, None, Some(NEW))
  }

  /** An order a user may still add books to: neither paid nor declined. */
  predicate IsOpen(o: Order)
  {
    o.status != Some(PAID) && o.status != Some(DECLINED)
  }

  function LineTotal(e: OrderEntry): int
  {
    e.quantity * e.unitPrice
  }

  /** The sum of quantity × unitPrice over a list of entries. */
  function EntriesTotal(es: seq<OrderEntry>): int
  {
    if es == [] then 0 else LineTotal(es[0]) + EntriesTotal(es[1..])
  }

  lemma {:induction false} EntriesTotalAppend(a: seq<OrderEntry>, b: seq<OrderEntry>)
    ensures EntriesTotal(a + b) == EntriesTotal(a) + EntriesTotal(b)
  {
    if a != [] {
      assert (a + b)[0] == a[0] && (a + b)[1..] == a[1..] + b;
      EntriesTotalAppend(a[1..], b);
    } else {
      assert a + b == b;
    }
  }

  predicate BelongsTo(e: OrderEntry, orderId: int)
  {
    e.orderId == orderId
  }

  /** The rows of the entry table that carry `orderId`, in table order. */
  function EntriesOf(rows: seq<OrderEntry>, orderId: int): (r: seq<OrderEntry>)
    ensures forall e :: e in r <==> e in rows && e.orderId == orderId
  {
    var r := Filter(rows, e => BelongsTo(e, orderId));
    forall e | e in rows && e.orderId == orderId
      ensures e in r
    {
      FilterComplete(rows, e => BelongsTo(e, orderId), e);
    }
    r
  }

  /** The caller discipline of the order subsystem: an order's total equals the sum
      of its entries' line totals. */
  predicate TotalConsistent(o: Order, entryRows: seq<OrderEntry>)
  {
    o.totalPrice == EntriesTotal(EntriesOf(entryRows, o.id))
  }

  /** The merge step of addBookToUserOrder keeps the total consistent: appending one
      entry of the order and raising the total by its line total. */
  lemma MergeKeepsTotal(o: Order, rows: seq<OrderEntry>, e: OrderEntry)
    requires TotalConsistent(o, rows)
    requires e.orderId == o.id
    ensures TotalConsistent(o.(totalPrice := o.totalPrice + e.quantity * e.unitPrice), rows + [e])
  {
    FilterAppend(rows, [e], x => BelongsTo(x, o.id));
    assert EntriesOf([e], o.id) == [e];
    EntriesTotalAppend(EntriesOf(rows, o.id), [e]);
    assert EntriesTotal([e]) == LineTotal(e);
  }

  /** Entries of other orders do not affect an order's total. */
  lemma OtherEntriesKeepTotal(o: Order, rows: seq<OrderEntry>, e: OrderEntry)
    requires e.orderId != o.id
    ensures TotalConsistent(o, rows + [e]) <==> TotalConsistent(o, rows)
  {
    FilterAppend(rows, [e], x => BelongsTo(x, o.id));
    assert EntriesOf([e], o.id) == [];
    assert EntriesOf(rows + [e], o.id) == EntriesOf(rows, o.id);
  }

  /** `entries.forEach(entry -> entry.setOrderId(orderId))`. */
  function Stamp(es: seq<OrderEntry>, orderId: int): (r: seq<OrderEntry>)
    ensures |r| == |es|
    ensures forall i :: 0 <= i < |r| ==> r[i] == es[i].(orderId := orderId)
  {
    if es == [] then [] else [es[0].(orderId := orderId)] + Stamp(es[1..], orderId)
  }

  /** ORDER BY order_date DESC. */
  predicate NewerOrSame(a: Order, b: Order)
  {
    a.orderDate >= b.orderDate
  }

  lemma NewerOrSameIsPreorder()
    ensures TotalPreorder(NewerOrSame)
  {
  }

  /** The first open order of a list (`stream().filter(open).findFirst()`). */
  function FirstOpen(orders: seq<Order>): (r: Option<Order>)
    ensures r.None? <==> forall o :: o in orders ==> !IsOpen(o)
    ensures r.Some? ==> r.value in orders && IsOpen(r.value)
  {
    if orders == [] then None
    else if IsOpen(orders[0]) then Some(orders[0])
    else FirstOpen(orders[1..])
  }

  /** FirstOpen picks the earliest open order of the list: every order before it is closed. */
  lemma {:induction false} FirstOpenIsFirst(orders: seq<Order>) returns (k: nat)
    requires FirstOpen(orders).Some?
    ensures k < |orders| && orders[k] == FirstOpen(orders).value
    ensures forall j :: 0 <= j < k ==> !IsOpen(orders[j])
  {
    if IsOpen(orders[0]) {
      k := 0;
    } else {
      var k' := FirstOpenIsFirst(orders[1..]);
      k := k' + 1;
    }
  }

  /** On a list sorted by date, newest first, the first open order is an open order
      that no other open order of the list is newer than. */
  lemma FirstOpenIsNewest(orders: seq<Order>)
    requires Sorted(orders, NewerOrSame)
    requires FirstOpen(orders).Some?
    ensures forall o :: o in orders && IsOpen(o) ==> FirstOpen(orders).value.orderDate >= o.orderDate
  {
    var f := FirstOpen(orders).value;
    var k := FirstOpenIsFirst(orders);
    forall o | o in orders && IsOpen(o)
      ensures f.orderDate >= o.orderDate
    {
      var i :| 0 <= i < |orders| && orders[i] == o;
      if i < k {
        assert false;
      } else if i > k {
        assert NewerOrSame(orders[k], orders[i]);
      }
    }
  }
}
