/** The order facade (`facade/OrderFacade.java`): orders read together with their
    entries, orders created or rewritten together with their entries, and the
    add-a-book-to-my-order operation. The writing operations run in one transaction
    each, so a failure leaves both tables as they were. */
module OrderFacades {
  import opened Common
  import opened Sorting
  import opened OrderModel
  import opened OrderStore
  import opened OrderServices
  import opened CatalogModel
  import opened CatalogStore
  import opened CatalogServices

  /** A null entry list stands for no entries. */
  function EntriesOrEmpty(entries: Option<seq<OrderEntry>>): seq<OrderEntry>
  {
    if entries.None? then [] else entries.value
  }

  /** The entry rows an order is saved with: its entries stamped with its id and
      numbered from the entry table's next id. */
  function SavedEntries(entries: Option<seq<OrderEntry>>, orderId: int, firstId: int): (r: seq<OrderEntry>)
    ensures |r| == |EntriesOrEmpty(entries)|
    ensures forall i :: 0 <= i < |r| ==> r[i] == EntriesOrEmpty(entries)[i].(orderId := orderId, id := firstId + i)
  {
    Numbered(Stamp(EntriesOrEmpty(entries), orderId), firstId)
  }

  /** The entry table after updateOrderWithEntries: the order's old entries removed,
      its new ones appended. */
  function ReplaceEntries(rows: seq<OrderEntry>, orderId: int, entries: Option<seq<OrderEntry>>, firstId: int): seq<OrderEntry>
  {
    Filter(rows, e => !BelongsTo(e, orderId)) + SavedEntries(entries, orderId, firstId)
  }

  /** Entry rows that all carry `orderId` are all of that order's entries. */
  lemma {:induction false} EntriesOfAll(rows: seq<OrderEntry>, orderId: int)
    requires forall e :: e in rows ==> e.orderId == orderId
    ensures EntriesOf(rows, orderId) == rows
  {
    if rows != [] {
      assert rows[0] in rows;
      assert forall e :: e in rows[1..] ==> e in rows;
      EntriesOfAll(rows[1..], orderId);
      assert rows == [rows[0]] + rows[1..];
      FilterAppend([rows[0]], rows[1..], e => BelongsTo(e, orderId));
    }
  }

  /** Entry rows none of which carries `orderId` contribute nothing to it. */
  lemma {:induction false} EntriesOfNone(rows: seq<OrderEntry>, orderId: int)
    requires forall e :: e in rows ==> e.orderId != orderId
    ensures EntriesOf(rows, orderId) == []
  {
    if rows != [] {
      assert rows[0] in rows;
      assert forall e :: e in rows[1..] ==> e in rows;
      EntriesOfNone(rows[1..], orderId);
      assert rows == [rows[0]] + rows[1..];
      FilterAppend([rows[0]], rows[1..], e => BelongsTo(e, orderId));
    }
  }

  /** After the replacement the order's entries are exactly the new ones, in order. */
  lemma ReplaceEntriesOwn(rows: seq<OrderEntry>, orderId: int, entries: Option<seq<OrderEntry>>, firstId: int)
    ensures EntriesOf(ReplaceEntries(rows, orderId, entries, firstId), orderId) == SavedEntries(entries, orderId, firstId)
  {
    var kept := Filter(rows, e => !BelongsTo(e, orderId));
    var added := SavedEntries(entries, orderId, firstId);
    FilterAppend(kept, added, e => BelongsTo(e, orderId));
    EntriesOfNone(kept, orderId);
    assert forall e :: e in added ==> e.orderId == orderId;
    EntriesOfAll(added, orderId);
  }

  /** ... and every other order keeps its entries. */
  lemma ReplaceEntriesOthers(rows: seq<OrderEntry>, orderId: int, entries: Option<seq<OrderEntry>>, firstId: int, other: int)
    requires other != orderId
    ensures EntriesOf(ReplaceEntries(rows, orderId, entries, firstId), other) == EntriesOf(rows, other)
  {
    var kept := Filter(rows, e => !BelongsTo(e, orderId));
    var added := SavedEntries(entries, orderId, firstId);
    FilterAppend(kept, added, e => BelongsTo(e, other));
    assert forall e :: e in added ==> e.orderId != other;
    EntriesOfNone(added, other);
    FilterOfFilter(rows, orderId, other);
  }

  /** Removing one order's entries leaves another order's entries as they were. */
  lemma {:induction false} FilterOfFilter(rows: seq<OrderEntry>, orderId: int, other: int)
    requires other != orderId
    ensures EntriesOf(Filter(rows, e => !BelongsTo(e, orderId)), other) == EntriesOf(rows, other)
  {
    if rows != [] {
      FilterOfFilter(rows[1..], orderId, other);
      assert rows == [rows[0]] + rows[1..];
      FilterAppend([rows[0]], rows[1..], e => !BelongsTo(e, orderId));
      FilterAppend([rows[0]], rows[1..], e => BelongsTo(e, other));
      var kept0 := Filter([rows[0]], e => !BelongsTo(e, orderId));
      FilterAppend(kept0, Filter(rows[1..], e => !BelongsTo(e, orderId)), e => BelongsTo(e, other));
    }
  }

  /** The entries with their ids cleared: what an order's entries are up to numbering. */
  function Unnumbered(es: seq<OrderEntry>): (r: seq<OrderEntry>)
    ensures |r| == |es|
    ensures forall i :: 0 <= i < |r| ==> r[i] == es[i].(id := 0)
  {
    if es == [] then [] else [es[0].(id := 0)] + Unnumbered(es[1..])
  }

  /** Rewriting an order's entries twice with the same list leaves the same entries
      as rewriting once, up to the ids the table hands out. */
  lemma ReplaceEntriesIdempotent(rows: seq<OrderEntry>, orderId: int, entries: Option<seq<OrderEntry>>, first1: int, first2: int)
    ensures Unnumbered(EntriesOf(ReplaceEntries(ReplaceEntries(rows, orderId, entries, first1), orderId, entries, first2), orderId)) ==
            Unnumbered(EntriesOf(ReplaceEntries(rows, orderId, entries, first1), orderId))
  {
    ReplaceEntriesOwn(rows, orderId, entries, first1);
    ReplaceEntriesOwn(ReplaceEntries(rows, orderId, entries, first1), orderId, entries, first2);
  }

  /** The order addBookToUserOrder creates when the user has no open order. */
  function FirstOrderFor(userId: int, book: Book, quantity: int, now: int, code: string): (o: Order)
    ensures o.id == 0 && o.status == Some(NEW) && o.userId == userId && o.currency == book.currency
    ensures o.entries == Some([OrderEntry(0, 0, book.id, quantity, book.price)])
    ensures o.totalPrice == EntriesTotal(o.entries.value)
  {
    var entry := OrderEntry(0, 0, book.id, quantity, book.price);
    assert EntriesTotal([entry]) == LineTotal(entry);
    NewOrder().(userId := userId, orderDate := now, orderCode := code, currency := book.currency,
                totalPrice := book.price * quantity, entries := Some([entry]))
  }

  class OrderFacade {
    const orderService: OrderService
    const entryService: OrderEntryService
    const bookService: BookService

    ghost predicate Valid()
      reads orderService.orderDao, orderService.entryDao, bookService.bookDao.db
    {
      orderService.Valid() && bookService.Valid() && entryService.dao == orderService.entryDao
    }

    constructor (orderService: OrderService, entryService: OrderEntryService, bookService: BookService)
      ensures this.orderService == orderService && this.entryService == entryService && this.bookService == bookService
    {
      this.orderService := orderService;
      this.entryService := entryService;
      this.bookService := bookService;
    }

    /** Every order once, newest first. */
    function GetAllOrders(): (r: seq<Order>)
      reads orderService.orderDao
      ensures r == orderService.GetAllOrders()
      ensures multiset(r) == multiset(orderService.orderDao.rows)
      ensures Sorted(r, NewerOrSame)
    {
      orderService.GetAllOrders()
    }

    /** One page of the newest-first listing; a negative LIMIT or OFFSET fails. */
    function GetOrdersPage(pageNumber: int, pageSize: int): (r: Result<seq<Order>>)
      reads orderService.orderDao
      ensures r == orderService.GetAllOrdersPage(pageNumber, pageSize)
      ensures r.Err? <==> pageSize < 0 || Wrap32(pageNumber * pageSize) < 0
      ensures r.Ok? ==> |r.value| <= pageSize
      ensures r.Ok? ==> forall k :: 0 <= k < |r.value| ==>
                Wrap32(pageNumber * pageSize) + k < |orderService.orderDao.rows| &&
                r.value[k] == GetAllOrders()[Wrap32(pageNumber * pageSize) + k]
    {
      orderService.GetAllOrdersPage(pageNumber, pageSize)
    }

    function GetOrdersCount(): (n: nat)
      reads orderService.orderDao
      ensures n == |orderService.orderDao.rows|
    {
      orderService.CountAllOrders()
    }

    /** The order with that id with its entries loaded, or nothing. */
    function GetOrderWithEntries(orderId: int): (r: Option<Order>)
      reads orderService.orderDao, orderService.entryDao
      ensures r.None? <==> forall o :: o in orderService.orderDao.rows ==> o.id != orderId
      ensures r.Some? ==> r.value.id == orderId &&
                          exists o :: o in orderService.orderDao.rows && r.value == o.(entries := r.value.entries)
      ensures r.Some? ==> r.value.entries == Some(EntriesOf(orderService.entryDao.rows, orderId))
    {
      match orderService.GetOrderById(orderId)
      case None => None
      case Some(o) => Some(o.(entries := Some(EntriesOf(orderService.entryDao.rows, orderId))))
    }

    /** The order with that code with its entries loaded, or nothing. */
    function GetOrderByCodeWithEntries(orderCode: string): (r: Option<Order>)
      reads orderService.orderDao, orderService.entryDao
      ensures r.None? <==> forall o :: o in orderService.orderDao.rows ==> o.orderCode != orderCode
      ensures r.Some? ==> r.value.orderCode == orderCode
      ensures r.Some? ==> exists o :: o in orderService.orderDao.rows && r.value == o.(entries := r.value.entries)
      ensures r.Some? ==> r.value.entries == Some(EntriesOf(orderService.entryDao.rows, r.value.id))
    {
      match orderService.GetOrderByCode(orderCode)
      case None => None
      case Some(o) => Some(o.(entries := Some(EntriesOf(orderService.entryDao.rows, o.id))))
    }

    function GetUserOrders(userId: int): (r: seq<Order>)
      reads orderService.orderDao
      ensures multiset(r) == multiset(Filter(orderService.orderDao.rows, o => OfUser(o, userId)))
      ensures forall o :: o in r <==> o in orderService.orderDao.rows && o.userId == userId
      ensures Sorted(r, NewerOrSame)
    {
      orderService.GetOrdersByUserId(userId)
    }

    function GetOrdersByPeriod(startDate: int, endDate: int): (r: seq<Order>)
      reads orderService.orderDao
      ensures multiset(r) == multiset(Filter(orderService.orderDao.rows, o => DatedWithin(o, startDate, endDate)))
      ensures forall o :: o in r <==> o in orderService.orderDao.rows && startDate <= o.orderDate <= endDate
      ensures Sorted(r, NewerOrSame)
    {
      orderService.GetOrdersByDateRange(startDate, endDate)
    }

    /** Saves an order's entries, when there are any, stamped with its id: the step
        shared by createOrderWithEntries and updateOrderWithEntries. */
    method SaveEntriesFor(orderId: int, entries: Option<seq<OrderEntry>>) returns (saved: seq<OrderEntry>)
      requires Valid()
      modifies orderService.entryDao
      ensures Valid()
      ensures saved == SavedEntries(entries, orderId, old(orderService.entryDao.nextId))
      ensures orderService.entryDao.rows == old(orderService.entryDao.rows) + saved
    {
      if entries.Some? && entries.value != [] {
        saved := entryService.CreateOrderEntries(Stamp(entries.value, orderId));
      } else {
        saved := [];
        assert orderService.entryDao.rows == orderService.entryDao.rows + [];
      }
    }

    /** Saves the order (status NEW when unset), then its entries stamped with the new
        id; the answer carries the saved entries when there were any. A taken order
        code fails and writes nothing. */
    method CreateOrderWithEntries(order: Order) returns (r: Result<Order>)
      requires Valid()
      modifies orderService.orderDao, orderService.entryDao
      ensures Valid()
      ensures (exists o :: o in old(orderService.orderDao.rows) && o.orderCode == order.orderCode) <==> r.Err?
      ensures r.Err? ==> r.error == DuplicateKey &&
                         orderService.orderDao.rows == old(orderService.orderDao.rows) &&
                         orderService.entryDao.rows == old(orderService.entryDao.rows)
      ensures r.Ok? ==> var id := old(orderService.orderDao.nextId);
                        var saved := SavedEntries(order.entries, id, old(orderService.entryDao.nextId));
                        orderService.orderDao.rows == old(orderService.orderDao.rows) + [AsRow(WithDefaultStatus(order).(id := id))] &&
                        orderService.entryDao.rows == old(orderService.entryDao.rows) + saved &&
                        r.value == WithDefaultStatus(order).(id := id, entries := if saved == [] then order.entries else Some(saved))
    {
      var created := orderService.CreateOrder(order);
      if created.Err? {
        return created;
      }
      var saved := SaveEntriesFor(created.value.id, order.entries);
      r := Ok(if saved == [] then created.value else created.value.(entries := Some(saved)));
    }

    /** Updates the order, then replaces its entries by the given ones stamped with its
        id. A failed update writes nothing. */
    method UpdateOrderWithEntries(order: Order) returns (r: Result<Order>)
      requires Valid()
      modifies orderService.orderDao, orderService.entryDao
      ensures Valid()
      ensures r.Err? <==> order.status.None? ||
                          (forall o :: o in old(orderService.orderDao.rows) ==> o.id != order.id) ||
                          (exists o :: o in old(orderService.orderDao.rows) && o.id != order.id && o.orderCode == order.orderCode)
      ensures r.Err? ==> orderService.orderDao.rows == old(orderService.orderDao.rows) &&
                         orderService.entryDao.rows == old(orderService.entryDao.rows)
      ensures r.Ok? ==> orderService.orderDao.rows == ReplaceOrder(old(orderService.orderDao.rows), AsRow(order))
      ensures r.Ok? ==> orderService.entryDao.rows ==
                          ReplaceEntries(old(orderService.entryDao.rows), order.id, order.entries, old(orderService.entryDao.nextId))
      ensures r.Ok? ==> var saved := SavedEntries(order.entries, order.id, old(orderService.entryDao.nextId));
                        EntriesOf(orderService.entryDao.rows, order.id) == saved &&
                        r.value == order.(entries := if saved == [] then order.entries else Some(saved))
    {
      var updated := orderService.UpdateOrder(order);
      if updated.Err? {
        return updated;
      }
      var _ := entryService.DeleteOrderEntriesByOrderId(order.id);
      var saved := SaveEntriesFor(order.id, order.entries);
      ReplaceEntriesOwn(old(orderService.entryDao.rows), order.id, order.entries, old(orderService.entryDao.nextId));
      r := Ok(if saved == [] then updated.value else updated.value.(entries := Some(saved)));
    }

    /** The order addBookToUserOrder adds to: the user's first open order, newest first. */
    function OpenOrderOf(userId: int): (r: Option<Order>)
      reads orderService.orderDao
      ensures r.None? <==> forall o :: o in orderService.orderDao.rows && o.userId == userId ==> !IsOpen(o)
      ensures r.Some? ==> r.value in orderService.orderDao.rows && r.value.userId == userId && IsOpen(r.value)
      ensures r.Some? ==> forall o :: o in orderService.orderDao.rows && o.userId == userId && IsOpen(o) ==>
                            NewerOrSame(r.value, o)
    {
      var mine := orderService.GetOrdersByUserId(userId);
      if FirstOpen(mine).None? then None
      else FirstOpenIsNewest(mine); FirstOpen(mine)
    }

    /** The merge branch of addBookToUserOrder: one more entry for the stored order and
        its total raised by that entry's line total. */
    method AddToOpenOrder(order: Order, book: Book, quantity: int) returns (merged: Order)
      requires Valid() && order in orderService.orderDao.rows
      modifies orderService.orderDao, orderService.entryDao
      ensures Valid()
      ensures merged == Raised(order, book.price, quantity)
      ensures orderService.entryDao.rows ==
                old(orderService.entryDao.rows) + [OrderEntry(old(orderService.entryDao.nextId), order.id, book.id, quantity, book.price)]
      ensures orderService.orderDao.rows == ReplaceOrder(old(orderService.orderDao.rows), merged)
      ensures TotalConsistent(order, old(orderService.entryDao.rows)) ==> TotalConsistent(merged, orderService.entryDao.rows)
    {
      StoredOrderUpdatable(orderService.orderDao.rows, orderService.orderDao.nextId, order);
      AddBookKeepsTotal(order, orderService.entryDao.rows, orderService.entryDao.nextId, book.id, quantity, book.price);
      var entry := OrderEntry(0, order.id, book.id, quantity, book.price);
      var _ := entryService.CreateOrderEntry(entry);
      merged := Raised(order, book.price, quantity);
      assert AsRow(merged) == merged;
      var _ := orderService.UpdateOrder(merged);
    }

    /** The creation branch of addBookToUserOrder: a new order of the user holding one
        entry for the book. It fails, writing nothing, only when the order code is taken. */
    method StartOrder(userId: int, book: Book, quantity: int, now: int, code: string) returns (r: Result<Order>)
      requires Valid()
      modifies orderService.orderDao, orderService.entryDao
      ensures Valid()
      ensures r.Err? <==> exists o :: o in old(orderService.orderDao.rows) && o.orderCode == code
      ensures r.Err? ==> r.error == DuplicateKey &&
                         orderService.orderDao.rows == old(orderService.orderDao.rows) &&
                         orderService.entryDao.rows == old(orderService.entryDao.rows)
      ensures r.Ok? ==> Started(r.value, userId, book, quantity, now, code,
                                old(orderService.orderDao.nextId), old(orderService.entryDao.nextId))
      ensures r.Ok? ==> orderService.entryDao.rows == old(orderService.entryDao.rows) + r.value.entries.value
      ensures r.Ok? ==> orderService.orderDao.rows == old(orderService.orderDao.rows) + [r.value.(entries := None)]
    {
      var order := FirstOrderFor(userId, book, quantity, now, code);
      FirstOrderSaved(order, book, quantity, old(orderService.orderDao.nextId), old(orderService.entryDao.nextId));
      r := CreateOrderWithEntries(order);
    }

    /** Adds `quantity` copies of the book to the user's first open order; with no open
        order, creates one holding just this entry, dated `now` and coded "ORD-" +
        `stamp`. An unknown book fails before anything is written. */
    method AddBookToUserOrder(userId: int, bookId: int, quantity: int, now: int, stamp: string) returns (r: Result<Order>)
      requires Valid()
      modifies orderService.orderDao, orderService.entryDao
      ensures Valid()
      ensures bookService.GetBookById(bookId).Err? ==> r == Err(NotFound)
      ensures r.Err? ==> (r.error == NotFound || r.error == DuplicateKey) &&
                         orderService.orderDao.rows == old(orderService.orderDao.rows) &&
                         orderService.entryDao.rows == old(orderService.entryDao.rows)
      ensures r.Ok? ==> r.value.userId == userId
      ensures bookService.GetBookById(bookId).Ok? ==>
                (r.Err? <==> old(OpenOrderOf(userId)).None? &&
                             exists o :: o in old(orderService.orderDao.rows) && o.orderCode == "ORD-" + stamp)
      ensures bookService.GetBookById(bookId).Ok? && r.Err? ==> r.error == DuplicateKey
      ensures bookService.GetBookById(bookId).Ok? && old(OpenOrderOf(userId)).Some? ==>
                var o := old(OpenOrderOf(userId)).value;
                r == Ok(Raised(o, bookService.GetBookById(bookId).value.price, quantity))
      ensures bookService.GetBookById(bookId).Ok? && old(OpenOrderOf(userId)).Some? ==>
                var o := old(OpenOrderOf(userId)).value;
                orderService.entryDao.rows == old(orderService.entryDao.rows) +
                  [OrderEntry(old(orderService.entryDao.nextId), o.id, bookId, quantity, bookService.GetBookById(bookId).value.price)]
      ensures old(OpenOrderOf(userId)).Some? && r.Ok? ==>
                orderService.orderDao.rows == ReplaceOrder(old(orderService.orderDao.rows), r.value)
      ensures old(OpenOrderOf(userId)).Some? && r.Ok? &&
              TotalConsistent(old(OpenOrderOf(userId)).value, old(orderService.entryDao.rows)) ==>
                TotalConsistent(r.value, orderService.entryDao.rows)
      ensures old(OpenOrderOf(userId)).None? && r.Ok? ==>
                Started(r.value, userId, bookService.GetBookById(bookId).value, quantity, now, "ORD-" + stamp,
                        old(orderService.orderDao.nextId), old(orderService.entryDao.nextId)) &&
                orderService.entryDao.rows == old(orderService.entryDao.rows) + r.value.entries.value &&
                orderService.orderDao.rows == old(orderService.orderDao.rows) + [r.value.(entries := None)]
    {
      var open := OpenOrderOf(userId);
      var found := bookService.GetBookById(bookId);
      if found.Err? {
        return Err(NotFound);
      }
      if open.None? {
        r := StartOrder(userId, found.value, quantity, now, "ORD-" + stamp);
        assert old(OpenOrderOf(userId)).None?;
      } else {
        var merged := AddToOpenOrder(open.value, found.value, quantity);
        r := Ok(merged);
        assert found == bookService.GetBookById(bookId) && open == old(OpenOrderOf(userId));
      }
    }

    method DeleteOrder(orderId: int) returns (deleted: bool)
      requires Valid()
      modifies orderService.orderDao, orderService.entryDao
      ensures Valid()
      ensures deleted <==> exists o :: o in old(orderService.orderDao.rows) && o.id == orderId
      ensures forall o :: o in orderService.orderDao.rows <==> o in old(orderService.orderDao.rows) && o.id != orderId
      ensures forall e :: e in orderService.entryDao.rows <==> e in old(orderService.entryDao.rows) && e.orderId != orderId
    {
      deleted := orderService.DeleteOrder(orderId);
    }
  }

  /** The order with its total raised by `quantity` copies at `price`. */
  function Raised(o: Order, price: int, quantity: int): Order
  {
    o.(totalPrice := o.totalPrice + price * quantity)
  }

  /** The first order of a user saves exactly one entry, for the book. */
  lemma FirstOrderSaved(o: Order, book: Book, quantity: int, orderId: int, firstId: int)
    requires o.entries == Some([OrderEntry(0, 0, book.id, quantity, book.price)]) && o.status.Some?
    ensures WithDefaultStatus(o) == o
    ensures SavedEntries(o.entries, orderId, firstId) == [OrderEntry(firstId, orderId, book.id, quantity, book.price)]
  {
  }

  /** The order addBookToUserOrder starts for a user with no open order: new, dated
      `now`, coded `code`, in the book's currency, holding one entry for the book whose
      line total is the order's total. */
  predicate Started(o: Order, userId: int, book: Book, quantity: int, now: int, code: string, orderId: int, entryId: int)
  {
    o.id == orderId && o.userId == userId && o.status == Some(NEW) && o.orderCode == code &&
    o.orderDate == now && o.currency == book.currency && o.totalPrice == quantity * book.price &&
    o.entries == Some([OrderEntry(entryId, orderId, book.id, quantity, book.price)])
  }

  /** The merge branch of addBookToUserOrder keeps an order's total equal to the sum of
      its entries when it was before. */
  lemma AddBookKeepsTotal(o: Order, rows: seq<OrderEntry>, entryId: int, bookId: int, quantity: int, price: int)
    ensures TotalConsistent(o, rows) ==>
              TotalConsistent(Raised(o, price, quantity), rows + [OrderEntry(entryId, o.id, bookId, quantity, price)])
  {
    if TotalConsistent(o, rows) {
      MergeKeepsTotal(o, rows, OrderEntry(entryId, o.id, bookId, quantity, price));
    }
  }

  /** An order created with entries, on an entry table holding none for its added id,
      reads back with exactly the saved entries. */
  lemma CreatedOrderReadsBack(rows: seq<OrderEntry>, entries: Option<seq<OrderEntry>>, orderId: int, firstId: int)
    requires forall e :: e in rows ==> e.orderId != orderId
    ensures EntriesOf(rows + SavedEntries(entries, orderId, firstId), orderId) == SavedEntries(entries, orderId, firstId)
  {
    var added := SavedEntries(entries, orderId, firstId);
    FilterAppend(rows, added, e => BelongsTo(e, orderId));
    EntriesOfNone(rows, orderId);
    assert forall e :: e in added ==> e.orderId == orderId;
    EntriesOfAll(added, orderId);
  }
}
