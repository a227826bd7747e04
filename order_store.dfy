/** The `orders` and `order_entry` tables and the two DAOs that work on them
    (`dao/impl/OrderDaoImpl.java`, `dao/impl/OrderEntryDaoImpl.java`). A table is
    a sequence of rows in insertion order; `nextId` is the database sequence that
    hands out ids. */
module OrderStore {
  import opened Common
  import opened Sorting
  import opened OrderModel

  function OrderKey(o: Order): int { o.id }

  function EntryKey(e: OrderEntry): int { e.id }

  /** What an `orders` row holds of an Order: everything but its entries. */
  function AsRow(o: Order): (r: Order)
    ensures r.entries == None
    ensures r.(entries := o.entries) == o
  {
    o.(entries := None)
  }

  /** The table after a full-row UPDATE ... WHERE id = row.id. */
  function ReplaceOrder(rows: seq<Order>, row: Order): (r: seq<Order>)
    ensures |r| == |rows|
    ensures forall i :: 0 <= i < |r| ==> r[i] == if rows[i].id == row.id then row else rows[i]
  {
    if rows == [] then [] else [if rows[0].id == row.id then row else rows[0]] + ReplaceOrder(rows[1..], row)
  }

  function ReplaceEntry(rows: seq<OrderEntry>, row: OrderEntry): (r: seq<OrderEntry>)
    ensures |r| == |rows|
    ensures forall i :: 0 <= i < |r| ==> r[i] == if rows[i].id == row.id then row else rows[i]
  {
    if rows == [] then [] else [if rows[0].id == row.id then row else rows[0]] + ReplaceEntry(rows[1..], row)
  }

  /** The entries as `saveAll` returns them: the i-th input with the i-th generated id. */
  function Numbered(es: seq<OrderEntry>, firstId: int): (r: seq<OrderEntry>)
    ensures |r| == |es|
    ensures forall i :: 0 <= i < |r| ==> r[i] == es[i].(id := firstId + i)
  {
    if es == [] then [] else [es[0].(id := firstId)] + Numbered(es[1..], firstId + 1)
  }

  predicate HasOrderId(o: Order, id: int) { o.id == id }

  predicate OfUser(o: Order, userId: int) { o.userId == userId }

  predicate OfUserWithStatusIn(o: Order, userId: int, statuses: seq<OrderStatus>)
  {
    o.userId == userId && o.status.Some? && o.status.value in statuses
  }

  /** `order_date BETWEEN startDate AND endDate`: both ends included. */
  predicate DatedWithin(o: Order, startDate: int, endDate: int)
  {
    startDate <= o.orderDate <= endDate
  }

  /** ORDER BY order_date DESC over the selected rows: the same rows, newest first. */
  function NewestFirst(selected: seq<Order>): (r: seq<Order>)
    ensures multiset(r) == multiset(selected)
    ensures forall o :: o in r <==> o in selected
    ensures Sorted(r, NewerOrSame)
  {
    NewerOrSameIsPreorder();
    SortBySorted(selected, NewerOrSame);
    assert forall o :: o in SortBy(selected, NewerOrSame) <==> o in multiset(selected);
    SortBy(selected, NewerOrSame)
  }

  predicate HasEntryId(e: OrderEntry, id: int) { e.id == id }

  /** The shape of the `orders` table: ids from the sequence, ascending and unique;
      order codes unique (`order_code UNIQUE`); every stored row has a status. */
  ghost predicate OrderRowsValid(rows: seq<Order>, nextId: int)
  {
    1 <= nextId &&
    Ascending(rows, OrderKey) &&
    (forall o :: o in rows ==> 1 <= o.id < nextId && o.entries == None && o.status.Some?) &&
    (forall i, j :: 0 <= i < j < |rows| ==> rows[i].orderCode != rows[j].orderCode)
  }

  /** Replacing the row with `row.id` keeps the table well formed as long as no other
      row already carries the new order code. */
  lemma ReplaceOrderValid(rows: seq<Order>, nextId: int, row: Order)
    requires OrderRowsValid(rows, nextId)
    requires row.entries == None && row.status.Some?
    requires forall o :: o in rows && o.id != row.id ==> o.orderCode != row.orderCode
    ensures OrderRowsValid(ReplaceOrder(rows, row), nextId)
  {
    var r := ReplaceOrder(rows, row);
    assert Ascending(r, OrderKey) by {
      assert forall i :: 0 <= i < |r| ==> r[i].id == rows[i].id;
    }
    ReplaceOrderRows(rows, nextId, row);
    ReplaceOrderCodes(rows, nextId, row);
  }

  lemma ReplaceOrderRows(rows: seq<Order>, nextId: int, row: Order)
    requires forall o :: o in rows ==> 1 <= o.id < nextId && o.entries == None && o.status.Some?
    requires row.entries == None && row.status.Some?
    ensures forall o :: o in ReplaceOrder(rows, row) ==> 1 <= o.id < nextId && o.entries == None && o.status.Some?
  {
    var r := ReplaceOrder(rows, row);
    forall o | o in r
      ensures 1 <= o.id < nextId && o.entries == None && o.status.Some?
    {
      var i :| 0 <= i < |r| && r[i] == o;
      assert rows[i] in rows;
    }
  }

  lemma ReplaceOrderCodes(rows: seq<Order>, nextId: int, row: Order)
    requires OrderRowsValid(rows, nextId)
    requires forall o :: o in rows && o.id != row.id ==> o.orderCode != row.orderCode
    ensures forall i, j :: 0 <= i < j < |ReplaceOrder(rows, row)| ==>
              ReplaceOrder(rows, row)[i].orderCode != ReplaceOrder(rows, row)[j].orderCode
  {
    var r := ReplaceOrder(rows, row);
    forall i, j | 0 <= i < j < |r|
      ensures r[i].orderCode != r[j].orderCode
    {
      assert rows[i] in rows && rows[j] in rows;
    }
  }

  /** A stored order written back under its own id and code meets every condition of
      `update`: it has a status, its id exists and no other row has its code. */
  lemma StoredOrderUpdatable(rows: seq<Order>, nextId: int, o: Order)
    requires OrderRowsValid(rows, nextId)
    requires o in rows
    ensures o.status.Some?
    ensures forall x :: x in rows && x.id != o.id ==> x.orderCode != o.orderCode
  {
    forall x | x in rows && x.id != o.id
      ensures x.orderCode != o.orderCode
    {
      var i :| 0 <= i < |rows| && rows[i] == x;
      var j :| 0 <= j < |rows| && rows[j] == o;
      assert i != j;
    }
  }

  /** Deleting rows keeps the table well formed. */
  lemma FilterOrdersValid(rows: seq<Order>, nextId: int, p: Order -> bool)
    requires OrderRowsValid(rows, nextId)
    ensures OrderRowsValid(Filter(rows, p), nextId)
  {
    FilterAscending(rows, p, OrderKey);
    var kept := Filter(rows, p);
    forall i, j | 0 <= i < j < |kept|
      ensures kept[i].orderCode != kept[j].orderCode
    {
      assert kept[i] in rows && kept[j] in rows;
      var a :| 0 <= a < |rows| && rows[a] == kept[i];
      var b :| 0 <= b < |rows| && rows[b] == kept[j];
      assert OrderKey(kept[i]) < OrderKey(kept[j]);
    }
  }

  ghost predicate EntryRowsValid(rows: seq<OrderEntry>, nextId: int)
  {
    1 <= nextId &&
    Ascending(rows, EntryKey) &&
    (forall e :: e in rows ==> 1 <= e.id < nextId)
  }

  // ================================================================= orders

  class OrderDao {
    var rows: seq<Order>
    var nextId: int

    ghost predicate Valid()
      reads this
    {
      OrderRowsValid(rows, nextId)
    }

    constructor ()
      ensures Valid() && rows == [] && nextId == 1
    {
      rows := [];
      nextId := 1;
    }

    /** SELECT * FROM orders ORDER BY order_date DESC. */
    function FindAll(): (r: seq<Order>)
      reads this
      ensures multiset(r) == multiset(rows)
      ensures Sorted(r, NewerOrSame)
    {
      NewerOrSameIsPreorder();
      SortBySorted(rows, NewerOrSame);
      SortBy(rows, NewerOrSame)
    }

    /** The paged listing: LIMIT pageSize OFFSET pageNumber * pageSize, with the
        offset computed in `int` arithmetic. PostgreSQL rejects a negative LIMIT or
        OFFSET. */
    function FindAllPage(pageNumber: int, pageSize: int): (r: Result<seq<Order>>)
      reads this
      ensures r.Err? <==> pageSize < 0 || Wrap32(pageNumber * pageSize) < 0
      ensures r.Ok? ==> |r.value| <= pageSize
      ensures r.Ok? ==> forall k :: 0 <= k < |r.value| ==>
                Wrap32(pageNumber * pageSize) + k < |rows| &&
                r.value[k] == FindAll()[Wrap32(pageNumber * pageSize) + k]
    {
      var offset := Wrap32(pageNumber * pageSize);
      if pageSize < 0 || offset < 0 then Err(SqlFailure)
      else Ok(Slice(FindAll(), offset, pageSize))
    }

    /** SELECT COUNT(*) FROM orders. */
    function CountAll(): (n: nat)
      reads this
      ensures n == |FindAll()|
    {
      |rows|
    }

    function FindById(id: int): (r: Option<Order>)
      reads this
      ensures r.None? <==> forall o :: o in rows ==> o.id != id
      ensures r.Some? ==> r.value in rows && r.value.id == id
    {
      FirstWhere(rows, o => HasOrderId(o, id))
    }

    function FindByOrderCode(orderCode: string): (r: Option<Order>)
      reads this
      ensures r.None? <==> forall o :: o in rows ==> o.orderCode != orderCode
      ensures r.Some? ==> r.value in rows && r.value.orderCode == orderCode
    {
      FirstWhere(rows, (o: Order) => o.orderCode == orderCode)
    }

    /** SELECT * FROM orders WHERE user_id = ? ORDER BY order_date DESC: every matching
        row once, newest first. */
    function FindByUserId(userId: int): (r: seq<Order>)
      reads this
      ensures multiset(r) == multiset(Filter(rows, o => OfUser(o, userId)))
      ensures forall o :: o in r <==> o in rows && o.userId == userId
      ensures Sorted(r, NewerOrSame)
    {
      NewestFirst(Filter(rows, o => OfUser(o, userId)))
    }

    /** The user's orders whose status is one of `statuses`, newest first; nothing
        for an empty status list. */
    function FindByUserIdAndStatusIn(userId: int, statuses: seq<OrderStatus>): (r: seq<Order>)
      reads this
      ensures statuses == [] ==> r == []
      ensures statuses != [] ==> multiset(r) == multiset(Filter(rows, o => OfUserWithStatusIn(o, userId, statuses)))
      ensures statuses != [] ==> forall o :: o in r <==> o in rows && o.userId == userId && o.status.Some? && o.status.value in statuses
      ensures Sorted(r, NewerOrSame)
    {
      if statuses == [] then []
      else NewestFirst(Filter(rows, o => OfUserWithStatusIn(o, userId, statuses)))
    }

    /** WHERE order_date BETWEEN start AND end ORDER BY order_date DESC. */
    function FindByDateRange(startDate: int, endDate: int): (r: seq<Order>)
      reads this
      ensures multiset(r) == multiset(Filter(rows, o => DatedWithin(o, startDate, endDate)))
      ensures forall o :: o in r <==> o in rows && startDate <= o.orderDate <= endDate
      ensures Sorted(r, NewerOrSame)
    {
      NewestFirst(Filter(rows, o => DatedWithin(o, startDate, endDate)))
    }

    /** INSERT: a null status fails while the statement is built; a taken order code
        violates the unique constraint; otherwise the row is added under the next id,
        which is written back into the returned order. */
    method Save(order: Order) returns (r: Result<Order>)
      requires Valid()
      modifies this
      ensures Valid()
      ensures r == if order.status.None? then Err(NullField)
                   else if exists o :: o in old(rows) && o.orderCode == order.orderCode then Err(DuplicateKey)
                   else Ok(order.(id := old(nextId)))
      ensures r.Err? ==> rows == old(rows) && nextId == old(nextId)
      ensures r.Ok? ==> r.value == order.(id := old(nextId))
      ensures r.Ok? ==> rows == old(rows) + [AsRow(r.value)] && nextId == old(nextId) + 1
      ensures r.Ok? ==> forall o :: o in old(rows) ==> o.id != r.value.id
    {
      if order.status.None? {
        return Err(NullField);
      }
      if exists o :: o in rows && o.orderCode == order.orderCode {
        return Err(DuplicateKey);
      }
      var saved := order.(id := nextId);
      rows := rows + [AsRow(saved)];
      nextId := nextId + 1;
      r := Ok(saved);
    }

    /** UPDATE orders SET user_id, order_date, order_code, total_price, currency, status
        WHERE id = ?; zero updated rows is an error. */
    method Update(order: Order) returns (r: Result<Order>)
      requires Valid()
      modifies this
      ensures Valid() && nextId == old(nextId)
      ensures r == if order.status.None? then Err(NullField)
                   else if forall o :: o in old(rows) ==> o.id != order.id then Err(UpdateFailed)
                   else if exists o :: o in old(rows) && o.id != order.id && o.orderCode == order.orderCode then Err(DuplicateKey)
                   else Ok(order)
      ensures r.Err? ==> rows == old(rows)
      ensures r.Ok? ==> r.value == order && rows == ReplaceOrder(old(rows), AsRow(order))
    {
      var missing := forall o :: o in rows ==> o.id != order.id;
      var clash := exists o :: o in rows && o.id != order.id && o.orderCode == order.orderCode;
      r := if order.status.None? then Err(NullField)
           else if missing then Err(UpdateFailed)
           else if clash then Err(DuplicateKey)
           else Ok(order);
      if r.Ok? {
        ReplaceOrderValid(rows, nextId, AsRow(order));
        rows := ReplaceOrder(rows, AsRow(order));
      }
    }

    /** UPDATE orders SET status = ? WHERE id = ?, returning the number of rows changed. */
    method UpdateStatus(id: int, status: OrderStatus) returns (n: int)
      requires Valid()
      modifies this
      ensures Valid() && nextId == old(nextId)
      ensures n == (if exists o :: o in old(rows) && o.id == id then 1 else 0)
      ensures |rows| == |old(rows)|
      ensures forall i :: 0 <= i < |rows| ==>
                rows[i] == if old(rows)[i].id == id then old(rows)[i].(status := Some(status)) else old(rows)[i]
    {
      var found := FindById(id);
      if found.None? {
        return 0;
      }
      var row := found.value.(status := Some(status));
      forall i | 0 <= i < |rows| && rows[i].id == id
        ensures rows[i] == found.value
      {
        var k :| 0 <= k < |rows| && rows[k] == found.value;
        AscendingUnique(rows, OrderKey, i, k);
      }
      forall o | o in rows && o.id != id
        ensures o.orderCode != row.orderCode
      {
        var a :| 0 <= a < |rows| && rows[a] == o;
        var b :| 0 <= b < |rows| && rows[b] == found.value;
        assert a != b;
      }
      ReplaceOrderValid(rows, nextId, row);
      rows := ReplaceOrder(rows, row);
      n := 1;
    }

    /** DELETE FROM orders WHERE id = ?; true when a row went. */
    method DeleteById(id: int) returns (deleted: bool)
      requires Valid()
      modifies this
      ensures Valid() && nextId == old(nextId)
      ensures deleted <==> exists o :: o in old(rows) && o.id == id
      ensures rows == Filter(old(rows), o => !HasOrderId(o, id))
      ensures forall o :: o in rows <==> o in old(rows) && o.id != id
    {
      deleted := exists o :: o in rows && o.id == id;
      var p := (o: Order) => !HasOrderId(o, id);
      FilterOrdersValid(rows, nextId, p);
      forall o | o in rows && o.id != id
        ensures o in Filter(rows, p)
      {
        FilterComplete(rows, p, o);
      }
      rows := Filter(rows, p);
    }
  }

  // ================================================================= order entries

  class OrderEntryDao {
    var rows: seq<OrderEntry>
    var nextId: int

    ghost predicate Valid()
      reads this
    {
      EntryRowsValid(rows, nextId)
    }

    constructor ()
      ensures Valid() && rows == [] && nextId == 1
    {
      rows := [];
      nextId := 1;
    }

    /** SELECT * FROM order_entry WHERE order_id = ? (table order). */
    function FindByOrderId(orderId: int): (r: seq<OrderEntry>)
      reads this
      ensures r == EntriesOf(rows, orderId)
      ensures forall e :: e in r <==> e in rows && e.orderId == orderId
    {
      EntriesOf(rows, orderId)
    }

    function FindById(id: int): (r: Option<OrderEntry>)
      reads this
      ensures r.None? <==> forall e :: e in rows ==> e.id != id
      ensures r.Some? ==> r.value in rows && r.value.id == id
    {
      FirstWhere(rows, e => HasEntryId(e, id))
    }

    /** INSERT under the next id, written back into the returned entry. */
    method Save(entry: OrderEntry) returns (saved: OrderEntry)
      requires Valid()
      modifies this
      ensures Valid()
      ensures saved == entry.(id := old(nextId))
      ensures rows == old(rows) + [saved] && nextId == old(nextId) + 1
      ensures forall e :: e in old(rows) ==> e.id != saved.id
    {
      saved := entry.(id := nextId);
      rows := rows + [saved];
      nextId := nextId + 1;
    }

    /** Saves the entries one by one in list order. */
    method SaveAll(entries: seq<OrderEntry>) returns (saved: seq<OrderEntry>)
      requires Valid()
      modifies this
      ensures Valid()
      ensures saved == Numbered(entries, old(nextId))
      ensures rows == old(rows) + saved && nextId == old(nextId) + |entries|
    {
      saved := [];
      var i := 0;
      while i < |entries|
        invariant 0 <= i <= |entries|
        invariant Valid()
        invariant |saved| == i && forall k :: 0 <= k < i ==> saved[k] == entries[k].(id := old(nextId) + k)
        invariant rows == old(rows) + saved && nextId == old(nextId) + i
      {
        var e := Save(entries[i]);
        saved := saved + [e];
        i := i + 1;
      }
    }

    /** UPDATE order_entry SET order_id, book_id, quantity, unit_price WHERE id = ?;
        zero updated rows is an error. */
    method Update(entry: OrderEntry) returns (r: Result<OrderEntry>)
      requires Valid()
      modifies this
      ensures Valid() && nextId == old(nextId)
      ensures (forall e :: e in old(rows) ==> e.id != entry.id) <==> r == Err(UpdateFailed)
      ensures r.Err? ==> r.error == UpdateFailed && rows == old(rows)
      ensures r.Ok? ==> r.value == entry && rows == ReplaceEntry(old(rows), entry)
    {
      if forall e :: e in rows ==> e.id != entry.id {
        return Err(UpdateFailed);
      }
      rows := ReplaceEntry(rows, entry);
      r := Ok(entry);
    }

    /** DELETE FROM order_entry WHERE id = ?; true when a row went. */
    method DeleteById(id: int) returns (deleted: bool)
      requires Valid()
      modifies this
      ensures Valid() && nextId == old(nextId)
      ensures deleted <==> exists e :: e in old(rows) && e.id == id
      ensures rows == Filter(old(rows), e => !HasEntryId(e, id))
    {
      deleted := exists e :: e in rows && e.id == id;
      FilterAscending(rows, e => !HasEntryId(e, id), EntryKey);
      rows := Filter(rows, e => !HasEntryId(e, id));
    }

    /** DELETE FROM order_entry WHERE order_id = ?, returning how many rows went. */
    method DeleteByOrderId(orderId: int) returns (n: int)
      requires Valid()
      modifies this
      ensures Valid() && nextId == old(nextId)
      ensures n == |EntriesOf(old(rows), orderId)|
      ensures rows == Filter(old(rows), e => !BelongsTo(e, orderId))
      ensures forall e :: e in rows <==> e in old(rows) && e.orderId != orderId
    {
      n := |EntriesOf(rows, orderId)|;
      var p := (e: OrderEntry) => !BelongsTo(e, orderId);
      FilterAscending(rows, p, EntryKey);
      forall e | e in rows && e.orderId != orderId
        ensures e in Filter(rows, p)
      {
        FilterComplete(rows, p, e);
      }
      rows := Filter(rows, p);
    }
  }
}
