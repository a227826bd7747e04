/** The order and order-entry services (`service/impl/OrderServiceImpl.java`,
    `service/impl/OrderEntryServiceImpl.java`): thin layers over the two stores that
    add a default status on creation and a cascading delete. */
module OrderServices {
  import opened Common
  import opened Sorting
  import opened OrderModel
  import opened OrderStore

  /** `createOrder`'s default: a null status becomes NEW, a set one is kept. */
  function WithDefaultStatus(o: Order): (r: Order)
    ensures r.status.Some?
    ensures o.status.Some? ==> r == o
    ensures o.status.None? ==> r == o.(status := Some(NEW))
  {
    if o.status.None? then o.(status := Some(NEW)) else o
  }

  class OrderService {
    const orderDao: OrderDao
    const entryDao: OrderEntryDao

    ghost predicate Valid()
      reads orderDao, entryDao
    {
      orderDao.Valid() && entryDao.Valid()
    }

    constructor (orderDao: OrderDao, entryDao: OrderEntryDao)
      ensures this.orderDao == orderDao && this.entryDao == entryDao
    {
      this.orderDao := orderDao;
      this.entryDao := entryDao;
    }

    /** Every order, newest first. */
    function GetAllOrders(): (r: seq<Order>)
      reads orderDao
      ensures r == orderDao.FindAll()
      ensures multiset(r) == multiset(orderDao.rows) && Sorted(r, NewerOrSame)
    {
      orderDao.FindAll()
    }

    function GetAllOrdersPage(pageNumber: int, pageSize: int): (r: Result<seq<Order>>)
      reads orderDao
      ensures r == orderDao.FindAllPage(pageNumber, pageSize)
      ensures r.Ok? ==> |r.value| <= pageSize
    {
      orderDao.FindAllPage(pageNumber, pageSize)
    }

    function CountAllOrders(): (n: nat)
      reads orderDao
      ensures n == |orderDao.rows|
    {
      orderDao.CountAll()
    }

    function GetOrderById(id: int): (r: Option<Order>)
      reads orderDao
      ensures r == orderDao.FindById(id)
      ensures r.None? <==> forall o :: o in orderDao.rows ==> o.id != id
    {
      orderDao.FindById(id)
    }

    function GetOrdersByUserId(userId: int): (r: seq<Order>)
      reads orderDao
      ensures r == orderDao.FindByUserId(userId)
      ensures multiset(r) == multiset(Filter(orderDao.rows, o => OfUser(o, userId)))
      ensures forall o :: o in r <==> o in orderDao.rows && o.userId == userId
      ensures Sorted(r, NewerOrSame)
    {
      orderDao.FindByUserId(userId)
    }

    function GetOrderByCode(orderCode: string): (r: Option<Order>)
      reads orderDao
      ensures r == orderDao.FindByOrderCode(orderCode)
      ensures r.None? <==> forall o :: o in orderDao.rows ==> o.orderCode != orderCode
    {
      orderDao.FindByOrderCode(orderCode)
    }

    function GetOrdersByDateRange(startDate: int, endDate: int): (r: seq<Order>)
      reads orderDao
      ensures r == orderDao.FindByDateRange(startDate, endDate)
      ensures multiset(r) == multiset(Filter(orderDao.rows, o => DatedWithin(o, startDate, endDate)))
      ensures forall o :: o in r <==> o in orderDao.rows && startDate <= o.orderDate <= endDate
      ensures Sorted(r, NewerOrSame)
    {
      orderDao.FindByDateRange(startDate, endDate)
    }

    /** Saves the order with a default status of NEW; the entry table is not touched. */
    method CreateOrder(order: Order) returns (r: Result<Order>)
      requires Valid()
      modifies orderDao
      ensures Valid()
      ensures r == if exists o :: o in old(orderDao.rows) && o.orderCode == order.orderCode then Err(DuplicateKey)
                   else Ok(WithDefaultStatus(order).(id := old(orderDao.nextId)))
      ensures r.Err? ==> orderDao.rows == old(orderDao.rows) && orderDao.nextId == old(orderDao.nextId)
      ensures r.Ok? ==> orderDao.rows == old(orderDao.rows) + [AsRow(r.value)] && orderDao.nextId == old(orderDao.nextId) + 1
    {
      r := orderDao.Save(WithDefaultStatus(order));
    }

    method UpdateOrder(order: Order) returns (r: Result<Order>)
      requires Valid()
      modifies orderDao
      ensures Valid() && orderDao.nextId == old(orderDao.nextId)
      ensures r == if order.status.None? then Err(NullField)
                   else if forall o :: o in old(orderDao.rows) ==> o.id != order.id then Err(UpdateFailed)
                   else if exists o :: o in old(orderDao.rows) && o.id != order.id && o.orderCode == order.orderCode then Err(DuplicateKey)
                   else Ok(order)
      ensures r.Err? ==> orderDao.rows == old(orderDao.rows)
      ensures r.Ok? ==> orderDao.rows == ReplaceOrder(old(orderDao.rows), AsRow(order))
    {
      r := orderDao.Update(order);
    }

    /** Removes the order's entries, then the order row; the answer is whether an order
        row went. Entries that carry the id go even when no such order exists. */
    method DeleteOrder(id: int) returns (deleted: bool)
      requires Valid()
      modifies orderDao, entryDao
      ensures Valid()
      ensures deleted <==> exists o :: o in old(orderDao.rows) && o.id == id
      ensures entryDao.rows == Filter(old(entryDao.rows), e => !BelongsTo(e, id))
      ensures orderDao.rows == Filter(old(orderDao.rows), o => !HasOrderId(o, id))
      ensures forall e :: e in entryDao.rows <==> e in old(entryDao.rows) && e.orderId != id
      ensures forall o :: o in orderDao.rows <==> o in old(orderDao.rows) && o.id != id
    {
      var _ := entryDao.DeleteByOrderId(id);
      deleted := orderDao.DeleteById(id);
    }
  }

  class OrderEntryService {
    const dao: OrderEntryDao

    ghost predicate Valid()
      reads dao
    {
      dao.Valid()
    }

    constructor (dao: OrderEntryDao)
      ensures this.dao == dao
    {
      this.dao := dao;
    }

    function GetOrderEntriesByOrderId(orderId: int): (r: seq<OrderEntry>)
      reads dao
      ensures r == dao.FindByOrderId(orderId)
      ensures r == EntriesOf(dao.rows, orderId)
      ensures forall e :: e in r <==> e in dao.rows && e.orderId == orderId
    {
      dao.FindByOrderId(orderId)
    }

    function GetOrderEntryById(id: int): (r: Option<OrderEntry>)
      reads dao
      ensures r == dao.FindById(id)
      ensures r.None? <==> forall e :: e in dao.rows ==> e.id != id
    {
      dao.FindById(id)
    }

    method CreateOrderEntry(entry: OrderEntry) returns (saved: OrderEntry)
      requires Valid()
      modifies dao
      ensures Valid()
      ensures saved == entry.(id := old(dao.nextId))
      ensures dao.rows == old(dao.rows) + [saved] && dao.nextId == old(dao.nextId) + 1
    {
      saved := dao.Save(entry);
    }

    method CreateOrderEntries(entries: seq<OrderEntry>) returns (saved: seq<OrderEntry>)
      requires Valid()
      modifies dao
      ensures Valid()
      ensures saved == Numbered(entries, old(dao.nextId))
      ensures dao.rows == old(dao.rows) + saved && dao.nextId == old(dao.nextId) + |entries|
    {
      saved := dao.SaveAll(entries);
    }

    method UpdateOrderEntry(entry: OrderEntry) returns (r: Result<OrderEntry>)
      requires Valid()
      modifies dao
      ensures Valid() && dao.nextId == old(dao.nextId)
      ensures (forall e :: e in old(dao.rows) ==> e.id != entry.id) <==> r == Err(UpdateFailed)
      ensures r.Err? ==> r.error == UpdateFailed && dao.rows == old(dao.rows)
      ensures r.Ok? ==> r.value == entry && dao.rows == ReplaceEntry(old(dao.rows), entry)
    {
      r := dao.Update(entry);
    }

    method DeleteOrderEntry(id: int) returns (deleted: bool)
      requires Valid()
      modifies dao
      ensures Valid() && dao.nextId == old(dao.nextId)
      ensures deleted <==> exists e :: e in old(dao.rows) && e.id == id
      ensures dao.rows == Filter(old(dao.rows), e => !HasEntryId(e, id))
    {
      deleted := dao.DeleteById(id);
    }

    method DeleteOrderEntriesByOrderId(orderId: int) returns (n: int)
      requires Valid()
      modifies dao
      ensures Valid() && dao.nextId == old(dao.nextId)
      ensures n == |EntriesOf(old(dao.rows), orderId)|
      ensures dao.rows == Filter(old(dao.rows), e => !BelongsTo(e, orderId))
      ensures forall e :: e in dao.rows <==> e in old(dao.rows) && e.orderId != orderId
    {
      n := dao.DeleteByOrderId(orderId);
    }
  }
}
