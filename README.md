# Bookshop order, catalog, user and pool model

This project models the core of a Java web bookshop in Dafny: the order subsystem (order and order-entry
tables, their services, and the order facade that adds a book to a user's open order), the catalog
services over authors, books, genres and their link tables, the user table and user service, the
standalone JDBC connection pool, the paging arithmetic of `PageResponse`, and the role-based choice of
the page a user lands on after logging in.

Database tables are classes holding a `seq` of rows in insertion order plus the next value of the id
sequence; their methods change the rows in place and say exactly what the new table is. Rows are
datatypes. Money is an exact number of minor currency units. Clock readings, generated order codes, the
password encoder and the outcome of opening a JDBC connection are parameters. `ORDER BY` is a stable
insertion sort over a total preorder; `LOWER` is ASCII lower-casing; a search with `LIKE '%q%'` is
substring containment.

Modules, by file:

- `common.dfy`: `Option`, `Result` and the exceptions kept apart, Java `int` wrap-around, and filters and finders over sequences.
- `sorting.dfy`, `text.dfy`: the SQL sort order, lower-casing, string order, `String.split(",")`, and `Long.parseLong`.
- `page_response.dfy`: `PageResponse`.
- `order_model.dfy`, `order_store.dfy`, `order_service.dfy`, `order_facade.dfy`: the order subsystem.
- `catalog_model.dfy`, `catalog_store.dfy`, `book_store.dfy`, `catalog_service.dfy`, `book_facade.dfy`: authors, books and genres.
- `users.dfy`: the user table and user service.
- `connection_pool.dfy`: `ConnectionPool`.
- `auth_redirect.dfy`: `RoleBasedAuthenticationSuccessHandler`.

## Model

| member | source | states |
|---|---|---|
| OrderModel.NewOrder | src/main/java/com/example/bookshop/model/Order.java:25-34 | a new order has no id, currency USD, status NEW and no loaded entries |
| OrderModel.EntriesTotalAppend | src/main/java/com/example/bookshop/facade/OrderFacade.java:198-203 | the total of the lines of two lists is the sum of their totals |
| OrderModel.EntriesOf | src/main/java/com/example/bookshop/dao/impl/OrderEntryDaoImpl.java:46-49 | the entries of an order are exactly the stored rows that carry its id |
| OrderModel.MergeKeepsTotal | src/main/java/com/example/bookshop/facade/OrderFacade.java:198-203 | adding an entry of the order and raising its total by quantity × unit price keeps total = Σ quantity × unitPrice |
| OrderModel.OtherEntriesKeepTotal | src/main/java/com/example/bookshop/facade/OrderFacade.java:198-203 | an entry of another order does not affect whether an order's total is consistent |
| OrderModel.Stamp | src/main/java/com/example/bookshop/facade/OrderFacade.java:130-135 | stamping gives every entry the order's id and changes nothing else |
| OrderModel.NewerOrSameIsPreorder | src/main/java/com/example/bookshop/dao/impl/OrderDaoImpl.java:85-88 | `ORDER BY order_date DESC` is a total preorder |
| OrderModel.FirstOpen | src/main/java/com/example/bookshop/facade/OrderFacade.java:176-180 | none exactly when no order is open (neither PAID nor DECLINED); otherwise an open order of the list |
| OrderModel.FirstOpenIsFirst | src/main/java/com/example/bookshop/facade/OrderFacade.java:176-180 | the open order picked is the first open one in list order |
| OrderModel.FirstOpenIsNewest | src/main/java/com/example/bookshop/facade/OrderFacade.java:176-180 | on a list sorted newest first, the picked open order is the most recent open one |
| OrderStore.AsRow | src/main/java/com/example/bookshop/dao/impl/OrderDaoImpl.java:126-147 | the stored row is the order without its entry list |
| OrderStore.ReplaceOrder | src/main/java/com/example/bookshop/dao/impl/OrderDaoImpl.java:150-169 | a full update rewrites the rows with the order's id and no other |
| OrderStore.ReplaceEntry | src/main/java/com/example/bookshop/dao/impl/OrderEntryDaoImpl.java:95-112 | an entry update rewrites the rows with the entry's id and no other |
| OrderStore.Numbered | src/main/java/com/example/bookshop/dao/impl/OrderEntryDaoImpl.java:86-92 | batch saving gives the entries consecutive ids in list order |
| OrderStore.ReplaceOrderValid | src/main/java/com/example/bookshop/dao/impl/OrderDaoImpl.java:150-169 | an update with a status and a code no other order holds keeps ids and codes unique |
| OrderStore.ReplaceOrderRows | src/main/java/com/example/bookshop/dao/impl/OrderDaoImpl.java:150-169 | an update keeps every row's id in range, with a status and no entry list |
| OrderStore.ReplaceOrderCodes | src/main/java/com/example/bookshop/dao/impl/OrderDaoImpl.java:150-169 | an update with a code no other order holds keeps order codes unique |
| OrderStore.StoredOrderUpdatable | src/main/java/com/example/bookshop/dao/impl/OrderDaoImpl.java:150-169 | a stored order has a status and its own code, so writing it back cannot fail |
| OrderStore.FilterOrdersValid | src/main/java/com/example/bookshop/dao/impl/OrderDaoImpl.java:178-189 | deleting rows keeps the order table well formed |
| OrderStore.NewestFirst | src/main/java/com/example/bookshop/dao/impl/OrderDaoImpl.java:85-88 | `ORDER BY order_date DESC`: the same rows, newest first |
| OrderStore.OrderDao.constructor | src/main/java/com/example/bookshop/dao/impl/OrderDaoImpl.java:48-50 | the table starts empty, the id sequence at 1 |
| OrderStore.OrderDao.FindAll | src/main/java/com/example/bookshop/dao/impl/OrderDaoImpl.java:53-56 | every order once, newest first |
| OrderStore.OrderDao.FindAllPage | src/main/java/com/example/bookshop/dao/impl/OrderDaoImpl.java:59-63 | `LIMIT size OFFSET page*size` on `int`: fails for a negative size or offset, otherwise the slice of FindAll at the wrapped offset |
| OrderStore.OrderDao.CountAll | src/main/java/com/example/bookshop/dao/impl/OrderDaoImpl.java:66-70 | the number of orders |
| OrderStore.OrderDao.FindById | src/main/java/com/example/bookshop/dao/impl/OrderDaoImpl.java:73-82 | empty exactly when no row has the id, else a row with it |
| OrderStore.OrderDao.FindByOrderCode | src/main/java/com/example/bookshop/dao/impl/OrderDaoImpl.java:106-115 | empty exactly when no row has the code, else a row with it |
| OrderStore.OrderDao.FindByUserId | src/main/java/com/example/bookshop/dao/impl/OrderDaoImpl.java:85-88 | the user's orders, each stored row exactly once (same multiset as the filtered table), newest first |
| OrderStore.OrderDao.FindByUserIdAndStatusIn | src/main/java/com/example/bookshop/dao/impl/OrderDaoImpl.java:91-103 | an empty status list gives nothing; otherwise the user's orders with a listed status, each stored row exactly once, newest first |
| OrderStore.OrderDao.FindByDateRange | src/main/java/com/example/bookshop/dao/impl/OrderDaoImpl.java:118-123 | the orders dated within the closed range, each stored row exactly once, newest first |
| OrderStore.OrderDao.Save | src/main/java/com/example/bookshop/dao/impl/OrderDaoImpl.java:126-147 | a null status fails, a taken code fails, otherwise the order gets the next id and is appended |
| OrderStore.OrderDao.Update | src/main/java/com/example/bookshop/dao/impl/OrderDaoImpl.java:150-169 | null status, unknown id (zero rows) and a taken code fail with the table unchanged; otherwise the row is replaced |
| OrderStore.OrderDao.UpdateStatus | src/main/java/com/example/bookshop/dao/impl/OrderDaoImpl.java:172-175 | the affected-row count is 1 or 0 and only the status of the matching row changes |
| OrderStore.OrderDao.DeleteById | src/main/java/com/example/bookshop/dao/impl/OrderDaoImpl.java:178-189 | true exactly when a row had the id; afterwards no row has it and the others stay in order |
| OrderStore.OrderEntryDao.constructor | src/main/java/com/example/bookshop/dao/impl/OrderEntryDaoImpl.java:41-43 | the table starts empty, the id sequence at 1 |
| OrderStore.OrderEntryDao.FindByOrderId | src/main/java/com/example/bookshop/dao/impl/OrderEntryDaoImpl.java:46-49 | exactly the entries of the order, in table order |
| OrderStore.OrderEntryDao.FindById | src/main/java/com/example/bookshop/dao/impl/OrderEntryDaoImpl.java:52-61 | empty exactly when no entry has the id |
| OrderStore.OrderEntryDao.Save | src/main/java/com/example/bookshop/dao/impl/OrderEntryDaoImpl.java:64-83 | the entry gets a fresh id and is appended |
| OrderStore.OrderEntryDao.SaveAll | src/main/java/com/example/bookshop/dao/impl/OrderEntryDaoImpl.java:86-92 | the entries are saved one by one, in order, with consecutive fresh ids |
| OrderStore.OrderEntryDao.Update | src/main/java/com/example/bookshop/dao/impl/OrderEntryDaoImpl.java:95-112 | an unknown id fails with nothing changed; otherwise the row is replaced |
| OrderStore.OrderEntryDao.DeleteById | src/main/java/com/example/bookshop/dao/impl/OrderEntryDaoImpl.java:115-126 | true exactly when a row had the id; that row goes |
| OrderStore.OrderEntryDao.DeleteByOrderId | src/main/java/com/example/bookshop/dao/impl/OrderEntryDaoImpl.java:129-135 | returns the number of the order's entries and removes exactly those |
| OrderServices.WithDefaultStatus | src/main/java/com/example/bookshop/service/impl/OrderServiceImpl.java:76-82 | a null status becomes NEW, a set one is kept |
| OrderServices.OrderService.constructor | src/main/java/com/example/bookshop/service/impl/OrderServiceImpl.java:27-30 | keeps the two stores |
| OrderServices.OrderService.GetAllOrders | src/main/java/com/example/bookshop/service/impl/OrderServiceImpl.java:33-36 | every order once, newest first |
| OrderServices.OrderService.GetAllOrdersPage | src/main/java/com/example/bookshop/service/impl/OrderServiceImpl.java:39-42 | the store's page, at most pageSize orders |
| OrderServices.OrderService.CountAllOrders | src/main/java/com/example/bookshop/service/impl/OrderServiceImpl.java:45-48 | the number of orders |
| OrderServices.OrderService.GetOrderById | src/main/java/com/example/bookshop/service/impl/OrderServiceImpl.java:51-54 | empty exactly when no order has the id |
| OrderServices.OrderService.GetOrdersByUserId | src/main/java/com/example/bookshop/service/impl/OrderServiceImpl.java:57-60 | the store's answer: the user's orders, each once, newest first |
| OrderServices.OrderService.GetOrderByCode | src/main/java/com/example/bookshop/service/impl/OrderServiceImpl.java:63-66 | empty exactly when no order has the code |
| OrderServices.OrderService.GetOrdersByDateRange | src/main/java/com/example/bookshop/service/impl/OrderServiceImpl.java:69-72 | the store's answer: the orders in the range, each once, newest first |
| OrderServices.OrderService.CreateOrder | src/main/java/com/example/bookshop/service/impl/OrderServiceImpl.java:76-82 | saves the order with status NEW when unset; a taken code fails with nothing saved |
| OrderServices.OrderService.UpdateOrder | src/main/java/com/example/bookshop/service/impl/OrderServiceImpl.java:86-89 | the store update with all its failure cases |
| OrderServices.OrderService.DeleteOrder | src/main/java/com/example/bookshop/service/impl/OrderServiceImpl.java:93-99 | removes the order's entries even when no order row exists, then the row; true exactly when a row went |
| OrderServices.OrderEntryService.constructor | src/main/java/com/example/bookshop/service/impl/OrderEntryServiceImpl.java:23-25 | keeps the store |
| OrderServices.OrderEntryService.GetOrderEntriesByOrderId | src/main/java/com/example/bookshop/service/impl/OrderEntryServiceImpl.java:28-31 | exactly the order's entries, in table order |
| OrderServices.OrderEntryService.GetOrderEntryById | src/main/java/com/example/bookshop/service/impl/OrderEntryServiceImpl.java:34-37 | empty exactly when no entry has the id |
| OrderServices.OrderEntryService.CreateOrderEntry | src/main/java/com/example/bookshop/service/impl/OrderEntryServiceImpl.java:41-44 | appends the entry with a fresh id |
| OrderServices.OrderEntryService.CreateOrderEntries | src/main/java/com/example/bookshop/service/impl/OrderEntryServiceImpl.java:48-51 | appends the entries in order with consecutive ids |
| OrderServices.OrderEntryService.UpdateOrderEntry | src/main/java/com/example/bookshop/service/impl/OrderEntryServiceImpl.java:55-58 | an unknown id fails with nothing changed; otherwise the row is replaced |
| OrderServices.OrderEntryService.DeleteOrderEntry | src/main/java/com/example/bookshop/service/impl/OrderEntryServiceImpl.java:62-65 | true exactly when an entry had the id |
| OrderServices.OrderEntryService.DeleteOrderEntriesByOrderId | src/main/java/com/example/bookshop/service/impl/OrderEntryServiceImpl.java:69-72 | counts and removes exactly the order's entries |
| OrderFacades.SavedEntries | src/main/java/com/example/bookshop/facade/OrderFacade.java:130-138 | every supplied entry, in order, with the order's id and consecutive fresh ids; none for a null list |
| OrderFacades.EntriesOfAll | src/main/java/com/example/bookshop/facade/OrderFacade.java:130-138 | rows that all belong to the order are all its entries, in order |
| OrderFacades.EntriesOfNone | src/main/java/com/example/bookshop/facade/OrderFacade.java:130-138 | rows of other orders contribute no entries |
| OrderFacades.ReplaceEntriesOwn | src/main/java/com/example/bookshop/facade/OrderFacade.java:150-169 | after the delete and re-insert, the order's entries are exactly the supplied ones re-stamped |
| OrderFacades.ReplaceEntriesOthers | src/main/java/com/example/bookshop/facade/OrderFacade.java:150-169 | the entries of every other order are untouched |
| OrderFacades.FilterOfFilter | src/main/java/com/example/bookshop/service/impl/OrderEntryServiceImpl.java:69-72 | deleting one order's entries leaves every other order's entries as they were |
| OrderFacades.Unnumbered | src/main/java/com/example/bookshop/facade/OrderFacade.java:150-169 | the entries with their ids erased, for comparing two saves |
| OrderFacades.ReplaceEntriesIdempotent | src/main/java/com/example/bookshop/facade/OrderFacade.java:150-169 | a second update with the same list leaves the same entries, apart from their fresh ids, with no duplicates |
| OrderFacades.FirstOrderFor | src/main/java/com/example/bookshop/facade/OrderFacade.java:189-197 | the user's new order: status NEW, the book's currency, one entry, total = price × quantity |
| OrderFacades.FirstOrderSaved | src/main/java/com/example/bookshop/facade/OrderFacade.java:189-197 | saving that order keeps its status and stores exactly its one entry under the new order id |
| OrderFacades.AddBookKeepsTotal | src/main/java/com/example/bookshop/facade/OrderFacade.java:198-203 | raising an open order's total by price × quantity while adding the entry keeps the total consistent |
| OrderFacades.CreatedOrderReadsBack | src/main/java/com/example/bookshop/facade/OrderFacade.java:124-142 | reading a newly created order's entries back gives exactly the saved ones |
| OrderFacades.OrderFacade.constructor | src/main/java/com/example/bookshop/facade/OrderFacade.java:31-35 | keeps the three services |
| OrderFacades.OrderFacade.GetAllOrders | src/main/java/com/example/bookshop/facade/OrderFacade.java:41-43 | the service's listing: every order once, newest first |
| OrderFacades.OrderFacade.GetOrdersPage | src/main/java/com/example/bookshop/facade/OrderFacade.java:51-53 | the service's page: fails exactly for a negative size or wrapped offset; otherwise at most pageSize orders, the newest-first listing from the wrapped offset on |
| OrderFacades.OrderFacade.GetOrdersCount | src/main/java/com/example/bookshop/facade/OrderFacade.java:59-61 | the number of orders |
| OrderFacades.OrderFacade.GetOrderWithEntries | src/main/java/com/example/bookshop/facade/OrderFacade.java:68-79 | empty exactly when no order has the id; otherwise the stored order with exactly its stored entries |
| OrderFacades.OrderFacade.GetOrderByCodeWithEntries | src/main/java/com/example/bookshop/facade/OrderFacade.java:86-97 | empty exactly when no order has the code; otherwise the stored order with exactly its stored entries |
| OrderFacades.OrderFacade.GetUserOrders | src/main/java/com/example/bookshop/facade/OrderFacade.java:104-106 | the user's orders, each once, newest first |
| OrderFacades.OrderFacade.GetOrdersByPeriod | src/main/java/com/example/bookshop/facade/OrderFacade.java:114-116 | the orders in the period, each once, newest first |
| OrderFacades.OrderFacade.SaveEntriesFor | src/main/java/com/example/bookshop/facade/OrderFacade.java:130-138 | stamps the entries with the order id and appends them with fresh ids; nothing for a null or empty list |
| OrderFacades.OrderFacade.CreateOrderWithEntries | src/main/java/com/example/bookshop/facade/OrderFacade.java:123-142 | saves the order first (fresh id, default status), then its stamped entries in order; a taken code fails before any write |
| OrderFacades.OrderFacade.UpdateOrderWithEntries | src/main/java/com/example/bookshop/facade/OrderFacade.java:149-169 | a failing order update writes nothing; otherwise the order's entries are exactly the supplied ones re-stamped and the old ones are gone |
| OrderFacades.OrderFacade.OpenOrderOf | src/main/java/com/example/bookshop/facade/OrderFacade.java:176-180 | none exactly when the user has no open order; otherwise an open order of the user that no other open order of theirs is newer than |
| OrderFacades.OrderFacade.AddToOpenOrder | src/main/java/com/example/bookshop/facade/OrderFacade.java:198-203 | one entry is added to the open order, its total rises by price × quantity, no other row changes, and a consistent total stays consistent |
| OrderFacades.OrderFacade.StartOrder | src/main/java/com/example/bookshop/facade/OrderFacade.java:189-197 | with no open order, exactly one new order and one entry are created |
| OrderFacades.OrderFacade.AddBookToUserOrder | src/main/java/com/example/bookshop/facade/OrderFacade.java:174-205 | an unknown book fails with not found before any write; for a known book it fails exactly when the user has no open order and the code "ORD-" + stamp is taken, and then only with a duplicate key and nothing written; otherwise the book goes into the newest open order, or into a new order with total price × quantity |
| OrderFacades.OrderFacade.DeleteOrder | src/main/java/com/example/bookshop/facade/OrderFacade.java:212-216 | true exactly when the order existed; the order and all its entries are gone |
| Paging.CeilDiv | src/main/java/com/example/bookshop/dto/PageResponse.java:23 | integer ceiling division: (q−1)·b < a ≤ q·b |
| Paging.TotalPages | src/main/java/com/example/bookshop/dto/PageResponse.java:23 | 0 for a non-positive size or count, otherwise ⌈count / size⌉ |
| Paging.MakePage | src/main/java/com/example/bookshop/dto/PageResponse.java:18-26 | stores the four inputs; isFirst iff page 0; isLast iff page+1 ≥ totalPages |
| Paging.EmptyListingEveryPageLast | src/main/java/com/example/bookshop/dto/PageResponse.java:23-25 | with no elements every page is last and there are no pages |
| Paging.IsLastReachesEnd | src/main/java/com/example/bookshop/dto/PageResponse.java:23-25 | a page is last exactly when it reaches the last element |
| Sorting.Insert | src/main/java/com/example/bookshop/dao/impl/BookDaoImpl.java:108 | inserting adds exactly the element |
| Sorting.SortBy | src/main/java/com/example/bookshop/dao/impl/BookDaoImpl.java:108 | sorting permutes the rows |
| Sorting.InsertSorted | src/main/java/com/example/bookshop/dao/impl/BookDaoImpl.java:108 | inserting into a sorted list keeps it sorted |
| Sorting.SortBySorted | src/main/java/com/example/bookshop/dao/impl/BookDaoImpl.java:108 | the sorted rows are in order for any total preorder |
| Sorting.SortByMembers | src/main/java/com/example/bookshop/dao/impl/BookDaoImpl.java:108 | sorting keeps exactly the rows |
| Text.LowerChar | src/main/java/com/example/bookshop/dao/impl/AuthorDaoImpl.java:76 | ASCII upper-case letters become lower-case, other characters stay |
| Text.ToLower | src/main/java/com/example/bookshop/dao/impl/AuthorDaoImpl.java:76 | lower-cases every character in place |
| Text.ToLowerIdempotent | src/main/java/com/example/bookshop/dao/impl/AuthorDaoImpl.java:76 | lower-casing twice is lower-casing once |
| Text.StrLeTotal | src/main/java/com/example/bookshop/dao/impl/BookDaoImpl.java:108 | string order is total |
| Text.StrLeAntisymmetric | src/main/java/com/example/bookshop/dao/impl/BookDaoImpl.java:108 | string order is antisymmetric |
| Text.StrLeTransitive | src/main/java/com/example/bookshop/dao/impl/BookDaoImpl.java:108 | string order is transitive |
| Text.ContainsAt | src/main/java/com/example/bookshop/dao/impl/AuthorDaoImpl.java:74-78 | `LIKE '%q%'` holds exactly when q occurs at some position |
| Text.SplitAll | src/main/java/com/example/bookshop/facade/BookFacade.java:34 | splitting at commas gives at least one piece |
| Text.SplitAllJoin | src/main/java/com/example/bookshop/facade/BookFacade.java:34 | joining the pieces with commas gives back the string, and no piece holds a comma |
| Text.DropTrailingEmpty | src/main/java/com/example/bookshop/facade/BookFacade.java:34 | `split` drops exactly the trailing empty pieces |
| Text.ParseLong | src/main/java/com/example/bookshop/facade/BookFacade.java:37 | a parsed value is in the `long` range, and the text is non-empty and starts with no space |
| Text.NatToDigits | src/main/java/com/example/bookshop/facade/BookFacade.java:37 | the decimal digits of a number read back as that number |
| Text.ParseLongToString | src/main/java/com/example/bookshop/facade/BookFacade.java:37 | parsing the decimal text of any `long` gives it back |
| CatalogModel.AuthorLeIsPreorder | src/main/java/com/example/bookshop/dao/impl/AuthorDaoImpl.java:48 | `ORDER BY last_name, first_name` is a total preorder |
| CatalogModel.TitleLeIsPreorder | src/main/java/com/example/bookshop/dao/impl/BookDaoImpl.java:108 | `ORDER BY title` is a total preorder |
| CatalogModel.AuthorIds | src/main/java/com/example/bookshop/service/impl/BookServiceImpl.java:187-195 | a null author list gives no ids; otherwise the ids of the authors, in order |
| CatalogModel.IdsOf | src/main/java/com/example/bookshop/service/impl/BookServiceImpl.java:187-195 | the ids of the authors, in order |
| CatalogStore.AsBookRow | src/main/java/com/example/bookshop/dao/impl/BookDaoImpl.java:182-217 | the stored book row drops the genre and author lists |
| CatalogStore.UpdatedBookRow | src/main/java/com/example/bookshop/dao/impl/BookDaoImpl.java:220-247 | an update writes every column but the creation time |
| CatalogStore.ReplaceAuthor | src/main/java/com/example/bookshop/dao/impl/AuthorDaoImpl.java:134-150 | an update rewrites the rows with the author's id and no other |
| CatalogStore.ReplaceAuthorValid | src/main/java/com/example/bookshop/dao/impl/AuthorDaoImpl.java:134-150 | an update keeps the author table well formed |
| CatalogStore.ReplaceBook | src/main/java/com/example/bookshop/dao/impl/BookDaoImpl.java:220-247 | an update rewrites the rows with the book's id and no other |
| CatalogStore.FilterKeepsLinksUnique | src/main/java/com/example/bookshop/dao/impl/AuthorDaoImpl.java:165-168 | deleting links keeps the author links free of duplicates |
| CatalogStore.MultisetAtMostOne | src/main/java/com/example/bookshop/dao/impl/AuthorDaoImpl.java:159-162 | with no duplicate links, each link is stored at most once |
| CatalogStore.GenreIdByName | src/main/java/com/example/bookshop/dao/impl/BookDaoImpl.java:427-434 | empty exactly when no genre has the name, otherwise that genre's id |
| CatalogStore.GenreLinks | src/main/java/com/example/bookshop/dao/impl/BookDaoImpl.java:387-405 | at most one link per genre name |
| CatalogStore.NameLink | src/main/java/com/example/bookshop/dao/impl/BookDaoImpl.java:392-402 | a name links at most one genre |
| CatalogStore.GenreLinksExact | src/main/java/com/example/bookshop/dao/impl/BookDaoImpl.java:387-405 | a link is saved exactly when it is for the book and some listed name names its genre |
| CatalogStore.GenreLinkSource | src/main/java/com/example/bookshop/dao/impl/BookDaoImpl.java:387-405 | every saved link comes from a listed name |
| CatalogStore.GenreLinkKept | src/main/java/com/example/bookshop/dao/impl/BookDaoImpl.java:387-405 | every listed name of a known genre yields its link |
| CatalogStore.AuthorIdsOf | src/main/java/com/example/bookshop/dao/impl/BookDaoImpl.java:340-381 | exactly the ids of the authors linked to the book |
| CatalogStore.LinkedAuthors | src/main/java/com/example/bookshop/dao/impl/BookDaoImpl.java:80-103 | exactly the authors linked to the book, by last then first name |
| CatalogStore.SameAuthorCountMeans | src/main/java/com/example/bookshop/dao/impl/BookDaoImpl.java:340-381 | the count comparison holds exactly when the linked set equals the given ids and they hold no repeat |
| CatalogStore.CatalogDb.constructor | src/main/java/com/example/bookshop/dao/impl/BookDaoImpl.java:57-59 | the catalog starts with no authors, books or links and the given genres |
| CatalogStore.AuthorDao.constructor | src/main/java/com/example/bookshop/dao/impl/AuthorDaoImpl.java:42-44 | keeps the catalog |
| CatalogStore.AuthorDao.FindAll | src/main/java/com/example/bookshop/dao/impl/AuthorDaoImpl.java:47-50 | every author once, by last then first name |
| CatalogStore.AuthorDao.FindAllPage | src/main/java/com/example/bookshop/dao/impl/AuthorDaoImpl.java:53-57 | fails for a negative size or wrapped offset; otherwise the slice of FindAll |
| CatalogStore.AuthorDao.CountAll | src/main/java/com/example/bookshop/dao/impl/AuthorDaoImpl.java:60-64 | the number of authors |
| CatalogStore.AuthorDao.FindById | src/main/java/com/example/bookshop/dao/impl/AuthorDaoImpl.java:67-71 | empty exactly when no author has the id |
| CatalogStore.AuthorDao.FindByName | src/main/java/com/example/bookshop/dao/impl/AuthorDaoImpl.java:74-78 | exactly the authors whose lower-cased first or last name contains the lower-cased query, each stored row exactly once, in name order |
| CatalogStore.AuthorDao.FindByNamePage | src/main/java/com/example/bookshop/dao/impl/AuthorDaoImpl.java:81-89 | fails for a negative size or wrapped offset; otherwise the slice of FindByName |
| CatalogStore.AuthorDao.CountByName | src/main/java/com/example/bookshop/dao/impl/AuthorDaoImpl.java:92-97 | the number of matching authors |
| CatalogStore.AuthorDao.Save | src/main/java/com/example/bookshop/dao/impl/AuthorDaoImpl.java:106-131 | the author gets the next id and is appended; nothing else changes |
| CatalogStore.AuthorDao.Update | src/main/java/com/example/bookshop/dao/impl/AuthorDaoImpl.java:134-150 | an unknown id fails with nothing changed; otherwise the row is replaced |
| CatalogStore.AuthorDao.DeleteById | src/main/java/com/example/bookshop/dao/impl/AuthorDaoImpl.java:153-156 | true exactly when a row had the id; that row goes |
| CatalogStore.AuthorDao.AddBookToAuthor | src/main/java/com/example/bookshop/dao/impl/AuthorDaoImpl.java:159-162 | `ON CONFLICT DO NOTHING`: the link is added exactly when it was missing, and afterwards it is present |
| CatalogStore.AuthorDao.RemoveBookFromAuthor | src/main/java/com/example/bookshop/dao/impl/AuthorDaoImpl.java:165-168 | true exactly when the link existed; it is gone afterwards |
| BookStore.GenreLinksAppend | src/main/java/com/example/bookshop/dao/impl/BookDaoImpl.java:387-405 | the links of two name lists are the links of each, in order |
| BookStore.GenreLinksSnoc | src/main/java/com/example/bookshop/dao/impl/BookDaoImpl.java:392-402 | one more name adds its genre's link, or nothing for an unknown name |
| BookStore.WithGenreLink | src/main/java/com/example/bookshop/dao/impl/BookDaoImpl.java:280-291 | the link is present afterwards and is added once when it was missing |
| BookStore.WithGenreLinkIdempotent | src/main/java/com/example/bookshop/dao/impl/BookDaoImpl.java:280-291 | adding a genre link twice is adding it once |
| BookStore.ReplaceBookValid | src/main/java/com/example/bookshop/dao/impl/BookDaoImpl.java:220-247 | an update keeps the book table well formed |
| BookStore.ReplaceBookRows | src/main/java/com/example/bookshop/dao/impl/BookDaoImpl.java:220-247 | an update keeps every row's id in range and its lists unloaded |
| BookStore.BookDao.constructor | src/main/java/com/example/bookshop/dao/impl/BookDaoImpl.java:57-59 | keeps the catalog |
| BookStore.BookDao.Load | src/main/java/com/example/bookshop/dao/impl/BookDaoImpl.java:66-103 | the loaded book is the row with its genre names and exactly its linked authors in name order |
| BookStore.BookDao.LoadAll | src/main/java/com/example/bookshop/dao/impl/BookDaoImpl.java:106-112 | every row loaded, in order |
| BookStore.BookDao.SortedRows | src/main/java/com/example/bookshop/dao/impl/BookDaoImpl.java:106-112 | the rows permuted into title order |
| BookStore.BookDao.FindAll | src/main/java/com/example/bookshop/dao/impl/BookDaoImpl.java:106-112 | every book once, loaded, by title |
| BookStore.BookDao.FindAllPage | src/main/java/com/example/bookshop/dao/impl/BookDaoImpl.java:115-122 | fails for a negative size or wrapped offset; otherwise the title-ordered slice |
| BookStore.BookDao.CountAll | src/main/java/com/example/bookshop/dao/impl/BookDaoImpl.java:125-130 | the number of books |
| BookStore.BookDao.FindById | src/main/java/com/example/bookshop/dao/impl/BookDaoImpl.java:133-143 | empty exactly when no book has the id; otherwise that row, loaded |
| BookStore.BookDao.Save | src/main/java/com/example/bookshop/dao/impl/BookDaoImpl.java:182-217 | the book gets the next id and creation time and is appended, then its genre links are saved |
| BookStore.BookDao.SaveBookGenres | src/main/java/com/example/bookshop/dao/impl/BookDaoImpl.java:387-405 | null or empty names add nothing; otherwise one link per known genre name, in order |
| BookStore.BookDao.SaveGenreNames | src/main/java/com/example/bookshop/dao/impl/BookDaoImpl.java:391-404 | the loop adds one link per known genre name, in order |
| BookStore.BookDao.Update | src/main/java/com/example/bookshop/dao/impl/BookDaoImpl.java:220-247 | an unknown id fails with nothing changed; otherwise the row is rewritten and its genre links are exactly those of its names |
| BookStore.BookDao.DeleteById | src/main/java/com/example/bookshop/dao/impl/BookDaoImpl.java:250-259 | true exactly when a row had the id; that row goes |
| BookStore.BookDao.AddAuthorToBook | src/main/java/com/example/bookshop/dao/impl/BookDaoImpl.java:268-271 | a plain insert: an existing link is a duplicate-key failure, otherwise the link is appended |
| BookStore.BookDao.RemoveAuthorFromBook | src/main/java/com/example/bookshop/dao/impl/BookDaoImpl.java:274-277 | true exactly when the link existed; it is gone afterwards |
| BookStore.BookDao.AddGenreToBook | src/main/java/com/example/bookshop/dao/impl/BookDaoImpl.java:280-291 | the link is inserted only when it is missing |
| BookStore.BookDao.RemoveGenreFromBook | src/main/java/com/example/bookshop/dao/impl/BookDaoImpl.java:294-297 | true exactly when the link existed; it is gone afterwards |
| BookStore.ExistsMeansSameAuthors | src/main/java/com/example/bookshop/dao/impl/BookDaoImpl.java:340-381 | true exactly when the ids are non-empty without repeats and a book of the same lower-cased title has exactly those authors |
| BookStore.ExistsIgnoresOrder | src/main/java/com/example/bookshop/dao/impl/BookDaoImpl.java:340-381 | the answer does not depend on the order of the ids |
| CatalogServices.WithDetails | src/main/java/com/example/bookshop/service/impl/AuthorServiceImpl.java:100-115 | the details under the existing author's id |
| CatalogServices.AuthorService.constructor | src/main/java/com/example/bookshop/service/impl/AuthorServiceImpl.java:25-27 | keeps the store |
| CatalogServices.AuthorService.GetAllAuthors | src/main/java/com/example/bookshop/service/impl/AuthorServiceImpl.java:31-36 | every author once, in name order |
| CatalogServices.AuthorService.GetAllAuthorsPage | src/main/java/com/example/bookshop/service/impl/AuthorServiceImpl.java:40-46 | a negative size or offset fails; otherwise every field of the response is the PageResponse built from the store's page, the requested number and size, and the number of authors |
| CatalogServices.AuthorService.GetAuthorById | src/main/java/com/example/bookshop/service/impl/AuthorServiceImpl.java:50-59 | not found exactly when no author has the id |
| CatalogServices.AuthorService.SearchAuthorsByName | src/main/java/com/example/bookshop/service/impl/AuthorServiceImpl.java:63-68 | the store's search: the matching authors, each once, in name order |
| CatalogServices.AuthorService.SearchAuthorsByNamePage | src/main/java/com/example/bookshop/service/impl/AuthorServiceImpl.java:72-78 | a negative size or offset fails; otherwise every field of the response is the PageResponse built from the matching page, the requested number and size, and the number of matches |
| CatalogServices.AuthorService.CreateAuthor | src/main/java/com/example/bookshop/service/impl/AuthorServiceImpl.java:91-96 | appends the author with a fresh id |
| CatalogServices.AuthorService.UpdateAuthor | src/main/java/com/example/bookshop/service/impl/AuthorServiceImpl.java:100-115 | fails exactly for an unknown id, and only with not found; otherwise the stored author takes the five detail fields and keeps its id |
| CatalogServices.AuthorService.DeleteAuthor | src/main/java/com/example/bookshop/service/impl/AuthorServiceImpl.java:119-129 | not found for an unknown id; otherwise the author is gone |
| CatalogServices.AuthorService.AddBookToAuthor | src/main/java/com/example/bookshop/service/impl/AuthorServiceImpl.java:133-140 | fails exactly for an unknown author, only with not found and nothing written; otherwise the link is appended when missing and the table is left as it was when present |
| CatalogServices.AuthorService.RemoveBookFromAuthor | src/main/java/com/example/bookshop/service/impl/AuthorServiceImpl.java:144-151 | fails exactly for an unknown author, only with not found and nothing written; otherwise just that link is gone |
| CatalogServices.BookService.constructor | src/main/java/com/example/bookshop/service/impl/BookServiceImpl.java:31-33 | keeps the store |
| CatalogServices.BookService.GetAllBooks | src/main/java/com/example/bookshop/service/impl/BookServiceImpl.java:47-52 | every stored book loaded once, in title order |
| CatalogServices.BookService.GetAllBooksPage | src/main/java/com/example/bookshop/service/impl/BookServiceImpl.java:56-62 | a negative size or offset fails; otherwise every field of the response is the PageResponse built from the store's page, the requested number and size, and the number of books |
| CatalogServices.BookService.GetBookById | src/main/java/com/example/bookshop/service/impl/BookServiceImpl.java:66-75 | not found exactly when no book has the id; otherwise a stored row with that id, loaded with its genres and authors |
| CatalogServices.BookService.CreateBook | src/main/java/com/example/bookshop/service/impl/BookServiceImpl.java:111-122 | a book with the same title and author set is refused with nothing written; otherwise saved with a fresh id |
| CatalogServices.BookService.UpdateBook | src/main/java/com/example/bookshop/service/impl/BookServiceImpl.java:126-130 | unknown id fails with nothing written; otherwise the row is replaced and the genre links become the other books' links plus this book's current known genres |
| CatalogServices.BookService.DeleteBook | src/main/java/com/example/bookshop/service/impl/BookServiceImpl.java:134-144 | fails exactly for an unknown id, and only with not found; afterwards no book has the id and the other rows stay in order |
| CatalogServices.BookService.AddAuthorToBook | src/main/java/com/example/bookshop/service/impl/BookServiceImpl.java:157-164 | not found for an unknown book, a duplicate-key failure for an existing link, otherwise the link is appended |
| CatalogServices.BookService.RemoveAuthorFromBook | src/main/java/com/example/bookshop/service/impl/BookServiceImpl.java:168-175 | fails exactly for an unknown book, only with not found and nothing written; otherwise just that link is gone |
| CatalogServices.BookService.AddGenreToBook | src/main/java/com/example/bookshop/service/impl/BookServiceImpl.java:36-38 | the genre link is present and added at most once |
| CatalogServices.BookService.RemoveGenreFromBook | src/main/java/com/example/bookshop/service/impl/BookServiceImpl.java:41-43 | true exactly when the link existed; afterwards exactly that link is gone from the table |
| CatalogServices.DuplicateBookRefused | src/main/java/com/example/bookshop/service/impl/BookServiceImpl.java:111-122 | a book whose title matches a stored one up to case and whose authors are exactly that book's is a duplicate |
| CatalogServices.AuthorlessBookNeverDuplicate | src/main/java/com/example/bookshop/dao/impl/BookDaoImpl.java:340-345 | a book without authors is never a duplicate |
| BookFacades.PieceIdIsParse | src/main/java/com/example/bookshop/facade/BookFacade.java:35-40 | a blank piece gives no id; any other piece gives what `Long.parseLong` gives |
| BookFacades.ParsedIds | src/main/java/com/example/bookshop/facade/BookFacade.java:34-41 | at most one id per piece |
| BookFacades.ParsedIdsMembers | src/main/java/com/example/bookshop/facade/BookFacade.java:34-41 | an id is linked exactly when some piece parses to it |
| BookFacades.ParsedIdSource | src/main/java/com/example/bookshop/facade/BookFacade.java:34-41 | every id comes from some piece |
| BookFacades.ParsedIdKept | src/main/java/com/example/bookshop/facade/BookFacade.java:34-41 | every parsable piece yields its id |
| BookFacades.LinkAuthorsFresh | src/main/java/com/example/bookshop/facade/BookFacade.java:33-43 | distinct new author ids are all linked, in input order |
| BookFacades.RepeatedAuthorIdFails | src/main/java/com/example/bookshop/facade/BookFacade.java:33-43 | a repeated author id makes the plain insert fail |
| BookFacades.FailedPrefixDecides | src/main/java/com/example/bookshop/facade/BookFacade.java:33-43 | once a link fails, the remaining pieces change nothing |
| BookFacades.ParsedIdsStep | src/main/java/com/example/bookshop/facade/BookFacade.java:34-41 | one more piece adds its id, or nothing |
| BookFacades.ParsedIdsPrefix | src/main/java/com/example/bookshop/facade/BookFacade.java:34-41 | the ids of a prefix of the pieces are a prefix of all the ids |
| BookFacades.LinkAuthorsStaysFailed | src/main/java/com/example/bookshop/facade/BookFacade.java:33-43 | a failed link run stays failed with the links it had |
| BookFacades.LinkAuthorsStep | src/main/java/com/example/bookshop/facade/BookFacade.java:37 | one more id links it, or fails on a duplicate |
| BookFacades.LinkGenresStep | src/main/java/com/example/bookshop/facade/BookFacade.java:48 | one more genre id adds the link if missing |
| BookFacades.LinkGenresMeans | src/main/java/com/example/bookshop/facade/BookFacade.java:44-53 | afterwards the links are the old ones plus one per parsed genre id, none twice |
| BookFacades.BookFacade.constructor | src/main/java/com/example/bookshop/facade/BookFacade.java:15-17 | keeps the service |
| BookFacades.BookFacade.CreateBook | src/main/java/com/example/bookshop/facade/BookFacade.java:19-23 | sold count 0 and creation time now, then the service's create |
| BookFacades.BookFacade.LinkAuthorIds | src/main/java/com/example/bookshop/facade/BookFacade.java:33-43 | a null or empty list links nothing; otherwise the pieces' ids are linked in order until one fails |
| BookFacades.BookFacade.LinkAuthorId | src/main/java/com/example/bookshop/facade/BookFacade.java:37 | a link is added exactly when it was missing |
| BookFacades.BookFacade.LinkAuthorPieces | src/main/java/com/example/bookshop/facade/BookFacade.java:34-42 | the loop links the pieces' ids in order and stops at the first failure |
| BookFacades.BookFacade.LinkGenreIds | src/main/java/com/example/bookshop/facade/BookFacade.java:44-53 | a null or empty list links nothing; otherwise each parsed genre id is linked |
| BookFacades.BookFacade.LinkGenrePieces | src/main/java/com/example/bookshop/facade/BookFacade.java:45-52 | the loop links each parsed genre id in order |
| BookFacades.BookFacade.CreateBookWithRelations | src/main/java/com/example/bookshop/facade/BookFacade.java:30-56 | the book is created first; a duplicate book writes nothing; a failing author link leaves the book and earlier links stored |
| BookFacades.BookFacade.UpdateBook | src/main/java/com/example/bookshop/facade/BookFacade.java:58-74 | fails exactly for an unknown id, only with not found and nothing written; otherwise the argument book is written and the genre links become the other books' links plus its current known genres |
| BookFacades.SkipsUnparsablePieces | src/main/java/com/example/bookshop/facade/BookFacade.java:34-41 | a piece with a leading space and a non-number are skipped |
| Users.UpdateProfileRow | src/main/java/com/example/bookshop/dao/impl/UserDaoImpl.java:125-134 | the matching row takes username, email, hash and role, and keeps its id and creation time |
| Users.UpdateRoleRow | src/main/java/com/example/bookshop/dao/impl/UserDaoImpl.java:138-142 | only the role of the matching row changes |
| Users.SameIdsValid | src/main/java/com/example/bookshop/dao/impl/UserDaoImpl.java:125-142 | rewrites that keep every id keep the user table well formed |
| Users.FirstWhereIsFirst | src/main/java/com/example/bookshop/dao/impl/UserDaoImpl.java:48-73 | a finder returns the earliest matching row |
| Users.UserDao.constructor | src/main/java/com/example/bookshop/dao/impl/UserDaoImpl.java:41-43 | the table starts empty, the id sequence at 1 |
| Users.UserDao.FindById | src/main/java/com/example/bookshop/dao/impl/UserDaoImpl.java:48-53 | empty exactly when no user has the id |
| Users.UserDao.FindByEmail | src/main/java/com/example/bookshop/dao/impl/UserDaoImpl.java:58-63 | empty exactly when no user has the email |
| Users.UserDao.FindByUsername | src/main/java/com/example/bookshop/dao/impl/UserDaoImpl.java:68-73 | empty exactly when no user has the username |
| Users.UserDao.FindAll | src/main/java/com/example/bookshop/dao/impl/UserDaoImpl.java:78-82 | every row in table order |
| Users.UserDao.Insert | src/main/java/com/example/bookshop/dao/impl/UserDaoImpl.java:99-120 | the user gets the next id and, when it has none, the current time, and is appended |
| Users.UserDao.Update | src/main/java/com/example/bookshop/dao/impl/UserDaoImpl.java:125-134 | the profile columns of the matching row are rewritten; an unknown id changes nothing |
| Users.UserDao.Save | src/main/java/com/example/bookshop/dao/impl/UserDaoImpl.java:87-94 | a positive id updates, any other inserts |
| Users.UserDao.UpdateUserRole | src/main/java/com/example/bookshop/dao/impl/UserDaoImpl.java:138-142 | only the role of the matching row changes |
| Users.UserDao.Delete | src/main/java/com/example/bookshop/dao/impl/UserDaoImpl.java:147-151 | afterwards exactly the other users remain |
| Users.UsersPageAsWritten | src/main/java/com/example/bookshop/service/impl/UserServiceImpl.java:120-126 | the page with `int` arithmetic, failing where `subList` throws |
| Users.UsersPage | src/main/java/com/example/bookshop/service/impl/UserServiceImpl.java:120-126 | fails exactly for a negative offset or size; otherwise at most size users, all stored |
| Users.UsersPageIsSlice | src/main/java/com/example/bookshop/service/impl/UserServiceImpl.java:120-126 | for page, size ≥ 0: the users from page·size on, at most size of them, exactly size when there are enough, empty past the end |
| Users.UsersPagesTile | src/main/java/com/example/bookshop/service/impl/UserServiceImpl.java:120-126 | consecutive pages of one size join without gap or overlap |
| Users.UsersPageAsWrittenAgrees | src/main/java/com/example/bookshop/service/impl/UserServiceImpl.java:120-126 | without overflow the code as written gives the intended page |
| Users.UsersPageOffsetOverflows | src/main/java/com/example/bookshop/service/impl/UserServiceImpl.java:122 | page 65536 of size 32768 overflows the offset and throws where an empty page is meant |
| Users.UsersPageEndOverflows | src/main/java/com/example/bookshop/service/impl/UserServiceImpl.java:123 | page 1 of size `Integer.MAX_VALUE` overflows the end and throws where an empty page is meant |
| Users.UserService.constructor | src/main/java/com/example/bookshop/service/impl/UserServiceImpl.java:25-29 | keeps the store and the encoder |
| Users.UserService.FindByEmail | src/main/java/com/example/bookshop/service/impl/UserServiceImpl.java:34-44 | empty exactly when no user has the email |
| Users.UserService.FindByUsername | src/main/java/com/example/bookshop/service/impl/UserServiceImpl.java:46-56 | empty exactly when no user has the username |
| Users.UserService.FindById | src/main/java/com/example/bookshop/service/impl/UserServiceImpl.java:115-118 | empty exactly when no user has the id |
| Users.UserService.Register | src/main/java/com/example/bookshop/service/impl/UserServiceImpl.java:61-76 | a taken email fails with nothing saved; otherwise the user is saved with the encoded password and the current time |
| Users.UserService.UpdateProfile | src/main/java/com/example/bookshop/service/impl/UserServiceImpl.java:81-95 | an unknown id fails with nothing saved; otherwise the profile is written with the stored hash, whatever hash was supplied |
| Users.UserService.ChangePassword | src/main/java/com/example/bookshop/service/impl/UserServiceImpl.java:100-113 | an unknown id fails with nothing saved; otherwise the user is written with the encoded new password |
| Users.UserService.GetUsersPage | src/main/java/com/example/bookshop/service/impl/UserServiceImpl.java:120-126 | the page with exact bounds: fails only for negative inputs, at most size stored users |
| Users.UserService.CountUsers | src/main/java/com/example/bookshop/service/impl/UserServiceImpl.java:128-131 | the number of users |
| Users.UserService.DeleteUser | src/main/java/com/example/bookshop/service/impl/UserServiceImpl.java:133-136 | afterwards exactly the other users remain |
| Users.UserService.UpdateRole | src/main/java/com/example/bookshop/service/impl/UserServiceImpl.java:138-141 | only the role of the matching row changes |
| Users.ProfileUpdateKeepsPassword | src/main/java/com/example/bookshop/service/impl/UserServiceImpl.java:91-92 | the stored hash and creation time survive a profile update |
| ConnectionPools.Connection.constructor | src/main/java/com/example/bookshop/config/ConnectionPool.java:87-89 | a newly opened connection is open, in auto-commit mode |
| ConnectionPools.RemoveFirst | src/main/java/com/example/bookshop/config/ConnectionPool.java:128 | `List.remove` drops one occurrence when present, else nothing |
| ConnectionPools.Offer | src/main/java/com/example/bookshop/config/ConnectionPool.java:134 | `offer` queues at the tail when there is room and drops the connection otherwise |
| ConnectionPools.AcquireThenRelease | src/main/java/com/example/bookshop/config/ConnectionPool.java:110-128 | handing a connection out and taking it back restores the handed-out list |
| ConnectionPools.ReleaseLastAdded | src/main/java/com/example/bookshop/config/ConnectionPool.java:110-128 | removing a connection that was out only once gives back the exact list |
| ConnectionPools.OfferBounded | src/main/java/com/example/bookshop/config/ConnectionPool.java:134 | an offer never overfills the queue |
| ConnectionPools.ConnectionPool.OpenAll | src/main/java/com/example/bookshop/config/ConnectionPool.java:70-79 | one attempt per slot; failures are skipped, the rest queue up, all distinct and open |
| ConnectionPools.ConnectionPool.constructor | src/main/java/com/example/bookshop/config/ConnectionPool.java:40-54 | a pool of the given size with no connection out and at most that many idle |
| ConnectionPools.ConnectionPool.WithDefaultSize | src/main/java/com/example/bookshop/config/ConnectionPool.java:63-65 | a pool of size 10 |
| ConnectionPools.ConnectionPool.PoolSize | src/main/java/com/example/bookshop/config/ConnectionPool.java:176-178 | idle plus handed-out connections |
| ConnectionPools.ConnectionPool.AvailableConnections | src/main/java/com/example/bookshop/config/ConnectionPool.java:183-185 | the idle connections |
| ConnectionPools.ConnectionPool.UsedConnections | src/main/java/com/example/bookshop/config/ConnectionPool.java:190-192 | the handed-out connections |
| ConnectionPools.ConnectionPool.GetConnection | src/main/java/com/example/bookshop/config/ConnectionPool.java:97-119 | an empty queue or an interrupt fails with nothing changed; otherwise the head is handed out (or a replacement when closed) and the pool size is kept, or drops by one when the replacement fails |
| ConnectionPools.ConnectionPool.ReleaseConnection | src/main/java/com/example/bookshop/config/ConnectionPool.java:126-144 | null changes nothing; otherwise one occurrence leaves the used list, and an open connection gets auto-commit back and is offered to the queue |
| ConnectionPools.ConnectionPool.CloseConnections | src/main/java/com/example/bookshop/config/ConnectionPool.java:160-171 | every listed connection ends closed |
| ConnectionPools.ConnectionPool.CloseAllConnections | src/main/java/com/example/bookshop/config/ConnectionPool.java:149-153 | every tracked connection is closed and the used list emptied; the queue keeps its closed connections |
| AuthRedirect.TargetOf | src/main/java/com/example/bookshop/security/RoleBasedAuthenticationSuccessHandler.java:29-39 | the three role authorities and their pages; any other authority has none |
| AuthRedirect.RedirectTarget | src/main/java/com/example/bookshop/security/RoleBasedAuthenticationSuccessHandler.java:26-40 | one of the four pages; "/" when no authority is recognised |
| AuthRedirect.FirstRecognisedDecides | src/main/java/com/example/bookshop/security/RoleBasedAuthenticationSuccessHandler.java:28-40 | the first recognised authority decides the page |
| AuthRedirect.UnrecognisedSkipped | src/main/java/com/example/bookshop/security/RoleBasedAuthenticationSuccessHandler.java:28-40 | unrecognised authorities do not stop the scan |
| AuthRedirect.SelectRedirect | src/main/java/com/example/bookshop/security/RoleBasedAuthenticationSuccessHandler.java:26-40 | the loop with `break` computes the page of the first recognised authority |
| AuthRedirect.OnAuthenticationSuccess | src/main/java/com/example/bookshop/security/RoleBasedAuthenticationSuccessHandler.java:43 | the redirect is the context path followed by the chosen page |

## Left out

- Blocking, timeouts and threads in `ConnectionPool`: an empty idle queue fails at once, and an interrupt is an input. Concurrent callers are not modelled.
- `ConnectionPool` driver loading (`Class.forName`) and the `SQLException`s that `isClosed`, `getAutoCommit` and `setAutoCommit` may raise are not modelled.
- ConnectionPools.ConnectionPool.constructor: requires a positive size, because `ArrayBlockingQueue` rejects a capacity below 1 with an exception the model does not carry.
- `ConnectionPoolDataSource`, `DatabaseConfig` and `CustomUserDetailsService` are not part of this model.
- `@Transactional` rollback is not modelled. Every order-facade path fails before its first write or not at all, so no rollback is needed. `createBookWithRelations` has no transaction and keeps its partial writes, as modelled.
- Floating point: `OrderEntry.unitPrice` (a `Double`) and `BigDecimal` prices are exact integers of minor units. `PageResponse` uses integer ceiling division instead of `Math.ceil` on doubles.
- Clock and randomness: `now()` readings and the millisecond stamp of `"ORD-"` codes are parameters.
- Users.UserDao.Insert: uses one clock reading where `insert` may read the clock twice, once for the row and once for the returned object.
- SQL details: `LOWER` is ASCII only, so Unicode case folding and collation are not modelled. Wildcards inside a `LIKE` query are not modelled. Foreign keys and cascades are not modelled beyond the explicit cascade in `OrderServiceImpl.deleteOrder`.
- Null columns other than an order's status and a user's creation time are not modelled. Neither are `NullPointerException`s on null dates or prices.
- BookStore.BookDao.SaveGenreNames: a name listed twice is linked twice; a primary key on `book_genres` would instead reject the second insert.
- `Role.java` and `User.java` are not part of this model. The roles USER, MODERATOR and ADMIN are taken from the `ROLE_` authorities the login handler checks.
- The password encoder (BCrypt) is an opaque function parameter.
- Finders the DAO interfaces declare without an implementation here are not modelled. So are `findTopSellingBooks`, `findByGenre`, `findByTitle`, `findByIsbn`, `searchGenres` and the `BookFacade` pass-through methods, which are single delegations outside the modelled rules.
- `OrderService.updateOrderStatus` and `OrderService.getOrdersByUserIdAndStatuses` are declared in `service/OrderService.java` but `OrderServiceImpl` implements neither. The same goes for `OrderFacade.updateOrderWithEntriesIfExists`, `updateOrderStatus`, `getUserOrdersByStatuses` and `searchOrdersByPeriod`, which `OrderViewController` calls. None of them is modelled. The store's `updateStatus` is modelled, and it reports 0 rows for an unknown id.
- Order status transitions are not checked: like the source, the model writes any status over any other.
- Concurrent `addBookToUserOrder` calls for one user are not modelled. Calls run one after another, so the lost-update race on the total is not captured.
- Users.UsersPageAsWritten: `subList` throws `IndexOutOfBoundsException` for a negative start or an end past the size, and `IllegalArgumentException` when the start exceeds the end. The model reports both as the one error `IndexOutOfBounds`, so `UsersPageEndOverflows` does not tell which of the two Java raises there (it is `IllegalArgumentException`).
- Text.ParseLong: accepts ASCII digits only, while `Long.parseLong` also accepts other Unicode decimal digits through `Character.digit`.
- `BookDaoImpl.countByTitle`, `countByGenre`, `findByAuthorId`, `existsByTitleAndAuthorId` and `findAllGenres`, and `AuthorDaoImpl.findByBookId`, are implemented but not modelled: they are single filtered queries that no modelled rule depends on.
- Logging is not modelled.
- Java `long` overflow of ids and totals is not modelled: ids and money are unbounded integers. Paging offsets are the exception and are wrapped as `int`.

## Findings

| source | as written | input that shows it | evidently intended | confidence | as-written member | corrected member |
|---|---|---|---|---|---|---|
| src/main/java/com/example/bookshop/service/impl/UserServiceImpl.java:120-126 | `page * size` and `from + size` are computed in `int` and can wrap to a negative offset or to an end below the start, and `subList` then throws | page 65536, size 32768 (offset 2^31 wraps negative); page 1, size `Integer.MAX_VALUE` with at least one user (end wraps below start) | an empty page past the end | not executed | Users.UsersPageOffsetOverflows | Users.UsersPage |
