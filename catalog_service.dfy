/** The author and book services (`service/impl/AuthorServiceImpl.java`,
    `service/impl/BookServiceImpl.java`): existence checks that turn a missing row into
    NotFound, the duplicate-book check on creation, and paged listings wrapped in a
    page response. */
module CatalogServices {
  import opened Common
  import opened Sorting
  import opened CatalogModel
  import opened CatalogStore
  import opened BookStore
  import opened Paging

  /** `updateAuthor` copies every editable field of the details onto the stored author,
      so the result is the details under the stored id. */
  function WithDetails(existing: Author, details: Author): (a: Author)
    ensures a == details.(id := existing.id)
  {
    existing.(firstName := details.firstName, lastName := details.lastName, bio := details.bio,
              birthdate := details.birthdate, country := details.country)
  }

  class AuthorService {
    const authorDao: AuthorDao

    ghost predicate Valid()
      reads authorDao.db
    {
      authorDao.Valid()
    }

    constructor (authorDao: AuthorDao)
      ensures this.authorDao == authorDao
    {
      this.authorDao := authorDao;
    }

    function GetAllAuthors(): (r: seq<Author>)
      reads authorDao.db
      ensures multiset(r) == multiset(authorDao.db.authors) && Sorted(r, AuthorLe)
    {
      authorDao.FindAll()
    }

    /** One page of all authors with the total count; a negative LIMIT or OFFSET fails. */
    function GetAllAuthorsPage(pageNumber: int, pageSize: int): (r: Result<PageResponse<Author>>)
      requires IsInt32(pageNumber) && IsInt32(pageSize)
      reads authorDao.db
      ensures r.Err? <==> pageSize < 0 || Wrap32(pageNumber * pageSize) < 0
      ensures r.Ok? ==> r.value.content == authorDao.FindAllPage(pageNumber, pageSize).value
      ensures r.Ok? ==> |r.value.content| <= pageSize && r.value.totalElements == |authorDao.db.authors|
      ensures r.Ok? ==> r.value.pageNumber == pageNumber && r.value.pageSize == pageSize
      ensures r.Ok? ==> r.value.totalPages == TotalPages(pageSize, |authorDao.db.authors|)
      ensures r.Ok? ==> r.value == MakePage(r.value.content, pageNumber, pageSize, |authorDao.db.authors|)
    {
      match authorDao.FindAllPage(pageNumber, pageSize)
      case Err(e) => Err(e)
      case Ok(content) => Ok(MakePage(content, pageNumber, pageSize, authorDao.CountAll()))
    }

    /** The stored author, or NotFound. */
    function GetAuthorById(id: int): (r: Result<Author>)
      reads authorDao.db
      ensures r.Err? <==> forall a :: a in authorDao.db.authors ==> a.id != id
      ensures r.Err? ==> r.error == NotFound
      ensures r.Ok? ==> r.value in authorDao.db.authors && r.value.id == id
    {
      match authorDao.FindById(id)
      case None => Err(NotFound)
      case Some(a) => Ok(a)
    }

    function SearchAuthorsByName(name: string): (r: seq<Author>)
      reads authorDao.db
      ensures multiset(r) == multiset(Filter(authorDao.db.authors, (a: Author) => authorDao.NameMatches(a, name)))
      ensures forall a :: a in r <==> a in authorDao.db.authors && authorDao.NameMatches(a, name)
      ensures Sorted(r, AuthorLe)
    {
      authorDao.FindByName(name)
    }

    /** One page of the name search with the number of matches. */
    function SearchAuthorsByNamePage(name: string, pageNumber: int, pageSize: int): (r: Result<PageResponse<Author>>)
      requires IsInt32(pageNumber) && IsInt32(pageSize)
      reads authorDao.db
      ensures r.Err? <==> pageSize < 0 || Wrap32(pageNumber * pageSize) < 0
      ensures r.Ok? ==> r.value.content == authorDao.FindByNamePage(name, pageNumber, pageSize).value
      ensures r.Ok? ==> |r.value.content| <= pageSize
      ensures r.Ok? ==> r.value.totalElements == |SearchAuthorsByName(name)|
      ensures r.Ok? ==> r.value.pageNumber == pageNumber && r.value.pageSize == pageSize
      ensures r.Ok? ==> r.value.totalPages == TotalPages(pageSize, |SearchAuthorsByName(name)|)
      ensures r.Ok? ==> r.value == MakePage(r.value.content, pageNumber, pageSize, |SearchAuthorsByName(name)|)
    {
      match authorDao.FindByNamePage(name, pageNumber, pageSize)
      case Err(e) => Err(e)
      case Ok(content) => Ok(MakePage(content, pageNumber, pageSize, authorDao.CountByName(name)))
    }

    method CreateAuthor(author: Author) returns (saved: Author)
      requires Valid()
      modifies authorDao.db
      ensures Valid()
      ensures saved == author.(id := old(authorDao.db.nextAuthorId))
      ensures authorDao.db.authors == old(authorDao.db.authors) + [saved]
      ensures unchanged(authorDao.db`books, authorDao.db`genres, authorDao.db`bookAuthors, authorDao.db`bookGenres)
    {
      saved := authorDao.Save(author);
    }

    /** NotFound for an unknown id; otherwise the stored author takes the details' names,
        bio, birthdate and country and keeps its id. */
    method UpdateAuthor(id: int, details: Author) returns (r: Result<Author>)
      requires Valid()
      modifies authorDao.db
      ensures Valid()
      ensures (forall a :: a in old(authorDao.db.authors) ==> a.id != id) <==> r == Err(NotFound)
      ensures r.Err? ==> r.error == NotFound
      ensures r.Err? ==> authorDao.db.authors == old(authorDao.db.authors)
      ensures r.Ok? ==> r.value == details.(id := id) &&
                        authorDao.db.authors == ReplaceAuthor(old(authorDao.db.authors), r.value)
      ensures unchanged(authorDao.db`books, authorDao.db`genres, authorDao.db`bookAuthors, authorDao.db`bookGenres)
    {
      var existing := GetAuthorById(id);
      if existing.Err? {
        return Err(NotFound);
      }
      assert existing.value in authorDao.db.authors && existing.value.id == id;
      r := authorDao.Update(WithDetails(existing.value, details));
    }

    /** NotFound for an unknown id; otherwise the author row goes (its book links stay). */
    method DeleteAuthor(id: int) returns (r: Result<()>)
      requires Valid()
      modifies authorDao.db
      ensures Valid()
      ensures (forall a :: a in old(authorDao.db.authors) ==> a.id != id) <==> r == Err(NotFound)
      ensures r.Ok? ==> authorDao.db.authors == Filter(old(authorDao.db.authors), a => !HasAuthorId(a, id))
      ensures r.Err? ==> authorDao.db.authors == old(authorDao.db.authors)
      ensures forall a :: a in authorDao.db.authors ==> a.id != id
      ensures unchanged(authorDao.db`books, authorDao.db`genres, authorDao.db`bookAuthors, authorDao.db`bookGenres)
    {
      if GetAuthorById(id).Err? {
        return Err(NotFound);
      }
      var deleted := authorDao.DeleteById(id);
      r := if deleted then Ok(()) else Err(NotFound);
    }

    /** NotFound for an unknown author; otherwise the link exists afterwards, added
        once when it was missing and left alone when it was there. */
    method AddBookToAuthor(authorId: int, bookId: int) returns (r: Result<()>)
      requires Valid()
      modifies authorDao.db
      ensures Valid()
      ensures (forall a :: a in old(authorDao.db.authors) ==> a.id != authorId) <==> r == Err(NotFound)
      ensures r.Err? ==> r.error == NotFound
      ensures r.Err? ==> authorDao.db.bookAuthors == old(authorDao.db.bookAuthors)
      ensures r.Ok? ==> BookAuthor(bookId, authorId) in authorDao.db.bookAuthors
      ensures r.Ok? ==> authorDao.db.bookAuthors ==
                          if BookAuthor(bookId, authorId) in old(authorDao.db.bookAuthors) then old(authorDao.db.bookAuthors)
                          else old(authorDao.db.bookAuthors) + [BookAuthor(bookId, authorId)]
      ensures unchanged(authorDao.db`authors, authorDao.db`books, authorDao.db`genres, authorDao.db`bookGenres)
    {
      if GetAuthorById(authorId).Err? {
        return Err(NotFound);
      }
      var _ := authorDao.AddBookToAuthor(authorId, bookId);
      r := Ok(());
    }

    /** NotFound for an unknown author; otherwise the link is gone afterwards. */
    method RemoveBookFromAuthor(authorId: int, bookId: int) returns (r: Result<()>)
      requires Valid()
      modifies authorDao.db
      ensures Valid()
      ensures (forall a :: a in old(authorDao.db.authors) ==> a.id != authorId) <==> r == Err(NotFound)
      ensures r.Err? ==> r.error == NotFound
      ensures r.Err? ==> authorDao.db.bookAuthors == old(authorDao.db.bookAuthors)
      ensures r.Ok? ==> authorDao.db.bookAuthors == Filter(old(authorDao.db.bookAuthors), l => l != BookAuthor(bookId, authorId))
      ensures unchanged(authorDao.db`authors, authorDao.db`books, authorDao.db`genres, authorDao.db`bookGenres)
    {
      if GetAuthorById(authorId).Err? {
        return Err(NotFound);
      }
      var _ := authorDao.RemoveBookFromAuthor(authorId, bookId);
      r := Ok(());
    }
  }

  class BookService {
    const bookDao: BookDao

    ghost predicate Valid()
      reads bookDao.db
    {
      bookDao.Valid()
    }

    constructor (bookDao: BookDao)
      ensures this.bookDao == bookDao
    {
      this.bookDao := bookDao;
    }

    function GetAllBooks(): (r: seq<Book>)
      reads bookDao.db
      ensures |r| == |bookDao.db.books| && Sorted(r, TitleLe)
      ensures r == bookDao.LoadAll(bookDao.SortedRows())
      ensures multiset(bookDao.SortedRows()) == multiset(bookDao.db.books)
    {
      bookDao.FindAll()
    }

    function GetAllBooksPage(pageNumber: int, pageSize: int): (r: Result<PageResponse<Book>>)
      requires IsInt32(pageNumber) && IsInt32(pageSize)
      reads bookDao.db
      ensures r.Err? <==> pageSize < 0 || Wrap32(pageNumber * pageSize) < 0
      ensures r.Ok? ==> r.value.content == bookDao.FindAllPage(pageNumber, pageSize).value
      ensures r.Ok? ==> |r.value.content| <= pageSize && r.value.totalElements == |bookDao.db.books|
      ensures r.Ok? ==> r.value.totalPages == TotalPages(pageSize, |bookDao.db.books|)
      ensures r.Ok? ==> r.value == MakePage(r.value.content, pageNumber, pageSize, |bookDao.db.books|)
    {
      match bookDao.FindAllPage(pageNumber, pageSize)
      case Err(e) => Err(e)
      case Ok(content) => Ok(MakePage(content, pageNumber, pageSize, bookDao.CountAll()))
    }

    /** The loaded book, or NotFound. */
    function GetBookById(id: int): (r: Result<Book>)
      reads bookDao.db
      ensures r.Err? <==> forall b :: b in bookDao.db.books ==> b.id != id
      ensures r.Err? ==> r.error == NotFound
      ensures r.Ok? ==> r.value.id == id && r.value.genres.Some? && r.value.authors.Some?
      ensures r.Ok? ==> exists row :: row in bookDao.db.books && row.id == id && r.value == bookDao.Load(row)
    {
      match bookDao.FindById(id)
      case None => Err(NotFound)
      case Some(b) => Ok(b)
    }

    /** Refuses a book whose title (ignoring case) and author set match a stored book;
        otherwise saves it with created_at = now. */
    method CreateBook(book: Book, now: int) returns (r: Result<Book>)
      requires Valid()
      modifies bookDao.db
      ensures Valid()
      ensures old(bookDao.ExistsByTitleAndAllAuthors(book.title, AuthorIds(book.authors))) <==> r == Err(IllegalArgument)
      ensures r.Err? ==> r.error == IllegalArgument
      ensures r.Err? ==> bookDao.db.books == old(bookDao.db.books) && bookDao.db.bookGenres == old(bookDao.db.bookGenres)
      ensures r.Ok? ==> r.value == book.(id := old(bookDao.db.nextBookId), createdAt := now)
      ensures r.Ok? ==> bookDao.db.books == old(bookDao.db.books) + [AsBookRow(r.value)]
      ensures r.Ok? ==> bookDao.db.bookGenres == old(bookDao.db.bookGenres) +
                        GenreLinks(bookDao.db.genres, r.value.id, NamesOrEmpty(book.genres))
      ensures unchanged(bookDao.db`authors, bookDao.db`genres, bookDao.db`bookAuthors)
    {
      if bookDao.ExistsByTitleAndAllAuthors(book.title, AuthorIds(book.authors)) {
        return Err(IllegalArgument);
      }
      var saved := bookDao.Save(book, now);
      r := Ok(saved);
    }

    method UpdateBook(book: Book) returns (r: Result<Book>)
      requires Valid()
      modifies bookDao.db
      ensures Valid()
      ensures (forall b :: b in old(bookDao.db.books) ==> b.id != book.id) <==> r == Err(UpdateFailed)
      ensures r.Err? ==> r.error == UpdateFailed
      ensures r.Err? ==> bookDao.db.books == old(bookDao.db.books) && bookDao.db.bookGenres == old(bookDao.db.bookGenres)
      ensures r.Ok? ==> r.value == book && bookDao.db.books == ReplaceBook(old(bookDao.db.books), book)
      ensures r.Ok? ==> bookDao.db.bookGenres == Filter(old(bookDao.db.bookGenres), (l: BookGenre) => l.bookId != book.id) +
                                                 GenreLinks(bookDao.db.genres, book.id, NamesOrEmpty(book.genres))
      ensures r.Ok? ==> forall l: BookGenre :: l.bookId == book.id ==>
                (l in bookDao.db.bookGenres <==> l in GenreLinks(bookDao.db.genres, book.id, NamesOrEmpty(book.genres)))
      ensures unchanged(bookDao.db`authors, bookDao.db`genres, bookDao.db`bookAuthors)
    {
      r := bookDao.Update(book);
    }

    /** NotFound for an unknown id; otherwise the book row goes. */
    method DeleteBook(id: int) returns (r: Result<()>)
      requires Valid()
      modifies bookDao.db
      ensures Valid()
      ensures (forall b :: b in old(bookDao.db.books) ==> b.id != id) <==> r == Err(NotFound)
      ensures r.Err? ==> r.error == NotFound
      ensures bookDao.db.books == Filter(old(bookDao.db.books), b => !HasBookId(b, id))
      ensures forall b :: b in bookDao.db.books ==> b.id != id
      ensures unchanged(bookDao.db`authors, bookDao.db`genres, bookDao.db`bookAuthors, bookDao.db`bookGenres)
    {
      var found := GetBookById(id);
      var deleted := bookDao.DeleteById(id);
      r := if found.Ok? && deleted then Ok(()) else Err(NotFound);
    }

    /** NotFound for an unknown book; a link that already exists violates the key. */
    method AddAuthorToBook(bookId: int, authorId: int) returns (r: Result<()>)
      requires Valid()
      modifies bookDao.db
      ensures Valid()
      ensures (forall b :: b in old(bookDao.db.books) ==> b.id != bookId) <==> r == Err(NotFound)
      ensures r == Err(DuplicateKey) <==>
                r != Err(NotFound) && BookAuthor(bookId, authorId) in old(bookDao.db.bookAuthors)
      ensures r.Err? ==> r.error == NotFound || r.error == DuplicateKey
      ensures r.Err? ==> bookDao.db.bookAuthors == old(bookDao.db.bookAuthors)
      ensures r.Ok? ==> bookDao.db.bookAuthors == old(bookDao.db.bookAuthors) + [BookAuthor(bookId, authorId)]
      ensures unchanged(bookDao.db`authors, bookDao.db`books, bookDao.db`genres, bookDao.db`bookGenres)
    {
      var found := GetBookById(bookId);
      if found.Err? {
        return Err(NotFound);
      }
      var added := bookDao.AddAuthorToBook(bookId, authorId);
      r := if added.Err? then Err(DuplicateKey) else Ok(());
    }

    /** NotFound for an unknown book; otherwise the link is gone afterwards. */
    method RemoveAuthorFromBook(bookId: int, authorId: int) returns (r: Result<()>)
      requires Valid()
      modifies bookDao.db
      ensures Valid()
      ensures (forall b :: b in old(bookDao.db.books) ==> b.id != bookId) <==> r == Err(NotFound)
      ensures r.Err? ==> r.error == NotFound
      ensures r.Err? ==> bookDao.db.bookAuthors == old(bookDao.db.bookAuthors)
      ensures r.Ok? ==> bookDao.db.bookAuthors == Filter(old(bookDao.db.bookAuthors), l => l != BookAuthor(bookId, authorId))
      ensures unchanged(bookDao.db`authors, bookDao.db`books, bookDao.db`genres, bookDao.db`bookGenres)
    {
      if GetBookById(bookId).Err? {
        return Err(NotFound);
      }
      var _ := bookDao.RemoveAuthorFromBook(bookId, authorId);
      r := Ok(());
    }

    method AddGenreToBook(bookId: int, genreId: int) returns (ok: bool)
      requires Valid()
      modifies bookDao.db
      ensures Valid()
      ensures ok && bookDao.db.bookGenres == WithGenreLink(old(bookDao.db.bookGenres), BookGenre(bookId, genreId))
      ensures unchanged(bookDao.db`authors, bookDao.db`books, bookDao.db`genres, bookDao.db`bookAuthors)
    {
      ok := bookDao.AddGenreToBook(bookId, genreId);
    }

    method RemoveGenreFromBook(bookId: int, genreId: int) returns (removed: bool)
      requires Valid()
      modifies bookDao.db
      ensures Valid()
      ensures removed <==> BookGenre(bookId, genreId) in old(bookDao.db.bookGenres)
      ensures bookDao.db.bookGenres == Filter(old(bookDao.db.bookGenres), l => l != BookGenre(bookId, genreId))
      ensures BookGenre(bookId, genreId) !in bookDao.db.bookGenres
      ensures unchanged(bookDao.db`authors, bookDao.db`books, bookDao.db`genres, bookDao.db`bookAuthors)
    {
      removed := bookDao.RemoveGenreFromBook(bookId, genreId);
    }
  }

  /** A stored book with the same title up to case and exactly the listed, distinct
      authors makes a second creation fail. */
  lemma DuplicateBookRefused(dao: BookDao, book: Book, stored: Book)
    requires book.authors.Some? && book.authors.value != []
    requires stored in dao.db.books
    requires Text.ToLower(stored.title) == Text.ToLower(book.title)
    requires AuthorIdsOf(dao.db.bookAuthors, stored.id) == Elems(AuthorIds(book.authors))
    requires |Elems(AuthorIds(book.authors))| == |book.authors.value|
    ensures dao.ExistsByTitleAndAllAuthors(book.title, AuthorIds(book.authors))
  {
    ExistsMeansSameAuthors(dao, book.title, AuthorIds(book.authors));
  }

  /** A book with no author list is never refused as a duplicate. */
  lemma AuthorlessBookNeverDuplicate(dao: BookDao, book: Book)
    requires book.authors.None? || book.authors.value == []
    ensures !dao.ExistsByTitleAndAllAuthors(book.title, AuthorIds(book.authors))
  {
    assert AuthorIds(book.authors) == [];
  }
}
