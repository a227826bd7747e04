/** The book DAO (`dao/impl/BookDaoImpl.java`) over the shared catalog tables. */
module BookStore {
  import opened Common
  import opened Sorting
  import opened Text
  import opened CatalogModel
  import opened CatalogStore

  /** A null or empty genre list links nothing. */
  function NamesOrEmpty(genres: Option<seq<string>>): seq<string>
  {
    if genres.None? then [] else genres.value
  }

  lemma {:induction false} GenreLinksAppend(genres: seq<Genre>, bookId: int, a: seq<string>, b: seq<string>)
    ensures GenreLinks(genres, bookId, a + b) == GenreLinks(genres, bookId, a) + GenreLinks(genres, bookId, b)
  {
    if a == [] {
      assert a + b == b;
    } else {
      assert (a + b)[0] == a[0] && (a + b)[1..] == a[1..] + b;
      GenreLinksAppend(genres, bookId, a[1..], b);
    }
  }

  lemma AppendAssoc<T>(a: seq<T>, b: seq<T>, c: seq<T>)
    ensures a + b + c == a + (b + c)
  {
  }

  /** One more name adds its link, if the name is a known genre. */
  lemma GenreLinksSnoc(genres: seq<Genre>, bookId: int, names: seq<string>, i: int)
    requires 0 <= i < |names|
    ensures GenreIdByName(genres, names[i]).None? ==>
              GenreLinks(genres, bookId, names[..i + 1]) == GenreLinks(genres, bookId, names[..i])
    ensures GenreIdByName(genres, names[i]).Some? ==>
              GenreLinks(genres, bookId, names[..i + 1]) ==
              GenreLinks(genres, bookId, names[..i]) + [BookGenre(bookId, GenreIdByName(genres, names[i]).value)]
  {
    assert names[..i + 1] == names[..i] + [names[i]];
    GenreLinksAppend(genres, bookId, names[..i], [names[i]]);
    assert GenreLinks(genres, bookId, [names[i]]) == NameLink(genres, bookId, names[i]) + [];
  }

  /** `book_genres` after addGenreToBook: the link is added only when it is missing. */
  function WithGenreLink(links: seq<BookGenre>, l: BookGenre): (r: seq<BookGenre>)
    ensures l in r
    ensures l !in links ==> multiset(r)[l] == 1 + multiset(links)[l]
  {
    if l in links then links else links + [l]
  }

  /** Adding the same genre link again changes nothing: repeated adds leave the table
      as the first add left it. */
  lemma {:induction false} WithGenreLinkIdempotent(links: seq<BookGenre>, l: BookGenre)
    ensures WithGenreLink(WithGenreLink(links, l), l) == WithGenreLink(links, l)
    ensures l !in links ==> multiset(WithGenreLink(WithGenreLink(links, l), l))[l] == 1
  {
    assert l in WithGenreLink(links, l);
    if l !in links {
      assert multiset(links)[l] == 0;
    }
  }

  /** Replacing a row keeps ids and the shape of the table. */
  lemma ReplaceBookValid(rows: seq<Book>, nextId: int, b: Book)
    requires BookRowsValid(rows, nextId)
    ensures BookRowsValid(ReplaceBook(rows, b), nextId)
  {
    var r := ReplaceBook(rows, b);
    ReplaceBookRows(rows, nextId, b);
    assert Ascending(r, BookKey) by {
      assert forall i :: 0 <= i < |r| ==> r[i].id == rows[i].id;
    }
  }

  lemma ReplaceBookRows(rows: seq<Book>, nextId: int, b: Book)
    requires forall x :: x in rows ==> 1 <= x.id < nextId && x.genres == None && x.authors == None
    ensures forall x :: x in ReplaceBook(rows, b) ==> 1 <= x.id < nextId && x.genres == None && x.authors == None
  {
    var r := ReplaceBook(rows, b);
    forall x | x in r
      ensures 1 <= x.id < nextId && x.genres == None && x.authors == None
    {
      var i :| 0 <= i < |r| && r[i] == x;
      assert rows[i] in rows;
    }
  }

  class BookDao {
    const db: CatalogDb

    ghost predicate Valid()
      reads db
    {
      db.Valid()
    }

    constructor (db: CatalogDb)
      ensures this.db == db
    {
      this.db := db;
    }

    /** A stored row with its genre names and authors filled in, as the row mapper loads them. */
    function Load(row: Book): (b: Book)
      reads db
      ensures AsBookRow(b) == AsBookRow(row)
      ensures b.genres == Some(GenreNamesOf(db.genres, db.bookGenres, row.id))
      ensures b.authors.Some? && Sorted(b.authors.value, AuthorLe)
      ensures forall a :: a in b.authors.value <==> a in db.authors && BookAuthor(row.id, a.id) in db.bookAuthors
    {
      row.(genres := Some(GenreNamesOf(db.genres, db.bookGenres, row.id)),
           authors := Some(LinkedAuthors(db.authors, db.bookAuthors, row.id)))
    }

    function LoadAll(rows: seq<Book>): (r: seq<Book>)
      reads db
      ensures |r| == |rows|
      ensures forall i :: 0 <= i < |r| ==> r[i] == Load(rows[i])
    {
      if rows == [] then [] else [Load(rows[0])] + LoadAll(rows[1..])
    }

    /** The rows in ORDER BY title. */
    function SortedRows(): (r: seq<Book>)
      reads db
      ensures multiset(r) == multiset(db.books)
      ensures Sorted(r, TitleLe)
    {
      TitleLeIsPreorder();
      SortBySorted(db.books, TitleLe);
      SortBy(db.books, TitleLe)
    }

    /** SELECT * FROM books ORDER BY title, each book loaded. */
    function FindAll(): (r: seq<Book>)
      reads db
      ensures |r| == |db.books|
      ensures Sorted(r, TitleLe)
      ensures forall i :: 0 <= i < |r| ==> r[i] == Load(SortedRows()[i])
    {
      LoadAll(SortedRows())
    }

    /** LIMIT pageSize OFFSET pageNumber * pageSize (the offset in `int` arithmetic). */
    function FindAllPage(pageNumber: int, pageSize: int): (r: Result<seq<Book>>)
      reads db
      ensures r.Err? <==> pageSize < 0 || Wrap32(pageNumber * pageSize) < 0
      ensures r.Ok? ==> |r.value| <= pageSize
      ensures r.Ok? ==> forall k :: 0 <= k < |r.value| ==>
                Wrap32(pageNumber * pageSize) + k < |db.books| &&
                r.value[k] == FindAll()[Wrap32(pageNumber * pageSize) + k]
    {
      var offset := Wrap32(pageNumber * pageSize);
      if pageSize < 0 || offset < 0 then Err(SqlFailure)
      else Ok(Slice(FindAll(), offset, pageSize))
    }

    function CountAll(): (n: nat)
      reads db
      ensures n == |FindAll()|
    {
      |db.books|
    }

    /** The loaded book with that id, or nothing. */
    function FindById(id: int): (r: Option<Book>)
      reads db
      ensures r.None? <==> forall b :: b in db.books ==> b.id != id
      ensures r.Some? ==> r.value.id == id && exists row :: row in db.books && r.value == Load(row)
    {
      match FirstWhere(db.books, b => HasBookId(b, id))
      case None => None
      case Some(row) => Some(Load(row))
    }

    /** Whether a book exists whose lower-cased title equals the given one lower-cased
        and whose linked authors pass the HAVING test against `authorIds`; false for an
        empty list. */
    predicate ExistsByTitleAndAllAuthors(title: string, authorIds: seq<int>)
      reads db
    {
      authorIds != [] &&
      exists b :: b in db.books && ToLower(b.title) == ToLower(title) &&
                  SameAuthorCount(AuthorIdsOf(db.bookAuthors, b.id), authorIds)
    }

    /** INSERT the row with created_at = now and the next id, then link its known genres. */
    method Save(book: Book, now: int) returns (saved: Book)
      requires Valid()
      modifies db
      ensures Valid()
      ensures saved == book.(id := old(db.nextBookId), createdAt := now)
      ensures db.books == old(db.books) + [AsBookRow(saved)] && db.nextBookId == old(db.nextBookId) + 1
      ensures db.bookGenres == old(db.bookGenres) + GenreLinks(db.genres, saved.id, NamesOrEmpty(book.genres))
      ensures unchanged(db`authors, db`nextAuthorId, db`genres, db`bookAuthors)
    {
      saved := book.(id := db.nextBookId, createdAt := now);
      db.books := db.books + [AsBookRow(saved)];
      db.nextBookId := db.nextBookId + 1;
      SaveBookGenres(saved.id, saved.genres);
    }

    /** Nothing to do for a null or empty genre list; otherwise the links of each name. */
    method SaveBookGenres(bookId: int, genres: Option<seq<string>>)
      requires Valid()
      modifies db`bookGenres
      ensures Valid()
      ensures db.bookGenres == old(db.bookGenres) + GenreLinks(db.genres, bookId, NamesOrEmpty(genres))
    {
      if genres.None? || genres.value == [] {
        assert db.bookGenres == old(db.bookGenres) + [];
        return;
      }
      SaveGenreNames(bookId, genres.value);
    }

    /** For each genre name in list order: look up its id by exact name and insert a
        link, skipping names that are not in `genres`. */
    method SaveGenreNames(bookId: int, names: seq<string>)
      modifies db`bookGenres
      ensures db.bookGenres == old(db.bookGenres) + GenreLinks(db.genres, bookId, names)
    {
      var i := 0;
      ghost var added: seq<BookGenre> := [];
      while i < |names|
        invariant 0 <= i <= |names|
        invariant added == GenreLinks(db.genres, bookId, names[..i])
        invariant db.bookGenres == old(db.bookGenres) + added
      {
        GenreLinksSnoc(db.genres, bookId, names, i);
        var genreId := GenreIdByName(db.genres, names[i]);
        if genreId.Some? {
          var link := BookGenre(bookId, genreId.value);
          AppendAssoc(old(db.bookGenres), added, [link]);
          db.bookGenres := db.bookGenres + [link];
          added := added + [link];
        }
        i := i + 1;
      }
      assert names[..i] == names;
    }

    /** UPDATE books SET every column but created_at WHERE id = ?; zero updated rows is
        an error and touches no genre link; otherwise the book's genre links are replaced
        by those of its current genre names. */
    method Update(book: Book) returns (r: Result<Book>)
      requires Valid()
      modifies db
      ensures Valid()
      ensures (forall b :: b in old(db.books) ==> b.id != book.id) <==> r == Err(UpdateFailed)
      ensures r.Err? ==> db.books == old(db.books) && db.bookGenres == old(db.bookGenres)
      ensures r.Err? ==> r.error == UpdateFailed
      ensures r.Ok? ==> r.value == book && db.books == ReplaceBook(old(db.books), book)
      ensures r.Ok? ==> db.bookGenres == Filter(old(db.bookGenres), (l: BookGenre) => l.bookId != book.id) +
                                         GenreLinks(db.genres, book.id, NamesOrEmpty(book.genres))
      ensures r.Ok? ==> forall l: BookGenre :: l.bookId == book.id ==>
                (l in db.bookGenres <==> l in GenreLinks(db.genres, book.id, NamesOrEmpty(book.genres)))
      ensures unchanged(db`authors, db`nextAuthorId, db`nextBookId, db`genres, db`bookAuthors)
    {
      if forall b :: b in db.books ==> b.id != book.id {
        return Err(UpdateFailed);
      }
      ReplaceBookValid(db.books, db.nextBookId, book);
      db.books := ReplaceBook(db.books, book);
      var others := Filter(db.bookGenres, (l: BookGenre) => l.bookId != book.id);
      db.bookGenres := others;
      SaveBookGenres(book.id, book.genres);
      forall l: BookGenre | l.bookId == book.id
        ensures l in db.bookGenres <==> l in GenreLinks(db.genres, book.id, NamesOrEmpty(book.genres))
      {
        assert l !in others;
      }
      r := Ok(book);
    }

    /** DELETE FROM books WHERE id = ?; true when a row went. */
    method DeleteById(id: int) returns (deleted: bool)
      requires Valid()
      modifies db
      ensures Valid()
      ensures deleted <==> exists b :: b in old(db.books) && b.id == id
      ensures db.books == Filter(old(db.books), b => !HasBookId(b, id))
      ensures unchanged(db`authors, db`nextAuthorId, db`nextBookId, db`genres, db`bookAuthors, db`bookGenres)
    {
      deleted := exists b :: b in db.books && b.id == id;
      FilterAscending(db.books, b => !HasBookId(b, id), BookKey);
      db.books := Filter(db.books, b => !HasBookId(b, id));
    }

    /** A plain INSERT into `book_authors`: an existing link violates its key. */
    method AddAuthorToBook(bookId: int, authorId: int) returns (r: Result<bool>)
      requires Valid()
      modifies db
      ensures Valid()
      ensures BookAuthor(bookId, authorId) in old(db.bookAuthors) <==> r == Err(DuplicateKey)
      ensures r.Err? ==> r.error == DuplicateKey && db.bookAuthors == old(db.bookAuthors)
      ensures r.Ok? ==> r.value && db.bookAuthors == old(db.bookAuthors) + [BookAuthor(bookId, authorId)]
      ensures unchanged(db`authors, db`nextAuthorId, db`books, db`nextBookId, db`genres, db`bookGenres)
    {
      var link := BookAuthor(bookId, authorId);
      if link in db.bookAuthors {
        return Err(DuplicateKey);
      }
      db.bookAuthors := db.bookAuthors + [link];
      r := Ok(true);
    }

    method RemoveAuthorFromBook(bookId: int, authorId: int) returns (removed: bool)
      requires Valid()
      modifies db
      ensures Valid()
      ensures removed <==> BookAuthor(bookId, authorId) in old(db.bookAuthors)
      ensures db.bookAuthors == Filter(old(db.bookAuthors), l => l != BookAuthor(bookId, authorId))
      ensures unchanged(db`authors, db`nextAuthorId, db`books, db`nextBookId, db`genres, db`bookGenres)
    {
      var link := BookAuthor(bookId, authorId);
      removed := link in db.bookAuthors;
      FilterKeepsLinksUnique(db.bookAuthors, l => l != link);
      db.bookAuthors := Filter(db.bookAuthors, l => l != link);
    }

    /** Counts the link first and reports true without inserting when it is there. */
    method AddGenreToBook(bookId: int, genreId: int) returns (ok: bool)
      requires Valid()
      modifies db
      ensures Valid()
      ensures ok
      ensures db.bookGenres == WithGenreLink(old(db.bookGenres), BookGenre(bookId, genreId))
      ensures unchanged(db`authors, db`nextAuthorId, db`books, db`nextBookId, db`genres, db`bookAuthors)
    {
      var link := BookGenre(bookId, genreId);
      if CountWhere(db.bookGenres, l => l == link) > 0 {
        FilterCount(db.bookGenres, l => l == link);
        assert Filter(db.bookGenres, l => l == link)[0] in db.bookGenres;
        return true;
      }
      if link in db.bookGenres {
        FilterComplete(db.bookGenres, l => l == link, link);
        FilterCount(db.bookGenres, l => l == link);
      }
      db.bookGenres := db.bookGenres + [link];
      ok := true;
    }

    /** Removes every copy of the link; true when there was one. */
    method RemoveGenreFromBook(bookId: int, genreId: int) returns (removed: bool)
      requires Valid()
      modifies db
      ensures Valid()
      ensures removed <==> BookGenre(bookId, genreId) in old(db.bookGenres)
      ensures db.bookGenres == Filter(old(db.bookGenres), l => l != BookGenre(bookId, genreId))
      ensures BookGenre(bookId, genreId) !in db.bookGenres
      ensures unchanged(db`authors, db`nextAuthorId, db`books, db`nextBookId, db`genres, db`bookAuthors)
    {
      var link := BookGenre(bookId, genreId);
      removed := link in db.bookGenres;
      db.bookGenres := Filter(db.bookGenres, l => l != link);
    }
  }

  /** existsByTitleAndAllAuthors finds a book of that title whose author set is exactly
      the list's set of ids, provided the list repeats no id. */
  lemma ExistsMeansSameAuthors(dao: BookDao, title: string, authorIds: seq<int>)
    ensures dao.ExistsByTitleAndAllAuthors(title, authorIds) <==>
            authorIds != [] && |Elems(authorIds)| == |authorIds| &&
            exists b :: b in dao.db.books && ToLower(b.title) == ToLower(title) &&
                        AuthorIdsOf(dao.db.bookAuthors, b.id) == Elems(authorIds)
  {
    forall b | b in dao.db.books
      ensures SameAuthorCount(AuthorIdsOf(dao.db.bookAuthors, b.id), authorIds) <==>
              AuthorIdsOf(dao.db.bookAuthors, b.id) == Elems(authorIds) && |Elems(authorIds)| == |authorIds|
    {
      SameAuthorCountMeans(AuthorIdsOf(dao.db.bookAuthors, b.id), authorIds);
    }
  }

  /** The order of the id list does not matter. */
  lemma ExistsIgnoresOrder(dao: BookDao, title: string, ids1: seq<int>, ids2: seq<int>)
    requires multiset(ids1) == multiset(ids2)
    ensures dao.ExistsByTitleAndAllAuthors(title, ids1) <==> dao.ExistsByTitleAndAllAuthors(title, ids2)
  {
    assert |ids1| == |multiset(ids1)| == |multiset(ids2)| == |ids2|;
    assert Elems(ids1) == Elems(ids2) by {
      forall x
        ensures x in ids1 <==> x in ids2
      {
        assert x in ids1 <==> x in multiset(ids1);
        assert x in ids2 <==> x in multiset(ids2);
      }
    }
  }
}
