/** The catalog tables (`authors`, `books`, `genres`, `book_authors`, `book_genres`)
    and the two DAOs that share them (`dao/impl/AuthorDaoImpl.java`,
    `dao/impl/BookDaoImpl.java`). Tables are sequences in insertion order; the
    `next…Id` fields are the database sequences. */
module CatalogStore {
  import opened Common
  import opened Sorting
  import opened Text
  import opened CatalogModel

  function AuthorKey(a: Author): int { a.id }

  function BookKey(b: Book): int { b.id }

  function GenreKey(g: Genre): int { g.id }

  predicate HasAuthorId(a: Author, id: int) { a.id == id }

  predicate HasBookId(b: Book, id: int) { b.id == id }

  /** What a `books` row holds of a Book: everything but its genre and author lists. */
  function AsBookRow(b: Book): (r: Book)
    ensures r.genres == None && r.authors == None
    ensures r.(genres := b.genres, authors := b.authors) == b
  {
    b.(genres := None, authors := None)
  }

  /** The row UPDATE books SET … WHERE id = b.id leaves behind: every column from `b`
      except `created_at`, which the statement does not set. */
  function UpdatedBookRow(old_: Book, b: Book): (r: Book)
    ensures r.createdAt == old_.createdAt
    ensures r.(createdAt := b.createdAt) == AsBookRow(b)
  {
    AsBookRow(b).(createdAt := old_.createdAt)
  }

  function ReplaceAuthor(rows: seq<Author>, a: Author): (r: seq<Author>)
    ensures |r| == |rows|
    ensures forall i :: 0 <= i < |r| ==> r[i] == if rows[i].id == a.id then a else rows[i]
  {
    if rows == [] then [] else [if rows[0].id == a.id then a else rows[0]] + ReplaceAuthor(rows[1..], a)
  }

  /** Rewriting a row under its own id keeps the author table well formed. */
  lemma ReplaceAuthorValid(rows: seq<Author>, nextId: int, author: Author)
    requires AuthorRowsValid(rows, nextId)
    ensures AuthorRowsValid(ReplaceAuthor(rows, author), nextId)
  {
    var updated := ReplaceAuthor(rows, author);
    forall a | a in updated
      ensures 1 <= a.id < nextId
    {
      var i :| 0 <= i < |updated| && updated[i] == a;
      assert rows[i] in rows;
    }
  }

  function ReplaceBook(rows: seq<Book>, b: Book): (r: seq<Book>)
    ensures |r| == |rows|
    ensures forall i :: 0 <= i < |r| ==> r[i] == if rows[i].id == b.id then UpdatedBookRow(rows[i], b) else rows[i]
  {
    if rows == [] then []
    else [if rows[0].id == b.id then UpdatedBookRow(rows[0], b) else rows[0]] + ReplaceBook(rows[1..], b)
  }

  // ---------------------------------------------------------------- table shapes

  ghost predicate AuthorRowsValid(rows: seq<Author>, nextId: int)
  {
    1 <= nextId && Ascending(rows, AuthorKey) && forall a :: a in rows ==> 1 <= a.id < nextId
  }

  ghost predicate BookRowsValid(rows: seq<Book>, nextId: int)
  {
    1 <= nextId && Ascending(rows, BookKey) &&
    forall b :: b in rows ==> 1 <= b.id < nextId && b.genres == None && b.authors == None
  }

  /** `genres` has unique ids and unique names. */
  ghost predicate GenresValid(genres: seq<Genre>)
  {
    Ascending(genres, GenreKey) &&
    forall i, j :: 0 <= i < j < |genres| ==> genres[i].name != genres[j].name
  }

  /** `book_authors` holds each (book, author) pair at most once. */
  ghost predicate NoDuplicateLinks(links: seq<BookAuthor>)
  {
    forall i, j :: 0 <= i < j < |links| ==> links[i] != links[j]
  }

  lemma FilterKeepsLinksUnique(links: seq<BookAuthor>, p: BookAuthor -> bool)
    requires NoDuplicateLinks(links)
    ensures NoDuplicateLinks(Filter(links, p))
  {
    var kept := Filter(links, p);
    FilterSplit(links, p);
    forall i, j | 0 <= i < j < |kept|
      ensures kept[i] != kept[j]
    {
      if kept[i] == kept[j] {
        MultisetTwoSlots(kept, i, j);
        assert multiset(kept) <= multiset(links);
        MultisetAtMostOne(links, kept[i]);
        assert false;
      }
    }
  }

  lemma MultisetTwoSlots<T>(s: seq<T>, i: int, j: int)
    requires 0 <= i < j < |s| && s[i] == s[j]
    ensures multiset(s)[s[i]] >= 2
  {
    assert s == s[..i] + [s[i]] + s[i + 1..j] + [s[j]] + s[j + 1..];
  }

  lemma {:induction false} MultisetAtMostOne(links: seq<BookAuthor>, x: BookAuthor)
    requires NoDuplicateLinks(links)
    ensures multiset(links)[x] <= 1
  {
    if links != [] {
      var rest := links[1..];
      assert NoDuplicateLinks(rest) by {
        forall i, j | 0 <= i < j < |rest|
          ensures rest[i] != rest[j]
        {
          assert rest[i] == links[i + 1] && rest[j] == links[j + 1];
        }
      }
      MultisetAtMostOne(rest, x);
      assert links == [links[0]] + rest;
      if links[0] == x {
        forall k | 0 <= k < |rest|
          ensures rest[k] != x
        {
          assert rest[k] == links[k + 1];
        }
      }
    }
  }

  // ---------------------------------------------------------------- joins

  /** SELECT id FROM genres WHERE name = ?: the genre of that exact name, if any. */
  function GenreIdByName(genres: seq<Genre>, name: string): (r: Option<int>)
    ensures r.None? <==> forall g :: g in genres ==> g.name != name
    ensures r.Some? ==> Genre(r.value, name) in genres
  {
    match FirstWhere(genres, (g: Genre) => g.name == name)
    case None => None
    case Some(g) => Some(g.id)
  }

  /** The `book_genres` rows saveBookGenres inserts: one per known name, in list order. */
  function GenreLinks(genres: seq<Genre>, bookId: int, names: seq<string>): (r: seq<BookGenre>)
    ensures |r| <= |names|
  {
    if names == [] then [] else NameLink(genres, bookId, names[0]) + GenreLinks(genres, bookId, names[1..])
  }

  /** The link one genre name yields: none for a name that is not a genre. */
  function NameLink(genres: seq<Genre>, bookId: int, name: string): (r: seq<BookGenre>)
    ensures |r| <= 1
  {
    match GenreIdByName(genres, name)
    case None => []
    case Some(g) => [BookGenre(bookId, g)]
  }

  /** The links saveBookGenres writes are exactly those of the book's known genre names. */
  lemma GenreLinksExact(genres: seq<Genre>, bookId: int, names: seq<string>, l: BookGenre)
    ensures l in GenreLinks(genres, bookId, names) <==>
            l.bookId == bookId && exists k :: 0 <= k < |names| && GenreIdByName(genres, names[k]) == Some(l.genreId)
  {
    if l in GenreLinks(genres, bookId, names) {
      var k := GenreLinkSource(genres, bookId, names, l);
    }
    if l.bookId == bookId && exists k :: 0 <= k < |names| && GenreIdByName(genres, names[k]) == Some(l.genreId) {
      var k :| 0 <= k < |names| && GenreIdByName(genres, names[k]) == Some(l.genreId);
      GenreLinkKept(genres, bookId, names, k);
    }
  }

  /** Every saved link comes from a name of the list. */
  lemma {:induction false} GenreLinkSource(genres: seq<Genre>, bookId: int, names: seq<string>, l: BookGenre) returns (k: nat)
    requires l in GenreLinks(genres, bookId, names)
    ensures l.bookId == bookId && k < |names| && GenreIdByName(genres, names[k]) == Some(l.genreId)
  {
    if l in NameLink(genres, bookId, names[0]) {
      k := 0;
    } else {
      var k' := GenreLinkSource(genres, bookId, names[1..], l);
      assert names[1..][k'] == names[k' + 1];
      k := k' + 1;
    }
  }

  /** Every name that is a genre yields its link. */
  lemma {:induction false} GenreLinkKept(genres: seq<Genre>, bookId: int, names: seq<string>, k: nat)
    requires k < |names| && GenreIdByName(genres, names[k]).Some?
    ensures BookGenre(bookId, GenreIdByName(genres, names[k]).value) in GenreLinks(genres, bookId, names)
  {
    if k > 0 {
      assert names[1..][k - 1] == names[k];
      GenreLinkKept(genres, bookId, names[1..], k - 1);
    }
  }

  /** The genre names loaded into a book: one per link of the book, in link order. */
  function GenreNamesOf(genres: seq<Genre>, links: seq<BookGenre>, bookId: int): seq<string>
  {
    if links == [] then []
    else
      (if links[0].bookId == bookId then
         match FirstWhere(genres, (g: Genre) => g.id == links[0].genreId)
         case None => []
         case Some(g) => [g.name]
       else []) + GenreNamesOf(genres, links[1..], bookId)
  }

  /** The author ids linked to a book. */
  function AuthorIdsOf(links: seq<BookAuthor>, bookId: int): (r: set<int>)
    ensures forall id :: id in r <==> BookAuthor(bookId, id) in links
  {
    set l | l in links && l.bookId == bookId :: l.authorId
  }

  predicate LinkedTo(a: Author, ids: set<int>) { a.id in ids }

  /** The authors loaded into a book: those linked to it, by last then first name. */
  function LinkedAuthors(authors: seq<Author>, links: seq<BookAuthor>, bookId: int): (r: seq<Author>)
    ensures forall a :: a in r <==> a in authors && BookAuthor(bookId, a.id) in links
    ensures Sorted(r, AuthorLe)
  {
    var ids := AuthorIdsOf(links, bookId);
    var linked := Filter(authors, a => LinkedTo(a, ids));
    forall a | a in authors && a.id in ids
      ensures a in linked
    {
      FilterComplete(authors, a => LinkedTo(a, ids), a);
    }
    AuthorLeIsPreorder();
    SortBySorted(linked, AuthorLe);
    assert forall a :: a in SortBy(linked, AuthorLe) <==> a in multiset(linked);
    SortBy(linked, AuthorLe)
  }

  /** The distinct elements of a list. */
  function Elems(s: seq<int>): set<int>
  {
    set x | x in s
  }

  lemma {:induction false} ElemsCard(s: seq<int>)
    ensures |Elems(s)| <= |s|
  {
    if s != [] {
      var init := s[..|s| - 1];
      ElemsCard(init);
      assert Elems(s) == Elems(init) + {s[|s| - 1]} by {
        assert s == init + [s[|s| - 1]];
      }
    }
  }

  lemma SubsetSameSize(x: set<int>, y: set<int>)
    requires x <= y && |x| == |y|
    ensures x == y
  {
    var d := y - x;
    assert y == x + d && x * d == {};
    assert d == {};
  }

  lemma SubsetSize(x: set<int>, y: set<int>)
    requires x <= y
    ensures |x| <= |y|
  {
    var d := y - x;
    assert y == x + d && x * d == {};
  }

  /** The HAVING test of existsByTitleAndAllAuthors for one book: as many distinct linked
      authors as the list has entries, and as many of them in the list. */
  predicate SameAuthorCount(linked: set<int>, ids: seq<int>)
  {
    |linked| == |ids| && |linked * Elems(ids)| == |ids|
  }

  /** The HAVING test holds exactly when the book's authors are the list's elements and
      the list has no repeated id. */
  lemma SameAuthorCountMeans(linked: set<int>, ids: seq<int>)
    ensures SameAuthorCount(linked, ids) <==> linked == Elems(ids) && |Elems(ids)| == |ids|
  {
    ElemsCard(ids);
    var listed := Elems(ids);
    if SameAuthorCount(linked, ids) {
      SubsetSameSize(linked * listed, linked);
      assert linked <= listed;
      SubsetSize(linked, listed);
      SubsetSameSize(linked, listed);
    }
    if linked == listed && |listed| == |ids| {
      assert linked * listed == linked;
    }
  }

  // ================================================================= the tables

  class CatalogDb {
    var authors: seq<Author>
    var nextAuthorId: int
    var books: seq<Book>
    var nextBookId: int
    var genres: seq<Genre>
    var bookAuthors: seq<BookAuthor>
    var bookGenres: seq<BookGenre>

    ghost predicate Valid()
      reads this
    {
      AuthorRowsValid(authors, nextAuthorId) &&
      BookRowsValid(books, nextBookId) &&
      GenresValid(genres) &&
      NoDuplicateLinks(bookAuthors)
    }

    /** Empty author, book and link tables over a fixed genre list. */
    constructor (genres: seq<Genre>)
      requires GenresValid(genres)
      ensures Valid()
      ensures authors == [] && books == [] && bookAuthors == [] && bookGenres == [] && this.genres == genres
    {
      authors := [];
      nextAuthorId := 1;
      books := [];
      nextBookId := 1;
      this.genres := genres;
      bookAuthors := [];
      bookGenres := [];
    }
  }

  // ================================================================= authors

  class AuthorDao {
    const db: CatalogDb

    ghost predicate Valid()
      reads db
    {
      db.Valid()
    }

    constructor (db: CatalogDb)
      ensures this.db == db
    {
      this.db := db;
    }

    /** SELECT * FROM authors ORDER BY last_name, first_name. */
    function FindAll(): (r: seq<Author>)
      reads db
      ensures multiset(r) == multiset(db.authors)
      ensures Sorted(r, AuthorLe)
    {
      AuthorLeIsPreorder();
      SortBySorted(db.authors, AuthorLe);
      SortBy(db.authors, AuthorLe)
    }

    /** LIMIT pageSize OFFSET pageNumber * pageSize (the offset in `int` arithmetic);
        a negative LIMIT or OFFSET is rejected by the database. */
    function FindAllPage(pageNumber: int, pageSize: int): (r: Result<seq<Author>>)
      reads db
      ensures r.Err? <==> pageSize < 0 || Wrap32(pageNumber * pageSize) < 0
      ensures r.Ok? ==> |r.value| <= pageSize
      ensures r.Ok? ==> forall k :: 0 <= k < |r.value| ==>
                Wrap32(pageNumber * pageSize) + k < |db.authors| &&
                r.value[k] == FindAll()[Wrap32(pageNumber * pageSize) + k]
    {
      var offset := Wrap32(pageNumber * pageSize);
      if pageSize < 0 || offset < 0 then Err(SqlFailure)
      else Ok(Slice(FindAll(), offset, pageSize))
    }

    function CountAll(): (n: nat)
      reads db
      ensures n == |FindAll()|
    {
      |db.authors|
    }

    /** The first row with that id, or nothing. */
    function FindById(id: int): (r: Option<Author>)
      reads db
      ensures r.None? <==> forall a :: a in db.authors ==> a.id != id
      ensures r.Some? ==> r.value in db.authors && r.value.id == id
    {
      FirstWhere(db.authors, a => HasAuthorId(a, id))
    }

    /** LOWER(first_name) LIKE '%q%' OR LOWER(last_name) LIKE '%q%', q the lower-cased name. */
    predicate NameMatches(a: Author, name: string)
    {
      Contains(ToLower(a.firstName), ToLower(name)) || Contains(ToLower(a.lastName), ToLower(name))
    }

    /** The matching authors, each once, ordered by last name then first name. */
    function FindByName(name: string): (r: seq<Author>)
      reads db
      ensures multiset(r) == multiset(Filter(db.authors, (a: Author) => NameMatches(a, name)))
      ensures forall a :: a in r <==> a in db.authors && NameMatches(a, name)
      ensures Sorted(r, AuthorLe)
    {
      var matching := Filter(db.authors, (a: Author) => NameMatches(a, name));
      AuthorLeIsPreorder();
      SortBySorted(matching, AuthorLe);
      assert forall a :: a in SortBy(matching, AuthorLe) <==> a in multiset(matching);
      SortBy(matching, AuthorLe)
    }

    function FindByNamePage(name: string, pageNumber: int, pageSize: int): (r: Result<seq<Author>>)
      reads db
      ensures r.Err? <==> pageSize < 0 || Wrap32(pageNumber * pageSize) < 0
      ensures r.Ok? ==> |r.value| <= pageSize
      ensures r.Ok? ==> forall k :: 0 <= k < |r.value| ==>
                Wrap32(pageNumber * pageSize) + k < |FindByName(name)| &&
                r.value[k] == FindByName(name)[Wrap32(pageNumber * pageSize) + k]
    {
      var offset := Wrap32(pageNumber * pageSize);
      if pageSize < 0 || offset < 0 then Err(SqlFailure)
      else Ok(Slice(FindByName(name), offset, pageSize))
    }

    /** The number of authors findByName lists. */
    function CountByName(name: string): (n: nat)
      reads db
      ensures n == |FindByName(name)|
      ensures n == CountWhere(db.authors, (a: Author) => NameMatches(a, name))
    {
      FilterCount(db.authors, (a: Author) => NameMatches(a, name));
      |Filter(db.authors, (a: Author) => NameMatches(a, name))|
    }

    method Save(author: Author) returns (saved: Author)
      requires Valid()
      modifies db
      ensures Valid()
      ensures saved == author.(id := old(db.nextAuthorId))
      ensures db.authors == old(db.authors) + [saved] && db.nextAuthorId == old(db.nextAuthorId) + 1
      ensures unchanged(db`books, db`nextBookId, db`genres, db`bookAuthors, db`bookGenres)
    {
      saved := author.(id := db.nextAuthorId);
      db.authors := db.authors + [saved];
      db.nextAuthorId := db.nextAuthorId + 1;
    }

    /** UPDATE authors SET first_name, last_name, bio, birthdate, country WHERE id = ?;
        zero updated rows is an error. */
    method Update(author: Author) returns (r: Result<Author>)
      requires Valid()
      modifies db
      ensures Valid()
      ensures (forall a :: a in old(db.authors) ==> a.id != author.id) <==> r == Err(UpdateFailed)
      ensures r.Err? ==> db.authors == old(db.authors)
      ensures r.Err? ==> r.error == UpdateFailed
      ensures r.Ok? ==> r.value == author && db.authors == ReplaceAuthor(old(db.authors), author)
      ensures db.nextAuthorId == old(db.nextAuthorId)
      ensures unchanged(db`books, db`nextBookId, db`genres, db`bookAuthors, db`bookGenres)
    {
      if forall a :: a in db.authors ==> a.id != author.id {
        return Err(UpdateFailed);
      }
      ReplaceAuthorValid(db.authors, db.nextAuthorId, author);
      db.authors := ReplaceAuthor(db.authors, author);
      r := Ok(author);
    }

    method DeleteById(id: int) returns (deleted: bool)
      requires Valid()
      modifies db
      ensures Valid()
      ensures deleted <==> exists a :: a in old(db.authors) && a.id == id
      ensures db.authors == Filter(old(db.authors), a => !HasAuthorId(a, id))
      ensures db.nextAuthorId == old(db.nextAuthorId)
      ensures unchanged(db`books, db`nextBookId, db`genres, db`bookAuthors, db`bookGenres)
    {
      deleted := exists a :: a in db.authors && a.id == id;
      FilterAscending(db.authors, a => !HasAuthorId(a, id), AuthorKey);
      db.authors := Filter(db.authors, a => !HasAuthorId(a, id));
    }

    /** INSERT … ON CONFLICT DO NOTHING: true when a link was added; a link that is
        already there leaves the table as it is. */
    method AddBookToAuthor(authorId: int, bookId: int) returns (added: bool)
      requires Valid()
      modifies db
      ensures Valid()
      ensures added <==> BookAuthor(bookId, authorId) !in old(db.bookAuthors)
      ensures db.bookAuthors == if added then old(db.bookAuthors) + [BookAuthor(bookId, authorId)] else old(db.bookAuthors)
      ensures BookAuthor(bookId, authorId) in db.bookAuthors
      ensures unchanged(db`authors, db`nextAuthorId, db`books, db`nextBookId, db`genres, db`bookGenres)
    {
      var link := BookAuthor(bookId, authorId);
      if link in db.bookAuthors {
        return false;
      }
      db.bookAuthors := db.bookAuthors + [link];
      added := true;
    }

    method RemoveBookFromAuthor(authorId: int, bookId: int) returns (removed: bool)
      requires Valid()
      modifies db
      ensures Valid()
      ensures removed <==> BookAuthor(bookId, authorId) in old(db.bookAuthors)
      ensures db.bookAuthors == Filter(old(db.bookAuthors), l => l != BookAuthor(bookId, authorId))
      ensures unchanged(db`authors, db`nextAuthorId, db`books, db`nextBookId, db`genres, db`bookGenres)
    {
      var link := BookAuthor(bookId, authorId);
      removed := link in db.bookAuthors;
      FilterKeepsLinksUnique(db.bookAuthors, l => l != link);
      db.bookAuthors := Filter(db.bookAuthors, l => l != link);
    }
  }
}
