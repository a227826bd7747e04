/** The book facade (`facade/BookFacade.java`): creation with a fresh clock reading and
    a zero sold count, creation with author and genre links given as comma-separated id
    strings, and update behind an existence check. */
module BookFacades {
  import opened Common
  import opened Text
  import opened CatalogModel
  import opened CatalogStore
  import opened BookStore
  import opened CatalogServices

  /** The id one piece names: none for a blank piece or one `Long.parseLong` rejects. */
  function PieceId(piece: string): Option<int>
  {
    if IsBlank(piece) then None else ParseLong(piece)
  }

  /** The blank test before parsing changes nothing: a blank piece never parses. */
  lemma PieceIdIsParse(piece: string)
    ensures PieceId(piece) == ParseLong(piece)
  {
    if IsBlank(piece) && piece != [] {
      assert IsWhitespace(piece[0]);
    }
  }

  /** The ids the facade links for one piece list, in piece order. */
  function ParsedIds(pieces: seq<string>): (ids: seq<int>)
    ensures |ids| <= |pieces|
  {
    if pieces == [] then []
    else
      var p := PieceId(pieces[|pieces| - 1]);
      ParsedIds(pieces[..|pieces| - 1]) + (if p.Some? then [p.value] else [])
  }

  /** The ids an id string asks for; none for a null or empty string. */
  function LinkIds(s: Option<string>): seq<int>
  {
    if s.None? || s.value == [] then [] else ParsedIds(JavaSplit(s.value))
  }

  /** An id is linked exactly when some piece names it. */
  lemma ParsedIdsMembers(pieces: seq<string>)
    ensures forall x :: x in ParsedIds(pieces) <==> exists k :: 0 <= k < |pieces| && PieceId(pieces[k]) == Some(x)
  {
    forall x | x in ParsedIds(pieces)
      ensures exists k :: 0 <= k < |pieces| && PieceId(pieces[k]) == Some(x)
    {
      var k := ParsedIdSource(pieces, x);
    }
    forall k | 0 <= k < |pieces| && PieceId(pieces[k]).Some?
      ensures PieceId(pieces[k]).value in ParsedIds(pieces)
    {
      ParsedIdKept(pieces, k);
    }
  }

  /** Every linked id comes from some piece. */
  lemma {:induction false} ParsedIdSource(pieces: seq<string>, x: int) returns (k: nat)
    requires x in ParsedIds(pieces)
    ensures k < |pieces| && PieceId(pieces[k]) == Some(x)
  {
    var n := |pieces| - 1;
    var front := pieces[..n];
    var p := PieceId(pieces[n]);
    assert ParsedIds(pieces) == ParsedIds(front) + (if p.Some? then [p.value] else []);
    if x in ParsedIds(front) {
      k := ParsedIdSource(front, x);
      assert front[k] == pieces[k];
    } else {
      k := n;
    }
  }

  /** Every piece that parses is linked. */
  lemma {:induction false} ParsedIdKept(pieces: seq<string>, k: nat)
    requires k < |pieces| && PieceId(pieces[k]).Some?
    ensures PieceId(pieces[k]).value in ParsedIds(pieces)
  {
    var n := |pieces| - 1;
    var front := pieces[..n];
    var p := PieceId(pieces[n]);
    assert ParsedIds(pieces) == ParsedIds(front) + (if p.Some? then [p.value] else []);
    if k < n {
      assert front[k] == pieces[k];
      ParsedIdKept(front, k);
    } else {
      assert p == PieceId(pieces[k]);
    }
  }

  /** `book_authors` after linking the ids one after another, and whether every link
      went in; the first id already linked stops the run with a key violation. */
  function LinkAuthors(links: seq<BookAuthor>, bookId: int, ids: seq<int>): (r: (seq<BookAuthor>, bool))
  {
    if ids == [] then (links, true)
    else
      var prev := LinkAuthors(links, bookId, ids[..|ids| - 1]);
      var link := BookAuthor(bookId, ids[|ids| - 1]);
      if !prev.1 || link in prev.0 then (prev.0, false) else (prev.0 + [link], true)
  }

  /** Distinct ids none of which is linked yet all go in, in order. */
  lemma {:induction false} LinkAuthorsFresh(links: seq<BookAuthor>, bookId: int, ids: seq<int>)
    requires forall i, j :: 0 <= i < j < |ids| ==> ids[i] != ids[j]
    requires forall x :: x in ids ==> BookAuthor(bookId, x) !in links
    ensures LinkAuthors(links, bookId, ids).1
    ensures |LinkAuthors(links, bookId, ids).0| == |links| + |ids|
    ensures LinkAuthors(links, bookId, ids).0[..|links|] == links
    ensures forall k :: 0 <= k < |ids| ==> LinkAuthors(links, bookId, ids).0[|links| + k] == BookAuthor(bookId, ids[k])
  {
    if ids != [] {
      var n := |ids| - 1;
      var init := ids[..n];
      LinkAuthorsFresh(links, bookId, init);
      var prev := LinkAuthors(links, bookId, init).0;
      assert BookAuthor(bookId, ids[n]) !in prev by {
        forall k | 0 <= k < |prev|
          ensures prev[k] != BookAuthor(bookId, ids[n])
        {
          if k < |links| {
            assert prev[k] == links[k];
          } else {
            assert prev[k] == BookAuthor(bookId, init[k - |links|]);
          }
        }
      }
    }
  }

  /** The same id twice in one string fails on its second occurrence. */
  lemma RepeatedAuthorIdFails(links: seq<BookAuthor>, bookId: int, id: int)
    ensures !LinkAuthors(links, bookId, [id, id]).1
  {
    assert [id, id][..1] == [id];
    assert [id][..0] == [];
  }

  /** A prefix of pieces whose links fail decides the result of the whole list. */
  lemma FailedPrefixDecides(links: seq<BookAuthor>, bookId: int, pieces: seq<string>, i: nat)
    requires i <= |pieces|
    requires !LinkAuthors(links, bookId, ParsedIds(pieces[..i])).1
    ensures LinkAuthors(links, bookId, ParsedIds(pieces)) == LinkAuthors(links, bookId, ParsedIds(pieces[..i]))
  {
    ParsedIdsPrefix(pieces, i);
    assert pieces[..|pieces|] == pieces;
    LinkAuthorsStaysFailed(links, bookId, ParsedIds(pieces[..i]), ParsedIds(pieces));
  }

  /** `book_genres` after adding the ids one after another, each only when missing. */
  function LinkGenres(links: seq<BookGenre>, bookId: int, ids: seq<int>): (r: seq<BookGenre>)
  {
    if ids == [] then links
    else WithGenreLink(LinkGenres(links, bookId, ids[..|ids| - 1]), BookGenre(bookId, ids[|ids| - 1]))
  }

  /** One more piece adds at most its own id. */
  lemma ParsedIdsStep(pieces: seq<string>, i: nat)
    requires i < |pieces|
    ensures PieceId(pieces[i]).None? ==> ParsedIds(pieces[..i + 1]) == ParsedIds(pieces[..i])
    ensures PieceId(pieces[i]).Some? ==> ParsedIds(pieces[..i + 1]) == ParsedIds(pieces[..i]) + [PieceId(pieces[i]).value]
  {
    assert pieces[..i + 1][..i] == pieces[..i];
    assert ParsedIds(pieces[..i]) + [] == ParsedIds(pieces[..i]);
  }

  /** One more piece only ever appends to the ids. */
  lemma ParsedIdsGrow(pieces: seq<string>, i: nat)
    requires i < |pieces|
    ensures ParsedIds(pieces[..i]) <= ParsedIds(pieces[..i + 1])
  {
    ParsedIdsStep(pieces, i);
  }

  lemma PrefixTransitive(a: seq<int>, b: seq<int>, c: seq<int>)
    requires a <= b && b <= c
    ensures a <= c
  {
  }

  lemma {:induction false} ParsedIdsPrefix(pieces: seq<string>, i: nat)
    requires i <= |pieces|
    ensures ParsedIds(pieces[..i]) <= ParsedIds(pieces)
    decreases |pieces| - i
  {
    if i < |pieces| {
      ParsedIdsPrefix(pieces, i + 1);
      ParsedIdsGrow(pieces, i);
      PrefixTransitive(ParsedIds(pieces[..i]), ParsedIds(pieces[..i + 1]), ParsedIds(pieces));
    } else {
      assert pieces[..i] == pieces;
    }
  }

  /** Once a link fails, later ids change nothing. */
  lemma {:induction false} LinkAuthorsStaysFailed(links: seq<BookAuthor>, bookId: int, ids: seq<int>, more: seq<int>)
    requires !LinkAuthors(links, bookId, ids).1
    requires ids <= more
    ensures LinkAuthors(links, bookId, more) == LinkAuthors(links, bookId, ids)
    decreases |more|
  {
    if |more| > |ids| {
      var n := |more| - 1;
      assert ids <= more[..n];
      LinkAuthorsStaysFailed(links, bookId, ids, more[..n]);
    } else {
      assert ids == more;
    }
  }

  lemma LinkAuthorsStep(links: seq<BookAuthor>, bookId: int, ids: seq<int>, x: int)
    ensures LinkAuthors(links, bookId, ids + [x]) ==
            var prev := LinkAuthors(links, bookId, ids);
            if !prev.1 || BookAuthor(bookId, x) in prev.0 then (prev.0, false)
            else (prev.0 + [BookAuthor(bookId, x)], true)
  {
    assert (ids + [x])[..|ids|] == ids;
  }

  lemma LinkGenresStep(links: seq<BookGenre>, bookId: int, ids: seq<int>, x: int)
    ensures LinkGenres(links, bookId, ids + [x]) == WithGenreLink(LinkGenres(links, bookId, ids), BookGenre(bookId, x))
  {
    assert (ids + [x])[..|ids|] == ids;
  }

  /** Afterwards the table holds its old links and one link per listed id, and no link
      that was missing before appears twice. */
  lemma {:induction false} LinkGenresMeans(links: seq<BookGenre>, bookId: int, ids: seq<int>)
    ensures forall l :: l in LinkGenres(links, bookId, ids) <==> l in links || (l.bookId == bookId && l.genreId in ids)
    ensures forall l :: l !in links ==> multiset(LinkGenres(links, bookId, ids))[l] <= 1
    ensures forall l :: l in links ==> multiset(LinkGenres(links, bookId, ids))[l] == multiset(links)[l]
  {
    if ids != [] {
      var n := |ids| - 1;
      LinkGenresMeans(links, bookId, ids[..n]);
      var prev := LinkGenres(links, bookId, ids[..n]);
      assert ids == ids[..n] + [ids[n]];
      var link := BookGenre(bookId, ids[n]);
      if link !in prev {
        forall l | l != link
          ensures multiset(prev + [link])[l] == multiset(prev)[l]
        {
        }
      }
    }
  }

  class BookFacade {
    const bookService: BookService

    ghost predicate Valid()
      reads bookService.bookDao.db
    {
      bookService.Valid()
    }

    constructor (bookService: BookService)
      ensures this.bookService == bookService
    {
      this.bookService := bookService;
    }

    /** Stamps the creation time and a zero sold count, then creates through the service. */
    method CreateBook(book: Book, now: int) returns (r: Result<Book>)
      requires Valid()
      modifies bookService.bookDao.db
      ensures Valid()
      ensures old(bookService.bookDao.ExistsByTitleAndAllAuthors(book.title, AuthorIds(book.authors))) <==> r == Err(IllegalArgument)
      ensures r.Err? ==> r.error == IllegalArgument
      ensures r.Err? ==> bookService.bookDao.db.books == old(bookService.bookDao.db.books) &&
                         bookService.bookDao.db.bookGenres == old(bookService.bookDao.db.bookGenres)
      ensures r.Ok? ==> r.value == book.(id := old(bookService.bookDao.db.nextBookId), createdAt := now, soldCount := 0)
      ensures r.Ok? ==> bookService.bookDao.db.books == old(bookService.bookDao.db.books) + [AsBookRow(r.value)]
      ensures r.Ok? ==> bookService.bookDao.db.bookGenres == old(bookService.bookDao.db.bookGenres) +
                        GenreLinks(bookService.bookDao.db.genres, r.value.id, NamesOrEmpty(book.genres))
      ensures unchanged(bookService.bookDao.db`authors, bookService.bookDao.db`genres, bookService.bookDao.db`bookAuthors)
    {
      r := bookService.CreateBook(book.(createdAt := now, soldCount := 0), now);
    }

    /** Links the book to each author id the string names, in order; stops at the
        first link that already exists. The book must be stored. */
    method LinkAuthorIds(bookId: int, authorIds: Option<string>) returns (ok: bool)
      requires Valid()
      requires exists b :: b in bookService.bookDao.db.books && b.id == bookId
      modifies bookService.bookDao.db
      ensures Valid()
      ensures (bookService.bookDao.db.bookAuthors, ok) == LinkAuthors(old(bookService.bookDao.db.bookAuthors), bookId, LinkIds(authorIds))
      ensures unchanged(bookService.bookDao.db`authors, bookService.bookDao.db`books, bookService.bookDao.db`genres,
                        bookService.bookDao.db`bookGenres)
    {
      if authorIds.None? || authorIds.value == [] {
        return true;
      }
      ok := LinkAuthorPieces(bookId, JavaSplit(authorIds.value));
    }

    /** One `addAuthorToBook` call of the loop: the link goes in unless it is there. */
    method LinkAuthorId(bookId: int, authorId: int) returns (linked: bool)
      requires Valid()
      requires exists b :: b in bookService.bookDao.db.books && b.id == bookId
      modifies bookService.bookDao.db
      ensures Valid()
      ensures linked <==> BookAuthor(bookId, authorId) !in old(bookService.bookDao.db.bookAuthors)
      ensures bookService.bookDao.db.bookAuthors ==
                if linked then old(bookService.bookDao.db.bookAuthors) + [BookAuthor(bookId, authorId)]
                else old(bookService.bookDao.db.bookAuthors)
      ensures unchanged(bookService.bookDao.db`authors, bookService.bookDao.db`books, bookService.bookDao.db`genres,
                        bookService.bookDao.db`bookGenres)
    {
      var added := bookService.AddAuthorToBook(bookId, authorId);
      linked := added.Ok?;
    }

    /** The loop of `createBookWithRelations` over the author pieces. */
    method LinkAuthorPieces(bookId: int, pieces: seq<string>) returns (ok: bool)
      requires Valid()
      requires exists b :: b in bookService.bookDao.db.books && b.id == bookId
      modifies bookService.bookDao.db
      ensures Valid()
      ensures (bookService.bookDao.db.bookAuthors, ok) == LinkAuthors(old(bookService.bookDao.db.bookAuthors), bookId, ParsedIds(pieces))
      ensures unchanged(bookService.bookDao.db`authors, bookService.bookDao.db`books, bookService.bookDao.db`genres,
                        bookService.bookDao.db`bookGenres)
    {
      var db: CatalogDb := bookService.bookDao.db;
      ghost var start := db.bookAuthors;
      var i := 0;
      while i < |pieces|
        invariant 0 <= i <= |pieces|
        invariant Valid()
        invariant unchanged(db`authors, db`books, db`genres, db`bookGenres)
        invariant LinkAuthors(start, bookId, ParsedIds(pieces[..i])) == (db.bookAuthors, true)
      {
        ParsedIdsStep(pieces, i);
        var id := PieceId(pieces[i]);
        if id.Some? {
          LinkAuthorsStep(start, bookId, ParsedIds(pieces[..i]), id.value);
          var linked := LinkAuthorId(bookId, id.value);
          if !linked {
            FailedPrefixDecides(start, bookId, pieces, i + 1);
            return false;
          }
        }
        i := i + 1;
      }
      assert pieces[..i] == pieces;
      ok := true;
    }

    /** Adds each genre id the string names, in order, skipping links that exist. */
    method LinkGenreIds(bookId: int, genreIds: Option<string>)
      requires Valid()
      modifies bookService.bookDao.db
      ensures Valid()
      ensures bookService.bookDao.db.bookGenres == LinkGenres(old(bookService.bookDao.db.bookGenres), bookId, LinkIds(genreIds))
      ensures unchanged(bookService.bookDao.db`authors, bookService.bookDao.db`books, bookService.bookDao.db`genres,
                        bookService.bookDao.db`bookAuthors)
    {
      if genreIds.None? || genreIds.value == [] {
        return;
      }
      LinkGenrePieces(bookId, JavaSplit(genreIds.value));
    }

    /** The loop of `createBookWithRelations` over the genre pieces. */
    method LinkGenrePieces(bookId: int, pieces: seq<string>)
      requires Valid()
      modifies bookService.bookDao.db
      ensures Valid()
      ensures bookService.bookDao.db.bookGenres == LinkGenres(old(bookService.bookDao.db.bookGenres), bookId, ParsedIds(pieces))
      ensures unchanged(bookService.bookDao.db`authors, bookService.bookDao.db`books, bookService.bookDao.db`genres,
                        bookService.bookDao.db`bookAuthors)
    {
      var db: CatalogDb := bookService.bookDao.db;
      ghost var start := db.bookGenres;
      var i := 0;
      while i < |pieces|
        invariant 0 <= i <= |pieces|
        invariant Valid()
        invariant unchanged(db`authors, db`books, db`genres, db`bookAuthors)
        invariant db.bookGenres == LinkGenres(start, bookId, ParsedIds(pieces[..i]))
      {
        ParsedIdsStep(pieces, i);
        var id := PieceId(pieces[i]);
        if id.Some? {
          LinkGenresStep(start, bookId, ParsedIds(pieces[..i]), id.value);
          var _ := bookService.AddGenreToBook(bookId, id.value);
        }
        i := i + 1;
      }
      assert pieces[..i] == pieces;
    }

    /** Creates the book, then links each author id and each genre id the two strings
        name. A duplicate author link ends the call with an error after the book and the
        earlier links are stored; genre links never fail. */
    method CreateBookWithRelations(book: Book, authorIds: Option<string>, genreIds: Option<string>, now: int)
      returns (r: Result<Book>)
      requires Valid()
      modifies bookService.bookDao.db
      ensures Valid()
      ensures old(bookService.bookDao.ExistsByTitleAndAllAuthors(book.title, AuthorIds(book.authors))) <==> r == Err(IllegalArgument)
      ensures r == Err(IllegalArgument) ==>
                bookService.bookDao.db.books == old(bookService.bookDao.db.books) &&
                bookService.bookDao.db.bookAuthors == old(bookService.bookDao.db.bookAuthors) &&
                bookService.bookDao.db.bookGenres == old(bookService.bookDao.db.bookGenres)
      ensures r != Err(IllegalArgument) ==>
                var saved := book.(id := old(bookService.bookDao.db.nextBookId), createdAt := now, soldCount := 0);
                var linked := LinkAuthors(old(bookService.bookDao.db.bookAuthors), saved.id, LinkIds(authorIds));
                var withGenres := old(bookService.bookDao.db.bookGenres) +
                                  GenreLinks(bookService.bookDao.db.genres, saved.id, NamesOrEmpty(book.genres));
                bookService.bookDao.db.books == old(bookService.bookDao.db.books) + [AsBookRow(saved)] &&
                bookService.bookDao.db.bookAuthors == linked.0 &&
                r == (if linked.1 then Ok(saved) else Err(DuplicateKey)) &&
                bookService.bookDao.db.bookGenres == (if linked.1 then LinkGenres(withGenres, saved.id, LinkIds(genreIds)) else withGenres)
      ensures unchanged(bookService.bookDao.db`authors, bookService.bookDao.db`genres)
    {
      var created := CreateBook(book, now);
      if created.Err? {
        return created;
      }
      var saved := created.value;
      assert AsBookRow(saved) in bookService.bookDao.db.books;
      var ok := LinkAuthorIds(saved.id, authorIds);
      if !ok {
        return Err(DuplicateKey);
      }
      LinkGenreIds(saved.id, genreIds);
      r := Ok(saved);
    }

    /** NotFound for an unknown id; otherwise the service update with the argument book
        (the fields copied onto the loaded book are not what gets written). */
    method UpdateBook(book: Book) returns (r: Result<Book>)
      requires Valid()
      modifies bookService.bookDao.db
      ensures Valid()
      ensures (forall b :: b in old(bookService.bookDao.db.books) ==> b.id != book.id) <==> r == Err(NotFound)
      ensures r.Err? ==> r.error == NotFound
      ensures r.Err? ==> bookService.bookDao.db.books == old(bookService.bookDao.db.books) &&
                         bookService.bookDao.db.bookGenres == old(bookService.bookDao.db.bookGenres)
      ensures r.Ok? ==> r.value == book && bookService.bookDao.db.books == ReplaceBook(old(bookService.bookDao.db.books), book)
      ensures r.Ok? ==> bookService.bookDao.db.bookGenres ==
                          Filter(old(bookService.bookDao.db.bookGenres), (l: BookGenre) => l.bookId != book.id) +
                          GenreLinks(bookService.bookDao.db.genres, book.id, NamesOrEmpty(book.genres))
      ensures r.Ok? ==> forall l: BookGenre :: l.bookId == book.id ==>
                (l in bookService.bookDao.db.bookGenres <==>
                 l in GenreLinks(bookService.bookDao.db.genres, book.id, NamesOrEmpty(book.genres)))
      ensures unchanged(bookService.bookDao.db`authors, bookService.bookDao.db`genres, bookService.bookDao.db`bookAuthors)
    {
      var existing := bookService.GetBookById(book.id);
      if existing.Err? {
        return Err(NotFound);
      }
      r := bookService.UpdateBook(book);
    }
  }

  /** " 2" and "x" are skipped, "7" is linked: `parseLong` does not trim. */
  lemma SkipsUnparsablePieces()
    ensures ParsedIds([" 2", "x", "7"]) == [7]
  {
    var pieces := [" 2", "x", "7"];
    assert pieces[..2] == [" 2", "x"] && pieces[..2][..1] == [" 2"] && pieces[..2][..1][..0] == [];
    assert DigitsValue("7") == 7 by {
      assert "7"[..0] == [];
    }
  }
}
