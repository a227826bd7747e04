/** Authors, books and genres as values (`model/Author.java`, `model/Book.java`),
    the link rows that join them, and the orders the catalog lists them in. */
module CatalogModel {
  import opened Common
  import opened Sorting
  import opened Text
  import OrderModel

  /** `birthdate` is None when the column is null; dates are day numbers. */
  datatype Author = Author(
    id: int,
    firstName: string,
    lastName: string,
    bio: string,
    birthdate: Option<int>,
    country: string)

  /** `genres` and `authors` are None while not loaded (the Java lists are null).
      Prices are exact minor currency units; `language` is the language code. */
  datatype Book = Book(
    id: int,
    title: string,
    description: string,
    language: string,
    isbn: string,
    publishedAt: int,
    coverImageUrl: string,
    price: int,
    currency: OrderModel.Currency,
    createdAt: int,
    soldCount: int,
    genres: Option<seq<string>>,
    authors: Option<seq<Author>>)

  datatype Genre = Genre(id: int, name: string)

  /** A row of `book_authors`. */
  datatype BookAuthor = BookAuthor(bookId: int, authorId: int)

  /** A row of `book_genres`. */
  datatype BookGenre = BookGenre(bookId: int, genreId: int)

  /** ORDER BY last_name, first_name. */
  predicate AuthorLe(a: Author, b: Author)
  {
    if a.lastName != b.lastName then StrLe(a.lastName, b.lastName) else StrLe(a.firstName, b.firstName)
  }

  lemma AuthorLeIsPreorder()
    ensures TotalPreorder(AuthorLe)
  {
    forall a: Author, b: Author
      ensures AuthorLe(a, b) || AuthorLe(b, a)
    {
      StrLeTotal(a.lastName, b.lastName);
      StrLeTotal(a.firstName, b.firstName);
    }
    forall a: Author, b: Author, c: Author | AuthorLe(a, b) && AuthorLe(b, c)
      ensures AuthorLe(a, c)
    {
      if a.lastName != b.lastName && b.lastName != c.lastName {
        StrLeTransitive(a.lastName, b.lastName, c.lastName);
        if a.lastName == c.lastName {
          StrLeAntisymmetric(a.lastName, b.lastName);
        }
      } else if a.lastName == b.lastName && b.lastName == c.lastName {
        StrLeTransitive(a.firstName, b.firstName, c.firstName);
      }
    }
  }

  /** ORDER BY title. */
  predicate TitleLe(a: Book, b: Book)
  {
    StrLe(a.title, b.title)
  }

  lemma TitleLeIsPreorder()
    ensures TotalPreorder(TitleLe)
  {
    forall a: Book, b: Book
      ensures TitleLe(a, b) || TitleLe(b, a)
    {
      StrLeTotal(a.title, b.title);
    }
    forall a: Book, b: Book, c: Book | TitleLe(a, b) && TitleLe(b, c)
      ensures TitleLe(a, c)
    {
      StrLeTransitive(a.title, b.title, c.title);
    }
  }

  /** `getAuthorIdsFromAuthors`: the authors' ids in list order; nothing for a null list. */
  function AuthorIds(authors: Option<seq<Author>>): (ids: seq<int>)
    ensures authors.None? ==> ids == []
    ensures authors.Some? ==> ids == IdsOf(authors.value)
  {
    if authors.None? then [] else IdsOf(authors.value)
  }

  function IdsOf(authors: seq<Author>): (ids: seq<int>)
    ensures |ids| == |authors|
    ensures forall i :: 0 <= i < |ids| ==> ids[i] == authors[i].id
  {
    if authors == [] then [] else [authors[0].id] + IdsOf(authors[1..])
  }
}
