/**
 * The default book database: an in-memory, two-way index over a book catalog.
 *
 * The object owns two maps that every mutation updates together: the title index
 * (title -> book) and the author index (author -> titles of that author's books).
 * `Valid()` is the invariant every public operation keeps: every stored book is
 * filed under its own title and has an author, and the author index is exactly
 * the one the title index determines (`BookIndex.AuthorIndex`), so an author is
 * a key exactly when at least one stored book lists it.
 */
module BookDatabase {
  import opened Books
  import opened BookIndex
  import opened Loading

  class DefaultBookDatabase {
    /** `titleToBookMap`. Titles stored here are never `null`. */
    var titleToBook: map<string, Book>
    /** `authorToBooksMap`; a set of titles stands for the set of books with those titles. */
    var authorToTitles: map<JString, set<string>>

    /** The consistency of the two indexes. */
    ghost predicate Valid()
      reads this
    {
      WellFormed(titleToBook) && authorToTitles == AuthorIndex(titleToBook)
    }

    /** A new, empty database. */
    constructor ()
      ensures Valid()
      ensures titleToBook == map[] && authorToTitles == map[]
    {
      titleToBook := map[];
      authorToTitles := map[];
      new;
      EmptyIndex();
    }

    /** The empty title index determines the empty author index. */
    static lemma EmptyIndex()
      ensures AuthorIndex(map[]) == map[]
    {
      assert AuthorsOf(map[]) == {};
    }

    /** `init`: bulk-loads the parallel lists of titles and author lists, adding to what
        is stored. It fails before touching anything when a list is `null` or the sizes
        differ; it fails at the first position with a `null` title or a `null` or empty
        author list, keeping what it inserted before; it skips a title already stored. */
    method Init(titles: Nullable<seq<JString>>, authorLists: Nullable<seq<Nullable<seq<JString>>>>)
      returns (outcome: Outcome)
      requires Valid()
      modifies this
      ensures Valid()
      ensures outcome == InitOutcome(titles, authorLists)
      ensures titleToBook == InitResult(old(titleToBook), titles, authorLists)
    {
      if titles.Null? || authorLists.Null? {
        return Failed(NullList);
      }
      var ts, als := titles.value, authorLists.value;
      if |ts| != |als| {
        return Failed(SizeMismatch);
      }
      ghost var m0 := titleToBook;
      for i := 0 to |ts|
        invariant Valid()
        invariant forall j :: 0 <= j < i ==> ValidEntry(ts[j], als[j])
        invariant titleToBook == Loaded(m0, ts, als, i)
      {
        var title, authors := ts[i], als[i];
        if title.Null? || authors.Null? || |authors.value| == 0 {
          assert !ValidEntry(ts[i], als[i]);
          assert FirstInvalid(ts, als) == i;
          return Failed(InvalidEntry(i));
        }
        var book := Book(title, authors.value);
        var _ := AddBook(book);
      }
      assert FirstInvalid(ts, als) == |ts|;
      return Done;
    }

    /** `shutDown`: empties both indexes, whatever they held. */
    method ShutDown()
      modifies this
      ensures Valid()
      ensures titleToBook == map[] && authorToTitles == map[]
    {
      titleToBook := map[];
      authorToTitles := map[];
      EmptyIndex();
    }

    /** `addBook`: stores a book under its title and files it under each of its authors,
        unless the title is already stored; then nothing changes and it returns false. */
    method AddBook(book: Book) returns (added: bool)
      requires Valid()
      requires book.title.NonNull? && |book.authors| > 0
      modifies this
      ensures Valid()
      ensures added <==> book.title.value !in old(titleToBook)
      ensures titleToBook == WithBook(old(titleToBook), book.title.value, book.authors)
      ensures !added ==> authorToTitles == old(authorToTitles)
      ensures added ==> authorToTitles == Link(old(authorToTitles), book.title.value, book.authors)
    {
      var t := book.title.value;
      if t in titleToBook {
        return false;
      }
      ghost var m0 := titleToBook;
      titleToBook := titleToBook[t := book];
      LinkIndex(m0, t, book);
      CreateAuthorToBookMapping(book);
      return true;
    }

    /** `createAuthorToBookMapping`: files the book's title under each of its authors,
        creating an empty entry first for an author that has none. */
    method CreateAuthorToBookMapping(book: Book)
      requires book.title.NonNull?
      modifies this
      ensures titleToBook == old(titleToBook)
      ensures authorToTitles == Link(old(authorToTitles), book.title.value, book.authors)
    {
      var t, authors := book.title.value, book.authors;
      LinkUnlinkNone(authorToTitles, t);
      for i := 0 to |authors|
        invariant titleToBook == old(titleToBook)
        invariant authorToTitles == Link(old(authorToTitles), t, authors[..i])
      {
        var author := authors[i];
        LinkStep(old(authorToTitles), t, authors[..i], author);
        assert authors[..i + 1] == authors[..i] + [author];
        if author !in authorToTitles {
          authorToTitles := authorToTitles[author := {}];
        }
        authorToTitles := authorToTitles[author := authorToTitles[author] + {t}];
      }
      assert authors[..|authors|] == authors;
    }

    /** `deleteAuthorToBookMapping`: removes the book's title from the set of each of its
        authors, and removes an author whose set became empty. */
    method DeleteAuthorToBookMapping(book: Book)
      requires book.title.NonNull?
      modifies this
      ensures titleToBook == old(titleToBook)
      ensures authorToTitles == Unlink(old(authorToTitles), book.title.value, book.authors)
    {
      var t, authors := book.title.value, book.authors;
      LinkUnlinkNone(authorToTitles, t);
      for i := 0 to |authors|
        invariant titleToBook == old(titleToBook)
        invariant authorToTitles == Unlink(old(authorToTitles), t, authors[..i])
      {
        var author := authors[i];
        UnlinkStep(old(authorToTitles), t, authors[..i], author);
        assert authors[..i + 1] == authors[..i] + [author];
        if author in authorToTitles {
          var books := authorToTitles[author] - {t};
          authorToTitles := authorToTitles[author := books];
          if books == {} {
            authorToTitles := authorToTitles - {author};
          }
        }
      }
      assert authors[..|authors|] == authors;
    }

    /** `removeBookByTitle`: removes the book with this title and unfiles it from each of
        its authors, dropping authors left without books. Returns false, changing
        nothing, for a `null` or unknown title. */
    method RemoveBookByTitle(title: JString) returns (removed: bool)
      requires Valid()
      modifies this
      ensures Valid()
      ensures removed <==> title.NonNull? && title.value in old(titleToBook)
      ensures removed ==> titleToBook == old(titleToBook) - {title.value}
      ensures removed ==>
                authorToTitles == Unlink(old(authorToTitles), title.value, old(titleToBook)[title.value].authors)
      ensures !removed ==> titleToBook == old(titleToBook) && authorToTitles == old(authorToTitles)
    {
      if title.Null? || title.value !in titleToBook {
        return false;
      }
      var t := title.value;
      var bookToRemove := titleToBook[t];
      ghost var m0 := titleToBook;
      titleToBook := titleToBook - {t};
      UnlinkIndex(m0, t);
      DeleteAuthorToBookMapping(bookToRemove);
      return true;
    }

    /** `removeBooksByAuthor`: removes, title by title, every book that lists the author,
        working on a copy of the author's set. Returns false, changing nothing, for an
        author that is not a key. */
    method RemoveBooksByAuthor(author: JString) returns (removed: bool)
      requires Valid()
      modifies this
      ensures Valid()
      ensures removed <==> author in old(authorToTitles)
      ensures titleToBook == WithoutAuthor(old(titleToBook), author)
      ensures author !in authorToTitles
      ensures !removed ==> authorToTitles == old(authorToTitles)
    {
      if author !in authorToTitles {
        NoBooksOfUnknownAuthor(titleToBook, author);
        return false;
      }
      var books := authorToTitles[author];
      ghost var m0 := titleToBook;
      var remaining := books;
      while remaining != {}
        invariant Valid()
        invariant remaining <= books
        invariant books == TitlesBy(m0, author)
        invariant titleToBook == m0 - (books - remaining)
        decreases remaining
      {
        var t :| t in remaining;
        var _ := RemoveBookByTitle(NonNull(t));
        remaining := remaining - {t};
      }
      assert titleToBook == WithoutAuthor(m0, author);
      return true;
    }

    /** Removing the books of an author no book lists removes nothing. */
    static lemma NoBooksOfUnknownAuthor(m: TitleIndex, a: JString)
      requires a !in AuthorIndex(m)
      ensures WithoutAuthor(m, a) == m
    {
    }

    /** `queryBookByAuthor`: the books that list the author, or the empty set for an
        author that is not a key. A `null` author is a key once a stored book lists it. */
    function QueryBookByAuthor(author: JString): (books: set<Book>)
      reads this
      requires Valid()
      ensures forall b :: b in books <==>
                b.title.NonNull? && b.title.value in titleToBook &&
                titleToBook[b.title.value] == b && author in b.authors
      ensures author !in authorToTitles ==> books == {}
    {
      if author in authorToTitles then
        set t | t in authorToTitles[author] :: titleToBook[t]
      else {}
    }

    /** `queryAuthorsByBookTitle`: the authors of the book with this title, in their
        original order, or the empty list for a title that is `null` or unknown. */
    function QueryAuthorsByBookTitle(title: JString): (authors: seq<JString>)
      reads this
      requires Valid()
      ensures title.NonNull? && title.value in titleToBook ==>
                titleToBook[title.value] == Book(title, authors)
      ensures title.Null? || title.value !in titleToBook ==> authors == []
    {
      if title.Null? || title.value !in titleToBook then []
      else titleToBook[title.value].authors
    }

    /** `booksSize`: the number of stored books. */
    function BooksSize(): (n: nat)
      reads this
      ensures n == |titleToBook.Keys|
    {
      |titleToBook|
    }

    /** `authorsSize`: the number of distinct authors over all stored books. */
    function AuthorsSize(): (n: nat)
      reads this
      requires Valid()
      ensures n == |AuthorsOf(titleToBook)|
    {
      |authorToTitles|
    }
  }

  /** The two queries agree: a stored book is among an author's books exactly when
      that author is in the book's author list. */
  lemma QueriesAgree(db: DefaultBookDatabase, t: string, a: JString)
    requires db.Valid()
    requires t in db.titleToBook
    ensures db.titleToBook[t] in db.QueryBookByAuthor(a) <==> a in db.QueryAuthorsByBookTitle(NonNull(t))
  {
  }
}
