/**
 * The unit-test scenarios of the book database, replayed against the model: each
 * method builds a database, runs the operations of one test and asserts the
 * counts and answers the test expects. The facts about the concrete catalogs are
 * proved once, as lemmas, and the methods rely on them.
 */
module Scenarios {
  import opened Books
  import opened BookIndex
  import opened Loading
  import opened BookDatabase

  /** A title or author name that is not `null`. */
  function S(s: string): (name: JString)
    ensures name.NonNull? && name.value == s
  {
    NonNull(s)
  }

  const BookA := Book(S("Book A"), [S("Alice"), S("Bob")])
  const BookB := Book(S("Book B"), [S("Alice"), S("Claire")])

  /** The catalog of the shared-author tests: "Book A" by Alice and Bob, "Book B" by
      Alice and Claire. */
  const SharedTitles: seq<JString> := [S("Book A"), S("Book B")]
  const SharedAuthors: seq<Nullable<seq<JString>>> := [NonNull(BookA.authors), NonNull(BookB.authors)]
  const Shared: TitleIndex := map["Book A" := BookA, "Book B" := BookB]

  /** The names used below are distinct strings. */
  lemma NamesDiffer()
    ensures "Alice" != "Bob" && "Alice" != "Claire" && "Bob" != "Claire"
    ensures "Book A" != "Book B" && "Book A" != "Book C" && "Book B" != "Book C"
    ensures "Book X" != "Book A" && "Book X" != "Book B"
  {
    assert "Alice"[0] != "Bob"[0] && "Alice"[0] != "Claire"[0] && "Bob"[0] != "Claire"[0];
    assert "Book A"[5] != "Book B"[5] && "Book A"[5] != "Book C"[5] && "Book B"[5] != "Book C"[5];
    assert "Book X"[5] != "Book A"[5] && "Book X"[5] != "Book B"[5];
  }

  /** Loading the shared-author catalog into an empty database stores exactly it. */
  lemma SharedLoads()
    ensures InitOutcome(NonNull(SharedTitles), NonNull(SharedAuthors)) == Done
    ensures InitResult(map[], NonNull(SharedTitles), NonNull(SharedAuthors)) == Shared
  {
    NamesDiffer();
    assert FirstInvalid(SharedTitles, SharedAuthors) == 2;
    var ab := WithBook(map[], "Book A", BookA.authors);
    assert Loaded(map[], SharedTitles, SharedAuthors, 1) == ab;
    assert Loaded(map[], SharedTitles, SharedAuthors, 2) == WithBook(ab, "Book B", BookB.authors);
  }

  /** The titles filed under each author of the shared-author catalog. */
  lemma SharedTitlesBy()
    ensures TitlesBy(Shared, S("Alice")) == {"Book A", "Book B"}
    ensures TitlesBy(Shared, S("Bob")) == {"Book A"}
    ensures TitlesBy(Shared, S("Claire")) == {"Book B"}
  {
    NamesDiffer();
  }

  /** The authors of the shared-author catalog. */
  lemma SharedAuthorsOf()
    ensures AuthorsOf(Shared) == {S("Alice"), S("Bob"), S("Claire")}
  {
    SharedTitlesBy();
    forall a | a in AuthorsOf(Shared) ensures a in {S("Alice"), S("Bob"), S("Claire")} {
      var t :| t in TitlesBy(Shared, a);
    }
  }

  /** The author index of the shared-author catalog. */
  lemma SharedIndex()
    ensures AuthorIndex(Shared) == map[S("Alice") := {"Book A", "Book B"}, S("Bob") := {"Book A"}, S("Claire") := {"Book B"}]
    ensures |Shared| == 2 && |AuthorIndex(Shared)| == 3
  {
    NamesDiffer();
    SharedTitlesBy();
    SharedAuthorsOf();
    var idx := AuthorIndex(Shared);
    var expected := map[S("Alice") := {"Book A", "Book B"}, S("Bob") := {"Book A"}, S("Claire") := {"Book B"}];
    assert idx.Keys == expected.Keys;
    forall a | a in idx ensures idx[a] == expected[a] {
    }
    assert Shared.Keys == {"Book A", "Book B"};
  }

  /** Removing Bob's books from the shared-author catalog leaves only "Book B", whose
      only authors are Alice and Claire. */
  lemma WithoutBob()
    ensures WithoutAuthor(Shared, S("Bob")) == map["Book B" := BookB]
    ensures AuthorIndex(map["Book B" := BookB]) == map[S("Alice") := {"Book B"}, S("Claire") := {"Book B"}]
  {
    NamesDiffer();
    var r := WithoutAuthor(Shared, S("Bob"));
    assert S("Bob") in BookA.authors;
    assert S("Bob") !in BookB.authors;
    assert r.Keys == {"Book B"};
    var onlyB := map["Book B" := BookB];
    assert TitlesBy(onlyB, S("Alice")) == {"Book B"};
    assert TitlesBy(onlyB, S("Claire")) == {"Book B"};
    assert AuthorsOf(onlyB) == {S("Alice"), S("Claire")} by {
      forall a | a in AuthorsOf(onlyB) ensures a in {S("Alice"), S("Claire")} {
        var t :| t in TitlesBy(onlyB, a);
      }
    }
  }

  /** A database holding the shared-author catalog. */
  method SharedAuthorDatabase() returns (db: DefaultBookDatabase)
    ensures fresh(db) && db.Valid() && db.titleToBook == Shared
  {
    db := new DefaultBookDatabase();
    var outcome := db.Init(NonNull(SharedTitles), NonNull(SharedAuthors));
    SharedLoads();
    assert outcome == Done;
  }

  /** testGetAllBooksForGivenAuthor: each author's books, a book shared by two authors
      included. */
  method TestBooksByAuthor()
  {
    var db := SharedAuthorDatabase();
    SharedIndex();
    assert db.BooksSize() == 2 && db.AuthorsSize() == 3;
    assert db.QueryBookByAuthor(S("Alice")) == {BookA, BookB};
    assert db.QueryBookByAuthor(S("Bob")) == {BookA};
    assert db.QueryBookByAuthor(S("Claire")) == {BookB};
  }

  /** The second half of testGetAllBooksForGivenAuthor: after Bob's books are removed,
      Alice's books are exactly Claire's. */
  method TestRemoveBobThenQuery()
  {
    var db := SharedAuthorDatabase();
    SharedIndex();
    WithoutBob();
    var removed := db.RemoveBooksByAuthor(S("Bob"));
    assert removed;
    assert db.authorToTitles[S("Alice")] == db.authorToTitles[S("Claire")];
    assert db.QueryBookByAuthor(S("Alice")) == db.QueryBookByAuthor(S("Claire"));
  }

  /** testGetAllBooksForGivenAuthorWhichDoNotExist and the author half of
      testNullQueries. */
  method TestBooksByUnknownAuthor()
  {
    var db := SharedAuthorDatabase();
    SharedIndex();
    assert db.QueryBookByAuthor(S("Diana")) == {};
    assert db.QueryBookByAuthor(Null) == {};
  }

  /** testGetAllAuthorsForAGivenBook and the title half of testNullQueries. */
  method TestAuthorsByTitle()
  {
    var db := SharedAuthorDatabase();
    NamesDiffer();
    assert db.QueryAuthorsByBookTitle(S("Book A")) == [S("Alice"), S("Bob")];
    assert db.QueryAuthorsByBookTitle(S("Book B")) == [S("Alice"), S("Claire")];
    assert db.QueryAuthorsByBookTitle(S("Book X")) == [];
    assert db.QueryAuthorsByBookTitle(Null) == [];
  }

  /** testRemoveAllBooksForSharedAuthor: removing Alice removes both books and every author. */
  method TestRemoveAllBooksForSharedAuthor()
  {
    var db := SharedAuthorDatabase();
    SharedIndex();
    var removed := db.RemoveBooksByAuthor(S("Alice"));
    assert removed;
    assert db.titleToBook == map[];
    assert db.BooksSize() == 0 && db.AuthorsSize() == 0;
  }
  /** testInitNullArguments and testInitWithDifferentSize: malformed lists are rejected
      and leave the database empty. */
  method TestInitRejectsMalformedLists()
  {
    var db := new DefaultBookDatabase();
    var outcome := db.Init(Null, Null);
    assert outcome == Failed(NullList);
    assert db.BooksSize() == 0;
    outcome := db.Init(NonNull([S("Book A"), S("Book B")]), NonNull([]));
    assert outcome == Failed(SizeMismatch);
    assert db.BooksSize() == 0;
  }

  /** testOneBookOneAuthorRemoveBook: removing the only book also removes its only author. */
  method TestOneBookOneAuthorRemoveBook()
  {
    var db := new DefaultBookDatabase();
    var outcome := db.Init(NonNull([S("Book A")]), NonNull([NonNull([S("Alice")])]));
    assert Loaded(map[], [S("Book A")], [NonNull([S("Alice")])], 1) == map["Book A" := Book(S("Book A"), [S("Alice")])];
    assert db.BooksSize() == 1;
    var removed := db.RemoveBookByTitle(S("Book A"));
    assert removed;
    assert db.titleToBook == map[];
    DefaultBookDatabase.EmptyIndex();
    assert db.BooksSize() == 0 && db.AuthorsSize() == 0;
  }

  /** testShutdown: shutting down empties the database, and shutting down again changes
      nothing. */
  method TestShutDownTwice()
  {
    var db := SharedAuthorDatabase();
    db.ShutDown();
    assert db.BooksSize() == 0 && db.AuthorsSize() == 0;
    db.ShutDown();
    assert db.BooksSize() == 0 && db.AuthorsSize() == 0;
  }
}
