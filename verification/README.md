# Book database: a verified model of the two-way book index

This project models the in-memory book database of `helloWorld`: a catalog of books,
each a title and an ordered list of authors, indexed twice.

- The title index maps each title to its book.
- The author index maps each author to the set of that author's books.

Because `Book` equality and hashing use only the title, a set of books is modelled
as a set of titles.

The state lives in the class `BookDatabase.DefaultBookDatabase`. Its two map fields
are updated in place by methods whose loops follow the Java loops one step at a time.
Its invariant `Valid()` says three things:

- every stored book is filed under its own title and has an author;
- the author index is exactly the one the title index determines
  (`BookIndex.AuthorIndex`);
- so an author is a key exactly when at least one stored book lists it, and its set
  holds exactly the titles of those books.

Every public operation keeps `Valid()`. Each method's new state is tied to a
specification function:

| operation | specification |
|---|---|
| insertion | `WithBook` on titles, `Link` on authors |
| removal by title | `Unlink` on authors |
| removal by author | `WithoutAuthor` on titles |
| `init` | `InitOutcome` and `InitResult`, in module `Loading` |

Lemmas then prove that the specification functions keep the two indexes consistent
and do what the interface documentation promises.

Java `null` is explicit. `Nullable<T>` stands for a reference that may be `null`,
and `JString` for a `String` reference. The title index is keyed by non-null
titles. The author index is keyed by `JString`, because `HashMap` accepts a `null`
author inside an author list.

The modules, in dependency order:

- `Books`: the `Book` value, `equals` and `hashCode`;
- `BookIndex`: the two indexes as values, and the functions relating them;
- `Loading`: what `init` does, as functions of its arguments;
- `BookDatabase`: the class;
- `Scenarios`: unit-test scenarios replayed against the class.

`Book.hashCode` follows the documented JDK formulas, with 32-bit wrap-around:

- `Objects.hash(x)` is `31 + hash(x)`, with 0 for `null`;
- `String.hashCode` is `h = 31 * h + c` over the characters.

Where the comments and the code of `init` differ, the model follows the code:

- `init` rejects only a `null` title (src/main/java/DefaultBookDatabaseImpl.java:53), so an empty-string title is stored like any other.
- The comment on `init` says duplicate titles are not allowed, but the code skips a duplicate and keeps the first book.
- `init` does not clear what is already stored, and it does not roll back when it fails part-way.
- The comment on `queryBookByAuthor` promises an empty set for `null` queries (src/main/java/DefaultBookDatabaseImpl.java:173). That fails once a stored book lists a `null` author, because `init` checks the author list but not its elements, and `HashMap` stores the `null` key. The query then returns that author's books.

## Model

| member | source | states |
|---|---|---|
| Books.Equals | src/main/java/Book.java:27-32 | `equals`, with its identity shortcut, holds only for a `Book` argument, and for a `Book` exactly when the titles are equal |
| Books.StringHash | src/main/java/Book.java:35-37 | the hash of a title is a Java `int`; the empty title hashes to 0 and a one-character title to its character code |
| Books.HashCode | src/main/java/Book.java:35-37 | the book's hash is a Java `int` computed from the title alone: 31 for a `null` title, otherwise 31 plus the title's hash modulo 2^32 |
| Books.AccessorsReturnArguments | src/main/java/Book.java:21-53 | `getBookTitle` and `getAuthors` return exactly what the constructor was given, author order included |
| Books.EqualsIsTitleEquality | src/main/java/Book.java:27-32 | two books are equal iff their titles are equal, whatever their author lists |
| Books.EqualsIsEquivalence | src/main/java/Book.java:27-32 | `equals` is reflexive, symmetric and transitive on books |
| Books.NeverEqualsNonBook | src/main/java/Book.java:28-29 | a book never equals `null` or an object that is not a `Book` |
| Books.NullTitlesAreEqual | src/main/java/Book.java:31 | two books whose titles are both `null` are equal, as `Objects.equals` compares them |
| Books.EqualBooksHaveEqualHashes | src/main/java/Book.java:35-37 | equal books have equal hash codes; the hash does not depend on the authors |
| BookIndex.IndexConsistency | src/main/java/DefaultBookDatabaseImpl.java:97-125 | in the author index that a title index determines, an author is a key iff some stored book lists it, no author's set is empty, and an author's set holds exactly the stored titles whose author list contains the author |
| BookIndex.WithBook | src/main/java/DefaultBookDatabaseImpl.java:83-87 | after adding, the title is stored; a new title is stored with exactly the given authors; a title already stored leaves the index unchanged |
| BookIndex.WithBookNeverOverwrites | src/main/java/DefaultBookDatabaseImpl.java:82-90 | adding a book stores a new title with its authors, keeps the book already stored under a known title, and leaves every other entry alone |
| BookIndex.LinkFilesUnderEachAuthor | src/main/java/DefaultBookDatabaseImpl.java:97-105 | `Link` adds the title, and only the title, to the set of every listed author (creating the set when missing), and leaves every unlisted author's entry unchanged |
| BookIndex.UnlinkCascades | src/main/java/DefaultBookDatabaseImpl.java:113-125 | `Unlink` removes the title from each listed author that is a key, deletes the listed authors whose set became empty and keeps those whose set did not, leaves unlisted authors unchanged and adds no author |
| BookIndex.LinkStep | src/main/java/DefaultBookDatabaseImpl.java:100-103 | one `putIfAbsent`-then-`add` step files the title under one more author, creating the author's entry when missing |
| BookIndex.UnlinkStep | src/main/java/DefaultBookDatabaseImpl.java:115-123 | one step of unlinking removes the title from one author's set and deletes the author when its set became empty; an author that is not a key, including one repeated in the list, is left alone |
| BookIndex.LinkIndex | src/main/java/DefaultBookDatabaseImpl.java:82-105 | filing a newly stored book under each of its authors yields exactly the author index of the enlarged title index |
| BookIndex.UnlinkIndex | src/main/java/DefaultBookDatabaseImpl.java:113-145 | unfiling a removed book from each of its authors, with the cascade, yields exactly the author index of the reduced title index |
| BookIndex.AddThenRemoveRestores | src/main/java/DefaultBookDatabaseImpl.java:82-145 | storing a book under a new title and then removing it by title restores the title index, and unlinking it restores the author index |
| BookIndex.WithoutAuthor | src/main/java/DefaultBookDatabaseImpl.java:155-167 | removing an author's books keeps exactly the titles the author is not on, each with its book unchanged, and leaves the author out of the derived author index |
| Loading.FirstInvalid | src/main/java/DefaultBookDatabaseImpl.java:50-55 | the position at which `init` stops: all earlier positions have a non-null title and a non-null, non-empty author list, and the position itself does not |
| Loading.InitOutcome | src/main/java/DefaultBookDatabaseImpl.java:43-55 | `init` fails on a `null` list, then on lists of different sizes; with well-formed lists it fails exactly at the first invalid position, naming that position; it returns normally iff every position is valid |
| Loading.InitResult | src/main/java/DefaultBookDatabaseImpl.java:41-65 | after `init` every title stored before is still stored with its book unchanged, well-formedness is kept, and a `null` list or a size mismatch leaves the title index as it was |
| Loading.LoadedWellFormed | src/main/java/DefaultBookDatabaseImpl.java:50-62 | loading valid positions keeps every stored book filed under its own title with a non-empty author list |
| Loading.InitRejectsMalformedLists | src/main/java/DefaultBookDatabaseImpl.java:43-48 | a `null` list or a size mismatch fails with a tag other than an invalid position, before the title index is touched |
| Loading.InitFailureKeepsPrefix | src/main/java/DefaultBookDatabaseImpl.java:50-55 | a failure at position k keeps everything stored before and everything inserted at positions before k; there is no rollback |
| Loading.LoadedKeepsExisting | src/main/java/DefaultBookDatabaseImpl.java:50-62 | loading adds to the existing contents and overwrites nothing; the stored titles become the old ones plus the loaded ones |
| Loading.LoadedFirstOccurrenceWins | src/main/java/DefaultBookDatabaseImpl.java:56-61 | a title that is new and appears for the first time at a position is stored with the authors of that position; later duplicates are skipped |
| Loading.LoadedSize | src/main/java/DefaultBookDatabaseImpl.java:50-62 | loading k distinct titles that are not stored yet grows the number of books by exactly k |
| Loading.LoadedAuthors | src/main/java/DefaultBookDatabaseImpl.java:50-62 | loading distinct new titles adds exactly the authors named in the loaded lists |
| Loading.InitIntoEmpty | src/test/java/DefaultBookDatabaseImplTest.java:56-61 | `init` on an empty database with n valid, distinct entries returns normally, stores n books, and its authors are exactly the distinct authors named |
| BookDatabase.DefaultBookDatabase.constructor | src/main/java/DefaultBookDatabaseImpl.java:26-29 | a new database has both indexes empty and is consistent |
| BookDatabase.DefaultBookDatabase.Init | src/main/java/DefaultBookDatabaseImpl.java:41-65 | `init` keeps the indexes consistent, returns `InitOutcome` and leaves the title index at `InitResult` of the old one |
| BookDatabase.DefaultBookDatabase.ShutDown | src/main/java/DefaultBookDatabaseImpl.java:68-72 | both indexes become empty, whatever they held, so a second call changes nothing |
| BookDatabase.DefaultBookDatabase.AddBook | src/main/java/DefaultBookDatabaseImpl.java:82-90 | returns true iff the title was not stored; then stores the book and links it under each author, otherwise changes nothing; keeps consistency |
| BookDatabase.DefaultBookDatabase.CreateAuthorToBookMapping | src/main/java/DefaultBookDatabaseImpl.java:97-105 | the author index becomes `Link` of the old one; the title index is unchanged |
| BookDatabase.DefaultBookDatabase.DeleteAuthorToBookMapping | src/main/java/DefaultBookDatabaseImpl.java:113-125 | the author index becomes `Unlink` of the old one; the title index is unchanged |
| BookDatabase.DefaultBookDatabase.RemoveBookByTitle | src/main/java/DefaultBookDatabaseImpl.java:135-145 | returns true iff the title is non-null and stored; then the title is gone and the book is unlinked from its authors with the cascade; otherwise nothing changes; keeps consistency |
| BookDatabase.DefaultBookDatabase.RemoveBooksByAuthor | src/main/java/DefaultBookDatabaseImpl.java:155-167 | returns true iff the author is a key; every book listing the author is removed, all other books stay, the author is no longer a key, and an unknown author changes nothing; keeps consistency |
| BookDatabase.DefaultBookDatabase.QueryBookByAuthor | src/main/java/DefaultBookDatabaseImpl.java:176-178 | the result holds exactly the stored books that list the author, a `null` author included; it is empty for an author that is not a key |
| BookDatabase.DefaultBookDatabase.QueryAuthorsByBookTitle | src/main/java/DefaultBookDatabaseImpl.java:187-193 | the stored author list of the title, in its original order, or the empty list for an unknown or `null` title |
| BookDatabase.DefaultBookDatabase.BooksSize | src/main/java/DefaultBookDatabaseImpl.java:200-202 | the number of stored titles |
| BookDatabase.DefaultBookDatabase.AuthorsSize | src/main/java/DefaultBookDatabaseImpl.java:209-211 | the number of distinct authors over all stored books |
| BookDatabase.QueriesAgree | src/main/java/BookDatabase.java:35-49 | a stored book is among an author's books iff the author is in that book's author list |
| Scenarios.SharedLoads | src/test/java/DefaultBookDatabaseImplTest.java:236-240 | loading "Book A" (Alice, Bob) and "Book B" (Alice, Claire) succeeds and stores exactly those two books |
| Scenarios.SharedIndex | src/test/java/DefaultBookDatabaseImplTest.java:280-304 | in that catalog Alice has both books, Bob has "Book A" and Claire has "Book B": 2 books and 3 authors |
| Scenarios.WithoutBob | src/test/java/DefaultBookDatabaseImplTest.java:306-311 | removing Bob's books from that catalog leaves only "Book B", so Alice's and Claire's books coincide |

## Left out

- Logging through log4j is output only and is not modelled.
- `Book.toString` is display only and is not modelled.
- Thread safety and concurrency are not modelled.
- Exceptions are modelled as `Outcome` values:
  - `NullPointerException` becomes `Failed(NullList)`;
  - `IllegalArgumentException` becomes `Failed(SizeMismatch)` or `Failed(InvalidEntry(i))`;
  - the message text is not modelled.
- Object identity and aliasing are not modelled. `queryBookByAuthor` returns the live internal set, and a `Book` shares the author list it was given. The model returns values, so changes made later through such a reference are not captured.
- `HashMap` and `HashSet` iteration order is not modelled. `RemoveBooksByAuthor` removes the titles of its snapshot in an arbitrary order, and the final state does not depend on that order.
- Books.StringHash: characters are Unicode scalar values rather than UTF-16 code units, so hashes differ from Java's for titles outside the Basic Multilingual Plane.
- BookDatabase.DefaultBookDatabase.BooksSize: does not model the wrap-around of Java's `int` for more than 2^31 - 1 entries.
- BookDatabase.DefaultBookDatabase.AuthorsSize: does not model the wrap-around of Java's `int` for more than 2^31 - 1 entries.
- BookDatabase.DefaultBookDatabase.AddBook: requires a non-null title and a non-empty author list, because its only caller, `init`, checks both first.
- A `Book` whose author list is `null` is not modelled, because `init` never builds one.
