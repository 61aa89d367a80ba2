/**
 * The immutable `Book` value of the catalog, with Java's `null` made explicit.
 *
 * A book is a title and the ordered list of its authors, exactly as given to its
 * constructor. Its identity (`equals` and `hashCode`) is its title alone, so two
 * books with the same title and different author lists are the same book.
 */
module Books {

  /** A Java reference that may be `null`. */
  datatype Nullable<+T> = Null | NonNull(value: T)

  /** A `java.lang.String` reference. */
  type JString = Nullable<string>

  /** A book: its title and its authors, in the order given. */
  datatype Book = Book(title: JString, authors: seq<JString>)

  /** The argument of `Object.equals`: `null`, a `Book`, or an object of any other class. */
  datatype JObject = NullRef | BookRef(book: Book) | OtherRef

  /** `Book.equals`: `o` is this very book, or a `Book` whose title equals this book's
      title, compared as `Objects.equals` compares them (two `null` titles are equal).
      The identity shortcut never changes the answer: equality is title equality. */
  predicate Equals(b: Book, o: JObject)
    ensures Equals(b, o) ==> o.BookRef?
    ensures o.BookRef? ==> (Equals(b, o) <==> b.title == o.book.title)
  {
    match o
    case BookRef(other) => b == other || b.title == other.title
    case _ => false
  }

  /** The value of `x` as a Java `int`: two's-complement wrap-around to 32 bits. */
  function WrapInt(x: int): (r: int)
    ensures -0x8000_0000 <= r < 0x8000_0000
    ensures (x - r) % 0x1_0000_0000 == 0
  {
    (x + 0x8000_0000) % 0x1_0000_0000 - 0x8000_0000
  }

  /** `String.hashCode`: `h = 31 * h + c` over the characters, in `int` arithmetic. */
  function StringHash(s: string): (h: int)
    ensures -0x8000_0000 <= h < 0x8000_0000
    ensures s == [] ==> h == 0
    ensures |s| == 1 ==> h == s[0] as int
  {
    if s == [] then 0 else WrapInt(31 * StringHash(s[..|s| - 1]) + s[|s| - 1] as int)
  }

  /** `Book.hashCode`, that is `Objects.hash(bookTitle)`: `31 * 1 + h` in `int` arithmetic,
      where `h` is the title's hash, or 0 for a `null` title. It depends on nothing but
      the title. */
  function HashCode(b: Book): (h: int)
    ensures -0x8000_0000 <= h < 0x8000_0000
    ensures b.title.Null? ==> h == 31
    ensures b.title.NonNull? ==> (h - 31 - StringHash(b.title.value)) % 0x1_0000_0000 == 0
  {
    WrapInt(31 + match b.title { case Null => 0 case NonNull(s) => StringHash(s) })
  }

  /** The getters return exactly what the constructor was given, author order included. */
  lemma AccessorsReturnArguments(title: JString, authors: seq<JString>)
    ensures Book(title, authors).title == title
    ensures Book(title, authors).authors == authors
  {
  }

  /** Two books are equal exactly when their titles are, whatever their author lists. */
  lemma EqualsIsTitleEquality(a: Book, b: Book)
    ensures Equals(a, BookRef(b)) <==> a.title == b.title
    ensures Equals(a, BookRef(Book(a.title, b.authors)))
  {
  }

  /** `equals` is an equivalence relation on books. */
  lemma EqualsIsEquivalence(a: Book, b: Book, c: Book)
    ensures Equals(a, BookRef(a))
    ensures Equals(a, BookRef(b)) ==> Equals(b, BookRef(a))
    ensures Equals(a, BookRef(b)) && Equals(b, BookRef(c)) ==> Equals(a, BookRef(c))
  {
  }

  /** A book is never equal to `null` or to an object that is not a `Book`. */
  lemma NeverEqualsNonBook(b: Book)
    ensures !Equals(b, NullRef)
    ensures !Equals(b, OtherRef)
  {
  }

  /** Two books whose titles are both `null` are equal. */
  lemma NullTitlesAreEqual(authors1: seq<JString>, authors2: seq<JString>)
    ensures Equals(Book(Null, authors1), BookRef(Book(Null, authors2)))
  {
  }

  /** Equal books have equal hash codes, so hashing agrees with equality. */
  lemma EqualBooksHaveEqualHashes(a: Book, b: Book)
    ensures Equals(a, BookRef(b)) ==> HashCode(a) == HashCode(b)
    ensures HashCode(a) == HashCode(Book(a.title, b.authors))
  {
  }
}
