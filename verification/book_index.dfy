/**
 * The two indexes of the book database as values, and the functions that say how
 * they must relate.
 *
 * The title index maps each stored title to its book; it is the one source of
 * truth. The author index is derived from it: an author is a key exactly when at
 * least one stored book lists that author, and the author's set holds exactly the
 * titles of those books. A set of titles stands for the Java `Set<Book>`, because
 * `Book` equality is title equality.
 */
module BookIndex {
  import opened Books

  /** Title -> book (`titleToBookMap`). */
  type TitleIndex = map<string, Book>

  /** Author -> titles of that author's books (`authorToBooksMap`). */
  type AuthorIndexMap = map<JString, set<string>>

  /** Every stored book is filed under its own title and has at least one author. */
  ghost predicate WellFormed(m: TitleIndex)
  {
    forall t :: t in m ==> m[t].title == NonNull(t) && |m[t].authors| > 0
  }

  /** The authors of a list, without order or repetition. */
  ghost function AuthorSet(authors: seq<JString>): (names: set<JString>)
  {
    set a | a in authors
  }

  /** The titles of the stored books that list author `a`. */
  ghost function TitlesBy(m: TitleIndex, a: JString): (ts: set<string>)
    ensures forall t :: t in ts <==> t in m && a in m[t].authors
  {
    set t | t in m && a in m[t].authors
  }

  /** Every author listed by some stored book. */
  ghost function AuthorsOf(m: TitleIndex): (names: set<JString>)
    ensures forall a :: a in names <==> TitlesBy(m, a) != {}
  {
    var names := set t, a | t in m && a in m[t].authors :: a;
    assert forall a :: a in names <==> TitlesBy(m, a) != {} by {
      forall a ensures a in names <==> TitlesBy(m, a) != {} {
        if TitlesBy(m, a) != {} {
          var t :| t in TitlesBy(m, a);
        }
      }
    }
    names
  }

  /** The author index that the title index `m` determines. */
  ghost function AuthorIndex(m: TitleIndex): (idx: AuthorIndexMap)
    ensures idx.Keys == AuthorsOf(m)
    ensures forall a :: a in idx ==> idx[a] == TitlesBy(m, a)
  {
    map a | a in AuthorsOf(m) :: TitlesBy(m, a)
  }

  /** The consistency of the two indexes: an author is a key exactly when some stored
      book lists it, no author is filed with an empty set, and an author's set holds
      exactly the titles of the stored books that list it. */
  lemma IndexConsistency(m: TitleIndex)
    ensures forall a :: a in AuthorIndex(m) <==> exists t :: t in m && a in m[t].authors
    ensures forall a :: a in AuthorIndex(m) ==> AuthorIndex(m)[a] != {}
    ensures forall a, t :: a in AuthorIndex(m) && t in AuthorIndex(m)[a] <==> t in m && a in m[t].authors
  {
    var idx := AuthorIndex(m);
    forall a ensures a in idx <==> exists t :: t in m && a in m[t].authors {
      if a in idx {
        var t :| t in TitlesBy(m, a);
      }
    }
  }

  /** Insertion into the title index that never overwrites (`addBook`). */
  function WithBook(m: TitleIndex, t: string, authors: seq<JString>): (r: TitleIndex)
    ensures t in r
    ensures t !in m ==> r[t] == Book(NonNull(t), authors)
    ensures t in m ==> r == m
  {
    if t in m then m else m[t := Book(NonNull(t), authors)]
  }

  /** Insertion stores a new title with its authors, keeps the book already stored
      under a known title, and leaves every other entry alone. */
  lemma WithBookNeverOverwrites(m: TitleIndex, t: string, authors: seq<JString>)
    ensures t in WithBook(m, t, authors)
    ensures WithBook(m, t, authors)[t] == if t in m then m[t] else Book(NonNull(t), authors)
    ensures forall u :: u in m ==> u in WithBook(m, t, authors) && WithBook(m, t, authors)[u] == m[u]
    ensures WithBook(m, t, authors).Keys == m.Keys + {t}
  {
  }

  /** The author index after title `t` is filed under each of `authors`, creating the
      entries that are missing (`createAuthorToBookMapping`). */
  ghost function Link(idx: AuthorIndexMap, t: string, authors: seq<JString>): (r: AuthorIndexMap)
  {
    map a | a in idx.Keys + AuthorSet(authors) ::
      (if a in idx then idx[a] else {}) + (if a in authors then {t} else {})
  }

  /** The author index after title `t` is taken out of the set of each of `authors`,
      dropping every author whose set became empty (`deleteAuthorToBookMapping`). */
  ghost function Unlink(idx: AuthorIndexMap, t: string, authors: seq<JString>): (r: AuthorIndexMap)
  {
    map a | a in idx && (a !in authors || idx[a] - {t} != {}) ::
      if a in authors then idx[a] - {t} else idx[a]
  }

  /** `Link` files the title, and nothing else, under every listed author, loses no
      title already filed, and leaves the entries of unlisted authors alone. */
  lemma LinkFilesUnderEachAuthor(idx: AuthorIndexMap, t: string, authors: seq<JString>)
    ensures forall a :: a in authors ==> a in Link(idx, t, authors) && t in Link(idx, t, authors)[a]
    ensures forall a :: a in idx ==> a in Link(idx, t, authors) && idx[a] <= Link(idx, t, authors)[a]
    ensures forall a :: a in Link(idx, t, authors) && a !in authors ==>
              a in idx && Link(idx, t, authors)[a] == idx[a]
    ensures forall a :: a in authors ==> Link(idx, t, authors)[a] == (if a in idx then idx[a] else {}) + {t}
  {
  }

  /** `Unlink` takes the title out of the set of every listed author that is a key, drops
      exactly those whose set became empty, keeps the others, and leaves the entries of unlisted authors
      alone; it never adds an author. */
  lemma UnlinkCascades(idx: AuthorIndexMap, t: string, authors: seq<JString>)
    ensures Unlink(idx, t, authors).Keys <= idx.Keys
    ensures forall a :: a in Unlink(idx, t, authors) && a in authors ==>
              Unlink(idx, t, authors)[a] == idx[a] - {t} && idx[a] - {t} != {}
    ensures forall a :: a in idx && a in authors && idx[a] - {t} == {} ==> a !in Unlink(idx, t, authors)
    ensures forall a :: a in idx && a in authors && idx[a] - {t} != {} ==> a in Unlink(idx, t, authors)
    ensures forall a :: a in idx && a !in authors ==> a in Unlink(idx, t, authors) && Unlink(idx, t, authors)[a] == idx[a]
  {
  }

  /** Filing under no author, or unfiling from none, changes nothing. */
  lemma LinkUnlinkNone(idx: AuthorIndexMap, t: string)
    ensures Link(idx, t, []) == idx
    ensures Unlink(idx, t, []) == idx
  {
    var l := Link(idx, t, []);
    assert AuthorSet([]) == {};
    assert l.Keys == idx.Keys;
    forall a | a in l ensures l[a] == idx[a] {
    }
  }

  /** One step of the loop of `createAuthorToBookMapping`: `putIfAbsent`, then `add`. */
  lemma LinkStep(idx: AuthorIndexMap, t: string, done: seq<JString>, a: JString)
    ensures var l := Link(idx, t, done);
            Link(idx, t, done + [a]) == l[a := (if a in l then l[a] else {}) + {t}]
  {
    var l := Link(idx, t, done);
    var r := Link(idx, t, done + [a]);
    var s := l[a := (if a in l then l[a] else {}) + {t}];
    assert forall x :: x in done + [a] <==> x in done || x == a;
    assert r.Keys == s.Keys;
    forall x | x in r ensures r[x] == s[x] {
    }
  }

  /** One step of the loop of `deleteAuthorToBookMapping`: remove `t` from the author's
      set, and the author itself when its set became empty. An author that is no key,
      or that was already handled earlier in a list that repeats it, is left alone. */
  lemma UnlinkStep(idx: AuthorIndexMap, t: string, done: seq<JString>, a: JString)
    ensures var u := Unlink(idx, t, done);
            Unlink(idx, t, done + [a]) ==
              if a !in u then u
              else if u[a] - {t} == {} then u - {a}
              else u[a := u[a] - {t}]
  {
    var u := Unlink(idx, t, done);
    var r := Unlink(idx, t, done + [a]);
    var s := if a !in u then u else if u[a] - {t} == {} then u - {a} else u[a := u[a] - {t}];
    assert forall x :: x in done + [a] <==> x in done || x == a;
    assert r.Keys == s.Keys;
    forall x | x in r ensures r[x] == s[x] {
    }
  }

  /** Filing a new book under each of its authors yields exactly the author index of
      the enlarged title index: insertion keeps the two indexes consistent. */
  lemma LinkIndex(m: TitleIndex, t: string, b: Book)
    requires t !in m
    ensures AuthorIndex(m[t := b]) == Link(AuthorIndex(m), t, b.authors)
  {
    var m' := m[t := b];
    var l := AuthorIndex(m');
    var r := Link(AuthorIndex(m), t, b.authors);
    forall a
      ensures TitlesBy(m', a) == TitlesBy(m, a) + (if a in b.authors then {t} else {})
    {
      TitlesByInsert(m, t, b, a);
    }
    forall a
      ensures a in l <==> a in r
    {
      assert a in l <==> TitlesBy(m', a) != {};
      assert a in AuthorIndex(m) <==> TitlesBy(m, a) != {};
    }
    assert l.Keys == r.Keys;
    forall a | a in l
      ensures l[a] == r[a]
    {
    }
  }

  /** The titles by one author after a new book is stored. */
  lemma TitlesByInsert(m: TitleIndex, t: string, b: Book, a: JString)
    requires t !in m
    ensures TitlesBy(m[t := b], a) == TitlesBy(m, a) + (if a in b.authors then {t} else {})
  {
    var l := TitlesBy(m[t := b], a);
    var r := TitlesBy(m, a) + (if a in b.authors then {t} else {});
    forall u ensures u in l <==> u in r {
      if u == t {
      } else {
      }
    }
  }

  /** Unfiling a removed book from each of its authors, with the cascade, yields exactly
      the author index of the reduced title index: removal keeps the indexes consistent. */
  lemma UnlinkIndex(m: TitleIndex, t: string)
    requires t in m
    ensures AuthorIndex(m - {t}) == Unlink(AuthorIndex(m), t, m[t].authors)
  {
    var m' := m - {t};
    var l := AuthorIndex(m');
    var r := Unlink(AuthorIndex(m), t, m[t].authors);
    forall a
      ensures TitlesBy(m', a) == TitlesBy(m, a) - {t}
    {
    }
    forall a
      ensures a in l <==> a in r
    {
    }
    assert l.Keys == r.Keys;
    forall a | a in l ensures l[a] == r[a] {
    }
  }

  /** Adding a book under a new title and then removing it by that title restores both
      indexes: unlinking undoes linking. */
  lemma {:induction false} AddThenRemoveRestores(m: TitleIndex, t: string, b: Book)
    requires t !in m
    ensures m[t := b] - {t} == m
    ensures Unlink(Link(AuthorIndex(m), t, b.authors), t, b.authors) == AuthorIndex(m)
  {
    var m' := m[t := b];
    assert m' - {t} == m;
    LinkIndex(m, t, b);
    assert t in m' && m'[t] == b;
    UnlinkIndex(m', t);
  }

  /** The title index without every book that lists author `a` (`removeBooksByAuthor`). */
  ghost function WithoutAuthor(m: TitleIndex, a: JString): (r: TitleIndex)
    ensures forall t :: t in r <==> t in m && a !in m[t].authors
    ensures forall t :: t in r ==> r[t] == m[t]
    ensures a !in AuthorIndex(r)
  {
    map t | t in m && a !in m[t].authors :: m[t]
  }
}
