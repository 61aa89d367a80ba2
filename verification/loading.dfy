/**
 * What `init` does to the title index, as functions of its arguments.
 *
 * `init` takes a list of titles and a parallel list of author lists. It fails
 * before touching anything when either list is `null` or their sizes differ.
 * Otherwise it walks the positions in order: at the first position whose title is
 * `null` or whose author list is `null` or empty it fails, keeping what it already
 * inserted; every earlier position is inserted unless its title is already stored,
 * in which case it is skipped and the stored book is kept.
 */
module Loading {
  import opened Books
  import opened BookIndex

  /** Why `init` rejects its arguments (`NullPointerException` or
      `IllegalArgumentException`, and the position named in the message). */
  datatype InitError = NullList | SizeMismatch | InvalidEntry(position: nat)

  /** How `init` returns: normally, or by throwing. */
  datatype Outcome = Done | Failed(error: InitError)

  /** A position `init` accepts: a title that is not `null`, and a non-empty author list. */
  predicate ValidEntry(title: JString, authors: Nullable<seq<JString>>)
  {
    title.NonNull? && authors.NonNull? && |authors.value| > 0
  }

  /** The first position `init` rejects, or the length when it rejects none. */
  function FirstInvalid(titles: seq<JString>, authors: seq<Nullable<seq<JString>>>): (k: nat)
    requires |titles| == |authors|
    ensures k <= |titles|
    ensures forall i :: 0 <= i < k ==> ValidEntry(titles[i], authors[i])
    ensures k < |titles| ==> !ValidEntry(titles[k], authors[k])
  {
    if titles == [] || !ValidEntry(titles[0], authors[0]) then 0
    else 1 + FirstInvalid(titles[1..], authors[1..])
  }

  /** The title index after the first `k` positions have been inserted in order. */
  function Loaded(m: TitleIndex, titles: seq<JString>, authors: seq<Nullable<seq<JString>>>, k: nat): TitleIndex
    requires k <= |titles| == |authors|
    requires forall i :: 0 <= i < k ==> ValidEntry(titles[i], authors[i])
  {
    if k == 0 then m
    else
      assert ValidEntry(titles[k - 1], authors[k - 1]);
      WithBook(Loaded(m, titles, authors, k - 1), titles[k - 1].value, authors[k - 1].value)
  }

  /** How `init(titles, authors)` returns. */
  function InitOutcome(titles: Nullable<seq<JString>>, authors: Nullable<seq<Nullable<seq<JString>>>>): (r: Outcome)
    ensures titles.Null? || authors.Null? ==> r == Failed(NullList)
    ensures titles.NonNull? && authors.NonNull? && |titles.value| != |authors.value| ==> r == Failed(SizeMismatch)
    ensures r.Failed? && r.error.InvalidEntry? ==>
              titles.NonNull? && authors.NonNull? && |titles.value| == |authors.value| &&
              r.error.position < |titles.value| &&
              !ValidEntry(titles.value[r.error.position], authors.value[r.error.position]) &&
              forall i :: 0 <= i < r.error.position ==> ValidEntry(titles.value[i], authors.value[i])
    ensures titles.NonNull? && authors.NonNull? && |titles.value| == |authors.value| &&
            FirstInvalid(titles.value, authors.value) < |titles.value| ==>
              r == Failed(InvalidEntry(FirstInvalid(titles.value, authors.value)))
    ensures r == Done <==>
              titles.NonNull? && authors.NonNull? && |titles.value| == |authors.value| &&
              forall i :: 0 <= i < |titles.value| ==> ValidEntry(titles.value[i], authors.value[i])
  {
    if titles.Null? || authors.Null? then Failed(NullList)
    else if |titles.value| != |authors.value| then Failed(SizeMismatch)
    else
      var k := FirstInvalid(titles.value, authors.value);
      if k < |titles.value| then Failed(InvalidEntry(k)) else Done
  }

  /** The title index after `init(titles, authors)` on title index `m`, whether it
      returns or throws. */
  function InitResult(m: TitleIndex, titles: Nullable<seq<JString>>, authors: Nullable<seq<Nullable<seq<JString>>>>): (r: TitleIndex)
    ensures m.Keys <= r.Keys
    ensures forall t :: t in m ==> r[t] == m[t]
    ensures WellFormed(m) ==> WellFormed(r)
    ensures InitOutcome(titles, authors) in {Failed(NullList), Failed(SizeMismatch)} ==> r == m
  {
    if titles.Null? || authors.Null? || |titles.value| != |authors.value| then m
    else
      var k := FirstInvalid(titles.value, authors.value);
      LoadedKeepsExisting(m, titles.value, authors.value, k);
      LoadedWellFormed(m, titles.value, authors.value, k);
      Loaded(m, titles.value, authors.value, k)
  }

  /** The titles of the first `k` positions. */
  ghost function TitlesUpTo(titles: seq<JString>, k: nat): (ts: set<string>)
    requires k <= |titles|
  {
    set i | 0 <= i < k && titles[i].NonNull? :: titles[i].value
  }

  /** Every author named at the first `k` positions. */
  ghost function AuthorsUpTo(authors: seq<Nullable<seq<JString>>>, k: nat): (names: set<JString>)
    requires k <= |authors|
  {
    set i, a | 0 <= i < k && authors[i].NonNull? && a in authors[i].value :: a
  }

  /** The first `k` titles are distinct and none is stored in `m` yet. */
  ghost predicate FreshDistinct(m: TitleIndex, titles: seq<JString>, k: nat)
    requires k <= |titles|
  {
    (forall i, t :: 0 <= i < k && t in m ==> titles[i] != NonNull(t)) &&
    (forall i, j :: 0 <= i < j < k ==> titles[i] != titles[j])
  }

  /** Loading adds to the index and overwrites nothing: every book stored before is
      still stored, under the same title and with the same authors, and the stored
      titles are exactly the old ones and the loaded ones. */
  lemma {:induction false} LoadedKeepsExisting(m: TitleIndex, titles: seq<JString>, authors: seq<Nullable<seq<JString>>>, k: nat)
    requires k <= |titles| == |authors|
    requires forall i :: 0 <= i < k ==> ValidEntry(titles[i], authors[i])
    ensures forall t :: t in m ==> t in Loaded(m, titles, authors, k) && Loaded(m, titles, authors, k)[t] == m[t]
    ensures Loaded(m, titles, authors, k).Keys == m.Keys + TitlesUpTo(titles, k)
  {
    if k > 0 {
      LoadedKeepsExisting(m, titles, authors, k - 1);
      assert ValidEntry(titles[k - 1], authors[k - 1]);
      WithBookNeverOverwrites(Loaded(m, titles, authors, k - 1), titles[k - 1].value, authors[k - 1].value);
      assert TitlesUpTo(titles, k) == TitlesUpTo(titles, k - 1) + {titles[k - 1].value};
    }
  }

  /** Loading keeps every stored book filed under its own title with an author. */
  lemma {:induction false} LoadedWellFormed(m: TitleIndex, titles: seq<JString>, authors: seq<Nullable<seq<JString>>>, k: nat)
    requires k <= |titles| == |authors|
    requires forall i :: 0 <= i < k ==> ValidEntry(titles[i], authors[i])
    ensures WellFormed(m) ==> WellFormed(Loaded(m, titles, authors, k))
  {
    if k > 0 {
      LoadedWellFormed(m, titles, authors, k - 1);
      assert ValidEntry(titles[k - 1], authors[k - 1]);
      WithBookNeverOverwrites(Loaded(m, titles, authors, k - 1), titles[k - 1].value, authors[k - 1].value);
    }
  }

  /** A title seen for the first time, and not stored before, is stored with the authors
      given at that first position; later duplicates of it are skipped. */
  lemma {:induction false} LoadedFirstOccurrenceWins(m: TitleIndex, titles: seq<JString>, authors: seq<Nullable<seq<JString>>>, k: nat, j: nat, t: string)
    requires k <= |titles| == |authors|
    requires forall i :: 0 <= i < k ==> ValidEntry(titles[i], authors[i])
    requires j < k && titles[j] == NonNull(t) && t !in m
    requires forall i :: 0 <= i < j ==> titles[i] != titles[j]
    ensures t in Loaded(m, titles, authors, k)
    ensures Loaded(m, titles, authors, k)[t].title == NonNull(t)
    ensures authors[j] == NonNull(Loaded(m, titles, authors, k)[t].authors)
  {
    assert ValidEntry(titles[j], authors[j]);
    assert ValidEntry(titles[k - 1], authors[k - 1]);
    WithBookNeverOverwrites(Loaded(m, titles, authors, k - 1), titles[k - 1].value, authors[k - 1].value);
    if j == k - 1 {
      LoadedKeepsExisting(m, titles, authors, k - 1);
      NotAmongEarlierTitles(titles, j);
    } else {
      LoadedFirstOccurrenceWins(m, titles, authors, k - 1, j, t);
    }
  }

  /** A title that differs from every earlier one is not among the earlier titles. */
  lemma NotAmongEarlierTitles(titles: seq<JString>, j: nat)
    requires j < |titles| && titles[j].NonNull?
    requires forall i :: 0 <= i < j ==> titles[i] != titles[j]
    ensures titles[j].value !in TitlesUpTo(titles, j)
  {
  }

  /** With fresh distinct titles, each position stores a new book. */
  lemma LoadedFreshStep(m: TitleIndex, titles: seq<JString>, authors: seq<Nullable<seq<JString>>>, k: nat)
    requires 0 < k <= |titles| == |authors|
    requires forall i :: 0 <= i < k ==> ValidEntry(titles[i], authors[i])
    requires FreshDistinct(m, titles, k)
    ensures FreshDistinct(m, titles, k - 1)
    ensures titles[k - 1].NonNull? && authors[k - 1].NonNull?
    ensures titles[k - 1].value !in Loaded(m, titles, authors, k - 1)
    ensures Loaded(m, titles, authors, k) ==
              Loaded(m, titles, authors, k - 1)[titles[k - 1].value := Book(titles[k - 1], authors[k - 1].value)]
  {
    assert ValidEntry(titles[k - 1], authors[k - 1]);
    var t := titles[k - 1].value;
    LoadedKeepsExisting(m, titles, authors, k - 1);
    NotAmongEarlierTitles(titles, k - 1);
    assert t !in m.Keys + TitlesUpTo(titles, k - 1);
  }

  /** Storing under a new title adds one entry. */
  lemma SizeOfNewEntry(m: TitleIndex, t: string, b: Book)
    requires t !in m
    ensures |m[t := b]| == |m| + 1
  {
    assert m[t := b].Keys == m.Keys + {t};
  }

  /** Loading `k` distinct titles that are not stored yet stores `k` more books. */
  lemma {:induction false} LoadedSize(m: TitleIndex, titles: seq<JString>, authors: seq<Nullable<seq<JString>>>, k: nat)
    requires k <= |titles| == |authors|
    requires forall i :: 0 <= i < k ==> ValidEntry(titles[i], authors[i])
    requires FreshDistinct(m, titles, k)
    ensures |Loaded(m, titles, authors, k)| == |m| + k
  {
    if k > 0 {
      LoadedFreshStep(m, titles, authors, k);
      var prev := Loaded(m, titles, authors, k - 1);
      var t, b := titles[k - 1].value, Book(titles[k - 1], authors[k - 1].value);
      LoadedSize(m, titles, authors, k - 1);
      SizeOfNewEntry(prev, t, b);
    }
  }

  /** Loading distinct titles that are not stored yet adds exactly the authors named
      in the loaded lists to the authors of the index. */
  lemma {:induction false} LoadedAuthors(m: TitleIndex, titles: seq<JString>, authors: seq<Nullable<seq<JString>>>, k: nat)
    requires k <= |titles| == |authors|
    requires forall i :: 0 <= i < k ==> ValidEntry(titles[i], authors[i])
    requires FreshDistinct(m, titles, k)
    ensures AuthorsOf(Loaded(m, titles, authors, k)) == AuthorsOf(m) + AuthorsUpTo(authors, k)
  {
    if k > 0 {
      LoadedFreshStep(m, titles, authors, k);
      var b := Book(titles[k - 1], authors[k - 1].value);
      AuthorsOfInsert(Loaded(m, titles, authors, k - 1), titles[k - 1].value, b);
      AuthorsUpToStep(authors, k);
      LoadedAuthors(m, titles, authors, k - 1);
    }
  }

  /** The authors named at the first `k` positions, one position at a time. */
  lemma AuthorsUpToStep(authors: seq<Nullable<seq<JString>>>, k: nat)
    requires 0 < k <= |authors| && authors[k - 1].NonNull?
    ensures AuthorsUpTo(authors, k) == AuthorsUpTo(authors, k - 1) + AuthorSet(authors[k - 1].value)
  {
    var l := AuthorsUpTo(authors, k);
    var r := AuthorsUpTo(authors, k - 1) + AuthorSet(authors[k - 1].value);
    forall a | a in l ensures a in r {
      var i :| 0 <= i < k && authors[i].NonNull? && a in authors[i].value;
      if i < k - 1 {
        assert a in AuthorsUpTo(authors, k - 1);
      }
    }
  }

  /** Storing a new book adds exactly its authors to the authors of the index. */
  lemma AuthorsOfInsert(m: TitleIndex, t: string, b: Book)
    requires t !in m
    ensures AuthorsOf(m[t := b]) == AuthorsOf(m) + AuthorSet(b.authors)
  {
    forall a
      ensures a in AuthorsOf(m[t := b]) <==> a in AuthorsOf(m) || a in b.authors
    {
      TitlesByInsert(m, t, b, a);
    }
  }

  /** `init` fails without touching the index when a list is `null` or the sizes differ. */
  lemma InitRejectsMalformedLists(m: TitleIndex, titles: Nullable<seq<JString>>, authors: Nullable<seq<Nullable<seq<JString>>>>)
    requires titles.Null? || authors.Null? || |titles.value| != |authors.value|
    ensures InitOutcome(titles, authors).Failed?
    ensures !InitOutcome(titles, authors).error.InvalidEntry?
    ensures InitResult(m, titles, authors) == m
  {
  }

  /** When `init` fails at a position, the positions before it stay inserted: there is
      no rollback, and nothing stored before is lost. */
  lemma InitFailureKeepsPrefix(m: TitleIndex, titles: seq<JString>, authors: seq<Nullable<seq<JString>>>, k: nat)
    requires |titles| == |authors|
    requires InitOutcome(NonNull(titles), NonNull(authors)) == Failed(InvalidEntry(k))
    ensures forall t :: t in m ==> t in InitResult(m, NonNull(titles), NonNull(authors))
    ensures InitResult(m, NonNull(titles), NonNull(authors)).Keys == m.Keys + TitlesUpTo(titles, k)
  {
    LoadedKeepsExisting(m, titles, authors, k);
  }

  /** Loading `n` well-formed positions with distinct titles into an empty index
      succeeds, stores `n` books, and files exactly the authors named in the lists. */
  lemma InitIntoEmpty(titles: seq<JString>, authors: seq<Nullable<seq<JString>>>)
    requires |titles| == |authors|
    requires forall i :: 0 <= i < |titles| ==> ValidEntry(titles[i], authors[i])
    requires forall i, j :: 0 <= i < j < |titles| ==> titles[i] != titles[j]
    ensures InitOutcome(NonNull(titles), NonNull(authors)) == Done
    ensures |InitResult(map[], NonNull(titles), NonNull(authors))| == |titles|
    ensures AuthorsOf(InitResult(map[], NonNull(titles), NonNull(authors))) == AuthorsUpTo(authors, |authors|)
  {
    var empty: TitleIndex := map[];
    var n := |titles|;
    assert FirstInvalid(titles, authors) == n;
    assert FreshDistinct(empty, titles, n);
    LoadedSize(empty, titles, authors, n);
    LoadedAuthors(empty, titles, authors, n);
    assert AuthorsOf(empty) == {};
  }
}
