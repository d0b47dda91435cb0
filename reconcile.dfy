/**
 * The reconciliation run of update_calibre.py: pick the local books, index the issue
 * records by issue number, infer each book's index through the fallback chain and
 * produce, in book order, the metadata update of every book whose index has a record.
 */
module Reconciliation {
  import opened Wrappers
  import opened Text
  import opened IndexInference
  import opened ComicVine
  import opened Canonical

  /** A book of the local library, as far as the run reads it. */
  datatype Book = Book(
    id: nat,
    title: string,
    series: Option<string>,
    seriesIndex: Option<real>,
    authors: seq<string>)

  /** One metadata write: the book it goes to and the fields it sets. */
  datatype Update = Update(bookId: nat, patch: MetadataPatch)

  /** Every issue record read from the results file has a decimal issue number. */
  predicate ValidResults(results: seq<IssueOutput>) {
    forall i :: 0 <= i < |results| ==> IsDigitString(results[i].issueNumber)
  }

  /** `int(result["issue_number"])`. */
  function Key(result: IssueOutput): nat
    requires IsDigitString(result.issueNumber)
  {
    DigitsValue(result.issueNumber)
  }

  // ---------------------------------------------------------------------------
  // The index -> record map (update_calibre.py:138-140)

  /** The map after storing every record under its key, in order: later records overwrite. */
  function IndexOf(results: seq<IssueOutput>): (m: map<int, IssueOutput>)
    requires ValidResults(results)
    ensures forall k :: k in m ==> IsDigitString(m[k].issueNumber) && Key(m[k]) == k
    ensures forall i :: 0 <= i < |results| ==> Key(results[i]) in m
    ensures forall k :: k in m ==> exists i :: 0 <= i < |results| && Key(results[i]) == k
  {
    if results == [] then map[]
    else
      var init := results[..|results| - 1];
      var last := results[|results| - 1];
      var m0 := IndexOf(init);
      assert forall i :: 0 <= i < |init| ==> init[i] == results[i];
      m0[Key(last) := last]
  }

  /** Each key holds the LAST record in input order that has this key. */
  lemma {:induction false} IndexOfLastWins(results: seq<IssueOutput>, i: nat)
    requires ValidResults(results)
    requires i < |results|
    requires forall j :: i < j < |results| ==> Key(results[j]) != Key(results[i])
    ensures IndexOf(results)[Key(results[i])] == results[i]
  {
    if i < |results| - 1 {
      var init := results[..|results| - 1];
      assert forall j :: 0 <= j < |init| ==> init[j] == results[j];
      IndexOfLastWins(init, i);
    }
  }

  /** The loop that fills `serie_index_results`. */
  method BuildIndex(results: seq<IssueOutput>) returns (m: map<int, IssueOutput>)
    requires ValidResults(results)
    ensures m == IndexOf(results)
  {
    m := map[];
    for i := 0 to |results|
      invariant m == IndexOf(results[..i])
    {
      assert results[..i + 1][..i] == results[..i];
      m := m[Key(results[i]) := results[i]];
    }
    assert results[..|results|] == results;
  }

  // ---------------------------------------------------------------------------
  // Padding width (update_calibre.py:142)

  /** `len(str(len(books)))`: the number of decimal digits of the book count. */
  function PaddingWidth(count: nat): (w: nat)
    ensures w >= 1 && count < Pow10(w)
    ensures count >= 1 ==> Pow10(w - 1) <= count
    ensures count == 0 ==> w == 1
  {
    DecimalLength(count);
    |NatToString(count)|
  }

  lemma FortySevenBooksPadToTwo()
    ensures PaddingWidth(47) == 2
  {
    assert NatToString(47) == NatToString(4) + [DigitChar(7)];
  }

  // ---------------------------------------------------------------------------
  // The fallback chain (update_calibre.py:143-149)

  /** Python's `int()` of a float: truncation toward zero. */
  function Truncate(x: real): (n: int)
    ensures 0.0 <= x ==> n as real <= x < n as real + 1.0
    ensures x < 0.0 ==> n as real - 1.0 < x <= n as real
  {
    if x >= 0.0 then x.Floor else -((-x).Floor)
  }

  /** `book.series_index` is truthy: present and not zero. */
  predicate HasIndexHint(b: Book) {
    b.seriesIndex.Some? && b.seriesIndex.value != 0.0
  }

  function Widen(x: Option<nat>): (y: Option<int>)
    ensures y.None? <==> x.None?
    ensures x.Some? ==> y.value == x.value
  {
    match x
    case None => None
    case Some(n) => Some(n)
  }

  /** The index the run settles on for a book: title, then the stored index, then first author. */
  function ResolveIndex(b: Book): (r: Option<int>)
    ensures InferIndex(b.title).Some? ==> r == Some(InferIndex(b.title).value)
    ensures InferIndex(b.title).None? && HasIndexHint(b) ==>
              r == Some(Truncate(b.seriesIndex.value))
    ensures InferIndex(b.title).None? && !HasIndexHint(b) ==>
              r == if |b.authors| > 0 then Widen(InferIndex(b.authors[0])) else None
    ensures r.None? <==> NoDigit(b.title) && !HasIndexHint(b)
                         && (|b.authors| == 0 || NoDigit(b.authors[0]))
  {
    if InferIndex(b.title).Some? then Widen(InferIndex(b.title))
    else if HasIndexHint(b) then Some(Truncate(b.seriesIndex.value))
    else if |b.authors| > 0 then Widen(InferIndex(b.authors[0]))
    else None
  }

  /**
   * A title without a number, a stored index of 4 and an author "#9 Someone": the stored
   * index is tried before the author, so the book resolves to 4.
   */
  lemma HintBeforeAuthor()
    ensures ResolveIndex(Book(0, "Untitled", None, Some(4.0), ["#9 Someone"])) == Some(4)
  {
    assert NoDigit("Untitled") by {
      var t := "Untitled";
      forall i | 0 <= i < |t| ensures !IsDigit(t[i]) {
        assert t[i] in "Untiled";
      }
    }
  }

  // ---------------------------------------------------------------------------
  // The update loop (update_calibre.py:143-156)

  predicate ValidIndex(index: map<int, IssueOutput>) {
    forall k :: k in index ==> IsDigitString(index[k].issueNumber)
  }

  /** The update one book receives: none, or one built from the record at its index. */
  function UpdateOf(b: Book, index: map<int, IssueOutput>, width: nat): (u: seq<Update>)
    requires ValidIndex(index)
    ensures |u| <= 1
    ensures |u| == 1 <==> ResolveIndex(b).Some? && ResolveIndex(b).value in index
    ensures |u| == 1 ==> u[0].bookId == b.id
                         && u[0].patch == Canonicalize(index[ResolveIndex(b).value], width)
  {
    match ResolveIndex(b)
    case None => []
    case Some(k) =>
      if k in index then [Update(b.id, Canonicalize(index[k], width))] else []
  }

  /** The updates of a sequence of books, in book order. */
  function Updates(books: seq<Book>, index: map<int, IssueOutput>, width: nat): (us: seq<Update>)
    requires ValidIndex(index)
    ensures |us| <= |books|
  {
    if books == [] then []
    else Updates(books[..|books| - 1], index, width) + UpdateOf(books[|books| - 1], index, width)
  }

  /**
   * The `__main__` loop: index the records, compute the padding width, then for each book
   * run the fallback chain and, when the index has a record, produce its update.
   */
  method Reconcile(books: seq<Book>, results: seq<IssueOutput>) returns (updates: seq<Update>)
    requires ValidResults(results)
    ensures updates == Updates(books, IndexOf(results), PaddingWidth(|books|))
  {
    var index := BuildIndex(results);
    var width := |NatToString(|books|)|;
    updates := [];
    for i := 0 to |books|
      invariant updates == Updates(books[..i], index, width)
    {
      var book := books[i];
      var serieIndex := Widen(InferIndex(book.title));
      if serieIndex.None? && HasIndexHint(book) {
        serieIndex := Some(Truncate(book.seriesIndex.value));
      }
      if serieIndex.None? && |book.authors| > 0 {
        serieIndex := Widen(InferIndex(book.authors[0]));
      }
      assert serieIndex == ResolveIndex(book);
      var step: seq<Update> := [];
      if serieIndex.Some? && serieIndex.value in index {
        step := [Update(book.id, Canonicalize(index[serieIndex.value], width))];
      }
      assert step == UpdateOf(book, index, width);
      UpdatesPrefixStep(books, i, index, width);
      updates := updates + step;
    }
    assert books[..|books|] == books;
  }

  /** One more book extends the updates of a prefix by that book's own update. */
  lemma UpdatesPrefixStep(books: seq<Book>, i: nat, index: map<int, IssueOutput>, width: nat)
    requires ValidIndex(index)
    requires i < |books|
    ensures Updates(books[..i + 1], index, width)
            == Updates(books[..i], index, width) + UpdateOf(books[i], index, width)
  {
    assert books[..i + 1][..i] == books[..i];
  }

  /** Updates are produced book by book: the result for a concatenation is the concatenation. */
  lemma {:induction false} UpdatesAppend(a: seq<Book>, b: seq<Book>, index: map<int, IssueOutput>, width: nat)
    requires ValidIndex(index)
    ensures Updates(a + b, index, width) == Updates(a, index, width) + Updates(b, index, width)
    decreases |b|
  {
    if b == [] {
      assert a + b == a;
    } else {
      LastSplit(a, b);
      UpdatesAppend(a, b[..|b| - 1], index, width);
    }
  }

  /** Dropping the last element of a concatenation drops it from its second part. */
  lemma LastSplit<T>(a: seq<T>, b: seq<T>)
    requires b != []
    ensures (a + b)[..|a + b| - 1] == a + b[..|b| - 1]
    ensures (a + b)[|a + b| - 1] == b[|b| - 1]
  {
  }

  /** Every update comes from one book of the input; the lemma returns that book's position. */
  lemma {:induction false} UpdateSource(books: seq<Book>, index: map<int, IssueOutput>, width: nat, u: Update)
    returns (i: nat)
    requires ValidIndex(index)
    requires u in Updates(books, index, width)
    ensures i < |books| && u in UpdateOf(books[i], index, width)
  {
    var init, last := books[..|books| - 1], books[|books| - 1];
    assert Updates(books, index, width) == Updates(init, index, width) + UpdateOf(last, index, width);
    if u in Updates(init, index, width) {
      i := UpdateSource(init, index, width, u);
      assert init[i] == books[i];
    } else {
      i := |books| - 1;
    }
  }

  /** The update of every book of the input is among the updates. */
  lemma {:induction false} UpdateReachesResult(books: seq<Book>, index: map<int, IssueOutput>, width: nat, i: nat, u: Update)
    requires ValidIndex(index)
    requires i < |books| && u in UpdateOf(books[i], index, width)
    ensures u in Updates(books, index, width)
  {
    var init, last := books[..|books| - 1], books[|books| - 1];
    assert Updates(books, index, width) == Updates(init, index, width) + UpdateOf(last, index, width);
    if i < |books| - 1 {
      assert init[i] == books[i];
      UpdateReachesResult(init, index, width, i, u);
    }
  }

  /** An update is produced exactly when it is the update of some book of the input. */
  lemma UpdatesMembers(books: seq<Book>, index: map<int, IssueOutput>, width: nat, u: Update)
    requires ValidIndex(index)
    ensures u in Updates(books, index, width) <==>
              exists i :: 0 <= i < |books| && u in UpdateOf(books[i], index, width)
  {
    if u in Updates(books, index, width) {
      var i := UpdateSource(books, index, width, u);
    }
    if exists i :: 0 <= i < |books| && u in UpdateOf(books[i], index, width) {
      var i :| 0 <= i < |books| && u in UpdateOf(books[i], index, width);
      UpdateReachesResult(books, index, width, i, u);
    }
  }

  /**
   * No book receives another index's record: every update goes to a book of the input whose
   * resolved index is the update's series index, and its metadata is built from a record of
   * the results with that issue number.
   */
  lemma UpdatesAreSound(books: seq<Book>, results: seq<IssueOutput>, width: nat, u: Update)
    requires ValidResults(results)
    requires u in Updates(books, IndexOf(results), width)
    ensures exists i :: 0 <= i < |books| && books[i].id == u.bookId
                        && ResolveIndex(books[i]) == Some(u.patch.seriesIndex as int)
    ensures exists j :: 0 <= j < |results| && u.patch == Canonicalize(results[j], width)
  {
    var index := IndexOf(results);
    var i := UpdateSource(books, index, width, u);
    var k := UpdateOfSound(books[i], index, width, u);
    IndexRecordIsFromResults(results, k);
    var j :| 0 <= j < |results| && index[k] == results[j];
    assert u.patch == Canonicalize(results[j], width);
  }

  lemma UpdateOfSound(b: Book, index: map<int, IssueOutput>, width: nat, u: Update) returns (k: int)
    requires ValidIndex(index)
    requires forall k :: k in index ==> Key(index[k]) == k
    requires u in UpdateOf(b, index, width)
    ensures k in index && ResolveIndex(b) == Some(k)
    ensures u == Update(b.id, Canonicalize(index[k], width)) && u.patch.seriesIndex == k
  {
    k := ResolveIndex(b).value;
  }

  lemma {:induction false} IndexRecordIsFromResults(results: seq<IssueOutput>, k: int)
    requires ValidResults(results)
    requires k in IndexOf(results)
    ensures exists j :: 0 <= j < |results| && IndexOf(results)[k] == results[j]
  {
    var init := results[..|results| - 1];
    var last := results[|results| - 1];
    if Key(last) != k {
      assert forall j :: 0 <= j < |init| ==> init[j] == results[j];
      IndexRecordIsFromResults(init, k);
    }
  }

  /**
   * A book whose index resolves to k, when some record has issue number k, receives the
   * last such record, with series index k.
   */
  lemma MatchedBookIsUpdated(books: seq<Book>, results: seq<IssueOutput>, width: nat, i: nat, j: nat)
    requires ValidResults(results)
    requires i < |books| && j < |results|
    requires ResolveIndex(books[i]) == Some(Key(results[j]) as int)
    requires forall j' :: j < j' < |results| ==> Key(results[j']) != Key(results[j])
    ensures Update(books[i].id, Canonicalize(results[j], width))
            in Updates(books, IndexOf(results), width)
    ensures Canonicalize(results[j], width).seriesIndex == Key(results[j])
  {
    var index := IndexOf(results);
    IndexOfLastWins(results, j);
    UpdatesMembers(books, index, width, Update(books[i].id, Canonicalize(results[j], width)));
  }

  /**
   * Two books "Series Vol.1" and "Series Vol.2" against records 1 (no name) and 2 ("Rise")
   * at width 1: both are updated, in order, and the unnamed issue's title ends in ": ".
   */
  lemma TwoBookExample(b1: Book, b2: Book, r1: IssueOutput, r2: IssueOutput)
    requires b1.id == 1 && b1.title == "Series Vol.1"
    requires b2.id == 2 && b2.title == "Series Vol.2"
    requires r1.name == None && r1.volume == Some("Series") && r1.issueNumber == "1"
    requires r2.name == Some("Rise") && r2.volume == Some("Series") && r2.issueNumber == "2"
    ensures ValidResults([r1, r2])
    ensures var us := Updates([b1, b2], IndexOf([r1, r2]), 1);
            |us| == 2 && us[0].bookId == 1 && us[1].bookId == 2
            && us[0].patch.title == "Series - Vol. 1: "
            && us[1].patch.title == "Series - Vol. 2: Rise"
  {
    var index := ExampleIndex(r1, r2);
    ExampleResolve(b1, b2);
    ExampleTitles(r1, r2);
    TwoMatchedBooks(b1, b2, index, 1);
  }

  /** Two books that both resolve to a key of the index receive one update each, in order. */
  lemma TwoMatchedBooks(b1: Book, b2: Book, index: map<int, IssueOutput>, width: nat)
    requires ValidIndex(index)
    requires ResolveIndex(b1).Some? && ResolveIndex(b1).value in index
    requires ResolveIndex(b2).Some? && ResolveIndex(b2).value in index
    ensures Updates([b1, b2], index, width) == UpdateOf(b1, index, width) + UpdateOf(b2, index, width)
    ensures |UpdateOf(b1, index, width)| == 1 && |UpdateOf(b2, index, width)| == 1
  {
    assert [b1, b2] == [b1] + [b2];
    UpdatesAppend([b1], [b2], index, width);
    UpdatesSingle(b1, index, width);
    UpdatesSingle(b2, index, width);
  }

  lemma UpdatesSingle(b: Book, index: map<int, IssueOutput>, width: nat)
    requires ValidIndex(index)
    ensures Updates([b], index, width) == UpdateOf(b, index, width)
  {
    assert [b][..0] == [];
  }

  lemma ExampleIndex(r1: IssueOutput, r2: IssueOutput) returns (index: map<int, IssueOutput>)
    requires r1.issueNumber == "1" && r2.issueNumber == "2"
    ensures ValidResults([r1, r2]) && index == IndexOf([r1, r2])
    ensures index == map[1 := r1, 2 := r2]
  {
    assert [r1, r2][..1] == [r1];
    assert [r1][..0] == [];
    assert DigitsValue("1") == 1 by { assert "1"[..0] == []; }
    assert DigitsValue("2") == 2 by { assert "2"[..0] == []; }
    index := IndexOf([r1, r2]);
  }

  lemma ExampleResolve(b1: Book, b2: Book)
    requires b1.title == "Series Vol.1" && b2.title == "Series Vol.2"
    ensures ResolveIndex(b1) == Some(1) && ResolveIndex(b2) == Some(2)
  {
    var lead := "Series Vol.";
    assert NoDigit(lead) by {
      forall i | 0 <= i < |lead| ensures !IsDigit(lead[i]) {
        assert lead[i] in "Sries Vol.";
      }
    }
    InferIndexSkipsNonDigits(lead, "1");
    InferIndexSkipsNonDigits(lead, "2");
    assert lead + "1" == b1.title && lead + "2" == b2.title;
    assert DigitRun("1") == "1" && DigitRun("2") == "2";
    assert DigitsValue("1") == 1 by { assert "1"[..0] == []; }
    assert DigitsValue("2") == 2 by { assert "2"[..0] == []; }
  }

  lemma ExampleTitles(r1: IssueOutput, r2: IssueOutput)
    requires r1.name == None && r1.volume == Some("Series") && r1.issueNumber == "1"
    requires r2.name == Some("Rise") && r2.volume == Some("Series") && r2.issueNumber == "2"
    ensures CanonicalTitle(r1, 1) == "Series - Vol. 1: "
    ensures CanonicalTitle(r2, 1) == "Series - Vol. 2: Rise"
  {
    assert TitlePrefix(r1.volume, r1.issueNumber, 1) == "Series - Vol. 1";
    assert TitlePrefix(r2.volume, r2.issueNumber, 1) == "Series - Vol. 2";
    EmptyNameEndsWithSeparator(r1, 1);
    assert NormaliseName("Rise") == "rise" by {
      assert Lower("Rise") == "rise";
      RemoveSpacesNoSpace("rise");
    }
    NameWithoutDigitIsNotBare("Rise", "2");
    NamedIssueKeepsName(r2, 1);
  }

  // ---------------------------------------------------------------------------
  // Choosing the books (update_calibre.py:123-137)

  /** The two scans of the library: books of one series, or books without a series. */
  datatype Scan = InSeries(name: Option<string>) | WithoutSeries

  predicate Keeps(scan: Scan, b: Book) {
    match scan
    case InSeries(name) => b.series == name
    case WithoutSeries => b.series.None? || b.series.value == ""
  }

  function Scanned(library: seq<Book>, scan: Scan): (r: seq<Book>)
    ensures |r| <= |library|
    ensures forall b :: b in r ==> b in library && Keeps(scan, b)
  {
    if library == [] then []
    else
      var last := library[|library| - 1];
      Scanned(library[..|library| - 1], scan) + (if Keeps(scan, last) then [last] else [])
  }

  /** `get_all_books_by_series` / `get_all_books_without_series` over a library listing. */
  method ScanLibrary(library: seq<Book>, scan: Scan) returns (books: seq<Book>)
    ensures books == Scanned(library, scan)
  {
    books := [];
    for i := 0 to |library|
      invariant books == Scanned(library[..i], scan)
    {
      assert library[..i + 1][..i] == library[..i];
      if Keeps(scan, library[i]) {
        books := books + [library[i]];
      }
    }
    assert library[..|library|] == library;
  }

  lemma {:induction false} ScannedKeepsAllMatching(library: seq<Book>, scan: Scan, b: Book)
    requires b in library && Keeps(scan, b)
    ensures b in Scanned(library, scan)
  {
    var init := library[..|library| - 1];
    if b != library[|library| - 1] {
      assert library == init + [library[|library| - 1]];
      ScannedKeepsAllMatching(init, scan, b);
    }
  }

  /** How a run ends: an exit for lack of records or of books, or the updates it made. */
  datatype Outcome = NoResults | NoBooks | Updated(updates: seq<Update>)

  /** The whole `__main__` block over a library listing and the records of the results file. */
  method Run(library: seq<Book>, results: seq<IssueOutput>) returns (outcome: Outcome)
    requires ValidResults(results)
    ensures outcome == NoResults <==> results == []
    ensures outcome == NoBooks <==>
              results != [] && Scanned(library, InSeries(results[0].volume)) == []
              && Scanned(library, WithoutSeries) == []
    ensures outcome.Updated? ==>
              var inSeries := Scanned(library, InSeries(results[0].volume));
              var books := if inSeries != [] then inSeries else Scanned(library, WithoutSeries);
              books != [] && outcome.updates == Updates(books, IndexOf(results), PaddingWidth(|books|))
  {
    if |results| == 0 {
      return NoResults;
    }
    var searchTerm := results[0].volume;
    var books := ScanLibrary(library, InSeries(searchTerm));
    if |books| == 0 {
      books := ScanLibrary(library, WithoutSeries);
      if |books| == 0 {
        return NoBooks;
      }
    }
    var updates := Reconcile(books, results);
    outcome := Updated(updates);
  }
}
