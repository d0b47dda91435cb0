/**
 * The catalogue side (comic_vine.py): the Volume and Issue records built from the
 * catalogue's answers, the writer/artist credit filter, the record written to the
 * results file, and the `--start`/`--end` range handling of the command line.
 */
module ComicVine {
  import opened Wrappers
  import opened Text

  /** A series ("volume") found by a catalogue search. */
  datatype Volume = Volume(
    name: string,
    startYear: int,
    publisher: string,
    countOfIssues: int,
    apiDetailUrl: Option<string>)

  /** The "publisher" entry of a volume as the catalogue sends it. */
  datatype PublisherEntry =
    | Absent                          // no "publisher" key
    | Null                            // "publisher": null
    | Publisher(name: Option<string>) // an object, with or without a "name" key

  /** A volume record of a search answer, with the keys `from_json` reads. */
  datatype VolumeJson = VolumeJson(
    name: string,
    startYear: int,
    publisher: PublisherEntry,
    countOfIssues: int,
    apiDetailUrl: string)

  /**
   * `Volume.from_json`: `json.get("publisher", {}).get("name", "")`. A null publisher
   * makes the second `get` raise, which is the None result here.
   */
  function VolumeFromJson(j: VolumeJson): (r: Option<Volume>)
    ensures r.None? <==> j.publisher.Null?
    ensures r.Some? ==> r.value.name == j.name && r.value.startYear == j.startYear
                        && r.value.countOfIssues == j.countOfIssues
                        && r.value.apiDetailUrl == Some(j.apiDetailUrl)
    ensures r.Some? && r.value.publisher != "" ==> j.publisher == Publisher(Some(r.value.publisher))
    ensures j.publisher.Absent? || j.publisher == Publisher(None) ==> r.Some? && r.value.publisher == ""
    ensures j.publisher.Publisher? && j.publisher.name.Some? ==>
              r.Some? && r.value.publisher == j.publisher.name.value
  {
    match j.publisher
    case Null => None
    case Absent => Some(Volume(j.name, j.startYear, "", j.countOfIssues, Some(j.apiDetailUrl)))
    case Publisher(n) =>
      var p := match n case Some(s) => s case None => "";
      Some(Volume(j.name, j.startYear, p, j.countOfIssues, Some(j.apiDetailUrl)))
  }

  /** One entry of an issue's "person_credits". */
  datatype Credit = Credit(name: string, role: string)

  /** The credit test: the lower-cased role contains "writer" or "artist". */
  predicate IsWriterOrArtist(role: string)
    ensures IsWriterOrArtist(role) ==> |role| >= 6
  {
    Contains(Lower(role), "writer") || Contains(Lower(role), "artist")
  }

  /** The test ignores case: a role and its lower-cased form are treated alike. */
  lemma RoleTestIgnoresCase(role: string)
    ensures IsWriterOrArtist(Lower(role)) == IsWriterOrArtist(role)
  {
    assert Lower(Lower(role)) == Lower(role);
  }

  /** "Writer" and "Penciler, Artist" are kept; "Colorist" is not. */
  lemma RoleExamples()
    ensures IsWriterOrArtist("Writer")
    ensures IsWriterOrArtist("Penciler, Artist")
    ensures !IsWriterOrArtist("Colorist")
  {
    assert Lower("Writer") == "writer";
    assert OccursAt(Lower("Writer"), "writer", 0);
    assert Lower("Penciler, Artist") == "penciler, artist";
    assert OccursAt(Lower("Penciler, Artist"), "artist", 10);
    var c := Lower("Colorist");
    assert c == "colorist";
    forall i | 0 <= i <= |c| - 6
      ensures !OccursAt(c, "writer", i) && !OccursAt(c, "artist", i)
    {
      assert c[i..i + 6][0] == c[i];
      assert c[i..i + 6][1] == c[i + 1];
    }
  }

  /** `Issue._keep_only_writer_and_artist`: the names of the writer and artist credits. */
  function KeepOnlyWriterAndArtist(credits: seq<Credit>): (names: seq<string>)
    ensures |names| <= |credits|
    ensures forall n :: n in names ==>
              exists c :: c in credits && c.name == n && IsWriterOrArtist(c.role)
  {
    if credits == [] then []
    else
      var rest := KeepOnlyWriterAndArtist(credits[1..]);
      if IsWriterOrArtist(credits[0].role) then [credits[0].name] + rest else rest
  }

  /** The filter works credit by credit: order is kept and duplicates are not merged. */
  lemma {:induction false} KeepOnlyAppend(a: seq<Credit>, b: seq<Credit>)
    ensures KeepOnlyWriterAndArtist(a + b)
            == KeepOnlyWriterAndArtist(a) + KeepOnlyWriterAndArtist(b)
  {
    if a == [] {
      assert a + b == b;
    } else {
      assert (a + b)[1..] == a[1..] + b;
      KeepOnlyAppend(a[1..], b);
    }
  }

  /** A single credit survives exactly when its role mentions a writer or an artist. */
  lemma KeepOnlySingle(c: Credit)
    ensures KeepOnlyWriterAndArtist([c]) == if IsWriterOrArtist(c.role) then [c.name] else []
  {
    assert [c][1..] == [];
  }

  /** Every credit whose role is a writer's or an artist's role keeps its name. */
  lemma {:induction false} KeepOnlyKeepsAllMatching(credits: seq<Credit>, i: nat)
    requires i < |credits| && IsWriterOrArtist(credits[i].role)
    ensures credits[i].name in KeepOnlyWriterAndArtist(credits)
  {
    if i > 0 {
      KeepOnlyKeepsAllMatching(credits[1..], i - 1);
    }
  }

  /** A catalogue issue, as `Issue.__init__` stores it. */
  datatype Issue = Issue(
    name: Option<string>,
    issueNumber: string,
    coverDate: string,
    description: Option<string>,
    personCredits: seq<string>,
    apiDetailUrl: Option<string>,
    volume: Option<Volume>)

  /** `Issue.__init__`: the raw credits are filtered once, and only the names are kept. */
  function NewIssue(name: Option<string>, issueNumber: string, coverDate: string,
                    description: Option<string>, credits: seq<Credit>,
                    apiDetailUrl: Option<string>, volume: Option<Volume>): (r: Issue)
    ensures r.personCredits == KeepOnlyWriterAndArtist(credits)
    ensures forall n :: n in r.personCredits ==>
              exists c :: c in credits && c.name == n && IsWriterOrArtist(c.role)
    ensures r.name == name && r.issueNumber == issueNumber && r.coverDate == coverDate
            && r.description == description && r.apiDetailUrl == apiDetailUrl
            && r.volume == volume
  {
    Issue(name, issueNumber, coverDate, description,
          KeepOnlyWriterAndArtist(credits), apiDetailUrl, volume)
  }

  /** An issue record of the catalogue's answer, with the keys `Issue.from_json` reads. */
  datatype IssueJson = IssueJson(
    name: Option<string>,
    issueNumber: string,
    coverDate: string,
    description: Option<string>,
    personCredits: seq<Credit>,
    apiDetailUrl: string)

  /** `Issue.from_json`: the issue of a chosen volume, credits filtered. */
  function IssueFromJson(j: IssueJson, volume: Volume): (r: Issue)
    ensures r.volume == Some(volume)
    ensures r.personCredits == KeepOnlyWriterAndArtist(j.personCredits)
    ensures r.name == j.name && r.issueNumber == j.issueNumber && r.coverDate == j.coverDate
            && r.description == j.description && r.apiDetailUrl == Some(j.apiDetailUrl)
  {
    NewIssue(j.name, j.issueNumber, j.coverDate, j.description, j.personCredits,
             Some(j.apiDetailUrl), Some(volume))
  }

  /** The record written to the results file for one issue (`Issue.output`). */
  datatype IssueOutput = IssueOutput(
    name: Option<string>,
    volume: Option<string>,
    issueNumber: string,
    coverDate: string,
    description: Option<string>,
    personCredits: seq<string>,
    publisher: string)

  /** `Issue.output`: without a volume, "volume" is None and "publisher" is "". */
  function Output(issue: Issue): (r: IssueOutput)
    ensures r.volume.None? <==> issue.volume.None?
    ensures issue.volume.Some? ==> r.volume == Some(issue.volume.value.name)
                                   && r.publisher == issue.volume.value.publisher
    ensures issue.volume.None? ==> r.publisher == ""
    ensures r.name == issue.name && r.issueNumber == issue.issueNumber
            && r.coverDate == issue.coverDate && r.description == issue.description
            && r.personCredits == issue.personCredits
  {
    IssueOutput(
      issue.name,
      match issue.volume case Some(v) => Some(v.name) case None => None,
      issue.issueNumber,
      issue.coverDate,
      issue.description,
      issue.personCredits,
      match issue.volume case Some(v) => v.publisher case None => "")
  }

  // ---------------------------------------------------------------------------
  // The --start / --end range of the command line

  /** Python truthiness of an optional integer: None and 0 are false. */
  predicate Given(x: Option<int>) {
    x.Some? && x.value != 0
  }

  datatype Range = Range(start: Option<int>, end: Option<int>)

  /**
   * The three reassignments of `args.start`/`args.end`: swap a reversed pair,
   * then copy a lone start to the end, then a lone end to the start.
   */
  function NormaliseRange(r: Range): (n: Range)
    ensures Given(r.start) || Given(r.end) ==>
              Given(n.start) && Given(n.end) && n.start.value <= n.end.value
    ensures !Given(r.start) && !Given(r.end) ==> n == r
    ensures Given(r.start) && Given(r.end) ==>
              n.start.value == Min(r.start.value, r.end.value)
              && n.end.value == Max(r.start.value, r.end.value)
    ensures Given(r.start) && !Given(r.end) ==> n.start == n.end == r.start
    ensures !Given(r.start) && Given(r.end) ==> n.start == n.end == r.end
  {
    var swapped := if Given(r.start) && Given(r.end) && r.start.value > r.end.value
                   then Range(r.end, r.start) else r;
    var endSet := if Given(swapped.start) && !Given(swapped.end)
                  then Range(swapped.start, swapped.start) else swapped;
    if Given(endSet.end) && !Given(endSet.start) then Range(endSet.end, endSet.end) else endSet
  }

  function Min(a: int, b: int): int { if a <= b then a else b }
  function Max(a: int, b: int): int { if a <= b then b else a }

  /** Normalising an already normalised range changes nothing. */
  lemma NormaliseRangeIdempotent(r: Range)
    ensures NormaliseRange(NormaliseRange(r)) == NormaliseRange(r)
  {
  }

  /** One issue entry of a volume's detail answer: its "issue_number", if any, and its locator. */
  datatype IssueEntry = IssueEntry(issueNumber: Option<string>, apiDetailUrl: string)

  predicate WellFormedEntry(e: IssueEntry) {
    e.issueNumber.Some? ==> IsDigitString(e.issueNumber.value)
  }

  /** `int(issue.get("issue_number", "0"))`. */
  function EntryNumber(e: IssueEntry): nat
    requires WellFormedEntry(e)
  {
    match e.issueNumber
    case None => 0
    case Some(s) => DigitsValue(s)
  }

  /** The skip test of the issue loop, negated: is this issue fetched? */
  predicate Selected(r: Range, e: IssueEntry)
    requires WellFormedEntry(e)
  {
    !(Given(r.start) && Given(r.end)
      && (EntryNumber(e) < r.start.value || EntryNumber(e) > r.end.value))
  }

  /** The entries fetched, in catalogue order. */
  function SelectedEntries(r: Range, entries: seq<IssueEntry>): (s: seq<IssueEntry>)
    requires forall e :: e in entries ==> WellFormedEntry(e)
    ensures forall e :: e in s ==> e in entries
  {
    if entries == [] then []
    else
      var last := entries[|entries| - 1];
      SelectedEntries(r, entries[..|entries| - 1]) + (if Selected(r, last) then [last] else [])
  }

  /**
   * The issue loop of the command line: walk the volume's issue entries in order,
   * skip those outside the range, and count the ones fetched.
   */
  method SelectIssues(r: Range, entries: seq<IssueEntry>) returns (fetched: seq<IssueEntry>, i: nat)
    requires forall e :: e in entries ==> WellFormedEntry(e)
    ensures fetched == SelectedEntries(r, entries)
    ensures i == |fetched|
  {
    fetched, i := [], 0;
    var k := 0;
    while k < |entries|
      invariant 0 <= k <= |entries|
      invariant fetched == SelectedEntries(r, entries[..k])
      invariant i == |fetched|
    {
      var e := entries[k];
      assert entries[..k + 1][..k] == entries[..k];
      if Selected(r, e) {
        i := i + 1;
        fetched := fetched + [e];
      }
      k := k + 1;
    }
    assert entries[..k] == entries;
  }

  /** An entry is fetched exactly when it lies in the range (or no range was given). */
  lemma {:induction false} SelectedEntriesMembers(r: Range, entries: seq<IssueEntry>, e: IssueEntry)
    requires forall x :: x in entries ==> WellFormedEntry(x)
    ensures e in SelectedEntries(r, entries) <==> e in entries && Selected(r, e)
  {
    if entries != [] {
      var init := entries[..|entries| - 1];
      assert entries == init + [entries[|entries| - 1]];
      SelectedEntriesMembers(r, init, e);
    }
  }

  /** Without both bounds every entry is fetched, in order. */
  lemma {:induction false} NoRangeSelectsAll(r: Range, entries: seq<IssueEntry>)
    requires forall x :: x in entries ==> WellFormedEntry(x)
    requires !(Given(r.start) && Given(r.end))
    ensures SelectedEntries(r, entries) == entries
  {
    if entries != [] {
      var init := entries[..|entries| - 1];
      NoRangeSelectsAll(r, init);
      assert entries == init + [entries[|entries| - 1]];
    }
  }

  /** `max_issues`: the expected number of issues, used for the progress display. */
  function MaxIssues(r: Range, countOfIssues: int): (m: int)
    ensures Given(r.start) && Given(r.end) && r.start.value <= r.end.value ==>
              m >= 1 && m == |IntsBetween(r.start.value, r.end.value)|
    ensures !(Given(r.start) && Given(r.end)) ==> m == countOfIssues
  {
    if Given(r.start) && Given(r.end) then
      if r.start.value <= r.end.value then
        IntsBetweenSize(r.start.value, r.end.value);
        r.end.value - r.start.value + 1
      else r.end.value - r.start.value + 1
    else countOfIssues
  }

  function NumbersOf(entries: seq<IssueEntry>): set<int>
    requires forall e :: e in entries ==> WellFormedEntry(e)
  {
    if entries == [] then {}
    else NumbersOf(entries[..|entries| - 1]) + {EntryNumber(entries[|entries| - 1])}
  }

  function IntsBetween(lo: int, hi: int): (s: set<int>)
    ensures forall n :: n in s <==> lo <= n <= hi
    decreases hi - lo
  {
    if lo > hi then {} else {lo} + IntsBetween(lo + 1, hi)
  }

  lemma {:induction false} IntsBetweenSize(lo: int, hi: int)
    requires lo <= hi + 1
    ensures |IntsBetween(lo, hi)| == hi - lo + 1
    decreases hi - lo
  {
    if lo <= hi {
      IntsBetweenSize(lo + 1, hi);
      assert lo !in IntsBetween(lo + 1, hi);
    }
  }

  lemma SubsetSize(a: set<int>, b: set<int>)
    requires a <= b
    ensures |a| <= |b|
  {
    assert b == a + (b - a);
    assert a * (b - a) == {};
  }

  /**
   * The fetched entries of a range with distinct issue numbers carry one number each,
   * all of them inside the range.
   */
  lemma {:induction false} SelectedNumbers(r: Range, entries: seq<IssueEntry>)
    requires forall e :: e in entries ==> WellFormedEntry(e)
    requires Given(r.start) && Given(r.end)
    requires forall i, j :: 0 <= i < j < |entries| ==> EntryNumber(entries[i]) != EntryNumber(entries[j])
    ensures |SelectedEntries(r, entries)| == |NumbersOf(SelectedEntries(r, entries))|
    ensures NumbersOf(SelectedEntries(r, entries)) <= IntsBetween(r.start.value, r.end.value)
  {
    if entries != [] {
      var init := entries[..|entries| - 1];
      var last := entries[|entries| - 1];
      SelectedNumbers(r, init);
      var sel := SelectedEntries(r, init);
      if Selected(r, last) {
        var sel' := sel + [last];
        assert sel'[..|sel'| - 1] == sel;
        NumbersOfMembers(sel, EntryNumber(last));
      } else {
        assert sel + [] == sel;
      }
    }
  }

  lemma {:induction false} NumbersOfMembers(entries: seq<IssueEntry>, n: int)
    requires forall e :: e in entries ==> WellFormedEntry(e)
    ensures n in NumbersOf(entries) <==> exists e :: e in entries && EntryNumber(e) == n
  {
    if entries != [] {
      var init := entries[..|entries| - 1];
      NumbersOfMembers(init, n);
      assert entries == init + [entries[|entries| - 1]];
    }
  }

  /**
   * When the volume's issues carry distinct numbers, no more than `end - start + 1`
   * of them are fetched, so the progress count never passes `max_issues`.
   */
  lemma FetchedWithinMaxIssues(r: Range, entries: seq<IssueEntry>, countOfIssues: int)
    requires forall e :: e in entries ==> WellFormedEntry(e)
    requires Given(r.start) && Given(r.end) && r.start.value <= r.end.value
    requires forall i, j :: 0 <= i < j < |entries| ==> EntryNumber(entries[i]) != EntryNumber(entries[j])
    ensures |SelectedEntries(r, entries)| <= MaxIssues(r, countOfIssues)
  {
    SelectedNumbers(r, entries);
    SubsetSize(NumbersOf(SelectedEntries(r, entries)), IntsBetween(r.start.value, r.end.value));
    IntsBetweenSize(r.start.value, r.end.value);
  }
}
