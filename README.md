# Comic Vine → Calibre series reconciliation, modelled in Dafny

The scraper works in two stages.

- `comic_vine.py` asks the Comic Vine catalogue for a series. It calls a series a "volume". For the chosen volume it fetches the issues, optionally only those inside a `--start`/`--end` range. For every issue it keeps only the writer and artist credits, and it writes one record per issue to a results file.
- `update_calibre.py` reads those records and indexes them by integer issue number. It then looks at the books of the local Calibre library. For each book it infers a series index from the free-text title. If that fails it uses the book's stored series index, and then its first author. Every book whose index has a record receives new metadata. That metadata includes a canonical title `"<volume> - Vol. <zero-padded number>"`. The title gets `": <issue name>"` appended unless the issue name is only a bare volume label such as `"Vol. 3"` or `"#3"`.

The model is split into six files:

- `text.dfy` (module `Text`): the Python string and integer behaviour the code relies on. That is ASCII digits, `int()` of a digit string, `str()` of a natural number, `str.lower()`, `str.replace(" ", "")`, substring `in` and `str.zfill`.
- `index_inference.dfy` (module `IndexInference`): `get_serie_index_from_title`. It is proved equal to a separate reference model of `re.search(r"#?(\d+)", …)`.
- `comic_vine.dfy` (module `ComicVine`): the `Volume` and `Issue` records and the credit filter. It also holds the results-file record (`Issue.output`), the command-line range normalisation and the issue-range loop.
- `canonical_title.dfy` (module `Canonical`): `build_black_list_titles` and the title, series, index and field logic of `calibre_update_metadata`.
- `reconcile.dfy` (module `Reconciliation`): the `__main__` block of `update_calibre.py`. It covers the choice of books, the index → record map (last write wins), the padding width, the fallback chain and the update loop. The update loop returns the ordered list of metadata writes instead of performing them.
- `wrappers.dfy` (module `Wrappers`): `Option`.

Behaviour of the code that the model keeps as it is:

- An issue whose name is missing or empty gets a title ending in `": "` (update_calibre.py:94-104). `Canonical.EmptyNameEndsWithSeparator` and `Reconciliation.TwoBookExample` state it.
- Name normalisation removes only the space character, not all whitespace (update_calibre.py:95).
- When several records share an issue number, the map keeps the last of them (update_calibre.py:139-140).

## Model

| member | source | states |
|---|---|---|
| `IndexInference.InferIndex` | update_calibre.py:60-72 | The result is None exactly when the label contains no decimal digit. |
| `IndexInference.InferIndexIsRegexSearch` | update_calibre.py:69-72 | The inferred index equals `int(group(1))` of the leftmost `#?(\d+)` match. The regex model tries `#` then backtracks, and `\d+` is greedy. So the optional `#` never changes the captured group. |
| `IndexInference.InferIndexIsLeftmostRun` | update_calibre.py:69-71 | Take a label with no digit before position i and a maximal digit run from i to j. Its index is the value of that run, with leading zeros dropped. |
| `IndexInference.InferIndexSkipsNonDigits` | update_calibre.py:69 | A prefix without digits does not change the inferred index. |
| `IndexInference.HashPrefixedExample` | update_calibre.py:63 | "#1 - The Black Company" gives 1. |
| `IndexInference.LeadingZeroExample` | update_calibre.py:64 | "#02" gives 2. |
| `IndexInference.VolumeSuffixExample` | update_calibre.py:65 | "Dragonlance Vol.3" gives 3. |
| `IndexInference.LetterPrefixExample` | update_calibre.py:66 | "v1" gives 1. |
| `IndexInference.WordsAreNotAnIndex` | update_calibre.py:69-72 | "Volume One" gives None. |
| `Text.LeadingZerosIgnored` | update_calibre.py:71 | `int()` of a digit string ignores any number of leading zeros. |
| `Text.ZFill` | update_calibre.py:97 | `zfill(s, w)` has length max(\|s\|, w). |
| `Text.ZFillUnsigned` | update_calibre.py:102 | For a string with no sign, `zfill` is only '0' characters followed by the string itself. So it ends with s and is unchanged when already w long. |
| `Text.ZFillKeepsValue` | update_calibre.py:97 | Zero-filling an issue number keeps it a digit string with the same integer value. |
| `Text.NatToString` | update_calibre.py:142 | `str(n)` is a digit string that reads back as n and has no leading zero. |
| `Text.DecimalLength` | update_calibre.py:142 | `len(str(n))` is the number of decimal digits: n < 10^len, and 10^(len-1) ≤ n when n ≥ 1. |
| `Text.RemoveSpaces` | update_calibre.py:95 | `replace(" ", "")` leaves no space and never lengthens the string. |
| `Text.RemoveSpacesSingle` | update_calibre.py:95 | A space disappears and any other character is kept. Together with `Text.RemoveSpacesAppend` this fixes `replace(" ", "")` completely: the other characters stay, in order. |
| `Text.RemoveSpacesAppend` | update_calibre.py:95 | Removing spaces works character by character: the result for a concatenation is the concatenation of the results. |
| `Canonical.Canonicalize` | update_calibre.py:90-110 | The series index written is the integer value of the issue number. Series, comments, authors, cover date and publisher are copied from the record. The title is `CanonicalTitle`, whose shape `CanonicalTitleShape` gives. |
| `Canonical.BlackListTitles` | update_calibre.py:81-87 | There are four bare labels, and each one ends with the raw issue number after a non-empty volume word. |
| `Canonical.CanonicalTitle` | update_calibre.py:94-104 | The two title branches. Its shape is stated by `CanonicalTitleShape`. The ensures only says that a title that is not a bare label is at least two characters longer than the prefix. |
| `Canonical.CanonicalTitleShape` | update_calibre.py:94-104 | Every title starts with "<volume> - Vol. <padded>". It equals that prefix exactly when the name is a bare volume label. Otherwise the prefix is followed by ": " and the name. |
| `Canonical.BareLabelGivesBareTitle` | update_calibre.py:81-98 | Take a name that is "vol.", "volume", "vol" or "#" (any case, any spaces) followed by the raw issue number. Its title is exactly the bare prefix, with no ": " part. |
| `Canonical.VolDotNameGivesBareTitle` | update_calibre.py:95-98 | An issue named "Vol.<n>" gets `volume + " - Vol. " + zfill(n, w)`. |
| `Canonical.NamedIssueKeepsName` | update_calibre.py:99-104 | Any other present name follows the prefix after ": ", verbatim. It is not lower-cased and its spaces are kept. |
| `Canonical.NameWithoutDigitIsNotBare` | update_calibre.py:81-87 | Every blacklist entry ends with a digit of the issue number. So a name whose normal form has no digit is never a bare label. |
| `Canonical.EmptyNameEndsWithSeparator` | update_calibre.py:94-104 | A missing or empty name takes the named branch, and the title ends in ": ". |
| `Canonical.TitleReinfersIndex` | update_calibre.py:96-104 | If the volume name has no digit, inferring an index from the written title gives back the issue's number. The zero padding is dropped again. |
| `Canonical.NameRewriteIsInvisible` | update_calibre.py:94 | The in-place rewrite `issue["name"] = issue["name"] or ""` does not change the metadata a later book gets from the same record. |
| `Reconciliation.IndexOf` | update_calibre.py:138-140 | Every record's key is in the map. Every key in the map is some record's key, and the record stored under k has key k. |
| `Reconciliation.IndexOfLastWins` | update_calibre.py:139-140 | Each key holds the last record in input order with that key. |
| `Reconciliation.BuildIndex` | update_calibre.py:138-140 | The dictionary-filling loop produces exactly `IndexOf(results)`. |
| `Reconciliation.PaddingWidth` | update_calibre.py:142 | The width is at least 1 and is the decimal digit count of the number of books: 1 for zero books, otherwise 10^(w-1) ≤ count < 10^w. |
| `Reconciliation.FortySevenBooksPadToTwo` | update_calibre.py:142 | 47 books give width 2. |
| `Reconciliation.Truncate` | update_calibre.py:146 | `int()` of a number truncates toward zero. |
| `Reconciliation.ResolveIndex` | update_calibre.py:143-149 | The title's index wins. Without one, a non-zero stored index is used, truncated. Otherwise the first author's index is used. The result is None exactly when the title has no digit, there is no non-zero stored index, and there is no author or the first author has no digit. |
| `Reconciliation.HintBeforeAuthor` | update_calibre.py:143-149 | The book "Untitled" with stored index 4 and author "#9 Someone" resolves to 4. |
| `Reconciliation.UpdateOf` | update_calibre.py:151-156 | A book gets one update exactly when its index resolves and the map has that key. The update targets that book and carries the metadata of the record at that key. |
| `Reconciliation.Updates` | update_calibre.py:143-156 | There are never more updates than books. |
| `Reconciliation.Reconcile` | update_calibre.py:138-156 | The `__main__` loops (map build, width, fallback chain, lookup) produce exactly `Updates(books, IndexOf(results), PaddingWidth(\|books\|))`. |
| `Reconciliation.UpdatesAppend` | update_calibre.py:143 | Updates follow book order: the updates of a concatenation are the concatenated updates. |
| `Reconciliation.UpdatesMembers` | update_calibre.py:143-156 | An update is produced exactly when it is the update of some input book. |
| `Reconciliation.UpdatesAreSound` | update_calibre.py:151-156 | Every update goes to an input book whose resolved index equals the update's series index. Its metadata is built from one of the records. |
| `Reconciliation.UpdateSource` | update_calibre.py:143-156 | Each update comes from a book of the input, and the lemma gives its position. |
| `Reconciliation.UpdateReachesResult` | update_calibre.py:143-156 | The update of each book of the input is among the updates. |
| `Reconciliation.MatchedBookIsUpdated` | update_calibre.py:139-156 | Take a book resolving to k, with some record numbered k. It receives the metadata of the last such record, with series index k. |
| `Reconciliation.TwoBookExample` | update_calibre.py:94-104 | Books "Series Vol.1" and "Series Vol.2", matched with records 1 (no name) and 2 ("Rise") at width 1, give "Series - Vol. 1: " then "Series - Vol. 2: Rise". |
| `Reconciliation.Scanned` | update_calibre.py:30-47 | The books a library scan returns are library books that pass the scan's test. |
| `Reconciliation.ScanLibrary` | update_calibre.py:24-47 | The scanning loop returns exactly the library books that pass the test, in library order. |
| `Reconciliation.ScannedKeepsAllMatching` | update_calibre.py:32-35 | No library book that passes the test is missed. |
| `Reconciliation.Run` | update_calibre.py:122-156 | With no record, the run exits. It uses the books of the first record's volume, else the books without a series, and exits when both are empty. Otherwise it makes exactly the updates of `Updates` for those books. |
| `ComicVine.VolumeFromJson` | comic_vine.py:37-45 | Without a "publisher" key, or without a "name" in it, the publisher is "". A present publisher name is copied, and a non-empty publisher always comes from the record's publisher name. A null publisher raises (None here). The other fields are copied. |
| `ComicVine.KeepOnlyWriterAndArtist` | comic_vine.py:67-73 | The output is no longer than the input. Every name in it belongs to a credit whose lower-cased role contains "writer" or "artist". |
| `ComicVine.IsWriterOrArtist` | comic_vine.py:72 | The role test as written: the lower-cased role contains "writer" or "artist". Its meaning is stated by `KeepOnlySingle`, `RoleTestIgnoresCase` and `RoleExamples`. The ensures only bounds the role length (at least 6). |
| `ComicVine.RoleTestIgnoresCase` | comic_vine.py:72 | Lower-casing the role first does not change the test, because the code compares the role in lower case. |
| `ComicVine.RoleExamples` | comic_vine.py:72 | "Writer" and "Penciler, Artist" pass the test and "Colorist" does not. |
| `ComicVine.KeepOnlyAppend` | comic_vine.py:69-73 | The filter works credit by credit, so input order and duplicates are kept. |
| `ComicVine.KeepOnlySingle` | comic_vine.py:72 | One credit survives exactly when its role mentions a writer or an artist. |
| `ComicVine.KeepOnlyKeepsAllMatching` | comic_vine.py:69-73 | Every writer or artist credit has its name in the output. |
| `ComicVine.NewIssue` | comic_vine.py:49-65 | The stored credits are the filtered names, never the raw credits. Every stored name comes from a writer or artist credit. |
| `ComicVine.IssueFromJson` | comic_vine.py:93-103 | An issue read from the catalogue belongs to the chosen volume and stores the filtered credits. |
| `ComicVine.Output` | comic_vine.py:105-115 | Without a volume, "volume" is None and "publisher" is "". Otherwise they are the volume's name and publisher. All other fields are copied. |
| `ComicVine.NormaliseRange` | comic_vine.py:172-180 | If either bound is given (0 or missing counts as absent), both end up given with start ≤ end. A given pair becomes (min, max), and a single bound is copied to the other. With neither given, nothing changes. |
| `ComicVine.NormaliseRangeIdempotent` | comic_vine.py:172-180 | Normalising twice equals normalising once. |
| `ComicVine.SelectIssues` | comic_vine.py:195-210 | The issue loop fetches exactly `SelectedEntries`, in catalogue order, and its counter equals the number fetched. |
| `ComicVine.SelectedEntries` | comic_vine.py:196-203 | Every fetched entry is an entry of the volume, and `SelectedEntriesMembers` states exactly which ones. |
| `ComicVine.MaxIssues` | comic_vine.py:190-192 | With both bounds given and start ≤ end, `max_issues` is at least 1 and is the number of integers in the range. Without both bounds, it is the volume's issue count. |
| `ComicVine.SelectedEntriesMembers` | comic_vine.py:196-203 | An entry is fetched exactly when it is an input entry and it is not outside a range with both bounds given. A missing issue number counts as 0. |
| `ComicVine.NoRangeSelectsAll` | comic_vine.py:198-203 | Without both bounds, every entry is fetched. |
| `ComicVine.FetchedWithinMaxIssues` | comic_vine.py:190-205 | Take a normalised range and issues with distinct numbers. At most `end - start + 1` issues, the expected count, are fetched. |

## Left out

- config.py: it only reads `config.json` at import time. Paths and API keys are not part of this model.
- `get_request`: the HTTP call, the exit on status 420, the response dump to a file and the one-second sleep are network and file I/O.
- `get_comic_vine_volumes`, the volume listing and the `input()` choice, and the JSON reads and writes are network, UI and file I/O. The search loop skips volumes whose `from_json` raises. `VolumeFromJson` models only the null-publisher case of that. Keys missing from a catalogue record are excluded by the typed records.
- `print_download_progress` (comic_vine.py:159, called at line 204) is not modelled. Its percentage is computed in floating point, and the division by `max_issues` can raise.
- SelectIssues: does not model the crash in the progress display. With no range given, `max_issues` is the volume's `count_of_issues` (comic_vine.py:190). If that is 0 and an issue is selected, the division at comic_vine.py:159 raises ZeroDivisionError (TypeError when the count is null). The fetch then stops before the results file is written (comic_vine.py:213). `SelectIssues` returns the full selection in that case.
- All other `print` output is display only.
- `__repr__` and `__str__` of `Volume` and `Issue`: display strings.
- Calibre library access (`calibre_db.all_book_ids`, `get_metadata`, `set_metadata`): the library is an input sequence of books, and the updates are returned instead of written. `get_calibre_books` and `get_all_series` only print or collect and feed nothing into the run.
- `title_sort` and `authors_to_sort_string`: Calibre's own collation functions, whose code is not part of this model. The metadata patch has no sort keys.
- Reconcile: does not model the `strptime` crash (update_calibre.py:109). The cover date is carried as text. A malformed date makes the program stop at that book, but `Reconcile` still returns updates for it and for every later book.
- `float(issue_number)`: the series index is the integer value of the issue number, not an IEEE float. A stored series index is a `real`, not an IEEE float.
- Issue numbers: they are assumed to be ASCII digit strings (`ValidResults`, `WellFormedEntry`). The model does not cover `int()` raising on "1.5", or accepting signs, surrounding whitespace or underscores. In `IssueEntry` a missing issue number (None) is read as "0", as `issue.get("issue_number", "0")` does. A JSON null issue number is not modelled: `get` returns None and `int(None)` raises TypeError at comic_vine.py:197.
- Text handling: `str.lower()` and the regex `\d` are modelled for ASCII only. Python also lower-cases and matches non-ASCII letters and digits.
- ZFill: models the sign handling of `str.zfill`, but the properties are proved for unsigned strings only, because issue numbers are digit strings.
- VolumeFromJson: a publisher object whose "name" is JSON null is read as an absent name. Python would store None as the publisher.
