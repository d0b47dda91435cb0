/**
 * The metadata an issue record gives to a local book (`build_black_list_titles` and
 * `calibre_update_metadata`): the canonical title "<volume> - Vol. <padded number>",
 * followed by ": <issue name>" unless the name is only a bare volume label.
 */
module Canonical {
  import opened Wrappers
  import opened Text
  import opened IndexInference
  import opened ComicVine

  /** `build_black_list_titles`: the bare volume labels of a raw issue number. */
  function BlackListTitles(issueNumber: string): (labels: seq<string>)
    ensures |labels| == 4
    ensures forall i :: 0 <= i < |labels| ==>
              |labels[i]| > |issueNumber| && labels[i][|labels[i]| - |issueNumber|..] == issueNumber
  {
    ["vol." + issueNumber, "volume" + issueNumber, "vol" + issueNumber, "#" + issueNumber]
  }

  /** `issue["name"] or ""`: a missing or empty name becomes "". */
  function NameOrEmpty(name: Option<string>): string {
    match name
    case Some(s) => s
    case None => ""
  }

  /** `name.lower().replace(" ", "")`. */
  function NormaliseName(name: string): string {
    RemoveSpaces(Lower(name))
  }

  /** Does the issue name only repeat the volume number ("Vol. 3", "#3", ...)? */
  predicate IsBareVolumeLabel(name: string, issueNumber: string) {
    NormaliseName(name) in BlackListTitles(issueNumber)
  }

  /** `"{}".format(x)` of an optional string: None is written "None". */
  function Show(x: Option<string>): string {
    match x
    case Some(s) => s
    case None => "None"
  }

  /** "<volume> - Vol. <issue number zero-filled to width>". */
  function TitlePrefix(volume: Option<string>, issueNumber: string, width: nat): string {
    Show(volume) + " - Vol. " + ZFill(issueNumber, width)
  }

  /** The title given to the book (update_calibre.py, the `mi.title` branches). */
  function CanonicalTitle(issue: IssueOutput, width: nat): (t: string)
    ensures |t| >= |TitlePrefix(issue.volume, issue.issueNumber, width)| + 2
            || IsBareVolumeLabel(NameOrEmpty(issue.name), issue.issueNumber)
  {
    var name := NameOrEmpty(issue.name);
    if IsBareVolumeLabel(name, issue.issueNumber)
    then TitlePrefix(issue.volume, issue.issueNumber, width)
    else TitlePrefix(issue.volume, issue.issueNumber, width) + ": " + name
  }

  /**
   * Every title starts with the "<volume> - Vol. <padded number>" prefix; it is exactly that
   * prefix when the name is a bare volume label, and otherwise the prefix, ": " and the name.
   */
  lemma CanonicalTitleShape(issue: IssueOutput, width: nat)
    ensures var t := CanonicalTitle(issue, width);
            var prefix := TitlePrefix(issue.volume, issue.issueNumber, width);
            |t| >= |prefix| && t[..|prefix|] == prefix
            && (t == prefix <==> IsBareVolumeLabel(NameOrEmpty(issue.name), issue.issueNumber))
            && (t != prefix ==> t[|prefix|..] == ": " + NameOrEmpty(issue.name))
  {
  }

  /**
   * The fields `calibre_update_metadata` sets on the book. The cover date is kept as the
   * text `strptime` would parse; the two sort keys come from the library and are not modelled.
   */
  datatype MetadataPatch = MetadataPatch(
    title: string,
    series: Option<string>,
    seriesIndex: nat,
    comments: Option<string>,
    authors: seq<string>,
    pubdate: string,
    publisher: string)

  /** The metadata written for one issue record. */
  function Canonicalize(issue: IssueOutput, width: nat): (p: MetadataPatch)
    requires IsDigitString(issue.issueNumber)
    ensures p.seriesIndex == DigitsValue(issue.issueNumber)
    ensures p.series == issue.volume && p.comments == issue.description
            && p.authors == issue.personCredits && p.pubdate == issue.coverDate
            && p.publisher == issue.publisher
    ensures p.title == CanonicalTitle(issue, width)
  {
    MetadataPatch(
      CanonicalTitle(issue, width),
      issue.volume,
      DigitsValue(issue.issueNumber),
      issue.description,
      issue.personCredits,
      issue.coverDate,
      issue.publisher)
  }

  lemma NormaliseDigits(n: string)
    requires AllDigits(n)
    ensures NormaliseName(n) == n
  {
    assert Lower(n) == n;
    RemoveSpacesNoSpace(n);
  }

  lemma NormaliseAppend(a: string, b: string)
    ensures NormaliseName(a + b) == NormaliseName(a) + NormaliseName(b)
  {
    LowerAppend(a, b);
    RemoveSpacesAppend(Lower(a), Lower(b));
  }

  /**
   * A name made of a volume word ("Vol.", "VOLUME", "vol", "#", in any case and with any
   * spaces) followed by the raw issue number gives the bare title, with no ": " part.
   */
  lemma BareLabelGivesBareTitle(issue: IssueOutput, width: nat, word: string)
    requires IsDigitString(issue.issueNumber)
    requires NormaliseName(word) in ["vol.", "volume", "vol", "#"]
    requires issue.name == Some(word + issue.issueNumber)
    ensures CanonicalTitle(issue, width) == TitlePrefix(issue.volume, issue.issueNumber, width)
  {
    NormaliseAppend(word, issue.issueNumber);
    NormaliseDigits(issue.issueNumber);
  }

  /** An issue called "Vol.<n>" does not repeat its number in the title. */
  lemma VolDotNameGivesBareTitle(issue: IssueOutput, width: nat)
    requires IsDigitString(issue.issueNumber)
    requires issue.name == Some("Vol." + issue.issueNumber)
    ensures CanonicalTitle(issue, width)
            == Show(issue.volume) + " - Vol. " + ZFill(issue.issueNumber, width)
  {
    assert NormaliseName("Vol.") == "vol." by {
      assert Lower("Vol.") == "vol.";
      RemoveSpacesNoSpace("vol.");
    }
    BareLabelGivesBareTitle(issue, width, "Vol.");
  }

  /**
   * Any other name is appended after ": ", exactly as the record has it (not lower-cased,
   * spaces kept).
   */
  lemma NamedIssueKeepsName(issue: IssueOutput, width: nat)
    requires issue.name.Some? && !IsBareVolumeLabel(issue.name.value, issue.issueNumber)
    ensures var t := CanonicalTitle(issue, width);
            var prefix := TitlePrefix(issue.volume, issue.issueNumber, width);
            var name := issue.name.value;
            |t| == |prefix| + 2 + |name| && t[..|prefix|] == prefix
            && t[|prefix|..|prefix| + 2] == ": " && t[|prefix| + 2..] == name
  {
  }

  /** A name without any digit never counts as a bare volume label. */
  lemma NameWithoutDigitIsNotBare(name: string, issueNumber: string)
    requires IsDigitString(issueNumber)
    requires NoDigit(NormaliseName(name))
    ensures !IsBareVolumeLabel(name, issueNumber)
  {
    var n := NormaliseName(name);
    var bl := BlackListTitles(issueNumber);
    forall i | 0 <= i < |bl| ensures bl[i] != n {
      var d := issueNumber[|issueNumber| - 1];
      assert bl[i][|bl[i]| - 1] == d;
      if |n| == |bl[i]| {
        assert n[|n| - 1] != d;
      }
    }
  }

  /** A missing or empty name is not a bare label: the title ends in ": ". */
  lemma EmptyNameEndsWithSeparator(issue: IssueOutput, width: nat)
    requires issue.name == None || issue.name == Some("")
    ensures CanonicalTitle(issue, width)
            == TitlePrefix(issue.volume, issue.issueNumber, width) + ": "
  {
    var name := NameOrEmpty(issue.name);
    assert NormaliseName(name) == "";
    var bl := BlackListTitles(issue.issueNumber);
    assert forall i :: 0 <= i < |bl| ==> |bl[i]| > 0;
    assert "" !in bl;
    assert TitlePrefix(issue.volume, issue.issueNumber, width) + ": " + "" ==
           TitlePrefix(issue.volume, issue.issueNumber, width) + ": ";
  }

  /**
   * The title written back to the book carries its issue number again: when the volume
   * name has no digit, inferring an index from the new title yields the issue's number
   * (the zero padding is dropped again).
   */
  lemma TitleReinfersIndex(issue: IssueOutput, width: nat)
    requires IsDigitString(issue.issueNumber)
    requires NoDigit(Show(issue.volume))
    ensures InferIndex(CanonicalTitle(issue, width)) == Some(DigitsValue(issue.issueNumber))
  {
    var lead := Show(issue.volume) + " - Vol. ";
    var z := ZFill(issue.issueNumber, width);
    ZFillKeepsValue(issue.issueNumber, width);
    var t := CanonicalTitle(issue, width);
    var rest := if IsBareVolumeLabel(NameOrEmpty(issue.name), issue.issueNumber)
                then "" else ": " + NameOrEmpty(issue.name);
    assert t == lead + z + rest;
    assert NoDigit(lead) by {
      forall i | 0 <= i < |lead| ensures !IsDigit(lead[i]) {
        if i >= |Show(issue.volume)| {
          assert lead[i] in " - Vol. ";
        }
      }
    }
    var i, j := |lead|, |lead| + |z|;
    assert t[..i] == lead;
    assert t[i..j] == z;
    assert j == |t| || t[j] == ':';
    InferIndexIsLeftmostRun(t, i, j);
  }

  /**
   * `calibre_update_metadata` overwrites `issue["name"]` with `issue["name"] or ""` in the
   * shared record; a later update from the same record produces the same metadata.
   */
  lemma NameRewriteIsInvisible(issue: IssueOutput, width: nat)
    requires IsDigitString(issue.issueNumber)
    ensures Canonicalize(issue.(name := Some(NameOrEmpty(issue.name))), width)
            == Canonicalize(issue, width)
  {
  }
}
