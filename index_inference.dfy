/**
 * Series-index inference from a free-text label (`get_serie_index_from_title`):
 * the value of the first run of decimal digits in the label, or None.
 */
module IndexInference {
  import opened Wrappers
  import opened Text

  /** The longest prefix of s made of digits. */
  function DigitRun(s: string): (r: string)
    ensures AllDigits(r)
    ensures |r| <= |s| && r == s[..|r|]
    ensures |r| == |s| || !IsDigit(s[|r|])
  {
    if s != [] && IsDigit(s[0]) then [s[0]] + DigitRun(s[1..]) else []
  }

  /** The index a label carries: the first maximal digit run, read as a number. */
  function InferIndex(title: string): (r: Option<nat>)
    ensures r.None? <==> NoDigit(title)
  {
    if title == [] then None
    else if IsDigit(title[0]) then Some(DigitsValue(DigitRun(title)))
    else
      var r := InferIndex(title[1..]);
      assert NoDigit(title[1..]) ==> NoDigit(title) by {
        if NoDigit(title[1..]) {
          forall i | 0 <= i < |title| ensures !IsDigit(title[i]) {
            if i > 0 { assert title[i] == title[1..][i - 1]; }
          }
        }
      }
      r
  }

  // A reference model of `re.search(r"#?(\d+)", title).group(1)`, written the way the
  // regular-expression engine proceeds: try each start position from the left; at a
  // position, first let the optional '#' consume a character, and if the digits cannot
  // follow, retry with '#?' matching nothing. `\d+` is greedy.

  /** The group captured by `#?(\d+)` when the match must start at the beginning of s. */
  function MatchHere(s: string): Option<string> {
    if |s| >= 2 && s[0] == '#' && IsDigit(s[1]) then Some(DigitRun(s[1..]))
    else if |s| >= 1 && IsDigit(s[0]) then Some(DigitRun(s))
    else None
  }

  /** The group captured by the leftmost match of `#?(\d+)` anywhere in s. */
  function Search(s: string): Option<string> {
    if MatchHere(s).Some? then MatchHere(s)
    else if s == [] then None
    else Search(s[1..])
  }

  /** The inferred index is exactly `int(match.group(1))` of the regular-expression search. */
  lemma {:induction false} InferIndexIsRegexSearch(title: string)
    ensures Search(title).Some? ==> AllDigits(Search(title).value)
    ensures InferIndex(title) == match Search(title)
                                 case None => None
                                 case Some(g) => Some(DigitsValue(g))
  {
    if title == [] {
    } else if |title| >= 2 && title[0] == '#' && IsDigit(title[1]) {
      assert title[1..] != [] && IsDigit(title[1..][0]);
      assert InferIndex(title) == InferIndex(title[1..]);
    } else if IsDigit(title[0]) {
    } else {
      InferIndexIsRegexSearch(title[1..]);
    }
  }

  lemma {:induction false} DigitRunOfRun(s: string, j: nat)
    requires 0 < j <= |s|
    requires AllDigits(s[..j])
    requires j == |s| || !IsDigit(s[j])
    ensures DigitRun(s) == s[..j]
  {
    assert IsDigit(s[..j][0]);
    if j > 1 {
      assert s[1..][..j - 1] == s[..j][1..];
      DigitRunOfRun(s[1..], j - 1);
      assert [s[0]] + s[1..][..j - 1] == s[..j];
    } else if |s| > 1 {
      assert s[1..][0] == s[1];
    }
  }

  /** A prefix without digits does not influence the inferred index. */
  lemma {:induction false} InferIndexSkipsNonDigits(p: string, s: string)
    requires NoDigit(p)
    ensures InferIndex(p + s) == InferIndex(s)
  {
    if p != [] {
      assert (p + s)[1..] == p[1..] + s;
      assert !IsDigit(p[0]);
      InferIndexSkipsNonDigits(p[1..], s);
    } else {
      assert p + s == s;
    }
  }

  lemma SliceOfTail(s: string, a: nat, b: nat)
    requires a <= b < |s|
    ensures s[1..][a..b] == s[a + 1..b + 1]
  {
    assert |s[1..][a..b]| == |s[a + 1..b + 1]|;
    forall k | 0 <= k < b - a ensures s[1..][a..b][k] == s[a + 1..b + 1][k] {
    }
  }

  /**
   * Whenever the label has no digit before position i and a maximal digit run at
   * i..j, the inferred index is the value of that run (leading zeros dropped).
   */
  lemma {:induction false} InferIndexIsLeftmostRun(title: string, i: nat, j: nat)
    requires i < j <= |title|
    requires NoDigit(title[..i])
    requires AllDigits(title[i..j])
    requires j == |title| || !IsDigit(title[j])
    ensures InferIndex(title) == Some(DigitsValue(title[i..j]))
  {
    if i == 0 {
      assert title[..j] == title[i..j];
      DigitRunOfRun(title, j);
    } else {
      assert !IsDigit(title[..i][0]);
      var rest := title[1..];
      assert rest[..i - 1] == title[1..i];
      SliceOfTail(title, i - 1, j - 1);
      InferIndexIsLeftmostRun(rest, i - 1, j - 1);
    }
  }

  // The labels listed in the docstring of `get_serie_index_from_title`.

  lemma HashPrefixedExample(t: string)
    requires t == "#1 - The Black Company"
    ensures InferIndex(t) == Some(1)
  {
    assert |t| == 22 && t[0] == '#' && t[1] == '1' && t[2] == ' ';
    var run := t[1..2];
    assert run == "1" && AllDigits(run);
    assert DigitsValue(run) == 1 by { assert run[..0] == []; }
    assert NoDigit(t[..1]) by { assert t[..1] == "#"; }
    InferIndexIsLeftmostRun(t, 1, 2);
  }

  lemma LeadingZeroExample(t: string)
    requires t == "#02"
    ensures InferIndex(t) == Some(2)
  {
    assert |t| == 3 && t[0] == '#' && t[1] == '0' && t[2] == '2';
    var run := t[1..3];
    assert run == "02" && AllDigits(run);
    assert DigitsValue(run) == 2 by {
      var z := run[..1];
      assert z == "0" && z[..0] == [];
      assert DigitsValue(z) == 0;
      assert run[1] == '2';
    }
    assert NoDigit(t[..1]) by { assert t[..1] == "#"; }
    InferIndexIsLeftmostRun(t, 1, 3);
  }

  lemma VolumeSuffixExample(t: string)
    requires t == "Dragonlance Vol.3"
    ensures InferIndex(t) == Some(3)
  {
    var p := "Dragonlance Vol.";
    assert NoDigit(p) by {
      forall i | 0 <= i < |p| ensures !IsDigit(p[i]) {
        assert p[i] in "DragonlceVo. ";
      }
    }
    InferIndexSkipsNonDigits(p, "3");
    assert p + "3" == t;
  }

  lemma LetterPrefixExample(t: string)
    requires t == "v1"
    ensures InferIndex(t) == Some(1)
  {
    assert t[..1] == "v" && t[1..2] == "1";
    InferIndexIsLeftmostRun(t, 1, 2);
  }

  /** A number written in words carries no index. */
  lemma WordsAreNotAnIndex(t: string)
    requires t == "Volume One"
    ensures InferIndex(t) == None
  {
    forall i | 0 <= i < |t| ensures !IsDigit(t[i]) {
      assert t[i] in "VolumeOn ";
    }
  }
}
