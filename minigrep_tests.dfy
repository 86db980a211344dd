/**
 * The library's three unit tests. Their texts are written as the lines
 * joined by "\n", with no line ending after the last line.
 */
module MiniGrepTests {
  import opened Text
  import opened LineSplit
  import opened Filtering
  import opened MiniGrep

  const Poem: seq<string> := ["Rust:", "safe, fast, productive.", "Pick three."]
  const PoemDuct: seq<string> := ["Rust:", "safe, fast, productive.", "Pick three.", "Duct tape."]
  const PoemTrust: seq<string> := ["Rust:", "safe, fast, productive.", "Pick three.", "Trust me."]

  lemma TestTextLines()
    ensures Lines(Joined(Poem)) == Poem
    ensures Lines(Joined(PoemDuct)) == PoemDuct
    ensures Lines(Joined(PoemTrust)) == PoemTrust
  {
    assert forall k :: 0 <= k < |PoemDuct| ==> '\n' !in PoemDuct[k] && !EndsWithCr(PoemDuct[k]);
    assert forall k :: 0 <= k < |PoemTrust| ==> '\n' !in PoemTrust[k] && !EndsWithCr(PoemTrust[k]);
    LinesOfJoined(Poem);
    LinesOfJoined(PoemDuct);
    LinesOfJoined(PoemTrust);
  }

  /** The test texts, as the escaped string literals write them. */
  lemma PoemText()
    ensures Joined(Poem) == "Rust:\nsafe, fast, productive.\nPick three."
  {
    var head := ["Rust:", "safe, fast, productive."];
    PoemHeadText();
    JoinedSnoc(head, "Pick three.");
    assert head + ["Pick three."] == Poem;
  }

  lemma PoemHeadText()
    ensures Joined(["Rust:", "safe, fast, productive."]) == "Rust:\nsafe, fast, productive."
  {
  }

  lemma PoemDuctText()
    ensures Joined(PoemDuct) == "Rust:\nsafe, fast, productive.\nPick three.\nDuct tape."
  {
    PoemText();
    JoinedSnoc(Poem, "Duct tape.");
    assert Poem + ["Duct tape."] == PoemDuct;
  }

  lemma PoemTrustText()
    ensures Joined(PoemTrust) == "Rust:\nsafe, fast, productive.\nPick three.\nTrust me."
  {
    PoemText();
    JoinedSnoc(Poem, "Trust me.");
    assert Poem + ["Trust me."] == PoemTrust;
  }

  lemma DuctNotInRust()
    ensures !Contains("Rust:", "duct")
  {
    MissingCharNotContained("Rust:", "duct", 0);
  }

  lemma DuctInProductive()
    ensures Contains("safe, fast, productive.", "duct")
  {
    assert "safe, fast, productive." == "safe, fast, pro" + "ductive.";
    assert OccursAt("ductive.", "duct", 0);
    ContainsInSuffix("safe, fast, pro", "ductive.", "duct");
  }

  lemma DuctNotInPick()
    ensures !Contains("Pick three.", "duct")
  {
    MissingCharNotContained("Pick three.", "duct", 0);
  }

  /** The capital `D` is not the query's `d`. */
  lemma DuctNotInDuctTape()
    ensures !Contains("Duct tape.", "duct")
  {
    MissingCharNotContained("Duct tape.", "duct", 0);
  }

  lemma OneResultLines()
    ensures Search("duct", Joined(Poem)) == ["safe, fast, productive."]
  {
    TestTextLines();
    DuctNotInRust();
    DuctInProductive();
    DuctNotInPick();
  }

  lemma CaseSensitiveLines()
    ensures Search("duct", Joined(PoemDuct)) == ["safe, fast, productive."]
  {
    TestTextLines();
    DuctNotInRust();
    DuctInProductive();
    DuctNotInPick();
    DuctNotInDuctTape();
    FilterOnlySecond(ExactMatch("duct"), "Rust:", "safe, fast, productive.", "Pick three.", "Duct tape.");
  }

  /** Filtering four elements of which only the second is accepted. */
  lemma FilterOnlySecond<T>(keep: T -> bool, a: T, b: T, c: T, d: T)
    requires !keep(a) && keep(b) && !keep(c) && !keep(d)
    ensures Filter(keep, [a, b, c, d]) == [b]
  {
    assert [d][1..] == [] && Filter(keep, [d]) == [];
    assert [c, d][1..] == [d] && Filter(keep, [c, d]) == [];
    assert [b, c, d][1..] == [c, d] && Filter(keep, [b, c, d]) == [b];
    assert [a, b, c, d][1..] == [b, c, d];
  }

  lemma RustInFoldedRust()
    ensures Contains(ToLower("Rust:"), "rust")
  {
    assert ToLower("Rust:") == "rust:";
    assert OccursAt("rust:", "rust", 0);
  }

  lemma RustNotInFoldedProductive()
    ensures !Contains(ToLower("safe, fast, productive."), "rust")
  {
    FoldProductive();
    RustNotInProductive();
  }

  lemma RustNotInProductive()
    ensures !Contains("safe, fast, productive.", "rust")
  {
    SplitProductive();
    NoRInPrefix();
    ContainsAfterPrefix("safe, fast, p", "roductive.", "rust");
    RustNotInRoductive();
  }

  lemma NoRInPrefix()
    ensures 'r' !in "safe, fast, p"
  {
  }

  lemma FoldProductive()
    ensures ToLower("safe, fast, productive.") == "safe, fast, productive."
  {
    ToLowerNoUpper("safe, fast, productive.");
  }

  lemma SplitProductive()
    ensures "safe, fast, productive." == "safe, fast, p" + "roductive."
  {
  }

  /** The only `r` is followed by `o`, not `u`. */
  lemma RustNotInRoductive()
    ensures !Contains("roductive.", "rust")
  {
    assert "roductive."[..4][1] == 'o';
    assert "roductive."[1..] == "oductive.";
    MissingCharNotContained("oductive.", "rust", 0);
  }

  lemma RustNotInFoldedPick()
    ensures !Contains(ToLower("Pick three."), "rust")
  {
    FoldPick();
    MissingCharNotContained("pick three.", "rust", 1);
  }

  lemma FoldPick()
    ensures ToLower("Pick three.") == "pick three."
  {
  }

  lemma FoldTrust()
    ensures ToLower("Trust me.") == "trust me."
  {
  }

  lemma FoldQuery()
    ensures ToLower("rUsT") == "rust"
  {
  }

  lemma RustInFoldedTrust()
    ensures Contains(ToLower("Trust me."), "rust")
  {
    FoldTrust();
    assert OccursAt("trust me.", "rust", 1);
  }

  lemma FoldedMatchRust()
    ensures FoldedMatch("rUsT")("Rust:")
  {
    FoldQuery();
    RustInFoldedRust();
  }

  lemma FoldedMatchProductive()
    ensures !FoldedMatch("rUsT")("safe, fast, productive.")
  {
    FoldQuery();
    RustNotInFoldedProductive();
  }

  lemma FoldedMatchPick()
    ensures !FoldedMatch("rUsT")("Pick three.")
  {
    FoldQuery();
    RustNotInFoldedPick();
  }

  lemma FoldedMatchTrust()
    ensures FoldedMatch("rUsT")("Trust me.")
  {
    FoldQuery();
    RustInFoldedTrust();
  }

  /** Filtering four elements of which the first and the last are accepted. */
  lemma FilterFirstAndLast<T>(keep: T -> bool, a: T, b: T, c: T, d: T)
    requires keep(a) && !keep(b) && !keep(c) && keep(d)
    ensures Filter(keep, [a, b, c, d]) == [a, d]
  {
    assert [d][1..] == [] && Filter(keep, [d]) == [d];
    assert [c, d][1..] == [d] && Filter(keep, [c, d]) == [d];
    assert [b, c, d][1..] == [c, d] && Filter(keep, [b, c, d]) == [d];
    assert [a, b, c, d][1..] == [b, c, d];
  }

  lemma CaseInsensitiveLines()
    ensures SearchCaseInsensitive("rUsT", Joined(PoemTrust)) == ["Rust:", "Trust me."]
  {
    TestTextLines();
    FoldedMatchRust();
    FoldedMatchProductive();
    FoldedMatchPick();
    FoldedMatchTrust();
    FilterFirstAndLast(FoldedMatch("rUsT"), "Rust:", "safe, fast, productive.", "Pick three.", "Trust me.");
  }

  /** `one_result`: only the middle line contains "duct". */
  lemma OneResult()
    ensures Search("duct", "Rust:\nsafe, fast, productive.\nPick three.") == ["safe, fast, productive."]
  {
    PoemText();
    OneResultLines();
  }

  /** `case_sensitive`: "Duct tape." does not contain "duct". */
  lemma CaseSensitive()
    ensures Search("duct", "Rust:\nsafe, fast, productive.\nPick three.\nDuct tape.") == ["safe, fast, productive."]
  {
    PoemDuctText();
    CaseSensitiveLines();
  }

  /** `case_insensitive`: "rUsT" folds to "rust", found in "Rust:" and "Trust me.". */
  lemma CaseInsensitive()
    ensures SearchCaseInsensitive("rUsT", "Rust:\nsafe, fast, productive.\nPick three.\nTrust me.") == ["Rust:", "Trust me."]
  {
    PoemTrustText();
    CaseInsensitiveLines();
  }

  /** A `'\r'` before a `'\n'` is dropped, an inner empty line is kept, a final line ending adds no line. */
  lemma LineEndings()
    ensures Lines("a\r" + "\n" + ("" + "\n" + ("b" + "\n" + ""))) == ["a", "", "b"]
    ensures Lines("a\r") == ["a\r"]
  {
    LinesCons("b", "");
    assert Lines("b" + "\n" + "") == ["b"];
    LinesCons("", "b" + "\n" + "");
    assert Lines("" + "\n" + ("b" + "\n" + "")) == ["", "b"];
    LinesCons("a\r", "" + "\n" + ("b" + "\n" + ""));
    assert StripCr("a\r") == "a";
    LinesLast("a\r");
  }
}
