/**
 * The two string operations of Rust's standard library that the search
 * engine relies on: `str::contains` with a string pattern, and
 * `str::to_lowercase`, here restricted to ASCII letters.
 */
module Text {

  /** `q` occurs in `s` starting at position `i`. */
  predicate OccursAt(s: string, q: string, i: nat)
  {
    i + |q| <= |s| && s[i..i + |q|] == q
  }

  /**
   * `s.contains(q)`: a literal substring test. Only start positions that
   * leave room for the whole pattern are tried, which loses no occurrence;
   * a pattern longer than the text is never contained.
   */
  predicate Contains(s: string, q: string): (b: bool)
    ensures b <==> exists i: nat :: OccursAt(s, q, i)
    ensures b ==> |q| <= |s|
  {
    exists i: nat | i <= |s| - |q| :: OccursAt(s, q, i)
  }

  /** The empty query is contained in every line. */
  lemma ContainsEmpty(s: string)
    ensures Contains(s, "")
  {
    assert OccursAt(s, "", 0);
  }

  /** A line that lacks some character of the query does not contain it. */
  lemma MissingCharNotContained(s: string, q: string, j: nat)
    requires j < |q| && q[j] !in s
    ensures !Contains(s, q)
  {
    forall i: nat ensures !OccursAt(s, q, i) {
      if i + |q| <= |s| {
        assert s[i..i + |q|][j] == s[i + j];
      }
    }
  }

  /** When a prefix of the line lacks the query's first character, any occurrence lies after it. */
  lemma ContainsAfterPrefix(prefix: string, s: string, q: string)
    requires q != [] && q[0] !in prefix
    ensures Contains(prefix + s, q) ==> Contains(s, q)
  {
    var t := prefix + s;
    forall i: nat | OccursAt(t, q, i) ensures OccursAt(s, q, i - |prefix|) {
      assert t[i] == t[i..i + |q|][0];
      assert forall j :: 0 <= j < |prefix| ==> t[j] == prefix[j];
      assert t[i..i + |q|] == s[i - |prefix|..i - |prefix| + |q|];
    }
  }

  /** Whatever a line's suffix contains, the line contains. */
  lemma ContainsInSuffix(prefix: string, s: string, q: string)
    requires Contains(s, q)
    ensures Contains(prefix + s, q)
  {
    var i: nat :| i <= |s| - |q| && OccursAt(s, q, i);
    assert (prefix + s)[i + |prefix|..i + |prefix| + |q|] == s[i..i + |q|];
    assert OccursAt(prefix + s, q, i + |prefix|);
  }

  /** Folding leaves a line without upper-case ASCII letters unchanged. */
  lemma ToLowerNoUpper(s: string)
    requires forall c :: c in s ==> !('A' <= c <= 'Z')
    ensures ToLower(s) == s
  {
    assert forall i :: 0 <= i < |s| ==> s[i] in s;
  }

  /** Lower-case mapping of one character: ASCII `A`..`Z` become `a`..`z`. */
  function LowerChar(c: char): char
  {
    if 'A' <= c <= 'Z' then (c as int + 32) as char else c
  }

  /** `s.to_lowercase()`, folding each character on its own. */
  function ToLower(s: string): (r: string)
    ensures |r| == |s|
    ensures forall i :: 0 <= i < |s| ==> r[i] == LowerChar(s[i])
    ensures forall i :: 0 <= i < |r| ==> !('A' <= r[i] <= 'Z')
  {
    seq(|s|, i requires 0 <= i < |s| => LowerChar(s[i]))
  }

  /** A folded string holds no upper-case ASCII letter, and folding it again changes nothing. */
  lemma ToLowerIdempotent(s: string)
    ensures forall i :: 0 <= i < |s| ==> !('A' <= ToLower(s)[i] <= 'Z')
    ensures ToLower(ToLower(s)) == ToLower(s)
  {
  }

  /**
   * Folding keeps occurrences: a line that contains the query also contains it
   * after both are folded. This holds because `ToLower` maps each character
   * without looking at its neighbours.
   */
  lemma ContainsFolded(s: string, q: string)
    requires Contains(s, q)
    ensures Contains(ToLower(s), ToLower(q))
  {
    var i: nat :| i <= |s| - |q| && OccursAt(s, q, i);
    assert ToLower(s)[i..i + |q|] == ToLower(q) by {
      forall k | 0 <= k < |q| ensures ToLower(s)[i..i + |q|][k] == ToLower(q)[k] {
        assert s[i + k] == s[i..i + |q|][k];
      }
    }
    assert OccursAt(ToLower(s), ToLower(q), i);
  }
}
