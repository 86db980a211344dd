/**
 * Rust's `str::lines`: the text is cut after every `'\n'`, the `'\n'` is
 * dropped, and a `'\r'` standing right before that `'\n'` is dropped too. A
 * final line ending does not start an empty last line, and empty text has no
 * lines at all.
 */
module LineSplit {

  /** The position of the first `'\n'` in `s`, or `|s|` when there is none. */
  function LineEnd(s: string): (i: nat)
    ensures i <= |s|
    ensures forall j :: 0 <= j < i ==> s[j] != '\n'
    ensures i < |s| ==> s[i] == '\n'
  {
    if s == [] || s[0] == '\n' then 0 else 1 + LineEnd(s[1..])
  }

  /** The first `'\n'` of `s` is the one at `i` when none comes before it. */
  lemma LineEndAt(s: string, i: nat)
    requires i < |s| && s[i] == '\n'
    requires forall j :: 0 <= j < i ==> s[j] != '\n'
    ensures LineEnd(s) == i
  {
  }

  predicate EndsWithCr(line: string)
  {
    |line| > 0 && line[|line| - 1] == '\r'
  }

  /** Drops one `'\r'` left in front of the `'\n'` that ended the line. */
  function StripCr(line: string): (r: string)
    ensures EndsWithCr(line) ==> r + "\r" == line
    ensures !EndsWithCr(line) ==> r == line
  {
    if EndsWithCr(line) then line[..|line| - 1] else line
  }

  /** `s.lines()`, collected. */
  function Lines(s: string): (ls: seq<string>)
    ensures ls == [] <==> s == []
    ensures forall k :: 0 <= k < |ls| ==> '\n' !in ls[k]
    decreases |s|
  {
    if s == [] then
      []
    else
      var i := LineEnd(s);
      if i == |s| then
        [s]
      else
        assert forall c :: c in s[..i] ==> c != '\n';
        [StripCr(s[..i])] + Lines(s[i + 1..])
  }

  /** One step of the split: the text up to the first `'\n'` is the first line, less a final `'\r'`. */
  lemma LinesCons(line: string, rest: string)
    requires '\n' !in line
    ensures Lines(line + "\n" + rest) == [StripCr(line)] + Lines(rest)
  {
    var s := line + "\n" + rest;
    forall j | 0 <= j < |line| ensures s[j] != '\n' {
      assert s[j] == line[j];
    }
    LineEndAt(s, |line|);
    assert s[..|line|] == line;
    assert s[|line| + 1..] == rest;
  }

  /** Text without any `'\n'` is one line, kept whole (a final `'\r'` included). */
  lemma LinesLast(line: string)
    requires line != [] && '\n' !in line
    ensures Lines(line) == [line]
  {
  }

  /** Each line followed by "\n": text with a line ending after every line. */
  function Terminated(ls: seq<string>): string
  {
    if ls == [] then "" else ls[0] + "\n" + Terminated(ls[1..])
  }

  /**
   * Splitting undoes terminating: lines without `'\n'` and without a final
   * `'\r'` come back unchanged, including empty ones, and no empty line is
   * added after the last line ending.
   */
  lemma {:induction false} LinesOfTerminated(ls: seq<string>)
    requires forall k :: 0 <= k < |ls| ==> '\n' !in ls[k] && !EndsWithCr(ls[k])
    ensures Lines(Terminated(ls)) == ls
  {
    if ls != [] {
      LinesCons(ls[0], Terminated(ls[1..]));
      LinesOfTerminated(ls[1..]);
    }
  }

  /** The lines separated by "\n", with no line ending after the last one. */
  function Joined(ls: seq<string>): string
  {
    if |ls| <= 1 then (if ls == [] then "" else ls[0]) else ls[0] + "\n" + Joined(ls[1..])
  }

  /** Joining one more line appends a line ending and that line. */
  lemma {:induction false} JoinedSnoc(ls: seq<string>, last: string)
    requires ls != []
    ensures Joined(ls + [last]) == Joined(ls) + "\n" + last
    decreases |ls|
  {
    if |ls| > 1 {
      JoinedSnoc(ls[1..], last);
      assert (ls + [last])[1..] == ls[1..] + [last];
    }
  }

  /**
   * Splitting undoes joining, when no line holds a `'\n'`, no line but the
   * last ends in `'\r'`, and the last line is not empty (an empty last line
   * would leave a final line ending, which starts no line).
   */
  lemma {:induction false} LinesOfJoined(ls: seq<string>)
    requires ls != [] && ls[|ls| - 1] != []
    requires forall k :: 0 <= k < |ls| ==> '\n' !in ls[k]
    requires forall k :: 0 <= k < |ls| - 1 ==> !EndsWithCr(ls[k])
    ensures Lines(Joined(ls)) == ls
  {
    if |ls| == 1 {
      LinesLast(ls[0]);
    } else {
      var tail := ls[1..];
      assert tail[|tail| - 1] == ls[|ls| - 1];
      assert forall k :: 0 <= k < |tail| ==> tail[k] == ls[k + 1];
      LinesOfJoined(tail);
      assert Joined(ls) == ls[0] + "\n" + Joined(tail);
      LinesCons(ls[0], Joined(tail));
      assert StripCr(ls[0]) == ls[0];
      assert ls == [ls[0]] + tail;
    }
  }

  /** A line ending that ends the text; `"\n"` alone is one only after a character other than `'\r'`. */
  predicate FinalEnding(s: string, e: string)
  {
    e == "\r\n" || (e == "\n" && !EndsWithCr(s))
  }

  /** The last line, with its line ending, is still one line. */
  lemma LastLineEnding(line: string, e: string)
    requires line != [] && '\n' !in line && FinalEnding(line, e)
    ensures Lines(line + e) == [line]
  {
    if e == "\n" {
      LinesCons(line, "");
      assert line + e == line + "\n" + "";
    } else {
      assert '\n' !in line + "\r";
      LinesCons(line + "\r", "");
      assert line + e == (line + "\r") + "\n" + "";
    }
  }

  /**
   * A final line ending, `"\n"` or `"\r\n"`, adds no line: text that does not
   * already end in `'\n'` has the same lines with it as without it. (A plain
   * `"\n"` after a `'\r'` would instead strip that `'\r'`.)
   */
  lemma {:induction false} FinalLineEnding(s: string, e: string)
    requires s != [] && s[|s| - 1] != '\n' && FinalEnding(s, e)
    ensures Lines(s + e) == Lines(s)
    decreases |s|
  {
    var i := LineEnd(s);
    if i == |s| {
      assert '\n' !in s;
      LinesLast(s);
      LastLineEnding(s, e);
    } else {
      var line, rest := s[..i], s[i + 1..];
      assert s == line + "\n" + rest && s + e == line + "\n" + (rest + e) && '\n' !in line by {
        assert s == s[..i] + [s[i]] + s[i + 1..];
      }
      assert FinalEnding(rest, e) && rest != [] && rest[|rest| - 1] != '\n' by {
        assert rest[|rest| - 1] == s[|s| - 1];
      }
      FinalLineEnding(rest, e);
      LinesCons(line, rest);
      LinesCons(line, rest + e);
    }
  }
}
