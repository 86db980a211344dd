/**
 * The library half of minigrep: the configuration builder, the two line
 * searches, and the choice between them that `run` makes.
 */
module MiniGrep {
  import opened Wrappers
  import opened Text
  import opened LineSplit
  import opened Filtering

  /** What one invocation searches for, where, and how. */
  datatype Config = Config(query: string, filePath: string, ignoreCase: bool)

  const QueryError: string := "get query string error"
  const FilePathError: string := "get file path error"

  /**
   * `Config::build`: walks the arguments as an iterator does, discarding the
   * program name, then taking the query, then the file path; any further
   * arguments are never looked at. `ignoreCaseVar` is the value of the
   * `IGNORE_CASE` environment variable (`None` when it is unset or not valid
   * Unicode); case is ignored only when it is exactly `"1"`.
   */
  method Build(args: seq<string>, ignoreCaseVar: Option<string>) returns (r: Result<Config, string>)
    ensures |args| < 2 ==> r == Failure(QueryError)
    ensures |args| == 2 ==> r == Failure(FilePathError)
    ensures |args| >= 3 ==> r.Success? && r.value.query == args[1] && r.value.filePath == args[2]
    ensures r.Success? ==> (r.value.ignoreCase <==> ignoreCaseVar == Some("1"))
  {
    var next := 0;
    // the program name
    if next < |args| {
      next := next + 1;
    }
    if next == |args| {
      return Failure(QueryError);
    }
    var query := args[next];
    next := next + 1;
    if next == |args| {
      return Failure(FilePathError);
    }
    var filePath := args[next];
    var ignoreCase := match ignoreCaseVar
      case Some(v) => v == "1"
      case None => false;
    return Success(Config(query, filePath, ignoreCase));
  }

  /**
   * The case-sensitive test: the line contains the query literally. The
   * query itself passes it, and no line shorter than the query does.
   */
  function ExactMatch(query: string): (m: string -> bool)
    ensures m(query)
    ensures forall line :: m(line) ==> |query| <= |line|
  {
    assert OccursAt(query, query, 0);
    line => Contains(line, query)
  }

  /**
   * The case-insensitive test: the folded line contains the folded query.
   * It passes every line the case-sensitive test passes, and every line that
   * differs from the query only in letter case; as folding keeps lengths, it
   * passes no line shorter than the query.
   */
  function FoldedMatch(query: string): (m: string -> bool)
    ensures forall line :: ExactMatch(query)(line) ==> m(line)
    ensures forall line :: ToLower(line) == ToLower(query) ==> m(line)
    ensures forall line :: m(line) ==> |query| <= |line|
  {
    ExactImpliesFolded(query);
    assert OccursAt(ToLower(query), ToLower(query), 0);
    line => Contains(ToLower(line), ToLower(query))
  }

  /** Folding keeps every occurrence of the query, in any line. */
  lemma ExactImpliesFolded(query: string)
    ensures forall line :: Contains(line, query) ==> Contains(ToLower(line), ToLower(query))
  {
    forall line | Contains(line, query) ensures Contains(ToLower(line), ToLower(query)) {
      ContainsFolded(line, query);
    }
  }

  /** `search`: the lines of `contents` that contain `query`, in file order. */
  function Search(query: string, contents: string): (r: seq<string>)
    ensures forall k :: 0 <= k < |r| ==> r[k] in Lines(contents) && Contains(r[k], query)
  {
    Filter(ExactMatch(query), Lines(contents))
  }

  /** `search_case_insensitive`: the lines that contain `query` once both are folded to lower case. */
  function SearchCaseInsensitive(query: string, contents: string): (r: seq<string>)
    ensures forall k :: 0 <= k < |r| ==> r[k] in Lines(contents) && Contains(ToLower(r[k]), ToLower(query))
  {
    Filter(FoldedMatch(query), Lines(contents))
  }

  /** The line test `run` applies: the folded one when the flag is set, the exact one otherwise. */
  function Matcher(config: Config): string -> bool
  {
    if config.ignoreCase then FoldedMatch(config.query) else ExactMatch(config.query)
  }

  /**
   * The lines `run` prints: the lines of the contents at exactly the
   * positions that the test chosen by the configuration's flag accepts, in
   * file order.
   */
  function Results(config: Config, contents: string): (r: seq<string>)
    ensures r == Select(Lines(contents), KeptPositions(Matcher(config), Lines(contents)))
  {
    FilterSelectsKeptPositions(Matcher(config), Lines(contents));
    if config.ignoreCase then SearchCaseInsensitive(config.query, contents)
    else Search(config.query, contents)
  }

  /**
   * A line is printed by `run` if and only if it is a line of the contents
   * that matches: after folding when the flag is set, literally otherwise.
   */
  lemma ResultsMembership(config: Config, contents: string, line: string)
    ensures line in Results(config, contents)
            <==> line in Lines(contents)
                 && (if config.ignoreCase then Contains(ToLower(line), ToLower(config.query))
                     else Contains(line, config.query))
  {
    FilterMembership(Matcher(config), Lines(contents), line);
  }

  /**
   * `search` returns exactly the lines containing the query: the lines at
   * the matching positions, every one of them, in ascending position order.
   * Nothing is reordered and a repeated line is returned once per occurrence.
   */
  lemma SearchSelectsMatchingLines(query: string, contents: string)
    ensures var lines := Lines(contents);
            var ps := KeptPositions(ExactMatch(query), lines);
            && Search(query, contents) == Select(lines, ps)
            && Ascending(ps)
            && forall i :: 0 <= i < |lines| ==> (i in ps <==> Contains(lines[i], query))
  {
    FilterSelectsKeptPositions(ExactMatch(query), Lines(contents));
  }

  /** The same for `search_case_insensitive`, with the folded comparison. */
  lemma SearchCaseInsensitiveSelectsMatchingLines(query: string, contents: string)
    ensures var lines := Lines(contents);
            var ps := KeptPositions(FoldedMatch(query), lines);
            && SearchCaseInsensitive(query, contents) == Select(lines, ps)
            && Ascending(ps)
            && forall i :: 0 <= i < |lines| ==> (i in ps <==> Contains(ToLower(lines[i]), ToLower(query)))
  {
    FilterSelectsKeptPositions(FoldedMatch(query), Lines(contents));
  }

  /** A line is returned by `search` if and only if it is a line of the contents that contains the query. */
  lemma SearchMembership(query: string, contents: string, line: string)
    ensures line in Search(query, contents) <==> line in Lines(contents) && Contains(line, query)
  {
    FilterMembership(ExactMatch(query), Lines(contents), line);
  }

  /** A line is returned by `search_case_insensitive` if and only if it is a line that matches once folded. */
  lemma SearchCaseInsensitiveMembership(query: string, contents: string, line: string)
    ensures line in SearchCaseInsensitive(query, contents)
            <==> line in Lines(contents) && Contains(ToLower(line), ToLower(query))
  {
    FoldedFilterMembership(query, Lines(contents), line);
  }

  /** Membership in a folded filter, for any list of lines. */
  lemma FoldedFilterMembership(query: string, lines: seq<string>, line: string)
    ensures line in Filter(FoldedMatch(query), lines) <==> line in lines && Contains(ToLower(line), ToLower(query))
  {
    FilterMembership(FoldedMatch(query), lines, line);
  }

  /** Both searches return a subsequence of the lines: order is kept. */
  lemma SearchesAreSubsequences(query: string, contents: string)
    ensures IsSubsequence(Search(query, contents), Lines(contents))
    ensures IsSubsequence(SearchCaseInsensitive(query, contents), Lines(contents))
  {
    FilterIsSubsequence(ExactMatch(query), Lines(contents));
    FilterIsSubsequence(FoldedMatch(query), Lines(contents));
  }

  /** The empty query is contained in every line, so both searches return all of them. */
  lemma EmptyQueryReturnsEveryLine(contents: string)
    ensures Search("", contents) == Lines(contents)
    ensures SearchCaseInsensitive("", contents) == Lines(contents)
  {
    var lines := Lines(contents);
    forall k | 0 <= k < |lines| ensures ExactMatch("")(lines[k]) && FoldedMatch("")(lines[k]) {
      ContainsEmpty(lines[k]);
      ContainsEmpty(ToLower(lines[k]));
    }
    FilterAll(ExactMatch(""), lines);
    FilterAll(FoldedMatch(""), lines);
  }

  /** Empty contents has no lines, so both searches return nothing. */
  lemma EmptyContentsReturnsNothing(query: string)
    ensures Search(query, "") == []
    ensures SearchCaseInsensitive(query, "") == []
  {
  }

  /**
   * `search_case_insensitive` returns every line `search` returns, in the
   * same order, and so at least as many. This rests on the folding mapping
   * each character without looking at its neighbours, as `ToLower` does.
   */
  lemma CaseInsensitiveIncludesCaseSensitive(query: string, contents: string)
    ensures IsSubsequence(Search(query, contents), SearchCaseInsensitive(query, contents))
    ensures |Search(query, contents)| <= |SearchCaseInsensitive(query, contents)|
  {
    FilterWeaker(ExactMatch(query), FoldedMatch(query), Lines(contents));
    SubsequenceLength(Search(query, contents), SearchCaseInsensitive(query, contents));
  }

  /** Only the folded query matters: queries that differ only in letter case find the same lines. */
  lemma CaseInsensitiveIgnoresQueryCase(query1: string, query2: string, contents: string)
    requires ToLower(query1) == ToLower(query2)
    ensures SearchCaseInsensitive(query1, contents) == SearchCaseInsensitive(query2, contents)
  {
    FilterCongruent(FoldedMatch(query1), FoldedMatch(query2), Lines(contents));
  }
}
