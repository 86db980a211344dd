# minigrep, modelled in Dafny

minigrep is a small command-line line filter. It takes a query and a file
path, reads the file, and prints every line that contains the query. Matching
ignores letter case when the environment variable `IGNORE_CASE` is exactly
`"1"`. This project models the library half of the program
(`minigrep/src/lib.rs`): the configuration builder `Config::build`, the two
searches `search` and `search_case_insensitive`, and the choice between them
that `run` makes. It then proves what the searches return.

Files and modules:

- `wrappers.dfy` (`Wrappers`): `Option` and `Result`.
- `text.dfy` (`Text`): `str::contains` as a substring test (`Contains`,
  `OccursAt`), and `str::to_lowercase` as a per-character fold (`ToLower`).
- `lines.dfy` (`LineSplit`): `str::lines`. The text is cut after every
  `'\n'`. The `'\n'` is dropped, and so is a `'\r'` right before it. A final
  line ending starts no empty line, and empty text has no lines.
- `filtering.dfy` (`Filtering`): `filter(..).collect()` over a sequence.
  Its result is characterised exactly as the elements at the accepted
  positions, in ascending order (`KeptPositions`, `Select`). It is also a
  subsequence of the input (`IsSubsequence`).
- `minigrep.dfy` (`MiniGrep`): `Config`, `Build`, `Search`,
  `SearchCaseInsensitive`, the dispatch `Results`, and the properties of the
  searches.
- `minigrep_tests.dfy` (`MiniGrepTests`): the three unit tests of `lib.rs`,
  proved as lemmas about the test texts written as string literals. The
  proofs first show that each literal is its lines joined by `"\n"`
  (`Joined`), with no line ending after the last line.

`Config::build` advances an argument iterator with successive `next()`
calls. It is modelled as a method that walks a cursor over the argument
sequence. The value of `IGNORE_CASE` is a parameter of type `Option<string>`.
`None` stands for "unset", and also for a value that is not valid Unicode,
since `env::var` reports both as errors and `map_or` turns both into `false`.

The model follows the code where the two differ:

- The configuration errors are the two message strings the code returns
  (`"get query string error"`, `"get file path error"`), not structured error
  kinds.
- Lines are split by `str::lines`, so a `"\r\n"` ending counts as one line
  ending. A `'\r'` is removed only when a `'\n'` follows it. A bare `'\r'`
  at the very end of the text stays part of the last line, as in the current
  Rust standard library.

## Model

| member | source | states |
|---|---|---|
| `MiniGrep.Build` | minigrep/src/lib.rs:10-28 | Fewer than two arguments fail with "get query string error". Exactly two fail with "get file path error". Otherwise the query is `args[1]` and the file path is `args[2]`, and later arguments are ignored. On success, case is ignored if and only if the variable's value is exactly `"1"`. |
| `MiniGrep.Search` | minigrep/src/lib.rs:47-52 | Every returned line is a line of the contents and contains the query. |
| `MiniGrep.SearchCaseInsensitive` | minigrep/src/lib.rs:54-59 | Every returned line is a line of the contents whose folded form contains the folded query. |
| `MiniGrep.Results` | minigrep/src/lib.rs:34-38 | The lines `run` prints are the lines of the contents at exactly the positions that the chosen test accepts, in file order. The test is the folded one (`FoldedMatch`) when the configuration's flag is set, and the exact one (`ExactMatch`) otherwise. |
| `MiniGrep.ResultsMembership` | minigrep/src/lib.rs:34-38 | A string is printed by `run` if and only if it is a line of the contents that contains the query. When the flag is set, both are folded first. |
| `MiniGrep.ExactMatch` | minigrep/src/lib.rs:50 | Defines the test `search` applies to each line: `line.contains(query)`. The query passes it, and no line shorter than the query does. |
| `MiniGrep.FoldedMatch` | minigrep/src/lib.rs:57 | Defines the test `search_case_insensitive` applies: the folded line contains the folded query. It passes every line the exact test passes, and every line that equals the query up to letter case. No line shorter than the query passes. |
| `MiniGrep.SearchSelectsMatchingLines` | minigrep/src/lib.rs:47-52 | `search` returns the lines at exactly the positions whose line contains the query, in ascending position order. It never reorders, and it never drops a repeated line. |
| `MiniGrep.SearchCaseInsensitiveSelectsMatchingLines` | minigrep/src/lib.rs:54-59 | The same for `search_case_insensitive`, with the folded comparison. |
| `MiniGrep.SearchMembership` | minigrep/src/lib.rs:48-51 | A string is in `search`'s result if and only if it is a line of the contents that contains the query. |
| `MiniGrep.SearchCaseInsensitiveMembership` | minigrep/src/lib.rs:55-57 | A string is in `search_case_insensitive`'s result if and only if it is a line whose folded form contains the folded query. |
| `MiniGrep.SearchesAreSubsequences` | minigrep/src/lib.rs:47-58 | Both results are subsequences of the contents' lines. |
| `MiniGrep.EmptyQueryReturnsEveryLine` | minigrep/src/lib.rs:49-50 | With the empty query, both searches return every line. |
| `MiniGrep.EmptyContentsReturnsNothing` | minigrep/src/lib.rs:49 | With empty contents, both searches return nothing. |
| `MiniGrep.CaseInsensitiveIncludesCaseSensitive` | minigrep/src/lib.rs:47-58 | `search`'s result is a subsequence of `search_case_insensitive`'s, so the case-insensitive search returns at least as many lines. |
| `MiniGrep.CaseInsensitiveIgnoresQueryCase` | minigrep/src/lib.rs:57 | Queries with the same folded form give the same case-insensitive result. |
| `LineSplit.LineEnd` | minigrep/src/lib.rs:49 | The first `'\n'` of the text, or its length when there is none. |
| `LineSplit.Lines` | minigrep/src/lib.rs:49 | No line holds a `'\n'`. The text has no lines if and only if it is empty. |
| `LineSplit.LinesCons` | minigrep/src/lib.rs:49 | The text before the first `'\n'` is the first line, minus a final `'\r'`. The rest is split the same way. |
| `LineSplit.LinesLast` | minigrep/src/lib.rs:49 | Non-empty text without `'\n'` is one line, a final `'\r'` included. |
| `LineSplit.LinesOfTerminated` | minigrep/src/lib.rs:49 | Splitting undoes writing each line followed by `"\n"`. |
| `LineSplit.LinesOfJoined` | minigrep/src/lib.rs:49 | Splitting undoes joining lines with `"\n"` when the last line is not empty. |
| `LineSplit.FinalLineEnding` | minigrep/src/lib.rs:49 | A final `"\r\n"`, or a final `"\n"` not preceded by `'\r'`, adds no line. |
| `Text.Contains` | minigrep/src/lib.rs:50 | Defines `contains` as some start position where the whole pattern occurs. Trying only the start positions that leave room for the pattern loses no occurrence. A pattern longer than the text is never contained. |
| `Text.ContainsEmpty` | minigrep/src/lib.rs:50 | Every line contains the empty query. |
| `Text.MissingCharNotContained` | minigrep/src/lib.rs:50 | A line that lacks a character of the query does not contain the query. |
| `Text.ToLower` | minigrep/src/lib.rs:57 | Folding keeps the length, folds each character on its own, and leaves no upper-case ASCII letter. |
| `Text.ToLowerIdempotent` | minigrep/src/lib.rs:57 | A folded string has no upper-case letter, and folding it again changes nothing. |
| `Text.ContainsFolded` | minigrep/src/lib.rs:57 | If a line contains the query, the folded line contains the folded query. |
| `Filtering.Filter` | minigrep/src/lib.rs:50-51 | The result is no longer than the input. Every element of it comes from the input and is accepted. |
| `Filtering.KeptPositions` | minigrep/src/lib.rs:50-51 | The positions are ascending and in range. A position is listed if and only if its element is accepted. |
| `Filtering.FilterSelectsKeptPositions` | minigrep/src/lib.rs:48-51 | `filter` then `collect` returns the input's elements at exactly the accepted positions, in order. |
| `Filtering.FilterMembership` | minigrep/src/lib.rs:50-51 | An element is in the result if and only if it is in the input and accepted. |
| `Filtering.FilterIsSubsequence` | minigrep/src/lib.rs:50-51 | The result is a subsequence of the input. |
| `Filtering.FilterAll` | minigrep/src/lib.rs:50-51 | A filter that accepts every element returns the input unchanged. |
| `Filtering.FilterWeaker` | minigrep/src/lib.rs:50-57 | Whatever a stricter filter keeps, a more permissive one keeps too, in the same order. |
| `MiniGrepTests.OneResult` | minigrep/src/lib.rs:66-74 | `search("duct", "Rust:\nsafe, fast, productive.\nPick three.")` returns `["safe, fast, productive."]`. |
| `MiniGrepTests.CaseSensitive` | minigrep/src/lib.rs:76-86 | `search("duct", "Rust:\nsafe, fast, productive.\nPick three.\nDuct tape.")` returns only `["safe, fast, productive."]`. |
| `MiniGrepTests.CaseInsensitive` | minigrep/src/lib.rs:88-101 | `search_case_insensitive("rUsT", "Rust:\nsafe, fast, productive.\nPick three.\nTrust me.")` returns `["Rust:", "Trust me."]`. |
| `MiniGrepTests.LineEndings` | minigrep/src/lib.rs:49 | `"a\r\n\nb\n"` splits into `["a", "", "b"]`, and `"a\r"` is the one line `"a\r"`. |

## Left out

- `run` (minigrep/src/lib.rs:31-45): reading the file (`fs::read_to_string`), boxing and propagating its error, and printing each result line are I/O. Only its choice between the two searches is modelled, as `Results`.
- `minigrep/src/main.rs` (reading `env::args()`, printing errors to standard error, `process::exit(1)`) is process plumbing. It is not part of this model.
- The lookup `env::var("IGNORE_CASE")` is not modelled. Its outcome is the `ignoreCaseVar` parameter of `Build`.
- Text.ToLower: folds only the ASCII letters `A`–`Z`. Rust's `to_lowercase` applies full Unicode lower-casing. `ContainsFolded`, `FoldedMatch`'s first property and `CaseInsensitiveIncludesCaseSensitive` need a fold that maps each character without looking at its neighbours. A fold that changes lengths but ignores context (`'İ'` to `"i̇"`) would keep them. Rust's fold is not context-free: a capital sigma at the end of a word becomes the final form `'ς'`, while a lone `"Σ"` becomes `"σ"`. So in Rust `search("Σ", "ΑΣ")` returns `["ΑΣ"]`, but `search_case_insensitive("Σ", "ΑΣ")` returns nothing. These three properties are proved for the ASCII fold only.
- The search results borrow slices of the contents in Rust. Here they are string values, and their positions among the lines are given by `KeptPositions` instead.
- Rust's `contains` accepts other pattern kinds (characters, closures). Only the string-pattern form that `search` uses is modelled.
- That a search gives the same output when called twice on the same input needs no lemma: Dafny functions are deterministic.
