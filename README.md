# Build Baron ticket content, in Dafny

This project models how the Build Baron plugin of Evergreen turns a failed CI
task and a set of selected test ids into the fields of a Jira "Build Failure"
ticket (`tickets.go`). The model has five parts:

- the name normaliser `cleanTestName` (module `TestNames`);
- the history link `historyURL` and the failure-list filter inside `fileTicket` (module `FailureList`);
- the title rule `getSummary` (module `TicketSummary`);
- the Jira-markup description `getDescription` with its template (module `TicketDescription`);
- the request that `fileTicket` assembles, and the order of its outcomes (module `Tickets`).

The records it reads and builds (task, test result, `jiraTestFailure`) are in
module `Types`.

The pure parts are functions. `cleanTestName` is a function that recurses on a
path one character shorter. `historyURL` is a single concatenation.

The loops of the source are methods proved against functions:

- `FilterFailures` first fills a `map<string, bool>` of selected ids, then appends matching results.
  Its contract ties the result to `Failures`, which is built on the filter `Selected`.
- `GetSummary` collects the names in a loop and joins them.
- `GetDescription` appends the heading, one block per test and the footer to a growing buffer.
  Its contract ties the buffer to `Description`.

The template (tickets.go:21-31) only substitutes plain string fields, and
`text/template` does no escaping. So the rendered text is exactly
`Header(t) + Blocks(tests) + Footer(userId)`.

Two consequences of the code are stated as proved facts:

- The normaliser splits on the last `/` before it looks at `\`. So it is not idempotent on some paths that mix both delimiters: `"a/b\c"` gives `"b\c"`, and that gives `"c"` (`CleanTestNameMixedDelimiters`).
  Idempotence is proved only for paths with a single kind of delimiter (`CleanTestNameIdempotent`), which is what the code supports.
- The failure list follows the task's stored order, not the order of the selection. Selected ids that name no stored result are dropped without an error.

## Model

| member | source | states |
|---|---|---|
| `TestNames.LastIndexOf` | tickets.go:116 | the result is -1 exactly when the character is absent; otherwise it is a position holding the character with no later occurrence |
| `TestNames.CleanTestName` | tickets.go:115-131 | the name is never longer than the path and never contains `/`; if the path has no `/`, the name has no `\` either |
| `TestNames.CleanTestNameUnfold` | tickets.go:115-131 | each call either returns a suffix `path[k..]` of the path or, when the delimiter it found is the last character, recurses on the path without that character |
| `TestNames.CleanTestNameAfterLastSlash` | tickets.go:116-121 | when the text after a path's last `/` is not empty, the name is exactly that text, whatever comes before and whether or not the path holds `\` |
| `TestNames.CleanTestNameIsSlice` | tickets.go:116-130 | the name is a contiguous piece `path[i..j]` of the path |
| `TestNames.CleanTestNameOfPlainName` | tickets.go:130 | a path with neither delimiter is returned unchanged |
| `TestNames.CleanTestNameIsLastSegment` | tickets.go:115-131 | with one kind of delimiter, path == p + name + t where t is the run of trailing delimiters, p is empty or ends in a delimiter, and the name has no delimiter; the name is empty only for a path made of delimiters alone |
| `TestNames.CleanTestNameIdempotent` | tickets.go:116-128 | normalising twice equals normalising once when the path lacks `/` or lacks `\` |
| `TestNames.CleanTestNameMixedDelimiters` | tickets.go:116-122 | `"a/b\c"` normalises to `"b\c"`, which normalises to `"c"`: no unconditional idempotence |
| `TestNames.CleanTestNameExamples` | tickets.go:118-130 | `""` and `"/"` give `""`; `"a/b/c"` and `"a\b\c"` give `"c"`; `"a/b/"` and `"a\b\"` give `"b"` (trailing delimiters are stripped) |
| `FailureList.HistoryURL` | tickets.go:133-135 | the link is the task's history page `UIRoot + "/task_history/" + Project + "/" + DisplayName`, then `"#"`, the test name and `"=fail"`, with nothing escaped; its length is that of the page plus the name plus 6 |
| `FailureList.TestNameOfHistoryURL` | tickets.go:133-135 | the parser accepts `<page>#<name>=fail` links; whenever it reads a test name back, the link is exactly the history link of that name |
| `FailureList.HistoryURLRoundTrip` | tickets.go:133-135 | the test name is always recovered from its history link, so distinct names give distinct links |
| `FailureList.ToFailure` | tickets.go:74-78 | an entry's name is the normalised raw test file and has no `/`; its URL is the result's log URL; its history link is the link of that name |
| `FailureList.Selected` | tickets.go:72-73 | the kept results are never more than the stored results |
| `FailureList.FilterFailures` | tickets.go:66-80 | the list equals `Failures(t, ids)` for the set of selected ids, so duplicates and selection order do not matter; it is no longer than the stored results; no entry name contains `/` |
| `FailureList.SelectedIsSubsequence` | tickets.go:72-80 | the kept results are a subsequence of the stored results, in stored order |
| `FailureList.SelectedMembership` | tickets.go:72-73 | a result is kept if and only if it is stored and its raw test file is selected |
| `FailureList.SelectedAppend` | tickets.go:72-80 | filtering a concatenation is the concatenation of the filtered parts |
| `FailureList.SelectedDependsOnStoredFiles` | tickets.go:67-73 | two selections that agree on every stored test file keep the same results |
| `FailureList.SelectedIgnoresAbsentIds` | tickets.go:67-73 | adding ids that name no stored result changes nothing |
| `FailureList.SelectedAll` | tickets.go:72-80 | selecting every stored test file keeps every result, in order |
| `TicketSummary.Join` | tickets.go:151 | as `strings.Join`: no names give `""`, one name gives itself, and the joined text always starts with the first name |
| `TicketSummary.Summary` | tickets.go:138-152 | no failures give `taskName + " failure"`, more than four give `taskName + " failures"`, one gives exactly its name, and one to four give a title that starts with the first name |
| `TicketSummary.GetSummary` | tickets.go:138-152 | the title follows the three-way rule: `taskName + " failure"` for none, `taskName + " failures"` for more than four, the names joined by `", "` otherwise; one test gives exactly its name |
| `TicketSummary.SplitJoin` | tickets.go:151 | cutting the `", "`-joined list of comma-free names at each `", "` gives back the names |
| `TicketSummary.SummaryListsNames` | tickets.go:146-151 | for one to four failures with comma-free names, the title lists exactly their names in input order |
| `TicketSummary.SummaryExamples` | tickets.go:138-152 | task "T": no failures gives "T failure", five give "T failures", `[x, y]` gives "x, y", `[x]` gives "x" |
| `TicketDescription.Description` | tickets.go:21-31 | the rendered template starts with the heading linking the task and ends with the attribution to the user |
| `TicketDescription.GetDescription` | tickets.go:155-165 | the buffer holds `Header + Blocks + Footer` of the template, starting with the heading |
| `TicketDescription.ConcatMapAppend` | tickets.go:24-26 | rendering a concatenation of tests is the concatenation of the renderings |
| `TicketDescription.ConcatMapPosition` | tickets.go:24-26 | the text of the k-th element sits right after the texts of the earlier elements |
| `TicketDescription.DescriptionWithoutTests` | tickets.go:21-31 | with no tests the description is exactly the heading followed by the footer |
| `TicketDescription.BlockPosition` | tickets.go:21-31 | the k-th test's block appears right after the heading and the blocks of tests 0..k-1: one block per test, in input order |
| `Tickets.BuildRequest` | tickets.go:83-90 | project key "BF", issue type "Build Failure", failing tasks `[DisplayName]`, assignee and reporter both the user; title and description rendered from the same failure list, the description ending with the attribution |
| `Tickets.FileTicket` | tickets.go:51-112 | not logged in, then lookup error, then task not found are reported in that order, and no request is submitted on these paths; otherwise exactly one request, built from `Failures` of the selected ids, is submitted, and the creation result is reported |
| `Tickets.RequestDescribesFailures` | tickets.go:85-90 | the request's title and description come from the same failure list: each test's block is in the description, and for one to four comma-free names the title lists each name at its index |
| `Tickets.EndToEndExample` | tickets.go:66-85 | results "dir/foo.js" (u1) and "bar.js" (u2), both selected, give entries foo.js and bar.js in that order with links `…/task_history/P/T#foo.js=fail` and `…/task_history/P/T#bar.js=fail`, titled "foo.js, bar.js" |
| `Tickets.ExampleSelection` | tickets.go:72-80 | when both stored results are selected, the entries are theirs in stored order |
| `Tickets.ExampleEntries` | tickets.go:74-78 | the entries of the worked example, with names, log URLs and history links written out |
| `Tickets.ExampleSummary` | tickets.go:146-151 | two entries foo.js and bar.js give the title "foo.js, bar.js" |
| `Tickets.ExampleHistoryURLs` | tickets.go:133-135 | the history link of "foo.js" in project P, task T is `https://evergreen.mongodb.com/task_history/P/T#foo.js=fail` |
| `Tickets.ExampleNames` | tickets.go:115-131 | "dir/foo.js" normalises to "foo.js" and "bar.js" to itself |

## Left out

- HTTP plumbing in `fileTicket` (tickets.go:43-48, 53, 58, 62, 92-93, 108, 112) is not modelled. This covers JSON decoding of the body (its error is ignored in the source), `plugin.WriteJSON` and the HTTP status codes. The decoded task id and test ids are parameters of `FileTicket`. `Outcome` keeps the kind of failure and its raw detail, not the formatted message or the status.
- `plugin.GetUser`, `model.FindTask` and `thirdparty.NewJiraHandler(...).CreateTicket` are calls into code outside this model. They become parameters of `FileTicket`: an optional user id, a `Lookup` value, and a function from request to `CreateResult`. The Jira host and credentials are not modelled.
- Logging through `evergreen.Logger` (tickets.go:97, 107, 111) is a side effect only.
- The template engine and `template.Must` (tickets.go:33) are replaced by explicit concatenation. The render-error branch (tickets.go:162-163, and its bad-request reply at 91-95) cannot occur for plain string fields, so `GetDescription` returns a string and `Outcome` has no render-error case.
- The request map `map[string]interface{}` (tickets.go:83-90) is the fixed record `TicketRequest`. Nesting such as `{"key": "BF"}` is flattened to the string value. The field `FailingTasks` stands for the key `customfield_12950`.
- Go strings are byte strings and may hold bytes that are not valid UTF-8; here they are `seq<char>`. A byte offset and a character offset differ once a multi-byte character comes before a delimiter. But `/` and `\` are single ASCII bytes that never occur inside a multi-byte sequence, so the text after the last delimiter, and hence the display name, is the same either way.
