# Instance summaries and the agent-runner page

This project models two pieces of SWE-agent in Dafny and proves properties of them.

**The investigation tool**, `sweagent/investigations/summarize_instance.py`:

- Given SWE-bench instance ids of the form `owner__repo-NNN`, it parses each id into a
  repository path and a pull-request number.
- It builds the pull request's GitHub link and the path of the summary file in the
  `investigation-data` folder beside the tool.
- It renders a Markdown summary from the artifacts the downloaders fetched.
- Its `main` loop writes the summaries one id at a time, in input order, printing a
  progress line before each. It stops at the first id that raises.

**The agent-runner page**, `app/src/pages/index.js`:

- It checks the form's four required fields in a fixed order.
- It posts the form and streams the decoded response into the output panel.
- It turns whatever is thrown into the one message shown in the error banner.

The project has four modules:

- `Wrappers`: `Option` and `Result`.
- `PyStrings`: the Python string built-ins the tool relies on: `strip`, `rsplit("-", 1)`,
  `replace`, `", ".join`, `int()` and `str()`. Each comes with lemmas about its behaviour.
- `SummarizeInstance`: the Python file. Its pure parts are functions. The folder of
  summary files is the class `InvestigationData`, whose `files` map its methods update.
- `IndexPage`: the JavaScript file. The component's state is the class `Home`. Its
  read loop is a `while` loop with invariants.

When a summary file is truncated: the tool opens the summary file for writing (line 63)
before it evaluates the f-string. The f-string calls `make_bug_href` and
`get_swe_bench_instance_markdown`. So a bad id or a failing bug-description lookup leaves
an **empty** file behind, which the model records as `StepOutcome.Truncated`. A downloader
that raises does so before the file is opened and leaves no file (`Untouched`).

Whitespace around the pull-request number: `int()` (line 41) skips less than `str.strip`
does. The separators U+001C-U+001F are whitespace to `strip` but make `int()` raise. The
model keeps the two apart (`IsSpace` for `strip`, `IntSpace` for `int()`).

## Model

| member | source | states |
|---|---|---|
| SummarizeInstance.PathJoin | sweagent/investigations/summarize_instance.py:22 | definition: POSIX `os.path.join` of two parts; an absolute second part replaces the first, and `/` is added only when the first part does not end in one |
| SummarizeInstance.DataFolder | sweagent/investigations/summarize_instance.py:20-26 | definition: the tool's directory joined with `investigation-data` |
| SummarizeInstance.DataPath | sweagent/investigations/summarize_instance.py:29-30 | definition: the data folder joined with `<id>.md` |
| SummarizeInstance.PathJoinEndsWith | sweagent/investigations/summarize_instance.py:20-22 | `os.path.join(a, b)` ends with `b`, and is `b` alone when `b` is absolute |
| SummarizeInstance.DataPathFileName | sweagent/investigations/summarize_instance.py:29-30 | the summary path ends with `<id>.md` whatever the folder |
| SummarizeInstance.DataPathInFolder | sweagent/investigations/summarize_instance.py:25-30 | for an id that is not absolute, the summary path is the data folder, `/`, the id and `.md` |
| SummarizeInstance.DataPathInjective | sweagent/investigations/summarize_instance.py:29-30 | two different non-absolute ids never share a summary path string |
| SummarizeInstance.DataPathAbsoluteId | sweagent/investigations/summarize_instance.py:29-30 | an id starting with `/` escapes the data folder: the path is the id plus `.md` |
| SummarizeInstance.Unescape | sweagent/investigations/summarize_instance.py:40 | definition: `replace("__", "/")`, scanning left to right without overlaps |
| SummarizeInstance.ParseInstanceId | sweagent/investigations/summarize_instance.py:38-42 | definition: cut at the last `-`, unescape the part before it, read the part after it with `int()`; no `-` is the IndexError case, a suffix `int()` rejects is the ValueError case |
| SummarizeInstance.ParseInstanceIdSpec | sweagent/investigations/summarize_instance.py:38-42 | parsing fails with the IndexError case exactly when the id has no `-`; a parsed number is never negative |
| SummarizeInstance.ParseAtLastHyphen | sweagent/investigations/summarize_instance.py:38-42 | the id is cut at its last `-` only: the prefix, hyphens included, is the unescaped repository path, and the suffix alone decides the number or the ValueError |
| SummarizeInstance.UnescapeExample | sweagent/investigations/summarize_instance.py:40 | `replace("__", "/")` scans left to right: `a___b` becomes `a/_b` |
| SummarizeInstance.UnescapeNoDoubleUnderscore | sweagent/investigations/summarize_instance.py:40 | after unescaping, no two underscores are adjacent |
| SummarizeInstance.UnescapeEscape | sweagent/investigations/summarize_instance.py:40 | escaping `/` as `__` and unescaping gives a repository path without `_` back |
| SummarizeInstance.ParseInstanceIdRoundTrip | sweagent/investigations/summarize_instance.py:38-42 | the id built from a repository path without `_` and a number parses back to both |
| SummarizeInstance.ParseOwnerRepo | sweagent/investigations/summarize_instance.py:38-42 | `owner__repo-N` parses to `("owner/repo", N)` |
| SummarizeInstance.ParseInstanceIdFileSeparator | sweagent/investigations/summarize_instance.py:38-42 | `a-\x1c5` is rejected with that suffix: `int()` does not skip U+001C |
| SummarizeInstance.MakeBugHref | sweagent/investigations/summarize_instance.py:45-47 | definition: the parse error, or `https://github.com/<repo path>/pull/<str(n)>` |
| SummarizeInstance.MakeBugHrefSpec | sweagent/investigations/summarize_instance.py:45-47 | the link raises exactly what parsing raises; otherwise it is `https://github.com/<repo path>/pull/` followed by `str(n)` of the parsed number, which is never negative |
| SummarizeInstance.BugHrefOwnerRepo | sweagent/investigations/summarize_instance.py:45-47 | the link of `owner__repo-N` is `https://github.com/owner/repo/pull/N` |
| SummarizeInstance.BugHrefDropsLeadingZeros | sweagent/investigations/summarize_instance.py:45-47 | the number goes through `int` and `str`, so a leading zero in the id does not change the link, which shows the number's decimal form |
| SummarizeInstance.BugHrefZeroPadded | sweagent/investigations/summarize_instance.py:45-47 | a zero in front of the digits of an id leaves its link as it was |
| SummarizeInstance.BugHrefOfDigits | sweagent/investigations/summarize_instance.py:45-47 | the link of `prefix-ds`, for a run of digits `ds`, shows the value of `ds` in decimal |
| SummarizeInstance.BugHrefSameNumber | sweagent/investigations/summarize_instance.py:45-47 | two suffixes that `int()` reads as the same number give the same link |
| SummarizeInstance.OctocatHref | sweagent/investigations/summarize_instance.py:45-47 | the link of `octocat__hello-world-42` is `https://github.com/octocat/hello-world/pull/42` |
| SummarizeInstance.MarkdownLink | sweagent/investigations/summarize_instance.py:68-75 | definition: `[name](target)` |
| SummarizeInstance.LinkList | sweagent/investigations/summarize_instance.py:70-75 | definition: `", ".join` of one `[name](relpath)` link per artifact, in the artifacts' order |
| SummarizeInstance.LinkListEmpty | sweagent/investigations/summarize_instance.py:70 | no artifacts render as the empty string |
| SummarizeInstance.LinkListAppend | sweagent/investigations/summarize_instance.py:70-75 | each further artifact adds `, ` and its link at the end, so the links keep the artifacts' order |
| SummarizeInstance.LinkListItemAt | sweagent/investigations/summarize_instance.py:70-75 | the link to the `i`-th artifact appears in the list at the position after the earlier links and one `, ` |
| SummarizeInstance.EvalFolderLine | sweagent/investigations/summarize_instance.py:74 | the placeholder appears exactly when the folder link is `None` or empty; otherwise the line starts with `[Evaluation Results Folder](` and the href follows it |
| SummarizeInstance.LinksSection | sweagent/investigations/summarize_instance.py:65-75 | definition: the title and the Links section of the f-string, in its order |
| SummarizeInstance.Template | sweagent/investigations/summarize_instance.py:64-81 | definition: the whole f-string before `.strip()`: a newline, the Links section, `## Bug Data`, the bug description and a blank line |
| SummarizeInstance.Render | sweagent/investigations/summarize_instance.py:64-81 | definition: the link is computed first, so a bad id fails first; then a missing bug description fails; otherwise the stripped template |
| SummarizeInstance.RenderFailsOnlyOn | sweagent/investigations/summarize_instance.py:64-81 | rendering succeeds exactly when the id parses and the bug description is found; a bad id is reported ahead of the description |
| SummarizeInstance.StripTemplate | sweagent/investigations/summarize_instance.py:64-81 | `.strip()` of the template removes only the leading newline and the whitespace after the bug description |
| SummarizeInstance.RenderedDocument | sweagent/investigations/summarize_instance.py:64-81 | the document is the title and Links section, then `## Bug Data`, then a blank line and the description without trailing whitespace, or nothing after the heading when the description is blank |
| SummarizeInstance.OctocatExample | sweagent/investigations/summarize_instance.py:54-81 | the complete document for `octocat__hello-world-42` with one artifact of each kind |
| SummarizeInstance.Outcome | sweagent/investigations/summarize_instance.py:54-83 | definition: a download that raised leaves the file untouched; otherwise the file was opened, and holds the rendered document or is left empty |
| SummarizeInstance.OutcomeKinds | sweagent/investigations/summarize_instance.py:54-83 | a summary is written exactly when the downloads succeed, the id parses and the description is found; the file is left alone only when a download raised |
| SummarizeInstance.SummarizeStep | sweagent/investigations/summarize_instance.py:54-83 | definition: the new folder after one call: the summary written, the file emptied, or nothing changed, and whether the call returned |
| SummarizeInstance.Batch | sweagent/investigations/summarize_instance.py:114-117 | definition: the loop of `main` as a fold over the ids, which stops at the first call that raises and records its 1-based position |
| SummarizeInstance.Writes | sweagent/investigations/summarize_instance.py:114-117 | definition: the summaries a run writes when every id succeeds; a later id overwrites an earlier one that shares its file |
| SummarizeInstance.BatchCompleted | sweagent/investigations/summarize_instance.py:114-117 | the loop runs to the end exactly when every id is written, and then the folder is the old files overridden by the new summaries |
| SummarizeInstance.BatchAborted | sweagent/investigations/summarize_instance.py:115-117 | an abort at id `k` is at the first failing id; the folder holds the summaries of ids 1..k-1, plus an empty file for id `k` if it was truncated |
| SummarizeInstance.AbortPersists | sweagent/investigations/summarize_instance.py:115-117 | once an id raises, the ids after it change nothing |
| SummarizeInstance.SummaryPathsMembers | sweagent/investigations/summarize_instance.py:115-117 | a path is among the summary paths of a batch exactly when it is the summary path of one of its ids |
| SummarizeInstance.WritesKeys | sweagent/investigations/summarize_instance.py:115-117 | a successful run writes one summary file per id and no other file |
| SummarizeInstance.WritesContents | sweagent/investigations/summarize_instance.py:115-117 | each id's file holds that id's document unless a later id shares the file |
| SummarizeInstance.NothingAfterAbort | sweagent/investigations/summarize_instance.py:115-117 | after an abort, an id past the failure whose file no earlier id shares and that did not exist has no summary |
| SummarizeInstance.BatchIdempotent | sweagent/investigations/summarize_instance.py:115-117 | running a successful batch again with the same outcomes leaves the folder as it is |
| SummarizeInstance.ProgressLine | sweagent/investigations/summarize_instance.py:116 | definition: `Summarizing i/n: id` |
| SummarizeInstance.ProgressLines | sweagent/investigations/summarize_instance.py:115-116 | one progress line per id |
| SummarizeInstance.InvestigationData.Summarize | sweagent/investigations/summarize_instance.py:54-83 | one call updates the folder as its outcome says: written, truncated to empty, or untouched; `ok` is false exactly when it raises |
| SummarizeInstance.InvestigationData.SummarizeAll | sweagent/investigations/summarize_instance.py:114-117 | the loop's final folder and stop position are those of `Batch`; the progress lines printed are the first lines of `ProgressLines`, one per id attempted |
| PyStrings.RStrip | sweagent/investigations/summarize_instance.py:81 | definition: `rstrip()`, dropping trailing `str.isspace` characters |
| PyStrings.LStrip | sweagent/investigations/summarize_instance.py:81 | definition: `lstrip()`, dropping leading `str.isspace` characters |
| PyStrings.Strip | sweagent/investigations/summarize_instance.py:81 | definition: `strip()`, that is `lstrip` after `rstrip` |
| PyStrings.RStripSpec | sweagent/investigations/summarize_instance.py:81 | `rstrip` gives a prefix that ends in a non-space and removes only whitespace |
| PyStrings.LStripSpec | sweagent/investigations/summarize_instance.py:81 | `lstrip` gives a suffix that starts with a non-space and removes only whitespace |
| PyStrings.RStripAppend | sweagent/investigations/summarize_instance.py:81 | right-stripping `a + b` strips into `a` only when `b` is all whitespace |
| PyStrings.RStripSpaceSuffix | sweagent/investigations/summarize_instance.py:81 | trailing whitespace makes no difference to `rstrip` |
| PyStrings.LastIndexOf | sweagent/investigations/summarize_instance.py:39 | definition: the position of the last occurrence of a character, or none |
| PyStrings.LastIndexOfSpec | sweagent/investigations/summarize_instance.py:39 | the search finds nothing exactly when the character is absent, and otherwise finds its last occurrence |
| PyStrings.RSplitOnce | sweagent/investigations/summarize_instance.py:39 | definition: `rsplit(sep, 1)`: the whole string when `sep` is absent, otherwise the parts before and after its last occurrence |
| PyStrings.RSplitOnceSpec | sweagent/investigations/summarize_instance.py:39 | `rsplit("-", 1)` gives two parts exactly when `-` occurs, and the second part holds no `-` |
| PyStrings.RSplitOnceJoin | sweagent/investigations/summarize_instance.py:39 | joining the parts with the separator gives back the id |
| PyStrings.Replace | sweagent/investigations/summarize_instance.py:40 | definition: `str.replace` scanning left to right; a match is replaced and scanning resumes after it |
| PyStrings.Join | sweagent/investigations/summarize_instance.py:70 | definition: `sep.join(xs)` |
| PyStrings.JoinConcat | sweagent/investigations/summarize_instance.py:70 | joining two non-empty lists gives the join of each with one separator between them |
| PyStrings.JoinPrefix | sweagent/investigations/summarize_instance.py:70 | joining the first `n` items gives a prefix of the whole join |
| PyStrings.JoinItemAt | sweagent/investigations/summarize_instance.py:70 | the `i`-th item appears in the join right after the earlier items and one separator |
| PyStrings.Decimal | sweagent/investigations/summarize_instance.py:47 | `str(n)` is a non-empty run of digits that starts with `0` only for zero |
| PyStrings.IntToStr | sweagent/investigations/summarize_instance.py:47 | definition: `str(i)`: a `-` for a negative number, then the decimal digits of its magnitude |
| PyStrings.IntStrip | sweagent/investigations/summarize_instance.py:41 | definition: the text `int()` reads: its argument without the surrounding `IntSpace` whitespace (ASCII `\t\n\v\f\r` and space, and non-ASCII `str.isspace` characters) |
| PyStrings.IntRStripSpec | sweagent/investigations/summarize_instance.py:41 | removing the trailing whitespace `int()` ignores keeps a prefix that is empty or ends in a character it does not ignore |
| PyStrings.IntLStripSpec | sweagent/investigations/summarize_instance.py:41 | removing the leading whitespace `int()` ignores keeps a suffix that is empty or starts with a character it does not ignore |
| PyStrings.ParseInt | sweagent/investigations/summarize_instance.py:41 | definition: `int(s)` in base 10: an optional sign, then digits with single `_` separators between them; anything else is the ValueError case |
| PyStrings.DigitsValue | sweagent/investigations/summarize_instance.py:41 | definition: the base-10 value of the digits, skipping `_` separators |
| PyStrings.DecimalValue | sweagent/investigations/summarize_instance.py:41-47 | reading back the digits `str(n)` writes gives `n` |
| PyStrings.ParseIntDigits | sweagent/investigations/summarize_instance.py:41 | `int()` of a run of digits, with or without a `-`, is its value |
| PyStrings.ParseIntOfIntToStr | sweagent/investigations/summarize_instance.py:41-47 | `int(str(i)) == i` for every integer |
| PyStrings.LeadingZeroIgnored | sweagent/investigations/summarize_instance.py:41 | `int("0" + ds) == int(ds)` for a run of digits |
| PyStrings.ParseIntNoMinus | sweagent/investigations/summarize_instance.py:39-41 | without a `-` in its text, `int()` only produces non-negative numbers |
| PyStrings.IntRejectsFileSeparator | sweagent/investigations/summarize_instance.py:41 | `strip` removes U+001C, yet `int("\x1c5")` raises |
| IndexPage.FirstMissing | app/src/pages/index.js:11-24 | definition: the message of the first field in the list that is absent or empty, or none |
| IndexPage.FirstMissingSpec | app/src/pages/index.js:11-24 | nothing is reported exactly when no field is missing; otherwise the message is that of a missing field with no missing field before it |
| IndexPage.ValidateFormData | app/src/pages/index.js:11-24 | definition: the four checks in source order, each failing with its own message when its field is absent or empty |
| IndexPage.ValidateFormDataTable | app/src/pages/index.js:11-24 | the four checks agree with the table of required fields in checking order |
| IndexPage.ValidateFormDataSpec | app/src/pages/index.js:11-24 | validation passes exactly when all four fields are present and non-empty; otherwise the message is the first missing field's, and it is never empty |
| IndexPage.OnlyConfigMissing | app/src/pages/index.js:21-23 | a form missing only the config choice is rejected with `Config is required` |
| IndexPage.DisplayedError | app/src/pages/index.js:84-90 | the banner shows a non-empty thrown string, or an object's non-empty message, and otherwise `An error occurred`; it is never empty |
| IndexPage.ValidationMessageShown | app/src/pages/index.js:78-87 | a validation failure is shown with its own message |
| IndexPage.RequestFails | app/src/pages/index.js:48-50 | a response that is not `ok` is rejected; when `ok` means a 2xx status, the `status >= 400` test adds nothing |
| IndexPage.TotalLength | app/src/pages/index.js:56-66 | definition: the sum of the chunk lengths, as `receivedLength` accumulates them |
| IndexPage.Flatten | app/src/pages/index.js:57-65 | definition: the body's bytes, the chunks concatenated in order |
| IndexPage.TotalLengthFlatten | app/src/pages/index.js:56-66 | the running `receivedLength` is the number of bytes in the body |
| IndexPage.DecodeAll | app/src/pages/index.js:68-70 | definition: each chunk decoded on its own, the texts appended in order |
| IndexPage.DecodeAllAppend | app/src/pages/index.js:68-70 | decoding two runs of chunks gives the two texts one after the other |
| IndexPage.DecodeAllWhole | app/src/pages/index.js:68-70 | when no character is split between chunks, decoding chunk by chunk gives the text of the whole body |
| IndexPage.Home.constructor | app/src/pages/index.js:35-36 | the banner and the output both start as `null` |
| IndexPage.Home.MakeRequest | app/src/pages/index.js:38-72 | a rejected fetch or a failing response throws and leaves the output alone; otherwise the chunks are the body, `receivedLength` is its byte count, and the output is the decoded chunks in order |
| IndexPage.Home.HandleSubmit | app/src/pages/index.js:74-92 | a validation failure shows its message and sends nothing; a failed request shows the displayed error; a successful one clears the banner and shows the decoded body; a banner that is set is never empty |

## Left out

- The artifact downloaders, `get_instance_eval_folder_href` and
  `get_swe_bench_instance_markdown` (summarize_instance.py:56-60, 79) call code outside this
  model. Their results are inputs, `Fetched`. A failing bug-description lookup is
  `bugMarkdown == None`.
- `os.path.abspath(__file__)` and `os.path.dirname` (line 21) depend on where the tool is
  installed. The tool's directory is the parameter `Host.scriptDir`.
- `os.path.relpath` (line 52) depends on the file system. It is the function parameter
  `Host.relPath`.
- `os.makedirs` (line 114) is file-system I/O and is not modelled.
- `InvestigationData.files` is keyed by path text. Two spellings of one file are distinct
  keys: `.` or `..` segments, a doubled `/`, symlinks, case variants on a case-insensitive
  file system. So for ids `x-1` and `./x-1` the model keeps two entries where the disk holds
  one file.
- The encoding, `f.write` failures and other I/O errors are not modelled.
- The `--open-repo` step and `run_in_shell` (lines 86-98, 119-123) start a shell script and
  are not modelled.
- Argument parsing (lines 102-112) is not modelled. Its `nargs="+"` guarantees at least one
  id; `InvestigationData.SummarizeAll` also accepts an empty list.
- The prints on lines 55 and 83 are left out. Only the progress line of line 116 is
  modelled.
- PyStrings.ParseInt: reads ASCII digits only. Python's `int()` also accepts other Unicode
  decimal digits. It also rejects strings longer than 4300 digits (`sys.int_max_str_digits`),
  which the model accepts.
- `reshapeFormDataFromEvent` (index.js:5-9) reads the browser's form. The form data is the
  input `FormData`, with string values only. File inputs are not modelled.
- `fetch`, `JSON.stringify` of the body and the request headers (index.js:40-46) are
  browser calls. The fetch result is the input `FetchResult`.
- Failures of `reader.read()` and a `null` response body are not modelled. The reader hands
  out the chunks of `Response.body`, in order.
- `TextDecoder` (index.js:69) is the function parameter `decode`.
  IndexPage.DecodeAllWhole: needs a decoder that never splits a character between chunks.
  With a real UTF-8 decoder, a split character gives replacement characters.
- IndexPage.DisplayedError: a thrown object's `message` is a string or absent. A truthy
  `message` that is not a string (a number, say) is not modelled.
- `console.error` (index.js:83) and `preventDefault` (index.js:76) have no effect on the
  modelled state.
- The rendered page (index.js:93 onwards) and React's state batching are not modelled.
  Each state update takes effect at once.
- Concurrent submissions are not modelled. Each `HandleSubmit` runs to completion.
