# Financial Document Analyzer — verified model of the analysis core

The service accepts an uploaded financial PDF and an optional query. It saves
the upload under a fresh working path and extracts the text of its pages. It
then answers with a fixed five-entry analysis: three entries depend on whether
"revenue", "profit" or "risk" appear anywhere in the lower-cased text, and two
are constant. Every successful analysis is stored as a row of the
`analysis_records` table, and `GET /history` lists those rows. A separate
document-reader tool cleans each page by collapsing runs of blank lines. Two
placeholder tools return fixed acknowledgements.

The model has four modules.

- `Text` (`text.dfy`) holds the string operations the code relies on:
  - ASCII `str.lower`;
  - substring search, with `Occurs` as the reference meaning and `Contains` as the executable scan;
  - `str.strip`;
  - `Joined`, the text built by `text += page + "\n"` over the pages.
- `Analysis` (`analysis.dfy`) holds `run_crew`: the loop that assembles the full text, the keyword findings, and the printed form `str(response)` that is stored as the record's result.
- `Tools` (`tools.dfy`) holds `FinancialDocumentTool._run`. This covers its `while "\n\n" in content` loop, proved against the reference function `Squeeze`, and the report it assembles. It also holds the two placeholder tools.
- `Intake` (`intake.dfy`) holds the request handler. The class `Service` owns three pieces of state:
  - the table, a sequence of records;
  - its next primary key;
  - the set of working files on disk.

  `Analyze` follows `analyze_financial_document` step by step: the `try` body is `Attempt`, and the `finally` block is `RemoveWorkingFile`. Each outside step can complete or raise, and `Environment` says which. The PDF loader's result is a `Result` holding the page texts or an error message.

Three details of the handler are easy to misread:

- When "profit" is absent, the finding is "Profit not clearly mentioned".
- The query is stored and echoed as sent. Only the copy handed to `run_crew` is stripped, and `run_crew` never reads it.
- An empty query is replaced by the default sentence. A query made only of whitespace is kept.

## Model

| member | source | states |
|---|---|---|
| Text.LowerChar | main.py:30-32 | folding one character leaves no upper-case letter; it changes exactly the letters A-Z, each by the fixed offset to its lower-case form |
| Text.Lower | main.py:30-32 | `text.lower()` keeps the length and folds every character in place |
| Text.LowerAppend | main.py:27-30 | folding a concatenation is concatenating the folded parts |
| Text.LowerIdempotent | main.py:30 | folding folded text changes nothing |
| Text.LowerNewlines | main.py:27-30 | folding neither creates nor removes a newline |
| Text.Contains | main.py:30-32 | the executable `needle in hay` scan is true exactly when some window of the text equals the needle |
| Text.OccursInTail | main.py:30-32 | when the needle is not a prefix, it occurs in the text exactly when it occurs in the text minus its first character |
| Text.OccursWithin | main.py:27 | an occurrence survives text added on either side |
| Text.StripStart | main.py:72 | `lstrip` returns a suffix; everything cut is whitespace, and the result does not start with whitespace |
| Text.StripEnd | main.py:72 | `rstrip` returns a prefix; everything cut is whitespace, and the result does not end with whitespace |
| Text.Strip | main.py:72 | `strip` never lengthens its input and leaves no whitespace at either end |
| Text.StripAt | main.py:72 | the stripped text is the window that starts where the leading whitespace ends, and everything outside it is whitespace |
| Text.StripWindow | main.py:72 | the stripped query is a window of the original, with only whitespace cut away on either side; it is empty exactly when the original is all whitespace |
| Text.StripIdempotent | main.py:72 | stripping twice is stripping once |
| Text.Joined | main.py:25-27 | the text built by `text += page + "\n"` over the pages; its properties are the lemmas below |
| Text.JoinedAppend | main.py:25-27 | joining two page lists one after the other is joining their concatenation |
| Text.JoinedLength | main.py:25-27 | the full text is as long as the pages plus one newline per page |
| Text.JoinedEndsInNewline | main.py:27 | with at least one page, the full text ends in a newline |
| Text.LowerJoined | main.py:25-30 | lower-casing the full text is joining the lower-cased pages |
| Text.WindowAvoidsNewline | main.py:27 | a window matching a needle without newlines lies entirely before or after any newline |
| Text.OccursInJoinedIfInPage | main.py:25-27 | a needle found in any page is found in the full text |
| Text.OccursInJoinedOnlyInPage | main.py:25-27 | a needle without newlines found in the full text lies inside a single page |
| Text.OccursInJoined | main.py:25-27 | a needle without newlines occurs in the full text if and only if it occurs in some page |
| Analysis.Finding | main.py:30-32 | one finding is the "found" text exactly when the keyword occurs, in any letter case, in the text; otherwise it is the "missing" text |
| Analysis.Derive | main.py:30-40 | every value comes from the fixed vocabulary. Revenue, profit and risk are each "found" if and only if "revenue", "profit" or "risk" occurs in the lower-cased text, as any substring (so "risky" counts) |
| Analysis.RunCrew | main.py:14-40 | the loop builds the in-order join of `page + "\n"`; the findings are those of that text and do not depend on the query |
| Analysis.FindingFromPages | main.py:25-32 | a keyword finding is "found" if and only if some page contains the keyword in any letter case |
| Analysis.ConstantFindings | main.py:37-39 | "Key Financial Ratios" and "Investment Considerations" are the same constants for every document |
| Analysis.Values | main.py:34-40 | the printed mapping always has exactly one value per key of the five keys |
| Analysis.VocabularyQuoteFree | main.py:30-39 | every vocabulary value that can be printed before the last one holds no quote character |
| Analysis.Render | main.py:78 | `str(response)`: the five pairs in key order, each `'key': 'value'`, separated by ", " and enclosed in braces; the result starts with `{` and ends with `}` |
| Analysis.ItemsInjective | main.py:78 | with the keys fixed, the printed pairs of a dict determine its values |
| Analysis.RenderInjective | main.py:78 | the stored `result` string determines the findings it was printed from |
| Analysis.StoredResultDeterminesFindings | main.py:72-78 | for any two documents, equal stored `result` strings mean equal findings |
| Tools.ReplaceAll | tools.py:33 | `replace` leaves text without the pattern unchanged; a shorter replacement never lengthens the text and strictly shortens it when the pattern occurs, which makes the loop terminate |
| Tools.Squeeze | tools.py:32-33 | the reference cleaning is never longer than its input and keeps its first character |
| Tools.DoubleNewlineOccurs | tools.py:32 | `"\n\n" in s` holds exactly when two newlines are adjacent |
| Tools.SqueezeIsKeepSingle | tools.py:32-33 | the cleaning equals the position-wise rule: a character is dropped exactly when it is a newline followed by another newline, so each maximal run of newlines becomes one newline |
| Tools.SqueezeNoDoubleNewline | tools.py:32-33 | cleaned text has no blank line |
| Tools.SqueezeFixed | tools.py:32 | text without a blank line is returned unchanged |
| Tools.SqueezeIdempotent | tools.py:32-33 | cleaning is idempotent |
| Tools.SqueezeKeepsText | tools.py:32-33 | cleaning keeps the sequence of non-newline characters |
| Tools.SqueezeKeepsLast | tools.py:32-35 | cleaning keeps the last character, so a page ending in a newline still does |
| Tools.ReplacePreservesSqueeze | tools.py:33 | one replace pass does not change the cleaned result: the invariant of the loop |
| Tools.CollapseBlankLines | tools.py:32-33 | the loop ends with the reference cleaning of the page, which holds no `"\n\n"` |
| Tools.SqueezeAll | tools.py:28-33 | one cleaned page per page; each has no blank line, keeps its page's non-newline text, and keeps every character except a newline that another newline follows |
| Tools.ReadFinancialDocument | tools.py:26-37 | the report is the in-order join of `collapse(page) + "\n"` |
| Tools.BlankLineAcrossPages | tools.py:35 | the single page "total\n" yields a report with a blank line: the cleaning holds per page only |
| Tools.ReportWithoutBlankLines | tools.py:26-37 | when no page is empty or starts or ends with a newline, the report has no blank line |
| Tools.InvestmentAnalysis | tools.py:45-48 | `InvestmentTool._run` returns the fixed acknowledgement |
| Tools.RiskAssessment | tools.py:56-57 | `RiskTool._run` returns the fixed acknowledgement |
| Tools.PlaceholderToolsIgnoreInput | tools.py:45-57 | both placeholder tools return their fixed text whatever the input |
| Intake.NormalizeQuery | main.py:51-69 | a missing or empty query becomes the default sentence; any other query is kept verbatim; the result is never empty |
| Intake.NormalizeIdempotent | main.py:68-69 | checking an already checked query changes nothing |
| Intake.WorkingPath | main.py:56 | the working path is the identifier between the fixed prefix and the `.pdf` suffix, so the identifier can be read back |
| Intake.WorkingPathInjective | main.py:55-56 | distinct request identifiers give distinct working paths |
| Intake.EntryOf | main.py:112-118 | a history entry has exactly the keys id, file_name, query, result and created_at, with the record's values |
| Intake.Outcome | main.py:58-94 | the reply: success exactly when every step from opening the file to closing the session completes; otherwise status 500 with the message of the first step that raised; the success body names the uploaded file |
| Intake.Service.constructor | database.py:12-22 | the service starts from the rows `create_all` leaves in the table, whose keys are 1, 2, ..., n, and from the working files on disk |
| Intake.Service.Analyze | main.py:48-103 | the request succeeds exactly when every step completes. The first step to raise gives status 500 with its message. Success returns status, query, findings and file name. Exactly one record is appended, holding the next key, the upload's name, the unstripped query and `str(findings)`, exactly when every step up to the commit completes, so a `db.close()` that raises after the commit gives 500 and keeps the record. Otherwise no record is appended. The working file is gone afterwards unless its removal failed, and no other path changes |
| Intake.Service.Attempt | main.py:58-94 | the `try` body: the reply is `Outcome`; the working file exists once it has been opened; the appended record is as for `Analyze` |
| Intake.Service.Process | main.py:67-94 | the `try` body after the upload is saved: the reply is `Outcome`, and the record is appended exactly when the load and the commit complete |
| Intake.Service.AnalyzePages | main.py:72 | the analysis receives the stripped query, and its findings are those of the pages whatever the query |
| Intake.Service.Commit | main.py:74-81 | `db.add` and `db.commit` append one record under the next key and keep the keys 1, 2, 3, ... |
| Intake.Service.RemoveWorkingFile | main.py:97-103 | the `finally` block removes the file if it exists, and a failed removal leaves it in place |
| Intake.Service.GetAnalysisHistory | main.py:105-120 | when reading the table completes, one entry per stored record, in table order, each with that record's five columns, entry i having id i + 1; when it raises, status 500 |

## Left out

- PDF parsing with `PyPDFLoader` is not modelled. The loader's output is an input: a sequence of page texts, or an error message for a loader that raises.
- The web search tool (`SerperDevTool`) is not modelled. It is an external network service.
- The agent configuration in agents.py is not modelled. It holds no behaviour of its own.
- The FastAPI plumbing is not modelled: routing, the health-check endpoint, the async upload read, the traceback print and the server start-up. A raised exception becomes an `HttpError(500, message)` reply.
- The SQLAlchemy engine and sessions are not modelled. The table is a sequence with a next-key counter. A session that stays open because the commit raised before `db.close()` is not captured.
- Intake.Service.constructor: requires the stored keys to be 1, 2, ..., n. The service never deletes rows, so this holds for every table it wrote. A table edited by other programs is not modelled.
- Intake.Service.GetAnalysisHistory: a failing read gives status 500 only. The body of FastAPI's generic error is not modelled.
- `uuid.uuid4()` is not modelled. It becomes the requirement that the request's working path is not already in use.
- `datetime.utcnow` is not modelled. It becomes an opaque timestamp carried by `Environment`.
- Text.Lower: folds only the ASCII letters A-Z. Python's Unicode case mapping is not modelled.
- Text.Strip: strips only ASCII whitespace. Python's Unicode whitespace is not modelled.
- Analysis.RenderInjective: the dict printing is Python's `repr` only for values without quotes, backslashes or unprintable characters. All values the service produces are of that kind.
- Tools.PlaceholderToolsIgnoreInput: `InvestmentTool._run` also computes a double-space replacement of its input and discards it. This has no effect on the result, so it is not modelled.
- Concurrent requests are not modelled. Each call runs alone against the service state.
