# CompanyInsight Pro, modelled in Dafny

CompanyInsight Pro is a Streamlit app. It takes company names, either one typed name or a column of an uploaded workbook. For each name it asks a hosted generative model for a summary, cleans up the returned text and exports the (name, summary) pairs as a spreadsheet. This project models the sequential logic of `app.py` and proves properties of it:

- **`to_markdown`** (module `Normalizer`, `normalizer.dfy`). It runs `textwrap.dedent`, then replaces every bullet `•`, `*` and `-` with one space.
  - The dedent step works on the lines of the text, split at `'\n'`. Lines that hold only spaces and tabs become empty. The margin is then removed from every other line. The margin is the longest common prefix of the indents (leading spaces and tabs) of the non-blank lines.
  - The three replacements are three passes of a one-character `str.replace`, in the source's order.
- **The remote model** (module `Service`, `service.dfy`). It is a class `GenerativeModel` with two parts:
  - an oracle `respond(n, prompt)`, which gives the reply to the n-th call, either text or a failure;
  - a log `prompts` of every prompt the model has received.
  - The prompt template embeds the company name between two fixed passages.
- **The submit handler** (module `App`, `app.dfy`). `SelectBranch` is the three-way decision. `SummarizeBatch` is the loop over the column: it appends to two growing lists and stops at the first failure. `Run` is the script from the submit button to the export. The export builds a two-column table from `zip(company_name, summary_company)`.
  - `SummarizeBatch` is proved against `BatchSpec`, a reference definition built on the recursive `Accumulate`. Lemmas about `Accumulate` state what the source promises: all items kept when all calls succeed, and truncation at the first failure. `BatchSpec` defines the empty column as the division-by-zero error with no call, and `BatchSpecOutcome` states it.

`wrappers.dfy` holds the `Option` type.

Behaviours of the code that the model keeps:

- With a file uploaded AND a non-empty typed name, the code takes the single-name path (app.py:138).
- The single-name path has no `try`/`except` (app.py:138-151). A failed call there is an uncaught exception: the script stops and the export at app.py:155-156 does not run. The model returns `Crashed`.
- When the button is not pressed, the script still reaches app.py:155-156 with empty lists, so an empty table is exported.
- With an empty column, `1.0 / len(companies)` (app.py:119) raises `ZeroDivisionError("float division by zero")` before any call. The `except` at app.py:135 catches it, its message is shown, and an empty table is exported.

## Model

| member | source | states |
|---|---|---|
| `Normalizer.Split` | app.py:31 | every text has at least one line (the lines `dedent` sees) |
| `Normalizer.SplitNoNewline` | app.py:31 | no line produced by the split holds a newline |
| `Normalizer.JoinSplit` | app.py:31 | joining the lines with `'\n'` gives back the original text |
| `Normalizer.SplitJoin` | app.py:31 | splitting joined newline-free lines gives back those lines |
| `Normalizer.IsBlankAt` | app.py:31 | a line is blank exactly when every character is a space or a tab |
| `Normalizer.IndentFacts` | app.py:31 | the indent is a prefix of the line, made of spaces and tabs, and the next character (if any) is neither |
| `Normalizer.IndentGreatest` | app.py:31 | every whitespace prefix of a line is a prefix of its indent |
| `Normalizer.CommonPrefixFacts` | app.py:31 | the common prefix is a prefix of both strings, and the strings differ (or one ends) right after it |
| `Normalizer.CommonPrefixGreatest` | app.py:31 | a string is a prefix of both arguments exactly when it is a prefix of their common prefix |
| `Normalizer.CommonIndentCons` | app.py:31 | a common indent of a list of lines is a common indent of its first line and of the rest |
| `Normalizer.MarginSpec` | app.py:31 | the margin is absent exactly when all lines are blank; otherwise p is a common indent of the non-blank lines iff p is a prefix of the margin |
| `Normalizer.MarginTextFacts` | app.py:31 | the margin is only spaces and tabs, and it is a common indent of the non-blank lines |
| `Normalizer.DedentAllAt` | app.py:31 | dedenting keeps the number of lines and treats each line on its own |
| `Normalizer.DedentLineSplits` | app.py:31 | a non-blank line is the margin followed by its dedented form, which adds no newline |
| `Normalizer.DedentLinesSpec` | app.py:31 | blank lines become empty, and every other line loses exactly the margin |
| `Normalizer.DedentSpec` | app.py:31 | `dedent` keeps the line count and empties blank lines; every other line is the margin plus its result line; the margin is the greatest common whitespace indent |
| `Normalizer.DedentLeavesNoCommonIndent` | app.py:31 | after `dedent`, for each space or tab some non-blank line does not start with it |
| `Normalizer.ReplaceAt` | app.py:34-36 | a one-character replace keeps the length and changes exactly the occurrences of the pattern |
| `Normalizer.StripMarkersAt` | app.py:34-36 | the three replacements keep the length; each `•`, `*`, `-` becomes one space; every other character stays in place |
| `Normalizer.StripMarkersNoMarkers` | app.py:34-36 | no `•`, `*` or `-` remains after the replacements |
| `Normalizer.StripMarkersFixed` | app.py:34-36 | the replacements leave a text unchanged exactly when it holds no marker |
| `Normalizer.StripMarkersIdempotent` | app.py:34-36 | applying the replacements to their own output changes nothing |
| `Normalizer.ToMarkdownSpec` | app.py:29-38 | `to_markdown` is the dedented text with each marker replaced by a space, and its output holds no marker |
| `Normalizer.Dedent` | app.py:31 | `textwrap.dedent`; specified by `DedentSpec` and `DedentLeavesNoCommonIndent` |
| `Normalizer.Replace` | app.py:34-36 | one-character `str.replace`; specified by `ReplaceAt` |
| `Normalizer.StripMarkers` | app.py:34-36 | the three chained replaces; specified by `StripMarkersAt`, `StripMarkersNoMarkers`, `StripMarkersFixed` and `StripMarkersIdempotent` |
| `Normalizer.ToMarkdown` | app.py:29-38 | `to_markdown`; specified by `ToMarkdownSpec` |
| `Service.Prompt` | app.py:123-124 | the prompt template, repeated at app.py:142-143 for the single path; specified by `PromptEmbedsName` and `PromptInjective` |
| `Service.PromptEmbedsName` | app.py:123-124 | the company name sits unchanged at a fixed place in its prompt |
| `Service.PromptInjective` | app.py:123-124 | two prompts are equal exactly when their company names are |
| `Service.PromptsInjective` | app.py:121-125 | a log of prompts determines the companies asked about, in order |
| `Service.GenerativeModel.constructor` | app.py:62 | a new model has received no prompt |
| `Service.GenerativeModel.GenerateContent` | app.py:125 | one call appends its prompt to the log, and the reply is the oracle's answer for that call |
| `App.SelectBranch` | app.py:109-154 | batch path exactly when a file is uploaded and the name is `""`; single path exactly when the name is non-empty, with or without a file; halt exactly when neither is present |
| `App.Accumulate` | app.py:121-128 | the two lists have equal length; the names are a prefix of the column; calls = kept items, plus one if a failure ended the loop |
| `App.AccumulateAllSucceed` | app.py:121-128 | when every call succeeds: names = the column in order, summary i = `to_markdown(reply i)`, exactly one call per item, no error |
| `App.AccumulateStopsAtFailure` | app.py:112-137 | when call k is the first to fail: exactly the first k companies and their summaries are kept, k+1 calls are made (none after item k), and the error is call k's |
| `App.AccumulateCompletes` | app.py:112-137 | the loop ends without an error exactly when every reply is a success |
| `App.BatchSpec` | app.py:112-137 | the batch result, with the app.py:119 division on an empty column; specified by `BatchSpecOutcome` and the `Accumulate` lemmas |
| `App.BatchSpecOutcome` | app.py:112-137 | an empty column makes no call, keeps nothing and reports "float division by zero"; otherwise no error exactly when every call succeeds |
| `App.BatchEndsAtFailure` | app.py:135-137 | the state the loop holds when call k fails is the specified result |
| `App.BatchEndsComplete` | app.py:121-128 | the state the loop holds after the last item is the specified result |
| `App.LogGrows` | app.py:121-125 | the prompt for item i extends the log of items 0..i-1 to the log of items 0..i |
| `App.SummarizeBatch` | app.py:112-137 | the lists and error equal `BatchSpec` on the model's replies (an empty column gives the division-by-zero error and no call); the model's log grows by exactly the prompts of the first `calls` companies, in order |
| `App.Zip` | app.py:155 | `zip` has the length of the shorter list, and row i pairs element i of each |
| `App.ZipColumns` | app.py:155 | for lists of equal length, the two columns of the zipped rows are the two lists |
| `App.SummaryTable` | app.py:155 | the DataFrame built from `zip(company_name, summary_company)`; specified by `ExportedTable` |
| `App.ExportedTable` | app.py:155 | the exported table has the columns "Company Name" and "Summary"; there is one row per kept company, and row i pairs `company_name[i]` with `summary_company[i]` |
| `App.Run` | app.py:107-156 | not submitted: empty table, no call. Halt: stop message, no call. Single path: exactly one call, then a one-row table or a crash. Batch path: the table of `BatchSpec`'s lists with its error shown |

## Left out

- Streamlit widgets: header, sidebar, spinner, progress bar, per-item `st.write`/`st.markdown`, download button and footer (app.py:65-105, 130-134, 149-151, 159-184). They are presentation only, and the progress value is floating point.
- `google.generativeai` configuration, the `gemini-pro` model name and the fixed generation settings (app.py:20-25, 54-62). The remote service is an oracle (`GenerativeModel.respond`) that may fail. Any exception of `generate_content` or of `response.text` is a `Failed` reply.
- `load_dotenv`, `st.secrets` and `logging` (app.py:13-25, 79, 136): environment access and I/O.
- `pd.read_excel` and the sheet and column choice (app.py:82-95): library code that is not part of this model. The chosen column is given to `Run` as a sequence of strings: the model assumes a column of text cells.
- Non-text cells (app.py:95, 123, 127): the f-string turns a cell into text only for the prompt, while `company_name.append(company)` keeps the raw cell. A numeric or missing cell is therefore exported as a number or a blank. The model, whose column holds strings, does not capture this.
- `to_excel` (app.py:41-51, 156): the xlsxwriter encoding is not part of this model. `Run` yields the table that is handed to it.
- `Normalizer.Dedent`: covers `textwrap.dedent` as the classic CPython algorithm on `'\n'`-separated lines, with space and tab as the only whitespace. Other line-break characters are ordinary characters here. The margin is folded from the last line to the first. `Normalizer.MarginSpec` shows that the result is the longest common prefix whatever the order.
- `App.Run`: does not model `st.stop()` beyond the `Halted` outcome, nor the wording of the UI messages shown before the submit button.
