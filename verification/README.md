# AppGenerator field extraction, in Dafny

This project models the deterministic front end of AppGenerator's Streamlit app. The app turns an uploaded app description into a field map. It then hands that map to a chain of model-provider calls, which are not modelled.

- **`read_file`** (app.py:15-21) picks a reader by the upload's declared media type:
  - `application/pdf` goes to `read_pdf`;
  - `text/plain` is decoded as UTF-8;
  - any other type raises `ValueError("Unsupported file format. Please provide a PDF or text file.")`.
- **`read_pdf`** (app.py:23-28) appends `page.extract_text() or ""` for every page, in order.
- **`parse_input`** (app.py:30-45) does the following:
  - It splits the text at `'\n'`.
  - A line containing `:` is split at its first colon. It names the field `key.strip()` with the value `value.strip()`, and that field becomes the current key.
  - A non-blank line without a colon is appended to the current key's value as `' ' + line.strip()`. This only happens when the current key is a non-empty string.
  - Finally, each of the nine expected fields that is missing is added with `''`.

Modules:

- `Wrappers`: the `Option` and `Result` types.
- `Text`: Python's `str.isspace`, `str.strip`, `str.split('\n')`, `'\n'.join` and `str.split(':', 1)`, over `string` (`seq<char>`).
  - `IsSpace` is the exact character set Python's `isspace` accepts.
  - `SplitAtFirst` is defined only when the separator occurs. This matches the source, which calls `split(':', 1)` only after checking `':' in line`.
- `FieldParser`: `parse_input`, written as one loop step `Step` over a `ParserState` (`app_info`, `current_key`), the fold `Run`, the final `Fill` and `ParseInput`.
  - The loop invariant `Inv` says that a current key Python treats as true (not `None`, not `""`) is already in the map. Every step preserves it. This is why the `+=` at app.py:40 can never raise, so `ParseInput` has no precondition.
  - `SeenKeys` and `Continuation` are independent reference definitions. The lemmas relate the loop to them.
- `ParserExamples`: worked examples. Each is proved first for every text of its shape, then for the concrete text.
- `FileReader`:
  - `ReadPdf` over the pages' extracted texts;
  - `ReadFile`, where the UTF-8 decoder and the PDF page extractor are function parameters;
  - `ExtractFields`, the two calls at app.py:197-198.
  - `Concat(Present(pages))` is the reference definition for `ReadPdf`.

The result keeps every key read from the text, including unexpected keys and the empty key `""`, not only the nine expected keys. `ParseInputKeys` states the exact key set.

A decoding failure is modelled as `Failure(InvalidUtf8)`. In Python it is the `UnicodeDecodeError` raised by `decode("utf-8")`, and it reaches the same catch-all `except` at app.py:271 as the `ValueError`.

## Model

| member | source | states |
|---|---|---|
| Text.TrimStartSpec | app.py:37-40 | the left half of `strip`: what remains is a suffix of the input, everything removed is white space, and what remains starts with a non-space character |
| Text.TrimEndSpec | app.py:37-40 | the right half of `strip`: what remains is a prefix of the input, everything removed is white space, and what remains ends with a non-space character |
| Text.StripSpec | app.py:37-40 | `strip()` never lengthens a string, its result has no white space at either end, and the result is empty exactly when the input is all white space (the `line.strip()` test at app.py:39) |
| Text.StripDecompose | app.py:37-40 | the input is a white-space prefix, then the stripped text, then a white-space suffix |
| Text.StripTrimmed | app.py:37-40 | a string with no white space at either end is left unchanged by `strip()` |
| Text.StripIdempotent | app.py:37-40 | stripping twice is the same as stripping once |
| Text.StripPadding | app.py:37-40 | white space added on both sides of a trimmed string is exactly what `strip()` removes |
| Text.SplitLinesNoNewline | app.py:31 | no piece of `split('\n')` contains a newline |
| Text.JoinSplit | app.py:31 | joining the pieces of `split('\n')` with newlines gives back the original text |
| Text.SplitJoin | app.py:31 | splitting newline-free lines joined by newlines gives back the same lines |
| Text.SplitNoNewline | app.py:31 | a text without a newline is a single line |
| Text.SplitPrefix | app.py:31 | a newline-free first line followed by a newline splits off as its own piece |
| Text.SplitAtFirstSpec | app.py:36 | `split(':', 1)` returns a head with no colon, and the head, the colon and the tail make up the line |
| Text.SplitAtFirstUnique | app.py:36 | any split of the line into a colon-free head, a colon and a tail is the one `split(':', 1)` returns |
| FieldParser.KeyLineSplitsAtFirstColon | app.py:35-38 | a line `head:tail` whose head has no colon is a key line with key `strip(head)` and value `strip(tail)`, even when the tail contains colons |
| FieldParser.KeyLineParts | app.py:35-38 | a line `k:` followed by white space and `v` (with `k` and `v` trimmed and `k` colon-free) names `k` and gives `v` |
| FieldParser.Step | app.py:34-40 | one loop iteration keeps the invariant "a current key that Python treats as true is already in `app_info`" |
| FieldParser.Run | app.py:33-40 | the loop over all lines keeps that invariant, so the `+=` at app.py:40 never misses |
| FieldParser.Fill | app.py:41-44 | after the final loop the keys are the old keys plus the expected ones, old values are unchanged, and every added key maps to `""` |
| FieldParser.ParseInput | app.py:30-45 | all nine expected keys are in the result, and a key the lines did not define maps to `""` |
| FieldParser.StepContinuesCurrent | app.py:39-40 | a colon-free line keeps the current key and appends `' ' + strip(line)` to its value when the line is non-blank and the key is non-empty; otherwise it appends nothing |
| FieldParser.RunAppend | app.py:34-40 | running two stretches of lines one after another equals running them together, so the loop carries no state besides `app_info` and `current_key` |
| FieldParser.RunKeys | app.py:35-40 | the loop adds exactly the stripped keys of the key lines to the map, and continuation lines never add a key |
| FieldParser.ParseInputKeys | app.py:30-45 | the result's keys are exactly the keys seen in the text plus the nine expected keys; unexpected keys are kept |
| FieldParser.ParseInputValues | app.py:41-44 | an expected key the text never names maps to `""`, and every parsed key keeps its parsed value |
| FieldParser.RunLeavesOtherKey | app.py:35-40 | while `k` is not the current key and no line names it, the entry for `k` (or its absence) does not change |
| FieldParser.RunFromCurrent | app.py:37-40 | after a key line for `k`, the lines that never name `k` again append exactly their continuation to `k`'s value; nothing is appended when `k` is `""` |
| FieldParser.ContinuationLineAppends | app.py:39-40 | a colon-free line adds its piece to the current key's value ahead of whatever the following lines add |
| FieldParser.KeyLineEndsContinuation | app.py:35-38 | a key line that names another field ends the continuation of `k`, and `k` keeps its value from then on |
| FieldParser.LastDefinitionWins | app.py:35-40 | a field's value is set by the last key line that names it, replacing any earlier value, followed by the continuation lines right after that key line |
| FieldParser.ParseInputLastDefinition | app.py:30-45 | the same statement about `parse_input`'s result for a text whose lines are given |
| FieldParser.IgnoredLines | app.py:33-40 | blank and colon-free lines before the first key line leave the state as it started |
| ParserExamples.DefinitionAt | app.py:35-40 | the value of the field named by the key line at index `i`, when no later line names that field |
| ParserExamples.FromLines | app.py:41-44 | a value parsed from the text's lines is also its value in the filled-in result |
| ParserExamples.UnnamedExpectedKey | app.py:41-44 | an expected key that no line names maps to `""` |
| ParserExamples.TwoFieldsSecondContinues | app.py:37-40 | given two key lines then a trimmed continuation line, the second key's value is its own value, a space and that line |
| ParserExamples.TwoFieldsFirstKept | app.py:35-40 | in the same shape, the first key keeps its value when the second key differs |
| ParserExamples.TwoFieldsDefault | app.py:41-44 | in the same shape, an expected key that neither key line names maps to `""` |
| ParserExamples.KeyThenContinuation | app.py:38-40 | a key line followed by a continuation line appends a space and that line, and the space is kept even when the value was empty |
| ParserExamples.SameKeyTwice | app.py:38 | of two key lines with the same key, the second value replaces the first |
| ParserExamples.EmptyKeyDropsContinuation | app.py:37-39 | the empty key stores its value under `""`, and the colon-free line after it is dropped |
| ParserExamples.LinesOfTwo | app.py:31 | two newline-free lines joined by a newline split into exactly those two lines |
| ParserExamples.LinesOfThree | app.py:31 | three newline-free lines joined by newlines split into exactly those three lines |
| ParserExamples.ExampleFirstColonOnly | app.py:35-38 | `"A: B: C"` names `"A"` with the value `"B: C"` |
| ParserExamples.ExampleContinuation | app.py:30-45 | `"Project name: Foo\nDescription: A simple app\nfor tracking tasks."` gives Description `"A simple app for tracking tasks."`, Project name `"Foo"` and Organization `""` |
| ParserExamples.ExampleLeadingSpace | app.py:38-40 | `"Description:\nfoo"` gives Description `" foo"` |
| ParserExamples.ExampleLaterKeyReplaces | app.py:38 | `"Platforms: iOS\nPlatforms: Android"` gives Platforms `"Android"` |
| ParserExamples.ExampleEmptyKey | app.py:37-40 | `": x\nmore"` stores `"x"` under `""` and drops `"more"` |
| FileReader.ReadPdf | app.py:23-28 | pages without text give `""`, and the result is at least as long as every page text it includes |
| FileReader.ReadPdfAppend | app.py:26-27 | reading the pages of `a` and then those of `b` gives the text of `a` followed by the text of `b` |
| FileReader.ReadPdfIsConcatOfPresent | app.py:23-28 | `read_pdf` is the in-order concatenation, without separators, of the texts of the pages that have text |
| FileReader.ReadPdfOnePage | app.py:27 | a single page reads as its text, or `""` when it has none |
| FileReader.ReadPdfSkipsEmptyPage | app.py:26-27 | a page without text, whether the extractor gives no text or the empty text, gives the same result as leaving that page out |
| FileReader.ReadPdfFirstPageOnly | app.py:26-27 | the pages `[p1, no text]` read as `p1` |
| FileReader.ReadFile | app.py:15-21 | PDF uploads read through the page extractor, plain-text uploads through the decoder (an invalid decode is an error), and the unsupported-format error with the source's message occurs exactly for every other media type |
| FileReader.ReadFileUsesOneLibrary | app.py:15-19 | the PDF path does not depend on the decoder, the text path does not depend on the PDF library, and other types depend on neither |
| FileReader.ExtractFields | app.py:197-198 | reading then parsing fails exactly when reading fails, with the same error; on success the result is `parse_input` of exactly the text `read_file` returned, so it has all nine expected keys |
| FileReader.UnsupportedRefusedBeforeParsing | app.py:20-21 | an upload of any other media type is refused with the fixed message whatever its content, before anything is parsed |
| FileReader.ExamplePdfEmptySecondPage | app.py:23-28 | a two-page PDF whose second page has no text gives the same fields as its first page alone |

## Left out

- `main()` and the Streamlit page (app.py:141-272) are not modelled, except the read-then-parse at app.py:197-198, which is `ExtractFields`. What is left out covers rendering, styling, download buttons and the catch-all `except` that shows errors. It is user-interface plumbing with no logic of its own.
- The model-provider calls and prompt templates (app.py:47-139) are not modelled. These are network clients of libraries outside this repository, and their output is not deterministic.
- The order of the generation steps (app.py:206-211) is not modelled. It is a straight-line sequence of those foreign calls.
- `load_dotenv` and the API credentials (app.py:2-13) are not modelled, because they are environment I/O.
- UTF-8 validity is not modelled. `ReadFile` takes the decoder as a parameter returning `None` for invalid bytes, so which byte strings are valid UTF-8 is not modelled.
- pdfplumber is not modelled. `ReadFile` takes the page extractor as a parameter that returns each page's text or `None`. Failures to open a malformed PDF and pdfplumber's text layout are not modelled.
- Python's dict insertion order is not modelled. The result is a `map`, so the display order at app.py:201 is not modelled.
- FileReader.ReadPdf: its own contract only bounds the result. The full statement, that the result is the in-order concatenation of the present page texts, is the lemma `ReadPdfIsConcatOfPresent`.
