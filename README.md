# mutmut results parser, modelled in Dafny

`parse_mutmut_results` turns the text that `mutmut results` prints into a
dictionary with four sections: `survived`, `killed`, `timeout` and
`skipped`. Each section maps to a list of file entries
`{file, count, mutations}`. The text is read one line at a time, and each
stripped line falls into one of four kinds:

- blank lines are skipped;
- a line starting with `Survived`, `Killed`, `Timeout` or `Skipped` selects the current section;
- a `----` line matching `---- F (N) ----` appends a new entry to the current section and makes it the current file;
- any other line is a comma-separated list of line numbers and `a-b` ranges, appended to the current file's mutations.

The model takes the tool's output as a string parameter. It has two layers:

- `MutmutToJson.ParseMutmutResults` is a method with the source's loops. It updates the dictionary step by step. The current file is a reference (section, index) into the dictionary, because the source appends the entry and then keeps changing it through an alias.
- The method is proved equal to the function `MutmutToJson.ParseReport`. That function is a fold of the one-line step `MutmutToJson.StepLine` over the lines. The properties are proved about `StepLine` and `Run`.

Uncaught Python exceptions are modelled as the result `Err(KeyError)` or `Err(ValueError)`.

Supporting modules:

- `Strings`: Python's `str.strip()` over Python's whitespace set, `str.split(sep)`, and substring search.
- `IntLiteral`: `int(text)` on decimal text, skipping only the whitespace that `int()` itself skips. That set is narrower than the one `str.strip()` uses.
- `HeaderPattern`: `re.search` of the header regular expression. It searches for the leftmost match, and both groups are lazy.
- `Wrappers`: `Option` and `Result`.

## Model

| member | source | states |
|---|---|---|
| MutmutToJson.InitialReport | mutmut_to_json.py:12-17 | The dictionary starts with exactly the keys survived, killed, timeout and skipped, each mapped to an empty list. |
| MutmutToJson.ParseReport | mutmut_to_json.py:11-75 | A successful parse has exactly the four section keys. No other key is ever created. |
| MutmutToJson.ParseMutmutResults | mutmut_to_json.py:11-75 | The loop over `output.split('\n')`, with its in-place updates, returns exactly `ParseReport(output)`, including which exception it raises. |
| MutmutToJson.ProcessLine | mutmut_to_json.py:24-73 | One loop iteration, with tests in the source's order (blank, section, `----`, mutation line), gives exactly the new variables or the exception of `StepLine`. |
| MutmutToJson.ExtendCurrentFile | mutmut_to_json.py:57-73 | Handling the tokens left to right, in place, either extends the current entry by exactly the numbers of `LineValues` or fails with its first error. |
| MutmutToJson.AppendToken | mutmut_to_json.py:60-73 | One stripped token either extends the current entry by what `TokenValues` gives (a range, one number or nothing) or raises `ValueError`. |
| MutmutToJson.AppendRange | mutmut_to_json.py:65-66 | The inner loop appends `Range(start, end)` to the current entry's mutations. |
| MutmutToJson.Range | mutmut_to_json.py:65 | `range(start, end + 1)` has `end - start + 1` elements, or none when `end < start`. Element k is `start + k`. |
| MutmutToJson.TokenValues | mutmut_to_json.py:61-73 | One token either raises `ValueError`, and only when its stripped text holds a `-`, or gives its numbers. A token without `-` gives at most one number and never raises. The lemmas `TokenIsRange`, `TokenIsBadRange`, `TokenIsNumber` and `TokenIsSkipped` give its four outcomes. |
| MutmutToJson.TokenResults | mutmut_to_json.py:60-73 | Each token of a line has one outcome, and any failure among them is a `ValueError`. |
| MutmutToJson.Collect | mutmut_to_json.py:60-73 | Token outcomes taken left to right succeed exactly when every token succeeds. A failure is the error of one of the tokens; by `LineValuesInOrder` it is the first one. |
| MutmutToJson.LineValues | mutmut_to_json.py:59-73 | The numbers a mutation line appends. The only exception it can raise is `ValueError`. |
| MutmutToJson.SectionOf | mutmut_to_json.py:31-42 | A line selects a section exactly when it starts with one of the four titles, and the section is one of the four keys. |
| MutmutToJson.ExtendAt | mutmut_to_json.py:66-71 | Appending through the current-file reference changes only that entry's mutations. Keys, list lengths and every other entry stay the same. |
| MutmutToJson.ExtendAtTwice | mutmut_to_json.py:60-71 | Two successive appends through the reference are one append of the concatenation. |
| MutmutToJson.AppendEntry | mutmut_to_json.py:53 | `data[section].append(entry)` puts the entry at the end of that list and leaves the other lists unchanged. |
| MutmutToJson.HeaderStep | mutmut_to_json.py:45-54 | A `----` line keeps the state valid, and keeps every earlier entry a prefix of its new value. |
| MutmutToJson.MutationStep | mutmut_to_json.py:57-73 | A mutation line keeps the state valid and only grows entries. |
| MutmutToJson.StepLine | mutmut_to_json.py:23-73 | Every line keeps the four keys and a current-file reference that points into the dictionary. Entries only ever grow. |
| MutmutToJson.Run | mutmut_to_json.py:23 | The same holds over any sequence of lines, up to the first exception. |
| Strings.Strip | mutmut_to_json.py:24 | The result of `strip()` is empty or neither starts nor ends with whitespace. |
| Strings.StripIsSlice | mutmut_to_json.py:24 | `strip()` keeps a contiguous part of the text. Everything it drops before and after that part is whitespace. |
| Strings.StripPadded | mutmut_to_json.py:61 | Text whose ends are not whitespace comes back from `strip()` unchanged, whatever whitespace surrounds it. |
| Strings.Split | mutmut_to_json.py:59 | `split(sep)` gives at least one piece. No piece holds the separator, and joining the pieces with it gives back the text. |
| Strings.SplitJoin | mutmut_to_json.py:23 | Splitting a join of separator-free pieces gives back those pieces. |
| Strings.FindFrom | mutmut_to_json.py:46 | It gives the first occurrence of a pattern at or after a position, or none exists. |
| IntLiteral.IntStrip | mutmut_to_json.py:70 | The text `int()` reads is empty or neither starts nor ends with a character `int()` skips. Those characters exclude U+001C to U+001F. |
| IntLiteral.ParseInt | mutmut_to_json.py:70 | `int()` (also on lines 50 and 64) succeeds exactly when the text left after skipping its whitespace is an optional sign followed by one or more ASCII digits. `ParseIntShowNat` and `NoDigitNoInt` give its value and its failures. |
| IntLiteral.ShowNat | mutmut_to_json.py:70 | The decimal text of a line number, as `mutmut` prints it and `int()` reads it: one or more ASCII digits. `DigitsValueShowNat` reads it back. |
| IntLiteral.DigitsValueShowNat | mutmut_to_json.py:70 | The digits of `str(n)` have the value `n`. |
| IntLiteral.ParseIntShowNat | mutmut_to_json.py:70 | `int()` reads back `str(n)`, bare or with a `+` or `-` sign, with any padding of the whitespace `int()` skips around it. |
| IntLiteral.SeparatorBeforeLiteralFails | mutmut_to_json.py:50 | A character from U+001C to U+001F counts as whitespace for `strip()`, yet before a literal it makes `int()` raise `ValueError`. |
| IntLiteral.NoDigitNoInt | mutmut_to_json.py:69-73 | Text without a digit is never an integer, so `int()` raises `ValueError`. |
| HeaderPattern.Search | mutmut_to_json.py:46 | `re.search` on the line gives the leftmost match, or no position of the line has one. |
| HeaderPattern.MatchAt | mutmut_to_json.py:46 | A match at i has `---- ` at i. File and count are the shortest texts up to the first following ` (` and then the first following `) ----`. No match means no such decomposition exists. |
| HeaderPattern.SearchFrom | mutmut_to_json.py:46 | The search result is the leftmost position with a match, or no position has one. |
| HeaderPattern.SearchExactHeader | mutmut_to_json.py:46-50 | A line `---- F (N) ----` with no ` (` in F and no `) ----` in N is matched at its start, with groups F and N. |
| MutmutToJsonProperties.BlankLineChangesNothing | mutmut_to_json.py:24-28 | A line that is all whitespace leaves the whole state unchanged. |
| MutmutToJsonProperties.SectionHeaderOnlySwitches | mutmut_to_json.py:31-42 | A line starting with a section title, after any whitespace, only changes the current section. The dictionary and the current file stay the same. |
| MutmutToJsonProperties.FileHeaderAppendsEntry | mutmut_to_json.py:45-54 | A header `---- F (N) ----` under a section appends exactly `{file: F, count: int(N), mutations: []}` to that section and makes it the current file. |
| MutmutToJsonProperties.FileHeaderBeforeSectionFails | mutmut_to_json.py:45-53 | The same header before any section header raises `KeyError`. |
| MutmutToJsonProperties.FileHeaderBadCountFails | mutmut_to_json.py:50 | A header whose count is not an integer raises `ValueError`. |
| MutmutToJsonProperties.UnmatchedDashLineChangesNothing | mutmut_to_json.py:45-54 | A `----` line that the pattern does not match leaves the dictionary and the current file unchanged. |
| MutmutToJsonProperties.MutationLineWithoutFileIgnored | mutmut_to_json.py:57 | Mutation lines before any file header change nothing. |
| MutmutToJsonProperties.MutationLineExtendsCurrentOnly | mutmut_to_json.py:57-73 | A mutation line appends its numbers to the current entry only. Every other entry, every list length, the section and the current file are kept; a bad token raises. |
| MutmutToJsonProperties.SingleNumberToken | mutmut_to_json.py:61-71 | A token `n` with surrounding whitespace appends exactly `n`. |
| MutmutToJsonProperties.RangeToken | mutmut_to_json.py:62-66 | A token `a-b` appends `a, a + 1, ..., b` in ascending order: `b - a + 1` numbers, or none when `b < a`. |
| MutmutToJsonProperties.NonNumericTokenSkipped | mutmut_to_json.py:68-73 | A token with neither digits nor `-`, including the empty token of `1,,2`, is skipped. |
| MutmutToJsonProperties.ThreePartTokenFails | mutmut_to_json.py:62-64 | A token `a-b-c` raises `ValueError`, because it splits into three parts. |
| MutmutToJsonProperties.NonNumericRangeFails | mutmut_to_json.py:62-64 | A token `x-y` whose first part has no digit raises `ValueError`. |
| MutmutToJsonProperties.NegativeNumberFails | mutmut_to_json.py:62-64 | A token `-n` splits into `""` and `n`, and raises `ValueError`. |
| MutmutToJsonProperties.LineValuesInOrder | mutmut_to_json.py:59-60 | Tokens are handled left to right. A line's numbers are those of its first tokens followed by the rest, and an earlier error wins. |
| MutmutToJsonProperties.RunInOrder | mutmut_to_json.py:23 | Running over `ls + ms` is running over `ls` and then over `ms`. |
| MutmutToJsonProperties.NumberLineExtends | mutmut_to_json.py:57-71 | A line holding one number appends that number to the current entry. |
| MutmutToJsonProperties.CurrentFileSurvivesSectionSwitch | mutmut_to_json.py:31-71 | A number on the line after a section title still goes to the previous file's entry, because the current file is not reset. |
| MutmutToJsonProperties.RunWithoutHeaders | mutmut_to_json.py:20-57 | While there is no current file, lines that include no file header never change the dictionary. A `----` line that the header pattern does not match is not a file header. |
| MutmutToJsonProperties.ReportOfLines | mutmut_to_json.py:23 | The report of lines joined by newlines is the run over exactly those lines. |
| MutmutToJsonProperties.ReportWithoutHeadersIsEmpty | mutmut_to_json.py:12-75 | Output without any file header gives the four empty lists. This includes outputs whose `----` lines the header pattern does not match. |

## Left out

- The `mutmut results` process (mutmut_to_json.py:8) is not modelled. Its standard output is the parameter `output`.
- `main` is not modelled: the call, writing `mut.json` and `json.dump` (mutmut_to_json.py:77-86). This is file I/O through a library serializer.
- `int()` is modelled on ASCII digits with an optional sign and the whitespace `int()` skips. Underscore separators and non-ASCII digits are not modelled.
- IntLiteral.ParseInt: the limit on the length of a decimal literal is not modelled. From Python 3.11, `int()` raises `ValueError` on more than 4300 digits by default, and the limit can be changed at run time. The model reads a literal of any length, so a header count or range bound that long gives a number instead of `ValueError`, and such a single token gives a number instead of being skipped.
- Exceptions carry only their class (`KeyError`, `ValueError`), not their message.
- When a line raises, the source may already have appended some numbers in place. Those partial changes are not modelled, because the exception leaves the function and nothing is returned.
- HeaderPattern.MatchAt: it treats `.` as matching every character. That holds for every line the parser sees, because `split('\n')` removes all newlines. On text containing a newline it differs from `re.search`.
- Truthiness of `current_file` (mutmut_to_json.py:57) is modelled as "a current file exists". A dictionary with three keys is always truthy, and the stripped line is already known to be non-empty there.
- tests/test_skeleton.py is not part of this model. It tests a `billing` module that is not part of this model either.
