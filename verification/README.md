# GoFlow-Agent: a verified model of the CLI's algorithms and of three byte readers

A Dafny model of the algorithmic parts of GoFlow-Agent, with proofs of the properties they are there
for. `dafny verify dfyconfig.toml` checks all of it.

| files | what they model |
|---|---|
| `Text`, `Wrappers`, `Integers`, `Sorting`, `Sums`, `Bits` | rune strings, results that may fail, Go's `sort`, sums split by key, bytes and bitwise operators |
| `Levenshtein`, `CommandMatching` | `editDistance`, `suggestCommand`, `closeEditDistanceCommandMatch` |
| `Fuzzy`, `Completion` | fuzzy scores and ranking, Tab completion of commands and `@` references |
| `Terminal`, `LineModel`, `ReaderModel` | the terminal line, the editor as a zipper with history, one `ReadLine` as a machine over runes |
| `RuneSlice`, `LineReader` | the same editor in place: rune slices over arrays, mutable fields, a buffered reader, incremental output |
| `Prompt`, `Session` | `formatPrompt`, and the loop that makes one call after the other with it |
| `WebSocket` | masked frame writer and chunk-tolerant reader of the DevTools connection |
| `AsciiStrings`, `PeReader`, `PeImages` | printable-run extraction, the PE reader, and PE images written for it |
| `BlockScanner` | the JavaScript object scanner and the loops that collect every dictionary |
| `AtReferences`, `YamlQuoting`, `ResourceNames` | the `@path` tokenizer, YAML list quoting, resource names |
| `CostTrends`, `DoubleEsc` | the cost report by agent, the double-Esc detector |

How the model is built. What the program computes by changing variables, slices, maps of pointers or
objects is a method or a class here, and its `ensures` equate the new state with a function of the old
one; the properties are lemmas about those functions. Strings are sequences of runes; where the
program takes the length of a string, `Len` counts its bytes in UTF-8. `unicode.ToLower`
is a parameter (`lower`), since `strings.ToLower` maps rune by rune, and so is whatever the workspace
answers (the directory walk behind `@`, completion messages, suggestions), which may differ from key to
key. Errors that the program returns or raises are values of a result type. Integers are unbounded.

Results a reader may start from:

- `Levenshtein.NoShorterChain` and `ShortestChain`: the two-row loop returns the least number of single
  insertions, deletions and substitutions, at any positions and in any order, that lead from one text to
  the other; `Triangle`, `Symmetric`, `ZeroIffEqual` make it a metric.
- `Completion.TabIsIdempotent`: a second Tab never changes what a first Tab left on a command token.
- `LineModel.RunShows`, `ReaderModel.EveryKeyIsFaithful` and `Session.EveryCallIsFaithful`: after every key
  of every call of every session, the terminal line built from the incremental output is the program's own
  prompt (`Prompt.PromptFits`) and the buffer with the cursor in its place. `Session.SessionHistory` gives the
  input history of a session. `LineReader.InteractiveInputLineReader.ReadLine` and `Session.Converse`: the
  in-place editor and the loop around it run exactly these machines.
  `ReaderModel.EditedLineIsSubmitted` and `LineModel.WalkShowsEntry` say what keys do to the text.
- `WebSocket.FrameIsRead`, `FrameCutShort`, `FramesBackToBack`: what the reader makes of every frame a peer may send;
  `RoundTrip`, `BackToBack`, `ShortestForm`: the writer against it.
- `PeReader.ParseHeaders` and `PeImages.ImageRoundTrip`: no file runs the reader past its data, and a
  written image is read back with its sections, its imports and its exports, down to their names.
- `CostTrends.UsageIsConserved`, `BudgetsAreConserved`, `ReportIsUnique`: the report conserves the
  session's totals and does not depend on the order in which Go visits the map.

Three properties hold only under a condition, and the condition is exact.
`AsciiStrings.ScanIsExactIffPositive`: with a least length of zero or less the scan reports empty runs
(already on empty data), and it is exact for all data if and only if the least length is positive; the
callers pass at least 3. `YamlQuoting.QuotedListIsReadIffReadable`: the quoted list is read back if and only
if the kept values hold no line break or other control character, which the writer does not escape; a value of
two lines is read as one (`TwoLinesAreReadAsOne`).
`ResourceNames.FixedIffSlug`: a name is left alone if and only if it is a slug.

One thing the program does not do: keep what is typed ahead. Each call of `ReadLine` makes a new buffered
reader, so the runes that the old one had already taken from the terminal, such as a second pasted line, do
not reach the next call. `ReadLine` says what is left where, and `Session.Served` that no rune is read twice
or out of order.

## Model

| member | source | states |
|---|---|---|
| Levenshtein.EditDistance | cmd/goflow/main.go:2841-2867 | the two swapped rows end with the Levenshtein distance of the two texts, for all texts |
| Levenshtein.FillRow | cmd/goflow/main.go:2856-2863 | one row of the table in place, from the row above it |
| Levenshtein.MinInt | cmd/goflow/main.go:2869-2879 | a smallest of the values, and 0 for none |
| Levenshtein.NoCheaperScript | cmd/goflow/main.go:2853-2866 | no left-to-right script of keeps, insertions, deletions and substitutions between two texts costs less than their distance |
| Levenshtein.CheapestScript | cmd/goflow/main.go:2853-2866 | some script between them costs exactly the distance |
| Levenshtein.NoShorterChain | cmd/goflow/main.go:2841-2867 | no chain of single edits, at any positions and in any order, is shorter than the distance |
| Levenshtein.ShortestChain | cmd/goflow/main.go:2841-2867 | some chain of single edits is exactly as long as the distance |
| Levenshtein.Bounds | cmd/goflow/main.go:2844-2849 | the distance lies between the difference of the lengths and the larger length |
| Levenshtein.ZeroIffEqual | cmd/goflow/main.go:2856-2859 | the distance is 0 exactly for equal texts |
| Levenshtein.Symmetric | cmd/goflow/main.go:2853-2866 | both directions cost the same |
| Levenshtein.Triangle | cmd/goflow/main.go:2853-2866 | a detour through a third text is never shorter |
| CommandMatching.CloseEditDistanceCommandMatch | cmd/goflow/main.go:827-851 | the match that is strictly nearer than every other and less than 3 edits away, or none when there is no such match or the query is blank |
| CommandMatching.NearestIs | cmd/goflow/main.go:833-850 | a name is chosen exactly when it is at most two edits away and every other one is farther |
| CommandMatching.QueryIsMatched | cmd/goflow/main.go:828-831 | the slash is not part of what is compared |
| CommandMatching.SuggestCommand | cmd/goflow/main.go:2824-2839 | the first among the nearest commands if it is less than 4 edits away, and nothing exactly when the text is blank or every command is farther |
| CommandMatching.ExactCommandIsNearest | cmd/goflow/main.go:2824-2839 | a command typed exactly is its own suggestion |
| CommandMatching.NearestIsUnique | cmd/goflow/main.go:847-850 | a strictly nearest match is the one that is returned |
| Fuzzy.FuzzyStringScore | cmd/goflow/main.go:1017-1052 | the score of the prefix and substring branches, in bytes, and of the greedy branch, in runes, and rejection otherwise |
| Fuzzy.PrefixScore | cmd/goflow/main.go:1023-1025 | a match at the start scores the bytes behind it |
| Fuzzy.SubstringScore | cmd/goflow/main.go:1026-1028 | a first match inside scores 20, the bytes before it twice and those behind it once |
| Fuzzy.ScatteredScore | cmd/goflow/main.go:1029-1051 | a query that occurs nowhere but is a subsequence gets the greedy score |
| Fuzzy.TokenIsStripped | cmd/goflow/main.go:860-864 | blanks around a token and one slash before its name are not compared |
| Fuzzy.GreedyPass | cmd/goflow/main.go:1029-1051 | one pass that adds up gaps accepts exactly what the leftmost embedding accepts, with its span as the score |
| Fuzzy.AcceptsIffSubsequence | cmd/goflow/main.go:1017-1052 | over all three branches a value is accepted if and only if the lowered, stripped query is a subsequence of it |
| Fuzzy.GreedyScoreIsEarliestSpan | cmd/goflow/main.go:1029-1051 | the greedy score is 100 plus the unused runes between the earliest start and the earliest end of any embedding plus the surplus length |
| Fuzzy.GreedyIsEarliest | cmd/goflow/main.go:1034-1046 | no embedding starts or ends before the greedy one |
| Fuzzy.FuzzyFilterStrings | cmd/goflow/main.go:984-1015 | the first `limit` accepted values by (score, value), in the empty-query branch too |
| Fuzzy.QueryIsWanted | cmd/goflow/main.go:985 | one slash at the very front and the blanks around what follows are not searched for |
| Fuzzy.EmptyQueryIsSort | cmd/goflow/main.go:986-992 | without a query the general ranking is the sorted list cut at the limit, so both branches agree |
| Fuzzy.TopRankedIgnoresOrder | cmd/goflow/main.go:994-1015 | any permutation of the values gives the same result |
| Fuzzy.RankedIsSortedMatches | cmd/goflow/main.go:994-1006 | the ranking is sorted and holds each accepted value with its score as often as the list does, and nothing else |
| Fuzzy.CutIsByRank | cmd/goflow/main.go:1007-1014 | an accepted value that the limit cuts off has no better score, and at the same score no smaller name, than any value returned |
| Fuzzy.TopRankedMembers | cmd/goflow/main.go:994-1015 | only accepted values of the list are returned, and all of them when the limit does not cut |
| Fuzzy.TopRankedMultiplicity | cmd/goflow/main.go:994-1015 | whatever the limit, no value is returned more often than it was given |
| Completion.CommonStringPrefix | cmd/goflow/main.go:966-977 | the shrinking loop computes the longest common prefix of sequences of bytes or runes, the empty one for no values |
| Completion.CommonPrefixIsLongest | cmd/goflow/main.go:966-977 | it is a prefix of every value and every common prefix is a prefix of it |
| Completion.CompleteCommandToken | cmd/goflow/main.go:775-825 | the outcome of Tab on a command: direct matches, else the nearest fuzzy match, else the ranked ones |
| Completion.SingleMatchIsCompleted | cmd/goflow/main.go:784-811 | the one command that starts with the token is written out, with a space |
| Completion.SeveralMatchesAreListed | cmd/goflow/main.go:806-824 | several commands that start with the token extend it to all they share, or are listed when that is the token itself |
| Completion.FuzzyMatchesAreOffered | cmd/goflow/main.go:791-824 | without a nearest match, fuzzy matches complete, extend or are listed in rank order |
| Completion.NoMatchIsTold | cmd/goflow/main.go:801-803 | a token that no command has as a subsequence is answered with a message |
| Completion.OtherLinesAreNoCommands | cmd/goflow/main.go:765-782 | lines that are no slash word up to the cursor go to reference completion, which needs the cursor at the end |
| Completion.SlashWordIsCommand | cmd/goflow/main.go:765-768 | a slash word goes to command completion only |
| Completion.CompleteInputToken | cmd/goflow/main.go:765-773 | command completion first, then `@` completion at the end of the line |
| Completion.TrailingAtReferenceToken | cmd/goflow/main.go:943-960 | the `@` token that ends the line, from the last space on, without trailing punctuation and not if it has quotes |
| Completion.ReferenceIsFound | cmd/goflow/main.go:943-960 | the token is the last word without its `@` and the punctuation at its end, and none when it holds a quote |
| Completion.NoReferenceIsFound | cmd/goflow/main.go:947-953 | no token when the last word does not start with `@` or the line ends with a space |
| Completion.ReferenceIsCompleted | cmd/goflow/main.go:907-941 | one path takes the place of the token, several their common prefix if it is longer, otherwise the line stays with a message |
| Completion.TabIsIdempotent | cmd/goflow/main.go:765-825 | for slash commands without blanks, a second Tab changes nothing on a command token, in the unique, common-prefix, nearest and fuzzy cases |
| Completion.ExtensionKeepsMatches | cmd/goflow/main.go:808-812 | extending to a common prefix keeps exactly the same list of matching commands and goes as far as they agree |
| Completion.CompletionIsCommand | cmd/goflow/main.go:784-815 | what Tab writes is a command and a space, or a longer start of a command |
| Completion.MisspelledIsCorrected | cmd/goflow/main.go:791-809 | a token that starts no command becomes the strictly nearest fuzzy match and a space |
| Completion.CommonPrefixIsStable | cmd/goflow/main.go:784-812 | prefix search for the common prefix of several commands finds several and does not extend it |
| Text.TrimSpaceTakesOff | cmd/goflow/main.go:860-864 | trimming takes off the white space on both sides and nothing else |
| Text.SpacesAre | cmd/goflow/main.go:947 | the white space is the 25 code points with that property |
| Text.RuneLenIsShortest | cmd/goflow/main.go:808 | a rune has as many bytes as its shortest UTF-8 sequence |
| Text.LexByFirstDifference | cmd/goflow/main.go:1002-1006 | strings are ordered by their first difference, a prefix first |
| Completion.ExtendedTokenIsLeftAlone | cmd/goflow/main.go:806-825 | a token that is the common prefix of several commands gets a list and no change |
| Completion.CompletedCommandIsLeftAlone | cmd/goflow/main.go:765-781 | a completed command with its space is changed neither by command nor by reference completion |
| Terminal.FeedDecimal | cmd/goflow/main.go:637-639 | a terminal reads a printed count back as the parameter of its control sequence |
| Terminal.FeedClear | cmd/goflow/main.go:625-627 | CR and EL 2 leave an empty line whatever was on it |
| Terminal.StyledFits | cmd/goflow/main.go:2722-2743 | text between any number of graphic renditions and a reset makes a prompt wider by the text only |
| Terminal.RenditionsAreInvisible | cmd/goflow/main.go:2722-2743 | no sequence of renditions changes the line or the cursor |
| Prompt.PromptFits | cmd/goflow/main.go:2758-2765 | the program's prompt, without a runtime or with any printable agent and mode, ends at the cursor and shows its words without their styles |
| Prompt.PromptIs | cmd/goflow/main.go:2737-2765 | the prompt rune by rune, with `agent` and `chat` for blank names |
| LineModel.RedrawShows | cmd/goflow/main.go:625-640 | a redraw shows prompt and buffer with the cursor in its place, from any line |
| LineModel.StepShows | cmd/goflow/main.go:508-569 | what one key writes turns a line that shows the state into one that shows the next state |
| LineModel.RunShows | cmd/goflow/main.go:473-571 | after every key of every run the incremental output shows prompt and buffer with the cursor at prompt width plus cursor |
| LineModel.OutputIsIncremental | cmd/goflow/main.go:517-568 | keys that change nothing write nothing, a rune at the end only itself, and Tab its message first |
| LineModel.HintIsShown | cmd/goflow/main.go:554-567 | suggestions are shown after `@` and after a slash at the start, with the line again under them, and after no other rune |
| LineModel.NothingToDo | cmd/goflow/main.go:705-736 | keys that have nothing to act on leave the state alone |
| LineModel.TypedIsErased | cmd/goflow/main.go:517-552 | typing inserts at the cursor and Backspace takes it back |
| LineModel.LeftAndRight | cmd/goflow/main.go:705-736 | Left and Right undo each other, and Left then Delete is Backspace |
| LineModel.MoveKeepsText | cmd/goflow/main.go:710-729 | cursor movements never change the text, and Home and End reach the ends |
| LineModel.DraftIsRestored | cmd/goflow/main.go:594-623 | a run that leaves the draft and next comes back to it shows the draft as it was left, whatever was edited in between |
| LineModel.DraftIsKept | cmd/goflow/main.go:601-609 | between leaving and returning, the saved draft stays what it was |
| LineModel.UpsThenDowns | cmd/goflow/main.go:594-623 | any number of Ups and as many Downs give the text of the drafted line back, also past the oldest entry |
| LineModel.WalkShowsEntry | cmd/goflow/main.go:601-619 | k Ups show the k-th last entry, or the oldest one, and each Down the next one, with the cursor at its end |
| LineModel.HistoryIsLastRuns | cmd/goflow/main.go:575-592 | over all submissions the history is the last hundred of the trimmed, non-blank lines without adjacent repeats |
| LineModel.LineIsRemembered | cmd/goflow/main.go:577-592 | one line is added without the blanks around it, unless it is blank or repeats the last one; of a hundred and one the oldest goes |
| LineModel.RememberKeepsPrintable | cmd/goflow/main.go:577-592 | a remembered line can be shown again |
| ReaderModel.EditingKeysAreDecoded | cmd/goflow/main.go:655-703 | the sequences of the arrow, Home, End and Delete keys give these actions and take no rune that follows |
| ReaderModel.SequenceDecodes | cmd/goflow/main.go:671-682 | a control sequence of up to eight runes is taken whole and nothing after it |
| ReaderModel.OtherSequencesAreUnknown | cmd/goflow/main.go:655-703 | every other sequence, also one without a final rune in its first eight, is no key |
| ReaderModel.KeyStepIsFaithful | cmd/goflow/main.go:487-570 | one turn of the loop keeps the line faithful to the state and the history showable |
| ReaderModel.EveryKeyIsFaithful | cmd/goflow/main.go:473-571 | in a call on an empty line every turn keeps them so, whatever is typed and whatever the workspace answers, and a submitted or interrupted call leaves an empty line |
| ReaderModel.LastKeyEndsLine | cmd/goflow/main.go:508-515 | the key that submits or interrupts ends the line |
| ReaderModel.RunRemembers | cmd/goflow/main.go:508-512 | only a submission changes the history, by the line it returns |
| ReaderModel.BackspaceErases | cmd/goflow/main.go:517-522 | both runes of the Backspace key take away exactly the rune before the cursor |
| ReaderModel.RuneIsInserted | cmd/goflow/main.go:541-552 | a printable rune lands at the cursor |
| ReaderModel.TabCompletes | cmd/goflow/main.go:523-534 | Tab takes the completion of the workspace for the line and cursor as they are, and writes its message |
| ReaderModel.SuggestionsAreShown | cmd/goflow/main.go:554-567 | the suggestions written are those of the workspace for the line up to the rune |
| ReaderModel.ControlIsIgnored | cmd/goflow/main.go:541-544 | other control runes change and write nothing |
| ReaderModel.EnterSubmits | cmd/goflow/main.go:508-512 | CR and LF submit and remember the trimmed line |
| ReaderModel.CallIsGivenUp | cmd/goflow/main.go:488-516 | Ctrl-C and the end of the input end the call without a line |
| ReaderModel.SequenceActs | cmd/goflow/main.go:495-507 | ESC and a control sequence act as the key they stand for and are taken whole |
| ReaderModel.KeypadActs | cmd/goflow/main.go:655-668 | ESC O takes one rune more and acts as Home or End |
| ReaderModel.EditedLineIsSubmitted | cmd/goflow/main.go:487-552 | typed text, cut back with Backspace and entered, is submitted as it was left |
| ReaderModel.TypedLineIsGivenUp | cmd/goflow/main.go:487-516 | typed text is given up by Ctrl-C and by the end of the input, and the history stays |
| ReaderModel.RunEnds | cmd/goflow/main.go:487-494 | every turn takes a rune, so a call ends at the latest one turn after its last rune |
| RuneSlices.RuneSlice.RemoveAt | cmd/goflow/main.go:517-522 | the tail moves down in place and only the rune at the position is gone |
| RuneSlices.RuneSlice.InsertAt | cmd/goflow/main.go:549-552 | the rune stands at the position and the old tail after it, with the array kept or grown |
| RuneSlices.RuneSlice.Append | cmd/goflow/main.go:545-548 | the rune is added at the end |
| RuneSlices.RuneSlice.Assign | cmd/goflow/main.go:602-604 | the slice holds a copy of the given runes |
| RuneSlices.RuneSlice.Reserve | cmd/goflow/main.go:546-552 | growing keeps the contents, in the same array as long as it has room |
| LineReader.InteractiveInputLineReader.RedrawInputLineWithCursor | cmd/goflow/main.go:625-640 | writes the redraw of the current buffer and cursor |
| LineReader.InteractiveInputLineReader.InsertRune | cmd/goflow/main.go:541-568 | the default branch is the step of the machine for a typed rune, echo or redraw and suggestions included |
| LineReader.InteractiveInputLineReader.EraseBack | cmd/goflow/main.go:517-522 | Backspace is the step of the machine |
| LineReader.InteractiveInputLineReader.CompleteToken | cmd/goflow/main.go:523-534 | Tab is the step of the machine for the completion and message it got |
| LineReader.InteractiveInputLineReader.NavigateInputHistory | cmd/goflow/main.go:594-623 | the recalled line, the new position and the saved draft, with the edited buffer untouched |
| LineReader.InteractiveInputLineReader.Recall | cmd/goflow/main.go:499-505 | Up and Down replace the line and redraw, or do nothing |
| LineReader.InteractiveInputLineReader.ApplyInputEscapeAction | cmd/goflow/main.go:705-736 | Left, Right, Home, End, Delete and unknown sequences are the steps of the machine |
| LineReader.InteractiveInputLineReader.RememberInput | cmd/goflow/main.go:577-592 | the history after a submission, never more than a hundred lines |
| LineReader.InteractiveInputLineReader.ReadRune | cmd/goflow/main.go:481-494 | the next rune whatever was delivered together, none exactly at the end of the input |
| LineReader.InteractiveInputLineReader.ReadInputEscapeAction | cmd/goflow/main.go:655-703 | the action of an escape sequence and exactly the runes it takes |
| LineReader.InteractiveInputLineReader.Turn | cmd/goflow/main.go:487-570 | one turn of the loop is one step of the machine |
| LineReader.InteractiveInputLineReader.ReadLine | cmd/goflow/main.go:473-571 | a call ends, however the input is delivered, with the output, history and result of the machine; what is left of the machine's input is what was read ahead and what was not delivered |
| Session.EveryCallIsFaithful | cmd/goflow/main.go:192-205 | over any sequence of calls, after every key of every call the line shows the program's prompt and the buffer with the cursor in its place |
| Session.SessionStaysBlank | cmd/goflow/main.go:192-205 | between calls the line is empty as long as the loop goes on, and the history can be shown |
| Session.SessionHistory | cmd/goflow/main.go:575-592 | over all calls the history is the last hundred submitted lines without blank ones and adjacent repeats |
| Session.SessionRemembers | cmd/goflow/main.go:575-592 | the history of a session is that of its submitted lines |
| Session.EnteredLineIsSubmitted | cmd/goflow/main.go:192-202 | an entered line is added to the session, which goes on |
| Session.GivenUpCallEndsSession | cmd/goflow/main.go:194-200 | a call without a line ends the session |
| Session.Converse | cmd/goflow/main.go:190-205 | the loop ends with the first call that is not submitted, with the lines, output and history of the session, and serves each call an end of what the last one left |
| WebSocket.SendWebsocketText | scripts/smoke_http_browser.py:1679-1691 | writes the frame of the payload and mask, and nothing else |
| WebSocket.RecvWebsocketText | scripts/smoke_http_browser.py:1694-1710 | for every chunking, the result and the bytes left are those of the frame decoder |
| WebSocket.FrameIsRead | scripts/smoke_http_browser.py:1694-1710 | any frame of section 5.2 of RFC 6455, masked or not and in any form of length, gives its data, or an error when it is a close frame, and nothing after it is touched |
| WebSocket.FrameCutShort | scripts/smoke_http_browser.py:1713-1720 | any frame cut anywhere is a closed connection |
| WebSocket.FramesBackToBack | scripts/smoke_http_browser.py:1694-1710 | frames that arrive back to back are read in order |
| WebSocket.EncodeIsTextFrame | scripts/smoke_http_browser.py:1679-1691 | what is written is a final, masked text frame with the shortest length |
| WebSocket.RecvExact | scripts/smoke_http_browser.py:1713-1720 | exactly the asked number of bytes for every chunking, or an error when the peer closes before |
| WebSocket.Socket.Recv | scripts/smoke_http_browser.py:1716 | between one byte and the asked number, and none exactly when the peer has closed |
| WebSocket.RoundTrip | scripts/smoke_http_browser.py:1679-1710 | every payload shorter than 2^64 bytes and every mask are read back, and nothing after the frame is touched |
| WebSocket.BackToBack | scripts/smoke_http_browser.py:1679-1710 | frames written one after the other are read back in order |
| WebSocket.CutShort | scripts/smoke_http_browser.py:1713-1720 | a frame cut anywhere is a closed connection, never a payload |
| WebSocket.ShortestForm | scripts/smoke_http_browser.py:1683-1688 | no masked frame that reads as the payload is shorter, as section 5.2 of RFC 6455 demands |
| WebSocket.MaskTwice | scripts/smoke_http_browser.py:1690 | masking twice with one key is the identity (section 5.3 of RFC 6455) |
| Bits.BitByBit | scripts/smoke_http_browser.py:1681-1709 | the three bitwise operators work digit by digit |
| WebSocket.HeaderBits | scripts/smoke_http_browser.py:1681-1697 | the masks extract the opcode, the mask bit and the 7-bit length of any header |
| AsciiStrings.ExtractAsciiStrings | mcp_servers/python_notes.py:579-595 | the one pass returns the first entries of the unlimited scan, for every limit and least length |
| AsciiStrings.LimitCuts | mcp_servers/python_notes.py:592-593 | a limit cuts what exceeds it, and one that is not positive acts as 1 |
| AsciiStrings.StringBytesArePrintable | mcp_servers/python_notes.py:583-585 | the bytes collected are digits, letters, punctuation and the space |
| AsciiStrings.ScanIsExactIffPositive | mcp_servers/python_notes.py:590-594 | the scan reports exactly the maximal printable runs of every input, in order, if and only if the least length is positive |
| AsciiStrings.ScanFindsRuns | mcp_servers/python_notes.py:584-595 | from any point of the scan on: no run is missed, split or invented, one that ends with the data included |
| AsciiStrings.FirstRunsAreFound | mcp_servers/python_notes.py:579-595 | with a positive limit the results are the first maximal runs, as many as the limit allows |
| PeReader.ParseHeaders | mcp_servers/python_notes.py:626-678 | for every byte string the only errors that leave the reading are the two failed header checks, never an end of data |
| PeReader.ParsePeSummary | mcp_servers/python_notes.py:619-687 | the summary of every byte string, warnings included |
| PeReader.ParseSections | mcp_servers/python_notes.py:648-671 | the headers that fit, and whether the table is cut |
| PeReader.ParsePeImports | mcp_servers/python_notes.py:789-807 | never an error, and the import table at the address |
| PeReader.ParsePeExports | mcp_servers/python_notes.py:810-827 | never an error, and the names of the export table at the address |
| PeReader.FindOffset | mcp_servers/python_notes.py:1063-1069 | the search loop computes the offset of an address |
| PeReader.RvaInFirstSection | mcp_servers/python_notes.py:1063-1069 | an address is placed in the first section that holds it |
| PeReader.RvaInNoSection | mcp_servers/python_notes.py:1063-1069 | there is no offset exactly when no section holds the address |
| PeReader.SectionHolds | mcp_servers/python_notes.py:1064-1068 | a section holds as many addresses as the larger of its sizes |
| PeReader.NameEnds | mcp_servers/python_notes.py:1072-1077 | a name ends before its NUL, with the data, or after 256 bytes |
| PeReader.ImportTableIsExact | mcp_servers/python_notes.py:794-807 | the imports are the consecutive descriptors up to the limit, the end of the data or the first null one |
| PeReader.ExportTableIsExact | mcp_servers/python_notes.py:820-827 | the exports are the names of exactly those entries whose address lies in a section, among as many of the listed ones as fit into the data, in order |
| PeReader.ReadsStayInside | mcp_servers/python_notes.py:619-687 | no end-of-data warning for any file, at most 64 sections, 128 imports and 128 exports |
| PeReader.HeaderChecks | mcp_servers/python_notes.py:627-631 | which files fail the two header checks |
| PeReader.DirectoriesDecide | mcp_servers/python_notes.py:641-646 | where the addresses of the import and export tables stand, and when there are none |
| PeImages.SectionsRoundTrip | mcp_servers/python_notes.py:648-671 | a table of section headers is read back field by field wherever it stands in a file |
| PeImages.ImportsRoundTrip | mcp_servers/python_notes.py:789-807 | a terminated table of import descriptors is read back with the names its addresses lead to |
| PeImages.ExportsRoundTrip | mcp_servers/python_notes.py:820-827 | a table of name addresses is read back as the names |
| PeImages.NamesAreRead | mcp_servers/python_notes.py:1063-1077 | names written one after the other are found through their addresses in the section that holds them |
| PeImages.ImageRoundTrip | mcp_servers/python_notes.py:619-687 | a written image, PE32 or PE32+, with any sections, imports and exports within the caps, is summarised as what was written, without a warning |
| PeImages.CutImage | mcp_servers/python_notes.py:619-671 | an image cut anywhere is reported with as much of its headers as is there and with the warnings that say what is not |
| BlockScanner.BlockAfterMarker | scripts/validate_web_i18n.py:58-87 | the scan for every text, marker and start; a found block ends after the start |
| BlockScanner.ScanBody | scripts/validate_web_i18n.py:65-87 | the loop from a brace on computes the block, rune by rune in place |
| BlockScanner.BodyIsShortest | scripts/validate_web_i18n.py:65-87 | the body is the shortest text that leaves all braces outside strings closed, and none is found exactly when no text does |
| BlockScanner.PlainBodyIsBraceMatched | scripts/validate_web_i18n.py:65-87 | without quotes the body ends at the first place where braces are balanced by count |
| BlockScanner.StringsAreOpaque | scripts/validate_web_i18n.py:68-80 | text between quotes of any of the three kinds is passed over, up to the same quote without a backslash before it |
| BlockScanner.RenderedBodyIsFound | scripts/validate_web_i18n.py:65-86 | any nested object with properly escaped strings comes back exactly, whatever follows it |
| BlockScanner.CollectBlocks | scripts/validate_web_i18n.py:102-110 | the offset grows, so the loop ends, with the bodies in order or the error raised on the way |
| BlockScanner.AssignmentsAreCollected | scripts/validate_web_i18n.py:102-110 | for a file of assignments after a marker the loop collects exactly their bodies, in order |
| BlockScanner.ErrorIsRaised | scripts/validate_web_i18n.py:102-110 | a later marker without an object, or with one that is not closed, raises its error |
| AtReferences.ParseAtReferencePaths | cmd/goflow/at_refs.go:202-239 | the index loop returns the references of any prompt |
| AtReferences.PrintedReferencesAreRead | cmd/goflow/at_refs.go:202-239 | bare paths with punctuation behind them and quoted paths, printed between spaces, lone `@`s and other words, are read back in order, and no word is taken for a path |
| AtReferences.OpenQuoteTakesTheRest | cmd/goflow/at_refs.go:216-227 | a quote that is left open takes everything up to the end |
| AtReferences.ItemIsRead | cmd/goflow/at_refs.go:205-236 | after a space, one token contributes its path or nothing, and reading goes on behind it |
| YamlQuoting.QuotedYamlList | cmd/goflow/skill_templates.go:261-273 | the kept values, each quoted, joined by commas |
| YamlQuoting.ValueIsKept | cmd/goflow/skill_templates.go:263-267 | a value is kept without the blanks around it, unless it is blank |
| YamlQuoting.TwoReplacementsEscape | cmd/goflow/skill_templates.go:268-269 | the two replacements in a row escape rune by rune |
| YamlQuoting.QuotedListIsReadIffReadable | cmd/goflow/skill_templates.go:261-273 | a reader of double-quoted scalars that folds lines (section 7.3.1 of YAML 1.2.2) gets exactly the trimmed non-empty values back if and only if they hold no line break or other control character |
| YamlQuoting.BodyRoundTrip | cmd/goflow/skill_templates.go:268-270 | an escaped value is read up to its closing quote as the value with its lines folded, and nothing behind the quote is taken |
| YamlQuoting.FoldedValue | cmd/goflow/skill_templates.go:268-270 | a value with a control character is refused, one with line breaks loses some of them, and any other is read as it is |
| YamlQuoting.TwoLinesAreReadAsOne | cmd/goflow/skill_templates.go:268-270 | any two lines in one value come back as one line with a space between them |
| ResourceNames.NormalizeNewSkillName | cmd/goflow/skill_templates.go:159-191 | the words of the input, lowered and joined by single dashes, or which of the three errors |
| ResourceNames.WordsAreJoined | cmd/goflow/skill_templates.go:166-190 | words with anything of dashes, underscores and white space around and between them become their small forms with single dashes between them |
| ResourceNames.OtherInputsAreErrors | cmd/goflow/skill_templates.go:160-189 | blank input, separators only, and the first rune that is not allowed give the three errors |
| ResourceNames.AcceptedIsSlug | cmd/goflow/skill_templates.go:159-191 | every accepted name matches [a-z0-9]+(-[a-z0-9]+)* |
| ResourceNames.FixedIffSlug | cmd/goflow/skill_templates.go:159-191 | exactly the names of that form are left as they are |
| ResourceNames.NormalizedIsFixed | cmd/goflow/skill_templates.go:159-191 | normalising an accepted name again changes nothing |
| ResourceNames.SlugKeepsLetters | cmd/goflow/skill_templates.go:166-182 | no letter or digit is lost, added or reordered |
| ResourceNames.AcceptedIsFoundByName | cmd/goflow/main.go:2695-2697 | an accepted name is looked up under the same name |
| ResourceNames.NameIsLookedUpAs | cmd/goflow/main.go:2695-2697 | a name is looked up without blanks and dashes around it, lowered, with a dash for every space in it |
| CostTrends.BuildCliCostTrends | cmd/goflow/main.go:5475-5532 | the report: one line for every agent with samples, made of its own samples, in report order |
| CostTrends.LineAverages | cmd/goflow/main.go:5515-5520 | the averages of a line are those over its agent's budgets, truncated towards zero |
| CostTrends.OneBudgetLine | cmd/goflow/main.go:5477-5498 | one budget gives a line with its fields |
| CostTrends.OneUsageLine | cmd/goflow/main.go:5499-5514 | one usage gives a line with its fields, and the sum of its parts for a missing total |
| CostTrends.OthersDoNotCount | cmd/goflow/main.go:5477-5514 | a sample changes the line of its own agent only |
| CostTrends.AgentIsKnownAs | cmd/goflow/main.go:5478-5481 | an agent is known by its trimmed name, and a blank one as unknown |
| CostTrends.LinesAreOrdered | cmd/goflow/main.go:5523-5531 | tokens first, then the average prompt, then the name |
| CostTrends.AddBudgetSample | cmd/goflow/main.go:5477-5498 | a budget changes the item of its agent only, in place |
| CostTrends.AddUsageSample | cmd/goflow/main.go:5499-5514 | a usage changes the item of its agent only, in place |
| CostTrends.EnsureCliCostTrend | cmd/goflow/main.go:5534-5541 | the item of the key, a fresh empty one exactly when there was none |
| CostTrends.CollectLines | cmd/goflow/main.go:5515-5522 | one averaged line per item whatever order the map is visited in |
| CostTrends.ReportIsUnique | cmd/goflow/main.go:5515-5532 | the samples determine the report, so map iteration order cannot change it |
| CostTrends.HeaviestFirst | cmd/goflow/main.go:5523-5531 | the first line has the most tokens of any agent |
| CostTrends.UsageIsConserved | cmd/goflow/main.go:5461-5532 | prompt, output, cached and total tokens and sample counts over the lines equal those of the session |
| CostTrends.BudgetsAreConserved | cmd/goflow/main.go:5430-5532 | history savings, memory, artifacts, skills and sample counts over the lines equal those of the session, and the largest maximum is the global one |
| CostTrends.SummarizeTokenUsages | cmd/goflow/main.go:5461-5473 | the four sums over the session |
| CostTrends.SummarizePromptHistorySavings | cmd/goflow/main.go:5452-5459 | the three sums over the session |
| CostTrends.SummarizePromptBudgets | cmd/goflow/main.go:5430-5450 | truncated averages, the maximum and the number of distinct prefixes, zeros for no budgets |
| Sums.SumsPerKey | cmd/goflow/main.go:5475-5514 | sums split over distinct covering keys add up to the whole |
| Sums.LargestPerKey | cmd/goflow/main.go:5494-5496 | the largest of the maxima per key is the maximum |
| DoubleEsc.DoubleEscCanceller.Press | cmd/goflow/esc.go:31-41 | the answer and the remembered press after it |
| DoubleEsc.DoubleEscCanceller.constructor | cmd/goflow/esc.go:24-29 | a window that is not positive becomes the default one and nothing is remembered |
| DoubleEsc.SecondPress | cmd/goflow/esc.go:31-41 | a second press cancels exactly when it comes within the window, its last moment included |
| DoubleEsc.PressAll | cmd/goflow/esc.go:31-41 | a run of presses on one detector |
| DoubleEsc.CancelsAtEvenPlaces | cmd/goflow/esc.go:31-41 | over any run a press cancels exactly at the even places of its maximal burst |
| DoubleEsc.CancelsPerBurst | cmd/goflow/esc.go:31-41 | the number of cancels is the sum of floor(n/2) over the bursts |
| DoubleEsc.NoTwoCancelsInARow | cmd/goflow/esc.go:31-41 | no two consecutive presses cancel |

## Left out

- Completion.CompleteCommandToken: takes the common prefix of runes; that of bytes is the same unless names differ inside a multi-byte character, which ASCII names, all that the program has, never do. The text of its messages is a value that names what is listed.
- Completion.TabIsIdempotent: speaks of lines that are one slash word; on other lines Tab depends on the files of the workspace.
- LineModel.RunShows: one line without wrapping, every printable rune one column wide, and completions and remembered lines made of printable runes.
- LineReader.InteractiveInputLineReader.ReadLine: raw terminal setup and read errors other than the end of the input are not modelled; the input is a sequence of decoded runes that is delivered in arbitrary pieces.
- Session.EveryCallIsFaithful: what the program writes between calls is a value that ends its last line; the commands it runs are not modelled, and the session goes on with every submitted line, also after `exit`.
- LineReader.InteractiveInputLineReader.NavigateInputHistory: nil receivers and the reset of an index outside the history, which the object invariant rules out.
- YamlQuoting.QuotedListIsReadIffReadable: the reader asks for no indentation of continued lines, knows no document markers in them and no numeric escapes, which the writer never produces.
- WebSocket.SendWebsocketText: the payload is bytes; encoding and decoding UTF-8 and the random mask are outside the model, the mask is a parameter.
- PeImages.ImageRoundTrip: images whose tables stand in their first section, one NUL behind each name; the sizes of the directories, which the reader ignores, are zero.
- PeReader.ParsePeSummary: names are bytes (their decoding is not modelled), and the entropy samples and the printed names of machines are left out.
- BlockScanner.CollectBlocks: the regular expressions that pick entries out of a body are not modelled.
- CostTrends.BuildCliCostTrends: the averages in the lines lose their remainders, so they are defined but not conserved; integer overflow is not modelled.
- DoubleEsc.DoubleEscCanceller.Press: time is an integer with 0 as the zero time; the saturation of time differences and a nil receiver are not modelled.
- ResourceNames.AcceptedIsFoundByName: assumes of `lower` only that it leaves lower-case ASCII letters, digits and the dash alone.
- The ELF and Mach-O readers, UTF-16 strings, entropy, redaction and Markdown checks.
- The workflow engine, sessions, memory, policies, MCP client and HTTP servers.
- Path resolution in the workspace and the walk behind `@` completion, which appear as parameters.
- Formatting of output, help texts, and the rendering of templates other than quoted lists.
