# Word-to-form extraction engine, modelled in Dafny

This project models the part of `index.js` that turns the plain text of a Word
document into form records:

- one **task record**, a map from form-field name to string, built by
  `parseTaskSections`;
- at most twelve **card records**, built by `parseCards`;
- the post-processing in `parseWord`: the task's syllabus goes to cards that
  lack one, images are attached to cards by position, and each card position
  gets a tag.

It also models the helpers these use (`pruneAfterMarkers`, `cleanTextBase`,
`stripBracketNotesBlock`, `firstLine`) and three small helpers of the
form-filling side (`cssEscape`, `preview`, `mapDropdownValue`).

Where the source changes things step by step, the model does too: each loop
is a `method` proved equal to a specification function. That covers the
marker loop, the note filter, the two loops of `parseTaskSections`, the card
loop, the in-place card normalisation over an `array`, and the two
post-processing loops. The properties the code promises are proved as lemmas
about those specification functions.

Modules, one per file:

| file | module | source |
|---|---|---|
| `wrappers.dfy` | `Wrappers` | `Option` |
| `text.dfy` | `Text` | JavaScript string primitives: `trim`, `split`, `join`, `indexOf`, `\s`, `\d`, `filter(Boolean)` |
| `cleanup.dfy` | `Cleanup` | `pruneAfterMarkers`, `cleanTextBase`, `firstLine` |
| `bracket_notes.dfy` | `BracketNotes` | `stripBracketNotesBlock` |
| `patterns.dfy` | `Patterns` | the regular expressions of the field rules, as scanners |
| `task_sections.dfy` | `TaskSections` | `parseTaskSections` |
| `cards.dfy` | `Cards` | `parseCards` |
| `post_process.dfy` | `PostProcess` | the array work of `parseWord`, and the card tag |
| `helpers.dfy` | `Helpers` | `cssEscape`, `preview`, `mapDropdownValue` |

Modelling decisions:

- **Strings** are sequences of characters. The character sets of JavaScript
  regular expressions are spelled out:
  - whitespace (`\s` and `trim`) is the ECMAScript WhiteSpace and
    LineTerminator set;
  - `\d` is ASCII digits;
  - `\b` looks at ASCII word characters, so CJK text right next to `8A` still
    counts as a boundary;
  - `.` stops at `\n`, `\r`, U+2028 and U+2029.
- **Regular expressions** are written as specific scanners that reproduce the
  engine's leftmost, greedy match. `split(/\r?\n/)` is a split at line feeds
  followed by removing one trailing carriage return from each piece but the
  last (a carriage return at the very end of the text has no line feed after
  it, so it stays).
- **Task mapping.** `mapping.task` is an ordered list of `(title, name)`
  entries, passed as a parameter. A missing or falsy `name` is the empty
  string. The source's object keys are distinct titles; the model accepts any
  list.
- **Cards** are values (`datatype Card`). A field the card does not have is
  the empty string: the code only ever tests fields for truthiness, so absent
  and `""` behave the same. The card-label list (`mapping.__cardLabels` or the
  default list) is a parameter; `Cards.Labels` chooses it.
- **Section segmentation** is stated over the trimmed lines, since the loop
  trims each line first.
- **`cleanTextBase` is not idempotent.** One might expect a second cleanup
  pass to change nothing, but the code does not guarantee it. Cutting at a
  marker can leave a line made only of digits, and that line survives the
  first pass but not a second. `Cleanup.CleanTextBaseNotIdempotent` shows
  this on `"1【系統】"`: one pass gives `"1"`, a second gives `""`. The model
  follows the code.
- **Image extraction** (`--auto-image`) is a boolean parameter. The images
  mammoth would extract are a sequence parameter.

## Model

| member | source | states |
|---|---|---|
| Text.Split | index.js:63 | `split` returns at least one piece |
| Text.SplitCons | index.js:63 | a first piece without the separator is split off the front, and the rest splits as before |
| Text.SplitPartsChars | index.js:63 | every character of a piece comes from the text |
| Text.Trim | index.js:65 | `trim` is the slice between the leading and trailing whitespace; it starts and ends with content, and is empty exactly when the input is all whitespace |
| Text.LeadingSpaceUnique | index.js:65 | the leading whitespace run is the one whitespace prefix followed by a non-space or the end |
| Text.LeadingSpaceConcat | index.js:65 | a leading run that stops inside `a` is not changed by what follows `a` |
| Text.TrailingStartUnique | index.js:65 | the trailing whitespace run is the one whitespace suffix preceded by a non-space or the start |
| Text.TrimPadded | index.js:65 | `trim` removes exactly the whitespace padding around trimmed text |
| Text.NonEmpty | index.js:238 | `filter(Boolean)` keeps exactly the non-empty strings: every kept string is non-empty and from the input, and every non-empty input string is kept |
| Text.NonEmptyConcat | index.js:238 | the filter keeps the input order: filtering a concatenation is concatenating the filtered parts |
| Text.AppendLineJoin | index.js:172 | appending a line to a block with `acc ? acc + "\n" : ""` builds the line-feed join of all lines, given non-empty lines |
| Text.RemoveSpace | index.js:197 | `replace(/\s+/g, "")` leaves no whitespace and never lengthens the text |
| Text.RemoveSpaceChars | index.js:197 | a character is in the result exactly when it is in the text and is not whitespace |
| Text.RemoveSpaceConcat | index.js:197 | removing whitespace distributes over concatenation |
| Text.RemoveSpaceOfAllSpace | index.js:197 | removing whitespace from all-whitespace text leaves nothing |
| Text.RemoveSpaceOfNoSpace | index.js:197 | text without whitespace is unchanged |
| Text.RemoveSpaceSkip | index.js:197 | a leading whitespace run contributes nothing |
| Text.RemoveSpaceTrim | index.js:197 | `trim` removes only whitespace: removing all whitespace after it gives the same text as without it |
| Cleanup.CutAt | index.js:53-57 | the cut is within the text; no marker occurs before it; when it is inside the text, a marker occurs exactly there |
| Cleanup.Prune | index.js:51-59 | the result is a prefix of the text; it ends at or before every marker occurrence; a shorter result is cut at an actual occurrence |
| Cleanup.PruneAfterMarkers | index.js:51-59 | the loop over the five markers computes `Prune` |
| Cleanup.PruneUntouched | index.js:51-59 | a text holding no marker's first character comes back whole |
| Cleanup.PruneExample | index.js:51-59 | `"1【系統】"` is cut to `"1"` |
| Cleanup.DropPageNumberLines | index.js:63 | the filter keeps exactly the lines that are not digits-only: every kept line comes from the input and is not a page number, and every other input line is kept |
| Cleanup.DropPageNumberLinesConcat | index.js:63 | the filter keeps the order of the lines: filtering a concatenation is concatenating the filtered parts |
| Cleanup.PaddedDigitsArePageNumber | index.js:63 | digits with whitespace around them form a page-number line, as `/^\d+$/` on the trimmed line accepts them |
| Cleanup.PageNumberLineShape | index.js:63 | a page-number line is whitespace, then at least one digit, then whitespace: with the row above, `IsPageNumberLine` is exactly `/^\s*\d+\s*$/` |
| Cleanup.DropPageNumberLinesNone | index.js:63 | a list without page-number lines passes the filter unchanged |
| Cleanup.DropPageNumbers | index.js:63 | split, filter and rejoin: a one-line text is emptied exactly when it is a page number, and a text without page-number lines comes back unchanged |
| Cleanup.NoPageNumberLineLeft | index.js:63 | after rejoining, splitting again finds no digits-only line |
| Cleanup.SplitOneLine | index.js:63 | a text without a line feed splits into itself alone |
| Cleanup.DropPageNumbersExample1 | index.js:63 | a line with a digit and a marker is not a page number, so it stays |
| Cleanup.DropPageNumbersExample2 | index.js:63 | a text that is one page-number line becomes `""` |
| Cleanup.SplitJoin | index.js:63 | splitting the join of parts that lack the separator gives the parts back |
| Cleanup.CleanTextBase | index.js:61-66 | the result is trimmed and holds none of the five markers |
| Cleanup.CleanExampleA | index.js:61-66 | `cleanTextBase("1【系統】") == "1"` |
| Cleanup.CleanExampleB | index.js:61-66 | `cleanTextBase("1") == ""` |
| Cleanup.CleanTextBaseNotIdempotent | index.js:61-66 | a second pass over `"1【系統】"` changes the result |
| Cleanup.FirstNonBlank | index.js:96 | `find` returns the first line with content: when line `k` has content and all lines before it are blank, the result is line `k`; it is blank exactly when every line is blank |
| Cleanup.FirstLine | index.js:95-97 | `firstLine` is the trim of the first line with content; it has no line feed, is trimmed, and is empty exactly when the text is all whitespace |
| Cleanup.FirstLineTakesLine | index.js:95-97 | when the first line has content, `firstLine` is that line trimmed, whatever follows |
| Cleanup.FirstLineSkipsBlank | index.js:95-97 | a blank first line is skipped: `firstLine` is that of the text after it |
| Cleanup.FirstNonEmpty | index.js:268 | `[0] \|\| ""` after `filter(Boolean)`: the first non-empty element, and empty exactly when every element is empty |
| Cleanup.FirstNonEmptyTrimmedIsFirstLine | index.js:268 | trimming every line and taking the first non-empty one equals the trimmed first non-blank line |
| BracketNotes.FirstClose | index.js:81 | the first closing bracket at or after a position; none lies before it |
| BracketNotes.LeadParenLen | index.js:83 | a found length marks a prefix that is one whole `（…）`/`(…)` parenthetical |
| BracketNotes.LeadParenLenComplete | index.js:83 | every parenthetical prefix is the one found, so the match is unique |
| BracketNotes.StripLead | index.js:84 | a line without a leading parenthetical is unchanged; otherwise the parenthetical and the whitespace after it are removed |
| BracketNotes.SplitCRLF | index.js:71 | `split(/\r?\n/)`: one line per line-feed piece; each piece but the last loses one trailing carriage return, the last is unchanged |
| BracketNotes.DropCRs | index.js:71 | the same length; every part but the last loses one trailing carriage return; the last is kept |
| BracketNotes.SplitCRLFCons | index.js:71 | a line ended by `\r\n` is split off without either character |
| BracketNotes.SplitCRLFNoCR | index.js:71 | text without carriage returns splits exactly as at line feeds |
| BracketNotes.StripBracketNotesBlock | index.js:69-93 | the method computes `StripNotes` |
| BracketNotes.StripNotes | index.js:69-93 | empty input is returned as it is, and every result is trimmed |
| BracketNotes.StripNotesFactors | index.js:71-92 | the block is the skip filter, then the lead strip, then the join and `trim` |
| BracketNotes.StripLines | index.js:78-91 | the loop never adds lines, and once the flag is set it is the skip filter alone |
| BracketNotes.KeptLine | index.js:83-85 | a line is stripped only before the flag is set and only when its trim starts with a note; otherwise it is kept as it is |
| BracketNotes.IsWholeParen | index.js:81 | `/^[（(][^）)]+[）)]$/`: an opening bracket, at least one character that is no closing bracket, and a closing bracket at the end |
| BracketNotes.IsNeighborHeading | index.js:76 | on a trimmed line, the heading pattern with its `\s*$` matches exactly one of the five headings |
| BracketNotes.HeadingWithSpaceIsHeading | index.js:76 | a trimmed line that is a heading followed only by whitespace is the heading itself |
| BracketNotes.FilterNoteLines | index.js:72-91 | the flag-driven loop computes `StripLines(lines, false)` |
| BracketNotes.Survivors | index.js:81-87 | the lines that are not a whole parenthetical or a neighbour heading, all of them: every kept line survives and comes from the input, and every surviving input line is kept |
| BracketNotes.SurvivorsConcat | index.js:78-88 | the filter keeps the order of the lines: filtering a concatenation is concatenating the filtered parts |
| BracketNotes.StripLinesFactors | index.js:78-91 | the filter is the removal of skipped lines followed by leading-note stripping |
| BracketNotes.VerbatimAfterSeen | index.js:83-89 | once the flag is on, lines are kept verbatim |
| BracketNotes.FirstContent | index.js:89 | the index of the first line with content |
| BracketNotes.LeadStripLength | index.js:83-90 | leading-note stripping keeps the number of lines |
| BracketNotes.LeadStripAt | index.js:83-90 | each output line is the input line or that line stripped, and a line with no leading parenthetical is kept as it is |
| BracketNotes.LeadStripVerbatimAt | index.js:83-90 | every line after the first line with content is kept verbatim |
| BracketNotes.LeadStripShape | index.js:83-90 | same length; every line up to the first one with content is `KeptLine(line, false)`, so a leading note there is stripped; lines after it are verbatim |
| BracketNotes.LeadStripStrippedAt | index.js:83-84 | a line before the first content line that starts with a note loses it, with the whitespace after it |
| BracketNotes.EmptyUnchanged | index.js:70 | empty input is returned unchanged |
| BracketNotes.SplitCRLFOneLine | index.js:71 | a text without line breaks is one line |
| BracketNotes.StripNotesOneLine | index.js:69-93 | on one line: gone if it is a whole note or a heading, else its trimmed, lead-stripped form |
| BracketNotes.LeadingNoteOnOneLine | index.js:83-84 | a single trimmed line starting with a note keeps only the text after the note and its whitespace |
| BracketNotes.LeadingNoteKept | index.js:81-84 | a trimmed line that starts with a note is not itself one whole note, and it is kept without the note and the whitespace after it |
| BracketNotes.WholeNoteOnOneLine | index.js:81 | a single line that is one whole note becomes empty |
| BracketNotes.LeadingNoteRemoved | index.js:83-84 | `"（附註）正文"` becomes `"正文"` |
| BracketNotes.WholeNoteDropped | index.js:81 | `"（附註）"` becomes `""` |
| Patterns.LevelLen | index.js:187 | at a position, the length of a `\b\d{1,2}[A-D]\b` token, trying two digits before one; none means no token starts there, and a token that starts there is the one returned |
| Patterns.FindLevel | index.js:187 | the leftmost position where a level token starts |
| Patterns.ExtractLevel | index.js:185-192 | the value is the leftmost level token of the text, a level code; when the text holds no level token, it is `firstLine` |
| Patterns.LevelLeftmost | index.js:187 | any level token in the text starts at or after the one chosen |
| Patterns.LevelPrefersTwoDigits | index.js:187 | where both a one- and a two-digit token start at the found position, the token returned is the whole two-digit one |
| Patterns.CenturyDigitsLen | index.js:195 | `\d{1,2}\s*世紀` with the digit count fixed: a length is returned exactly when the digits, a whitespace run and `世紀` match there with that length, so the match is unique |
| Patterns.DigitsCenturyRun | index.js:195 | the whitespace of a digit match is the whole whitespace run after the digits |
| Patterns.CenturyTokenExclusive | index.js:195 | where a two-digit match starts, no one-digit match and no literal starts |
| Patterns.CenturyLen | index.js:195 | a length is returned exactly when some alternative of the century pattern matches at the position with that length |
| Patterns.FindCentury | index.js:195 | the leftmost position where a century match starts |
| Patterns.ExtractCentury | index.js:193-200 | the value is the leftmost century match with its whitespace removed; when no alternative matches anywhere, it is `firstLine` |
| Patterns.FoundIsLeftmost | index.js:195 | the scan finds the leftmost match and its length |
| Patterns.CenturyDigitsValue | index.js:195-197 | removing whitespace from a digit match leaves the digits followed by `世紀` |
| Patterns.CenturyFound | index.js:193-200 | when the text holds a century match, the value is one or two digits and `世紀`, or `西元前`, or `公元前` |
| Patterns.ScanIsLeftmost | index.js:195 | what the scan finds is the leftmost century match |
| Patterns.CenturyMatchValue | index.js:195-197 | every century match reduces to such a value |
| Patterns.DigitsCenturyValue | index.js:197 | one or two digits followed by `世紀` is a century value |
| Patterns.CenturyLeftmost | index.js:195 | any century match in the text starts at or after the one the scan finds |
| Patterns.LeadingDigits | index.js:207 | the length of the leading ASCII digit run |
| Patterns.StripIndexPrefix | index.js:207-210 | `replace(/^\d+\s*/, "")`: a suffix of the input; unchanged without leading digits; otherwise the digits and the whitespace after them are removed |
| Patterns.StripOtherSubjects | index.js:207 | `其他學科` and the whitespace after it are removed when the text starts with it, else the text is unchanged |
| Patterns.FirstFullClose | index.js:215 | the first `）` at or after a position |
| Patterns.HintNoteLen | index.js:215 | a length is returned exactly when the prefix of that length is one whole `（限25字[^）]*）` note, so the note is unique |
| Patterns.DeleteHintNotes | index.js:215 | deleting every note never lengthens the text; with its lemmas below (note deleted where it stands, text before `（` kept, a `（` starting no note kept) it is fixed on every input |
| Patterns.DeleteHintNotesNoOpen | index.js:215 | text without `（` is unchanged |
| Patterns.NoHintNoteAt | index.js:215 | text that does not start with `（` starts with no note |
| Patterns.DeleteHintNote | index.js:215 | a note in front of text is deleted whole |
| Patterns.DeleteHintNotesConcat | index.js:215 | text before the first `（` is kept as it is, and the deletion goes on after it |
| Patterns.OpenStartsHintNote | index.js:215 | a text opened by `（` starts like a note exactly when the text after the bracket reads `限25字` |
| Patterns.DeleteHintNotesOpenKept | index.js:215 | a `（` that starts no note (not followed by `限25字`, or with no `）` after it) is kept and the deletion goes on after it |
| Patterns.DeleteHintNotesExample | index.js:215 | `請寫出（一）的答案（限25字）` becomes `請寫出（一）的答案` |
| Patterns.DeleteHintNotesSubsequence | index.js:215 | deleting notes brings in no new character |
| Patterns.CleanHintLines | index.js:215 | each line has its notes deleted and is trimmed; a line without a line feed gives one without |
| Patterns.CleanHintLine | index.js:215 | one line with its notes deleted and trimmed: trimmed, and without a line feed when the input has none |
| Patterns.HintLine | index.js:214-216 | the hint value is the first line that is non-empty once its notes are deleted and it is trimmed; it has no line feed and is trimmed |
| Patterns.HintLineEmpty | index.js:214-216 | the hint value is empty exactly when every line is empty once its notes are deleted and it is trimmed |
| Patterns.DropPictureCaption | index.js:275 | `replace(/^圖片.*$/i, "")` empties a one-line caption starting with `圖片` and leaves other text unchanged |
| Patterns.IsPictureCaption | index.js:275 | `/^圖片.*$/i` without the m flag: `圖片` followed only by characters that are not line terminators |
| Patterns.LineEnd | index.js:276 | the first line terminator at or after a position |
| Patterns.LastFullClose | index.js:276 | the last `）` in a range |
| Patterns.ParenSpanLen | index.js:276 | a greedy `（.*）` span at the start runs from `（` to the last `）` before the first line terminator; without one, no `）` follows on that line |
| Patterns.DeleteParenSpans | index.js:276 | deleting every greedy span never lengthens the text; with its lemmas below (span cut where it stands, text before and after it kept, an unclosed `（` kept) it is fixed on every input |
| Patterns.DeleteParenSpansConcat | index.js:276 | text before the first `（` is kept as it is, and the deletion goes on after it |
| Patterns.DeleteParenSpansNoOpen | index.js:276 | text without `（` is unchanged |
| Patterns.DeleteParenSpansSubsequence | index.js:276 | deleting spans brings in no new character |
| Patterns.DeleteParenSpansNoSpan | index.js:276 | on one line, no `（…）` span is left, and no new character comes in |
| Patterns.LineEndNoTerminator | index.js:276 | on text without line terminators, a line runs to the end |
| Patterns.LineEndOffset | index.js:276 | the line end of a suffix is shifted by the length of the prefix |
| Patterns.LineEndSkip | index.js:276 | a stretch without line terminators does not move the line end |
| Patterns.ParenSpanLenClosed | index.js:276 | a `（`, terminator-free text and a `）` with no later `）` on the line is matched whole |
| Patterns.DeleteParenSpansSpan | index.js:276 | a span `（m）` is cut where it stands: the text before it is kept and the deletion goes on with the text after it |
| Patterns.DeleteParenSpansOpenKept | index.js:276 | a `（` with no `）` after it on its line is kept and the deletion goes on after it |
| Patterns.DeleteParenSpansExample | index.js:276 | `數學（國中）補充` becomes `數學補充` |
| Patterns.NormalizeTagValue | index.js:272-278 | a subject or type value has no whitespace and only characters of the first line; it is empty when the first line is a picture caption; a first line without `（` that is not a caption just loses its whitespace |
| Patterns.NormalizeTagValueSpan | index.js:272-278 | a first line `a（m）b` that is not a caption gives the whitespace-free `a` followed by the cleaned rest of `b` |
| Patterns.NormalizeTagValueNoSpan | index.js:272-278 | when the first line has no other line terminator, the value holds no `（…）` span |
| Patterns.NoSpanSlice | index.js:276-277 | a slice of span-free text is span-free |
| Patterns.NoSpanRemoveSpace | index.js:277 | removing whitespace cannot create a span |
| TaskSections.Titles | index.js:161 | the set of titles is exactly the titles of the entries |
| TaskSections.SegStep | index.js:165-174 | one step keeps the cursor on a recorded title |
| TaskSections.SegFold | index.js:165-174 | the cursor always names a recorded section |
| TaskSections.SegKeys | index.js:165-174 | a title has a section exactly when it is non-empty, a configured title, and a whole trimmed line of the text |
| TaskSections.SegInSection | index.js:168-173 | after a title line and before the next title line, the title's section is the non-empty lines since it, joined with line feeds |
| TaskSections.SegUntouched | index.js:168-173 | while the cursor is elsewhere and the title's line does not come back, its section stays as it is |
| TaskSections.SegLastOccurrence | index.js:165-174 | a title's section is the non-empty lines after its last occurrence, up to the next title line or the end; lines before the first title are lost |
| TaskSections.SingleLineValue | index.js:183-213 | the single-line rules never produce a line feed |
| TaskSections.LevelNoLineFeed | index.js:185-192 | the level value has no line feed |
| TaskSections.CenturyNoLineFeed | index.js:193-200 | the century value has no line feed |
| TaskSections.FieldValue | index.js:180-222 | every stored value is trimmed |
| TaskSections.FieldValueOneLine | index.js:183-216 | single-line fields and `missionHintSet*` fields never hold a line feed |
| TaskSections.TaskKeys | index.js:177-223 | a field name is in the record exactly when some entry with that name has a non-empty section, even if its value normalises to `""` |
| TaskSections.TaskLastWins | index.js:177-223 | the value stored under a name comes from the last entry with that name that gives a field |
| TaskSections.TaskFold | index.js:177-223 | every stored name is non-empty and there are no more names than entries |
| TaskSections.ParseTask | index.js:160-225 | every stored name is non-empty, every value is trimmed, and there are no more names than entries |
| TaskSections.TaskValuesTrimmed | index.js:222 | every value in the record is trimmed |
| TaskSections.TaskSingleLines | index.js:183-222 | no single-line or hint value in the record holds a line feed |
| TaskSections.ParseTaskSections | index.js:160-225 | the method computes `ParseTask` |
| TaskSections.FillTask | index.js:176-224 | the entry loop computes the record fold |
| TaskSections.SplitSections | index.js:162-174 | the cursor loop computes the section fold over the trimmed lines |
| Cards.Set | index.js:256 | writing one field changes that field and no other |
| Cards.CardLines | index.js:238 | the card parser sees exactly the trimmed lines with content: each is non-empty, trimmed and a trimmed input line, and every input line with content is there trimmed |
| Cards.CardLinesCons | index.js:238 | lines are taken in order: the first line, trimmed, when it has content, then the lines of the rest |
| Cards.NormalizeLine | index.js:265 | a present title or syllabus becomes its `firstLine`: one trimmed line, empty exactly when it was all whitespace |
| Cards.NormalizeTag | index.js:272-285 | a present subject or type is `NormalizeTagValue` of it: it loses all whitespace, keeps only characters of its first line, is emptied by a picture caption, and is its whitespace-free first line when that has no `（`; an absent one stays absent |
| Cards.NormalizeDescription | index.js:266-270 | a present description becomes one trimmed line: the first line of the note-stripped, cleaned text |
| Cards.DescriptionIsFirstLine | index.js:266-270 | the `split`/`trim`/`filter(Boolean)[0]` chain equals `firstLine` of the cleaned text |
| Cards.NormalizeCard | index.js:264-289 | title and syllabus become their `firstLine`, the description the first line of its cleaned, note-stripped text; subject and type are `NormalizeTag` of their fields, so the caption and span rules reach the card; the image is untouched; absent fields stay absent |
| Cards.NormalizeAll | index.js:264-289 | every card is normalised in place, in order |
| Cards.TakeCards | index.js:292 | `slice(0, 12)`: the first `min(n, 12)` cards |
| Cards.ParseCardsSpec | index.js:228-293 | at most twelve cards, the first raw cards in order, each normalised |
| Cards.ParseCards | index.js:228-293 | the method computes `ParseCardsSpec` |
| Cards.SplitCards | index.js:243-261 | the label loop and the final push compute the raw cards |
| Cards.NormalizeList | index.js:264-289 | the array of cards ends up normalised |
| Cards.NormalizeCards | index.js:264-289 | the in-place loop leaves every array element normalised |
| Cards.CardsHaveContent | index.js:247-248 | every emitted card has a title or a description |
| Cards.NoSentinelNoCards | index.js:244-246 | with `卡片名稱` missing from the label list, no card is ever opened or returned |
| Cards.CardCountBound | index.js:246-250 | there are no more cards than `卡片名稱` lines |
| Cards.CardInBlock | index.js:243-257 | after a `卡片名稱` line, each field of the open card is the lines under that field's labels, joined with line feeds, and the cursor is the last label's field |
| Cards.BlockStep | index.js:252-256 | one line inside a block keeps that correspondence |
| Cards.BlockStart | index.js:246-252 | a `卡片名稱` line opens an empty card whose cursor is the title field |
| Cards.BlockExtend | index.js:243-257 | a block grows by one line that is not a `卡片名稱` line, and the correspondence still holds |
| Cards.CardFoldSnoc | index.js:243-257 | the loop state after one more line is one more step |
| Cards.CardClosed | index.js:246-250 | a `卡片名稱` line emits the open card when it has content and opens an empty one |
| Cards.StepEffects | index.js:243-257 | only a `卡片名稱` label line changes the card list or opens a card; a content line changes nothing unless a card and a field are both active |
| Cards.CardStep | index.js:244-257 | a label line moves the field cursor to its key; `卡片名稱` emits the open card if it has content and opens an empty one; any other line keeps the list and whether a card is open, and without a card and a field it changes nothing |
| Cards.CardFold | index.js:243-257 | a card is open at the end exactly when `卡片名稱` is a label and occurs among the lines; with no open card the list is empty |
| PostProcess.WithSyllabus | index.js:300-306 | a card without a syllabus gets the task's syllabus; every other card is unchanged |
| PostProcess.SyllabusKept | index.js:300-306 | cards that have a syllabus keep it; with a task syllabus, every card ends with a non-empty one; only the syllabus changes |
| PostProcess.SyllabusIdempotent | index.js:300-306 | filling twice is filling once |
| PostProcess.PropagateSyllabus | index.js:300-306 | the in-place loop produces `WithSyllabus` when the task has a syllabus, and changes nothing otherwise |
| PostProcess.WithImages | index.js:317-318 | card `i` gets image `i` while both exist |
| PostProcess.ImagesByPosition | index.js:317-318 | exactly the first `min(#cards, #images)` cards get their own image; later cards are untouched; no text field changes |
| PostProcess.AttachImages | index.js:317-318 | the in-place loop produces `WithImages` |
| PostProcess.Decimal | index.js:319 | the decimal digits of a number, without a leading zero |
| PostProcess.CardTag | index.js:319 | the tag is digits, a `-`, and one column digit from `1` to `4` |
| PostProcess.DecimalRoundTrip | index.js:319 | reading the digits back gives the number |
| PostProcess.TagRoundTrip | index.js:319 | a tag `row-column` reads back as its card index |
| PostProcess.TagInjective | index.js:319 | different card positions have different tags |
| PostProcess.TagOfTwelve | index.js:1153 | the twelve card positions have three-character tags `1-1` to `3-4` |
| PostProcess.ParseWord | index.js:295-322 | the task record is `ParseTask`; the cards are the parsed cards after the syllabus and image loops |
| PostProcess.FinishCards | index.js:300-321 | the two loops run on an array copy of the cards |
| Helpers.CssEscape | index.js:41-43 | escaping never shortens the text, and empty stays empty; with `CssEscapeChar` and `CssEscapeConcat` it is fixed on every input |
| Helpers.CssEscapeChar | index.js:42 | a quote or a backslash gets one backslash in front of it; any other character is copied as it is |
| Helpers.CssEscapeConcat | index.js:42 | the global replace works character by character: the escape of a concatenation is the concatenation of the escapes |
| Helpers.CssRoundTrip | index.js:41-43 | unescaping the escaped string gives the original back |
| Helpers.CssEscapeLength | index.js:41-43 | the output is one character longer per quote or backslash; text without them is unchanged |
| Helpers.Collapse | index.js:46 | `replace(/\s+/g, " ")`: whitespace remains only as single spaces, the non-whitespace text is unchanged, and the result starts with a space exactly when the input starts with whitespace; `CollapseRun` and `CollapseConcat` place each space |
| Helpers.CollapseCollapsed | index.js:46 | text that is already collapsed is unchanged |
| Helpers.CollapseRun | index.js:46 | a whitespace run before a non-space becomes one space |
| Helpers.CollapseConcat | index.js:46 | text that ends in a non-space collapses independently of what follows |
| Helpers.CollapseWord | index.js:46 | a word has nothing to collapse |
| Helpers.CollapseWords | index.js:46 | two words with whitespace between them get one space between them |
| Helpers.PreviewText | index.js:46 | the normalised text is collapsed and trimmed, and its non-whitespace text is that of the input; `PreviewTextWords` fixes where the space between two words goes |
| Helpers.PreviewTextIdempotent | index.js:46 | normalising twice is normalising once |
| Helpers.PreviewTextWords | index.js:46 | two words with whitespace between them are shown with one space between them |
| Helpers.PreviewTextTab | index.js:46 | `a\tb` is shown as `a b` |
| Helpers.Preview | index.js:45-48 | at most `n + 3` characters; short text is shown whole; longer text is its first `n` characters followed by `...`; the width is a parameter, and callers that rely on the default pass 36 |
| Helpers.MapDropdownValue | index.js:620-640 | the table's translation when the field's table has a non-empty one for the value, else the value itself |
| Helpers.SharedTables | index.js:624-631 | main and card subjects share one table, and so do both syllabus fields |
| Helpers.MapKeepsContent | index.js:636-639 | a non-empty value never maps to `""` |

## Left out

- Reading the document with mammoth (`extractRawText`, `extractCardImages`): the raw text and the image list are parameters of `PostProcess.ParseWord`.
- All browser automation through puppeteer, and with it the DOM-side option matching: it is UI work with time-outs.
- File-system work (`saveImageToTemp`, the Chrome path, the user-data directory), command-line parsing, prompts, loading the mapping file and all console logging: these are process I/O. The log messages that print a card's tag are dropped; the tag itself is `PostProcess.CardTag`.
- Lengths are counted in Unicode characters, not UTF-16 code units. Every character the code matches on is in the Basic Multilingual Plane, so no match changes. The one place a count shows is the cut of `preview`, which for text with characters outside that plane cuts at a different place than JavaScript would.
- Properties that JavaScript objects inherit: a title or label such as `constructor` is looked up as an ordinary key in the model.
- The ordering JavaScript gives integer-like object keys: the task mapping is an ordered list, and the model keeps it in the given order.
- Card fields: a missing field and an empty field are both `""`. Cards are values, not shared objects, so aliasing between the returned list and other references is not modelled.
- `preview`: a `null` or `undefined` argument (`s || ""`) is not modelled; the argument is a string.
- `cssEscape`: `String(s)` conversion of non-strings is not modelled.
- `mapDropdownValue`: the `mapping.dropdown` tables are string-to-string maps; non-string JSON values are not modelled.
- Patterns.NormalizeTagValueNoSpan: the no-`（…）` guarantee is stated only for a first line free of `\r`, U+2028 and U+2029. Because `.` stops at those characters, the greedy pattern cannot span them, so `"（\r）"` keeps both brackets.
- The card-label list is taken as already chosen (`Cards.Labels` of the override); reading `mapping.__cardLabels` from the mapping file is I/O.
