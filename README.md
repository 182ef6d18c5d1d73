# DEB – Emoji Describer, modelled in Dafny

DEB is a desktop application that helps a blind user learn what emoji
and other characters look like. The user types characters into an input
line and presses "Identify". Every character that has a Unicode name is
listed as "c - NAME". The user can then ask the Gemini language model to
describe the selected character ("Describe Selected") or all of them
("Describe All"). The reply is cleaned up and shown in a results panel,
under a heading and followed by a notice that the text was generated.

This project models the core of the main window class, `EmojiDescriberApp`,
and the reply formatter `process_gemini_response`:

- `ResponseFormat` models the formatter. A line that starts with optional
  whitespace followed by "* " gets that marker replaced by "• ", keeping the
  whitespace. Then every remaining asterisk is deleted. The regular
  expression is modelled line by line, with Python's `\s` spelled out as the
  characters `str.isspace()` accepts. A separate reference predicate
  (`MatchesAt`) says what the pattern `^(\s*)\* ` matches, and it is
  proved to agree with the greedy reading.
- `Items` holds the identified characters. The backing list holds
  (character, name) records and the list widget holds one row per record.
  Identification is modelled as a function of the input text. A row's
  removal takes the same index out of both lists.
- `Prompts` builds the texts around the language model: the single and
  batch prompts, the headings, and the text shown in the results panel.
- `Text` provides the Python built-ins those texts use: `", ".join`, the
  substring test, and `str(n)`.
- `App` holds the class `EmojiDescriber`. Its fields are the values the
  widgets hold:
  - the input line, the two lists, and the selected row;
  - the results text and the status bar;
  - whether the detail panel has been revealed;
  - whether a request is in flight, and what it carries;
  - whether the key file exists;
  - the enabled flags of the controls.

  Each action of the window is a method. It states the whole new state and
  keeps the class invariant `Valid()`: the lists stay index-aligned, the
  selection names an existing row, and the input controls are enabled
  exactly while no request is in flight.

The Unicode name database (`unicodedata.name`) is a parameter of type
`char -> Option<string>`; `None` stands for the `ValueError` it raises. The
language model's reply and its error message are parameters of the two
completion methods.

## Model

| member | source | states |
|---|---|---|
| `ResponseFormat.Process` | deb102source.py:77-79 | the formatted reply holds no asterisk and is never longer than the raw reply |
| `ResponseFormat.ProcessByLines` | deb102source.py:77-79 | formatting works line by line: the output has the reply's lines, each formatted on its own, and splitting the output gives exactly those formatted lines |
| `ResponseFormat.BulletKeepsIndent` | deb102source.py:78-79 | a bullet line of the reply becomes, at the same line number, its own leading whitespace, then "• ", then the rest of the line without asterisks |
| `ResponseFormat.PlainLineStripped` | deb102source.py:78-79 | any other line only loses its asterisks, at the same line number |
| `ResponseFormat.ProcessStarFree` | deb102source.py:77-79 | a reply without asterisks comes back unchanged |
| `ResponseFormat.ProcessIdempotent` | deb102source.py:77-79 | formatting a formatted reply changes nothing |
| `ResponseFormat.ProcessTwoBullets` | deb102source.py:77-79 | two "* " lines with plain text become two "• " lines with the same text |
| `ResponseFormat.ProcessBulletsExample` | deb102source.py:77-79 | "* d1\n* d2" becomes "• d1\n• d2" |
| `ResponseFormat.PlainProcess` | deb102source.py:77-79 | a single line that is not a bullet line only loses its asterisks |
| `ResponseFormat.ProcessInlineExample` | deb102source.py:79 | asterisks inside a line are deleted: "a*b*c" becomes "abc" |
| `ResponseFormat.BulletLineMatches` | deb102source.py:78 | the regex `^(\s*)\* ` matches a line exactly when it is a bullet line, and any match's group is the whole leading whitespace |
| `ResponseFormat.LeadLen` | deb102source.py:78 | the greedy `\s*` run: within the line, all whitespace, and followed by a non-space character or the end of the line |
| `ResponseFormat.BulletLine` | deb102source.py:78 | substituting the marker of one line keeps its length |
| `ResponseFormat.BulletLines` | deb102source.py:78 | the substitution applied to each line, in order, one output line per input line |
| `ResponseFormat.Bulletize` | deb102source.py:78 | the multiline substitution keeps the reply's length ("* " and "• " are both two characters) |
| `ResponseFormat.FormatLine` | deb102source.py:78-79 | a formatted line holds no asterisk and gains no line break |
| `ResponseFormat.FormatLines` | deb102source.py:78-79 | each line formatted, in order, one output line per input line |
| `ResponseFormat.FormatBulletLine` | deb102source.py:78-79 | substituting the marker and then deleting asterisks is formatting the line |
| `ResponseFormat.LeadHasNoStar` | deb102source.py:78 | the leading whitespace that a bullet keeps holds no asterisk |
| `ResponseFormat.Lines` | deb102source.py:78 | the lines `re.MULTILINE` anchors at: at least one, none holding a line break |
| `ResponseFormat.UnlinesLines` | deb102source.py:78 | joining the lines of a text with "\n" gives the text back |
| `ResponseFormat.LinesUnlines` | deb102source.py:78 | splitting joined break-free lines gives the lines back |
| `ResponseFormat.LinesOfPrefix` | deb102source.py:78 | a break-free start of a text belongs to the text's first line |
| `ResponseFormat.LinesChars` | deb102source.py:78 | every character of a line is a character of the text |
| `ResponseFormat.UnlinesLength` | deb102source.py:78 | lines of the same lengths join to texts of the same length |
| `ResponseFormat.IsSpace` | deb102source.py:78 | the characters `\s` matches in a str pattern, which are those `str.isspace()` accepts: the controls 0x09-0x0D and 0x1C-0x1F, space, U+0085, U+00A0, U+1680, U+2000-U+200A, U+2028, U+2029, U+202F, U+205F and U+3000 |
| `ResponseFormat.AllSpace` | deb102source.py:78 | every character of the run is one `\s` matches, like the group `(\s*)` |
| `ResponseFormat.MatchesAt` | deb102source.py:78 | the reference reading of `^(\s*)\* ` on one line: a group of k whitespace characters, then "*", then a space |
| `ResponseFormat.IsBulletLine` | deb102source.py:78 | the line's whole leading whitespace run is followed by "* " |
| `ResponseFormat.Unlines` | deb102source.py:78 | the lines joined with "\n", the inverse of the split `Lines` |
| `ResponseFormat.StripStars` | deb102source.py:79 | `replace('*', '')` leaves no asterisk and never lengthens the text |
| `ResponseFormat.StripStarsChars` | deb102source.py:79 | a character survives exactly when it was in the text and is not an asterisk |
| `ResponseFormat.StripStarsFree` | deb102source.py:79 | a text without asterisks is left as it is |
| `ResponseFormat.StripStarsAppend` | deb102source.py:79 | deleting asterisks from two joined texts is deleting them from each |
| `ResponseFormat.StripLines` | deb102source.py:79 | asterisks deleted from each line, in order |
| `ResponseFormat.StripStarsUnlines` | deb102source.py:79 | deleting asterisks from joined lines is deleting them line by line |
| `ResponseFormat.BulletExampleLine` | deb102source.py:78-79 | "* x" with a plain rest formats to "• x" |
| `Items.Classify` | deb102source.py:268-272 | never more items than input characters |
| `Items.ClassifyNamed` | deb102source.py:268-272 | each item's character comes from the input, and its name is the name the database gives that character |
| `Items.ClassifyCounts` | deb102source.py:268-272 | a named character occurs among the items as often as in the input, an unnamed one not at all |
| `Items.ClassifyAllNamed` | deb102source.py:268-272 | when every character has a name, item i is input character i with its name |
| `Items.ClassifyAppend` | deb102source.py:268-272 | identifying a text piece by piece gives the same items in the same order |
| `Items.ClassifySnoc` | deb102source.py:268-272 | one more character appends its item if it has a name, and adds nothing otherwise |
| `Items.Characters` | deb102source.py:270 | the characters of the items, position by position |
| `Items.CharactersCons` | deb102source.py:270 | an item in front puts its character in front |
| `Items.DisplayLine` | deb102source.py:271 | the row for an item: its character, " - ", then its name |
| `Items.Aligned` | deb102source.py:270-271 | the list widget's rows are, index for index, the display lines of the backing list's records |
| `Items.DisplayLineInjective` | deb102source.py:271 | two items with the same row are the same item |
| `Items.DisplayLines` | deb102source.py:271 | one row per item |
| `Items.DisplayLinesAt` | deb102source.py:271 | row i names item i |
| `Items.DisplayLinesSnoc` | deb102source.py:270-271 | appending an item and its row keeps the two lists aligned |
| `Items.RemoveAt` | deb102source.py:287-288 | `del xs[i]` shortens the list by one |
| `Items.RemoveAtIndex` | deb102source.py:287-288 | the elements before i stay in place, the later ones move one place up |
| `Items.RemoveAtMultiset` | deb102source.py:287-288 | exactly one occurrence of the removed element is lost |
| `Items.RemoveKeepsAligned` | deb102source.py:287-288 | removing the same index from both lists keeps them aligned |
| `Prompts.SinglePrompt` | deb102source.py:308 | "Describe the ", the character, " emoji (", the name, then ") visually, for a blind person, in one concise sentence." |
| `Prompts.SinglePrefix` | deb102source.py:309 | "Description for ", the character, then ":" and two line breaks |
| `Prompts.BatchIntro` | deb102source.py:314 | the introduction "For each of the following, provide a one-sentence visual description for a blind person: " |
| `Prompts.BatchPrefix` | deb102source.py:315 | the heading "Descriptions:" and two line breaks |
| `Prompts.Part` | deb102source.py:313 | one item of the batch: the character, " (", the name, ")" |
| `Prompts.BatchPrompt` | deb102source.py:313-314 | the introduction followed by the parts of all items, in order, joined with ", " |
| `Prompts.Disclaimer` | deb102source.py:337 | the notice: two line breaks, "---", a line break, then "AI-Generated. Verify important information." |
| `Prompts.Displayed` | deb102source.py:337 | the results text: the heading, then the description, then the notice |
| `Prompts.BatchPromptOne` | deb102source.py:313-314 | the batch prompt for one item is the introduction followed by that item's part |
| `Prompts.BatchPromptSnoc` | deb102source.py:313-314 | each further item adds ", " and its part at the end, so the parts follow the item order |
| `Prompts.SinglePromptInjective` | deb102source.py:308 | different items give different single prompts |
| `Prompts.DisplayedParts` | deb102source.py:337 | the heading, the formatted reply and the notice can each be read back from the results text |
| `Text.JoinWith` | deb102source.py:314 | Python's `sep.join`: no separator for zero or one string, one separator between each pair |
| `Text.OccursAt` | deb102source.py:344 | the pattern appears in the text at the given offset, the reference definition for the substring test |
| `Text.Contains` | deb102source.py:344 | Python's substring test `t in s` |
| `Text.Map` | deb102source.py:313 | a list comprehension keeps the length and maps each position |
| `Text.MapSnoc` | deb102source.py:313 | mapping one more element appends its image |
| `Text.JoinSnoc` | deb102source.py:314 | `sep.join` of one more string appends the separator and the string |
| `Text.ContainsAt` | deb102source.py:344 | the substring test holds exactly when the text occurs at some offset |
| `Text.IsDigit` | deb102source.py:278 | a character among '0' to '9', the characters `str(n)` writes |
| `Text.DecimalValue` | deb102source.py:278 | the number a string of decimal digits denotes, read most significant digit first, as `int(s)` reads it |
| `Text.Digit` | deb102source.py:278 | a digit's character is a digit character with that value |
| `Text.DigitValue` | deb102source.py:278 | a digit character's value is below ten |
| `Text.NatToString` | deb102source.py:278 | `str(n)` is a non-empty string of digits with no leading zero unless n is zero |
| `Text.NatToStringRoundTrip` | deb102source.py:278 | reading back the digits of `str(n)` gives n |
| `App.Message` | deb102source.py:266-347 | the status-bar texts of lines 266, 278, 280, 298, 319, 338 and 347, one per status; `Found n` shows `str(n)` |
| `App.InvalidKeyMarker` | deb102source.py:344 | the text "API key not valid" that marks a rejected key |
| `App.EmojiDescriber.Valid` | deb102source.py:253-288 | the records and the rows stay aligned (270-271, 287-288); a selection names an existing row; a request is in flight exactly while busy; the input controls are enabled exactly while idle (243-246) |
| `App.EmojiDescriber.ButtonsFollowState` | deb102source.py:253-259 | the rule of `update_button_states`: "Describe Selected" is on exactly when idle with a selection, "Describe All" exactly when idle with at least one row, "Clear All" exactly when idle |
| `App.FoundMessageCount` | deb102source.py:278 | the count can be read back from the "Found n character(s)." message |
| `App.EmojiDescriber.constructor` | deb102source.py:117-129 | the window after start-up: all lists and texts empty, panel hidden, idle, key stored, the ready message, the invariant and the button rule hold |
| `App.EmojiDescriber.UpdateButtonStates` | deb102source.py:253-259 | "Describe Selected" needs an idle window and a selection, "Describe All" an idle window and a non-empty list, "Clear All" an idle window |
| `App.EmojiDescriber.SetControlsEnabled` | deb102source.py:242-251 | the input controls take the flag; the three buttons follow the rule, and are all off when the flag is false |
| `App.EmojiDescriber.SetInput` | deb102source.py:262 | the input line holds the text the user typed |
| `App.EmojiDescriber.Select` | deb102source.py:185 | selecting a row updates the selection and the buttons and keeps the invariant |
| `App.EmojiDescriber.Identify` | deb102source.py:261-281 | the items are the named characters of the input, in order, with the rows aligned; selection and results are cleared; the panel is revealed once there are items; a non-empty input ends with the count or "none found" and the button rule. An empty input sets its message and returns before the final `update_button_states`. If a row was selected, the list's `clear()` at line 263 first drops the selection, and the selection signal (line 185) runs `update_button_states` while the old rows are still counted: "Describe Selected" goes off, "Describe All" follows the old row count, "Clear All" follows busy. With no selection the three flags stay as they were |
| `App.EmojiDescriber.AppendNamed` | deb102source.py:268-272 | the loop leaves the items equal to the named characters of the text, with the rows aligned |
| `App.EmojiDescriber.ReportIdentified` | deb102source.py:274-281 | the panel is revealed once there are items, the status gives the count or says none were found, and the buttons follow the rule |
| `App.EmojiDescriber.DeleteSelected` | deb102source.py:283-289 | the selected row leaves both lists at the same index; without a selection the lists are unchanged |
| `App.EmojiDescriber.ClearAll` | deb102source.py:291-299 | input, lists, selection and results are empty, the panel is hidden, the ready message shows, and the buttons follow the rule |
| `App.EmojiDescriber.RunTask` | deb102source.py:317-319 | the request is in flight with its prompt and heading, every control is off, and the working message shows |
| `App.EmojiDescriber.DescribeOne` | deb102source.py:301-309 | without a selection nothing changes; otherwise the selected item's prompt and heading are sent |
| `App.EmojiDescriber.DescribeAll` | deb102source.py:311-315 | with no items nothing changes; otherwise the batch prompt over all items is sent under "Descriptions:" |
| `App.EmojiDescriber.OnTaskFinished` | deb102source.py:336-340 | the results show the request's heading, the description and the notice; the request is over and the controls come back |
| `App.EmojiDescriber.ReplyArrived` | deb102source.py:330-340 | a reply is formatted by `process_gemini_response` and shown under the request's heading with the notice; the request is over, the loaded message shows, the input controls are back and the buttons follow the rule |
| `App.EmojiDescriber.OnTaskError` | deb102source.py:342-349 | an error saying "API key not valid" removes the stored key, any other leaves it; the request is over, the error message shows and the controls come back |

## Left out

- Qt itself is not modelled: layout, widgets, focus, keyboard simulation, window geometry, message boxes and dialogs. Only the values the core reads and writes are kept.
- The worker thread and the signal plumbing are not modelled. A request is one `RunTask` followed by one completion (`OnTaskFinished`/`ReplyArrived` or `OnTaskError`). The completion does not run concurrently with user actions, since the controls are off while a request is in flight.
- The Gemini SDK call, model loading, API key configuration and the `google.generativeai` import are left out. The reply text and the error message are parameters.
- Persistence is left out: reading and writing the key file, the APPDATA directory, the key dialog, `check_api_key` and `sys.exit`. Whether the key file exists is the boolean `keyStored`. The constructor starts from an obtained key.
- `check_dependencies`, `webbrowser` and `showEvent` are left out, because they have no effect on the model's state.
- `simulate_tab_press` is left out. When the simulated tab press raises, it shows "Auto-focus failed: …" on the status bar for 5000 ms (line 238), replacing the "Ready." message. The model's status stays `Ready`, because the keyboard library's failure is outside the model.
- The Unicode name database is the parameter `nameOf` and is not spelled out.
- Status-bar message timeouts (3000, 4000 and 5000 ms) are not modelled. The status holds the last message shown.
- The progress bar is replaced by the explicit flag `busy`, true exactly while a request is in flight. The program instead reads `progress_bar.isVisible()` in `update_button_states`. That bar is added to the status bar at lines 220-222 and is first hidden at line 339 or 348, when a request completes. So once the window is shown, the program reads itself as busy. The first Identify then turns all three buttons off, and they stay off until a request completes. Such a request can only be started by activating a row (line 186). The model does not reproduce this and takes the evident intent instead.
- The list widget is taken in its default single-selection mode. `DeleteSelected` therefore removes at most one row, and `DescribeOne` uses that row. The selection after a removal is modelled as cleared. This is the model's simplification, not the program's behaviour. In single-selection mode Qt most likely moves the current row to a neighbour of the removed row and selects it when `takeItem` runs (line 287). The `update_button_states` call at line 289 would then leave "Describe Selected" on, and a second Delete would remove that neighbour.
- Error dialogs and the "API Key Removed" message box are left out. Only their effect on the stored key is kept.
- The list's signals are not separate events in the model. Activating a row (line 186) runs `DescribeOne`, the same action as the "Describe Selected" button. The Delete key (line 187) is the only way to reach `delete_selected_item`, modelled as `DeleteSelected`. Pressing Enter in the input line (line 166) runs `Identify`, as the button does.
- Python strings can hold lone surrogate code points, but a Dafny `char` is a Unicode scalar value. Input holding a lone surrogate is outside the model.
