# tuixel — a verified model of its panels and the crontab codec

tuixel is a terminal dashboard for a Linux server. It has a home screen, a cron panel with
an edit form and an edit popup, a users panel read from passwd(5), a MySQL panel with tabs,
a web-server status panel and a settings panel. Every panel reacts to keys and to `Action`
messages, and every panel draws a footer of keybindings.

This project models, in Dafny:

- **The crontab codec** (`cron_utils.dfy`, `crontab_properties.dfy`).
  - `from_crontab` reads the `crontab -l` listing into records. A trimmed `#` line becomes
    the pending description. A line of at least six words becomes a record: five schedule
    fields and a command. Any other line is skipped.
  - `save_to_crontab` writes the records back, one entry per record with a non-empty
    command.
  - Both loops are imperative methods, proved against left-fold specification functions.
  - Around them are lemmas for record shape, order, comment attachment and the omission
    of empty commands, the exact written layout, and the round trip
    `ParseCrontab(CrontabText(jobs)) == Refreshed(Emitted(jobs))`.
  - The cron libraries are one parameter, `CronEnv`: the parser, the formatter, the
    describer and one clock reading.
- **The cron edit form** `Inputs` (`cron_edit.dfy`). A class whose key handler commits
  straight into the job list and returns the crontab text it saves.
  - Validation reads the *trimmed* first line of the schedule buffer.
  - The committed record uses the *untrimmed* mirror string.
  - `ValidationTrimsRecordDoesNot` shows that the two differ for every parser that accepts
    the trimmed mirror and rejects the untrimmed one: the schedule validates, but its record's
    next run reads "Invalid cron expression". `HandleInputs` states the same of the record its
    's' branch commits, and `LeadingSpaceMismatch` gives such a parser and mirror.
- **The cron popup** `CronPopup` (`cron_popup.dfy`). A four-field form
  driven by actions and keys.
  - Its sender is a ghost outbox: the sequence of actions sent so far.
  - Every message in the outbox can be read back by the popup's own `PassData` handler.
- **The footer wrapper** of `draw.rs` (`draw.dfy`). A loop proved equal to a greedy
  layout function, and lemmas about that function: every pair appears once and in order,
  lines break only where the next pair would not fit, no line is empty, and only a lone
  pair may exceed the width.
- **The passwd filter** (`users_utils.dfy`) and **the users panel** (`users.dfy`).
- **The MySQL panel** (`mysql.dfy`) and **its users list** (`mysql_users.dfy`).
- **The enable/disable handlers** of the home, cron, web-server and settings panels
  (`home.dfy`, `cron.dfy`, `webserver.dfy`, `settings.dfy`).
- **Helpers:**
  - `text.dfy`: Rust `str` semantics, namely `trim`, `split_whitespace`, `split`,
    `lines`, `join`, `contains`, `replace(pat, "")`, UTF-8 byte length and `chars().chunks(n)`;
  - `decimal.dfy`: `i32` text;
  - `actions.dfy`: the messages and key codes;
  - `text_area.dfy`: the text widget, kept abstract;
  - `wrappers.dfy`: `Option` and `Result`.

`Module` and `Action` are the union of the variants the components use.
`src/action.rs` declares only `Home`, `Cron` and `CronPopup`, while other files use
`Users`, `MySql`, `Webserver` and `Settings`. The focus-advance action is spelled three
ways: `SwtichInput`, `SwitchElement` and `SwtichElement`. The model keeps these as three
distinct variants, and each component reacts to the spelling it uses.

A panic in the source is a precondition in the model. The panics are:

- `len() - 1` on an empty list;
- `selected().unwrap()`;
- `cron[0].parse().unwrap()`;
- `command_tx.unwrap()`;
- indexing a `Vec` out of range: `cron[1]`, `cron[2]` and `cron[3]` on a `PassData` message of one to three fields (src/components/cron_popup.rs:222-224), which `Receivable` excludes by asking for at least four fields, and `cron_jobs[selected]` with a selection outside the list (src/components/cron/edit.rs:91 and 169), which `HandleInputs` and `Init` exclude by asking for `selected.value < |cronJobs|`.

## Model

| member | source | states |
|---|---|---|
| CronUtils.GetNextExecution | src/components/cron/utils.rs:11-22 | total: the fixed "Invalid cron expression" exactly when the parser rejects the expression at the clock reading, otherwise the formatted next instant |
| CronUtils.GetHumanReadableCron | src/components/cron/utils.rs:24-48 | checks in order: blank input gives "Cron expression is empty"; a parse failure or a ',' gives "Unable to generate human-readable format"; a describer error or panic becomes an error text; success exactly when all checks pass and the describer succeeds, with its text |
| CronUtils.CommentText | src/components/cron/utils.rs:89 | the comment text is trimmed and no longer than the line, and strictly shorter when the line starts with '#' |
| CronUtils.RecordOf | src/components/cron/utils.rs:97-104 | the description is the pending comment, or empty without one; the next run is that of the schedule; when all words are words, the schedule splits back to the first five and the non-empty command to the rest |
| CronUtils.ScanLine | src/components/cron/utils.rs:81-107 | one line adds at most one record and keeps the earlier records as they were |
| CronUtils.ScanLines | src/components/cron/utils.rs:80-108 | records are only appended, at most one per line |
| CronUtils.ParseCrontab | src/components/cron/utils.rs:80-108 | never more records than lines |
| CronUtils.FromCrontab | src/components/cron/utils.rs:50-111 | a run failure is passed on; a failed listing whose stderr contains "no crontab for" gives exactly the one "User has no crontab" record; any other failed listing gives "Failed to read crontab"; a successful listing gives the fold `ParseCrontab` over its lines |
| CronUtils.SaveToCrontab | src/components/cron/utils.rs:113-127 | the text built equals `CrontabText`, the fold over the records |
| CronUtils.EmitEntry | src/components/cron/utils.rs:117-125 | a record with an empty command writes nothing; any other appends text ending in a newline |
| CronUtils.EmitAll | src/components/cron/utils.rs:116-126 | the text only grows, and text empty or ending in a newline still is |
| CronUtils.EmitAllUnchanged | src/components/cron/utils.rs:117 | the text is unchanged exactly when no record has a command |
| CronUtils.CrontabText | src/components/cron/utils.rs:116-126 | empty exactly when no record has a command, and otherwise ending in a newline |
| CronUtils.ConstraintLenCalculator | src/components/cron/utils.rs:138-166 | each component is at least every item's width of its field and equal to one of them; 0 for no items |
| CrontabProperties.ScanAppend | src/components/cron/utils.rs:80-108 | reading `a + b` is reading `b` from the state left by `a` |
| CrontabProperties.ScanLast | src/components/cron/utils.rs:80-108 | reading one more line is one more loop pass |
| CrontabProperties.RecordShape | src/components/cron/utils.rs:91-106 | a record built from six or more words has a 5-word single-spaced schedule, a non-empty single-spaced command, a trimmed description and the next run of its schedule |
| CrontabProperties.ScanShape | src/components/cron/utils.rs:80-108 | the loop keeps every record well shaped |
| CrontabProperties.ParseShape | src/components/cron/utils.rs:80-108 | every record parsed from any text is well shaped |
| CrontabProperties.ScanOrder | src/components/cron/utils.rs:80-108 | the records' (schedule, command) pairs are those of the job lines, in line order |
| CrontabProperties.ParseOrder | src/components/cron/utils.rs:80-108 | parsing a text yields its job lines' entries in order |
| CrontabProperties.SkippedLinesKeepState | src/components/cron/utils.rs:84-95 | blank lines and short lines change neither the pending comment nor the records |
| CrontabProperties.CommentsPending | src/components/cron/utils.rs:88-89 | without job lines, the pending comment is the text of the last comment line, or unchanged when there is none |
| CrontabProperties.CommentAttachment | src/components/cron/utils.rs:88-106 | a job line after comment lines gets the last comment as its description and clears it |
| CrontabProperties.JobConsumesComment | src/components/cron/utils.rs:104 | of two job lines separated by skipped lines, only the first gets the pending comment |
| CrontabProperties.NoJobLineNoRecord | src/components/cron/utils.rs:80-108 | lines without a job line add no record, so a trailing comment is dropped |
| CrontabProperties.EntryText | src/components/cron/utils.rs:121-124 | an entry's text is "# desc\n" when the description is non-empty, then "schedule command\n" |
| CrontabProperties.PlainAfter | src/components/cron/utils.rs:121-124 | a written line, a newline-free prefix before a non-empty trimmed newline-free text, holds no newline and does not end in '\r' |
| CrontabProperties.SectionText | src/components/cron/utils.rs:118-119 | a later entry is preceded by an empty line |
| CrontabProperties.EmitSection | src/components/cron/utils.rs:116-126 | after existing text, a record with a command adds one separating newline and then its own lines |
| CrontabProperties.EmitAfterText | src/components/cron/utils.rs:116-126 | once text exists, each written record adds "\n" and its entry |
| CrontabProperties.SaveLayout | src/components/cron/utils.rs:116-126 | the saved text is the first written entry followed by the others, each after an empty line |
| CrontabProperties.EmittedIdempotent | src/components/cron/utils.rs:117 | dropping records with an empty command twice is dropping them once |
| CrontabProperties.SaveOmitsEmpty | src/components/cron/utils.rs:117 | records with an empty command do not affect the saved text |
| CrontabProperties.SaveExample | src/components/cron/utils.rs:116-126 | {"0 2 * * *", "/usr/bin/backup.sh", "backup"} saves as exactly "# backup\n0 2 * * * /usr/bin/backup.sh\n" |
| CrontabProperties.SaveSingle | src/components/cron/utils.rs:116-126 | one record with a command and a description saves as "# desc\nschedule command\n" |
| CrontabProperties.EmittedKept | src/components/cron/utils.rs:117 | every written record has a command and stays round-trippable |
| CrontabProperties.ScanJobLine | src/components/cron/utils.rs:91-106 | a written command line reads back as its record, with the pending comment and a recomputed next run |
| CrontabProperties.CommentLineText | src/components/cron/utils.rs:89 | stripping the leading '#' of "# d" leaves " d" |
| CrontabProperties.ScanTrimmedComment | src/components/cron/utils.rs:82-89 | a trimmed '#' line sets the pending comment to its text |
| CrontabProperties.CommentLineTrimmed | src/components/cron/utils.rs:82 | a written comment line is already trimmed |
| CrontabProperties.CommentTextOf | src/components/cron/utils.rs:89 | the comment text of "# d" is d |
| CrontabProperties.ScanCommentLine | src/components/cron/utils.rs:82-89 | reading a written comment line sets the pending comment to the description |
| CrontabProperties.ScanEntry | src/components/cron/utils.rs:80-108 | reading an entry's lines appends its record with the next run recomputed |
| CrontabProperties.ScanSection | src/components/cron/utils.rs:84-86 | the empty line before an entry is skipped |
| CrontabProperties.ScanSectionsStep | src/components/cron/utils.rs:80-108 | reading the sections consumes the first record, then the rest |
| CrontabProperties.ScanSections | src/components/cron/utils.rs:80-108 | reading all later sections appends all their records |
| CrontabProperties.EntryLinesPlain | src/components/cron/utils.rs:121-124 | a round-trippable entry writes lines with no '\n' and no trailing '\r' |
| CrontabProperties.SectionsPlain | src/components/cron/utils.rs:118-124 | so do the later sections |
| CrontabProperties.ScanSaved | src/components/cron/utils.rs:80-108 | reading the saved lines from the start yields the written records, refreshed |
| CrontabProperties.SavedLinesPlain | src/components/cron/utils.rs:116-126 | the saved lines are plain |
| CrontabProperties.RoundTrip | src/components/cron/utils.rs:80-126 | parsing the saved text gives back every record with a non-empty command, in order, with schedule, command and description unchanged and the next run recomputed, when schedules, commands and descriptions are of the round-trippable form |
| CrontabProperties.ExampleNotation | src/components/cron/utils.rs:97 | "0 2 * * *" is a round-trippable schedule |
| CrontabProperties.ExampleCommand | src/components/cron/utils.rs:98 | "/usr/bin/backup.sh" is a round-trippable command |
| CrontabProperties.ExampleDescription | src/components/cron/utils.rs:89 | "backup" is a round-trippable description |
| CrontabProperties.ParseExample | src/components/cron/utils.rs:80-108 | "# backup\n0 2 * * * /usr/bin/backup.sh\n" parses to the single backup record |
| Text.Chunks | src/components/cron/edit.rs:241-251 | the chunks concatenate back to the text, each holds 1 to n characters, and all but the last hold exactly n |
| Text.WhitespaceClasses | src/components/cron/utils.rs:82 | space, tab, LF and CR are whitespace to `trim`; '#', ':', ',', '*' and the digits are not |
| Text.TrimStart | src/components/cron/utils.rs:82 | drops exactly the leading whitespace: never longer, every dropped character is whitespace and the first kept one is not |
| Text.TrimStartSuffix | src/components/cron/utils.rs:82 | the left-trimmed text is a suffix of the input |
| Text.TrimEnd | src/components/cron/utils.rs:82 | drops exactly the trailing whitespace: a prefix of the input, every dropped character is whitespace and the last kept one is not |
| Text.Trim | src/components/cron/utils.rs:82 | the result is trimmed and no longer than the input; a trimmed text is its own trim |
| Text.TrimmedIsFixed | src/components/cron/utils.rs:82 | a trimmed text is unchanged by `trim_start`, `trim_end` and `trim` |
| Text.TrimLeadingSpace | src/components/cron/edit.rs:398-403 | trimming " " + s gives s back for a trimmed s |
| Text.TrimStartMatches | src/components/cron/utils.rs:89 | removes exactly the leading run of the character: a suffix of the input, every removed character is that one and the first kept one is not |
| Text.SplitWhitespace | src/components/cron/utils.rs:91 | every piece is a non-empty word without whitespace; a text starting with a non-whitespace character has a first word starting with it |
| Text.SplitAtWhitespace | src/components/cron/utils.rs:91 | a whitespace character separates: the words of a + c + b are the words of a followed by the words of b |
| Text.SplitOfWord | src/components/cron/utils.rs:91 | a single word splits into itself |
| Text.Join | src/components/cron/utils.rs:97-98 | joining nothing gives the empty text; a join starts with its first piece |
| Text.SplitJoin | src/components/cron/utils.rs:91-98 | words joined by single spaces split back into the same words |
| Text.JoinWordsChars | src/components/cron/utils.rs:97-98 | words joined by spaces hold no whitespace but the spaces, and a join of at least one word is trimmed |
| Text.SingleSpacedChars | src/components/cron/utils.rs:97-98 | a single-spaced text holds no whitespace but spaces and is trimmed |
| Text.IndexOf | src/components/cron/utils.rs:80 | the position of the first occurrence of the character, or the length when there is none |
| Text.StripCr | src/components/cron/utils.rs:80 | drops one trailing '\r' and nothing else |
| Text.Lines | src/components/cron/utils.rs:80 | no lines exactly for the empty text, and no line holds a newline |
| Text.UnlinesAppend | src/components/cron/utils.rs:118-124 | writing two lists of lines one after the other is writing their concatenation |
| Text.LinesUnlines | src/components/cron/utils.rs:80 | lines without a newline or a trailing '\r', each written with a newline, read back unchanged |
| Text.SplitOn | src/components/users/utils.rs:38 | at least one piece, and no piece holds the separator |
| Text.JoinSplitOn | src/components/users/utils.rs:38 | the pieces joined with the separator give back the line |
| Text.RemoveAll | src/components/webserver.rs:94 | never longer than the input; a text without the pattern is unchanged |
| Text.Utf8Len | src/draw.rs:28 | between one and four bytes per character, exactly one per character for ASCII |
| Text.MaxWidth | src/components/cron/utils.rs:139-144 | at least every item's width and equal to one of them; 0 for no items |
| Decimal.I32ToString | src/components/cron_popup.rs:247 | never empty; a leading '-' exactly for a negative number; digits after it, at least one |
| Decimal.ParseI32 | src/components/cron_popup.rs:221 | only an optional sign followed by at least one digit parses, and only within `i32` range; a digit string of value at most 2^31 - 1 parses to its value |
| Decimal.DigitsOfNat | src/components/cron_popup.rs:247 | the decimal digits of a number read back as the number |
| CronEdit.Next | src/components/cron/edit.rs:28-36 | the focus moves to the next of the three fields, wrapping after the description |
| CronEdit.AdvancePosition | src/components/cron/edit.rs:28-36 | k moves advance the field position by k modulo 3 |
| CronEdit.FocusCycle | src/components/cron/edit.rs:76-78 | the focus returns after k Tabs exactly when k is a multiple of 3 |
| CronEdit.Validate | src/components/cron/edit.rs:394-419 | success exactly when the trimmed first buffer line parses; otherwise the "Invalid cron expression" error; the popup's copy of `validate` (src/components/cron_popup.rs:524-549) is the same check |
| CronEdit.TitleLines | src/components/cron/edit.rs:238-251 | the title lines concatenate to the readable description (or its error), each 1 to 100 characters; the popup's title (src/components/cron_popup.rs:301-314) is the same 100-character chunking |
| CronEdit.Typed | src/components/cron/edit.rs:104-135 | the buffer becomes the editor's result for the key; when the buffer took the key the mirror becomes its first line, empty when there is none, otherwise the mirror is kept |
| CronEdit.Inputs.constructor | src/components/cron/edit.rs:50-64 | three empty buffers and mirrors, focus on the schedule, a new record |
| CronEdit.Inputs.Draft | src/components/cron/edit.rs:181-197 | the committed record holds the three mirror values and the next run of the untrimmed schedule mirror |
| CronEdit.Inputs.FlashInputs | src/components/cron/edit.rs:139-146 | the three buffers are emptied, nothing else changes |
| CronEdit.Inputs.FlashValues | src/components/cron/edit.rs:148-152 | the three mirrors are emptied, nothing else changes |
| CronEdit.Inputs.HandleInputs | src/components/cron/edit.rs:67-137 | Tab advances focus only; Esc hides the popup and clears all buffers, mirrors and focus; 's' is never typed into a buffer; a valid 's' appends the draft and selects it (new) or overwrites only the selected record (edit), hides the popup and returns the saved crontab text; an invalid 's' changes nothing; any other key changes only the focused buffer and mirror, the mirror following the first line when the buffer took the key; the selection stays in range; a committed record whose untrimmed schedule mirror does not parse gets "Invalid cron expression" as next run, even though validation passed |
| CronEdit.Inputs.InitEmpty | src/components/cron/edit.rs:154-160 | marks a new record, clears buffers and mirrors, focus on the schedule |
| CronEdit.Inputs.Init | src/components/cron/edit.rs:162-179 | clears the form; when editing, copies the selected record's three fields into the mirrors and buffers without touching the list |
| CronEdit.ValidationTrimsRecordDoesNot | src/components/cron/edit.rs:398-403 | for every parser and mirror where the trimmed mirror parses and the mirror does not, the schedule validates and the record built from the mirror gets "Invalid cron expression" as next run |
| CronEdit.LeadingSpaceMismatch | src/components/cron/edit.rs:398-403 | the premise above is met: a parser accepting exactly "* * * * *" and the mirror " * * * * *" |
| CronPopup.Next | src/components/cron_popup.rs:31-40 | the focus moves through the four fields, wrapping after the AI question |
| CronPopup.AdvancePosition | src/components/cron_popup.rs:31-40 | k moves advance the field position by k modulo 4 |
| CronPopup.FocusCycle | src/components/cron_popup.rs:31-40 | the focus returns after k moves exactly when k is a multiple of 4 |
| CronPopup.AiRequest | src/components/cron_popup.rs:135-139 | the answer starts with "0 0 1 1 *: ", ends with ':' and is one character longer than the prefix and the question |
| CronPopup.AiQuestionRoundTrip | src/components/cron_popup.rs:135-139 | the question can be read back from the answer |
| CronPopup.ConfirmMessage | src/components/cron_popup.rs:246-251 | four fields: an index that `parse` reads back exactly, then schedule, command and description in order; it is `Receivable`, the condition under which the `PassData` handler at src/components/cron_popup.rs:219-224 does not panic |
| CronPopup.SendReceivable | src/components/cron_popup.rs:219-224 | appending a message the `PassData` handler can read keeps every message of the outbox readable |
| Decimal.ParseShow | src/components/cron_popup.rs:221 | reading back an `i32` written by `to_string` gives the number again |
| CronPopup.CronPopup.constructor | src/components/cron_popup.rs:62-82 | disabled, index -1, a new record, empty fields, focus on the schedule, nothing sent |
| CronPopup.CronPopup.RegisterActionHandler | src/components/cron_popup.rs:143-146 | the sender is set, nothing else changes |
| CronPopup.CronPopup.Flash | src/components/cron_popup.rs:89-105 | all four buffers and mirrors are emptied, nothing else changes |
| CronPopup.CronPopup.InitialRender | src/components/cron_popup.rs:107-133 | clears all fields and focuses the schedule |
| CronPopup.CronPopup.HandleKeyEvent | src/components/cron_popup.rs:153-211 | always returns nothing; disabled, or Tab, Enter and Up off the AI field, changes nothing; Up on the AI field puts the stand-in answer into the schedule mirror and buffer; other keys change only the focused buffer and mirror |
| CronPopup.CronPopup.Receive | src/components/cron_popup.rs:217-232 | clears all fields and focus; empty data marks a new record; other data sets `is_new` false, the index parsed from field 0 and the three values and buffers from fields 1 to 3 |
| CronPopup.CronPopup.Fill | src/components/cron_popup.rs:219-228 | the index and the three fields are taken from the message |
| CronPopup.CronPopup.React | src/components/cron_popup.rs:233-262 | while enabled: `ChangeMode(Cron)` clears and disables; `SwitchElement` advances focus; a valid `Confirm` sends `PassData([index, cron, job, desc])`, disables and returns `ChangeMode(Cron)`; an invalid `Confirm` focuses the schedule, stays enabled and sends nothing |
| CronPopup.CronPopup.Update | src/components/cron_popup.rs:213-264 | `ChangeMode(CronPopup)` enables from any state; `PassData` is handled even while disabled; the enabled-only reactions as above; every sent message stays readable by `PassData` and the index stays in `i32` range |
| Draw.MaxLineWidth | src/draw.rs:21 | the area width minus 4, saturating at 0 |
| Draw.PairWidth | src/draw.rs:28 | at least the key and description lengths plus 3, exactly that for ASCII text |
| Draw.GroupWidthAppend | src/draw.rs:41 | adding a pair to a line adds its width |
| Draw.FlattenAppend | src/draw.rs:31 | flushing a line appends its pairs to the pairs already laid out |
| Draw.PrefixWidth | src/draw.rs:30-41 | a prefix of a line is never wider than the line |
| Draw.SpansOf | src/draw.rs:36-39 | four spans per pair |
| Draw.Render | src/draw.rs:30-46 | one line per group, each holding the spans of its group |
| Draw.WrapFrom | src/draw.rs:23-46 | the loop only flushes lines: it keeps those already flushed and adds at most one per remaining pair, plus the open line |
| Draw.Wrap | src/draw.rs:23-46 | never more lines than keybindings |
| Draw.DrawFooter | src/draw.rs:10-57 | the lines built are the rendering of the greedy layout `Wrap` of the keybindings |
| Draw.WrapFromCovers | src/draw.rs:23-46 | from any loop state, the layout lists the flushed pairs, the open line and the remaining pairs in order |
| Draw.WrapCovers | src/draw.rs:23-46 | every pair appears exactly once, in input order |
| Draw.CloseLine | src/draw.rs:44-46 | flushing a non-empty open line keeps the layout well wrapped |
| Draw.WrapFromWellWrapped | src/draw.rs:28-42 | the loop keeps the layout well wrapped |
| Draw.WrapWellWrapped | src/draw.rs:28-46 | no line is empty; no line is wider than the limit unless it holds a single pair; a break happens only where the next pair would have overflowed |
| Draw.WrapEmpty | src/draw.rs:44-46 | no lines exactly when there are no keybindings |
| Draw.FitsPrefixes | src/draw.rs:30-41 | within a line, every pair after the first fitted beside the ones before it |
| UsersUtils.UserOfLine | src/components/users/utils.rs:38-53 | a user exactly for seven or more ':' fields whose sixth starts with the prefix: username field 1, docroot field 6, shell field 7 |
| UsersUtils.Step | src/components/users/utils.rs:27-53 | a failure stays; a success comes only from a success and a line read, with at most one user more |
| UsersUtils.Gather | src/components/users/utils.rs:26-54 | at most one user per line |
| UsersUtils.UsersFromPasswd | src/components/users/utils.rs:8-62 | an open failure gives one row; more than one row only from gathered users, at most one per line |
| UsersUtils.GetUsersFromPasswd | src/components/users/utils.rs:8-65 | the result equals `UsersFromPasswd`: an open error or a read error gives one error row, else the gathered users, else the "No users found" row |
| UsersUtils.ConstraintLenCalculator | src/components/users/utils.rs:67-91 | each component is the widest of its field over the users, 0 for none |
| UsersUtils.GatherAppend | src/components/users/utils.rs:26-54 | reading split in two: an error in the first part wins, else an error in the second, else the users of both parts in order |
| UsersUtils.GatherStopsAtError | src/components/users/utils.rs:27-36 | once a read fails, later lines do not matter |
| UsersUtils.GatherFirstError | src/components/users/utils.rs:26-36 | reading fails exactly when some line read fails, with the first such error |
| UsersUtils.SkippedLine | src/components/users/utils.rs:38-47 | a line with fewer than seven fields, or a home directory outside the prefix, adds nobody wherever it stands |
| UsersUtils.GatherSound | src/components/users/utils.rs:43-53 | every gathered user has a docroot under the prefix and comes from an accepted line |
| UsersUtils.GatherComplete | src/components/users/utils.rs:47-53 | every accepted line's user is gathered |
| UsersUtils.NeverEmpty | src/components/users/utils.rs:56-62 | the result always has a row |
| UsersUtils.GatherNothing | src/components/users/utils.rs:38-47 | lines that are all read and all rejected gather no user |
| UsersUtils.NoMatch | src/components/users/utils.rs:56-62 | with no accepted line the result is exactly the "No users found" row |
| UsersUtils.ReadErrorDiscards | src/components/users/utils.rs:27-36 | a read error discards the users so far: the result is the single "Error reading line: " row of the first failure |
| UsersPanel.ScrollLength | src/components/users.rs:200-204 | 3 × (len − 1) for a non-empty table, 0 for an empty one |
| UsersPanel.ColumnWidths | src/components/users.rs:96-99 | the username column is never narrower than "Username" (8) and fits every username |
| UsersPanel.NextIndex | src/components/users.rs:142-155 | none → 0, i below the last row → i+1, the last row → 0; in range on a non-empty table |
| UsersPanel.PreviousIndex | src/components/users.rs:157-170 | none → 0, i > 0 → i−1, 0 → the last row; in range from an in-range row |
| UsersPanel.Users.constructor | src/components/users.rs:54-71 | disabled, no rows, row 0 selected, scrollbar at 0 |
| UsersPanel.Users.RegisterActionHandler | src/components/users.rs:187-190 | the sender is set, nothing else changes |
| UsersPanel.Users.RegisterConfigHandler | src/components/users.rs:192-195 | the document-root prefix is set, nothing else changes |
| UsersPanel.Users.NextRow | src/components/users.rs:142-155 | last row → 0, i → i+1, none → 0; scroll position 3 × new row |
| UsersPanel.Users.PreviousRow | src/components/users.rs:157-170 | 0 → last row, i → i−1, none → 0; scroll position 3 × new row |
| UsersPanel.Users.FirstRow | src/components/users.rs:172-175 | selects 0 with scroll 0 |
| UsersPanel.Users.LastRow | src/components/users.rs:177-183 | selects the last row, or does nothing on an empty table |
| UsersPanel.Users.Update | src/components/users.rs:197-230 | `ChangeMode(Users)` reloads the rows, resets the scrollbar to 3 × (len − 1) and enables; while enabled `ChangeMode(Home)` disables and returns `ClearScreen` and the four moves map to the row operations; disabled, moves are ignored; an enabled panel always has rows |
| UsersPanel.MovesUndo | src/components/users.rs:142-170 | down then up, and up then down, return to the row |
| UsersPanel.NextTimesBelow | src/components/users.rs:142-155 | below the last row, k moves down go k rows further |
| UsersPanel.NextTimesAdd | src/components/users.rs:142-155 | moves down compose |
| UsersPanel.FullCircle | src/components/users.rs:142-155 | as many moves down as there are rows come back to the start |
| MySqlUsers.UsersView.constructor | src/components/mysql/users.rs:51-66 | "root", "admin", "guest", row 0 selected, scroll length 2 |
| MySqlUsers.NextUserIndex | src/components/mysql/users.rs:68-75 | none → 0, i below the last → i+1, the last → 0; in range on a non-empty list |
| MySqlUsers.PreviousUserIndex | src/components/mysql/users.rs:77-84 | i > 0 → i−1; none or 0 → len−1, saturating at 0 on an empty list; in range from none or an in-range selection |
| MySqlUsers.UsersView.NextUser | src/components/mysql/users.rs:68-75 | i < len−1 → i+1, otherwise (none included) → 0; scroll = row; keeps the selection in range |
| MySqlUsers.UsersView.PreviousUser | src/components/mysql/users.rs:77-84 | i > 0 → i−1, otherwise → len−1 saturating at 0; scroll = row; keeps the selection in range |
| MySqlUsers.MovesUndo | src/components/mysql/users.rs:68-84 | down then up, and up then down, restore an in-range selection |
| MySqlPanel.TabAt | src/components/mysql.rs:26-33 | `from_repr` finds a tab exactly for 0 to 3, the one with that index |
| MySqlPanel.Name | src/components/mysql.rs:26-33 | the derived `Display` names "General", "Users", "Databases", "Logs", in declaration order |
| MySqlPanel.Next | src/components/mysql.rs:43-48 | General → Users → Databases → Logs → General |
| MySqlPanel.NextIsFromRepr | src/components/mysql.rs:43-48 | `next` is `from_repr((index + 1) % 4)`, whose fallback is never taken |
| MySqlPanel.Title | src/components/mysql.rs:36-41 | the tab name with two spaces on each side |
| MySqlPanel.FooterShape | src/components/mysql.rs:63-78 | every footer starts with ("<Esc>", "Quit") and ends with Tab; the Users and Databases tabs add "<↓↑>"; only Logs says "First Tab" |
| MySqlPanel.FooterInfo | src/components/mysql.rs:63-78 | three pairs on the Users and Databases tabs, two on the others, none with an empty key or description |
| MySqlPanel.NextTimesIndex | src/components/mysql.rs:43-48 | k advances move the tab index by k modulo 4 |
| MySqlPanel.TabCycle | src/components/mysql.rs:43-48 | the tab returns after k advances exactly when k is a multiple of 4 |
| MySqlPanel.MySql.constructor | src/components/mysql.rs:93-101 | disabled, first tab, a fresh users list |
| MySqlPanel.MySql.RegisterActionHandler | src/components/mysql.rs:123-126 | the sender is set, nothing else changes |
| MySqlPanel.MySql.NextTab | src/components/mysql.rs:117-119 | the tab advances once |
| MySqlPanel.MySql.Update | src/components/mysql.rs:133-162 | `ChangeMode(MySql)` enables; while enabled `ChangeMode(Home)` disables and returns `ClearScreen` before any routing, `SwtichElement` advances the tab once, and up/down reach the users list only on the Users tab; otherwise the list is untouched |
| HomePanel.Home.constructor | src/components/home.rs:20-26 | starts enabled |
| HomePanel.Home.RegisterActionHandler | src/components/home.rs:30-33 | the sender is set |
| HomePanel.Home.HandleKeyEvent | src/components/home.rs:40-51 | while enabled, 'c' disables and returns `ChangeMode(Cron)`; any other key, or any key while disabled, returns nothing and changes nothing |
| HomePanel.Home.Update | src/components/home.rs:53-61 | `ChangeMode(Home)` re-enables; never a follow-up action |
| CronPanel.Cron.constructor | src/components/cron.rs:21-25 | starts disabled |
| CronPanel.Cron.RegisterActionHandler | src/components/cron.rs:28-31 | the sender is set |
| CronPanel.Cron.Update | src/components/cron.rs:38-50 | `ChangeMode(Cron)` enables; `ChangeMode(Home)` disables and returns `ClearScreen` whether enabled or not; other actions change nothing |
| WebserverPanel.ServiceStatus | src/components/webserver.rs:75-82 | a status exactly when the command ran, and that status is trimmed |
| WebserverPanel.Uptime | src/components/webserver.rs:84-98 | "Unknown" when the output has no line, otherwise no longer than the first line; `UptimeOfShowOutput` gives its exact value |
| WebserverPanel.StatusText | src/components/webserver.rs:150-160 | the stored status of the named server, or "Unknown" |
| WebserverPanel.StatusColor | src/components/webserver.rs:162-166 | light green exactly for "active" |
| WebserverPanel.Sections | src/components/webserver.rs:111-115 | 2 sections exactly when both servers are installed, else 1 |
| WebserverPanel.NginxSection | src/components/webserver.rs:128-131 | Nginx is drawn in a section that exists, and not in Apache's when Apache is installed |
| WebserverPanel.Webserver.constructor | src/components/webserver.rs:34-67 | disabled; a server that is not installed has no uptime and no status; an installed one has its parsed uptime and trimmed status |
| WebserverPanel.Webserver.RegisterActionHandler | src/components/webserver.rs:234-237 | the sender is set, nothing else changes |
| WebserverPanel.Webserver.Update | src/components/webserver.rs:244-253 | `ChangeMode(Webserver)` enables; `ChangeMode(Home)` disables and returns `ClearScreen` unconditionally; other actions change nothing |
| WebserverPanel.FirstOutputLine | src/components/webserver.rs:93 | the first of the lines of a text is its first plain line |
| WebserverPanel.RemoveLeading | src/components/webserver.rs:94 | removing a pattern from a text that starts with it removes that occurrence first |
| WebserverPanel.UptimeOfShowOutput | src/components/webserver.rs:84-98 | for output "ActiveEnterTimestamp=t\n…" the uptime is exactly t |
| WebserverPanel.StatusShown | src/components/webserver.rs:150-166 | the shown status is the stored one or "Unknown", and green exactly for a stored "active" |
| SettingsPanel.Shown | src/components/settings.rs:62-79 | "Not Set" for an empty value, otherwise the value verbatim |
| SettingsPanel.PadRight | src/components/settings.rs:92 | `{:<20}` pads with spaces to 20 characters and never cuts |
| SettingsPanel.Row | src/components/settings.rs:92 | a row is the padded title, a space and the shown value |
| SettingsPanel.Rows | src/components/settings.rs:62-93 | two rows, "Timezone:" and "Document Root:" padded to 20 and a space, then the value; each row ends with its value when set and with "Not Set" when empty |
| SettingsPanel.Settings.constructor | src/components/settings.rs:29-36 | starts disabled |
| SettingsPanel.Settings.RegisterActionHandler | src/components/settings.rs:101-104 | the sender is set, nothing else changes |
| SettingsPanel.Settings.RegisterConfigHandler | src/components/settings.rs:106-109 | the two shown configuration values are set |
| SettingsPanel.Settings.Update | src/components/settings.rs:111-120 | `ChangeMode(Settings)` enables; `ChangeMode(Home)` disables and returns `ClearScreen` even when not enabled; other actions change nothing |

## Left out

- Process, file and clock I/O. These are parameters of the model:
  - `crontab -l` is a `Result` of stdout, stderr and the success flag;
  - `save_to_crontab` returns the text it would pipe into `crontab`;
  - `/etc/passwd` is the open error or the per-line read results;
  - `systemctl` output and `Path::exists` are the `Host` value;
  - `Utc::now` is one reading in `CronEnv`.
- The write to `crontab`'s stdin and the `eprint!` of a save error: they produce no state the model could observe.
- The cron grammar, next-run formatting and natural-language descriptions. These are the delegated libraries, so they are uninterpreted functions in `CronEnv`.
- `CronJob::new` is not part of this model; records are built directly.
- Unicode display width is a width function passed in.
- `u16` truncating casts and `u16` overflow of `current_width` in the footer: widths are unbounded naturals. The one saturation, `area.width.saturating_sub(4)`, is modelled.
- Lossy UTF-8 decoding of process output: output is taken as text.
- A line of `crontab -l` that is not valid UTF-8 makes `lines()` return an error. The model's listing is text, so that error path is not modelled.
- All rendering:
  - ratatui widgets, styles and colours, except the status colour choice;
  - layout areas, scrollbars and the `draw*` bodies, except the footer wrapping, the title chunking and the settings row text.
- The `set_style` colouring that `validate` applies to the buffer, and the popup's draw-time validation. These are styling only.
- `tui_textarea` editing internals.
  - `input` and `insert_str` are abstract function values.
  - Emptying a buffer with `delete_line_by_head` and `delete_line_by_end` (`flash_inputs` at src/components/cron/edit.rs:139-146, `flash_inputs` at src/components/cron_popup.rs:89-97 and the Up branch at src/components/cron_popup.rs:158-162) is modelled as the single empty line `[""]`. Those two calls clear only the line under the cursor, so this is exact only for a one-line buffer.
  - The model does not keep buffers to one line. `handle_inputs` of the edit form does not intercept Enter (src/components/cron/edit.rs:104-135), so `tui_textarea` may split one of its buffers into several lines, and clearing such a buffer would leave its other lines in the source. The popup does swallow Enter (src/components/cron_popup.rs:157).
- Concurrency and the tokio sender. The popup's sends are appended to a ghost outbox.
- The dispatch queue and run loop, and the cron job-list table component (listing, deletion, navigation). Their code is not part of this model, so no semantics are assumed for them. Feeding one action to every component in turn would need those semantics.
- SettingsPanel.Settings.constructor: starts from an empty timezone and document root. `Config` and its `Default` are not part of this model, so the empty strings of `Config::default()` (src/components/settings.rs:32) are an inference from a derived `Default` over string fields.
- UsersPanel.Users.constructor: starts from an empty document-root prefix, by the same inference about `Config::default()` (src/components/users.rs:63).
- The `config` fields other than the users document root and the settings values, and `register_config_handler` of the home, cron, MySQL, popup and web-server panels: they only store a configuration no modelled operation reads.
- Panicking paths are preconditions, not behaviour. Where an invariant can discharge a precondition it does: an enabled users panel always has rows, and the MySQL list is never empty.
- src/style.rs, src/components/mysql/general.rs and src/components/mysql/databases.rs: constants and fixed paragraphs only.
- WebserverPanel.Webserver.constructor: `get_uptime` panics (`expect`) when `systemctl` cannot run. The model takes the printed text as given instead.
