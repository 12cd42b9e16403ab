# topicctl notifier — a Dafny model

This project models the part of topicctl that turns the JSON result of `topicctl apply`
into notifications, together with the pure parts of the Go code that produce and load
what is being applied:

- the Python notifier `py/parse_and_notify.py`: `NewTopic.build` and `UpdatedTopic.build`
  turn one decoded apply event into a change set, `make_table` renders the change set as a
  padded pipe table for Datadog (inside `%%%`) or Slack (inside a code fence), with an
  error banner in front when the event carries an error, and the main loop gives each
  event a title and caps each body at its destination's length limit
  (modules `Table`, `TopicChange`, `Notify`);
- the older wrapper script `scripts/call_topicctl.py`: one two-column markdown table per
  changed topic, replaced whole by a fixed notice when it is longer than 3950 characters
  (module `MarkdownChange`);
- `pkg/apply/format.go`: the minutes suffix of `.ms` settings, the rows handed to the
  table writer by `FormatSettingsDiff` and `FormatMissingKeys`, and the nested map of
  `FormatSettingsDiffMap` (module `ApplyFormat`);
- `pkg/config/load.go`: which YAML documents count as empty, the document loop of
  `LoadTopicsFile` (and of `LoadACLsFile`, which is the same loop), and `CheckConsistency`
  (module `ConfigLoad`).

Shared helpers: `Text` (Go's `TrimSpace` and `Split`, Python's `ljust`, `join`, `*`),
`Decimal` (`str(int)`, `%d` and `strconv.ParseInt(s, 10, 64)`), `PyStr` (`str()` of a cell
and `repr()` of a string) and `Wrappers` (`Option`, `Result`).

Python truthiness is written out per field: an int counts when it is present and
non-zero, a list when it is present and non-empty (`Items`), and the update's partition
row needs the object and both of its sides to be truthy (`PartitionTruthy`). A key the
event lacks, which raises `KeyError` in the source, is ruled out by the event type; an
event whose keys do not match its action (`WellTyped`) ends the main loop, as the
exception does.

Three behaviours of the code that are easy to misread:

- `main` of the Python notifier cuts an oversized body to its first 3900 (Datadog) or
  2900 (Slack) characters and appends `"\n..."`; it does not replace the body. Only the
  wrapper script replaces its text with a fixed notice, at 3950 characters.
- The partition row of an update needs `current` and `updated` to be truthy, so a
  change to or from 0 partitions is dropped as well as a null one.
- For Slack, `make_table` writes a newline after the opening fence. The test at
  `py/test_parse_and_notify.py:13` expects the table to follow the fence directly;
  `Table.SlackExample` states what `make_table` produces and
  `Table.SlackTestExpectationDiffers` that it is not that text.

## Model

| member | source | states |
|---|---|---|
| Text.TrimSpace | pkg/config/load.go:60 | the trimmed text neither starts nor ends with white space, is no longer than the input, and is empty exactly when the input is all white space |
| Text.TrimSpaceOfPadded | pkg/config/load.go:66 | trimming white space from around a text that neither starts nor ends with white space gives that text back |
| Text.TrimSpaceIdempotent | pkg/config/load.go:60-66 | trimming an already trimmed document (the file is trimmed, then each piece again) changes nothing |
| Text.Split | pkg/config/load.go:156 | the pieces hold no separator, there is at least one, and joining them with the separator gives the input back |
| Text.LJust | py/parse_and_notify.py:50 | `ljust` keeps the text as its prefix, pads with spaces only, and never truncates |
| Text.Repeat | py/parse_and_notify.py:66 | `"-" * width` is `width` dashes |
| Decimal.ParseInt64 | pkg/apply/format.go:182 | a parsed value lies in the int64 range and comes from a text that is an optional sign followed by one or more digits and nothing else |
| Decimal.ParseSignedDigits | pkg/apply/format.go:182 | every optional sign followed by one or more digits parses: to its signed value when that is in the int64 range, to the error otherwise |
| Decimal.LeadingZeroParses | pkg/apply/format.go:182 | leading zeros are accepted and do not change the value ("007" reads as 7) |
| Decimal.PlusSignParses | pkg/apply/format.go:182 | an explicit plus sign is accepted and does not change the value ("+120000" reads as 120000) |
| Decimal.ParseIntToString | pkg/apply/format.go:182-195 | printing an int64 in base 10 and parsing it back gives the same value |
| PyStr.ReprRoundTrip | scripts/call_topicctl.py:42-68 | the `repr` of each missing key that `str()` of the list writes reads back, quotes removed and escapes undone, as the key itself |
| PyStr.CellText | py/parse_and_notify.py:48-51 | `str()` of a cell: a str is itself, None is "None", and an int is its decimal text, with a minus sign exactly when it is negative |
| PyStr.IntListText | py/parse_and_notify.py:222-223 | `str()` of a list of ints is bracketed, and is "[]" exactly for the empty list |
| PyStr.NullableIntListText | py/parse_and_notify.py:222-223 | `str()` of a nullable replica list is "None" exactly when it is null, and the list's text otherwise |
| PyStr.ReprInjective | scripts/call_topicctl.py:42-68 | distinct keys are written as distinct `repr` texts |
| Table.ColumnWidth | py/parse_and_notify.py:60-64 | the running width of a column is at least the header and every cell seen so far, and equal to one of them |
| Table.Widths | py/parse_and_notify.py:59-64 | one width per header, each the maximum of the header and the `str()` of every cell of its column |
| Table.RowLayout | py/parse_and_notify.py:45-54 | a rendered row has the length fixed by the widths, ends in a newline, has its bars at the offsets fixed by the widths, and holds each text padded to its column width between bars `i` and `i + 1` |
| Table.MakeRow | py/parse_and_notify.py:45-54 | `make_row` writes a bar first and a bar and a newline last; `Table.RowLayout` places every cell in between |
| Table.TableLayout | py/parse_and_notify.py:66-78 | the header line, the dash line and every content line are laid out by the same widths, so all bars line up |
| Table.SeparatorCells | py/parse_and_notify.py:66 | the separator line holds exactly as many dashes as each column is wide |
| Table.TableBodyNonEmpty | py/parse_and_notify.py:68-78 | the table text is non-empty exactly when there is more than one row of content |
| Table.MakeTable | py/parse_and_notify.py:42-43 | no headers and no content render as nothing; anything else for Datadog starts with `%%%\n` and ends with `%%%` |
| Table.NoErrorRendering | py/parse_and_notify.py:68-102 | without an error, more than one row renders as opener, table lines, closer; otherwise only Datadog's empty `%%%\n%%%` remains |
| Table.FrameErrorOverlay | py/parse_and_notify.py:79-100 | an error message puts the heading, the message and the footer in front of what is rendered without it, inside Datadog's single wrapper |
| Table.ErrorOverlay | py/parse_and_notify.py:82-97 | the footer says changes were still made exactly when there is more than one row of content |
| Table.SlackExample | py/test_parse_and_notify.py:10-15 | the two-column Slack example renders as the fence, a newline, four aligned lines and the closing fence |
| Table.SlackTestExpectationDiffers | py/test_parse_and_notify.py:13 | the expected text of that test, without the newline after the fence, differs from what `make_table` returns |
| TopicChange.NewChangeSet | py/parse_and_notify.py:130-146 | the action row, then the partition row and the replication row exactly when truthy, then one row per config entry in order; empty exactly when nothing changed |
| TopicChange.PartitionRows | py/parse_and_notify.py:174-187 | the update's partition row is present exactly when the object and both its sides are truthy |
| TopicChange.UpdatedChangeSet | py/parse_and_notify.py:171-229 | three cells per row, the action row first, one row per partition change, new, updated and missing key and replica change; empty exactly when none of them is truthy |
| TopicChange.PartitionRowPlaced | py/parse_and_notify.py:174-187 | the partition row, when present, comes right after the action row and holds current and updated counts |
| TopicChange.AddedRowsPlaced | py/parse_and_notify.py:189-195 | the new config rows follow the partition row, in input order, with an empty old value |
| TopicChange.UpdatedRowsPlaced | py/parse_and_notify.py:197-207 | the updated config rows follow the new ones, in input order |
| TopicChange.RemovedRowsPlaced | py/parse_and_notify.py:209-215 | the missing key rows follow the updated ones, in input order, each marked REMOVED |
| TopicChange.AssignmentRowsPlaced | py/parse_and_notify.py:216-227 | the replica assignment rows come last, in input order |
| TopicChange.Build | py/parse_and_notify.py:255-261 | "create" builds a created topic and any other action an updated one; name, dry-run flag and error are copied; the change set is `NewTopic.build`'s for a create event's keys and `UpdatedTopic.build`'s for an update event's keys |
| TopicChange.BuildReportsChanges | py/parse_and_notify.py:144-146 | an event reports changes exactly when one of its change keys is truthy |
| TopicChange.ContentShaped | py/parse_and_notify.py:56-58 | every built topic passes the row-width assertion of `make_table` |
| TopicChange.TableShownIffChanges | py/parse_and_notify.py:121-127 | the table lines are rendered exactly when the change set is not empty, although a created topic always adds its name row |
| TopicChange.RenderTable | py/parse_and_notify.py:121-168 | `render_table` for Datadog is always inside `%%%` lines, and for Slack is empty when there is neither an error nor a change |
| TopicChange.RenderWithoutError | py/parse_and_notify.py:162-168 | without an error a topic with changes renders as its table in the destination's opener and closer, and one without changes as nothing or Datadog's empty wrapper |
| TopicChange.RenderWithError | py/parse_and_notify.py:82-97 | with an error the message and the footer are put in front of the rendering without it, the footer saying changes were made exactly when the change set is not empty |
| TopicChange.CreateExample | py/test_parse_and_notify.py:104-113 | the create event of the test builds the five rows the test expects |
| TopicChange.AssignmentExample | py/test_parse_and_notify.py:123-124 | the replica assignments of the test render as `Partition N assignments` with lists like `[5, 4]` |
| TopicChange.AssignmentNullExample | pkg/apply/apply_test.go:332-335 | a null updated replica list, as for partition 3 of the Go test, renders as "None" next to the current list |
| TopicChange.UpdateExample | py/test_parse_and_notify.py:116-125 | the update event of the test builds the six rows the test expects |
| TopicChange.EmptyErrorExample | py/test_parse_and_notify.py:167-173 | the create event without changes but with an error renders for Datadog as the expected error text |
| Notify.Cap | py/parse_and_notify.py:278-281 | a capped body keeps the first `limit` characters of the original and is at most the limit plus the ellipsis long |
| Notify.CapKeepsShortBodies | py/parse_and_notify.py:278-281 | a body within the limit is sent unchanged, a longer one is exactly the limit plus `"\n..."`, and capping changes a body unless it fits or already has that shape |
| Notify.CapIdempotent | py/parse_and_notify.py:278-281 | capping a capped body changes nothing |
| Notify.Title | py/parse_and_notify.py:270-274 | the title starts with "Dry run: " exactly for dry runs and ends with the region |
| Notify.TitleNames | py/parse_and_notify.py:270-274 | the topic name sits at a fixed place in the title and can be read back |
| Notify.Tags | py/parse_and_notify.py:263-282 | the Datadog tags are exactly source, source_tool, source_category, sentry_region (the region) and topicctl_topic (the topic's name) |
| Notify.Notify | py/parse_and_notify.py:255-285 | each body is within its destination's limit plus the ellipsis, the title is the event's title for the region, and the tags name the topic |
| Notify.NotifyBodies | py/parse_and_notify.py:262-281 | each body is the event's table for that destination, as it is when it fits and otherwise its first 3900 (Datadog) or 2900 (Slack) characters followed by "\n..."; the tags are the fixed four plus the topic |
| Notify.Run | py/parse_and_notify.py:253-285 | the loop sends one notification per event in order, the one at position `k` being that of event `k`, and stops exactly at the first event whose keys do not match its action |
| MarkdownChange.ConfigsTextAppend | scripts/call_topicctl.py:14-16 | the text of a list of config entries is the text of its parts one after another |
| MarkdownChange.UpdatesTextAppend | scripts/call_topicctl.py:32-35 | the same for updated config entries |
| MarkdownChange.AccumulateConfigs | scripts/call_topicctl.py:14-16 | the loop appends one `name=value, ` per entry, in order |
| MarkdownChange.NewChangeFields | scripts/call_topicctl.py:13-24 | a create reports its configs text, `str()` of its partition count and `str()` of its replication factor, in that order; a null `configEntries` raises "not iterable" |
| MarkdownChange.UpdateChangeFields | scripts/call_topicctl.py:27-45 | an update reports its new configs text, its updated configs text, `str()` of its missing keys (a list of `repr`s, or "None") and "FIXME" for partition count and replication factor, in that order; a null `newConfigEntries` or `updatedConfigEntries` raises "not iterable" |
| MarkdownChange.MarkdownTable | scripts/call_topicctl.py:48-76 | the table is rendered unless the action is neither "create" nor "update" (the invalid-action error) or an entry list the action iterates is null (the "not iterable" error) |
| MarkdownChange.FieldLinesAppend | scripts/call_topicctl.py:66-68 | the rows of a list of fields are the rows of its parts one after another |
| MarkdownChange.FieldLinesSingle | scripts/call_topicctl.py:66-68 | one field gives one row on a new line: its heading in bold in the first cell, its value in the second |
| MarkdownChange.CreateTableRows | scripts/call_topicctl.py:48-76 | a create's text is `%%%`, the error notice when there is an error, the head, then exactly the Configs, Partition Count and Replication Factor rows in that order, and a closing `%%%` |
| MarkdownChange.UpdateTableRows | scripts/call_topicctl.py:48-76 | an update's text is `%%%`, the error notice when there is an error, the head, then exactly the New Configs, Updated Configs, Configs Missing from Topicctl, Partition Count and Replication Factor rows in that order, and a closing `%%%` |
| MarkdownChange.MarkdownTableFrame | scripts/call_topicctl.py:62-76 | a table is wrapped in `%%%` lines and starts with the error notice exactly when the change reports an error |
| MarkdownChange.CapText | scripts/call_topicctl.py:126-127 | the text sent is at most 3950 characters and is either the table or the fixed notice |
| MarkdownChange.CapTextKeeps | scripts/call_topicctl.py:126-127 | the table is kept exactly when it is at most 3950 characters long |
| MarkdownChange.SelectChanges | scripts/call_topicctl.py:118-122 | a non-empty `newTopics` is used, otherwise `updatedTopics`, and a null `updatedTopics` is an error |
| MarkdownChange.ChangeNotice | scripts/call_topicctl.py:123-129 | a notice carries the dry-run title for the topic and region, the change's table when it is at most 3950 characters and the fixed notice otherwise, and the script's tags for the topic |
| MarkdownChange.Tags | scripts/call_topicctl.py:113-128 | the tags are exactly source, source_category, sentry_region (the region) and topicctl_topic (the change's topic) |
| MarkdownChange.NotifyLine | scripts/call_topicctl.py:118-129 | one notice per change in order, stopping exactly at the first change whose table raises (an invalid action or a null entry list), with that error |
| ApplyFormat.TimeSuffix | pkg/apply/format.go:181-196 | a suffix is written exactly for a parsed int64 of at least one minute that is a whole number of minutes |
| ApplyFormat.TimeSuffixOfMinutes | pkg/apply/format.go:181-196 | every text that ParseInt reads as N minutes in milliseconds, N >= 1, gets " (N min)" |
| ApplyFormat.TimeSuffixOfValue | pkg/apply/format.go:181-196 | two texts that ParseInt reads as the same value get the same suffix |
| ApplyFormat.TimeSuffixOfCanonical | pkg/apply/format.go:181-196 | the decimal text of N minutes in milliseconds gets " (N min)" |
| ApplyFormat.TimeSuffixOfPrefixed | pkg/apply/format.go:182-196 | a leading '+' or '0' before the digits of N minutes in milliseconds leaves the suffix " (N min)" |
| ApplyFormat.TimeSuffixSignedExamples | pkg/apply/format.go:182-196 | "+120000" and "0120000" both get " (2 min)" |
| ApplyFormat.TimeSuffixEmpty | pkg/apply/format.go:182-189 | unparsable texts and values below a minute get no suffix |
| ApplyFormat.TimeSuffixOneMinute | pkg/apply/format.go:195 | "60000" gets " (1 min)" |
| ApplyFormat.TimeSuffixExamples | pkg/apply/format.go:187-193 | 59999, 90000 and -60000 get no suffix |
| ApplyFormat.TimeSuffixUnparsed | pkg/apply/format.go:182-185 | "1m" is not a base-10 integer and gets no suffix |
| ApplyFormat.Shown | pkg/apply/format.go:77-81 | a value keeps its text; `.ms` keys get the minutes suffix after it and other keys nothing |
| ApplyFormat.FirstFailure | pkg/apply/format.go:70-74 | the position of the first key whose value fails to format: all before it succeed |
| ApplyFormat.SettingsDiffRows | pkg/apply/format.go:64-90 | one row of key, cluster value and config value per diff key in order, or the error of the first key that fails |
| ApplyFormat.MissingKeysRows | pkg/apply/format.go:161-175 | one row per missing key in order, holding the key and its cluster value (missing values as ""), followed by the minutes suffix exactly when the key ends in ".ms" |
| ApplyFormat.DiffMapFoldMeaning | pkg/apply/format.go:106-124 | after the loop the inner map holds exactly the diff keys plus "Action"; each key other than "Action" maps to its current and updated value; "Action" holds "update" unless the last key was "Action" |
| ApplyFormat.DiffMapStep | pkg/apply/format.go:119-123 | one iteration extends that description by its key |
| ApplyFormat.SettingsDiffMap | pkg/apply/format.go:97-126 | success exactly when no diff key fails, with the first failing key's error otherwise; the map has only the topic, holding the inner map of the loop |
| ConfigLoad.Blocks | pkg/config/load.go:158-159 | a line stops the scan exactly when it is neither blank nor a comment |
| ConfigLoad.IgnorableIff | pkg/config/load.go:158-159 | a line is ignorable exactly when it is all white space or its first other character is '#' |
| ConfigLoad.IsEmpty | pkg/config/load.go:155-165 | a document is empty exactly when every line of it is blank or a comment |
| ConfigLoad.EmptyText | pkg/config/load.go:155-165 | the empty text is empty, as it splits into one empty line |
| ConfigLoad.EmptyBounds | pkg/config/load.go:155-165 | all white space is empty, and a text starting with a character that is neither white space nor '#' is not |
| ConfigLoad.Kept | pkg/config/load.go:65-69 | no kept document is empty, and there is at most one per piece |
| ConfigLoad.KeptInOrder | pkg/config/load.go:65-69 | the kept documents are, in the order of the pieces, the trim of each piece whose trim is not empty: the same as filtering the pieces from the front |
| ConfigLoad.KeptMembers | pkg/config/load.go:65-69 | a text is kept exactly when it is not empty and is the trim of some piece |
| ConfigLoad.KeptPrefix | pkg/config/load.go:65-69 | the documents kept from the first pieces come first among all kept ones |
| ConfigLoad.LoadTopics | pkg/config/load.go:60-79 | the loop returns what parsing the kept documents one after the other gives: the trimmed non-empty pieces of the trimmed file, in order |
| ConfigLoad.ParseDocsMeaning | pkg/config/load.go:71-76 | parsing succeeds exactly when every kept document parses, holding their values in order; otherwise it fails with the error of the first document that does not parse |
| ConfigLoad.FailureStays | pkg/config/load.go:72-74 | once a document fails, the documents after it do not change the outcome, as the loop returns at once |
| ConfigLoad.FailureAfter | pkg/config/load.go:71-74 | a document that fails in the loop, after every earlier kept one parsed, decides the outcome for the whole file |
| ConfigLoad.CheckConsistency | pkg/config/load.go:130-153 | no error exactly when cluster name, environment and region all match |
| ConfigLoad.ConsistencyMessages | pkg/config/load.go:130-153 | one message per mismatch, in the order cluster, environment, region |

## Left out

- Reading stdin, environment variables and the HTTP notifiers: the region is a parameter (the caller's `os.getenv("SENTRY_REGION", "unknown")`), and what is sent is returned as a value. The two `print` calls of the Python notifier's `main` are output only and are dropped: one writes the literal text `DEBUG read line: {line}` to stdout (the string has no `f` prefix, so the braces are printed as they are), the other writes the title to stderr.
- JSON decoding: events are already-decoded datatypes, and a missing key is ruled out by the datatype.
- YAML decoding, `os.ExpandEnv` and the `---` separator regular expression of `load.go`: the splitter and the parser are parameters of `ConfigLoad.LoadTopics`.
- The `tablewriter` rendering in `FormatSettingsDiff` and `FormatMissingKeys`: the model stops at the rows it is given.
- `FormatNewTopicConfig`, `ProcessTopicConfigIntoMap`, `LoadClusterFile`, `LoadClusterBytes`, `LoadTopicBytes` and `LoadACLBytes` are not part of this model: they are file I/O or JSON/YAML round trips.
- `main` of `scripts/call_topicctl.py`: argument parsing, the subprocess and the `if not data: exit()` check are I/O; `MarkdownChange.NotifyLine` models the work of one output line.
- The tags dictionary of `scripts/call_topicctl.py` is created once per line and changed per change; the model builds fresh tags per notice, which gives the same value at each send.
- `TopicSettings.HasKey` and `GetValueStr` are modelled as a map from key to the value text or its formatting error.
- PyStr.StrRepr: non-ASCII characters are treated as printable; the escapes `repr` writes for non-printable non-ASCII characters are not modelled.
- TopicChange.Build: `raw_content["configEntries"]` of a create is iterated without a check, so the model takes it as a list that is never null.
- Table.MakeTable: the assertion on row widths is a precondition, as every built topic meets it (`TopicChange.ContentShaped`).
