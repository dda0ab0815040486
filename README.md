# Prism moderation core, modelled in Dafny

Prism is a Discord moderation bot. For every guild message it cleans the text,
asks a trained classifier for a label and a probability, and then deletes,
flags or lets the message be. Deleted and flagged messages are logged to
`logs/report_data.json` (the newest 1000 are kept), the HTML dashboard
`logs/report.html` is re-rendered from that file, and each one is also
appended to the report list `report_data.json`. Moderators can ask for the
last lines of the plain-text log with `!history n`.

The model covers:

- `clean_text` (utils/preprocess.py): the text normaliser, as five rewrite
  functions over `string`.
- The event store and dashboard of utils/logger.py:
  - `log_event`, `_update_json_log` and `_update_html_dashboard` are methods of the class `Logger.EventLog`. Its two fields are the JSON file and the rendered page.
  - The render loop is the method `Dashboard.RenderListed`, which `Dashboard.BuildRows` runs over the sorted events.
  - The newest-first stable sort is an insertion sort of indices.
  - `_escape_html` is `Html.EscapeHtml`.
- The script embedded in the dashboard page: `escapeHtml`, `truncate`, the filter callback and `updateStats` (module `DashboardScript`).
- `add_to_report` (utils/report_generator.py): the class `ReportGenerator.ReportStore`.
- bot.py:
  - `is_admin_member` and the threshold branch;
  - `on_message`, as the method `Bot.Bot.OnMessage`. It records the effects it causes in `trace` and calls the two stores;
  - the `!history` command (module `Commands`).

Discord, the classifier and the clocks are not modelled. They are values:
- a `World` says what the classifier answers for a cleaned text, and whether the delete, the warning DM and the moderator notice go through;
- the timestamps are strings passed in;
- timestamp parsing and formatting is a function parameter `fmt`.

Files are in-memory states of the classes above. A file's contents are a datatype that names each case the code branches on: missing, empty, not JSON, no `"events"` key, or a list of events.

Where the documented intent and the code differ, the model follows the code:
- `clean_text` is not idempotent (`Preprocess.CleanTextNotIdempotent`).
- Only the message column is escaped on the server side (`Dashboard.RowsShowEvents`).
- `!history` reads `logs/prism.log`, which nothing in the core writes.
- On the flag path, a failing notice or report escapes `on_message` (`Bot.FlagPathEscapes`).

## Model

| member | source | states |
|---|---|---|
| Preprocess.LeadingRun | utils/preprocess.py:9 | the length of the longest prefix in a character class: every character before it is in the class, the one after is not |
| Preprocess.StripUrls | utils/preprocess.py:9 | removing `http\S+`/`www\S+` matches never lengthens the text |
| Preprocess.StripMentions | utils/preprocess.py:11 | removing `<@!?\d+>` mentions never lengthens the text |
| Preprocess.CollapseSpaces | utils/preprocess.py:15 | the result is never longer than the input, is empty only for the empty input, and keeps a first non-space character |
| Preprocess.CollapseSpacesShape | utils/preprocess.py:15 | runs of whitespace become one space: no two adjacent whitespace characters remain, and every other character comes from the input |
| Preprocess.TrimStart | utils/preprocess.py:15 | `lstrip`: the result is a suffix, everything removed is whitespace, and the result does not start with whitespace |
| Preprocess.TrimEnd | utils/preprocess.py:15 | `rstrip`: the result is a prefix, everything removed is whitespace, and the result does not end with whitespace |
| Preprocess.CleanTextNormalized | utils/preprocess.py:4-16 | every output is lower-case letters, digits and single inner spaces with no space at either end; `None` gives "" |
| Preprocess.CleanTextFixedPoint | utils/preprocess.py:4-16 | a text is left unchanged exactly when it is already normalised and has no URL match anywhere |
| Preprocess.CleanTextIdempotentWithoutUrls | utils/preprocess.py:4-16 | cleaning twice equals cleaning once whenever the cleaned text has no URL match |
| Preprocess.CleanTextNotIdempotent | utils/preprocess.py:9-11 | the URL pass runs before the mention pass, so "htt<@1>px" cleans to "httpx", and cleaning that again gives "" |
| Preprocess.StripUrlsDropsUrl | utils/preprocess.py:9 | a URL match is removed up to the next whitespace |
| Preprocess.StripMentionsDropsMention | utils/preprocess.py:11 | a mention with or without `!` is removed entirely |
| Preprocess.UrlRemovedMidWord | utils/preprocess.py:9 | a URL glued to the end of a word is cut off and the word is kept |
| Preprocess.MentionJoinsNeighbours | utils/preprocess.py:11 | removing a mention joins the text on both sides without a space |
| Preprocess.UrlExample | utils/preprocess.py:9 | "foohttp://x" cleans to "foo" |
| Preprocess.BareHttpSurvives | utils/preprocess.py:9 | "http" alone is not a URL match (`\S+` needs one more character) and survives |
| Preprocess.BareWwwSurvives | utils/preprocess.py:9 | "www" alone survives |
| Preprocess.MentionExample | utils/preprocess.py:11 | "a<@1>b" cleans to "ab" |
| Preprocess.PunctuationSplitsWords | utils/preprocess.py:13 | punctuation becomes a space: "don't" cleans to "don t" |
| Events.MakeEntry | utils/logger.py:23-33 | the entry `log_event` builds has all eight keys and the given timestamp |
| Events.MakeEntryDefaults | utils/logger.py:26-32 | missing keys default to "unknown", 0, 0.0 and "" |
| Html.ReplaceChar | utils/logger.py:117 | after replacing every `c` by a text without `c`, no `c` is left; a text without `c` is unchanged |
| Html.ReplaceChainAppend | utils/logger.py:117 | a replace chain works on a concatenation part by part |
| Html.ChainPerCharacter | utils/logger.py:117 | a replace chain equals the per-character expansion when it does so on every single character |
| Html.EscapeHtmlPerCharacter | utils/logger.py:115-117 | `_escape_html` (with `&` first) maps each character to its own entity, so nothing is escaped twice |
| Html.EscapeHtmlNoTags | utils/logger.py:115-117 | the escaped text contains no `<` and no `>` |
| Html.EscapeHtmlRoundTrip | utils/logger.py:115-117 | decoding the entities gives back the original text |
| Html.ScriptEscapePerCharacter | utils/logger.py:522-530 | the script's five-step `escapeHtml` chain maps each character to its own entity |
| Html.ScriptEscapeSafe | utils/logger.py:522-530 | the script's escaped text contains none of `<`, `>`, `"`, `'` |
| Html.ScriptEscapeRoundTrip | utils/logger.py:522-530 | decoding the five entities gives back the original text |
| Html.UnescapeExpand | utils/logger.py:522-530 | the decoder inverts any per-character escaping into the five entities |
| Dashboard.LexLessTransitive | utils/logger.py:73-75 | the key comparison (Python `str` order) is transitive |
| Dashboard.LexLessTotal | utils/logger.py:73-75 | any two different keys are ordered |
| Dashboard.AboveTransitive | utils/logger.py:73-75 | the listing order (later timestamp first, equal stamps in stored order) is transitive |
| Dashboard.AboveTotal | utils/logger.py:73-75 | any two events are ordered one above the other |
| Dashboard.Insert | utils/logger.py:73-75 | inserting an index keeps the listing ordered and adds exactly that index |
| Dashboard.SortPrefix | utils/logger.py:73-75 | the first `n` indices, sorted, form an ordered permutation of `0..n-1` |
| Dashboard.NewestFirst | utils/logger.py:73-75 | the display order is an ordered permutation of all indices |
| Dashboard.NewestFirstSorted | utils/logger.py:73-75 | no listed event has an earlier timestamp than one below it, and events with equal timestamps keep their stored order |
| Dashboard.NewestFirstCovers | utils/logger.py:73-75 | every stored event is listed exactly once |
| Dashboard.OrderedIsUnique | utils/logger.py:73-75 | there is only one ordered listing of a given set of indices, so any stable reverse sort gives this order |
| Dashboard.RowClassOfAction | utils/logger.py:84-88 | a row has a class exactly for "deleted" and "flagged", and the class is the action's own name |
| Dashboard.Upper | utils/logger.py:93 | the badge text has the same length as the action and no lower-case ASCII letter, keeps every other character, and lower-cases to the same text as the action |
| Dashboard.RenderListed | utils/logger.py:78-103 | the loop over a listing finishes exactly when every listed event renders, and then yields their rows in listed order |
| Dashboard.BuildRows | utils/logger.py:73-103 | sorting then looping yields the rows of all events in display order, or nothing when any event cannot be rendered |
| Dashboard.RowsShowEvents | utils/logger.py:90-103 | one row per event, the row at each position being the row of the event listed there; the message cell is the escaped content and contains no `<`; user, label and channel are inserted unescaped |
| Dashboard.EveryEventShown | utils/logger.py:79-103 | when every event renders, each stored event has its row on the page |
| Dashboard.OneBadEventAbortsRender | utils/logger.py:79-113 | a single event with a missing key or an unparsable timestamp aborts the whole render |
| Logger.Last | utils/logger.py:55-56 | `xs[-n:]` has length `min(n, len)` |
| Logger.RetainKeepsNewest | utils/logger.py:52-56 | after append and cut, the new entry is last and is preceded by the newest stored events, as many as fit under 1000 |
| Logger.RetainBelowCap | utils/logger.py:52-56 | under the cap the entry is simply appended |
| Logger.RetainAtCap | utils/logger.py:55-56 | at the cap exactly the oldest event is dropped |
| Logger.RetainAllIsWindow | utils/logger.py:52-56 | after any number of events the store holds exactly the newest 1000 of everything logged, oldest first |
| Logger.AppendOutcome | utils/logger.py:43-63 | a readable store gains the entry at its end and never exceeds 1000; an unreadable file or an object without "events" is left as it was |
| Logger.LoggedEventAppears | utils/logger.py:21-39 | when the stored events render, the freshly logged event gets its row on the re-rendered page |
| Logger.RenderShowsEach | utils/logger.py:65-113 | a store whose events all render replaces the page, with a row for each stored event |
| Logger.RetainRenderable | utils/logger.py:52-56 | the new entry is kept last, and every kept event was stored before or is the new entry, so it renders when those do |
| Logger.EventLog.constructor | utils/logger.py:16-19 | a missing store file starts as an empty event list |
| Logger.EventLog.UpdateJsonLog | utils/logger.py:41-63 | the file becomes the append-and-cut of the entry; the page is untouched |
| Logger.EventLog.UpdateHtmlDashboard | utils/logger.py:65-113 | the page becomes the rendered rows, or stays as it was when reading or rendering raises; the file is untouched |
| Logger.EventLog.LogEvent | utils/logger.py:21-39 | the store gets the defaulted, timestamped entry and the page is re-rendered from the new store |
| DashboardScript.EscapeHtmlRoundTrip | utils/logger.py:522-530 | a falsy argument gives ""; otherwise the result decodes back to the argument and contains no HTML delimiter |
| DashboardScript.Truncate | utils/logger.py:532-535 | the result is at most three characters longer than the limit |
| DashboardScript.TruncateUnchanged | utils/logger.py:532-535 | a text is returned unchanged exactly when it fits, or when it is three longer and already ends in "..." |
| DashboardScript.TruncateKeepsPrefix | utils/logger.py:532-535 | the result starts with the first `length` characters of the text |
| DashboardScript.MessageCellDecodes | utils/logger.py:512 | the message cell decodes to the truncated content, because cutting happens before escaping |
| DashboardScript.FilterThrows | utils/logger.py:455-462 | the filter throws exactly when some event lacks an `action` or `user` that a non-empty filter lower-cases |
| DashboardScript.FilterKeepsExactlyMatching | utils/logger.py:455-462 | the shown events are exactly the matching ones |
| DashboardScript.FilterKeepsOrder | utils/logger.py:455-462 | the shown list picks events at strictly increasing positions, and picks a position exactly when its event matches, so order and repeats are kept |
| DashboardScript.NoFilterShowsAll | utils/logger.py:455-462 | with empty filters every event is shown, in order |
| DashboardScript.FilterIdempotent | utils/logger.py:455-462 | filtering the shown events again changes nothing |
| DashboardScript.CountAction | utils/logger.py:473-474 | an action count never exceeds the number of events |
| DashboardScript.CountActionOccurrences | utils/logger.py:473-474 | the count is the number of events whose action is exactly the given one |
| DashboardScript.CountActionIsFilterSize | utils/logger.py:455-474 | over events whose actions are present and lower-case, the count equals the number of events the action filter alone shows |
| DashboardScript.CountTwoActions | utils/logger.py:473-474 | the counts of two different actions add up to at most the number of events, because no event is counted twice |
| DashboardScript.UserIdsExact | utils/logger.py:475 | the user set holds exactly the ids that occur, with a missing id counted as one value |
| DashboardScript.StatsBounded | utils/logger.py:472-480 | flagged plus deleted is at most the number of events, and there are between 1 and that many users when there are events |
| DashboardScript.StatsIgnoreFilter | utils/logger.py:449-469 | the statistics count every loaded event, whatever the filter |
| ReportGenerator.NewEntry | utils/report_generator.py:10-17 | the entry holds exactly the six given values |
| ReportGenerator.AppendedGrowsByOne | utils/report_generator.py:20-26 | the list grows by exactly the new entry at its end, and earlier entries stay in order |
| ReportGenerator.AddAllKeepsEverything | utils/report_generator.py:8-30 | with no cap, the list is every entry ever added, in order |
| ReportGenerator.ReportOutgrowsEventLog | utils/report_generator.py:26 | past 1000 messages the report list is longer than the capped event store |
| ReportGenerator.ReportStore.AddToReport | utils/report_generator.py:8-30 | raises, leaving the file unchanged, exactly when the file does not parse or is not a list; otherwise the entry is appended |
| Bot.IsAdminMemberIff | bot.py:27-32 | privileged exactly when one of manage_messages, kick_members, ban_members or administrator is granted; a failed lookup is never privileged |
| Bot.IsAdminMemberMonotone | bot.py:30 | granting more never removes privilege |
| Bot.DecidePrecedence | bot.py:61-98 | delete exactly for an unprivileged author at or above the delete threshold; flag exactly when not deleted and at or above the flag threshold; otherwise nothing |
| Bot.DecideMonotone | bot.py:61-98 | a higher probability is never treated more leniently, and a privileged author never more harshly |
| Bot.DecideExamples | bot.py:61-98 | with thresholds 0.9 and 0.6: 0.95 deletes, or flags a privileged author; 0.75 flags; 0.3 does nothing |
| Bot.IgnoredHasNoEffects | bot.py:38-43 | messages from bots or in DMs cause no effect at all, not even command processing |
| Bot.SkippedModeration | bot.py:45-55 | blank text and a failed prediction skip moderation but still process commands once |
| Bot.PrivilegedNeverDeleted | bot.py:57-61 | a privileged author's message is never deleted |
| Bot.LogFollowsAction | bot.py:61-119 | a logged event records the action taken and follows a successful delete and its notice, or the flag notice |
| Bot.FailedDeleteStops | bot.py:62-121 | a failed delete skips warning, notice, log and report, and still processes commands |
| Bot.WarningFailureSwallowed | bot.py:66-69 | whether the warning DM arrives changes nothing else in the trace |
| Bot.FlagPathEscapes | bot.py:98-121 | on the flag path a failing notice or report escapes before command processing; the delete path always processes commands |
| Bot.EndsOnce | bot.py:35-121 | every handled message ends either in command processing or in an escaping exception, exactly once |
| Bot.CallsMatchTrace | bot.py:73-119 | `log_event` and `add_to_report` are called exactly when the trace records them |
| Bot.SameCleanTextSameAction | bot.py:51 | two messages that clean to the same text get the same prediction and action |
| Bot.Bot.OnMessage | bot.py:35-121 | the trace grows by the message's effects; the event store and the report list change exactly as the calls on the path dictate |
| Bot.Bot.Act | bot.py:57-121 | the effects and the store updates once the stage of the message is known |
| Bot.Bot.DeleteBranch | bot.py:61-95 | above the delete threshold: delete, warn, notify, then log and report; a failed delete or notification skips the rest, and every failure is caught before command processing |
| Bot.Bot.FlagBranch | bot.py:98-121 | between the thresholds: notify, log and report, then command processing; a failed notification or report escapes the handler |
| Bot.Bot.Record | bot.py:73-90 | `log_event` appends the entry and re-renders the page; `add_to_report` raises exactly when the report file is unusable and otherwise appends the entry |
| Commands.SplitLines | bot.py:171 | `splitlines`: no line contains a break, and there are no lines exactly for the empty text |
| Commands.SplitLinesCons | bot.py:171 | a line without breaks followed by "\n" is split off as the first line |
| Commands.SplitJoin | bot.py:171 | lines joined by "\n" split back into the same lines when the last one is not empty |
| Commands.SplitOneLine | bot.py:171 | a text without breaks is one line |
| Commands.SliceStart | bot.py:180 | Python's slice start always lies within the sequence |
| Commands.TailPositive | bot.py:180 | for `n >= 1`, `lines[-n:]` is the last `min(n, len)` lines |
| Commands.TailZero | bot.py:180 | `lines[-0:]` is every line |
| Commands.TailNegative | bot.py:180 | for `n < 0`, `lines[-n:]` drops the first `-n` lines |
| Commands.StripEmpty | bot.py:171 | `strip()` leaves nothing exactly when the text is all whitespace |
| Commands.HistoryEmpty | bot.py:157-178 | "Log file empty." is posted exactly when the log holds only whitespace |
| Commands.HistoryReportsWhatItSends | bot.py:180-187 | the DM and the acknowledgement report `len(lines[-n:])`, and every post carries those lines joined by blank lines |
| Commands.HistoryFallback | bot.py:183-187 | the lines go to the channel exactly when the DM or its acknowledgement raises; the acknowledgement only follows a delivered DM |

## Left out

- Unicode case mapping. `str.lower`, `str.upper` and `toLowerCase` are modelled on ASCII letters only, and `\d` on the ASCII digits. Python and JavaScript map every Unicode letter and digit.
- Regular-expression engines. The four `re.sub` passes are modelled as left-to-right scans that implement the same patterns.
- File I/O and write failures. Files are in-memory states. A failed write (disk full, permissions) is not modelled.
- Concurrent handlers. Two `on_message` handlers can interleave their file updates; the model runs one at a time.
- The `.log` text file. No code in the core writes `logs/prism.log`. `!history` takes its contents as a parameter.
- The classifier (model/predict.py, model/train_model.py). It is an oracle from the cleaned text to a label and a probability, or a failure. The tests' assumption that `0 <= prob <= 1` is not imposed.
- Clocks, `isoformat`, `fromisoformat`/`strftime`, the `:.1f` percentage and the page templates. Timestamps are strings passed in; parsing and formatting is the function parameter `fmt`; the row keeps the raw probability.
- JSON values of the wrong type inside an event (a number where a string is expected). Stored keys are present with the right type, or missing.
- An "events" value that is not a list. This case is not distinguished from an unreadable file.
- `loadData` and the page's fetch. `DashboardScript.UpdateDashboard` takes the loaded events as a value. The rest of `renderTable` (date formatting, the other cells) is not modelled.
- JavaScript string lengths. These count UTF-16 code units, so `truncate` can split a surrogate pair; the model counts characters.
- `notify_moderators` internals: the embed, the moderator channel lookup and the owner DM fallback. Only whether it raises is modelled.
- `Bot.Decide`: the thresholds come from config.py and are parameters here; probabilities are reals, not floats.
- The `!dashboard` command, the `has_permissions` decorator, `on_ready` and server.py.
- Console diagnostics. The `logging.exception` and `logging.warning` calls (bot.py:53, 93, 95, 150) write only to the process log. `PredictionFailed` marks the path they report, but their text is not modelled.
- DashboardScript.UserIdsExact: counts distinct integer ids. The page parses ids with `JSON.parse` into doubles, which round Discord snowflakes above 2^53, so two ids that differ only in low bits count once on the page and twice in the model. Double rounding is not modelled.
- `Commands.History`: posts to the invoking channel are assumed to succeed. A failing fallback post would escape the command.
