# Echo bot core, modelled in Dafny

Echo is a Discord bot. It reads a member's message history up to a cutoff date,
turns the messages into a training dataset, and has an Ollama server build a
personal "echo" model from it. This project models the parts of the bot that
decide things:

- `text_processor.dfy` (module `TextProcessor`): the text utilities. Discord
  markup cleaning with its five regular expressions, the collection-time
  content filter, context windows, truncation, mention extraction, URL
  detection and whitespace normalisation.
- `validation.dfy` (module `Validation`): the input validators. Discord ids,
  analysis rights, cutoff dates, session limits, training content, model
  names, channel permissions, dataset size and file-name sanitising.
- `date_parser.dfy` (module `DateParser`):
  - `DD.MM.YYYY` parsing with `strptime`'s calendar checks;
  - the cutoff test;
  - the readable `%d %B %Y` form and range descriptions;
  - the compact `%Y%m%d_%H%M%S` stamp used in model names.
- `message_processor.dfy` (module `MessageProcessor`):
  - the `echo_profiles` status row and its transitions;
  - the per-channel collection filter with its 10,000-message cap;
  - preprocessing, and storing into `user_messages`;
  - the training-dataset query and entries;
  - the whole background analysis run.
- `ollama_client.dfy` (module `OllamaClient`):
  - model naming and the default training configuration (10 epochs, batch 4,
    sequence length 512);
  - the Modelfile text and the training-task registry;
  - the loaded-model set, chat message building, and the old-model cleanup.
- `background_tasks.dfy` (module `BackgroundTasks`):
  - the start/stop flags and the daily and hourly loops;
  - `manual_cleanup` dispatch and `restart_task`;
  - the health report and the summed system statistics.
- `task_registry.dfy` (module `TaskRegistry`): the `"{user}_{server}"`-keyed
  task table that the message processor and the Ollama client share. Starting
  a run cancels and replaces the old task. A finished run's `finally` removes
  the key.
- Supporting modules:
  - `wrappers.dfy`: `Option` and `Result`;
  - `chars.dfy`: character classes, with Python's `str.isspace` set written
    out;
  - `strings.dfy`: `str(int)`, zero padding, `strip` and `split`.

The database, Discord and Ollama are not modelled as services. A table is a
sequence of rows and a profile table is a map. Whatever a call would have
fetched or raised becomes a parameter: a channel's history, whether the
dataset file exists, the models the server lists, whether a chat or delete
call went through, and the current time.

## Model

| member | source | states |
|---|---|---|
| TextProcessor.MatchUser | utils/text_processor.py:21 | A match of `<@!?(\d+)>` at the front of a text lies inside the text and opens with `<@`. |
| TextProcessor.MatchRole | utils/text_processor.py:22 | A match of `<@&(\d+)>` opens with `<@&`. |
| TextProcessor.MatchChannel | utils/text_processor.py:23 | A match of `<#(\d+)>` opens with `<#`. |
| TextProcessor.MatchEmoji | utils/text_processor.py:26 | A custom-emoji match `<a?:\w+:\d+>` opens with `<`. |
| TextProcessor.MatchUrl | utils/text_processor.py:29 | A URL match opens with the `h` of `http`. |
| TextProcessor.MentionGroup | utils/text_processor.py:135-137 | In every user, role or channel mention match, the captured group is a non-empty run of digits that ends just before the closing `>`. |
| TextProcessor.MatchStartsWithOpening | utils/text_processor.py:21-29 | Every match of a cleaning pattern starts with that pattern's opening character. |
| TextProcessor.SubstituteChangesIffOccurs | utils/text_processor.py:21-29 | Each `re.sub` step of cleaning changes the text exactly when its pattern occurs somewhere in it. This holds because no replacement such as `[USER]` starts with the pattern's opening character. |
| TextProcessor.FindIds | utils/text_processor.py:135-137 | `re.findall` of a mention pattern returns only non-empty digit strings. |
| TextProcessor.ContainsUrl | utils/text_processor.py:146-154 | `contains_url` holds exactly when the URL pattern matches at some position (`re.search`). |
| TextProcessor.UrlCollapseChangesIffContainsUrl | utils/text_processor.py:29 | The URL replacement in `clean_discord_content` alters the text exactly when `contains_url` reports a URL. |
| TextProcessor.CollapseIsSingleSpaced | utils/text_processor.py:165 | After `\s+` is replaced by one space, the text has no whitespace other than single spaces. A text that starts with a visible character keeps it in front. A non-empty text stays non-empty. |
| TextProcessor.CollapseFixesSingleSpaced | utils/text_processor.py:165 | Collapsing whitespace leaves an already single-spaced text unchanged. |
| TextProcessor.NormalizeWhitespace | utils/text_processor.py:157-167 | The result is normalised: single-spaced, with no whitespace at either end. |
| TextProcessor.NormalizedIsFixpoint | utils/text_processor.py:157-167 | A normalised text is returned unchanged. |
| TextProcessor.NormalizeWhitespaceIdempotent | utils/text_processor.py:157-167 | Normalising twice gives the same text as normalising once. |
| TextProcessor.CollapseKeepsVisible | utils/text_processor.py:165 | Collapsing whitespace keeps every non-whitespace character, in order. |
| TextProcessor.StripKeepsVisible | utils/text_processor.py:167 | `strip()` keeps every non-whitespace character, in order. |
| TextProcessor.NormalizeKeepsVisible | utils/text_processor.py:157-167 | Normalisation never drops, adds or reorders a non-whitespace character. |
| TextProcessor.CleanDiscordContent | utils/text_processor.py:10-35 | Empty content cleans to "". Every cleaned text is whitespace-normalised. |
| TextProcessor.CleanPlainText | utils/text_processor.py:10-35 | A text with no mention, custom emoji or URL cleans to exactly its whitespace-normalised form. |
| TextProcessor.IsValidMessageContent | utils/text_processor.py:38-60 | Content is accepted exactly when three things hold. Its stripped form has at least 3 characters. Word and whitespace characters are not under 30% of its length. Its stripped form does not start with one of `!/.?$+-><`. |
| TextProcessor.FirstWithId | utils/text_processor.py:73-75 | Gives the first index whose `message_id` is the target. It is `None` exactly when no message carries that id. |
| TextProcessor.SliceBound | utils/text_processor.py:80 | Where a slice bound lands: a bound inside the list is kept, a negative bound counts from the end, and the result always lies in `0 .. len`. |
| TextProcessor.PySlice | utils/text_processor.py:80 | Python's `xs[a:b]` for any integers: `max(0, b' - a')` items, item `i` being `xs[a' + i]`, where `a'` and `b'` are the bounds after Python's normalisation. |
| TextProcessor.ExtractConversationContext | utils/text_processor.py:63-80 | An unknown id gives `[]`. Otherwise the result is Python's slice `messages[max(0, t-k):min(n, t+k+1)]` around the first match `t`, negative bounds included. |
| TextProcessor.ContextAroundHoldsTarget | utils/text_processor.py:77-80 | For `k >= 0` the context contains the target, has at most `2k+1` messages, and every message in it is within `k` places of the target. |
| TextProcessor.ContextAroundNegativeSize | utils/text_processor.py:77-80 | For `k < 0` the context never contains the target: it is empty when `t+k+1 >= 0`. Otherwise the end bound counts from the end of the list, and the context has `max(0, n+2k+1)` messages starting `-k` places after the target. |
| TextProcessor.NegativeSizeCountsFromEnd | utils/text_processor.py:77-80 | With ten messages, the target first and `context_size = -2`, the result is `messages[2:9]`, seven messages. |
| TextProcessor.PrefixSlice | utils/text_processor.py:119-125 | Python's `s[:k]`: always a prefix, exactly `k` long when `0 <= k <= len(s)`, and counting from the end when `k` is negative. |
| TextProcessor.PrefixSliceIsPySlice | utils/text_processor.py:119-125 | `s[:k]` agrees with the general slice `s[0:k]` for every integer `k`. |
| TextProcessor.RFindSentenceEnd | utils/text_processor.py:120 | `rfind('. ')`: the returned index holds `". "`, no later position does, and -1 means none. |
| TextProcessor.TruncateContent | utils/text_processor.py:107-125 | Content that fits is returned unchanged. For `max_length >= 3` the result never exceeds `max_length`. It ends at the last sentence's `.` when that lies beyond 70% of the limit; otherwise it is the first `max_length - 3` characters plus `...`. |
| TextProcessor.ExtractMentions | utils/text_processor.py:128-143 | Every reported user, role and channel id is a non-empty digit string. |
| TextProcessor.UserAndRoleMentionsDisjoint | utils/text_processor.py:135-136 | No position opens both a user mention and a role mention, so `<@&…>` is never read as a user. |
| TextProcessor.RoleMentionIsNotAUser | utils/text_processor.py:128-143 | A lone `<@&id>` is reported as one role and as nothing else. |
| TextProcessor.UserMentionIsAUser | utils/text_processor.py:128-143 | A lone `<@id>` or `<@!id>` is reported as one user and as nothing else. |
| TextProcessor.LoneUserMentionIds | utils/text_processor.py:135 | The user pattern captures exactly the digits of a lone user mention, with or without `!`. |
| TextProcessor.NoRoleOrChannelAfterUserOpening | utils/text_processor.py:136-137 | A text opening with `<@` but not `<@&`, with no other `<`, contains no role or channel mention. |
| TextProcessor.NoIdsWithoutOpening | utils/text_processor.py:135-137 | A text without `<` yields no mention ids at all. |
| Validation.ValidateDiscordId | utils/validation.py:11-22 | An id is accepted exactly when it is 17 to 20 ASCII digits. One final newline may follow, which is what `$` admits under `re.match`. |
| Validation.DiscordIdOfNumber | utils/validation.py:11-22 | The decimal form of `n` is accepted exactly when `10^16 <= n < 10^20`. |
| Validation.ValidateUserPermissions | utils/validation.py:25-45 | Analysis is allowed exactly when the user is the target, is an administrator, or may manage messages. |
| Validation.UserPermissionsIgnoreTargetRights | utils/validation.py:25-45 | The verdict depends on the target only through the target's id. |
| Validation.ValidateCutoffDate | utils/validation.py:48-76 | Each message is returned exactly when its check is the first to fail, in this order: empty, format regex, calendar, future, before 1 Jan 2015. The date is valid exactly when it parses, is not in the future and has a year of at least 2015. |
| Validation.BeforeMinimumIffEarlierYear | utils/validation.py:72-74 | A day lies before 1 January 2015 exactly when its year is below 2015. |
| Validation.ValidCutoffParses | utils/validation.py:62-76 | An accepted cutoff is also accepted by `parse_dd_mm_yyyy`, which gives that day's midnight: not in the future and in 2015 or later. |
| Validation.TrailingNewlineIsInvalidValues | utils/validation.py:59-65 | A well-formed date followed by `\n` passes the format regex but not `strptime`, so it is reported as "Invalid date values". |
| Validation.ValidateSessionLimits | utils/validation.py:79-91 | The limit is accepted exactly when `current < max`. The refusal is "Maximum number of active sessions (max) reached for this server" with `str(max)` in it. |
| Validation.SessionLimitMessageNamesMaximum | utils/validation.py:88-89 | The refusal determines the maximum: two maxima with the same refusal text are equal. |
| Validation.SessionAdmissionsStopAtMaximum | utils/validation.py:79-91 | If each of `n` requests is admitted exactly when the check accepts it, the count ends at `min(current + n, max)` when below the maximum. At or above the maximum nothing is admitted. |
| Validation.ValidateMessageContentForTraining | utils/validation.py:94-117 | Each message is returned exactly when its check is the first to fail: empty, under 3 characters, over 2000, under 30% word characters. The content is valid exactly when none fails. |
| Validation.TrainingValidationMatchesContentFilter | utils/validation.py:94-117 | Content that passes the collection filter and has at most 2000 characters passes training validation. Valid content that does not start with a command prefix passes the filter. |
| Validation.MatchModelName | utils/validation.py:131 | `^[a-zA-Z0-9][a-zA-Z0-9._-]*[a-zA-Z0-9]$` under `re.match`: alphanumeric at both ends and allowed characters between, optionally followed by one final newline. |
| Validation.ValidateModelName | utils/validation.py:120-137 | The empty, format and length errors are each returned exactly when that check is the first to fail. |
| Validation.ModelNameCharacterisation | utils/validation.py:120-137 | A name without a trailing newline is accepted exactly when it has 2 to 100 characters, all from `[A-Za-z0-9._-]`, with an alphanumeric character at each end. |
| Validation.ModelNameWithNewline | utils/validation.py:131-135 | A valid name followed by `\n` is also accepted. |
| Validation.MissingPermissions | utils/validation.py:157-160 | The display name of a required permission is listed exactly when that permission is missing. The list is empty exactly when all four are granted. |
| Validation.ValidateChannelPermissions | utils/validation.py:140-165 | Valid exactly when read, send, history and embed rights are all granted. Otherwise the message lists the missing ones, in order, joined by ", ". |
| Validation.ValidateTrainingDatasetSize | utils/validation.py:168-183 | Valid exactly when `min <= count <= max`. The "Insufficient" and "Too many" messages carry the count and the bound that was broken. |
| Validation.ReplaceForbidden | utils/validation.py:194 | Each of `<>:"/\|?*` becomes `_` and every other character is kept, so the length stays the same. |
| Validation.SanitizedCore | utils/validation.py:194-197 | The core has no forbidden character and neither starts nor ends with `.` or space. |
| Validation.SanitizeFilename | utils/validation.py:186-206 | The result is 1 to 255 characters with no forbidden character and no leading `.` or space. It is "untitled" when the core is empty, and otherwise the core cut to 255 characters. |
| Validation.SafeNameIsItsOwnCore | utils/validation.py:194-197 | A name that is already safe is its own core. |
| DateParser.SplitDmy | utils/date_parser.py:19 | A text is split into day, month and year fields only when it has the shape `\d{1,2}.\d{1,2}.\d{4}` and renders back from those fields. |
| DateParser.SplitDmyOfRender | utils/date_parser.py:19 | Splitting the rendering of well-formed fields gives those fields back. |
| DateParser.Strptime | utils/date_parser.py:19 | `strptime(.., "%d.%m.%Y")` gives a date exactly when the text splits and the fields form a real Gregorian date. Every date it gives is valid. |
| DateParser.StrptimeOfRender | utils/date_parser.py:19 | Rendered fields parse exactly when they name a real date, and then to that date. |
| DateParser.ParseDdMmYyyy | utils/date_parser.py:10-22 | Success gives midnight of a valid date. Failure carries the message naming the original, unstripped input. |
| DateParser.ParseFormatRoundTrip | utils/date_parser.py:10-22 | Formatting any valid date as `DD.MM.YYYY` and parsing it gives back that date's midnight. |
| DateParser.ImpossibleDateRejected | utils/date_parser.py:18-21 | A well-shaped `DD.MM.YYYY` text that names no real date is rejected with the format message. |
| DateParser.ParseIgnoresSurroundingWhitespace | utils/date_parser.py:19 | Leading and trailing whitespace changes neither whether the text parses nor what it parses to. |
| DateParser.LeapDayParsesIffLeapYear | utils/date_parser.py:19 | `29.02.Y` parses exactly when `Y` is a Gregorian leap year. |
| DateParser.ThirtyFirstParsesIffLongMonth | utils/date_parser.py:19 | `31.MM.Y` parses exactly when the month has 31 days. |
| DateParser.OrdinalOrdersYears | utils/date_parser.py:44 | A day in an earlier year is an earlier instant. This is the ordering that `<=` on datetimes relies on. |
| DateParser.InstantOrderIsFieldOrder | utils/date_parser.py:44 | For valid datetimes, comparing seconds since the start of the calendar is `datetime`'s field-by-field comparison: year, month, day, hour, minute, second. |
| DateParser.FieldOrderIsInstantOrder | utils/date_parser.py:44 | A datetime strictly before another in field order is a strictly earlier instant. |
| DateParser.IsValidCutoffDate | utils/date_parser.py:37-44 | For valid datetimes, a date is a valid cutoff exactly when it is not after now in `datetime`'s field-by-field order. |
| DateParser.ReadableParts | utils/date_parser.py:54 | `%d %B %Y` is the two-digit day, a space, the English month name, a space and the year. |
| DateParser.FormatDateReadableInjective | utils/date_parser.py:47-54 | Two datetimes with the same readable form fall on the same day. |
| DateParser.DistinctDaysReadDifferently | utils/date_parser.py:47-54 | Different days never share a readable form. |
| DateParser.GetDateRangeDescription | utils/date_parser.py:57-70 | On the same calendar day the text is "on " and the start's readable form. Otherwise it is "from", the start's readable form, "to" and the end's readable form. The "on " form occurs exactly when the readable forms agree. |
| DateParser.RangeDescriptionInjective | utils/date_parser.py:57-70 | The description names its dates unambiguously: equal descriptions come from the same start day and the same end day. |
| DateParser.CompactStamp | services/ollama_client.py:110 | `%Y%m%d_%H%M%S` is the year's digits and four more, an underscore, then six digits. |
| DateParser.ParseCompactStamp | services/ollama_client.py:515-516 | A parsed stamp is always a valid datetime, and text without `_` never parses. |
| DateParser.CompactStampRoundTrip | services/ollama_client.py:515-516 | For four-digit years, parsing the compact stamp of a datetime gives that datetime back. |
| DateParser.ParseJoinedStamp | services/ollama_client.py:516 | Eight digits, `_` and six digits parse exactly to the datetime those fields name, when it is a valid one. |
| TaskRegistry.TaskKeyInjective | services/message_processor.py:94 | `f"{user_id}_{server_id}"` never gives two (user, server) pairs the same key. |
| TaskRegistry.Register | services/message_processor.py:94-99 | The key now holds the new task, and a task it held before is cancelled. Every other key is untouched. |
| TaskRegistry.Release | services/message_processor.py:145-147 | The key is removed whichever task it holds. Every other key is untouched. |
| TaskRegistry.Cancel | services/ollama_client.py:488-493 | Reports whether a task was registered. Afterwards the key is gone and its task is cancelled, and every other key is untouched. |
| TaskRegistry.RegisterStartsProgress | services/message_processor.py:94-99 | A newly registered task is in progress until its run releases the key. |
| TaskRegistry.CancelIsFinal | services/ollama_client.py:480-493 | After a cancel nothing is in progress for the key, and a second cancel reports false. |
| TaskRegistry.SupersededReleaseDropsNewer | services/message_processor.py:145-147 | When a second run replaces a first, the first run's release unregisters the second run, which is still live. |
| TaskRegistry.ReleaseOwn | services/message_processor.py:145-147 | A release that first checks the key still holds its own task: it removes only its own entry and keeps a replacement's. |
| TaskRegistry.ReleaseOwnKeepsNewer | services/message_processor.py:145-147 | With that check, a superseded run's exit keeps the replacement in progress, and a run's own exit still removes its entry. |
| MessageProcessor.UpsertProfile | services/message_processor.py:82-91 | `INSERT OR REPLACE` gives the key a fresh 'in_progress' row holding the cutoff's date, the requester and start time now. Every unlisted column starts over at its default, taken to be NULL, and other profiles are untouched. |
| MessageProcessor.UpdateProgress | services/message_processor.py:149-168 | An UPDATE: without a row nothing changes. Otherwise only progress, last_updated and, for a non-empty step text, error_message change. |
| MessageProcessor.MarkFailed | services/message_processor.py:202-210 | With a row, only status (now 'failed'), error_message and last_updated change. Other profiles are untouched. |
| MessageProcessor.MarkAnalysisComplete | services/message_processor.py:170-196 | Sets progress 100, completion time, dataset path and both counts, keeping the cutoff, requester and start time. The status is 'analysis_completed' with a cleared error, unless the training callback raised. Then it is 'failed' with "Model training failed: …". |
| MessageProcessor.IsAnalysisInProgress | services/message_processor.py:46-64 | True exactly when the profile exists and its status is 'in_progress'. |
| MessageProcessor.GetAnalysisStatus | services/message_processor.py:212-248 | A missing profile reads as 'not_started' with zeros. Otherwise each field is the row's value, with NULL numbers read as 0. |
| MessageProcessor.StatusReadersAgree | services/message_processor.py:46-64 | `is_analysis_in_progress` agrees with the status that `get_analysis_status` reports. 'not_started' is reported exactly when there is no profile. |
| MessageProcessor.ChannelYieldCollectible | services/message_processor.py:314-324 | Every record a channel yields is for the requested user and server, is unprocessed, and passes the content filter. |
| MessageProcessor.WantedIsYielded | services/message_processor.py:314-324 | Every history message by the user, not a bot, with non-empty content that passes the filter, is yielded as its record. |
| MessageProcessor.ChannelYieldConcat | services/message_processor.py:308-324 | The yield of a history is the yield of its parts, in history order. |
| MessageProcessor.AppendUntilCap | services/message_processor.py:283-290 | Appending a channel's yield with the inner check stops at 10,000 when starting below the cap. When already at or over the cap it still appends one message before the check breaks. |
| MessageProcessor.ChannelYields | services/message_processor.py:275-280 | Each channel contributes its yield when the bot has the four permissions, and nothing when one is missing. |
| MessageProcessor.CollectBound | services/message_processor.py:275-296 | The collection never holds more than 9,999 plus one message per channel. |
| MessageProcessor.CollectBelowCap | services/message_processor.py:275-296 | When the total stays below the cap, the collection is every permitted channel's yield, channel by channel. |
| MessageProcessor.CollectDrawsFromYields | services/message_processor.py:275-296 | Every collected record comes from some channel's yield. |
| MessageProcessor.CollectUserMessages | services/message_processor.py:250-298 | A missing guild or member raises its message. Otherwise every collected record is collectible, and at most 9,999 plus the channel count are collected. |
| MessageProcessor.WordCount | services/message_processor.py:376 | `len(content.split())` is at most the length, and is zero exactly when the content is all whitespace. |
| MessageProcessor.ProcessOne | services/message_processor.py:362-380 | A processed copy differs from its message only in content and in being marked processed. |
| MessageProcessor.ProcessOneSpec | services/message_processor.py:362-380 | A message is kept exactly when its cleaned content passes training validation. The kept copy carries the cleaned content and its word count. |
| MessageProcessor.Preprocess | services/message_processor.py:353-382 | Preprocessing never yields more messages than it is given. |
| MessageProcessor.PreprocessDrawsFromInput | services/message_processor.py:353-382 | Every preprocessed message is the processed form of some input message. |
| MessageProcessor.PreprocessOutputIsClean | services/message_processor.py:366-378 | Every preprocessed message has normalised, training-valid content and a matching word count. |
| MessageProcessor.PreprocessKeepsKeys | services/message_processor.py:374-378 | Preprocessing keeps each message's user and server and marks it processed. |
| MessageProcessor.PreprocessKeepsEveryValid | services/message_processor.py:353-382 | Every input message that passes cleaning and the training check appears, processed, in the output. |
| MessageProcessor.PreprocessIsPerMessage | services/message_processor.py:353-382 | Each message is handled on its own and the input order is kept: a batch's output is its halves' outputs concatenated, and one message yields its processed form or nothing. |
| MessageProcessor.RowsOf | services/message_processor.py:335 | The rows selected by `user_id = ? AND server_id = ?` all carry that key. |
| MessageProcessor.ProcessedRowsOf | services/message_processor.py:397 | The rows selected with `is_processed = 1` carry the key and are processed. |
| MessageProcessor.OtherRowsOf | services/message_processor.py:334-337 | After the DELETE no row of the key remains, and every other key's rows are untouched. |
| MessageProcessor.StoreMessages | services/message_processor.py:330-351 | After storing, the key's rows, and its processed rows, are exactly those of the stored messages, in order. |
| MessageProcessor.StoreLeavesOtherKeys | services/message_processor.py:330-351 | Storing for one key keeps every other key's rows and appends any stored messages of that key. |
| MessageProcessor.NoProcessedAfterStore | services/message_processor.py:340-349 | Storing unprocessed messages leaves the key with no processed rows. |
| MessageProcessor.SortByTime | services/message_processor.py:398 | `ORDER BY timestamp ASC` gives an ascending permutation of the selected rows. |
| MessageProcessor.EntryPromptsDistinct | services/message_processor.py:410 | The prompts "Context: Message {i+1}" of different entries differ. |
| MessageProcessor.BuildEntries | services/message_processor.py:406-417 | One entry per row. Entry `i` has prompt `i`, the row's content as response, and its timestamp, channel and index `i`. |
| MessageProcessor.PrepareTrainingDataset | services/message_processor.py:384-430 | Fails with "No processed messages found" exactly when the key has no processed rows. Otherwise the timestamped file's entries are the processed rows, each used exactly once, put in ascending time order (a permutation of the rows) and numbered from 0. |
| MessageProcessor.DatasetResponsesComeFromRows | services/message_processor.py:384-417 | Every dataset response, with its timestamp and channel, comes from one of the key's processed rows. |
| MessageProcessor.DatasetCoversEveryRow | services/message_processor.py:384-417 | Every processed row of the key is the response, with its timestamp and channel, of some dataset entry. |
| MessageProcessor.StartAnalysis | services/message_processor.py:66-100 | After starting, the profile reads 'in_progress' with zero counts and start time now, and the run is registered. A previous run for the key is cancelled. The message table is untouched. |
| MessageProcessor.StoreAndPrepareFails | services/message_processor.py:125-135 | Storing unprocessed messages and then querying the dataset always fails with "No processed messages found". |
| MessageProcessor.AnalysisStepsFail | services/message_processor.py:111-135 | With unprocessed collected messages, the steps always end in an error: the collection error, "No messages found…", the size verdict, or "No processed messages found". |
| MessageProcessor.Conclude | services/message_processor.py:137-142 | A failed attempt leaves the profile 'failed' with the error as its message. No profile is created or removed. |
| MessageProcessor.RunAnalysis | services/message_processor.py:102-147 | After a run the key is unregistered, and the set of profiles is unchanged. |
| MessageProcessor.CancelledRunExit | services/message_processor.py:143-147 | A cancelled run's `finally` only unregisters the key. Profiles and rows stay as they are. |
| MessageProcessor.CappedCollectionIsKeyed | services/message_processor.py:314-324 | The capped collection holds only rows of the requested key. |
| MessageProcessor.StoredPreprocessedAreFound | services/message_processor.py:374-397 | Once the preprocessed records are stored, the processed-row query finds exactly them. |
| OllamaClient.NewClient | services/ollama_client.py:30-35 | A new client has no loaded models and no training tasks. |
| OllamaClient.ModelName | services/ollama_client.py:110-111 | A model name is `echo_user_` … ending in the compact timestamp. |
| OllamaClient.GeneratedModelNameIsValid | services/ollama_client.py:110-111 | Every name the client generates, for ids below 10^20, passes `validate_model_name`. |
| OllamaClient.EffectiveConfig | services/ollama_client.py:114-120 | Without a given configuration the defaults are 10 epochs, batch size 4 and sequence length 512. A given one is used as is. |
| OllamaClient.ModelfileText | services/ollama_client.py:141-209 | The Modelfile starts with `FROM <base model>`. |
| OllamaClient.ModelfileSeesOnlyQualification | services/ollama_client.py:186-202 | Two datasets give the same Modelfile whenever their first 100 entries agree on which have a non-empty prompt and response. The example contents never reach the text. |
| OllamaClient.NoQualifyingExampleNoBlocks | services/ollama_client.py:186-202 | Without an entry that has both prompt and response, no example block is written. |
| OllamaClient.QualifyingIndices | services/ollama_client.py:187-191 | The listed indices are in range and name entries with both a prompt and a response. |
| OllamaClient.ExampleBlocksAreQualifyingBlocks | services/ollama_client.py:186-202 | The example section is exactly one numbered block per qualifying entry, in order. |
| OllamaClient.CreateFineTunedModel | services/ollama_client.py:88-139 | A missing dataset gives "Dataset file not found: …" and an unreadable one gives "Error creating fine-tuned model: …". In both cases nothing changes. Otherwise it returns the generated name, writes the Modelfile, and registers training under the key, cancelling an older task. |
| OllamaClient.RunModelTraining | services/ollama_client.py:211-253 | A successful create adds the model to the loaded set; a failure leaves the set alone. Either way the `finally` releases the key. |
| OllamaClient.IsTrainingInProgress | services/ollama_client.py:469-478 | True exactly when a task is registered under the key and has not finished. |
| OllamaClient.CancelTraining | services/ollama_client.py:480-493 | Reports whether training was registered. Afterwards none is, and the loaded set is unchanged. |
| OllamaClient.CheckOllamaAvailability | services/ollama_client.py:37-48 | Available exactly when listing works. Otherwise the error is "Ollama service unavailable: …". |
| OllamaClient.PullModel | services/ollama_client.py:69-86 | Succeeds exactly when the name is valid and the pull goes through. |
| OllamaClient.EnsureBaseModelAvailable | services/ollama_client.py:50-67 | Reports success exactly when listing works, whatever the pull does. |
| OllamaClient.LoadModel | services/ollama_client.py:255-286 | Loads exactly when the name is valid, the server lists it and the test chat goes through; only then is it added to the loaded set. |
| OllamaClient.UnloadModel | services/ollama_client.py:288-301 | Always reports success and removes only that name from the loaded set. |
| OllamaClient.DeleteModel | services/ollama_client.py:424-437 | A successful delete removes the name from the loaded set; a failed one changes nothing. |
| OllamaClient.BuildChatMessages | services/ollama_client.py:329-343 | The messages are the last five context entries (all of them when there are fewer), in order and with the `user` and empty-content defaults filled in, followed by the prompt as the final user message. |
| OllamaClient.ChatMessagesUseLastFive | services/ollama_client.py:333 | Only the last five context entries matter, and they are sent in order. A context of five or fewer entries is sent whole, entry by entry. |
| OllamaClient.GenerateResponse | services/ollama_client.py:303-362 | A model that is not loaded is loaded first. The chat is sent exactly when the model is loaded or the load succeeds, and it carries the built messages. Once sent, an answer always gives the stripped answer as the reply, and a failed chat call gives no reply. |
| OllamaClient.Sweep | services/ollama_client.py:506-525 | Exactly the listed, stale, successfully deleted models leave the loaded set, and the count never exceeds the list. |
| OllamaClient.SweepCountsDeleted | services/ollama_client.py:506-520 | For a list of distinct model names, the count returned is the number of listed models that are stale and that the server deleted. |
| OllamaClient.SweepWithoutStaleDeletesNothing | services/ollama_client.py:506-525 | A sweep in which no model is stale changes nothing and counts 0. |
| OllamaClient.CleanupOldModels | services/ollama_client.py:495-530 | The count of removed models never exceeds the listed models. |
| OllamaClient.GeneratedNamesAreNeverStale | services/ollama_client.py:515-516 | The age test as written never finds a generated name stale. |
| OllamaClient.LastTwoSegmentsOfModelName | services/ollama_client.py:110-111 | The last two `_`-separated segments of a generated name are its compact timestamp. |
| OllamaClient.CorrectedStalenessOfGeneratedName | services/ollama_client.py:515-518 | Reading the last two segments, a generated name is stale exactly when its model is more than `days_old` days old. |
| BackgroundTasks.NewManager | services/background_tasks.py:24-38 | A new manager is stopped, with empty cleanup statistics. |
| BackgroundTasks.StartBackgroundTasks | services/background_tasks.py:40-46 | Starting while stopped sets the flag and both loops. If the cleanup loop's `start()` raises, nothing changes. If the monitor loop's raises, only the cleanup loop runs and the flag stays off. Starting while running changes nothing. |
| BackgroundTasks.StopBackgroundTasks | services/background_tasks.py:48-55 | Stopping clears the flag and cancels both loops, and only when running. |
| BackgroundTasks.StartStopIdempotent | services/background_tasks.py:40-55 | Once a start has set the flag, another start changes nothing. Stop is idempotent. Neither touches the statistics. |
| BackgroundTasks.StopThenStartRuns | services/background_tasks.py:40-55 | After a stop, a start has both loops running again exactly when neither `start()` raises. Otherwise the flag stays off and the monitor loop stays as the stop left it. |
| BackgroundTasks.DailyCleanup | services/background_tasks.py:57-78 | When both sweeps succeed, the statistics record the time and both counts. An exception in either leaves everything as it was. |
| BackgroundTasks.SessionMonitor | services/background_tasks.py:81-93 | The session count is recorded only when the 24-hour sweep succeeds with a positive count. |
| BackgroundTasks.DailyCleanupRecordsNoModels | services/background_tasks.py:64-73 | With the client's cleanup as written, the daily run always records 0 models cleaned. |
| BackgroundTasks.Step | services/background_tasks.py:114-121 | A step runs exactly when the type is "all" or names it, and then reports its sweep's outcome. |
| BackgroundTasks.ManualCleanup | services/background_tasks.py:104-131 | The report carries the current time, and it reports success exactly when it carries no error. |
| BackgroundTasks.ManualCleanupDispatch | services/background_tasks.py:104-131 | Data, sessions and models run in that order, each when selected. A step's count is reported exactly when it was selected, no earlier step raised and it did not raise itself. Success means no selected step raised. |
| BackgroundTasks.UnknownTypeRunsNothing | services/background_tasks.py:104-131 | An unknown cleanup type runs nothing and reports success. |
| BackgroundTasks.RestartTask | services/background_tasks.py:148-174 | Only "cleanup" and "session_monitor" are restarted. It returns true exactly for those when the start goes through. Nothing else changes. |
| BackgroundTasks.UnhealthyNames | services/background_tasks.py:215-219 | Lists exactly the services whose status is "unhealthy". |
| BackgroundTasks.NoUnhealthyNames | services/background_tasks.py:215-223 | The list is empty exactly when no service is unhealthy. |
| BackgroundTasks.OllamaHealth | services/background_tasks.py:190-194 | Ollama is healthy exactly when it is available. The error is reported only when it is not. |
| BackgroundTasks.HealthCheck | services/background_tasks.py:176-229 | Reports ollama, database and background tasks, in that order. The overall status is "unhealthy" exactly when one of them is, and then the unhealthy names are listed. Otherwise it is "healthy". |
| BackgroundTasks.HealthIgnoresStoppedTasks | services/background_tasks.py:176-229 | Stopped background tasks never make the bot unhealthy: only an Ollama or database failure does. |
| BackgroundTasks.EchoStats | services/background_tasks.py:245-262 | `total_messages_processed` stays 0, and if every guild fails the totals are all 0. |
| BackgroundTasks.EchoStatsSumsAnswered | services/background_tasks.py:254-260 | The profile and session totals are the sums over the guilds whose statistics call succeeded. |
| BackgroundTasks.EchoStatsConcat | services/background_tasks.py:254-260 | The totals over two groups of guilds add up. |
| BackgroundTasks.GetSystemStats | services/background_tasks.py:231-268 | Reports the guild and user counts and the running flag, and sums profiles and sessions over the guilds that answered. |
| MessageProcessor.RunAnalysisAlwaysFails | services/message_processor.py:102-147 | Every run as written ends with the profile 'failed' and never in progress. Its message is the collection error, "No messages found…", the dataset-size verdict, or "No processed messages found". |
| MessageProcessor.SupersededRunForgetsReplacement | services/message_processor.py:143-147 | When a second analysis replaces a first and the first run exits, the registry holds no live run. The profile still reads 'in_progress'. |
| MessageProcessor.CapLeaks | services/message_processor.py:283-290 | A first channel yielding 10,000 messages and a second yielding one give 10,001 collected messages, which the dataset-size check refuses. |
| MessageProcessor.CollectUserMessagesCapped | services/message_processor.py:250-298 | Corrected collection: at most 10,000 records, and exactly the first records of all permitted yields in order. |
| MessageProcessor.CorrectedRunCompletes | services/message_processor.py:102-147 | Corrected run: with enough collected messages that preprocessing keeps, the profile ends 'analysis_completed' with progress 100 and the message count. |
| MessageProcessor.CorrectedStepsComplete | services/message_processor.py:111-135 | Corrected steps: with a valid collection size and messages that preprocessing keeps, the dataset is written and the steps complete with the message count. |
| OllamaClient.SupersededTrainingForgetsReplacement | services/ollama_client.py:244-247 | When a second training replaces a first and the first training exits, `is_training_in_progress` is false while the second is still live. |
| OllamaClient.CorrectedTrainingKeepsReplacement | services/ollama_client.py:244-247 | With an exit that removes only its own task, the replacement training stays in progress. |
| OllamaClient.CleanupNeverDeletes | services/ollama_client.py:515-516 | As written, the cleanup deletes no model and returns 0, whatever the models and the current time. |
| OllamaClient.CorrectedCleanupRemovesOldModel | services/ollama_client.py:515-518 | With the corrected age test, a generated model more than `days_old` days old that the server deletes leaves the loaded set. |
| Validation.SanitizeCanEndInDot | utils/validation.py:196-205 | A 254-character safe stem followed by `. b` sanitises to the stem plus a trailing `.`, and sanitising that result again changes it. |
| Validation.EdgeEndedNameChanges | utils/validation.py:196-205 | A name with no forbidden character that ends in `.` or a space is never its own sanitised form. |
| Validation.SanitizeFilenameCorrected | utils/validation.py:186-206 | Corrected sanitiser: 1 to 255 characters, no forbidden character, no `.` or space at either end, and a prefix of the as-written result. |
| Validation.SanitizeFilenameCorrectedIdempotent | utils/validation.py:186-206 | Sanitising a corrected result again changes nothing. |

## Left out

- Database, Discord and Ollama I/O: SQL statements, `aiosqlite`, `discord.py` and the Ollama HTTP client are not modelled. Their results, and any exception text, are parameters. Tables are sequences of rows, and `echo_profiles` is a map.
- Concurrency: `asyncio` scheduling is not modelled. Tasks are handles in a registry, and a task's `done()` is membership in a given set of finished handles. A cancelled task runs its `finally` and nothing else (`CancelledRunExit`).
- The clock: `datetime.now()` is a parameter. A `DateTime` has no microsecond field.
- DateParser.IsValidCutoffDate: `date_obj <= datetime.now()` also compares microseconds, and the model does not. A date in the same second as now but with more microseconds is refused by Python and accepted by the model. `Validation.ValidateCutoffDate` is not affected, because `strptime` with `%d.%m.%Y` gives microsecond 0, which is never after now.
- `tokenize_for_training` and `estimate_reading_time` (utils/text_processor.py:83-104): no modelled operation uses them, and the reading time is a float.
- `parse_flexible_date` (utils/date_parser.py:24-35): it is a call into `dateutil`, which is not part of this model.
- `cleanup_old_data` (services/message_processor.py:432-472): its DELETE statements and count are a `Sweep` parameter of the background loops.
- `set_personality_engine_callback`: the callback's outcome is the `CallbackOutcome` parameter of `MarkAnalysisComplete`.
- `stream_response`, `list_models` and `get_model_info` (services/ollama_client.py): `list_models` appears only through the list of names it returns. The other two change no state that the model tracks.
- The session manager, personality engine, cogs and `bot.py`: these are services/echo_session_manager.py, services/personality_engine.py, cogs/echo.py and bot.py, which are not part of this model. They appear only through the sweeps and statistics the background tasks read from them.
- `get_task_status`, the uptime and `is_being_cancelled`: there is no loop scheduler, so a loop is `NotStarted`, `Running` or `Cancelled`.
- Floating-point settings: `learning_rate`, `temperature`, `top_p` and the other float settings are not modelled. The Modelfile text keeps them as literal text.
- The escaped prompt and response in `_create_modelfile`: they are computed but never inserted into the Modelfile, so the model does not compute them.
- `\w` is ASCII letters, digits and `_` only. Python's Unicode word characters are not modelled.
- `\d` is the ASCII digits `0`-`9` only. In a `str` pattern Python's `\d` matches every Unicode decimal digit, and `int()` and `strptime` accept those digits as well. Arabic-Indic digits are one example. So the model rejects texts that Python accepts in `Validation.ValidateDiscordId`, `Validation.ValidateCutoffDate`, `DateParser.SplitDmy`, `DateParser.Strptime` and the mention patterns `TextProcessor.MatchUser`, `TextProcessor.MatchRole` and `TextProcessor.MatchChannel`. Bot ids and typed dates use ASCII digits.
- DateParser.ParseCompactStamp: only the fixed shape `YYYYMMDD_HHMMSS` is accepted. `strptime` also accepts one-digit month, day, hour, minute and second fields, as in `"2020111_123"`, which is 1 November 2020, 01:02:03. `OllamaClient.CleanupNeverDeletes` does not depend on this, because the segment it parses has no `_`. `OllamaClient.IsStaleCorrected` and `OllamaClient.CleanupOldModelsCorrected` can differ from the corrected source on model names carrying such short stamps. Names the client generates always carry the full fixed shape.
- TextProcessor.TruncateContent: `last_sentence > max_length * 0.7` is compared exactly as `10 * last_sentence > 7 * max_length`. The IEEE product can fall just below the exact value (70 * 0.7 is 48.99999999999999), so for some lengths Python keeps one more sentence end than the model does.
- TextProcessor.MostlySpecial: `count < len * 0.3` is compared exactly as `10 * count < 3 * len`.
- DateParser.CompactStampRoundTrip: it holds for four-digit years only. `%Y` does not pad years below 1000.
- OllamaClient.SweepCountsDeleted: stated for lists of distinct names only, because the server lists each model once. With a repeated name, the fixed `deletable` set would count a second deletion that the server would refuse.
- OllamaClient.CleanupOldModels: its own contract only bounds the count. Its behaviour is stated by `CleanupNeverDeletes`.
- MessageProcessor.RunAnalysis: its own contract states only the registry and profile keys. The outcome is stated by `RunAnalysisAlwaysFails`.
- OllamaClient.ModelfileText: its own contract states only the `FROM` line. The example section is stated by `ExampleBlocksAreQualifyingBlocks` and `ExampleBlocksSeeOnlyQualification`.
- TextProcessor.CleanDiscordContent: its own contract states only the whitespace normalisation. The five substitutions are stated by `SubstituteAtMatch`, `SubstituteSkipsNonMatch`, `UrlCollapseChangesIffContainsUrl` and `CleanPlainText`.
- TextProcessor.ExtractMentions: its own contract states only that ids are digit strings. What is found is stated for lone mentions by `UserMentionIsAUser`, `RoleMentionIsNotAUser` and `NoIdsWithoutOpening`.

## Findings

| source | as written | input that shows it | evidently intended | confidence | as-written member | corrected member |
|---|---|---|---|---|---|---|
| services/message_processor.py:125-135 | The collected messages are stored unprocessed. The preprocessed copies are never written back. The dataset query then asks for `is_processed = 1` rows. | Any guild where the user has 50 or more collectible messages: the query finds no rows, so the run fails with "No processed messages found". | Store the preprocessed records before the dataset query, so that a run with usable messages completes. Proved by `MessageProcessor.CorrectedRunCompletes`. | not executed | MessageProcessor.RunAnalysisAlwaysFails | MessageProcessor.RunAnalysisCorrected |
| services/message_processor.py:143-147 | A run's `finally` deletes the task key without checking which task the key holds. | Start an analysis, then start another for the same user and server: the first run's exit removes the second, still-live run's entry. | Remove the entry only while it holds this run's own task. Proved by `TaskRegistry.ReleaseOwnKeepsNewer`. | not executed | MessageProcessor.SupersededRunForgetsReplacement | TaskRegistry.ReleaseOwn |
| services/ollama_client.py:244-247 | Training's `finally` deletes the task key without checking which task the key holds. | Create a model, then create another for the same user and server: the first training's exit makes `is_training_in_progress` false while the second still runs. | Remove the entry only while it holds this training's own task. | not executed | OllamaClient.SupersededTrainingForgetsReplacement | OllamaClient.RunModelTrainingCorrected |
| services/message_processor.py:283-290 | The 10,000 check is inside the per-channel loop, and its `break` only ends that channel. Every later channel still appends one message. | Channel 1 yields 10,000 messages and channel 2 yields 1: 10,001 messages are collected, so the size check refuses the dataset. | Stop collecting at 10,000 messages in total. Proved by the contract of `MessageProcessor.CollectUserMessagesCapped`. | not executed | MessageProcessor.CapLeaks | MessageProcessor.CollectUserMessagesCapped |
| services/ollama_client.py:515-516 | `model_name.split('_')[-1]` keeps only `HHMMSS`, which `%Y%m%d_%H%M%S` can never parse. | A generated model `echo_user_1_server_2_20200101_000000`, years old: it is skipped and never deleted. | Parse the last two segments, so a model more than `days_old` days old is deleted. Proved by `OllamaClient.CorrectedCleanupRemovesOldModel`. | not executed | OllamaClient.CleanupNeverDeletes | OllamaClient.CleanupOldModelsCorrected |
| utils/validation.py:196-205 | Dots and spaces are stripped before the name is cut to 255 characters, so the cut can leave a trailing `.`, and sanitising again changes the name. | A 254-character safe stem followed by `. b` gives the stem plus `.`. A second pass drops the dot. | Strip after truncating, so a sanitised name has no `.` or space at either end and sanitising is idempotent. Proved by `Validation.SanitizeFilenameCorrectedIdempotent`. | not executed | Validation.SanitizeCanEndInDot | Validation.SanitizeFilenameCorrected |
