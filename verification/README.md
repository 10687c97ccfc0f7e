# Teams channel message statistics, modelled in Dafny

`channels_stats.py` counts, for last week, how many messages each sender
posted in each channel of a fixed list of Microsoft Teams teams. It does
this in five steps:

1. It pages through the Graph `groups` listing to get every team.
2. It keeps the teams whose names match a target once spaces are removed,
   and reads each kept team's channels.
3. For each channel, it walks the message pages newest-first. Each root
   message is credited to its sender, and the walk follows the root's reply
   pages. A root older than the window's start ends the channel. A reply
   older than the start ends only that thread. A 429 answer is waited out
   and the same page is asked for again.
4. It adds the per-channel tallies into one sender × "team - channel"
   matrix.
5. It writes one row per sender with the total, sorted by total, largest
   first.

This project models those steps as pure functions, plus three methods: a
row's total and the sorted table (`Reporting.RowTotal`, `Reporting.Report`)
and the whole run that ends in the table (`Pipeline.GenerateStats`). It
proves what they compute.

The modules follow the script's structure:

- `Results`: `Option`, `Result`, and the exceptions the script can raise.
  None of them is caught, so each one ends the run.
- `Digits`, `Timestamps`: the two `strptime` formats, with CPython's
  variable-width fields and case-insensitive literals, over ASCII digits.
  The `datetime` constructor's range checks are included. Naive `datetime` comparison is
  modelled as a microsecond instant.
- `Window`: the reporting window computed from the current time.
- `Senders`: the `displayName` / `id` / `"Unknown"` fallback chain.
- `Listing`: messages, server answers (a 429 with its `Retry-After` header,
  or a JSON page) and `int()` of the header.
- `Tally`: the nested count maps, crediting, the additive merge, and the
  totals.
- `ChannelScan`: `get_channel_messages` and its inner `fetch_replies`, as
  the script runs them.
- `ScanProperties`: a loop-free description of what a scan credits. The
  messages of a listing are read as one stream. A channel credits the
  in-range prefix of its root stream, and each credited root with an id is
  followed by the in-range prefix of its own reply stream. This module also
  holds the early exits and the 429 answers.
- `Teams`: `get_teams` and `get_target_channels`.
- `Reporting`: the rows, their totals, and the sort.
- `Pipeline`: `generate_message_stats` from the clock reading to the sorted
  table, and the end-to-end count.

The network is replaced by inputs:

- a listing is the finite sequence of answers the server gives, in order;
- a root message carries the answers to its replies URL;
- the channels of a team come from a function of the team id;
- the listing of a channel comes from a function of its descriptor;
- the current time is a microsecond count.

A throttled or failed answer to the team listing has neither `value` nor a
next link, so it ends that listing with the teams gathered so far
(`GetTeams`).

Some consequences of the code that the model keeps:

- A 429 answer without a Retry-After header waits 1 second. The same page
  is asked for again as often as the server answers 429; nothing bounds the
  number of retries and the wait does not grow.
- A missing timestamp raises `TypeError`, and an unparseable one raises
  `ValueError`. In both cases the run ends; the message is not skipped.
- Team names match after removing every ASCII space, wherever it occurs in
  the name.
- Sorting uses pandas' default quicksort, so the order of rows with equal
  totals is not fixed.
- A run that credits nothing fails in `sort_values` with `KeyError`,
  because the frame has no `Total Messages` column.
- The window's end (channels_stats.py:186) is computed but never passed to
  the scan. Only its start is a bound, so messages newer than last Sunday
  are credited as well.

## Model

| member | source | states |
|---|---|---|
| Timestamps.Strptime | channels_stats.py:85-87 | a string that either format accepts gives a date the `datetime` constructor accepts (year at least 1, day within its month, hour below 24, second below 60) |
| Timestamps.ParseCreated | channels_stats.py:83-87 | a missing `createdDateTime` is exactly the `TypeError` case; otherwise the only failure is `ValueError` from both formats; a success is a valid date |
| Timestamps.FractionRoundTrip | channels_stats.py:84-85 | a timestamp written with 1 to 6 fraction digits parses back to the same date and time, its microseconds cut to those digits |
| Timestamps.WholeRoundTrip | channels_stats.py:86-87 | a whole-second timestamp fails the first format, falls back to the second and parses back to the same date and time with zero microseconds |
| Timestamps.FormatsAgree | channels_stats.py:84-87 | `...:00.000000Z` and `...:00Z` parse to the same instant |
| Timestamps.InstantOrder | channels_stats.py:121 | Python's field-by-field `<` on naive datetimes holds exactly when the first instant is smaller, and two valid datetimes are equal exactly when their instants are |
| Window.ReportingWindow | channels_stats.py:180-190 | fails (timedelta overflow) exactly in the first week of year 1; otherwise starts at a Monday midnight and ends on the following Sunday at 23:59:59.999999, seven days less a microsecond later, before the current week's Monday, which is not after now |
| Window.WindowIsLastWeek | channels_stats.py:182-190 | the current week's Monday midnight is exactly seven days after the window's start |
| Window.WindowStartUnique | channels_stats.py:182-190 | the start is the one Monday midnight within seven days at or before `now - 7 days` |
| Window.WindowAlternative | test.py:47-52 | the other derivation, `now - (weekday + 7) days` at midnight and six days on at end of day, gives the same window |
| Senders.SenderAsWritten | channels_stats.py:92-96 | the lookup as written fails only with `AttributeError` on a null user |
| Senders.Sender | channels_stats.py:125-129 | the sender is never empty; it is the user's non-empty `displayName`, else the user's non-empty `id`, else `"Unknown"`, and a non-empty display name always wins |
| Senders.SenderCorrection | channels_stats.py:125-129 | the lookup as written fails exactly on `"user": null` and otherwise agrees with the corrected lookup |
| Senders.NullUserRaises | channels_stats.py:92-94 | on `"user": null` the lookup as written raises and the corrected one gives `"Unknown"` |
| Listing.ParseInt | channels_stats.py:75 | `int()` of a header: a run of 1 to 4300 decimal digits reads back as the number it denotes; more than 4300 digits (leading zeros count) and the empty text are rejected with `ValueError` |
| Listing.RetryAfter | channels_stats.py:74-77 | an absent header waits 1 second; a wait is at most 9223372036 seconds; the only failures are `int()` rejecting the header, `time.sleep` overflowing beyond that bound and `time.sleep` rejecting a negative value |
| Listing.RetryAfterDigits | channels_stats.py:107-109 | a header of at most 4300 (zero-padded) decimal digits waits exactly that many seconds up to 9223372036, beyond which the sleep raises `OverflowError`; a longer header, whatever its value, makes `int()` raise `ValueError` |
| Listing.RetryAfterNegative | channels_stats.py:107-109 | a negative header of at most 4300 digits parses, and the sleep raises `ValueError`, or `OverflowError` below -9223372036; a longer one makes `int()` raise `ValueError` |
| Listing.TrimUnspaced | channels_stats.py:107 | `int()`'s whitespace strip leaves a header without surrounding whitespace unchanged |
| Tally.Credit | channels_stats.py:98 | crediting adds one to exactly the (sender, channel key) cell, adds the sender and key when new, and changes nothing else |
| Tally.AddCounts | channels_stats.py:199-200 | adding two rows of counts gives the union of their keys with every count the sum of the two |
| Tally.AddInto | channels_stats.py:198-200 | merging a channel tally gives the union of senders, and each sender's row is the sum of its two rows |
| Tally.AddSwap | channels_stats.py:196-200 | merging two tallies in either order gives the same matrix |
| Tally.MergePermutation | channels_stats.py:196-200 | the merged matrix does not depend on the order of the channels |
| Tally.MergeAll | channels_stats.py:196-200 | the channel tallies merged in the order the channels are processed; its cells and grand total are stated by `Tally.MergeCells`, `Tally.MergeGrand` and `Tally.MergePermutation` |
| Tally.MergeCells | channels_stats.py:196-200 | each merged cell is the sum of that cell over all channel tallies |
| Tally.AddEmpty | channels_stats.py:198-200 | merging a channel that credited nothing leaves the matrix unchanged |
| Tally.MergeSenders | channels_stats.py:196-200 | a sender is in the merged matrix exactly when some channel tally has it, so an empty tally adds no sender |
| Tally.SumAdd | channels_stats.py:205 | the sum of merged counts is the sum of the two sums |
| Tally.GrandCredit | channels_stats.py:131 | each credit adds exactly one message to the grand total |
| Tally.MergeGrand | channels_stats.py:196-200 | the merged matrix credits as many messages as all channel tallies together |
| ChannelScan.ReplyPage | channels_stats.py:82-98 | one page of replies only adds credits, keeps them under the channel key, and fails only on a missing or bad timestamp (a null user is credited to `"Unknown"`, see Findings) |
| ChannelScan.Replies | channels_stats.py:68-100 | a reply listing only adds credits under the channel key and fails only on a missing or bad timestamp or a rejected Retry-After (a null user is credited to `"Unknown"`) |
| ChannelScan.RootPage | channels_stats.py:114-136 | one page of roots with their threads only adds credits under the channel key and fails only on a missing or bad timestamp or a rejected Retry-After (a null user is credited to `"Unknown"`) |
| ChannelScan.Roots | channels_stats.py:104-138 | a channel listing only adds credits under the channel key and fails only on a missing or bad timestamp or a rejected Retry-After (a null user is credited to `"Unknown"`) |
| ChannelScan.ChannelKey | channels_stats.py:64 | the column a channel's credits go under; `ChannelScan.ScanChannel` and `ScanProperties.ScanCounts` state that every credit of a channel lands under it |
| ChannelScan.SharedKey | channels_stats.py:64 | two different channels can have the same key, and then their credits add into one column |
| ChannelScan.ScanChannel | channels_stats.py:59-140 | a channel's tally has every sender under the one key `"{team} - {channel}"` |
| ScanProperties.PrefixIsLongest | channels_stats.py:121-122 | the credited part of a stream is a prefix of it, all in range, and the message after it is out of range |
| ScanProperties.ReplyPageCredits | channels_stats.py:82-98 | a reply page that does not fail credits its in-range prefix one by one and stops exactly when the prefix is not the whole page |
| ScanProperties.RepliesCredit | channels_stats.py:68-100 | a reply listing that does not fail credits exactly the in-range prefix of the stream of fetched pages |
| ScanProperties.RootPageCredits | channels_stats.py:114-136 | a root page that does not fail credits each in-range root and then, when it has an id, the in-range prefix of its reply stream, up to the first out-of-range root |
| ScanProperties.RootsCredit | channels_stats.py:102-140 | a channel listing that does not fail credits exactly the reference sequence: the in-range prefix of the root stream, each root followed by its credited replies |
| ScanProperties.ReplyPageSucceeds | channels_stats.py:82-87 | a reply page whose timestamps all parse does not fail |
| ScanProperties.RepliesSucceed | channels_stats.py:72-87 | a reply listing whose Retry-After headers are all usable and whose timestamps all parse does not fail |
| ScanProperties.RootPageSucceeds | channels_stats.py:114-136 | a root page whose timestamps parse, and whose roots' reply listings are clean, does not fail |
| ScanProperties.RootsSucceed | channels_stats.py:104-138 | a channel listing that is clean throughout, reply listings included, does not fail |
| ScanProperties.ScanSucceeds | channels_stats.py:59-140 | a clean channel is scanned without failure |
| ScanProperties.CreditAllAppend | channels_stats.py:131 | crediting two sequences one after the other is crediting their concatenation |
| ScanProperties.ThreadsAppend | channels_stats.py:133-136 | the threads of two sequences of roots are the threads of each, in order |
| ScanProperties.CreditAllGrand | channels_stats.py:98 | crediting a sequence adds its length to the grand total |
| ScanProperties.CreditAllCount | channels_stats.py:131 | crediting a sequence adds to each sender's cell under the key the number of messages it sent and leaves other keys alone |
| ScanProperties.ScanCounts | channels_stats.py:59-140 | when a channel's scan succeeds, its grand total is the number of credited messages, and each sender's count is how many of them that sender sent |
| ScanProperties.RootPageExit | channels_stats.py:121-122 | after a root older than the cutoff nothing on the page is read, and the page reports the stop |
| ScanProperties.ReplyPageExit | channels_stats.py:89-90 | after a reply older than the cutoff nothing on the page is read, and the page reports the stop |
| ScanProperties.RootsExit | channels_stats.py:121-122 | a root older than the cutoff ends the whole channel: the rest of its page, its next link and all later answers are ignored |
| ScanProperties.RepliesExit | channels_stats.py:89-90 | a reply older than the cutoff ends that reply listing: the rest of its page, its next link and all later answers are ignored |
| ScanProperties.RootsRetry | channels_stats.py:106-110 | a 429 with a usable Retry-After anywhere in a channel listing leaves the result unchanged |
| ScanProperties.RepliesRetry | channels_stats.py:74-78 | a 429 with a usable Retry-After anywhere in a reply listing leaves the result unchanged |
| ScanProperties.RootsRetryFails | channels_stats.py:107-109 | a 429 whose Retry-After is rejected ends the scan with that error |
| Teams.GetTeams | channels_stats.py:27-36 | every team listed comes from the `value` list of one of the pages; `Teams.TeamsOfPages` states which pages are read |
| Teams.TeamsOfPages | channels_stats.py:31-36 | the teams are the pages' `value` lists in order, up to and including the first page without a next link, and nothing after it |
| Teams.StripSpaces | channels_stats.py:40 | the result has no space and is no longer than the name, and a name without spaces is unchanged |
| Teams.StripAppend | channels_stats.py:40 | removing spaces works piecewise: spaces are dropped and the other characters keep their order |
| Teams.StripKeepsOthers | channels_stats.py:45 | every other character survives as often as it occurs |
| Teams.StripIdempotent | channels_stats.py:40 | removing spaces twice is removing them once |
| Teams.Normalized | channels_stats.py:40 | the normalised target list has one space-free name per target, in order |
| Teams.IsTarget | channels_stats.py:44-45 | a team is kept exactly when its space-free name (`""` when it has none) equals some target's space-free name |
| Teams.ChannelRefs | channels_stats.py:49-55 | the team's channels become descriptors in order exactly when every channel has an `id` and a `displayName`; otherwise `KeyError` |
| Teams.TargetChannels | channels_stats.py:38-57 | the only failure is `KeyError` |
| Teams.TargetsAppend | channels_stats.py:43-55 | the descriptors of a list of teams are those of each part, in order |
| Teams.TargetsFromSelected | channels_stats.py:43-55 | every descriptor carries the id and name of a kept team |
| Teams.UnselectedIgnored | channels_stats.py:45 | a team that matches no target contributes nothing and is never looked up |
| Teams.TargetsFail | channels_stats.py:46-53 | the listing fails exactly when some kept team has no `id` or lists a channel without `id` or `displayName` |
| Reporting.RowTotal | channels_stats.py:205 | the loop computes the sum of the sender's channel counts |
| Reporting.InsertRow | channels_stats.py:211 | the result is a permutation of the rows plus the new one (each row kept exactly as often as given), and sorted rows stay sorted by total, largest first |
| Reporting.InsertDistinct | channels_stats.py:204-208 | inserting the row of a new sender keeps one row per sender |
| Reporting.Report | channels_stats.py:203-211 | fails with `KeyError` exactly on an empty matrix; otherwise one row per sender with that sender's counts and their sum, ordered by non-increasing total |
| Reporting.RowsAddUp | channels_stats.py:204-208 | the `Total Messages` column adds up to the number of messages the matrix credits |
| Pipeline.ScanAll | channels_stats.py:196-197 | the channels are scanned in order, each with its own key and the window start as cutoff; the run fails exactly when one scan fails |
| Pipeline.Collect | channels_stats.py:145-200 | a run fails only with a window overflow, a `KeyError` or a listing failure, and always with the overflow in the first week of year 1 |
| Pipeline.GenerateStats | channels_stats.py:178-211 | the table is the sorted report of the collected matrix; a failure anywhere before it is passed on |
| Pipeline.TalliesCells | channels_stats.py:196-200 | when every scan succeeds, the per-channel tallies sum, cell by cell, to each sender's credited messages over the channels with that key |
| Pipeline.TalliesGrand | channels_stats.py:196-200 | when every scan succeeds, the channel tallies together credit as many messages as the channels' credited sequences hold |
| Pipeline.CollectCounts | channels_stats.py:178-200 | when a run gets as far as its matrix, every cell counts the credited messages of that sender over the channels with that key, and the grand total counts all credited messages |
| Pipeline.CollectSucceeds | channels_stats.py:178-200 | a valid window, complete team and channel records and clean listings are enough for the run to get as far as its matrix |

## Left out

- The network: HTTP requests, status codes other than 429, JSON decoding,
  the request headers, and `get_access_token` (channels_stats.py:10-24).
  Every server answer is an input. A listing that runs out of answers ends
  the loop, whereas the script would keep asking.
- The sleep itself. The wait is computed and checked, but no time passes.
  `time` is imported only under `__main__`, so importing the script as a
  module would turn a 429 into a `NameError`; that is not modelled.
- `print`, the output file name (channels_stats.py:144-158), `to_csv`, and
  the DataFrame's column layout. A row carries the sender's count map
  instead of one column per channel key with `NaN` for missing cells.
- `Pipeline.Collect` reads the clock once, whereas the script reads it at
  line 145 and again at line 180. A run that crosses midnight into Monday
  could name its file after one week and count another.
- `email_utils.py` and all of `test.py` except its window formula: mail
  sending and timezone conversion are foreign libraries.
- `Listing.RetryAfter`: it accepts ASCII digits, sign and whitespace only.
  Python's `int()` also accepts underscores between digits, non-ASCII
  digits and Unicode whitespace. The 4300-digit limit of `int()` is the
  default of Python 3.11 and later. It can be changed with
  `sys.set_int_max_str_digits` or `PYTHONINTMAXSTRDIGITS`, and older
  versions have no limit; a longer header then waits its value or
  overflows the sleep.
- `Timestamps.Strptime`: it accepts ASCII digits only. CPython's
  `_strptime` patterns use `\d` without the ASCII flag, so any Unicode
  decimal digit (such as the full-width `２`) matches, and `int()` reads it.
  The set of such digits depends on the interpreter's Unicode version.
- `ChannelScan.ReplyPage`: a reply whose `from.user` is JSON null is
  credited to `"Unknown"` (the corrected lookup `Senders.Sender`); the
  script raises `AttributeError` at channels_stats.py:94 (see Findings).
- `ChannelScan.Replies`: through `ChannelScan.ReplyPage`, a null-user reply
  is credited to `"Unknown"` where the script raises at
  channels_stats.py:94.
- `ChannelScan.RootPage`: a root message whose `from.user` is JSON null is
  credited to `"Unknown"`; the script raises `AttributeError` at
  channels_stats.py:127. Its thread's replies are as for
  `ChannelScan.Replies`.
- `ChannelScan.Roots`: through `ChannelScan.RootPage`, a null user is
  credited to `"Unknown"` where the script raises at channels_stats.py:127
  (root) or :94 (reply).
- `ChannelScan.ScanChannel`: through `ChannelScan.Roots`, a channel with a
  null-user message is tallied where the script raises `AttributeError`.
- `Pipeline.Collect`: through the scan, a run meeting a null user goes on
  where the script ends with `AttributeError`; that failure is not among
  the run's failures.
- `Pipeline.GenerateStats`: through `Pipeline.Collect`, the same run ends
  in a table where the script raises `AttributeError`.
- JSON values of unexpected types. Examples: a team `displayName` that is
  `null` (`.replace` on `None` raises), a `value` that is not a list, a
  `createdDateTime` that is not a string. An absent `value` is an empty
  list, as `.get('value', [])` makes it.
- Timezones. `utcnow()` and the message timestamps are naive and both read
  as UTC; no conversion takes place.
- `Reporting.Report`: it does not fix the order of rows with equal totals,
  because pandas' quicksort does not.

## Findings

| source | as written | input that shows it | evidently intended | confidence | as-written member | corrected member |
|---|---|---|---|---|---|---|
| channels_stats.py:92-96 | `reply_sender_info.get('user', {}).get('displayName')` calls `.get` on `None` when the key `user` is present with value `null` (the same at lines 125-129) | a message or reply posted by an app or bot, `"from": {"user": null, "application": {...}}`, raises `AttributeError` and ends the whole run | such a message is credited to `"Unknown"`, like one whose `from` has no user | medium; not executed | Senders.SenderAsWritten | Senders.Sender |

`Senders.NullUserRaises` exhibits the failing input. `Senders.SenderCorrection`
proves that the two lookups agree on every other input. The channel scan
uses the corrected lookup.
