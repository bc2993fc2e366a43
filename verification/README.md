# Lupusregina, modelled in Dafny

Lupusregina is a Discord bot written in Rust on the serenity framework. This project models the parts of it that are plain logic over integers, strings and finite maps, and proves properties of them:

- **Per-guild command prefixes.** `src/db.rs` keeps one prefix per guild in an SQLite table `Prefix(guild_id TEXT PRIMARY KEY, prefix TEXT)`. The key is the guild id written in decimal. `setprefix` (`src/commands/admin.rs`) writes a guild's row. The `dynamic_prefix` hook in `src/main.rs` resolves each message's prefix:
  - a direct message uses `""`;
  - a guild message uses the stored prefix;
  - anything else uses `"."`.
- **Wiring in `src/main.rs`.**
  - The `after` hook reacts ✅ or ❌ depending on the command's result.
  - The `ready` event records the boot instant only once.
- **The fun commands (`src/commands/fun.rs`).**
  - The Discordian date conversion `Dday::from` and its `Display`.
  - The ordinal suffix.
  - The eightball answer table and its colour bands.
  - The assembly of a Dark Souls 3 message.
- **The AniList embeds (`src/commands/weeb.rs`).**
  - `format_desc` and `strip_stupid_backslashes`.
  - Fuzzy-date rendering with `"0000/00/00"` as the "no date" sentinel.
  - Title, genre and score selection.
  - The field list of the `anime` and `manga` embeds.
- **The owner commands (`src/commands/owner.rs`).**
  - The uptime line of `info`.
  - The status/type/URL/name parsing of `set`.
- **The voice commands (`src/commands/voice.rs`).**
  - `_parse_duration`.
  - The position shown by `nowplaying`.
  - The guard decisions of `play`.

Layout, one Dafny module per file:

- `wrappers.dfy` (`Wrappers`): `Option` and `Result`.
- `text.dfy` (`Text`): the Rust standard-library behaviour the bot relies on, written out on `seq<char>` and unbounded integers:
  - truncating `/` and `%`;
  - `to_string` and `{:0w}` padding;
  - `u64::from_str`;
  - `str::replace` (left to right, non-overlapping);
  - `join`;
  - `to_ascii_uppercase`.
- `chat.dfy` (`Chat`): guild and channel ids, the message fields that are inspected, and `CommandResult`.
- `db.dfy` (`Db`): the prefix store.
  - It is a class whose field `table: map<string, string>` holds the rows.
  - A lookup is a function and an upsert is a method.
  - `get_all_prefixes` is a loop over the rows, which are picked in no fixed order.
- `bot.dfy` (`Bot`): prefix resolution, the reaction rule, and the client data class with its `ready` update.
- `admin.dfy` (`Admin`): `setprefix` as a method that changes the store.
- `fun.dfy` (`Fun`), `weeb.dfy` (`Weeb`), `owner.dfy` (`Owner`), `voice.dfy` (`Voice`): the command logic named above.

Randomness, clock readings, today's date, database and network failures, and what the framework's cache reports are all passed in as parameters.

The `Prefixes` key of `src/util.rs:46-50` is declared but never read or written: `setprefix` writes the SQLite table, and prefix resolution reads it for every message. The model has the table and no cache.

## Model

| member | source | states |
|---|---|---|
| Text.TruncRem | src/commands/owner.rs:42-48 | Rust's `%` on signed integers: quotient times divisor plus remainder gives the dividend back, and the remainder takes the dividend's sign and is smaller than the divisor |
| Text.ToDecimal | src/db.rs:68 | `to_string` of a guild id is non-empty, all digits, one digit exactly below 10, and starts with '0' only for 0 |
| Text.ParseU64 | src/db.rs:88 | `parse::<u64>()` rejects "" and "+" as empty, and accepts only an optional '+' followed by at least one ASCII digit |
| Text.Accumulate | src/db.rs:88 | the digit loop succeeds only on all-digit text and never decreases the accumulated value |
| Text.ToDecimalInjective | src/db.rs:101 | two different ids never render to the same decimal text, so two guilds never share a row key |
| Text.ParseToDecimal | src/db.rs:88 | `parse::<u64>()` of the decimal text of any `u64` gives that `u64` back |
| Text.AccumulateDecimal | src/db.rs:88 | the digit-by-digit checked accumulation of `from_str` reads the decimal text of any `u64` back as that number, never overflowing |
| Text.PadInt | src/commands/weeb.rs:86-91 | `{:0w}` padding is never shorter than the width |
| Text.PadIntAllZeros | src/commands/weeb.rs:86-91 | a padded number is all zeros exactly when the number is 0 |
| Text.PadReadsBack | src/commands/weeb.rs:86-91 | a zero-padded `u64` parses back as that number, so padding keeps the value |
| Text.ReplaceWithoutMatch | src/commands/weeb.rs:412-428 | `replace` of a pattern that does not occur returns the text unchanged |
| Text.Replace | src/commands/weeb.rs:412-428 | `str::replace` with a replacement equal to the pattern changes nothing, and one of the pattern's length keeps the text's length |
| Text.ReplaceLeavesNoOccurrence | src/commands/weeb.rs:416-428 | after `replace(pat, rep)` with a non-empty `rep` sharing no character with `y`, `y` no longer occurs, when `y` is `pat` or did not occur before |
| Text.AsciiUpper | src/commands/owner.rs:242 | `to_ascii_uppercase` keeps the length and maps each character on its own |
| Text.UpperMatchesIgnoringCase | src/commands/owner.rs:242-255 | comparing the upper-cased token with an upper-case name is comparing the two ignoring ASCII case |
| Text.JoinContains | src/commands/weeb.rs:131-141 | every element of a list appears in its `join` |
| Db.PrefixStore.constructor | src/db.rs:42 | the store opens over the rows the database file holds |
| Db.PrefixStore.GetGuildPrefix | src/db.rs:61-70 | the lookup succeeds exactly when the database is reachable and the guild has a row, with that row's prefix; a missing row gives "Guild not found."; a failure of reaching the database is passed on |
| Db.PrefixStore.SetGuildPrefix | src/db.rs:93-106 | `INSERT OR REPLACE`: on success the table is the old one with the guild's key mapped to the new prefix; on failure the table is unchanged |
| Db.PrefixStore.GetAllPrefixes | src/db.rs:72-91 | the loop succeeds exactly when every stored key parses as `u64`; otherwise it fails with the parse error of some key; on success every row's parsed id is present with the prefix of a row that parses to it |
| Db.GuildKeyInjective | src/db.rs:68 | two guilds with the same row key are the same guild |
| Db.Select | src/db.rs:61-70 | the lookup finds the row stored under the guild's decimal key, and otherwise fails with `NotFound`, reading "Guild not found." |
| Db.Upsert | src/db.rs:93-106 | after `INSERT OR REPLACE` the guild's lookup finds the new prefix and every other guild's lookup is unchanged |
| Db.SetReplaces | src/db.rs:100 | a second upsert for the same guild replaces the first and adds no row |
| Db.SetIdempotent | src/db.rs:100 | writing the same prefix twice gives the table that writing it once gives |
| Db.UpsertKeepsCanonical | src/db.rs:101 | upserts keep every key the decimal text of some guild id |
| Db.CanonicalOneRowPerGuild | src/db.rs:42 | in a table written only by upserts, two rows whose keys parse to the same id are the same row |
| Db.LoadCanonical | src/db.rs:86-89 | loading a table written only by upserts gives each guild exactly when it has a row, with that row's prefix |
| Bot.ResolvePrefix | src/main.rs:130-141 | a direct message resolves to ""; a guild message resolves to its stored prefix when the lookup succeeds and to "." on any failure or missing row; a message without a guild resolves to "."; resolution never gives `None` |
| Bot.ResolveAfterUpsert | src/main.rs:134-137 | once the guild's row holds `p`, guild messages from it resolve to `p` |
| Bot.ResolveExample | src/main.rs:134-140 | after guild 123 is set to "!" in an empty table, 123 resolves to "!" and 456 to "." |
| Bot.AfterReaction | src/main.rs:145-155 | the reaction is ✅ exactly for `Ok` and ❌ exactly for `Err` |
| Bot.InsertBoot | src/main.rs:36-39 | "boot" holds the instant recorded first (the old one when present, else now), and every other key keeps its presence and value |
| Bot.ClientData.constructor | src/main.rs:171 | the client data starts with an empty `Uptime` map |
| Bot.ClientData.Ready | src/main.rs:33-42 | with an `Uptime` map present, "boot" is inserted only when absent; with none, nothing changes |
| Bot.ReadyKeepsFirstBoot | src/main.rs:38 | a second ready event leaves the map exactly as the first left it |
| Admin.SetPrefix | src/commands/admin.rs:28-38 | the argument check comes first ("Arg.single was None"), then the guild check ("guild_id was None"), both leaving the store unchanged; a store failure returns its text and sends nothing; otherwise the guild's key maps to the first argument, "Set prefix!" is sent, a failed send is the error, and a success means the guild's messages now resolve to that prefix |
| Fun.DdayFrom | src/commands/fun.rs:68-90 | the subtract-73 loop computes the closed form: the adjusted ordinal divided and reduced by 73 |
| Fun.DdayOfFacts | src/commands/fun.rs:69-83 | YOLD year is the year plus 1166; St. Tib's Day exactly for ordinal 59 of a `year % 4 == 2` year; `73 * season + day` is the ordinal, one less after St. Tib's Day; the day is below 73; the season is a valid index exactly when the adjusted ordinal is below 365 |
| Fun.OrdinalSuffix | src/commands/fun.rs:244-256 | the suffix is one of "st", "nd", "rd", "th" |
| Fun.OrdinalSuffixIsEnglish | src/commands/fun.rs:244-256 | below 100 the suffix is the English one: "th" for 10–19, "st"/"nd"/"rd" after a last digit 1/2/3, "th" otherwise |
| Fun.WeekdayAsWritten | src/commands/fun.rs:101 | `day % 5` is always a valid index into the five weekdays |
| Fun.Display | src/commands/fun.rs:93-109 | defined only for St. Tib's Day or a season index below 5 (the `DSEASONS` index panics otherwise); the St. Tib's Day line is printed exactly on St. Tib's Day |
| Fun.TibsIgnoresSeasonAndDay | src/commands/fun.rs:95-96 | on St. Tib's Day the text is "Today is St. Tib's Day in the YOLD {year}" whatever the season and day |
| Fun.OrdinalOffByOne | src/commands/fun.rs:70-83 | as written: December 31st gets season 5 (out of the table), the 73rd day is day 0 of Discord, and February 28th of a leap year is St. Tib's Day while February 29th is not |
| Fun.WeekdayRestartsEachSeason | src/commands/fun.rs:101 | as written: two days 73 apart get the same weekday, though 73 is not a multiple of 5 |
| Fun.CenturyRuleIgnored | src/commands/fun.rs:73 | as written: 2100 gets a St. Tib's Day though it is not a Gregorian leap year |
| Fun.DdayFromFixed | src/commands/fun.rs:68-90 | the corrected loop computes the Discordian date of a 1-based ordinal with the Gregorian leap rule |
| Fun.DiscordianDateFacts | src/commands/fun.rs:68-90 | corrected: every day of every year gets a season below 5 and a day from 1 to 73; St. Tib's Day is exactly February 29th of a leap year; `73 * season + day` numbers the other days 1..365 |
| Fun.Weekday | src/commands/fun.rs:101 | corrected weekday index is always valid |
| Fun.DisplayFixed | src/commands/fun.rs:93-109 | corrected rendering: the St. Tib's Day line exactly on St. Tib's Day, any other day opening with its through-the-year weekday |
| Fun.WeekdayAdvances | src/commands/fun.rs:101 | corrected: consecutive days of the year have consecutive weekdays, across season boundaries |
| Fun.YearBounds | src/commands/fun.rs:80-89 | corrected: January 1st is Chaos 1 on the first weekday (Sweetmorn); the last day of every year, 365 or 366 days long, is The Aftermath 73 |
| Fun.Ddate | src/commands/fun.rs:236-242 | `ddate` renders the corrected date of today, and February 29th reads as St. Tib's Day |
| Fun.EightballColour | src/commands/fun.rs:144-152 | green exactly for indices up to 9, yellow exactly for 10–14, red exactly from 15 |
| Fun.Tell | src/commands/fun.rs:139-140 | the answer told is one of the first `bound` answers; a green answer is one of the first ten, a red one of the last five |
| Fun.LastAnswerNeverDrawn | src/commands/fun.rs:139 | as written: with `gen_range(0, 19)` the answer "Very doubtful." is never told |
| Fun.EveryAnswerDrawable | src/commands/fun.rs:116-140 | corrected: with the bound equal to the number of answers every answer is told for its own index, and the last five in red |
| Fun.Darksouls3 | src/commands/fun.rs:193-231 | without a conjunction the message is one filled template; with one, the two-step loop builds first template, separator, second template |
| Fun.ConjunctionPlacement | src/commands/fun.rs:199-219 | in a two-template message the first fill opens it, the conjunction sits right after it (after one space unless it is ","), a space follows, and the second fill closes it |
| Weeb.DescRulesShape | src/commands/weeb.rs:416-428 | every token and replacement of `format_desc` is non-empty, no token holds a character any replacement writes, and replacements write only newline, `*`, `'` and the ellipsis |
| Weeb.FormatDesc | src/commands/weeb.rs:416-428 | the output of `format_desc` holds none of the eleven tokens it replaces |
| Weeb.DescRulesRemoveAll | src/commands/weeb.rs:416-428 | after the eleven replacements in order, none of their tokens is left in the text |
| Weeb.ApplyAllWithoutMatch | src/commands/weeb.rs:416-428 | a chain of replacements whose patterns are all absent changes nothing |
| Weeb.ApplyAllKeepsAbsent | src/commands/weeb.rs:416-428 | an absent text stays absent through replacements sharing no character with it |
| Weeb.ApplyAllRemoves | src/commands/weeb.rs:416-428 | a rule's pattern is gone after the chain when its own and all later replacements share no character with it |
| Weeb.FormatDescWithoutTokens | src/commands/weeb.rs:416-428 | a description holding none of the eleven tokens is returned unchanged |
| Weeb.ReplaceCharIsWithout | src/commands/weeb.rs:412-414 | replacing a one-character pattern by "" is filtering that character out |
| Weeb.StripBackslashes | src/commands/weeb.rs:412-414 | no backslash is left, and every other character keeps its count |
| Weeb.WithoutCounts | src/commands/weeb.rs:412-414 | filtering leaves no copy of the character and the count of every other character unchanged |
| Weeb.StripBackslashesFacts | src/commands/weeb.rs:412-414 | stripping is dropping the backslashes with the other characters kept in order, and stripping twice is stripping once |
| Weeb.TitleShowsNames | src/commands/weeb.rs:112-116 | with both names the title is "romaji \| native"; with one name that name is the whole title |
| Weeb.FilterSomeAppend | src/commands/weeb.rs:134-138 | `filter_map(\|g\| g)` over a concatenation is the concatenation of the filtered parts, so order is kept |
| Weeb.Title | src/commands/weeb.rs:112-116 | the romaji name, when present, opens the title; the native name, when present, closes it; with neither it is "Title unavailable." |
| Weeb.FilterSomeMembers | src/commands/weeb.rs:134-138 | a genre is kept exactly when present, and nothing is dropped when all are present |
| Weeb.GenresText | src/commands/weeb.rs:131-141 | every present genre appears in the "Genres" text |
| Weeb.ScoreText | src/commands/weeb.rs:142-144 | the score text ends in '%' |
| Weeb.ScoreReadsBack | src/commands/weeb.rs:143 | the number in front of '%' reads back as the score |
| Weeb.PaddedDateIsZero | src/commands/weeb.rs:86-91 | the three padded components read "0000/00/00" exactly when all are 0 |
| Weeb.FormatDate | src/commands/weeb.rs:83-104 | the rendered date differs from "0000/00/00" exactly when the date is present and some component is non-zero |
| Weeb.FirstMediaAsWritten | src/commands/weeb.rs:69 | as written: defined only for a missing list or a non-empty one (`remove(0)` panics on an empty one); an entry it gives is the list's first |
| Weeb.EmptyPageRejected | src/commands/weeb.rs:69 | as written: the first-entry selection is not defined for an empty media list, where `remove(0)` panics |
| Weeb.FirstMedia | src/commands/weeb.rs:65-71 | corrected: the first entry exists exactly when the page is present, non-empty and its first entry is; where `remove(0)` is defined they agree |
| Weeb.MediaEmbed | src/commands/weeb.rs:59-162 | no first entry gives "Unable to get {kind} from response."; no title gives "Unable to get title field from {kind}."; an embed means both exist, and carries that entry's title rendering and its field list |
| Weeb.LeadingFieldNames | src/commands/weeb.rs:125-147 | the fields before the dates are named Status, Episodes/Chapters, Genres, Average Score or Season, and a manga's never Season |
| Weeb.MediaFieldsShape | src/commands/weeb.rs:148-153 | the Start Date and End Date fields appear exactly when those dates are known; a manga embed has no Season field |
| Weeb.EmptyPageIsAnError | src/commands/weeb.rs:65-71 | corrected: an empty or missing page gives the "Unable to get" error |
| Owner.TruncDivMinutesToHours | src/commands/owner.rs:43-45 | truncating by 60 twice is truncating by 3600 |
| Owner.TruncDivHoursToDays | src/commands/owner.rs:45-47 | truncating by 3600 then 24 is truncating by 86400 |
| Owner.DhmsOf | src/commands/owner.rs:42-48 | `days*86400 + hours*3600 + minutes*60 + seconds` is the total; for a non-negative total seconds and minutes are below 60 and hours below 24; a negative total gives non-positive parts |
| Owner.SplitUptime | src/commands/owner.rs:42-48 | the step-by-step `/` and `%=` split equals that decomposition |
| Owner.UptimeText | src/commands/owner.rs:33-56 | no `Uptime` map gives "Uptime not available."; no "boot" key gives "Uptime not available"; otherwise the whole seconds since boot, split and rendered as `{d}d{h}h{m}m{s}s` |
| Owner.UptimeExample | src/commands/owner.rs:49 | 90061.000000999 seconds after boot reads "1d1h1m1s" |
| Owner.DhmsText | src/commands/owner.rs:49 | the uptime text always ends in the seconds' 's' |
| Owner.DhmsTextInjective | src/commands/owner.rs:49 | two non-negative splits render alike exactly when they are equal, so the text loses nothing |
| Owner.ParseStatus | src/commands/owner.rs:242-249 | each status is chosen by its name in any ASCII case, and any other token is rejected |
| Owner.ParseKind | src/commands/owner.rs:250-255 | each activity type is chosen by its name in any ASCII case, and any other token is rejected |
| Owner.SetPresence | src/commands/owner.rs:240-268 | an invalid status fails with "Invalid status" whatever the type; a valid status with an invalid type fails with "Invalid type"; a stream takes the third token as URL and the rest as name; playing and listening take everything after the type as name |
| Owner.StreamNameSkipsUrl | src/commands/owner.rs:256-264 | the text after the type is the URL token followed by the stream's name |
| Voice.DurationParts | src/commands/voice.rs:245-249 | the seconds part is below 60 and `minutes*60 + seconds` is the whole seconds, with no hour rollover |
| Voice.DurationText | src/commands/voice.rs:245-249 | the duration text is digits around a single colon, with at most two digits of seconds |
| Voice.DurationTextInjective | src/commands/voice.rs:245-249 | two durations print alike exactly when their whole seconds are equal |
| Voice.DurationExample | src/commands/voice.rs:248 | 65 seconds print as "1:5", unpadded |
| Voice.TrackPosition | src/commands/voice.rs:207-212 | position plus time left is the length; with no time left the position is the length |
| Voice.PositionNotPastLength | src/commands/voice.rs:207-224 | the shown position never passes the shown length |
| Voice.NowPlaying | src/commands/voice.rs:192-243 | no guild id and no Lavalink client give their errors; a track embed exactly when the guild's node plays a track, with "position / length"; otherwise "Nothing is playing at the moment." |
| Voice.NoTimeLeftShowsFullLength | src/commands/voice.rs:209-224 | with no time left reported the position field reads "length / length" |
| Voice.Play | src/commands/voice.rs:26-146 | an author outside voice is rejected with a reply and no join; a handler bound to another channel is rejected with a message and no join; joining only happens for the author's channel when not busy elsewhere; an empty search fails naming the query; success means exactly the first track was queued and announced |
| Voice.SameChannelAllowed | src/commands/voice.rs:61-70 | a handler bound to the author's channel, or to none, does not stop `play` |

## Left out

- SQLite, the data directory and the connection are not modelled. The table is a map. Failing to reach the database, or a failing statement, arrives as a `fault` parameter carrying the error's text. `create_db` and the configuration helpers in `src/util.rs` are not part of this model.
- The in-memory `Prefixes` cache of `src/util.rs` is declared but never read or written by the code, so it is not modelled.
- Discord I/O is not modelled: sending messages and embeds, reactions, and the cache of guilds, members and nicknames. A failed send is modelled only in `Admin.SetPrefix`. Elsewhere the model gives the text or reply the command would send.
- Randomness, the bundled Dark Souls data files and the clock are parameters: the eightball index, the drawn templates, fillers and conjunction, today's date, and "now".
- The eightball embed's author name, avatar and question text (`args.rest()`) are not modelled; only the answer and colour are.
- `darksouls` (the Dark Souls 1 variant) is not modelled; it is the single-template branch of `darksouls3` over other data files.
- The AniList GraphQL requests, the virtual-youtuber wiki lookups, the embed timestamp, footer, colour and thumbnail fetch are not modelled. The media status and season enums are passed in as their `{:?}` text.
- Voice: the Lavalink node, `start_loop`, `stop`, the readiness polling loop under a mutex, and its "Unable to get voice handler." and "Unable to get lavalink client node!" errors are not modelled. Durations are whole milliseconds.
- Owner: the rest of `info` and the `set_presence` call itself are not modelled. `args.rest()` is modelled as the remaining tokens joined by one space, so the original spacing and quoting of the message are not kept.
- Integer widths: the Gregorian year (`i32`), the ordinal (`u32`) and the uptime seconds (`i64`) stay far inside their ranges for every date the date library produces, so they are unbounded integers here. Guild ids are `u64` and the parse checks overflow.
- `Text.ParseU64` follows `u64::from_str` as the standard library of the time had it: an optional leading '+', where "+" alone counts as empty.
- Db.PrefixStore.GetAllPrefixes: a failure while fetching a row in the middle of the loop (`row?`) is folded into the single `fault` given up front, so the model does not say how many rows were read before it.
- Db.PrefixStore.GetAllPrefixes: SQLite's row order is unspecified, so the contract is relational. When several stored keys parse to the same id (for example "7" and "07"), the model does not say which row wins; a table written only by `setprefix` never has such keys (`Db.LoadCanonical`).
- Fun.Display: the season index into `DSEASONS` must be below 5. The as-written conversion breaks this on the last day of the year (see Findings).
- Voice.TrackPosition and Voice.NowPlaying: the time left must not exceed the track length, because `Duration` subtraction panics otherwise.
- Owner.SetPresence: the framework's `min_args(3)` is a precondition, so fewer than three arguments are rejected before the command runs.
- Bot.ResolvePrefix: whether a message is private is taken as a field of the message rather than derived from its channel.

## Findings

| source | as written | input that shows it | evidently intended | confidence | as-written member | corrected member |
|---|---|---|---|---|---|---|
| src/commands/fun.rs:70-83 | `ordinal()` counts from 1 but the split by 73 treats it as counting from 0 | 2019-12-31 (ordinal 365) gives season 5, and `DSEASONS[5]` panics in `Display`; 2019-03-14 (ordinal 73) gives "day 0 of Discord"; 2020-02-28 is called St. Tib's Day | seasons of days 1..73 from a 1-based ordinal, with St. Tib's Day on February 29th (ordinal 60) | high, not executed | Fun.OrdinalOffByOne | Fun.DiscordianDateFacts |
| src/commands/fun.rs:73 | the leap test is `year % 4 == 2` on the YOLD year, i.e. every fourth Gregorian year | 2100 gets a St. Tib's Day | the Gregorian leap rule, with centuries skipped unless divisible by 400 | medium, not executed | Fun.CenturyRuleIgnored | Fun.DiscordianDateFacts |
| src/commands/fun.rs:101 | the weekday is `day % 5` within the season, so it restarts each season | ordinals 1 and 74 of 2019 get the same weekday though they are 73 days apart | the five-day week runs on through the year | medium, not executed | Fun.WeekdayRestartsEachSeason | Fun.WeekdayAdvances |
| src/commands/fun.rs:139 | `gen_range(0, 19)` has an exclusive upper bound, and there are 20 answers | no draw gives index 19, "Very doubtful." | draw below the number of answers | high, not executed | Fun.LastAnswerNeverDrawn | Fun.EveryAnswerDrawable |
| src/commands/weeb.rs:69 | `media.remove(0)` panics on an empty list | a search with no match returns an empty media list | treat an empty page like a missing entry and report "Unable to get anime from response." | medium, not executed | Weeb.EmptyPageRejected | Weeb.EmptyPageIsAnError |
