# tardis-cli in Dafny

A model of the core of **tardis-cli**, a command-line tool that turns a
natural-language date expression ("next friday 10 am", "tomorrow") into a
formatted date string in a chosen time zone. The model covers five parts of
the program.

- **The transformation pipeline** (`src/core.rs`):
  - `resolve_format` turns a format token into a pattern, through the preset table or as itself;
  - `render_datetime` completes a parse result to a wall-clock reading and pins it to exactly one instant in the target zone, then formats it;
  - `process` runs now → parse → resolve → render and stops at the first error.
- **Building the request** (`src/lib.rs`, `App::from_cli`): command-line values win over configuration values. A blank format is refused. The zone identifier is trimmed and must name a zone. An empty identifier falls back to the operating system's zone. A fixed "now" is re-expressed in the target zone.
- **Input selection** (`src/cli.rs`, `Command::from_cli`): a non-empty argument is used verbatim. Otherwise piped standard input is used, trimmed. `--now` is read as an RFC 3339 date-time (section 5.6 of RFC 3339).
- **Configuration rules** (`src/config.rs`): the preset list built from the `[formats]` table, where `config.toml` lives, and how non-empty `TARDIS_*` environment values override the file.
- **Errors** (`src/errors.rs`): the user/system split, the text each variant displays, the exit-code classification, the hand-written equality on `SystemError`, and the two constructor macros.

Everything is pure once the outside world is a parameter. The model is
therefore datatypes, functions and lemmas, with no classes or loops. Five
foreign components appear as function-typed parameters:

- the natural-language parser (`HumanParser`);
- the time-zone database (`TzDb`: the offset in force at a UTC instant, and chrono's `LocalResult` of offsets for a local reading);
- the formatter (`Formatter`);
- the RFC 3339 reader (`Rfc3339Parser`);
- the zone-name parser `str::parse::<Tz>` (`TzParser`).

The clock reading, whether standard input is a terminal, what reading standard
input returns, the environment variables and the operating system's
zone lookup are plain parameters.

Date-times are concrete:

- a `FixedDateTime`/`ZonedDateTime` holds its instant as a UTC reading plus an offset, as chrono does;
- the local reading is computed by `AddOffset` over the Gregorian calendar;
- `AddOffset` undoes itself (`Chrono.AddOffsetInverse`).

`Strftime` is a concrete strftime subset (`%Y %m %d %H %M %S %%`, literals
copied, every other directive refused). It is one instance of the formatter oracle and is used to state the
repository's unit-test scenarios in `Examples`.

Files:

| file | contents |
|---|---|
| `wrappers.dfy` | `Option` and `Result` |
| `text.dfy` | `str::trim` |
| `errors.dfy` | src/errors.rs and the three `From` conversions |
| `chrono.dfy` | dates, times, offsets, zones |
| `strftime.dfy` | the concrete formatter subset |
| `core.dfy` | src/core.rs |
| `cli.dfy` | src/cli.rs |
| `configuration.dfy` | src/config.rs |
| `lib.dfy` | src/lib.rs |
| `examples.dfy` | the unit-test scenarios of each file |

Where the source reads `io::stdin().is_terminal()` from the real process but
takes the contents from an injected reader (`src/cli.rs:115-116`), the model
keeps the two as separate parameters.

## Model

| member | source | states |
|---|---|---|
| Core.FindPreset | src/core.rs:64-66 | the position returned is the first preset, in slice order, whose name is the token; `None` exactly when no preset has that name |
| Core.FirstMatchIsUnique | src/core.rs:64-66 | "the first preset with this name" determines one position |
| Core.ResolveFormat | src/core.rs:59-69 | only the exact empty token fails, with `MissingArgument("empty --format")`, and a whitespace token passes; a token naming a preset gives the first such preset's pattern; any other token is returned unchanged |
| Core.Complete | src/core.rs:78-82 | completion never fails: a date becomes that date at 00:00:00, a date-time is kept, a time of day is put on now's local calendar date |
| Core.Zone | src/core.rs:84-87 | zoning succeeds exactly when the tz database gives a single offset for the local reading, and the instant it yields reads back as that local reading in the zone; a gap or an overlap is `UnsupportedFormat` |
| Core.FormatInto | src/core.rs:89-92 | the output exists exactly when the formatter accepts the pattern and is then the formatter's text; a formatter failure is `UnsupportedFormat` |
| Core.RenderDatetime | src/core.rs:75-93 | rendering succeeds iff the completed reading has a single instant in the zone and the formatter accepts the pattern for that instant; the output is then the formatter's text; every failure is `UnsupportedFormat` |
| Core.GapOrOverlapIsRejected | src/core.rs:84-87 | a reading with zero or two candidate instants is refused whatever the formatter, so neither candidate is used |
| Core.Now | src/core.rs:37-39 | the reference instant is the fixed "now" when given, else the clock's UTC reading expressed in the target zone |
| Core.ParseError | src/core.rs:41-48 | a parse failure becomes `InvalidDateFormat("failed to parse human date '<date>': <msg>")` |
| Core.Process | src/core.rs:36-53 | the stages run now, then parse, then resolve, then render: a parse failure is the result; after a successful parse an empty token is the result; otherwise the result is the rendering with the resolved pattern and the same "now" |
| Core.ProcessSucceedsExactly | src/core.rs:36-53 | the run succeeds iff the parse succeeds, the token is non-empty, the completed reading has a single instant, and the formatter accepts the resolved pattern |
| Core.ParseFailureComesFirst | src/core.rs:41-50 | with a fixed "now" (`app.now` set, so the parser's anchor is that value), a parse failure wins over an empty format and is the same `InvalidDateFormat` whatever the presets, tz database and formatter |
| Core.ParseFailureIgnoresLaterStages | src/core.rs:37-50 | for any "now", fixed or read from the clock, and one tz database, a parse failure is exactly the `InvalidDateFormat` built from the parser's text, whatever the presets and formatter |
| Core.EmptyFormatStopsBeforeRender | src/core.rs:50-52 | an empty token stops the run before rendering; the formatter plays no part |
| Core.FixedNowIgnoresClock | src/core.rs:37-39 | with a fixed "now" the result does not depend on the clock, so two runs agree |
| Core.FixedNowAnchorsTime | src/core.rs:37-41 | a fixed "now" is both the parser's anchor and the date a bare time of day lands on |
| Errors.FromFmtError | src/core.rs:114-118 | a formatting failure becomes `UserInput(UnsupportedFormat)`, exits with USAGE and displays "Unsupported format: " followed by the `fmt::Error` text |
| Errors.UserInputDisplay | src/errors.rs:33-44 | each user-input variant displays its fixed prefix ("Invalid date format: ", "Unsupported format: ", "Unsupported timezone: ", "Invalid 'now' argument: ", "Missing required argument: ") followed by its message, or by the `fmt::Error` text for `UnsupportedFormat` |
| Errors.SystemDisplay | src/errors.rs:47-55 | a `Config` error displays "Configuration error: " and its message; an `Io` error displays "IO error: " and the I/O error's own text |
| Errors.Display | src/errors.rs:21-29 | `Error` displays transparently as the user or system error it wraps |
| Errors.DisplayRoundTrip | src/errors.rs:33-44 | each user-input message starts with its variant's fixed prefix, and the variant and message can be read back from the displayed text |
| Errors.DisplayInjective | src/errors.rs:33-44 | distinct user-input errors never display the same text |
| Errors.Exit | src/errors.rs:58-75 | `UserInput` exits with USAGE (64) and prints its text; `System(Config)` exits with CONFIG (78) and `System(Io)` with IOERR (74), both printed after "System error: " |
| Errors.SystemErrorEq | src/errors.rs:77-86 | the hand-written equality holds for identical errors, never relates a `Config` to an `Io`, is structural on `Config`, and on `Io` holds exactly when the kinds agree |
| Errors.ErrorEq | src/errors.rs:20-29 | the derived equality holds for identical errors and never relates a user error to a system one; two user errors are equal exactly when they are identical, two system errors exactly when the hand-written `SystemErrorEq` holds (so `Io` errors compare by kind only), and equal errors exit with the same code |
| Errors.SystemErrorEqCases | src/errors.rs:77-86 | `Config` errors are equal iff their messages are; `Io` errors are equal iff their kinds are; a `Config` never equals an `Io` |
| Errors.SystemErrorEqIsEquivalence | src/errors.rs:77-88 | the hand-written equality is reflexive, symmetric and transitive, so `impl Eq` is sound |
| Errors.IoEqualityIgnoresMessage | src/errors.rs:82 | two I/O errors of one kind are equal whatever text they carry |
| Errors.ErrorEqIsEquivalence | src/errors.rs:20-29 | the derived equality on `Error`, which uses the one above, is an equivalence |
| Errors.EqualErrorsExitAlike | src/errors.rs:58-86 | errors that compare equal exit with the same code |
| Errors.UserInputErrorOf | src/errors.rs:91-99 | `user_input_error!(V, msg)` and the `format!` form build `UserInput(V(msg))` for the four string-carrying variants |
| Errors.UserInputErrorEmpty | src/errors.rs:101-103 | the bare `user_input_error!(V)` builds `V("")` |
| Errors.SystemErrorOf | src/errors.rs:107-114 | `system_error!(Config, msg)` and the `format!` form build `System(Config(msg))`, which exits with CONFIG |
| Errors.SystemErrorEmpty | src/errors.rs:115-117 | the bare `system_error!(Config)` builds `Config("")` |
| Errors.FromIoError | src/config.rs:95-99 | an `io::Error` becomes `System(Io)` holding it, which exits with IOERR |
| Errors.FromConfigError | src/config.rs:101-105 | a configuration-library error becomes `System(Config)` with its text, which exits with CONFIG |
| Text.TrimStart | src/lib.rs:32 | the result is a suffix of the input, what was dropped is all whitespace, and the result does not start with whitespace |
| Text.TrimEnd | src/cli.rs:120 | the result is a prefix of the input, what was dropped is all whitespace, and the result does not end with whitespace |
| Text.Trim | src/lib.rs:32 | `str::trim` is no longer than its input and neither starts nor ends with whitespace |
| Text.TrimSpec | src/lib.rs:28-33 | `trim` removes a whitespace-only prefix and suffix and nothing else, and its result neither starts nor ends with whitespace |
| Text.TrimEmptyIffBlank | src/lib.rs:21 | a string trims to nothing exactly when it is all whitespace |
| Text.TrimsToEmpty | src/lib.rs:21 | `trim().is_empty()` holds exactly for a string that is all whitespace |
| Text.TrimIdempotent | src/cli.rs:120 | trimming twice is trimming once |
| Lib.EffectiveFormat | src/lib.rs:19 | the command-line format when given, else the configuration's |
| Lib.RawTimezone | src/lib.rs:28-33 | the command-line zone when given, else the configuration's, trimmed, so it has no whitespace at either end |
| Lib.ResolveTimezone | src/lib.rs:35-45 | a non-empty identifier must name a zone, else `UnsupportedTimezone("invalid timezone ID: <id>")`; an empty one means the OS zone: a failed lookup is `System(Config("failed to read local timezone: …"))`, and an OS identifier that names no zone is `UnsupportedTimezone` |
| Lib.AppFromCli | src/lib.rs:18-50 | a format that trims to nothing gives `MissingArgument("no output format specified")` whatever the zone; otherwise the result succeeds exactly when the zone resolves, and fails with the zone's error if not; a success keeps the input, the untrimmed format token and the zone, and maps the fixed "now" through `with_timezone` |
| Lib.NowIsSameInstantInTargetZone | src/lib.rs:47 | the request's "now" is the same UTC instant as the command's, read in the request's zone at the offset in force there |
| Lib.BlankCliFormatIsNotReplaced | src/lib.rs:19-26 | a blank command-line format is refused even when the configuration has a usable one |
| Lib.FormatPrecedence | src/lib.rs:19 | across `Config::load` and `App::from_cli` the format comes from the command line, then a non-empty `TARDIS_FORMAT`, then the file |
| Lib.TimezonePrecedence | src/lib.rs:28-33 | the same precedence for the zone identifier, which is trimmed once chosen |
| Cli.SelectInput | src/cli.rs:113-135 | a non-empty argument is used verbatim; an empty argument, or none with a terminal, is `InvalidDateFormat("no input provided; …")` and never falls through to standard input; a read error is `InvalidDateFormat("failed to read from stdin: …")`; blank piped input is `InvalidDateFormat("no input provided in stdin; …")`; otherwise the trimmed piped text |
| Cli.ReadPiped | src/cli.rs:116-127 | a read error is `InvalidDateFormat("failed to read from stdin: …")`, piped text that is all whitespace is `InvalidDateFormat("no input provided in stdin; …")`, and otherwise the result is the trimmed text, non-empty and without whitespace at either end |
| Cli.ParseNow | src/cli.rs:137-148 | an absent `--now` is `None`; an RFC 3339 reading is kept; anything else is `InvalidNow("<msg> (expect RFC 3339, ex.: 2025-06-24T12:00:00Z)")` |
| Cli.FromCli | src/cli.rs:112-156 | input errors are reported before any `--now` error; on success the command holds the selected input and the parsed "now", and passes `format` and `timezone` through unchanged, `None` included |
| Cli.ArgumentIgnoresStdin | src/cli.rs:113-114 | with a non-empty argument, standard input and the terminal flag change nothing |
| Cli.PipedInputIsTrimmed | src/cli.rs:115-127 | piped text with whitespace around it reaches the parser without that whitespace |
| Configuration.IterationOrderLength | src/config.rs:58 | any enumeration of the table's keys, each exactly once, is as long as the table |
| Configuration.Presets | src/config.rs:54-63 | no table gives no presets; otherwise one preset per entry, with that entry's name and pattern, as many as there are entries, with pairwise distinct names, in whatever order the map yields |
| Configuration.ResolveAgainstConfig | src/config.rs:54-63 | a non-empty token resolves to the table's pattern for that name, or to itself when the table lacks it, whatever the iteration order |
| Configuration.Join | src/config.rs:78 | `join` with a relative component, as both joins there are: every component of the path is kept and the new one is added at the end |
| Configuration.ConfigPath | src/config.rs:67-79 | `$XDG_CONFIG_HOME/tardis/config.toml` whenever that variable is set (even empty), else `<os config dir>/tardis/config.toml`; with neither, a `System(Config)` error that exits with CONFIG |
| Configuration.EnvOverride | src/config.rs:41-48 | a set, non-empty environment value overrides the file's value, and an empty one is ignored |
| Configuration.ApplyEnv | src/config.rs:41-48 | `TARDIS_FORMAT` and `TARDIS_TIMEZONE` are layered over the file field by field, and the preset table comes from the file |
| Configuration.EmptyEnvIsIgnored | src/config.rs:41-48 | empty environment values leave the file unchanged, and layering twice is layering once |
| Chrono.AndHmsOpt | src/core.rs:79 | `and_hms_opt` gives a reading exactly when hour, minute and second are in range, and that reading is the given date at that time |
| Chrono.AddOffset | src/lib.rs:47 | the reading `k` seconds later: the second of the day moves by `k` modulo a day, and the date moves back a day, stays, or moves forward a day as the sum falls below 0, within the day, or past it |
| Chrono.LocalReading | src/core.rs:41 | `naive_local()`, shared by `DateTime<FixedOffset>` (src/lib.rs:47) and `DateTime<Tz>`: the reading moves the UTC time of day by the offset, modulo a day, and the date by at most one day |
| Chrono.LocalReadingInstant | src/core.rs:41 | shifting the local reading back by its offset gives the UTC instant, for both kinds of `DateTime`; since shifting back is injective, the reading, date included, is the only one with this property |
| Chrono.ZonedDateTime.DateNaive | src/core.rs:81 | `date_naive()` is the date of the local reading, which with the local time of day gives the local reading back |
| Chrono.LocalResult.AsSingle | src/core.rs:86 | `.single()` gives a value exactly when the result is `Single`, and then that value |
| Chrono.NextPrevInverse | src/core.rs:78-82 | the calendar's next and previous day undo each other |
| Chrono.AddOffsetInverse | src/lib.rs:47 | shifting a reading by an offset and back is the identity, so a local reading and its offset determine the instant |
| Chrono.FromUtcDatetime | src/core.rs:37-39 | `from_utc_datetime` keeps the instant and uses the offset the database gives for it, and the local reading shifted back is that instant |
| Chrono.AtLocal | src/core.rs:84-86 | the instant built from a local reading and an offset reads back as that local reading |
| Chrono.FromLocalDatetime | src/core.rs:84-86 | `from_local_datetime` has as many candidates as the database has offsets, and every candidate reads back as the local reading |
| Chrono.WithTimezone | src/lib.rs:47 | `with_timezone` keeps the instant and takes the target zone's offset at that instant |
| Chrono.WithTimezoneKeepsInstant | src/lib.rs:47 | both readings, each shifted back by its own offset, give the same UTC reading |
| Strftime.PaddedValue | src/core.rs:89-91 | the zero-padded digits of a field read back as its value |
| Strftime.LiteralPattern | src/core.rs:89-91 | a pattern with no directive formats to itself, so an unknown token such as "around" renders literally |
| Strftime.UnsupportedDirectiveFails | src/core.rs:89-92 | a directive outside the subset, after any literal text, makes formatting fail, which rendering turns into `UnsupportedFormat` |
| Strftime.Format | src/core.rs:89-92 | the subset's rendering of `zoned.format(fmt)` fails on a pattern that starts with a directive outside `%Y %m %d %H %M %S %%` and on a lone `%`; `LiteralPattern` and `UnsupportedDirectiveFails` state the literal and failing cases in general |
| Strftime.FormatZoned | src/core.rs:89-92 | `zoned.format(fmt)` through the subset: a pattern without `%` renders as itself, and a leading directive outside the subset fails; `FormatZonedReadsLocal` shows that the fields come from the local reading |
| Strftime.FormatZonedReadsLocal | src/core.rs:89-92 | a zoned value renders as its local reading does, whatever its offset, so 15:00 at -03:00 prints 15 and not the UTC 18 |
| Strftime.Directive | src/core.rs:89-92 | a directive letter has a text exactly when it is one of `Y m d H M S %` |
| Strftime.Year | src/core.rs:89-92 | `%Y` takes four characters for years 0 to 9999; any other year takes at least five, the first being the sign, and no zero follows the sign unless the width is exactly five, as with chrono's `{:+05}` |
| Strftime.PaddedMinimal | src/core.rs:89-92 | zero-padding adds no zero beyond the width: a result longer than the width starts with a non-zero digit |
| Strftime.YearReadsBack | src/core.rs:89-92 | the four digits of a year in 0 to 9999 read back as the year; outside that range, the digits after the sign read back as the year's magnitude |
| Strftime.YearBeforeZero | src/core.rs:89-92 | year -5 is written "-0005" |
| Examples.ResolveFormatExamples | src/core.rs:126-146 | a preset name gives its pattern; a raw token is returned unchanged; the empty token fails |
| Examples.RenderDateExample | src/core.rs:149-155 | a date with `%Y-%m-%d` renders as "2025-06-30" |
| Examples.RenderTimeExample | src/core.rs:158-164 | 15:30 on a midnight "now" of 2025-06-24 renders as "2025-06-24T15:30:00" |
| Examples.RenderDateTimeExample | src/core.rs:167-177 | a full date-time renders as "2030-01-15 05:45" regardless of "now" |
| Examples.AmbiguousLocalTimeExample | src/core.rs:180-191 | 01:30 on the New York fall-back night is refused as a user error |
| Examples.ProcessPresetExample | src/core.rs:194-200 | the preset flow renders "2025-06-24T10:00:00" |
| Examples.ProcessTomorrowExample | src/core.rs:203-209 | "tomorrow" with a fixed "now" of 2025-06-24 renders as "2025-06-25" |
| Examples.BadExpressionExample | src/core.rs:212-216 | an expression the parser refuses is an `InvalidDateFormat` error |
| Examples.EmptyFormatExample | src/core.rs:219-224 | an empty format token is a user error |
| Examples.CliOverridesConfigFormatExample | src/lib.rs:91-99 | the command-line format "%Y" beats the configuration's "%F", and the zone is UTC |
| Examples.BlankFormatExample | src/lib.rs:102-112 | a command-line format of three spaces is `MissingArgument` |
| Examples.CliOverridesConfigTimezoneExample | src/lib.rs:115-122 | the command-line zone "Europe/London" beats the configuration's "UTC" |
| Examples.InvalidTimezoneExample | src/lib.rs:125-135 | "Mars/Olympus" is `UnsupportedTimezone("invalid timezone ID: Mars/Olympus")` |
| Examples.LocalTimezoneExample | src/lib.rs:35-40 | with no zone anywhere, the OS zone "Europe/London" is used |
| Examples.LocalTimezoneFailureExample | src/lib.rs:36-37 | a failed OS zone lookup exits with CONFIG |
| Examples.NowReexpressedExample | src/lib.rs:47 | 15:00 at -03:00 becomes 18:00 at +00:00 in UTC |
| Examples.LocalFieldsExample | src/core.rs:89-92 | the instant read as 15:00 at -03:00 is 18:00 UTC, and `%H` prints 15 |
| Examples.PresetNameKeptExample | src/lib.rs:138-151 | the request keeps the format token "br" unresolved |
| Examples.PresetFlowExample | src/config.rs:54-63 | the "br" preset from the table renders 2030-12-31 as "31/12/2030" |
| Examples.ParsesAllFlagsExample | src/cli.rs:170-189 | input, format, zone and an RFC 3339 "now" all reach the command |
| Examples.DefaultsNoneExample | src/cli.rs:192-197 | with only an input, format, zone and "now" are `None` |
| Examples.ArgOverStdinExample | src/cli.rs:200-203 | the argument wins over piped text |
| Examples.EmptyStdinExample | src/cli.rs:206-213 | nothing to read is an `InvalidDateFormat` error |
| Examples.InvalidNowExample | src/cli.rs:137-148 | an unreadable `--now` is `InvalidNow` with the hint, and exits with USAGE |
| Examples.UserInputMacroLiteralExample | src/errors.rs:126-132 | the literal form of `user_input_error!` |
| Examples.UserInputMacroFormattedExample | src/errors.rs:135-141 | the formatted form of `user_input_error!` |
| Examples.UserInputMacroEmptyExample | src/errors.rs:144-150 | the bare form of `user_input_error!` |
| Examples.SystemMacroLiteralExample | src/errors.rs:153-159 | the literal form of `system_error!` |
| Examples.SystemMacroFormattedExample | src/errors.rs:162-168 | the formatted form of `system_error!` |
| Examples.SystemMacroEmptyExample | src/errors.rs:171-177 | the bare form of `system_error!` |
| Examples.ConversionExamples | src/errors.rs:180-192 | `fmt::Error` becomes `UserInput(UnsupportedFormat)`; `io::Error` becomes `System(Io)` |
| Examples.UserExitExample | src/errors.rs:61-63 | a user error exits with USAGE, printing only its own text |
| Examples.SystemExitExample | src/errors.rs:65-69 | a configuration error exits with CONFIG after "System error: Configuration error: " |
| Examples.PresetsFromTableExample | src/config.rs:235-252 | a two-entry table gives two presets, including "iso" and one with pattern "%H:%M", in any iteration order |
| Examples.PresetsEmptyExample | src/config.rs:255-262 | no table gives no presets |
| Examples.EnvExamples | src/config.rs:198-232 | `TARDIS_FORMAT=%d` overrides the file, and an empty `TARDIS_TIMEZONE` is ignored |
| Examples.ConfigPathExample | src/config.rs:147-154 | with `XDG_CONFIG_HOME` set, the path is under it at `tardis/config.toml` |

## Left out

- The grammar of `human_date_parser::from_human_time` is a foreign library. It is the `HumanParser` parameter, and the "tomorrow"/"next friday" outcomes in the scenarios are properties of the particular parser value passed in.
- The chrono strftime engine is the `Formatter` parameter. `Strftime` covers only `%Y %m %d %H %M %S %%` and refuses every other directive, including ones chrono accepts (`%F`, `%z`, `%Z`, `%e`, `%b`, padding flags such as `%-d`). A configuration format such as "%F" therefore renders through `Strftime` as `UnsupportedFormat`, where chrono would print the date; the scenarios only pass "%F" through the request, never render it.
- chrono-tz's DST rules are the `TzDb` parameter. Chrono's candidate instants are modelled as a `LocalResult` of offsets (none, one, or two), not as a list of instants.
- The system clock (`Utc::now`) and `iana_time_zone::get_timezone` are not modelled. They are parameters (a UTC reading and a `Result<string, string>`).
- `str::parse::<Tz>` and chrono's RFC 3339 parser are parameters, and their grammars are not modelled.
- clap's argument parsing, help text and `build.rs` are not modelled: the model starts from the values clap produces.
- `Config::load`'s file reading, TOML deserialisation and the `config` crate's layering machinery are left out; only the precedence rule is kept. Environment keys other than `TARDIS_FORMAT` and `TARDIS_TIMEZONE` (such as nested `formats` keys) are not modelled.
- `create_config_if_missing` is not modelled, because it is pure file-system I/O.
- `eprintln!` and `std::process::exit` in `Failable::exit` are not modelled: `Exit` returns the code and the text instead.
- `src/main.rs`, `benches/` and the integration tests are I/O sequencing around the modelled functions, so they are left out.
- Date-times have whole-second resolution, so nanoseconds and leap seconds are not modelled. Years are unbounded integers, whereas chrono limits them to about ±262 000.
- `IoErrorKind` names a representative subset of `std::io::ErrorKind`. Every other kind is `OtherKind` with the kind's name, so `Errors.SystemErrorEq` still tells two such kinds apart. The model does not enumerate them.
- The `and_hms_opt(0, 0, 0)` failure branch of `render_datetime` is kept in `Core.Complete`, but midnight always exists, so it is never taken.
- `HashMap` iteration order in `Config::presets` is unspecified; it is a parameter (`order`), and every property holds for all orders.
