/** The transformation pipeline (src/core.rs): resolve the output pattern,
    complete the parsed value to a wall-clock reading, pin it to exactly one
    instant in the target zone, and format it. */
module Core {
  import opened Wrappers
  import opened Errors
  import opened Chrono

  /** The immutable request one pipeline run consumes. */
  datatype App = App(date: string, format: string, timezone: Tz, now: Option<ZonedDateTime>)

  /** A named shortcut for a format pattern. */
  datatype Preset = Preset(name: string, format: string)

  /** What the natural-language parser produces: a date, a date and time, or a
      time of day, all zone-naive. */
  datatype ParseResult = Date(day: NaiveDate) | DateTime(dateTime: NaiveDateTime) | Time(timeOfDay: NaiveTime)

  /** `human_date_parser::from_human_time`: text and the local "now" to a parse
      result or an error message. */
  type HumanParser = (string, NaiveDateTime) -> Result<ParseResult, string>

  /** chrono's `DateTime::format` written into a `String`: `None` when the
      engine reports `fmt::Error`. */
  type Formatter = (ZonedDateTime, string) -> Option<string>

  /** The error every formatting or zoning failure becomes. */
  const UNSUPPORTED_FORMAT: Error := FromFmtError(FmtError)

  const EMPTY_FORMAT: Error := UserInputErrorOf(MissingArgumentKind, "empty --format")

  // ----- Format resolution -----------------------------------------------------

  /** `i` is the first preset, in slice order, named `name`. */
  predicate IsFirstMatch(presets: seq<Preset>, name: string, i: int) {
    0 <= i < |presets| && presets[i].name == name
    && forall j :: 0 <= j < i ==> presets[j].name != name
  }

  predicate NoMatch(presets: seq<Preset>, name: string) {
    forall j :: 0 <= j < |presets| ==> presets[j].name != name
  }

  /** `presets.iter().find(|p| p.name == input)`, as a position. */
  function FindPreset(presets: seq<Preset>, name: string): (r: Option<nat>)
    ensures r.Some? ==> IsFirstMatch(presets, name, r.value)
    ensures r.None? <==> NoMatch(presets, name)
  {
    if presets == [] then None
    else if presets[0].name == name then Some(0)
    else
      match FindPreset(presets[1..], name)
      case None => None
      case Some(i) => Some(i + 1)
  }

  lemma FirstMatchIsUnique(presets: seq<Preset>, name: string, i: int, j: int)
    requires IsFirstMatch(presets, name, i) && IsFirstMatch(presets, name, j)
    ensures i == j
  {
  }

  /** `resolve_format`: only the empty token is rejected; a token naming a preset
      yields the first such preset's pattern; any other token is its own pattern. */
  function ResolveFormat(input: string, presets: seq<Preset>): (r: Result<string, Error>)
    ensures input == [] ==> r == Err(UserInput(MissingArgument("empty --format")))
    ensures input != [] ==> r.Ok?
    ensures forall i :: input != [] && IsFirstMatch(presets, input, i) ==> r == Ok(presets[i].format)
    ensures input != [] && NoMatch(presets, input) ==> r == Ok(input)
  {
    if input == [] then Err(EMPTY_FORMAT)
    else
      match FindPreset(presets, input)
      case Some(i) => Ok(presets[i].format)
      case None => Ok(input)
  }

  // ----- Rendering ---------------------------------------------------------------

  /** Step 1 of `render_datetime`: every parse result completes to a local
      reading (a date at midnight; a date-time as is; a time on now's local date).
      The `and_hms_opt` failure branch exists in the source but cannot be taken. */
  function Complete(parsed: ParseResult, now: ZonedDateTime): (r: Result<NaiveDateTime, Error>)
    ensures r.Ok?
    ensures parsed.Date? ==> r.value.date == parsed.day && r.value.time == Hms(0, 0, 0)
    ensures parsed.DateTime? ==> r.value == parsed.dateTime
    ensures parsed.Time? ==> r.value.date == now.DateNaive() && r.value.time == parsed.timeOfDay
  {
    match parsed
    case Date(d) =>
      (match AndHmsOpt(d, 0, 0, 0)
       case Some(dt) => Ok(dt)
       case None => Err(UNSUPPORTED_FORMAT))
    case DateTime(dt) => Ok(dt)
    case Time(t) => Ok(NaiveDateTime(now.DateNaive(), t))
  }

  /** Step 2: `from_local_datetime(..).single()`. It succeeds exactly when the
      reading has one instant in `tz`, and that instant reads back as `naive`;
      a gap or an overlap is an unsupported-format error. */
  function Zone(naive: NaiveDateTime, tz: Tz, db: TzDb): (r: Result<ZonedDateTime, Error>)
    ensures r.Ok? <==> db.offsetFromLocal(tz, naive).Single?
    ensures r.Ok? ==> r.value == AtLocal(tz, naive, db.offsetFromLocal(tz, naive).value)
    ensures r.Ok? ==> r.value.NaiveLocal() == naive && r.value.tz == tz
    ensures r.Err? ==> r.error == UserInput(UnsupportedFormat(FmtError))
  {
    match FromLocalDatetime(db, tz, naive).AsSingle()
    case Some(z) => Ok(z)
    case None => Err(UNSUPPORTED_FORMAT)
  }

  /** Step 3: the `write!` into a fresh `String`. */
  function FormatInto(zoned: ZonedDateTime, pattern: string, format: Formatter): (r: Result<string, Error>)
    ensures r.Ok? <==> format(zoned, pattern).Some?
    ensures r.Ok? ==> r.value == format(zoned, pattern).value
    ensures r.Err? ==> r.error == UserInput(UnsupportedFormat(FmtError))
  {
    match format(zoned, pattern)
    case Some(out) => Ok(out)
    case None => Err(UNSUPPORTED_FORMAT)
  }

  /** The local reading a parse result stands for. */
  function Completed(parsed: ParseResult, now: ZonedDateTime): NaiveDateTime {
    Complete(parsed, now).value
  }

  /** `render_datetime`: output exists exactly when the completed reading has one
      instant in `tz` and the formatter accepts the pattern for it; the output is
      then the formatter's; every failure is an unsupported-format error. */
  function RenderDatetime(parsed: ParseResult, pattern: string, now: ZonedDateTime, tz: Tz, db: TzDb, format: Formatter)
    : (r: Result<string, Error>)
    ensures var naive := Completed(parsed, now);
      r.Ok? <==> (db.offsetFromLocal(tz, naive).Single?
                  && format(AtLocal(tz, naive, db.offsetFromLocal(tz, naive).value), pattern).Some?)
    ensures var naive := Completed(parsed, now);
      r.Ok? ==> r.value == format(AtLocal(tz, naive, db.offsetFromLocal(tz, naive).value), pattern).value
    ensures r.Err? ==> r.error == UserInput(UnsupportedFormat(FmtError))
  {
    match Complete(parsed, now)
    case Err(e) => Err(e)
    case Ok(naive) =>
      var zoned :- Zone(naive, tz, db);
      FormatInto(zoned, pattern, format)
  }

  /** A reading in a gap or an overlap is refused: neither candidate is used. */
  lemma GapOrOverlapIsRejected(parsed: ParseResult, pattern: string, now: ZonedDateTime, tz: Tz, db: TzDb, format: Formatter)
    requires !db.offsetFromLocal(tz, Completed(parsed, now)).Single?
    ensures RenderDatetime(parsed, pattern, now, tz, db, format) == Err(UserInput(UnsupportedFormat(FmtError)))
  {
  }

  // ----- The pipeline ------------------------------------------------------------------

  /** The reference instant: the fixed one if given, else the clock's UTC
      reading seen in the target zone. */
  function Now(app: App, db: TzDb, clock: NaiveDateTime): (r: ZonedDateTime)
    ensures app.now.Some? ==> r == app.now.value
    ensures app.now.None? ==> r.utc == clock && r.tz == app.timezone && r.offset == db.offsetFromUtc(app.timezone, clock)
  {
    match app.now
    case Some(n) => n
    case None => FromUtcDatetime(db, app.timezone, clock)
  }

  function ParseError(date: string, msg: string): (e: Error)
    ensures e.UserInput? && e.user.InvalidDateFormat?
    ensures e.user.msg == "failed to parse human date '" + date + "': " + msg
  {
    UserInputErrorOf(InvalidDateFormatKind, "failed to parse human date '" + date + "': " + msg)
  }

  /** `process`: now, then parse, then resolve, then render; the first failure
      is the result. */
  function Process(app: App, presets: seq<Preset>, clock: NaiveDateTime, parse: HumanParser, db: TzDb, format: Formatter)
    : (r: Result<string, Error>)
    ensures var parsed := parse(app.date, Now(app, db, clock).NaiveLocal());
      parsed.Err? ==> r == Err(ParseError(app.date, parsed.error))
    ensures var parsed := parse(app.date, Now(app, db, clock).NaiveLocal());
      parsed.Ok? && app.format == [] ==> r == Err(UserInput(MissingArgument("empty --format")))
    ensures var now := Now(app, db, clock);
      var parsed := parse(app.date, now.NaiveLocal());
      parsed.Ok? && app.format != [] ==>
        r == RenderDatetime(parsed.value, ResolveFormat(app.format, presets).value, now, app.timezone, db, format)
  {
    var now := Now(app, db, clock);
    var parsed :- match parse(app.date, now.NaiveLocal())
                  case Ok(p) => Ok(p)
                  case Err(msg) => Err(ParseError(app.date, msg));
    var pattern :- ResolveFormat(app.format, presets);
    RenderDatetime(parsed, pattern, now, app.timezone, db, format)
  }

  /** When the pipeline succeeds, and only then: the expression parsed, the
      format token is non-empty, the completed reading has a single instant,
      and the formatter accepted the resolved pattern; the output is the
      formatter's text for that instant. */
  lemma ProcessSucceedsExactly(app: App, presets: seq<Preset>, clock: NaiveDateTime, parse: HumanParser, db: TzDb, format: Formatter)
    ensures var now := Now(app, db, clock);
      var parsed := parse(app.date, now.NaiveLocal());
      var r := Process(app, presets, clock, parse, db, format);
      r.Ok? <==>
        && parsed.Ok?
        && app.format != []
        && db.offsetFromLocal(app.timezone, Completed(parsed.value, now)).Single?
        && format(AtLocal(app.timezone, Completed(parsed.value, now),
                          db.offsetFromLocal(app.timezone, Completed(parsed.value, now)).value),
                  ResolveFormat(app.format, presets).value).Some?
  {
  }

  /** A parse failure is reported before the format is looked at: it wins over
      an empty format, and presets, zone data and formatter play no part. */
  lemma ParseFailureComesFirst(app: App, presets1: seq<Preset>, presets2: seq<Preset>, clock: NaiveDateTime,
                               parse: HumanParser, db1: TzDb, db2: TzDb, format1: Formatter, format2: Formatter)
    requires app.now.Some?
    requires parse(app.date, app.now.value.NaiveLocal()).Err?
    ensures Process(app, presets1, clock, parse, db1, format1) == Process(app, presets2, clock, parse, db2, format2)
    ensures Process(app, presets1, clock, parse, db1, format1).Err?
    ensures Process(app, presets1, clock, parse, db1, format1).error.user.InvalidDateFormat?
  {
  }

  /** For any "now", fixed or read from the clock, a parse failure is the
      result on those presets, formatter and zone data: the invalid-date error
      built from the parser's text, with no later stage reached. */
  lemma ParseFailureIgnoresLaterStages(app: App, presets1: seq<Preset>, presets2: seq<Preset>, clock: NaiveDateTime,
                                       parse: HumanParser, db: TzDb, format1: Formatter, format2: Formatter)
    requires parse(app.date, Now(app, db, clock).NaiveLocal()).Err?
    ensures Process(app, presets1, clock, parse, db, format1) == Process(app, presets2, clock, parse, db, format2)
    ensures Process(app, presets1, clock, parse, db, format1) ==
              Err(ParseError(app.date, parse(app.date, Now(app, db, clock).NaiveLocal()).error))
  {
  }

  /** An empty format stops the run before rendering: zone data and formatter
      play no part. */
  lemma EmptyFormatStopsBeforeRender(app: App, presets: seq<Preset>, clock: NaiveDateTime, parse: HumanParser,
                                     db: TzDb, format1: Formatter, format2: Formatter)
    requires app.format == []
    requires parse(app.date, Now(app, db, clock).NaiveLocal()).Ok?
    ensures Process(app, presets, clock, parse, db, format1) == Err(UserInput(MissingArgument("empty --format")))
    ensures Process(app, presets, clock, parse, db, format1) == Process(app, presets, clock, parse, db, format2)
  {
  }

  /** With a fixed "now", the clock is never consulted: two runs on the same
      request and presets give the same result whatever the clock reads. */
  lemma FixedNowIgnoresClock(app: App, presets: seq<Preset>, clock1: NaiveDateTime, clock2: NaiveDateTime,
                             parse: HumanParser, db: TzDb, format: Formatter)
    requires app.now.Some?
    ensures Process(app, presets, clock1, parse, db, format) == Process(app, presets, clock2, parse, db, format)
  {
  }

  /** A fixed "now" is both the parser's anchor and the date a bare time of day
      lands on. */
  lemma FixedNowAnchorsTime(app: App, presets: seq<Preset>, clock: NaiveDateTime, parse: HumanParser,
                            db: TzDb, format: Formatter, t: NaiveTime)
    requires app.now.Some? && app.format != []
    requires parse(app.date, app.now.value.NaiveLocal()) == Ok(Time(t))
    ensures var naive := NaiveDateTime(app.now.value.DateNaive(), t);
      Process(app, presets, clock, parse, db, format) ==
        if !db.offsetFromLocal(app.timezone, naive).Single? then Err(UNSUPPORTED_FORMAT)
        else FormatInto(AtLocal(app.timezone, naive, db.offsetFromLocal(app.timezone, naive).value),
                        ResolveFormat(app.format, presets).value, format)
  {
    var naive := NaiveDateTime(app.now.value.DateNaive(), t);
    assert Completed(Time(t), app.now.value) == naive;
  }
}
