/** Building the pipeline's request from the command and the configuration
    (src/lib.rs, `App::from_cli`): command-line values over configuration
    values, the format checked before the time zone, and an empty zone falling
    back to the operating system's. */
module Lib {
  import opened Wrappers
  import opened Errors
  import opened Chrono
  import opened Text
  import opened Core
  import opened Cli
  import opened Configuration

  /** `str::parse::<Tz>`: the zone an IANA identifier names, if any. */
  type TzParser = string -> Option<Tz>

  /** What `iana_time_zone::get_timezone` returns: the OS zone's identifier, or
      the lookup error's text. */
  type LocalTimezone = Result<string, string>

  const NO_FORMAT_MSG := "no output format specified"
  const INVALID_TZ_MSG := "invalid timezone ID: "
  const LOCAL_TZ_MSG := "failed to read local timezone: "

  /** The format the command line gives, else the configuration's. */
  function EffectiveFormat(cmd: Command, cfg: Config): (f: string)
    ensures cmd.format.Some? ==> f == cmd.format.value
    ensures cmd.format.None? ==> f == cfg.format
  {
    cmd.format.GetOr(cfg.format)
  }

  /** The zone identifier the command line gives, else the configuration's, trimmed. */
  function RawTimezone(cmd: Command, cfg: Config): (tz: string)
    ensures tz == Trim(if cmd.timezone.Some? then cmd.timezone.value else cfg.timezone)
    ensures tz == [] || (!IsWhitespace(tz[0]) && !IsWhitespace(tz[|tz| - 1]))
  {
    TrimSpec(cmd.timezone.GetOr(cfg.timezone));
    Trim(cmd.timezone.GetOr(cfg.timezone))
  }

  /** The target zone: a non-empty identifier must name a zone; an empty one
      means the OS zone, whose lookup may fail (a configuration error) and whose
      identifier must name a zone too. */
  function ResolveTimezone(tzRaw: string, local: LocalTimezone, parseTz: TzParser): (r: Result<Tz, Error>)
    ensures tzRaw != [] && parseTz(tzRaw).Some? ==> r == Ok(parseTz(tzRaw).value)
    ensures tzRaw != [] && parseTz(tzRaw).None? ==> r == Err(UserInput(UnsupportedTimezone(INVALID_TZ_MSG + tzRaw)))
    ensures tzRaw == [] && local.Err? ==> r == Err(System(SystemError.Config(LOCAL_TZ_MSG + local.error)))
    ensures tzRaw == [] && local.Ok? && parseTz(local.value).Some? ==> r == Ok(parseTz(local.value).value)
    ensures tzRaw == [] && local.Ok? && parseTz(local.value).None? ==>
              r == Err(UserInput(UnsupportedTimezone(INVALID_TZ_MSG + local.value)))
  {
    if tzRaw == [] then
      var id :- match local
                case Ok(id) => Ok(id)
                case Err(e) => Err(SystemErrorOf(LOCAL_TZ_MSG + e));
      match parseTz(id)
      case Some(tz) => Ok(tz)
      case None => Err(UserInputErrorOf(UnsupportedTimezoneKind, INVALID_TZ_MSG + id))
    else
      match parseTz(tzRaw)
      case Some(tz) => Ok(tz)
      case None => Err(UserInputErrorOf(UnsupportedTimezoneKind, INVALID_TZ_MSG + tzRaw))
  }

  /** `App::from_cli`. A format that trims to nothing is refused before the zone
      is looked at; a zone failure is the next possible error; otherwise the
      request keeps the input, the untrimmed format token (a preset name stays
      unresolved), the zone, and the fixed "now" re-expressed in that zone. */
  function AppFromCli(cmd: Command, cfg: Config, local: LocalTimezone, parseTz: TzParser, db: TzDb)
    : (r: Result<App, Error>)
    ensures AllWhitespace(EffectiveFormat(cmd, cfg)) ==> r == Err(UserInput(MissingArgument(NO_FORMAT_MSG)))
    ensures !AllWhitespace(EffectiveFormat(cmd, cfg)) ==>
              && (r.Ok? <==> ResolveTimezone(RawTimezone(cmd, cfg), local, parseTz).Ok?)
              && (r.Err? ==> r.error == ResolveTimezone(RawTimezone(cmd, cfg), local, parseTz).error)
    ensures r.Ok? ==>
              && r.value.date == cmd.input
              && r.value.format == EffectiveFormat(cmd, cfg)
              && r.value.timezone == ResolveTimezone(RawTimezone(cmd, cfg), local, parseTz).value
              && (cmd.now.None? ==> r.value.now.None?)
              && (cmd.now.Some? ==> r.value.now == Some(WithTimezone(cmd.now.value, db, r.value.timezone)))
  {
    var format := EffectiveFormat(cmd, cfg);
    if TrimsToEmpty(format) then Err(UserInputErrorOf(MissingArgumentKind, NO_FORMAT_MSG))
    else
      var tz :- ResolveTimezone(RawTimezone(cmd, cfg), local, parseTz);
      var now := match cmd.now
                 case Some(dt) => Some(WithTimezone(dt, db, tz))
                 case None => None;
      Ok(App(cmd.input, format, tz, now))
  }

  /** The fixed "now" keeps its instant (its UTC reading) and is read in the
      request's zone at the offset in force there, so a bare time of day later
      lands on today's date in that zone. */
  lemma NowIsSameInstantInTargetZone(cmd: Command, cfg: Config, local: LocalTimezone, parseTz: TzParser, db: TzDb)
    requires AppFromCli(cmd, cfg, local, parseTz, db).Ok? && cmd.now.Some?
    ensures var app := AppFromCli(cmd, cfg, local, parseTz, db).value;
      app.now == Some(FromUtcDatetime(db, app.timezone, cmd.now.value.utc))
    ensures var app := AppFromCli(cmd, cfg, local, parseTz, db).value;
      && app.now.value.utc == cmd.now.value.utc
      && app.now.value.NaiveLocal() == AddOffset(cmd.now.value.utc, db.offsetFromUtc(app.timezone, cmd.now.value.utc))
  {
    var app := AppFromCli(cmd, cfg, local, parseTz, db).value;
    var z := WithTimezone(cmd.now.value, db, app.timezone);
    assert app.now == Some(z);
    assert z == FromUtcDatetime(db, app.timezone, cmd.now.value.utc);
  }

  /** A blank command-line format is refused even when the configuration has a
      usable one: the command line is consulted first and is not skipped. */
  lemma BlankCliFormatIsNotReplaced(cmd: Command, cfg: Config, local: LocalTimezone, parseTz: TzParser, db: TzDb)
    requires cmd.format.Some? && AllWhitespace(cmd.format.value)
    ensures AppFromCli(cmd, cfg, local, parseTz, db) == Err(UserInput(MissingArgument(NO_FORMAT_MSG)))
  {
  }

  /** The whole precedence for the format, across `Config::load` and
      `App::from_cli`: command line, then a non-empty `TARDIS_FORMAT`, then the file. */
  lemma FormatPrecedence(cmd: Command, file: Config, envFormat: Option<string>, envTimezone: Option<string>,
                         local: LocalTimezone, parseTz: TzParser, db: TzDb)
    requires AppFromCli(cmd, ApplyEnv(file, envFormat, envTimezone), local, parseTz, db).Ok?
    ensures AppFromCli(cmd, ApplyEnv(file, envFormat, envTimezone), local, parseTz, db).value.format ==
              if cmd.format.Some? then cmd.format.value
              else if envFormat.Some? && envFormat.value != [] then envFormat.value
              else file.format
  {
  }

  /** The same precedence for the zone identifier, which is trimmed once chosen. */
  lemma TimezonePrecedence(cmd: Command, file: Config, envFormat: Option<string>, envTimezone: Option<string>)
    ensures RawTimezone(cmd, ApplyEnv(file, envFormat, envTimezone)) ==
              Trim(if cmd.timezone.Some? then cmd.timezone.value
                   else if envTimezone.Some? && envTimezone.value != [] then envTimezone.value
                   else file.timezone)
  {
  }
}
