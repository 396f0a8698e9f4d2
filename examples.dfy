/** The scenarios the repository's own unit tests describe, stated as lemmas
    about the model on concrete values: UTC (offset zero everywhere), the strftime subset
    as formatter, and parsers, zone lookups and RFC 3339 readers fixed to the
    answers each scenario needs. */
module Examples {
  import opened Wrappers
  import opened Errors
  import opened Chrono
  import opened Text
  import opened Strftime
  import opened Core
  import opened Cli
  import opened Configuration
  import opened Lib

  // ----- Fixtures -----------------------------------------------------------------

  const UTC := Tz("UTC")
  const LONDON := Tz("Europe/London")

  /** UTC: offset zero at every instant, and every reading is a single instant. */
  const UtcDb := TzDb((tz: Tz, u: NaiveDateTime) => 0, (tz: Tz, l: NaiveDateTime) => Single(0))

  const Strf: Formatter := (z: ZonedDateTime, p: string) => FormatZoned(z, p)

  /** The zones the scenarios name; anything else is not a zone. */
  const KnownZones: TzParser := (s: string) => if s == "UTC" || s == "Europe/London" then Some(Tz(s)) else None

  function At(y: int, mo: int, d: int, h: int, mi: int, s: int): NaiveDateTime
    requires 1 <= mo <= 12 && 1 <= d <= DaysInMonth(y, mo)
    requires 0 <= h < 24 && 0 <= mi < 60 && 0 <= s < 60
  {
    NaiveDateTime(Ymd(y, mo, d), Hms(h, mi, s))
  }

  /** The fields of a reading with a four-digit year, as the strftime subset writes them. */
  lemma FieldTexts(dt: NaiveDateTime, y: string, mo: string, d: string, h: string, mi: string, s: string)
    requires 1000 <= dt.date.year <= 9999
    requires y == [Digit(dt.date.year / 1000), Digit(dt.date.year / 100 % 10), Digit(dt.date.year / 10 % 10), Digit(dt.date.year % 10)]
    requires mo == [Digit(dt.date.month / 10), Digit(dt.date.month % 10)]
    requires d == [Digit(dt.date.day / 10), Digit(dt.date.day % 10)]
    requires h == [Digit(dt.time.hour / 10), Digit(dt.time.hour % 10)]
    requires mi == [Digit(dt.time.minute / 10), Digit(dt.time.minute % 10)]
    requires s == [Digit(dt.time.second / 10), Digit(dt.time.second % 10)]
    ensures Directive(dt, 'Y') == Some(y) && Directive(dt, 'm') == Some(mo) && Directive(dt, 'd') == Some(d)
    ensures Directive(dt, 'H') == Some(h) && Directive(dt, 'M') == Some(mi) && Directive(dt, 'S') == Some(s)
  {
    YearFourDigits(dt.date.year);
    PaddedTwoDigits(dt.date.month);
    PaddedTwoDigits(dt.date.day);
    PaddedTwoDigits(dt.time.hour);
    PaddedTwoDigits(dt.time.minute);
    PaddedTwoDigits(dt.time.second);
  }

  /** The pattern `%Y-%m-%d` spelled out piece by piece. */
  lemma DatePatternPieces(dt: NaiveDateTime, y: string, m: string, d: string, out: string)
    requires Directive(dt, 'Y') == Some(y) && Directive(dt, 'm') == Some(m) && Directive(dt, 'd') == Some(d)
    requires out == y + (['-'] + (m + (['-'] + d)))
    ensures Format(dt, ['%', 'Y'] + (['-'] + (['%', 'm'] + (['-'] + ['%', 'd'])))) == Some(out)
  {
    assert Format(dt, []) == Some([]);
    DirectiveStep(dt, 'd', [], d, []);
    assert ['%', 'd'] + [] == ['%', 'd'];
    assert d + [] == d;
    LiteralStep(dt, '-', ['%', 'd'], d);
    DirectiveStep(dt, 'm', ['-'] + ['%', 'd'], m, ['-'] + d);
    LiteralStep(dt, '-', ['%', 'm'] + (['-'] + ['%', 'd']), m + (['-'] + d));
    DirectiveStep(dt, 'Y', ['-'] + (['%', 'm'] + (['-'] + ['%', 'd'])), y, ['-'] + (m + (['-'] + d)));
  }

  /** `%Y-%m-%d` writes the three date fields with dashes between. */
  lemma DatePattern(dt: NaiveDateTime, y: string, m: string, d: string, out: string)
    requires Directive(dt, 'Y') == Some(y) && Directive(dt, 'm') == Some(m) && Directive(dt, 'd') == Some(d)
    requires out == y + (['-'] + (m + (['-'] + d)))
    ensures Format(dt, "%Y-%m-%d") == Some(out)
  {
    DatePatternPieces(dt, y, m, d, out);
    DateSpelling();
  }

  /** The pattern `%Y-%m-%d` is the piece tree `DatePatternPieces` formats. */
  lemma DateSpelling()
    ensures "%Y-%m-%d" == ['%', 'Y'] + (['-'] + (['%', 'm'] + (['-'] + ['%', 'd'])))
  {
  }

  /** The pattern `%Y-%m-%dT%H:%M:%S` spelled out piece by piece. */
  lemma StampPatternPieces(dt: NaiveDateTime, y: string, m: string, d: string, h: string, mi: string, sec: string, out: string)
    requires Directive(dt, 'Y') == Some(y) && Directive(dt, 'm') == Some(m) && Directive(dt, 'd') == Some(d)
    requires Directive(dt, 'H') == Some(h) && Directive(dt, 'M') == Some(mi) && Directive(dt, 'S') == Some(sec)
    requires out == y + (['-'] + (m + (['-'] + (d + (['T'] + (h + ([':'] + (mi + ([':'] + sec)))))))))
    ensures Format(dt, ['%', 'Y'] + (['-'] + (['%', 'm'] + (['-'] + (['%', 'd'] + (['T'] + (['%', 'H'] + ([':'] + (['%', 'M'] + ([':'] + ['%', 'S'])))))))))) == Some(out)
  {
    assert Format(dt, []) == Some([]);
    DirectiveStep(dt, 'S', [], sec, []);
    assert ['%', 'S'] + [] == ['%', 'S'];
    assert sec + [] == sec;
    LiteralStep(dt, ':', ['%', 'S'], sec);
    DirectiveStep(dt, 'M', [':'] + ['%', 'S'], mi, [':'] + sec);
    LiteralStep(dt, ':', ['%', 'M'] + ([':'] + ['%', 'S']), mi + ([':'] + sec));
    DirectiveStep(dt, 'H', [':'] + (['%', 'M'] + ([':'] + ['%', 'S'])), h, [':'] + (mi + ([':'] + sec)));
    LiteralStep(dt, 'T', ['%', 'H'] + ([':'] + (['%', 'M'] + ([':'] + ['%', 'S']))), h + ([':'] + (mi + ([':'] + sec))));
    DirectiveStep(dt, 'd', ['T'] + (['%', 'H'] + ([':'] + (['%', 'M'] + ([':'] + ['%', 'S'])))), d, ['T'] + (h + ([':'] + (mi + ([':'] + sec)))));
    LiteralStep(dt, '-', ['%', 'd'] + (['T'] + (['%', 'H'] + ([':'] + (['%', 'M'] + ([':'] + ['%', 'S']))))), d + (['T'] + (h + ([':'] + (mi + ([':'] + sec))))));
    DirectiveStep(dt, 'm', ['-'] + (['%', 'd'] + (['T'] + (['%', 'H'] + ([':'] + (['%', 'M'] + ([':'] + ['%', 'S'])))))), m, ['-'] + (d + (['T'] + (h + ([':'] + (mi + ([':'] + sec)))))));
    LiteralStep(dt, '-', ['%', 'm'] + (['-'] + (['%', 'd'] + (['T'] + (['%', 'H'] + ([':'] + (['%', 'M'] + ([':'] + ['%', 'S']))))))), m + (['-'] + (d + (['T'] + (h + ([':'] + (mi + ([':'] + sec))))))));
    DirectiveStep(dt, 'Y', ['-'] + (['%', 'm'] + (['-'] + (['%', 'd'] + (['T'] + (['%', 'H'] + ([':'] + (['%', 'M'] + ([':'] + ['%', 'S'])))))))), y, ['-'] + (m + (['-'] + (d + (['T'] + (h + ([':'] + (mi + ([':'] + sec)))))))));
  }

  /** `%Y-%m-%dT%H:%M:%S`: the date, a `T`, and the time of day. */
  lemma StampPattern(dt: NaiveDateTime, y: string, m: string, d: string, h: string, mi: string, sec: string, out: string)
    requires Directive(dt, 'Y') == Some(y) && Directive(dt, 'm') == Some(m) && Directive(dt, 'd') == Some(d)
    requires Directive(dt, 'H') == Some(h) && Directive(dt, 'M') == Some(mi) && Directive(dt, 'S') == Some(sec)
    requires out == y + (['-'] + (m + (['-'] + (d + (['T'] + (h + ([':'] + (mi + ([':'] + sec)))))))))
    ensures Format(dt, "%Y-%m-%dT%H:%M:%S") == Some(out)
  {
    StampPatternPieces(dt, y, m, d, h, mi, sec, out);
    StampSpelling();
  }

  /** The pattern `%Y-%m-%dT%H:%M:%S` is the piece tree `StampPatternPieces` formats. */
  lemma StampSpelling()
    ensures "%Y-%m-%dT%H:%M:%S" == ['%', 'Y'] + (['-'] + (['%', 'm'] + (['-'] + (['%', 'd'] + (['T'] + (['%', 'H'] + ([':'] + (['%', 'M'] + ([':'] + ['%', 'S'])))))))))
  {
  }

  /** The pattern `%Y-%m-%d %H:%M` spelled out piece by piece. */
  lemma MinutePatternPieces(dt: NaiveDateTime, y: string, m: string, d: string, h: string, mi: string, out: string)
    requires Directive(dt, 'Y') == Some(y) && Directive(dt, 'm') == Some(m) && Directive(dt, 'd') == Some(d)
    requires Directive(dt, 'H') == Some(h) && Directive(dt, 'M') == Some(mi)
    requires out == y + (['-'] + (m + (['-'] + (d + ([' '] + (h + ([':'] + mi)))))))
    ensures Format(dt, ['%', 'Y'] + (['-'] + (['%', 'm'] + (['-'] + (['%', 'd'] + ([' '] + (['%', 'H'] + ([':'] + ['%', 'M'])))))))) == Some(out)
  {
    assert Format(dt, []) == Some([]);
    DirectiveStep(dt, 'M', [], mi, []);
    assert ['%', 'M'] + [] == ['%', 'M'];
    assert mi + [] == mi;
    LiteralStep(dt, ':', ['%', 'M'], mi);
    DirectiveStep(dt, 'H', [':'] + ['%', 'M'], h, [':'] + mi);
    LiteralStep(dt, ' ', ['%', 'H'] + ([':'] + ['%', 'M']), h + ([':'] + mi));
    DirectiveStep(dt, 'd', [' '] + (['%', 'H'] + ([':'] + ['%', 'M'])), d, [' '] + (h + ([':'] + mi)));
    LiteralStep(dt, '-', ['%', 'd'] + ([' '] + (['%', 'H'] + ([':'] + ['%', 'M']))), d + ([' '] + (h + ([':'] + mi))));
    DirectiveStep(dt, 'm', ['-'] + (['%', 'd'] + ([' '] + (['%', 'H'] + ([':'] + ['%', 'M'])))), m, ['-'] + (d + ([' '] + (h + ([':'] + mi)))));
    LiteralStep(dt, '-', ['%', 'm'] + (['-'] + (['%', 'd'] + ([' '] + (['%', 'H'] + ([':'] + ['%', 'M']))))), m + (['-'] + (d + ([' '] + (h + ([':'] + mi))))));
    DirectiveStep(dt, 'Y', ['-'] + (['%', 'm'] + (['-'] + (['%', 'd'] + ([' '] + (['%', 'H'] + ([':'] + ['%', 'M'])))))), y, ['-'] + (m + (['-'] + (d + ([' '] + (h + ([':'] + mi)))))));
  }

  /** `%Y-%m-%d %H:%M`: the date, a space, hours and minutes. */
  lemma MinutePattern(dt: NaiveDateTime, y: string, m: string, d: string, h: string, mi: string, out: string)
    requires Directive(dt, 'Y') == Some(y) && Directive(dt, 'm') == Some(m) && Directive(dt, 'd') == Some(d)
    requires Directive(dt, 'H') == Some(h) && Directive(dt, 'M') == Some(mi)
    requires out == y + (['-'] + (m + (['-'] + (d + ([' '] + (h + ([':'] + mi)))))))
    ensures Format(dt, "%Y-%m-%d %H:%M") == Some(out)
  {
    MinutePatternPieces(dt, y, m, d, h, mi, out);
    MinuteSpelling();
  }

  /** The pattern `%Y-%m-%d %H:%M` is the piece tree `MinutePatternPieces` formats. */
  lemma MinuteSpelling()
    ensures "%Y-%m-%d %H:%M" == ['%', 'Y'] + (['-'] + (['%', 'm'] + (['-'] + (['%', 'd'] + ([' '] + (['%', 'H'] + ([':'] + ['%', 'M'])))))))
  {
  }

  /** The pattern `%d/%m/%Y` spelled out piece by piece. */
  lemma DayFirstPatternPieces(dt: NaiveDateTime, y: string, m: string, d: string, out: string)
    requires Directive(dt, 'Y') == Some(y) && Directive(dt, 'm') == Some(m) && Directive(dt, 'd') == Some(d)
    requires out == d + (['/'] + (m + (['/'] + y)))
    ensures Format(dt, ['%', 'd'] + (['/'] + (['%', 'm'] + (['/'] + ['%', 'Y'])))) == Some(out)
  {
    assert Format(dt, []) == Some([]);
    DirectiveStep(dt, 'Y', [], y, []);
    assert ['%', 'Y'] + [] == ['%', 'Y'];
    assert y + [] == y;
    LiteralStep(dt, '/', ['%', 'Y'], y);
    DirectiveStep(dt, 'm', ['/'] + ['%', 'Y'], m, ['/'] + y);
    LiteralStep(dt, '/', ['%', 'm'] + (['/'] + ['%', 'Y']), m + (['/'] + y));
    DirectiveStep(dt, 'd', ['/'] + (['%', 'm'] + (['/'] + ['%', 'Y'])), d, ['/'] + (m + (['/'] + y)));
  }

  /** `%d/%m/%Y`: day first, slashes between. */
  lemma DayFirstPattern(dt: NaiveDateTime, y: string, m: string, d: string, out: string)
    requires Directive(dt, 'Y') == Some(y) && Directive(dt, 'm') == Some(m) && Directive(dt, 'd') == Some(d)
    requires out == d + (['/'] + (m + (['/'] + y)))
    ensures Format(dt, "%d/%m/%Y") == Some(out)
  {
    DayFirstPatternPieces(dt, y, m, d, out);
    DayFirstSpelling();
  }

  /** The pattern `%d/%m/%Y` is the piece tree `DayFirstPatternPieces` formats. */
  lemma DayFirstSpelling()
    ensures "%d/%m/%Y" == ['%', 'd'] + (['/'] + (['%', 'm'] + (['/'] + ['%', 'Y'])))
  {
  }

  // ----- Rendering and the pipeline (src/core.rs) ------------------------------------

  /** In UTC, rendering formats the completed reading itself. */
  lemma UtcRender(parsed: ParseResult, pattern: string, now: ZonedDateTime)
    ensures var naive := Completed(parsed, now);
      RenderDatetime(parsed, pattern, now, UTC, UtcDb, Strf) ==
        if Format(naive, pattern).Some? then Ok(Format(naive, pattern).value) else Err(UNSUPPORTED_FORMAT)
  {
    var naive := Completed(parsed, now);
    assert AtLocal(UTC, naive, 0).NaiveLocal() == naive;
  }

  /** The same, given what the completed reading formats to. */
  lemma UtcRendersAs(parsed: ParseResult, pattern: string, now: ZonedDateTime, naive: NaiveDateTime, out: string)
    requires Completed(parsed, now) == naive && Format(naive, pattern) == Some(out)
    ensures RenderDatetime(parsed, pattern, now, UTC, UtcDb, Strf) == Ok(out)
  {
    UtcRender(parsed, pattern, now);
  }

  const JUNE_24_NOON := At(2025, 6, 24, 12, 0, 0)
  const JUNE_24_MIDNIGHT := At(2025, 6, 24, 0, 0, 0)
  const JAN_1_MIDNIGHT := At(2025, 1, 1, 0, 0, 0)

  lemma June30Text(dt: NaiveDateTime, out: string)
    requires dt == At(2025, 6, 30, 0, 0, 0)
    requires out == "2025-06-30"
    ensures Format(dt, "%Y-%m-%d") == Some(out)
  {
    FieldTexts(dt, "2025", "06", "30", "00", "00", "00");
    June30Spelling();
    DatePattern(dt, "2025", "06", "30", out);
  }

  lemma June30Spelling()
    ensures "2025-06-30" == "2025" + (['-'] + ("06" + (['-'] + "30")))
  {
  }

  /** A calendar date renders as itself: now plays no part. */
  lemma RenderDateCase(now: ZonedDateTime, out: string)
    requires now == FromUtcDatetime(UtcDb, UTC, JUNE_24_NOON)
    requires out == "2025-06-30"
    ensures RenderDatetime(Date(Ymd(2025, 6, 30)), "%Y-%m-%d", now, UTC, UtcDb, Strf) == Ok(out)
  {
    var dt := At(2025, 6, 30, 0, 0, 0);
    June30Text(dt, out);
    UtcRendersAs(Date(Ymd(2025, 6, 30)), "%Y-%m-%d", now, dt, out);
  }

  lemma RenderDateExample()
    ensures RenderDatetime(Date(Ymd(2025, 6, 30)), "%Y-%m-%d",
                           FromUtcDatetime(UtcDb, UTC, JUNE_24_NOON), UTC, UtcDb, Strf) == Ok("2025-06-30")
  {
    RenderDateCase(FromUtcDatetime(UtcDb, UTC, JUNE_24_NOON), "2025-06-30");
  }

  /** In UTC, "now" reads as the instant itself. */
  lemma UtcNowReadsAs(now: ZonedDateTime, instant: NaiveDateTime)
    requires now == FromUtcDatetime(UtcDb, UTC, instant)
    ensures now.NaiveLocal() == instant && now.DateNaive() == instant.date
  {
    AddZeroIdentity(instant);
  }

  lemma StampFields(dt: NaiveDateTime)
    requires dt == At(2025, 6, 24, 15, 30, 0)
    ensures Directive(dt, 'Y') == Some("2025") && Directive(dt, 'm') == Some("06") && Directive(dt, 'd') == Some("24")
    ensures Directive(dt, 'H') == Some("15") && Directive(dt, 'M') == Some("30") && Directive(dt, 'S') == Some("00")
  {
    FieldTexts(dt, "2025", "06", "24", "15", "30", "00");
  }

  lemma StampPieces(out: string)
    requires out == "2025-06-24T15:30:00"
    ensures out == "2025" + (['-'] + ("06" + (['-'] + ("24" + (['T'] + ("15" + ([':'] + ("30" + ([':'] + "00")))))))))
  {
  }

  lemma StampText(dt: NaiveDateTime, out: string)
    requires dt == At(2025, 6, 24, 15, 30, 0)
    requires out == "2025-06-24T15:30:00"
    ensures Format(dt, "%Y-%m-%dT%H:%M:%S") == Some(out)
  {
    StampFields(dt);
    StampPieces(out);
    StampPattern(dt, "2025", "06", "24", "15", "30", "00", out);
  }

  /** A bare time of day lands on now's local date. */
  lemma RenderTimeCase(now: ZonedDateTime, out: string)
    requires now == FromUtcDatetime(UtcDb, UTC, JUNE_24_MIDNIGHT)
    requires out == "2025-06-24T15:30:00"
    ensures RenderDatetime(Time(Hms(15, 30, 0)), "%Y-%m-%dT%H:%M:%S", now, UTC, UtcDb, Strf) == Ok(out)
  {
    UtcNowReadsAs(now, JUNE_24_MIDNIGHT);
    var dt := At(2025, 6, 24, 15, 30, 0);
    assert Completed(Time(Hms(15, 30, 0)), now) == dt;
    StampText(dt, out);
    UtcRendersAs(Time(Hms(15, 30, 0)), "%Y-%m-%dT%H:%M:%S", now, dt, out);
  }

  lemma RenderTimeExample()
    ensures RenderDatetime(Time(Hms(15, 30, 0)), "%Y-%m-%dT%H:%M:%S",
                           FromUtcDatetime(UtcDb, UTC, JUNE_24_MIDNIGHT), UTC, UtcDb, Strf) == Ok("2025-06-24T15:30:00")
  {
    RenderTimeCase(FromUtcDatetime(UtcDb, UTC, JUNE_24_MIDNIGHT), "2025-06-24T15:30:00");
  }

  /** A full date and time ignores now altogether. */
  const JAN_15_2030_0545 := At(2030, 1, 15, 5, 45, 0)

  lemma Jan15Text(dt: NaiveDateTime, out: string)
    requires dt == JAN_15_2030_0545
    requires out == "2030-01-15 05:45"
    ensures Format(dt, "%Y-%m-%d %H:%M") == Some(out)
  {
    FieldTexts(dt, "2030", "01", "15", "05", "45", "00");
    Jan15Spelling();
    MinutePattern(dt, "2030", "01", "15", "05", "45", out);
  }

  lemma Jan15Spelling()
    ensures "2030-01-15 05:45" == "2030" + (['-'] + ("01" + (['-'] + ("15" + ([' '] + ("05" + ([':'] + "45")))))))
  {
  }

  lemma RenderDateTimeCase(dt: NaiveDateTime, now: ZonedDateTime, out: string)
    requires dt == JAN_15_2030_0545
    requires out == "2030-01-15 05:45"
    ensures RenderDatetime(DateTime(dt), "%Y-%m-%d %H:%M", now, UTC, UtcDb, Strf) == Ok(out)
  {
    Jan15Text(dt, out);
    UtcRendersAs(DateTime(dt), "%Y-%m-%d %H:%M", now, dt, out);
  }

  lemma RenderDateTimeExample()
    ensures RenderDatetime(DateTime(JAN_15_2030_0545), "%Y-%m-%d %H:%M",
                           FromUtcDatetime(UtcDb, UTC, JAN_1_MIDNIGHT), UTC, UtcDb, Strf) == Ok("2030-01-15 05:45")
  {
    RenderDateTimeCase(JAN_15_2030_0545, FromUtcDatetime(UtcDb, UTC, JAN_1_MIDNIGHT),
                       "2030-01-15 05:45");
  }

  /** New York on the night clocks go back: 01:30 on 2 November 2025 happens twice. */
  const FALL_BACK := At(2025, 11, 2, 1, 30, 0)
  const NewYorkDb := TzDb((tz: Tz, u: NaiveDateTime) => -14400,
                          (tz: Tz, l: NaiveDateTime) => if l == FALL_BACK then Ambiguous(-14400, -18000) else Single(-14400))

  lemma AmbiguousLocalTimeExample()
    ensures var ny := Tz("America/New_York");
      RenderDatetime(DateTime(FALL_BACK), "%Y-%m-%d %H:%M",
                     FromUtcDatetime(NewYorkDb, ny, At(2025, 11, 1, 16, 0, 0)), ny, NewYorkDb, Strf).Err?
    ensures var ny := Tz("America/New_York");
      RenderDatetime(DateTime(FALL_BACK), "%Y-%m-%d %H:%M",
                     FromUtcDatetime(NewYorkDb, ny, At(2025, 11, 1, 16, 0, 0)), ny, NewYorkDb, Strf).error.UserInput?
  {
    var ny := Tz("America/New_York");
    GapOrOverlapIsRejected(DateTime(FALL_BACK), "%Y-%m-%d %H:%M",
                           FromUtcDatetime(NewYorkDb, ny, At(2025, 11, 1, 16, 0, 0)), ny, NewYorkDb, Strf);
  }

  /** A parser that understands one absolute expression and `tomorrow`. */
  const Human: HumanParser := (s: string, anchor: NaiveDateTime) =>
    if s == "2025-06-24 10:00" then Ok(DateTime(JUNE_24_1000))
    else if s == "tomorrow" then Ok(Date(NextDay(anchor.date)))
    else if s == "today" then Ok(Date(anchor.date))
    else if s == "2030-12-31" then Ok(Date(Ymd(2030, 12, 31)))
    else Err("unrecognised expression")

  const JUNE_24_1000 := At(2025, 6, 24, 10, 0, 0)

  lemma IsoFields(dt: NaiveDateTime)
    requires dt == JUNE_24_1000
    ensures Directive(dt, 'Y') == Some("2025") && Directive(dt, 'm') == Some("06") && Directive(dt, 'd') == Some("24")
    ensures Directive(dt, 'H') == Some("10") && Directive(dt, 'M') == Some("00") && Directive(dt, 'S') == Some("00")
  {
    FieldTexts(dt, "2025", "06", "24", "10", "00", "00");
  }

  lemma IsoPieces(out: string)
    requires out == "2025-06-24T10:00:00"
    ensures out == "2025" + (['-'] + ("06" + (['-'] + ("24" + (['T'] + ("10" + ([':'] + ("00" + ([':'] + "00")))))))))
  {
  }

  lemma IsoText(dt: NaiveDateTime, out: string)
    requires dt == JUNE_24_1000
    requires out == "2025-06-24T10:00:00"
    ensures Format(dt, "%Y-%m-%dT%H:%M:%S") == Some(out)
  {
    IsoFields(dt);
    IsoPieces(out);
    StampPattern(dt, "2025", "06", "24", "10", "00", "00", out);
  }

  lemma ProcessPresetCase(app: App, presets: seq<Preset>, clock: NaiveDateTime, out: string)
    requires app == App("2025-06-24 10:00", "iso", UTC, None)
    requires presets == [Preset("iso", "%Y-%m-%dT%H:%M:%S")]
    requires out == "2025-06-24T10:00:00"
    ensures Process(app, presets, clock, Human, UtcDb, Strf) == Ok(out)
  {
    var now := Now(app, UtcDb, clock);
    assert Human(app.date, now.NaiveLocal()) == Ok(DateTime(JUNE_24_1000));
    assert IsFirstMatch(presets, "iso", 0);
    assert ResolveFormat(app.format, presets) == Ok("%Y-%m-%dT%H:%M:%S");
    IsoText(JUNE_24_1000, out);
    UtcRendersAs(DateTime(JUNE_24_1000), "%Y-%m-%dT%H:%M:%S", now, JUNE_24_1000, out);
  }

  /** A preset name resolves before rendering; the clock plays no part for an
      absolute expression. */
  lemma ProcessPresetExample(clock: NaiveDateTime)
    ensures Process(App("2025-06-24 10:00", "iso", UTC, None), [Preset("iso", "%Y-%m-%dT%H:%M:%S")],
                    clock, Human, UtcDb, Strf) == Ok("2025-06-24T10:00:00")
  {
    ProcessPresetCase(App("2025-06-24 10:00", "iso", UTC, None), [Preset("iso", "%Y-%m-%dT%H:%M:%S")], clock,
                      "2025-06-24T10:00:00");
  }

  lemma June25Text(dt: NaiveDateTime, out: string)
    requires dt == At(2025, 6, 25, 0, 0, 0)
    requires out == "2025-06-25"
    ensures Format(dt, "%Y-%m-%d") == Some(out)
  {
    FieldTexts(dt, "2025", "06", "25", "00", "00", "00");
    June25Spelling();
    DatePattern(dt, "2025", "06", "25", out);
  }

  lemma June25Spelling()
    ensures "2025-06-25" == "2025" + (['-'] + ("06" + (['-'] + "25")))
  {
  }

  lemma TomorrowParses(now: ZonedDateTime)
    requires now == FromUtcDatetime(UtcDb, UTC, JUNE_24_MIDNIGHT)
    ensures Human("tomorrow", now.NaiveLocal()) == Ok(Date(Ymd(2025, 6, 25)))
  {
    UtcNowReadsAs(now, JUNE_24_MIDNIGHT);
    assert NextDay(JUNE_24_MIDNIGHT.date) == Ymd(2025, 6, 25);
  }

  lemma June25Renders(now: ZonedDateTime, out: string)
    requires out == "2025-06-25"
    ensures RenderDatetime(Date(Ymd(2025, 6, 25)), "%Y-%m-%d", now, UTC, UtcDb, Strf) == Ok(out)
  {
    var dt := At(2025, 6, 25, 0, 0, 0);
    June25Text(dt, out);
    UtcRendersAs(Date(Ymd(2025, 6, 25)), "%Y-%m-%d", now, dt, out);
  }

  /** A relative expression is read against the fixed "now". */
  lemma ProcessTomorrowCase(app: App, clock: NaiveDateTime, out: string)
    requires app == App("tomorrow", "%Y-%m-%d", UTC, Some(FromUtcDatetime(UtcDb, UTC, JUNE_24_MIDNIGHT)))
    requires out == "2025-06-25"
    ensures Process(app, [], clock, Human, UtcDb, Strf) == Ok(out)
  {
    var now := Now(app, UtcDb, clock);
    TomorrowParses(now);
    assert NoMatch([], "%Y-%m-%d");
    June25Renders(now, out);
  }

  lemma ProcessTomorrowExample(clock: NaiveDateTime)
    ensures Process(App("tomorrow", "%Y-%m-%d", UTC, Some(FromUtcDatetime(UtcDb, UTC, JUNE_24_MIDNIGHT))), [],
                    clock, Human, UtcDb, Strf) == Ok("2025-06-25")
  {
    ProcessTomorrowCase(App("tomorrow", "%Y-%m-%d", UTC, Some(FromUtcDatetime(UtcDb, UTC, JUNE_24_MIDNIGHT))), clock, "2025-06-25");
  }

  lemma BadExpressionMessage()
    ensures "failed to parse human date '" + "???" + "': " + "unrecognised expression" ==
            "failed to parse human date '???': unrecognised expression"
  {
  }

  lemma BadExpressionExample(clock: NaiveDateTime)
    ensures Process(App("???", "%Y", UTC, None), [], clock, Human, UtcDb, Strf) ==
              Err(UserInput(InvalidDateFormat("failed to parse human date '???': unrecognised expression")))
  {
    var app := App("???", "%Y", UTC, None);
    assert Human(app.date, Now(app, UtcDb, clock).NaiveLocal()) == Err("unrecognised expression");
    BadExpressionMessage();
  }

  lemma EmptyFormatExample(clock: NaiveDateTime)
    ensures Process(App("today", "", UTC, None), [], clock, Human, UtcDb, Strf) ==
              Err(UserInput(MissingArgument("empty --format")))
  {
  }

  lemma ResolveFormatExamples()
    ensures ResolveFormat("iso", [Preset("iso", "%Y-%m-%d"), Preset("time", "%H:%M")]) == Ok("%Y-%m-%d")
    ensures ResolveFormat("%H:%M", [Preset("iso", "%Y-%m-%d")]) == Ok("%H:%M")
    ensures ResolveFormat("", []).Err?
  {
    assert IsFirstMatch([Preset("iso", "%Y-%m-%d"), Preset("time", "%H:%M")], "iso", 0);
    assert NoMatch([Preset("iso", "%Y-%m-%d")], "%H:%M");
  }

  // ----- Building the request (src/lib.rs) --------------------------------------------

  /** The configuration the scenarios start from: no preset table. */
  function Cfg(format: string, timezone: string): Config {
    Config.Config(format, timezone, None)
  }

  /** A request is built when the format has visible text and the zone
      identifier names a known zone. */
  lemma BuildsRequest(cmd: Command, cfg: Config, local: LocalTimezone, parseTz: TzParser, db: TzDb, id: string)
    requires EffectiveFormat(cmd, cfg) != [] && !IsWhitespace(EffectiveFormat(cmd, cfg)[0])
    requires (if cmd.timezone.Some? then cmd.timezone.value else cfg.timezone) == id
    requires id != [] && !IsWhitespace(id[0]) && !IsWhitespace(id[|id| - 1]) && parseTz(id).Some?
    ensures var tz := parseTz(id).value;
      AppFromCli(cmd, cfg, local, parseTz, db) ==
        Ok(App(cmd.input, EffectiveFormat(cmd, cfg), tz, if cmd.now.Some? then Some(WithTimezone(cmd.now.value, db, tz)) else None))
  {
    TrimKeepsClean(id);
    var format := EffectiveFormat(cmd, cfg);
    assert !AllWhitespace(format);
    assert RawTimezone(cmd, cfg) == id;
    assert ResolveTimezone(id, local, parseTz) == Ok(parseTz(id).value);
  }

  lemma RejectsZone(cmd: Command, cfg: Config, local: LocalTimezone, parseTz: TzParser, db: TzDb, id: string)
    requires EffectiveFormat(cmd, cfg) != [] && !IsWhitespace(EffectiveFormat(cmd, cfg)[0])
    requires (if cmd.timezone.Some? then cmd.timezone.value else cfg.timezone) == id
    requires id != [] && !IsWhitespace(id[0]) && !IsWhitespace(id[|id| - 1]) && parseTz(id).None?
    ensures AppFromCli(cmd, cfg, local, parseTz, db) == Err(UserInput(UnsupportedTimezone(INVALID_TZ_MSG + id)))
  {
    TrimKeepsClean(id);
    assert !AllWhitespace(EffectiveFormat(cmd, cfg));
    assert RawTimezone(cmd, cfg) == id;
    ZoneErrorIsReported(cmd, cfg, local, parseTz, db);
  }

  lemma ZoneErrorIsReported(cmd: Command, cfg: Config, local: LocalTimezone, parseTz: TzParser, db: TzDb)
    requires !AllWhitespace(EffectiveFormat(cmd, cfg))
    requires ResolveTimezone(RawTimezone(cmd, cfg), local, parseTz).Err?
    ensures AppFromCli(cmd, cfg, local, parseTz, db) == Err(ResolveTimezone(RawTimezone(cmd, cfg), local, parseTz).error)
  {
  }

  /** With no zone anywhere, the operating system's identifier is used. */
  lemma UsesLocalZone(cmd: Command, cfg: Config, local: LocalTimezone, parseTz: TzParser, db: TzDb)
    requires cmd.now.None? && cmd.timezone.None? && cfg.timezone == []
    requires EffectiveFormat(cmd, cfg) != [] && !IsWhitespace(EffectiveFormat(cmd, cfg)[0])
    ensures local.Ok? && parseTz(local.value).Some? ==>
              AppFromCli(cmd, cfg, local, parseTz, db) == Ok(App(cmd.input, EffectiveFormat(cmd, cfg), parseTz(local.value).value, None))
    ensures local.Err? ==> AppFromCli(cmd, cfg, local, parseTz, db) == Err(System(SystemError.Config(LOCAL_TZ_MSG + local.error)))
  {
    TrimKeepsClean([]);
    assert !AllWhitespace(EffectiveFormat(cmd, cfg));
    assert RawTimezone(cmd, cfg) == [];
  }

  const FORMAT_CMD := Command("2025-01-01", Some("%Y"), None, None)
  const LONDON_CMD := Command("2025-01-01", Some("%Y"), Some("Europe/London"), None)
  const MARS_CMD := Command("2025-01-01", Some("%Y"), Some("Mars/Olympus"), None)
  const BLANK_CMD := Command("2025-01-01", Some("   "), None, None)

  lemma CliOverridesConfigFormatExample(local: LocalTimezone, db: TzDb)
    ensures AppFromCli(FORMAT_CMD, Cfg("%F", "UTC"), local, KnownZones, db) == Ok(App("2025-01-01", "%Y", UTC, None))
  {
    BuildsRequest(FORMAT_CMD, Cfg("%F", "UTC"), local, KnownZones, db, "UTC");
  }

  lemma BlankFormatExample(local: LocalTimezone, db: TzDb)
    ensures AppFromCli(BLANK_CMD, Cfg("%F", "UTC"), local, KnownZones, db) == Err(UserInput(MissingArgument(NO_FORMAT_MSG)))
  {
    BlankCliFormatIsNotReplaced(BLANK_CMD, Cfg("%F", "UTC"), local, KnownZones, db);
  }

  lemma CliOverridesConfigTimezoneExample(local: LocalTimezone, db: TzDb)
    ensures AppFromCli(LONDON_CMD, Cfg("%Y", "UTC"), local, KnownZones, db) == Ok(App("2025-01-01", "%Y", LONDON, None))
  {
    BuildsRequest(LONDON_CMD, Cfg("%Y", "UTC"), local, KnownZones, db, "Europe/London");
  }

  lemma InvalidTimezoneExample(local: LocalTimezone, db: TzDb)
    ensures AppFromCli(MARS_CMD, Cfg("%Y", "UTC"), local, KnownZones, db) ==
              Err(UserInput(UnsupportedTimezone(INVALID_TZ_MSG + "Mars/Olympus")))
  {
    RejectsZone(MARS_CMD, Cfg("%Y", "UTC"), local, KnownZones, db, "Mars/Olympus");
  }

  /** An empty zone everywhere means the operating system's, and a failed
      lookup of that is a configuration error. */
  lemma LocalTimezoneExample(db: TzDb)
    ensures AppFromCli(FORMAT_CMD, Cfg("%Y", ""), Ok("Europe/London"), KnownZones, db) == Ok(App("2025-01-01", "%Y", LONDON, None))
  {
    LondonIsKnown();
    UsesLocalZone(FORMAT_CMD, Cfg("%Y", ""), Ok("Europe/London"), KnownZones, db);
  }

  lemma LondonIsKnown()
    ensures KnownZones("Europe/London") == Some(LONDON)
    ensures EffectiveFormat(FORMAT_CMD, Cfg("%Y", "")) == "%Y"
  {
  }

  lemma LocalTimezoneFailureExample(db: TzDb)
    ensures Exit(AppFromCli(FORMAT_CMD, Cfg("%Y", ""), Err("no zone"), KnownZones, db).error).code == EX_CONFIG
  {
    UsesLocalZone(FORMAT_CMD, Cfg("%Y", ""), Err("no zone"), KnownZones, db);
  }

  /** 15:00 at offset -03:00 is 18:00 UTC: the request's "now" keeps the
      instant and reads 18:00 in UTC. */
  const JUNE_24_1800 := At(2025, 6, 24, 18, 0, 0)
  const AFTERNOON_MINUS_3 := FixedDateTime(JUNE_24_1800, -10800)

  lemma AfternoonReadings(dt: FixedDateTime)
    requires dt == AFTERNOON_MINUS_3
    ensures dt.NaiveLocal() == At(2025, 6, 24, 15, 0, 0)
    ensures WithTimezone(dt, UtcDb, UTC).NaiveLocal() == JUNE_24_1800
  {
    assert SecondOfDay(dt.utc.time) == 64800;
    assert TimeOfSecond(54000) == Hms(15, 0, 0);
    AddZeroIdentity(JUNE_24_1800);
  }

  /** Formatting a zoned value prints its local fields: 15:00 at -03:00 is
      18:00 UTC, and "%H" writes 15, not 18. */
  lemma LocalFieldsExample()
    ensures var z := AtLocal(Tz("America/Sao_Paulo"), At(2025, 6, 24, 15, 0, 0), -10800);
      z.utc == JUNE_24_1800 && FormatZoned(z, "%H") == Some("15")
  {
    var local := At(2025, 6, 24, 15, 0, 0);
    var z := AtLocal(Tz("America/Sao_Paulo"), local, -10800);
    assert SecondOfDay(local.time) == 54000;
    assert TimeOfSecond(64800) == Hms(18, 0, 0);
    FormatZonedReadsLocal(Tz("America/Sao_Paulo"), local, -10800, "%H");
    assert Padded(1, 1) == "1";
    assert Padded(15, 2) == "15";
    assert Directive(local, 'H') == Some("15");
    assert "%H"[2..] == [];
    assert Format(local, "%H") == Some("15" + []);
    assert "15" + [] == "15";
    assert FormatZoned(z, "%H") == Format(local, "%H");
  }

  const REEXPRESS_CMD := Command("2025-01-01", Some("%H:%M"), Some("UTC"), Some(AFTERNOON_MINUS_3))

  lemma NowReexpressedExample(local: LocalTimezone)
    ensures var r := AppFromCli(REEXPRESS_CMD, Cfg("%F", ""), local, KnownZones, UtcDb);
      && r.Ok? && r.value.now.Some? && r.value.now.value.utc == JUNE_24_1800 && r.value.now.value.offset == 0
      && r.value.now.value.NaiveLocal() == JUNE_24_1800
  {
    BuildsRequest(REEXPRESS_CMD, Cfg("%F", ""), local, KnownZones, UtcDb, "UTC");
    AfternoonReadings(AFTERNOON_MINUS_3);
  }

  const BR_CMD := Command("2030-12-31", Some("br"), None, None)
  const BR_CONFIG := Config.Config("%F", "UTC", Some(map["br" := "%d/%m/%Y"]))
  const DEC_31_2030 := At(2030, 12, 31, 0, 0, 0)

  lemma BrText(dt: NaiveDateTime, out: string)
    requires dt == DEC_31_2030
    requires out == "31/12/2030"
    ensures Format(dt, "%d/%m/%Y") == Some(out)
  {
    FieldTexts(dt, "2030", "12", "31", "00", "00", "00");
    BrSpelling();
    DayFirstPattern(dt, "2030", "12", "31", out);
  }

  lemma BrSpelling()
    ensures "31/12/2030" == "31" + (['/'] + ("12" + (['/'] + "2030")))
  {
  }

  lemma BrRenders(now: ZonedDateTime, out: string)
    requires out == "31/12/2030"
    ensures RenderDatetime(Date(Ymd(2030, 12, 31)), "%d/%m/%Y", now, UTC, UtcDb, Strf) == Ok(out)
  {
    BrText(DEC_31_2030, out);
    UtcRendersAs(Date(Ymd(2030, 12, 31)), "%d/%m/%Y", now, DEC_31_2030, out);
  }

  lemma ProcessBrCase(app: App, presets: seq<Preset>, clock: NaiveDateTime, out: string)
    requires app == App("2030-12-31", "br", UTC, None)
    requires presets == [Preset("br", "%d/%m/%Y")]
    requires out == "31/12/2030"
    ensures Process(app, presets, clock, Human, UtcDb, Strf) == Ok(out)
  {
    var now := Now(app, UtcDb, clock);
    assert Human(app.date, now.NaiveLocal()) == Ok(Date(Ymd(2030, 12, 31)));
    assert IsFirstMatch(presets, "br", 0);
    assert ResolveFormat(app.format, presets) == Ok("%d/%m/%Y");
    BrRenders(now, out);
  }

  /** The request keeps the preset's name unresolved. */
  lemma PresetNameKeptExample(local: LocalTimezone, db: TzDb)
    ensures AppFromCli(BR_CMD, BR_CONFIG, local, KnownZones, db) == Ok(App("2030-12-31", "br", UTC, None))
  {
    BuildsRequest(BR_CMD, BR_CONFIG, local, KnownZones, db, "UTC");
  }

  /** The pipeline resolves the name against the table and renders the day first. */
  lemma PresetFlowExample(clock: NaiveDateTime)
    ensures Process(App("2030-12-31", "br", UTC, None), Presets(BR_CONFIG, ["br"]), clock, Human, UtcDb, Strf) ==
              Ok("31/12/2030")
  {
    var presets := Presets(BR_CONFIG, ["br"]);
    assert |presets| == 1 && Preset("br", "%d/%m/%Y") in presets;
    assert presets == [Preset("br", "%d/%m/%Y")];
    ProcessBrCase(App("2030-12-31", "br", UTC, None), presets, clock, "31/12/2030");
  }

  // ----- The command line (src/cli.rs) ------------------------------------------------

  const NOON_FIXED := FixedDateTime(JUNE_24_NOON, 0)

  /** An RFC 3339 reader that knows one timestamp. */
  const Rfc3339: Rfc3339Parser := (s: string) =>
    if s == "2025-06-24T12:00:00Z" then Ok(NOON_FIXED) else Err("input contains invalid characters")

  lemma ParsesAllFlagsExample(terminal: bool, stdin: StdinRead)
    ensures FromCli(CliArgs(Some("next friday"), Some("%Y"), Some("UTC"), Some("2025-06-24T12:00:00Z")), terminal, stdin, Rfc3339) ==
              Ok(Command("next friday", Some("%Y"), Some("UTC"), Some(NOON_FIXED)))
  {
  }

  lemma DefaultsNoneExample(terminal: bool, stdin: StdinRead)
    ensures FromCli(CliArgs(Some("tomorrow"), None, None, None), terminal, stdin, Rfc3339) ==
              Ok(Command("tomorrow", None, None, None))
  {
  }

  lemma ArgOverStdinExample(terminal: bool)
    ensures FromCli(CliArgs(Some("next monday"), None, None, None), terminal, Ok("ignored"), Rfc3339).value.input == "next monday"
  {
  }

  /** Nothing to read, whether or not standard input counts as a terminal. */
  lemma EmptyStdinExample(terminal: bool)
    ensures var r := FromCli(CliArgs(None, None, None, None), terminal, Ok(""), Rfc3339);
      r.Err? && r.error.UserInput? && r.error.user.InvalidDateFormat?
  {
  }

  lemma InvalidNowExample(terminal: bool, stdin: StdinRead)
    ensures FromCli(CliArgs(Some("today"), None, None, Some("yesterday-ish")), terminal, stdin, Rfc3339) ==
              Err(UserInput(InvalidNow("input contains invalid characters" + NOW_HINT)))
    ensures Exit(FromCli(CliArgs(Some("today"), None, None, Some("yesterday-ish")), terminal, stdin, Rfc3339).error).code == EX_USAGE
  {
    assert Rfc3339("yesterday-ish") == Err("input contains invalid characters");
  }

  // ----- Errors (src/errors.rs) ---------------------------------------------------------

  lemma UserInputMacroLiteralExample()
    ensures UserInputErrorOf(InvalidDateFormatKind, "foo") == UserInput(InvalidDateFormat("foo"))
  {
  }

  lemma UserInputMacroFormattedExample()
    ensures UserInputErrorOf(MissingArgumentKind, "missing " + "--format") == UserInput(MissingArgument("missing --format"))
  {
  }

  lemma UserInputMacroEmptyExample()
    ensures UserInputErrorEmpty(InvalidNowKind) == UserInput(InvalidNow(""))
  {
  }

  lemma SystemMacroLiteralExample()
    ensures SystemErrorOf("invalid field") == System(SystemError.Config("invalid field"))
  {
  }

  lemma SystemMacroFormattedExample()
    ensures SystemErrorOf("failed to read " + "/tmp/foo") == System(SystemError.Config("failed to read /tmp/foo"))
  {
  }

  lemma SystemMacroEmptyExample()
    ensures SystemErrorEmpty() == System(SystemError.Config(""))
  {
  }

  lemma ConversionExamples()
    ensures FromFmtError(FmtError).UserInput? && FromFmtError(FmtError).user.UnsupportedFormat?
    ensures FromIoError(IoError(PermissionDenied, "permission denied")).System?
    ensures FromIoError(IoError(PermissionDenied, "permission denied")).system.Io?
  {
  }

  lemma UserExitExample()
    ensures Exit(UserInput(MissingArgument("empty --format"))) == ExitReport(EX_USAGE, MISSING_ARGUMENT_PREFIX + "empty --format")
  {
  }

  lemma SystemExitExample()
    ensures Exit(System(SystemError.Config("bad"))) == ExitReport(EX_CONFIG, SYSTEM_ERROR_PREFIX + (CONFIG_PREFIX + "bad"))
  {
  }

  // ----- Configuration (src/config.rs) ---------------------------------------------------

  const TABLE := map["iso" := "%Y-%m-%d", "time" := "%H:%M"]

  lemma PresetsFromTableExample(order: seq<string>)
    requires IsIterationOrder(order, TABLE)
    ensures var presets := Presets(Config.Config("%Y", "UTC", Some(TABLE)), order);
      && |presets| == 2
      && (exists p :: p in presets && p.name == "iso")
      && (exists p :: p in presets && p.format == "%H:%M")
  {
    var presets := Presets(Config.Config("%Y", "UTC", Some(TABLE)), order);
    assert Preset("iso", "%Y-%m-%d") in presets;
    assert Preset("time", "%H:%M") in presets;
  }

  lemma PresetsEmptyExample(order: seq<string>)
    ensures Presets(Cfg("%Y", "UTC"), order) == []
  {
  }

  lemma EnvExamples()
    ensures ApplyEnv(Cfg("%Y", "UTC"), Some("%d"), None).format == "%d"
    ensures ApplyEnv(Cfg("%d", "UTC"), None, Some("")).timezone == "UTC"
  {
  }

  lemma ConfigPathExample(osDir: Option<string>)
    ensures ConfigPath(Some("/tmp/x"), osDir) == Ok(Path(["/tmp/x", "tardis", "config.toml"]))
  {
  }
}
