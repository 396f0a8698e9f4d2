/** Input selection and `--now` validation (src/cli.rs, `Command::from_cli`).
    clap has already split the arguments; standard input arrives as a value. */
module Cli {
  import opened Wrappers
  import opened Errors
  import opened Chrono
  import opened Text

  /** The arguments clap hands over. */
  datatype CliArgs = CliArgs(input: Option<string>, format: Option<string>, timezone: Option<string>, now: Option<string>)

  /** The normalised command. */
  datatype Command = Command(input: string, format: Option<string>, timezone: Option<string>, now: Option<FixedDateTime>)

  /** What reading standard input to the end gives: its text, or the I/O error's text. */
  type StdinRead = Result<string, string>

  /** chrono's `DateTime::parse_from_rfc3339` (section 5.6 of RFC 3339): the
      parsed value or the parser's error text. */
  type Rfc3339Parser = string -> Result<FixedDateTime, string>

  const NO_INPUT_MSG := "no input provided; pass an argument or pipe data"
  const EMPTY_STDIN_MSG := "no input provided in stdin; pass an argument or pipe data"
  const STDIN_READ_MSG := "failed to read from stdin: "
  const NOW_HINT := " (expect RFC 3339, ex.: 2025-06-24T12:00:00Z)"

  /** The expression to parse: a non-empty argument verbatim; otherwise, when
      standard input is not a terminal, its trimmed contents; otherwise (or when
      nothing is left) an invalid-date-format error. An empty argument never
      falls through to standard input. */
  function SelectInput(arg: Option<string>, stdinIsTerminal: bool, stdin: StdinRead): (r: Result<string, Error>)
    ensures arg.Some? && arg.value != [] ==> r == Ok(arg.value)
    ensures (arg.Some? && arg.value == []) || (arg.None? && stdinIsTerminal) ==>
              r == Err(UserInput(InvalidDateFormat(NO_INPUT_MSG)))
    ensures arg.None? && !stdinIsTerminal && stdin.Err? ==>
              r == Err(UserInput(InvalidDateFormat(STDIN_READ_MSG + stdin.error)))
    ensures arg.None? && !stdinIsTerminal && stdin.Ok? && AllWhitespace(stdin.value) ==>
              r == Err(UserInput(InvalidDateFormat(EMPTY_STDIN_MSG)))
    ensures arg.None? && !stdinIsTerminal && stdin.Ok? && !AllWhitespace(stdin.value) ==>
              r == Ok(Trim(stdin.value))
    ensures r.Ok? ==> r.value != []
    ensures r.Ok? && arg.None? ==> !IsWhitespace(r.value[0]) && !IsWhitespace(r.value[|r.value| - 1])
    ensures r.Err? ==> r.error.UserInput? && r.error.user.InvalidDateFormat?
  {
    match arg
    case Some(s) =>
      if s != [] then Ok(s) else Err(UserInputErrorOf(InvalidDateFormatKind, NO_INPUT_MSG))
    case None =>
      if stdinIsTerminal then Err(UserInputErrorOf(InvalidDateFormatKind, NO_INPUT_MSG))
      else ReadPiped(stdin)
  }

  /** The piped branch: a read error, or text that trims to nothing, is an
      invalid-date-format error; otherwise the trimmed text, which is never
      empty and has no whitespace at either end. */
  function ReadPiped(stdin: StdinRead): (r: Result<string, Error>)
    ensures stdin.Err? ==> r == Err(UserInput(InvalidDateFormat(STDIN_READ_MSG + stdin.error)))
    ensures stdin.Ok? && AllWhitespace(stdin.value) ==> r == Err(UserInput(InvalidDateFormat(EMPTY_STDIN_MSG)))
    ensures stdin.Ok? && !AllWhitespace(stdin.value) ==> r == Ok(Trim(stdin.value))
    ensures r.Ok? ==> r.value != [] && !IsWhitespace(r.value[0]) && !IsWhitespace(r.value[|r.value| - 1])
    ensures r.Err? ==> r.error.UserInput? && r.error.user.InvalidDateFormat?
  {
    match stdin
    case Err(e) => Err(UserInputErrorOf(InvalidDateFormatKind, STDIN_READ_MSG + e))
    case Ok(buf) =>
      TrimEmptyIffBlank(buf);
      var trimmed := Trim(buf);
      if trimmed == [] then Err(UserInputErrorOf(InvalidDateFormatKind, EMPTY_STDIN_MSG))
      else Ok(trimmed)
  }

  /** `--now`: absent is `None`; otherwise the RFC 3339 reading, or an
      invalid-now error carrying the parser's text and a hint. */
  function ParseNow(now: Option<string>, rfc3339: Rfc3339Parser): (r: Result<Option<FixedDateTime>, Error>)
    ensures now.None? ==> r == Ok(None)
    ensures now.Some? && rfc3339(now.value).Ok? ==> r == Ok(Some(rfc3339(now.value).value))
    ensures now.Some? && rfc3339(now.value).Err? ==>
              r == Err(UserInput(InvalidNow(rfc3339(now.value).error + NOW_HINT)))
  {
    match now
    case None => Ok(None)
    case Some(text) =>
      match rfc3339(text)
      case Ok(dt) => Ok(Some(dt))
      case Err(e) => Err(UserInputErrorOf(InvalidNowKind, e + NOW_HINT))
  }

  /** `Command::from_cli`: the input is settled first, so its errors are reported
      before any `--now` error; format and timezone pass through untouched. */
  function FromCli(cli: CliArgs, stdinIsTerminal: bool, stdin: StdinRead, rfc3339: Rfc3339Parser): (r: Result<Command, Error>)
    ensures SelectInput(cli.input, stdinIsTerminal, stdin).Err? ==>
              r == Err(SelectInput(cli.input, stdinIsTerminal, stdin).error)
    ensures SelectInput(cli.input, stdinIsTerminal, stdin).Ok? && ParseNow(cli.now, rfc3339).Err? ==>
              r == Err(ParseNow(cli.now, rfc3339).error)
    ensures r.Ok? <==> SelectInput(cli.input, stdinIsTerminal, stdin).Ok? && ParseNow(cli.now, rfc3339).Ok?
    ensures r.Ok? ==>
              && r.value.input == SelectInput(cli.input, stdinIsTerminal, stdin).value
              && r.value.now == ParseNow(cli.now, rfc3339).value
              && r.value.format == cli.format
              && r.value.timezone == cli.timezone
  {
    var input :- SelectInput(cli.input, stdinIsTerminal, stdin);
    var now :- ParseNow(cli.now, rfc3339);
    Ok(Command(input, cli.format, cli.timezone, now))
  }

  /** A non-empty argument wins: standard input, read or not, changes nothing. */
  lemma ArgumentIgnoresStdin(cli: CliArgs, t1: bool, t2: bool, s1: StdinRead, s2: StdinRead, rfc3339: Rfc3339Parser)
    requires cli.input.Some? && cli.input.value != []
    ensures FromCli(cli, t1, s1, rfc3339) == FromCli(cli, t2, s2, rfc3339)
    ensures FromCli(cli, t1, s1, rfc3339).Ok? ==> FromCli(cli, t1, s1, rfc3339).value.input == cli.input.value
  {
  }

  lemma {:induction false} TrimStartSkips(ws: string, s: string)
    requires AllWhitespace(ws) && s != [] && !IsWhitespace(s[0])
    ensures TrimStart(ws + s) == s
    decreases |ws|
  {
    if ws == [] {
      assert ws + s == s;
    } else {
      assert (ws + s)[0] == ws[0] && (ws + s)[1..] == ws[1..] + s;
      TrimStartSkips(ws[1..], s);
    }
  }

  lemma {:induction false} TrimEndSkips(s: string, ws: string)
    requires AllWhitespace(ws) && s != [] && !IsWhitespace(s[|s| - 1])
    ensures TrimEnd(s + ws) == s
    decreases |ws|
  {
    if ws == [] {
      assert s + ws == s;
    } else {
      assert (s + ws)[|s + ws| - 1] == ws[|ws| - 1];
      assert (s + ws)[..|s + ws| - 1] == s + ws[..|ws| - 1];
      TrimEndSkips(s, ws[..|ws| - 1]);
    }
  }

  /** Piped input is trimmed: whitespace around the text never reaches the
      parser. */
  lemma PipedInputIsTrimmed(pre: string, text: string, post: string)
    requires AllWhitespace(pre) && AllWhitespace(post)
    requires text != [] && !IsWhitespace(text[0]) && !IsWhitespace(text[|text| - 1])
    ensures SelectInput(None, false, Ok(pre + text + post)) == Ok(text)
  {
    var s := pre + text + post;
    assert s == pre + (text + post);
    assert (text + post)[0] == text[0];
    TrimStartSkips(pre, text + post);
    TrimEndSkips(text, post);
    assert s[|pre|] == text[0];
  }
}
