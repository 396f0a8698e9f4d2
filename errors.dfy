/** The error model shared by every stage (src/errors.rs): a user/system split,
    the messages each variant displays, the exit-code classification, and the
    hand-written equality on system errors. */
module Errors {
  import opened Wrappers

  /** `std::fmt::Error`: a unit value that carries no information. */
  datatype FmtError = FmtError

  /** What `std::fmt::Error` displays. */
  const FMT_ERROR_TEXT := "an error occurred when formatting an argument"

  /** The kinds of `std::io::Error`: a representative set by name, and every
      other kind as `OtherKind` carrying the kind's name, so that two different
      kinds outside the set still compare unequal. */
  datatype IoErrorKind =
    | NotFound | PermissionDenied | AlreadyExists | InvalidInput | InvalidData
    | UnexpectedEof | Interrupted | OtherKind(name: string)

  /** A `std::io::Error`: its kind and the text it displays. */
  datatype IoError = IoError(kind: IoErrorKind, message: string)

  /** Failures the user can fix. */
  datatype UserInputError =
    | InvalidDateFormat(msg: string)
    | UnsupportedFormat(cause: FmtError)
    | UnsupportedTimezone(msg: string)
    | InvalidNow(msg: string)
    | MissingArgument(msg: string)

  /** Failures of the environment. */
  datatype SystemError = Config(msg: string) | Io(io: IoError)

  datatype Error = UserInput(user: UserInputError) | System(system: SystemError)

  // ----- Display --------------------------------------------------------------

  const INVALID_DATE_FORMAT_PREFIX := "Invalid date format: "
  const UNSUPPORTED_FORMAT_PREFIX := "Unsupported format: "
  const UNSUPPORTED_TIMEZONE_PREFIX := "Unsupported timezone: "
  const INVALID_NOW_PREFIX := "Invalid 'now' argument: "
  const MISSING_ARGUMENT_PREFIX := "Missing required argument: "
  const CONFIG_PREFIX := "Configuration error: "
  const IO_PREFIX := "IO error: "
  const SYSTEM_ERROR_PREFIX := "System error: "

  /** The `#[error("…")]` text of each user-input variant: the variant's fixed
      prefix, then its message (for `UnsupportedFormat`, the text of
      `fmt::Error`). */
  function UserInputDisplay(e: UserInputError): (r: string)
    ensures e.InvalidDateFormat? ==>
              StartsWith(r, INVALID_DATE_FORMAT_PREFIX) && r[|INVALID_DATE_FORMAT_PREFIX|..] == e.msg
    ensures e.UnsupportedFormat? ==>
              StartsWith(r, UNSUPPORTED_FORMAT_PREFIX) && r[|UNSUPPORTED_FORMAT_PREFIX|..] == FMT_ERROR_TEXT
    ensures e.UnsupportedTimezone? ==>
              StartsWith(r, UNSUPPORTED_TIMEZONE_PREFIX) && r[|UNSUPPORTED_TIMEZONE_PREFIX|..] == e.msg
    ensures e.InvalidNow? ==> StartsWith(r, INVALID_NOW_PREFIX) && r[|INVALID_NOW_PREFIX|..] == e.msg
    ensures e.MissingArgument? ==>
              StartsWith(r, MISSING_ARGUMENT_PREFIX) && r[|MISSING_ARGUMENT_PREFIX|..] == e.msg
  {
    match e
    case InvalidDateFormat(m) =>
      StartsWithPrefix(INVALID_DATE_FORMAT_PREFIX, m);
      INVALID_DATE_FORMAT_PREFIX + m
    case UnsupportedFormat(_) =>
      StartsWithPrefix(UNSUPPORTED_FORMAT_PREFIX, FMT_ERROR_TEXT);
      UNSUPPORTED_FORMAT_PREFIX + FMT_ERROR_TEXT
    case UnsupportedTimezone(m) =>
      StartsWithPrefix(UNSUPPORTED_TIMEZONE_PREFIX, m);
      UNSUPPORTED_TIMEZONE_PREFIX + m
    case InvalidNow(m) =>
      StartsWithPrefix(INVALID_NOW_PREFIX, m);
      INVALID_NOW_PREFIX + m
    case MissingArgument(m) =>
      StartsWithPrefix(MISSING_ARGUMENT_PREFIX, m);
      MISSING_ARGUMENT_PREFIX + m
  }

  /** The text of each system variant: its prefix, then the configuration
      message or the I/O error's own text. */
  function SystemDisplay(e: SystemError): (r: string)
    ensures e.Config? ==> StartsWith(r, CONFIG_PREFIX) && r[|CONFIG_PREFIX|..] == e.msg
    ensures e.Io? ==> StartsWith(r, IO_PREFIX) && r[|IO_PREFIX|..] == e.io.message
  {
    match e
    case Config(m) =>
      StartsWithPrefix(CONFIG_PREFIX, m);
      CONFIG_PREFIX + m
    case Io(io) =>
      StartsWithPrefix(IO_PREFIX, io.message);
      IO_PREFIX + io.message
  }

  /** `Error` is `#[error(transparent)]`: it displays as the error it wraps. */
  function Display(e: Error): (r: string)
    ensures e.UserInput? ==> r == UserInputDisplay(e.user)
    ensures e.System? ==> r == SystemDisplay(e.system)
  {
    match e
    case UserInput(u) => UserInputDisplay(u)
    case System(s) => SystemDisplay(s)
  }

  predicate StartsWith(s: string, p: string) {
    |p| <= |s| && s[..|p|] == p
  }

  /** Reads a displayed user-input message back: the inverse of `UserInputDisplay`. */
  function ParseUserInputDisplay(s: string): Option<UserInputError> {
    if StartsWith(s, INVALID_DATE_FORMAT_PREFIX) then
      Some(InvalidDateFormat(s[|INVALID_DATE_FORMAT_PREFIX|..]))
    else if StartsWith(s, UNSUPPORTED_FORMAT_PREFIX) then
      if s[|UNSUPPORTED_FORMAT_PREFIX|..] == FMT_ERROR_TEXT then Some(UnsupportedFormat(FmtError)) else None
    else if StartsWith(s, UNSUPPORTED_TIMEZONE_PREFIX) then
      Some(UnsupportedTimezone(s[|UNSUPPORTED_TIMEZONE_PREFIX|..]))
    else if StartsWith(s, INVALID_NOW_PREFIX) then
      Some(InvalidNow(s[|INVALID_NOW_PREFIX|..]))
    else if StartsWith(s, MISSING_ARGUMENT_PREFIX) then
      Some(MissingArgument(s[|MISSING_ARGUMENT_PREFIX|..]))
    else
      None
  }

  /** Two prefixes that differ at position `k` cannot both start one string. */
  lemma NotStartsWith(p: string, m: string, q: string, k: nat)
    requires k < |p| && k < |q| && p[k] != q[k]
    ensures !StartsWith(p + m, q)
  {
  }

  lemma StartsWithPrefix(p: string, m: string)
    ensures StartsWith(p + m, p) && (p + m)[|p|..] == m
  {
    assert (p + m)[..|p|] == p;
  }

  /** Every displayed user-input message starts with its variant's fixed prefix,
      and the prefixes are told apart: the variant and the message can be read
      back from the text. */
  lemma {:induction false} DisplayRoundTrip(e: UserInputError)
    ensures ParseUserInputDisplay(UserInputDisplay(e)) == Some(e)
  {
    match e
    case InvalidDateFormat(m) =>
      StartsWithPrefix(INVALID_DATE_FORMAT_PREFIX, m);
    case UnsupportedFormat(c) =>
      assert c == FmtError;
      NotStartsWith(UNSUPPORTED_FORMAT_PREFIX, FMT_ERROR_TEXT, INVALID_DATE_FORMAT_PREFIX, 0);
      StartsWithPrefix(UNSUPPORTED_FORMAT_PREFIX, FMT_ERROR_TEXT);
    case UnsupportedTimezone(m) =>
      NotStartsWith(UNSUPPORTED_TIMEZONE_PREFIX, m, INVALID_DATE_FORMAT_PREFIX, 0);
      NotStartsWith(UNSUPPORTED_TIMEZONE_PREFIX, m, UNSUPPORTED_FORMAT_PREFIX, 12);
      StartsWithPrefix(UNSUPPORTED_TIMEZONE_PREFIX, m);
    case InvalidNow(m) =>
      NotStartsWith(INVALID_NOW_PREFIX, m, INVALID_DATE_FORMAT_PREFIX, 8);
      NotStartsWith(INVALID_NOW_PREFIX, m, UNSUPPORTED_FORMAT_PREFIX, 0);
      NotStartsWith(INVALID_NOW_PREFIX, m, UNSUPPORTED_TIMEZONE_PREFIX, 0);
      StartsWithPrefix(INVALID_NOW_PREFIX, m);
    case MissingArgument(m) =>
      NotStartsWith(MISSING_ARGUMENT_PREFIX, m, INVALID_DATE_FORMAT_PREFIX, 0);
      NotStartsWith(MISSING_ARGUMENT_PREFIX, m, UNSUPPORTED_FORMAT_PREFIX, 0);
      NotStartsWith(MISSING_ARGUMENT_PREFIX, m, UNSUPPORTED_TIMEZONE_PREFIX, 0);
      NotStartsWith(MISSING_ARGUMENT_PREFIX, m, INVALID_NOW_PREFIX, 0);
      StartsWithPrefix(MISSING_ARGUMENT_PREFIX, m);
  }

  /** Distinct user-input errors never display the same text. */
  lemma DisplayInjective(a: UserInputError, b: UserInputError)
    ensures UserInputDisplay(a) == UserInputDisplay(b) ==> a == b
  {
    DisplayRoundTrip(a);
    DisplayRoundTrip(b);
  }

  // ----- Exit classification (Failable::exit) --------------------------------

  /** The sysexits codes of the `exitcode` crate. */
  const EX_USAGE := 64
  const EX_IOERR := 74
  const EX_CONFIG := 78

  /** What `exit` does, minus the side effects: the code it exits with and the
      line it writes to standard error. */
  datatype ExitReport = ExitReport(code: int, diagnostic: string)

  function Exit(e: Error): (r: ExitReport)
    ensures r.code in {EX_USAGE, EX_IOERR, EX_CONFIG}
    ensures r.code == EX_USAGE <==> e.UserInput?
    ensures r.code == EX_CONFIG <==> (e.System? && e.system.Config?)
    ensures r.code == EX_IOERR <==> (e.System? && e.system.Io?)
    ensures e.UserInput? ==> r.diagnostic == Display(e)
    ensures e.System? ==> r.diagnostic == SYSTEM_ERROR_PREFIX + Display(e)
  {
    match e
    case UserInput(u) => ExitReport(EX_USAGE, UserInputDisplay(u))
    case System(s) =>
      ExitReport(if s.Config? then EX_CONFIG else EX_IOERR, SYSTEM_ERROR_PREFIX + SystemDisplay(s))
  }

  // ----- Equality ------------------------------------------------------------

  /** `PartialEq for SystemError`: configuration errors compare by message, I/O
      errors by kind only, and the two never compare equal. */
  predicate SystemErrorEq(a: SystemError, b: SystemError): (r: bool)
    ensures a == b ==> r
    ensures r ==> a.Config? == b.Config?
    ensures r && a.Config? ==> a == b
    ensures a.Io? && b.Io? ==> (r <==> a.io.kind == b.io.kind)
  {
    match (a, b)
    case (Config(x), Config(y)) => x == y
    case (Io(x), Io(y)) => x.kind == y.kind
    case _ => false
  }

  /** The derived `PartialEq for Error`, which defers to the one above. */
  predicate ErrorEq(a: Error, b: Error): (r: bool)
    ensures a == b ==> r
    ensures r ==> (a.UserInput? <==> b.UserInput?)
    ensures a.UserInput? && b.UserInput? ==> (r <==> a == b)
    ensures a.System? && b.System? ==> (r <==> SystemErrorEq(a.system, b.system))
    ensures r ==> Exit(a).code == Exit(b).code
  {
    match (a, b)
    case (UserInput(x), UserInput(y)) => x == y
    case (System(x), System(y)) => SystemErrorEq(x, y)
    case _ => false
  }

  lemma SystemErrorEqCases(a: SystemError, b: SystemError)
    ensures a.Config? && b.Config? ==> (SystemErrorEq(a, b) <==> a.msg == b.msg)
    ensures a.Io? && b.Io? ==> (SystemErrorEq(a, b) <==> a.io.kind == b.io.kind)
    ensures a.Config? != b.Config? ==> !SystemErrorEq(a, b)
  {
  }

  /** `impl Eq for SystemError` is sound: the relation is an equivalence, and it
      is coarser than structural equality. */
  lemma {:induction false} SystemErrorEqIsEquivalence(a: SystemError, b: SystemError, c: SystemError)
    ensures SystemErrorEq(a, a)
    ensures SystemErrorEq(a, b) ==> SystemErrorEq(b, a)
    ensures SystemErrorEq(a, b) && SystemErrorEq(b, c) ==> SystemErrorEq(a, c)
  {
  }

  /** Two I/O errors of one kind are equal whatever they display. */
  lemma IoEqualityIgnoresMessage(k: IoErrorKind, m1: string, m2: string)
    ensures SystemErrorEq(Io(IoError(k, m1)), Io(IoError(k, m2)))
  {
  }

  lemma {:induction false} ErrorEqIsEquivalence(a: Error, b: Error, c: Error)
    ensures ErrorEq(a, a)
    ensures ErrorEq(a, b) ==> ErrorEq(b, a)
    ensures ErrorEq(a, b) && ErrorEq(b, c) ==> ErrorEq(a, c)
  {
    if a.System? && b.System? && c.System? {
      SystemErrorEqIsEquivalence(a.system, b.system, c.system);
    } else if a.System? {
      SystemErrorEqIsEquivalence(a.system, a.system, a.system);
    }
  }

  /** Errors that compare equal exit with the same code. */
  lemma EqualErrorsExitAlike(a: Error, b: Error)
    requires ErrorEq(a, b)
    ensures Exit(a).code == Exit(b).code
  {
  }

  // ----- Constructors (the two macros and the From conversions) -------------

  /** The variants `user_input_error!` can build: those that carry a string. */
  datatype UserInputKind = InvalidDateFormatKind | UnsupportedTimezoneKind | InvalidNowKind | MissingArgumentKind

  function KindOf(e: UserInputError): Option<UserInputKind> {
    match e
    case InvalidDateFormat(_) => Some(InvalidDateFormatKind)
    case UnsupportedFormat(_) => None
    case UnsupportedTimezone(_) => Some(UnsupportedTimezoneKind)
    case InvalidNow(_) => Some(InvalidNowKind)
    case MissingArgument(_) => Some(MissingArgumentKind)
  }

  /** `user_input_error!(V, msg)` and `user_input_error!(V, fmt, args…)`: the
      formatted form is the same error once `format!` has produced `msg`. */
  function UserInputErrorOf(kind: UserInputKind, msg: string): (r: Error)
    ensures r.UserInput? && KindOf(r.user) == Some(kind) && !r.user.UnsupportedFormat? && r.user.msg == msg
  {
    UserInput(match kind
      case InvalidDateFormatKind => InvalidDateFormat(msg)
      case UnsupportedTimezoneKind => UnsupportedTimezone(msg)
      case InvalidNowKind => InvalidNow(msg)
      case MissingArgumentKind => MissingArgument(msg))
  }

  /** `user_input_error!(V)`: the variant with an empty message. */
  function UserInputErrorEmpty(kind: UserInputKind): (r: Error)
    ensures r.UserInput? && KindOf(r.user) == Some(kind) && !r.user.UnsupportedFormat? && r.user.msg == ""
  {
    UserInputErrorOf(kind, "")
  }

  /** `system_error!(Config, msg)` / `system_error!(Config, fmt, args…)`
      (`Io` wraps an `io::Error`, not a string, so the macro only builds `Config`). */
  function SystemErrorOf(msg: string): (r: Error)
    ensures r.System? && r.system.Config? && r.system.msg == msg
    ensures Exit(r).code == EX_CONFIG
  {
    System(Config(msg))
  }

  /** `system_error!(Config)`. */
  function SystemErrorEmpty(): (r: Error)
    ensures r.System? && r.system.Config? && r.system.msg == ""
  {
    SystemErrorOf("")
  }

  /** `From<fmt::Error> for Error` (src/core.rs): a formatting failure is the
      user's (an unsupported pattern), never a system fault. */
  function FromFmtError(e: FmtError): (r: Error)
    ensures r.UserInput? && r.user.UnsupportedFormat?
    ensures Exit(r).code == EX_USAGE
    ensures Display(r) == UNSUPPORTED_FORMAT_PREFIX + FMT_ERROR_TEXT
  {
    UserInput(UnsupportedFormat(e))
  }

  /** `From<io::Error> for Error` (src/config.rs). */
  function FromIoError(e: IoError): (r: Error)
    ensures r.System? && r.system.Io? && r.system.io == e
    ensures Exit(r).code == EX_IOERR
  {
    System(Io(e))
  }

  /** `From<config::ConfigError> for Error` (src/config.rs): the error's text
      becomes a configuration error. */
  function FromConfigError(text: string): (r: Error)
    ensures r.System? && r.system.Config? && r.system.msg == text
    ensures Exit(r).code == EX_CONFIG
  {
    SystemErrorOf(text)
  }
}
