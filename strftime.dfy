/** A concrete subset of chrono's strftime engine: `%Y %m %d %H %M %S %%`, with
    every other character copied through. The subset refuses every directive
    it does not implement, whether or not chrono accepts it (`%F`, `%z`, `%e`,
    padding flags such as `%-d` are all accepted by chrono), and a lone `%` at
    the end, which chrono also rejects. */
module Strftime {
  import opened Wrappers
  import opened Chrono

  function Digit(n: int): (c: char)
    requires 0 <= n < 10
    ensures '0' <= c <= '9' && c as int - '0' as int == n
  {
    ['0', '1', '2', '3', '4', '5', '6', '7', '8', '9'][n]
  }

  /** The value of a string of decimal digits. */
  function DigitsValue(s: string): int
    requires forall i :: 0 <= i < |s| ==> '0' <= s[i] <= '9'
  {
    if s == [] then 0 else DigitsValue(s[..|s| - 1]) * 10 + (s[|s| - 1] as int - '0' as int)
  }

  /** `n` in at least `width` digits, zero-padded on the left. */
  function Padded(n: nat, width: nat): (r: string)
    ensures forall i :: 0 <= i < |r| ==> '0' <= r[i] <= '9'
    ensures |r| >= width && |r| >= 1
    decreases width + n
  {
    if n < 10 && width <= 1 then [Digit(n)]
    else Padded(n / 10, if width == 0 then 0 else width - 1) + [Digit(n % 10)]
  }

  /** `Padded` adds no zero beyond the width: a result longer than `width`
      starts with a non-zero digit. */
  lemma {:induction false} PaddedMinimal(n: nat, width: nat)
    requires n >= 1 || width >= 1
    ensures |Padded(n, width)| == width || Padded(n, width)[0] != '0'
    decreases width + n
  {
    if !(n < 10 && width <= 1) {
      var w := if width == 0 then 0 else width - 1;
      PaddedMinimal(n / 10, w);
      var prefix := Padded(n / 10, w);
      assert Padded(n, width) == prefix + [Digit(n % 10)];
    }
  }

  /** The digits `Padded` writes read back as the value: padding adds only
      leading zeros. */
  lemma {:induction false} PaddedValue(n: nat, width: nat)
    ensures DigitsValue(Padded(n, width)) == n
    decreases width + n
  {
    if !(n < 10 && width <= 1) {
      var prefix := Padded(n / 10, if width == 0 then 0 else width - 1);
      PaddedValue(n / 10, if width == 0 then 0 else width - 1);
      assert (prefix + [Digit(n % 10)])[..|prefix|] == prefix;
    }
  }

  /** chrono's `%Y`: the year zero-padded to four digits for years 0 to 9999;
      any other year gets an explicit sign in front of at least four digits,
      so -5 is written `-0005` and 12345 `+12345`. */
  function Year(y: int): (r: string)
    ensures 0 <= y <= 9999 ==> |r| == 4
    ensures !(0 <= y <= 9999) ==> |r| >= 5 && r[0] == (if y < 0 then '-' else '+')
    ensures !(0 <= y <= 9999) ==> |r| == 5 || r[1] != '0'
  {
    if 0 <= y <= 9999 then
      assert Pow10(4) == 10000;
      PaddedExactWidth(y, 4);
      Padded(y, 4)
    else
      PaddedMinimal(if y < 0 then -y else y, 4);
      [if y < 0 then '-' else '+'] + Padded(if y < 0 then -y else y, 4)
  }

  /** The digits `%Y` writes read back as the year, or after the sign as its
      magnitude. */
  lemma YearReadsBack(y: int)
    ensures 0 <= y <= 9999 ==>
              && (forall i :: 0 <= i < |Year(y)| ==> '0' <= Year(y)[i] <= '9')
              && DigitsValue(Year(y)) == y
    ensures !(0 <= y <= 9999) ==>
              && (forall i :: 1 <= i < |Year(y)| ==> '0' <= Year(y)[i] <= '9')
              && DigitsValue(Year(y)[1..]) == (if y < 0 then -y else y)
  {
    var magnitude: nat := if y < 0 then -y else y;
    PaddedValue(magnitude, 4);
    if !(0 <= y <= 9999) {
      var r := Year(y);
      assert r[1..] == Padded(magnitude, 4);
      assert forall i :: 1 <= i < |r| ==> r[i] == r[1..][i - 1];
    }
  }

  /** The directive letters the subset implements. */
  const SUBSET: set<char> := {'Y', 'm', 'd', 'H', 'M', 'S', '%'}

  /** The text of one directive, or `None` when it is outside the subset. */
  function Directive(dt: NaiveDateTime, spec: char): (r: Option<string>)
    ensures r.Some? <==> spec in SUBSET
  {
    match spec
    case 'Y' => Some(Year(dt.date.year))
    case 'm' => Some(Padded(dt.date.month, 2))
    case 'd' => Some(Padded(dt.date.day, 2))
    case 'H' => Some(Padded(dt.time.hour, 2))
    case 'M' => Some(Padded(dt.time.minute, 2))
    case 'S' => Some(Padded(dt.time.second, 2))
    case '%' => Some("%")
    case _ => None
  }

  /** The pattern holds no `%`, so no directive. */
  predicate NoDirective(s: string) {
    forall i :: 0 <= i < |s| ==> s[i] != '%'
  }

  /** `dt.format(pattern)` written out: literal characters are copied, each
      directive is replaced by its field, and an unknown directive or a lone
      trailing `%` makes the whole rendering fail. */
  function Format(dt: NaiveDateTime, pattern: string): (r: Option<string>)
    ensures |pattern| >= 2 && pattern[0] == '%' && pattern[1] !in SUBSET ==> r == None
    ensures pattern == ['%'] ==> r == None
    decreases |pattern|
  {
    if pattern == [] then Some([])
    else if pattern[0] != '%' then
      match Format(dt, pattern[1..])
      case None => None
      case Some(rest) =>
        Some([pattern[0]] + rest)
    else if |pattern| == 1 then None
    else
      match Directive(dt, pattern[1])
      case None => None
      case Some(text) =>
        match Format(dt, pattern[2..])
        case None => None
        case Some(rest) => Some(text + rest)
  }

  /** The formatter the pipeline receives: the zoned value's local reading. */
  function FormatZoned(z: ZonedDateTime, pattern: string): (r: Option<string>)
    ensures NoDirective(pattern) ==> r == Some(pattern)
    ensures |pattern| >= 2 && pattern[0] == '%' && pattern[1] !in SUBSET ==> r == None
  {
    if NoDirective(pattern) then
      LiteralPattern(z.NaiveLocal(), pattern);
      Format(z.NaiveLocal(), pattern)
    else
      Format(z.NaiveLocal(), pattern)
  }

  /** A zoned value is formatted by its local reading, not by its UTC one:
      every instant that reads as `local` in its zone renders as `local` does. */
  lemma FormatZonedReadsLocal(tz: Tz, local: NaiveDateTime, o: Offset, pattern: string)
    ensures FormatZoned(AtLocal(tz, local, o), pattern) == Format(local, pattern)
  {
  }

  /** One literal character in front of a pattern is copied in front of its text. */
  lemma LiteralCons(dt: NaiveDateTime, c: char, p: string)
    requires c != '%'
    ensures Format(dt, [c] + p) ==
      (match Format(dt, p) case None => None case Some(t) => Some([c] + t))
  {
    assert ([c] + p)[0] == c && ([c] + p)[1..] == p;
  }

  /** Text without `%` is copied through unchanged, in front of whatever the rest
      of the pattern formats to. */
  lemma {:induction false} LiteralPrefix(dt: NaiveDateTime, lit: string, rest: string)
    requires NoDirective(lit)
    ensures Format(dt, lit + rest) ==
      (match Format(dt, rest) case None => None case Some(t) => Some(lit + t))
  {
    if lit == [] {
      assert lit + rest == rest;
      match Format(dt, rest)
      case None =>
      case Some(t) => assert lit + t == t;
    } else {
      var c, tail := lit[0], lit[1..];
      assert lit + rest == [c] + (tail + rest);
      assert NoDirective(tail);
      LiteralPrefix(dt, tail, rest);
      LiteralCons(dt, c, tail + rest);
      match Format(dt, rest)
      case None =>
      case Some(t) =>
        assert [c] + (tail + t) == lit + t;
    }
  }

  /** A pattern with no directive formats to itself. */
  lemma LiteralPattern(dt: NaiveDateTime, lit: string)
    requires NoDirective(lit)
    ensures Format(dt, lit) == Some(lit)
  {
    LiteralPrefix(dt, lit, []);
    assert lit + [] == lit;
  }

  /** A directive outside the subset, anywhere after literal text, makes
      formatting fail. */
  lemma UnsupportedDirectiveFails(dt: NaiveDateTime, lit: string, spec: char, rest: string)
    requires NoDirective(lit) && Directive(dt, spec).None?
    ensures Format(dt, lit + ['%', spec] + rest) == None
  {
    assert lit + ['%', spec] + rest == lit + (['%', spec] + rest);
    LiteralPrefix(dt, lit, ['%', spec] + rest);
  }

  /** chrono's sign-and-four-digit form for a year before year 0. */
  lemma YearBeforeZero()
    ensures Year(-5) == "-0005"
  {
    var zeros := Padded(0, 3);
    assert Padded(0, 1) == [Digit(0)];
    assert Padded(0, 2) == Padded(0, 1) + [Digit(0)];
    assert zeros == Padded(0, 2) + [Digit(0)];
    assert Padded(5, 4) == zeros + [Digit(5)];
    assert Year(-5) == ['-'] + Padded(5, 4);
  }

  /** A two-digit field is the value's tens digit then its units digit, so
      `%m %d %H %M %S` always take two characters. */
  lemma PaddedTwoDigits(n: nat)
    requires n < 100
    ensures Padded(n, 2) == [Digit(n / 10), Digit(n % 10)]
  {
    assert Padded(n / 10, 1) == [Digit(n / 10)];
  }

  /** Dropping the last digit twice drops the last two. */
  lemma DivTenTwice(y: nat)
    ensures y / 10 / 10 == y / 100 && y / 10 % 10 == y % 100 / 10
  {
    var q := y / 10;
    var r := y % 10;
    assert y == 10 * q + r;
    var q2 := q / 10;
    var r2 := q % 10;
    assert q == 10 * q2 + r2;
    assert y == 100 * q2 + (10 * r2 + r);
    assert 0 <= 10 * r2 + r < 100;
    assert y / 100 == q2 && y % 100 == 10 * r2 + r;
  }

  /** A four-digit year is written digit by digit, without sign. */
  lemma YearFourDigits(y: int)
    requires 1000 <= y <= 9999
    ensures Year(y) == [Digit(y / 1000), Digit(y / 100 % 10), Digit(y / 10 % 10), Digit(y % 10)]
  {
    DivTenTwice(y);
    DivTenTwice(y / 10);
    assert y / 1000 == y / 10 / 100;
    PaddedTwoDigits(y / 100);
    assert Padded(y / 10, 3) == Padded(y / 100, 2) + [Digit(y / 10 % 10)];
    assert Padded(y, 4) == Padded(y / 10, 3) + [Digit(y % 10)];
  }

  /** `Format` on a literal character in front of a pattern. */
  lemma LiteralStep(dt: NaiveDateTime, c: char, p: string, rest: string)
    requires c != '%' && Format(dt, p) == Some(rest)
    ensures Format(dt, [c] + p) == Some([c] + rest)
  {
    assert ([c] + p)[1..] == p;
  }

  /** `Format` on a supported directive in front of a pattern. */
  lemma DirectiveStep(dt: NaiveDateTime, c: char, p: string, text: string, rest: string)
    requires Directive(dt, c) == Some(text) && Format(dt, p) == Some(rest)
    ensures Format(dt, ['%', c] + p) == Some(text + rest)
  {
    assert (['%', c] + p)[2..] == p;
  }

  function Pow10(k: nat): nat {
    if k == 0 then 1 else 10 * Pow10(k - 1)
  }

  /** A value below 10^width takes exactly `width` digits. */
  lemma {:induction false} PaddedExactWidth(n: nat, width: nat)
    requires 1 <= width && n < Pow10(width)
    ensures |Padded(n, width)| == width
    decreases width
  {
    if !(n < 10 && width <= 1) {
      PaddedExactWidth(n / 10, width - 1);
    }
  }
}
