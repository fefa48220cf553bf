/** The `duration` command-line option type of the tools
  * (tools/bpo_parser_helper.h): written as whole seconds or minutes, read
  * as a 32-bit integer followed by one of the units `s`, `m`, `h`. */
module DurationOpt {
  import opened Base
  import opened Text

  const INT_MIN: int := -0x8000_0000
  const INT_MAX: int := 0x7FFF_FFFF

  /** Nanoseconds per unit (`steady_clock` ticks in nanoseconds). */
  const NS_PER_S: int := 1_000_000_000

  /** A `steady_clock::duration`, counted in nanoseconds. */
  datatype Duration = Duration(ns: int)

  datatype OptionError =
    | MultipleOccurrences        // the option was given twice
    | MultipleValues             // more than one token for one option
    | AtLeastOneValueRequired    // no token
    | InvalidOptionValue(text: string)

  /** `duration_cast<seconds>`: truncates toward zero. */
  function Seconds(d: Duration): int
  {
    DivTrunc(d.ns, NS_PER_S)
  }

  /** `operator<<`: a minute or more is printed as whole minutes (the
    * remainder is dropped), anything shorter as seconds. */
  function PrintDuration(d: Duration): (text: string)
    ensures |text| >= 2
    ensures text[|text| - 1] == (if Seconds(d) >= 60 then 'm' else 's')
  {
    var s := Seconds(d);
    if s >= 60 then Decimal(s / 60) + "m" else SignedDecimal(s) + "s"
  }

  predicate IsUnit(c: char) { c == 's' || c == 'm' || c == 'h' }

  /** The length of one unit: 1s, 1min, 1h. */
  function Factor(c: char): (ns: int)
    requires IsUnit(c)
    ensures ns > 0
  {
    if c == 's' then NS_PER_S else if c == 'm' then 60 * NS_PER_S else 3600 * NS_PER_S
  }

  /** The longest prefix of decimal digits. */
  function DigitRun(s: string): (r: string)
    ensures |r| <= |s| && r == s[..|r|]
    ensures forall i :: 0 <= i < |r| ==> IsDigit(r[i])
    ensures |r| < |s| ==> !IsDigit(s[|r|])
  {
    if s == [] || !IsDigit(s[0]) then [] else [s[0]] + DigitRun(s[1..])
  }

  /** Where the digits start: after an optional sign. */
  function SignLength(s: string): (n: nat)
    ensures n <= 1 && n <= |s|
  {
    if s != [] && (s[0] == '-' || s[0] == '+') then 1 else 0
  }

  /** `qi::int_`: an optional sign and at least one digit, the value within
    * the range of `int`; yields the value and the number of characters read. */
  function ParseInt(s: string): (r: Option<(int, nat)>)
    ensures r.Some? ==> SignLength(s) < r.value.1 <= |s|
  {
    var start := SignLength(s);
    var digits := DigitRun(s[start..]);
    if digits == [] then None
    else
      var m: int := DecimalValue(digits);
      var v := if start == 1 && s[0] == '-' then -m else m;
      if v < INT_MIN || v > INT_MAX then None else Some((v, start + |digits|))
  }

  /** The grammar `qi::int_ >> unit >> qi::eoi`, applied to the whole token. */
  function ParseDuration(s: string): (r: Option<Duration>)
  {
    match ParseInt(s)
    case None => None
    case Some((v, n)) =>
      if n + 1 == |s| && IsUnit(s[n]) then Some(Duration(v * Factor(s[n]))) else None
  }

  /** The accepted language, stated without scanning: a sign, digits, one
    * unit and nothing else, with the number in the range of `int`. */
  predicate Accepted(s: string)
  {
    |s| >= 2 && IsUnit(s[|s| - 1])
    && var body := s[..|s| - 1];
       var digits := body[SignLength(body)..];
       digits != []
       && (forall i :: 0 <= i < |digits| ==> IsDigit(digits[i]))
       && INT_MIN <= Signed(body) <= INT_MAX
  }

  /** The signed value of a sign-and-digits text. */
  function Signed(body: string): int
    requires forall i :: 0 <= i < |body[SignLength(body)..]| ==> IsDigit(body[SignLength(body)..][i])
  {
    var m: int := DecimalValue(body[SignLength(body)..]);
    if SignLength(body) == 1 && body[0] == '-' then -m else m
  }

  lemma DigitRunOf(d: string, t: string)
    requires forall i :: 0 <= i < |d| ==> IsDigit(d[i])
    requires t == [] || !IsDigit(t[0])
    ensures DigitRun(d + t) == d
  {
    if d != [] {
      assert (d + t)[1..] == d[1..] + t;
      DigitRunOf(d[1..], t);
    }
  }

  /** The parser accepts exactly the texts of `Accepted`, and its value is
    * the number times the unit. */
  lemma ParseDurationAccepts(s: string)
    ensures ParseDuration(s).Some? <==> Accepted(s)
    ensures ParseDuration(s).Some? ==>
      ParseDuration(s).value.ns == Signed(s[..|s| - 1]) * Factor(s[|s| - 1])
  {
    if Accepted(s) {
      AcceptedIsParsed(s);
    }
    if ParseDuration(s).Some? {
      ParsedIsAccepted(s);
    }
  }

  lemma AcceptedIsParsed(s: string)
    requires Accepted(s)
    ensures ParseDuration(s) == Some(Duration(Signed(s[..|s| - 1]) * Factor(s[|s| - 1])))
  {
    var body := s[..|s| - 1];
    var start := SignLength(body);
    assert SignLength(s) == start;
    var digits := body[start..];
    assert s[start..] == digits + [s[|s| - 1]];
    DigitRunOf(digits, [s[|s| - 1]]);
    assert ParseInt(s) == Some((Signed(body), start + |digits|));
  }

  lemma ParsedIsAccepted(s: string)
    requires ParseDuration(s).Some?
    ensures Accepted(s)
    ensures ParseDuration(s).value.ns == Signed(s[..|s| - 1]) * Factor(s[|s| - 1])
  {
    var start := SignLength(s);
    var digits := DigitRun(s[start..]);
    var body := s[..|s| - 1];
    assert SignLength(body) == start;
    assert body[start..] == digits;
    assert ParseInt(s).value == (Signed(body), start + |digits|);
  }

  /** `validate`: the option may be given once, with exactly one token, and
    * the token must parse. */
  function Validate(alreadySet: bool, xs: seq<string>): (r: Result<Duration, OptionError>)
    ensures alreadySet ==> r == Err(MultipleOccurrences)
    ensures !alreadySet && |xs| > 1 ==> r == Err(MultipleValues)
    ensures !alreadySet && |xs| == 0 ==> r == Err(AtLeastOneValueRequired)
    ensures !alreadySet && |xs| == 1 ==>
      (r.Ok? <==> Accepted(xs[0])) && (r.Err? ==> r.error == InvalidOptionValue(xs[0]))
  {
    if alreadySet then Err(MultipleOccurrences)
    else if |xs| > 1 then Err(MultipleValues)
    else if |xs| == 0 then Err(AtLeastOneValueRequired)
    else
      ParseDurationAccepts(xs[0]);
      match ParseDuration(xs[0])
      case Some(d) => Ok(d)
      case None => Err(InvalidOptionValue(xs[0]))
  }

  /** `qi::int_` reads back a printed `int`, stopping at the character after it. */
  lemma ParseIntOfSignedDecimal(n: int, c: char)
    requires INT_MIN <= n <= INT_MAX && !IsDigit(c)
    ensures ParseInt(SignedDecimal(n) + [c]) == Some((n, |SignedDecimal(n)|))
  {
    var d := Decimal(if n < 0 then -n else n);
    DecimalRoundTrip(if n < 0 then -n else n);
    DigitRunOf(d, [c]);
    if n < 0 {
      assert SignedDecimal(n) + [c] == "-" + (d + [c]);
      ParseIntNegative(d + [c], d);
    } else {
      ParseIntUnsigned(d + [c], d);
    }
  }

  lemma ParseIntUnsigned(t: string, d: string)
    requires d != [] && DigitRun(t) == d && DecimalValue(d) <= INT_MAX
    ensures ParseInt(t) == Some((DecimalValue(d) as int, |d|))
  {
    assert SignLength(t) == 0 by {
      assert IsDigit(t[0]);
    }
    assert t[0..] == t;
    ParseIntIs(t, d, DecimalValue(d));
  }

  lemma ParseIntNegative(t: string, d: string)
    requires d != [] && DigitRun(t) == d && DecimalValue(d) <= -INT_MIN
    ensures ParseInt("-" + t) == Some((-(DecimalValue(d) as int), |d| + 1))
  {
    var s := "-" + t;
    assert s[0] == '-' && s[1..] == t;
    ParseIntIs(s, d, -(DecimalValue(d) as int));
  }

  /** `qi::int_` reads the digit run `d` after the sign of `s` as `v`. */
  lemma ParseIntIs(s: string, d: string, v: int)
    requires d != [] && DigitRun(s[SignLength(s)..]) == d && INT_MIN <= v <= INT_MAX
    requires v == if SignLength(s) == 1 && s[0] == '-' then -(DecimalValue(d) as int) else DecimalValue(d)
    ensures ParseInt(s) == Some((v, SignLength(s) + |d|))
  {
  }

  lemma SignedDecimalAccepted(n: int, u: char)
    requires INT_MIN <= n <= INT_MAX && IsUnit(u)
    ensures ParseDuration(SignedDecimal(n) + [u]) == Some(Duration(n * Factor(u)))
  {
    var s := SignedDecimal(n) + [u];
    ParseIntOfSignedDecimal(n, u);
    assert s[|SignedDecimal(n)|] == u;
  }

  /** "<n>s", "<n>m" and "<n>h" read as n seconds, minutes and hours. */
  lemma {:induction false} UnitsRead(n: int)
    requires INT_MIN <= n <= INT_MAX
    ensures ParseDuration(SignedDecimal(n) + "s") == Some(Duration(n * NS_PER_S))
    ensures ParseDuration(SignedDecimal(n) + "m") == Some(Duration(n * (60 * NS_PER_S)))
    ensures ParseDuration(SignedDecimal(n) + "h") == Some(Duration(n * (3600 * NS_PER_S)))
  {
    SignedDecimalAccepted(n, 's');
    SignedDecimalAccepted(n, 'm');
    SignedDecimalAccepted(n, 'h');
  }

  /** Durations under a minute (whole seconds) and whole minutes print to
    * text that reads back as the same duration. */
  lemma {:induction false} PrintRoundTrip(d: Duration)
    requires d.ns % NS_PER_S == 0
    requires INT_MIN * NS_PER_S <= d.ns
    requires d.ns < 60 * NS_PER_S || (d.ns % (60 * NS_PER_S) == 0 && d.ns <= INT_MAX * 60 * NS_PER_S)
    ensures ParseDuration(PrintDuration(d)) == Some(d)
  {
    var s := Seconds(d);
    if d.ns >= 0 {
      ModUnique(d.ns, NS_PER_S, d.ns / NS_PER_S, 0);
    } else {
      ModUnique(-d.ns, NS_PER_S, (-d.ns) / NS_PER_S, 0);
      ModUnique(d.ns, NS_PER_S, -((-d.ns) / NS_PER_S), 0);
    }
    assert d.ns == s * NS_PER_S;
    if s >= 60 {
      ModUnique(d.ns, 60 * NS_PER_S, d.ns / (60 * NS_PER_S), 0);
      ModUnique(s, 60, d.ns / (60 * NS_PER_S), 0);
      assert Decimal(s / 60) == SignedDecimal(s / 60);
      SignedDecimalAccepted(s / 60, 'm');
    } else {
      SignedDecimalAccepted(s, 's');
    }
  }

  /** Past a minute, printing drops the seconds: what is read back is the
    * duration rounded down to whole minutes, never more. */
  lemma {:induction false} PrintDropsSeconds(d: Duration)
    requires Seconds(d) >= 60 && Seconds(d) / 60 <= INT_MAX
    ensures ParseDuration(PrintDuration(d)).Some?
    ensures ParseDuration(PrintDuration(d)).value.ns == (Seconds(d) / 60) * 60 * NS_PER_S <= d.ns
  {
    var s := Seconds(d);
    assert Decimal(s / 60) == SignedDecimal(s / 60);
    SignedDecimalAccepted(s / 60, 'm');
    assert (s / 60) * 60 <= s;
    assert s * NS_PER_S <= d.ns;
  }

  /** One hour is printed in minutes. */
  lemma OneHourPrintsMinutes()
    ensures ParseDuration("1h") == Some(Duration(3600 * NS_PER_S))
    ensures PrintDuration(Duration(3600 * NS_PER_S)) == "60m"
  {
    SignedDecimalAccepted(1, 'h');
    assert SignedDecimal(1) + ['h'] == "1h";
    assert Decimal(60) == "60";
  }
}
