/** Character-level helpers of the small parsers: the field splitting of
  * `strtok` and of `std::getline`, joining, and decimal and hexadecimal
  * digits. */
module Text {

  /** The text of `s` up to (not including) the first `sep`. */
  function UpTo(s: string, sep: char): (f: string)
    ensures |f| <= |s| && f == s[..|f|]
    ensures sep !in f
    ensures |f| < |s| ==> s[|f|] == sep
  {
    if s == [] || s[0] == sep then [] else [s[0]] + UpTo(s[1..], sep)
  }

  /** The tokens successive `strtok(…, sep)` calls return: the maximal runs
    * without `sep`; empty runs between separators are skipped. */
  function Tokens(s: string, sep: char): (ts: seq<string>)
    ensures forall i :: 0 <= i < |ts| ==> ts[i] != [] && sep !in ts[i]
    decreases |s|
  {
    if s == [] then []
    else if s[0] == sep then Tokens(s[1..], sep)
    else [UpTo(s, sep)] + Tokens(s[|UpTo(s, sep)|..], sep)
  }

  /** The fields successive `getline(stream, field, sep)` calls read: every
    * separator ends a field, and reading stops at the end of the text, so
    * a final separator opens no further field. */
  function Fields(s: string, sep: char): (fs: seq<string>)
    ensures forall i :: 0 <= i < |fs| ==> sep !in fs[i]
    ensures s == [] <==> fs == []
    decreases |s|
  {
    if s == [] then []
    else
      var f := UpTo(s, sep);
      if |f| == |s| then [f] else [f] + Fields(s[|f| + 1..], sep)
  }

  /** The fields joined with `sep` between them. */
  function Join(fs: seq<string>, sep: char): string
  {
    if fs == [] then [] else if |fs| == 1 then fs[0] else fs[0] + [sep] + Join(fs[1..], sep)
  }

  /** A field followed by a separator (or by nothing) reads back as itself. */
  lemma {:induction false} UpToOfJoin(f: string, rest: string, sep: char)
    requires sep !in f
    ensures rest == [] || rest[0] == sep ==> UpTo(f + rest, sep) == f
    decreases |f|
  {
    if f != [] {
      assert (f + rest)[1..] == f[1..] + rest;
      UpToOfJoin(f[1..], rest, sep);
    }
  }

  /** Splitting a text that does not end in the separator gives back the
    * fields it was joined from, and joining the fields restores it. */
  lemma {:induction false} JoinFields(s: string, sep: char)
    requires s == [] || s[|s| - 1] != sep
    ensures Join(Fields(s, sep), sep) == s
    decreases |s|
  {
    if s != [] {
      var f := UpTo(s, sep);
      if |f| < |s| {
        var rest := s[|f| + 1..];
        assert rest != [] && rest[|rest| - 1] != sep;
        JoinFields(rest, sep);
        assert Fields(rest, sep) != [];
        assert s == f + [sep] + rest;
      }
    }
  }

  /** Joining non-empty fields without separators and tokenizing gives the
    * fields back. */
  lemma {:induction false} TokensOfJoin(ts: seq<string>, sep: char)
    requires forall i :: 0 <= i < |ts| ==> ts[i] != [] && sep !in ts[i]
    ensures Tokens(Join(ts, sep), sep) == ts
    decreases |ts|
  {
    if ts != [] {
      var t := ts[0];
      if |ts| == 1 {
        UpToOfJoin(t, [], sep);
        assert t + [] == t;
        assert Join(ts, sep)[|t|..] == [];
      } else {
        var rest := Join(ts[1..], sep);
        var s := t + [sep] + rest;
        UpToOfJoin(t, [sep] + rest, sep);
        assert s == t + ([sep] + rest);
        assert s[|t|..] == [sep] + rest;
        assert ([sep] + rest)[1..] == rest;
        TokensOfJoin(ts[1..], sep);
      }
    }
  }

  // ---------------------------------------------------------------------
  // Digits

  predicate IsDigit(c: char) { '0' <= c <= '9' }

  function DigitValue(c: char): (d: nat)
    requires IsDigit(c)
    ensures d < 10
  {
    c as int - '0' as int
  }

  /** The value of a string of decimal digits. */
  function DecimalValue(s: string): nat
    requires forall i :: 0 <= i < |s| ==> IsDigit(s[i])
  {
    if s == [] then 0 else 10 * DecimalValue(s[..|s| - 1]) + DigitValue(s[|s| - 1])
  }

  /** The decimal digits of `n`, as `operator<<` writes them. */
  function Decimal(n: nat): (s: string)
    ensures s != [] && forall i :: 0 <= i < |s| ==> IsDigit(s[i])
  {
    var last := ['0' + (n % 10) as char];
    if n < 10 then last else Decimal(n / 10) + last
  }

  lemma {:induction false} DecimalRoundTrip(n: nat)
    ensures DecimalValue(Decimal(n)) == n
  {
    var s := Decimal(n);
    if n >= 10 {
      DecimalRoundTrip(n / 10);
      assert s[..|s| - 1] == Decimal(n / 10);
    }
  }

  /** A signed number as `operator<<` writes it. */
  function SignedDecimal(n: int): (s: string)
  {
    if n < 0 then "-" + Decimal(-n) else Decimal(n)
  }

  predicate IsLowerHex(c: char) { '0' <= c <= '9' || 'a' <= c <= 'f' }

  function HexDigit(d: nat): (c: char)
    requires d < 16
    ensures IsLowerHex(c)
  {
    if d < 10 then '0' + d as char else 'a' + (d - 10) as char
  }

  /** `%02x`: two lowercase hexadecimal digits. */
  function Hex2(b: nat): (s: string)
    requires b < 256
    ensures |s| == 2
  {
    [HexDigit(b / 16), HexDigit(b % 16)]
  }
}
