/** MAC-address text: `parse_mac` and `print_mac` (src/packets.cpp and its C
  * twin src/packets.c). Parsing walks the `strtok` tokens of the text and
  * stores each token's `strtol(…, 16)` value, truncated to a byte. */
module Mac {
  import opened Base
  import opened Text

  const LONG_MAX: int := 0x7FFF_FFFF_FFFF_FFFF
  const LONG_MIN: int := -0x8000_0000_0000_0000

  predicate IsSpace(c: char)
  {
    c == ' ' || c == '\t' || c == '\n' || c == '\U{000B}' || c == '\U{000C}' || c == '\r'
  }

  predicate IsHex(c: char)
  {
    '0' <= c <= '9' || 'a' <= c <= 'f' || 'A' <= c <= 'F'
  }

  function HexValueOf(c: char): (d: nat)
    requires IsHex(c)
    ensures d < 16
  {
    if '0' <= c <= '9' then c as int - '0' as int
    else if 'a' <= c <= 'f' then c as int - 'a' as int + 10
    else c as int - 'A' as int + 10
  }

  /** The longest prefix of hexadecimal digits. */
  function HexRun(s: string): (r: string)
    ensures |r| <= |s| && r == s[..|r|]
    ensures forall i :: 0 <= i < |r| ==> IsHex(r[i])
    ensures |r| < |s| ==> !IsHex(s[|r|])
  {
    if s == [] || !IsHex(s[0]) then [] else [s[0]] + HexRun(s[1..])
  }

  /** The value of a string of hexadecimal digits. */
  function HexValue(s: string): nat
    requires forall i :: 0 <= i < |s| ==> IsHex(s[i])
  {
    if s == [] then 0 else 16 * HexValue(s[..|s| - 1]) + HexValueOf(s[|s| - 1])
  }

  function SkipSpace(s: string): (r: string)
    ensures |r| <= |s| && r == s[|s| - |r|..]
    ensures r == [] || !IsSpace(r[0])
  {
    if s != [] && IsSpace(s[0]) then SkipSpace(s[1..]) else s
  }

  /** The text after an optional sign. */
  function Unsigned(u: string): (r: string)
    ensures |r| <= |u|
  {
    if u != [] && (u[0] == '-' || u[0] == '+') then u[1..] else u
  }

  /** The digits after an optional `0x`/`0X` prefix; the prefix counts only
    * when a hexadecimal digit follows it. */
  function HexDigits(v: string): (r: string)
  {
    if |v| >= 3 && v[0] == '0' && (v[1] == 'x' || v[1] == 'X') && IsHex(v[2]) then v[2..] else v
  }

  function Saturate(v: int): (r: int)
    ensures LONG_MIN <= r <= LONG_MAX
    ensures LONG_MIN <= v <= LONG_MAX ==> r == v
  {
    if v > LONG_MAX then LONG_MAX else if v < LONG_MIN then LONG_MIN else v
  }

  /** `strtol(t, NULL, 16)`: leading white space, an optional sign, an
    * optional `0x`/`0X` prefix, then the longest run of hexadecimal digits
    * (none gives 0); a value out of range of `long` saturates. */
  function Strtol16(t: string): (v: int)
    ensures LONG_MIN <= v <= LONG_MAX
  {
    Saturate(SignedValue(SkipSpace(t)))
  }

  /** The value of the number at the start of `u`, before saturation. */
  function SignedValue(u: string): int
  {
    var magnitude: int := HexValue(HexRun(HexDigits(Unsigned(u))));
    if u != [] && u[0] == '-' then -magnitude else magnitude
  }

  /** The byte `out[i] = strtol(…)` stores: the `long` reduced modulo 256. */
  function ByteOf(t: string): u8
  {
    LowByte(Strtol16(t))
  }

  /** The bytes `parse_mac` stores, one per token, in order. */
  function MacBytes(s: string): (bytes: seq<u8>)
    ensures |bytes| == |Tokens(s, ':')|
    ensures forall i :: 0 <= i < |bytes| ==> bytes[i] == ByteOf(Tokens(s, ':')[i])
  {
    var ts := Tokens(s, ':');
    seq(|ts|, i requires 0 <= i < |ts| => ByteOf(ts[i]))
  }

  /** One `strtok(…, ":")` call continuing at `pos`: the next token and the
    * position just past the separator that ended it. */
  function Strtok(s: string, pos: nat): (r: Option<(string, nat)>)
    requires pos <= |s|
    ensures r.None? ==> Tokens(s[pos..], ':') == []
    ensures r.Some? ==>
      (pos < r.value.1 <= |s| && Tokens(s[pos..], ':') == [r.value.0] + Tokens(s[r.value.1..], ':'))
    decreases |s| - pos
  {
    if pos == |s| then None
    else if s[pos] == ':' then
      assert s[pos..][1..] == s[pos + 1..];
      Strtok(s, pos + 1)
    else
      var t := UpTo(s[pos..], ':');
      var next := pos + |t|;
      if next < |s| then
        assert s[pos..][|t|..] == s[next..];
        assert s[next..][1..] == s[next + 1..];
        Some((t, next + 1))
      else
        assert s[pos..][|t|..] == [] == s[|s|..];
        Some((t, |s|))
  }

  /** `parse_mac`: stores one byte per token into `out`, whose capacity the
    * caller guarantees (the index is an 8-bit counter and `out` is not
    * bounds-checked). Returns the number of bytes written. */
  method ParseMac(s: string, out: array<u8>) returns (n: nat)
    requires |Tokens(s, ':')| <= out.Length && |Tokens(s, ':')| <= POW8
    modifies out
    ensures n == |Tokens(s, ':')|
    ensures out[..n] == MacBytes(s)
    ensures out[n..] == old(out[n..])
  {
    var tok := Strtok(s, 0);
    var i := 0;
    ghost var all := Tokens(s, ':');
    ghost var want := MacBytes(s);
    assert s[0..] == s;
    while tok.Some?
      invariant i <= |all|
      invariant tok.None? ==> i == |all|
      invariant tok.Some? ==> tok.value.1 <= |s|
      invariant tok.Some? ==> i < |all| && all[i..] == [tok.value.0] + Tokens(s[tok.value.1..], ':')
      invariant out[..i] == want[..i]
      invariant out[i..] == old(out[i..])
      decreases if tok.Some? then |s| - tok.value.1 + 1 else 0
    {
      var pos := tok.value.1;
      ghost var rest := Tokens(s[pos..], ':');
      assert all[i] == tok.value.0 && all[i + 1..] == rest by {
        assert all[i + 1..] == all[i..][1..];
      }
      out[i] := ByteOf(tok.value.0);
      assert out[..i + 1] == want[..i + 1] by {
        assert out[..i + 1] == out[..i] + [out[i]];
        assert want[..i + 1] == want[..i] + [want[i]];
      }
      assert out[i + 1..] == old(out[i + 1..]) by {
        assert out[i + 1..] == out[i..][1..];
      }
      i := i + 1;
      tok := Strtok(s, pos);
    }
    assert want[..i] == want;
    n := i;
  }

  /** Repeated separators are skipped: an empty field between two ':' yields
    * no byte. */
  lemma {:induction false} TokensSkipEmptyField(a: string, b: string)
    ensures Tokens(a + [':', ':'] + b, ':') == Tokens(a + [':'] + b, ':')
    decreases |a|, 1
  {
    var x, y := a + [':', ':'] + b, a + [':'] + b;
    if a == [] {
      assert x[1..] == y;
    } else if a[0] == ':' {
      assert x[1..] == a[1..] + [':', ':'] + b;
      assert y[1..] == a[1..] + [':'] + b;
      TokensSkipEmptyField(a[1..], b);
    } else {
      TokensSkipEmptyFieldAfterWord(a, b);
    }
  }

  /** The same, when `a` starts with a token: both texts start with that token. */
  lemma {:induction false} TokensSkipEmptyFieldAfterWord(a: string, b: string)
    requires a != [] && a[0] != ':'
    ensures Tokens(a + [':', ':'] + b, ':') == Tokens(a + [':'] + b, ':')
    decreases |a|, 0
  {
    var x, y := a + [':', ':'] + b, a + [':'] + b;
    var t := UpTo(a, ':');
    assert t != [] by {
      assert UpTo(a, ':') == [a[0]] + UpTo(a[1..], ':');
    }
    UpToPrefix(a, [':', ':'] + b);
    UpToPrefix(a, [':'] + b);
    assert x == a + ([':', ':'] + b) && y == a + ([':'] + b);
    assert Tokens(x, ':') == [t] + Tokens(x[|t|..], ':');
    assert Tokens(y, ':') == [t] + Tokens(y[|t|..], ':');
    if |t| < |a| {
      assert x[|t|..] == a[|t|..] + [':', ':'] + b;
      assert y[|t|..] == a[|t|..] + [':'] + b;
      TokensSkipEmptyField(a[|t|..], b);
    } else {
      assert x[|t|..] == [':', ':'] + b;
      assert y[|t|..] == [':'] + b;
      assert x[|t|..][1..] == y[|t|..];
    }
  }

  /** The field read from `a + rest` ends inside `a` when `a` holds a
    * separator, and extends to all of `a` when `rest` starts with one. */
  lemma {:induction false} UpToPrefix(a: string, rest: string)
    requires a != [] && a[0] != ':'
    requires rest != [] && rest[0] == ':'
    ensures UpTo(a + rest, ':') == UpTo(a, ':')
    decreases |a|
  {
    assert (a + rest)[1..] == a[1..] + rest;
    if |a| > 1 && a[1] != ':' {
      UpToPrefix(a[1..], rest);
    }
  }

  /** The six bytes as two-digit lowercase hex fields. */
  function HexFields(mac: seq<u8>): (fs: seq<string>)
    requires |mac| >= 6
    ensures |fs| == 6 && forall k :: 0 <= k < 6 ==> fs[k] == Hex2(mac[k])
  {
    seq(6, k requires 0 <= k < 6 => Hex2(mac[k]))
  }

  /** The address part `print_mac` prints: six bytes as `%02x`, joined by ':'. */
  function MacText(mac: seq<u8>): (s: string)
    requires |mac| >= 6
    ensures |s| == 17
    ensures forall k :: 0 <= k < 6 ==> s[3 * k..3 * k + 2] == Hex2(mac[k])
    ensures forall k :: 0 <= k < 5 ==> s[3 * k + 2] == ':'
  {
    var fs := HexFields(mac);
    JoinOfPairs(fs);
    Join(fs, ':')
  }

  /** Two-character fields joined by ':' sit at every third position. */
  lemma {:induction false} JoinOfPairs(fs: seq<string>)
    requires |fs| >= 1 && forall k :: 0 <= k < |fs| ==> |fs[k]| == 2
    ensures |Join(fs, ':')| == 3 * |fs| - 1
    ensures forall k :: 0 <= k < |fs| ==> Join(fs, ':')[3 * k..3 * k + 2] == fs[k]
    ensures forall k :: 0 <= k < |fs| - 1 ==> Join(fs, ':')[3 * k + 2] == ':'
  {
    if |fs| > 1 {
      var rest := Join(fs[1..], ':');
      var j := Join(fs, ':');
      JoinOfPairs(fs[1..]);
      assert j == fs[0] + [':'] + rest;
      forall k | 1 <= k < |fs|
        ensures j[3 * k..3 * k + 2] == fs[k]
      {
        SliceAfter(fs[0] + [':'], rest, 3 * (k - 1), 2);
      }
      forall k | 1 <= k < |fs| - 1
        ensures j[3 * k + 2] == ':'
      {
        assert j[3 * k + 2] == rest[3 * (k - 1) + 2];
      }
    }
  }

  lemma SliceAfter(a: string, b: string, i: nat, n: nat)
    requires i + n <= |b|
    ensures (a + b)[|a| + i..|a| + i + n] == b[i..i + n]
  {
    var l, r := (a + b)[|a| + i..|a| + i + n], b[i..i + n];
    forall x | 0 <= x < n
      ensures l[x] == r[x]
    {
      assert (a + b)[|a| + i + x] == b[i + x];
    }
    assert l == r;
  }

  /** `print_mac`: the line written to standard output. */
  function PrintMac(prefix: string, mac: seq<u8>): (line: string)
    requires |mac| >= 6
    ensures |line| == |prefix| + 20
    ensures line[..|prefix|] == prefix && line[|prefix|..|prefix| + 2] == ": "
    ensures line[|prefix| + 2..|prefix| + 19] == MacText(mac) && line[|prefix| + 19] == '\n'
  {
    prefix + ": " + MacText(mac) + "\n"
  }

  lemma HexDigitRoundTrip(d: nat)
    requires d < 16
    ensures IsHex(HexDigit(d)) && HexValueOf(HexDigit(d)) == d
  {
  }

  lemma HexRunOfHex(t: string)
    requires forall i :: 0 <= i < |t| ==> IsHex(t[i])
    ensures HexRun(t) == t
  {
    if t != [] {
      assert t == [t[0]] + t[1..];
      HexRunOfHex(t[1..]);
    }
  }

  lemma NoSignNoPrefix(c0: char, c1: char, t: string)
    requires t != [] && t[0] == c0 && IsHex(c0) && IsHex(c1) && (|t| >= 2 ==> t[1] == c1)
    ensures !IsSpace(c0) && c0 != '-' && Unsigned(t) == t && HexDigits(t) == t
  {
  }

  predicate AllHex(t: string)
  {
    forall i :: 0 <= i < |t| ==> IsHex(t[i])
  }

  lemma SkipSpaceOfHex(t: string)
    requires t != [] && IsHex(t[0])
    ensures SkipSpace(t) == t
  {
  }

  lemma SignedValueOfHex(t: string)
    requires t != [] && AllHex(t)
    ensures SignedValue(t) == HexValue(t)
  {
    NoSignNoPrefix(t[0], if |t| >= 2 then t[1] else '0', t);
    HexRunOfHex(t);
  }

  /** On plain hex digits `strtol` is their value. */
  lemma Strtol16OfDigits(t: string)
    requires t != [] && AllHex(t)
    requires HexValue(t) <= LONG_MAX
    ensures Strtol16(t) == HexValue(t)
  {
    SkipSpaceOfHex(t);
    SignedValueOfHex(t);
  }

  lemma HexValueOfHex2(b: u8)
    ensures HexValue(Hex2(b)) == b
  {
    var h := Hex2(b);
    HexDigitRoundTrip(b / 16);
    HexDigitRoundTrip(b % 16);
    assert h[..1] == [h[0]] && h[..1][..0] == [];
    assert HexValue(h[..1]) == b / 16;
  }

  /** `strtol` reads a printed byte back. */
  lemma Strtol16OfHex2(b: u8)
    ensures Strtol16(Hex2(b)) == b && ByteOf(Hex2(b)) == b
  {
    var h := Hex2(b);
    assert Strtol16(h) == b by {
      HexValueOfHex2(b);
      assert AllHex(h);
      Strtol16OfDigits(h);
    }
    ModSmall(b, POW8);
  }

  /** Parsing the printed address gives back the six bytes. */
  lemma {:induction false} ParsePrinted(mac: seq<u8>)
    requires |mac| >= 6
    ensures MacBytes(MacText(mac)) == mac[..6]
  {
    var fs := HexFields(mac);
    TokensOfJoin(fs, ':');
    forall k | 0 <= k < 6
      ensures MacBytes(MacText(mac))[k] == mac[k]
    {
      Strtol16OfHex2(mac[k]);
    }
  }

  /** A canonical address: six two-digit lowercase hex fields separated by ':'. */
  predicate Canonical(s: string)
  {
    |s| == 17
    && (forall k :: 0 <= k < 5 ==> s[3 * k + 2] == ':')
    && (forall i :: 0 <= i < 17 && i % 3 != 2 ==> IsLowerHex(s[i]))
  }

  lemma LowerHexRoundTrip(f: string)
    requires |f| == 2 && IsLowerHex(f[0]) && IsLowerHex(f[1])
    ensures HexValue(f) < 256 && Hex2(HexValue(f)) == f
  {
    assert f[..1] == [f[0]] && f[..1][..0] == [];
    var hi, lo := HexValueOf(f[0]), HexValueOf(f[1]);
    assert HexValue(f[..1]) == hi;
    assert HexValue(f) == hi * 16 + lo;
    ModUnique(HexValue(f), 16, hi, lo);
  }

  function FieldByte(f: string): (b: u8)
    requires |f| == 2 && IsLowerHex(f[0]) && IsLowerHex(f[1])
    ensures Hex2(b) == f
  {
    LowerHexRoundTrip(f);
    HexValue(f)
  }

  /** Printing a parsed canonical address reproduces the text. */
  lemma {:induction false} PrintParsed(s: string)
    requires Canonical(s)
    ensures |MacBytes(s)| == 6 && MacText(MacBytes(s)) == s
  {
    var bytes := seq(6, k requires 0 <= k < 6 => FieldByte(s[3 * k..3 * k + 2]));
    forall k | 0 <= k < 6
      ensures MacText(bytes)[3 * k..3 * k + 2] == s[3 * k..3 * k + 2]
    {
      assert bytes[k] == FieldByte(s[3 * k..3 * k + 2]);
    }
    assert MacText(bytes) == s by {
      forall i | 0 <= i < 17
        ensures MacText(bytes)[i] == s[i]
      {
        var k := i / 3;
        assert i == 3 * k + i % 3;
        if i % 3 != 2 {
          assert MacText(bytes)[3 * k..3 * k + 2][i - 3 * k] == MacText(bytes)[i];
          assert s[3 * k..3 * k + 2][i - 3 * k] == s[i];
        }
      }
    }
    ParsePrinted(bytes);
    assert bytes[..6] == bytes;
    assert MacBytes(s) == bytes;
  }
}
