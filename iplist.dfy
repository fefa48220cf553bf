/** `get_fpga_ip_list` (src/fpga_ip_list.cpp): the comma-separated list of
  * FPGA addresses taken from an environment variable, split with
  * `std::getline(stream, ip, ',')`. */
module IpList {
  import opened Base
  import opened Text

  /** One `getline(stream, field, ',')` call at read position `pos`: fails
    * only when nothing is left to read; otherwise the field up to the next
    * ',' (which is consumed) or to the end of the text. */
  function Getline(s: string, pos: nat): (r: Option<(string, nat)>)
    requires pos <= |s|
    ensures r.None? <==> pos == |s|
    ensures r.None? ==> Fields(s[pos..], ',') == []
    ensures r.Some? ==>
      (pos < r.value.1 <= |s| && Fields(s[pos..], ',') == [r.value.0] + Fields(s[r.value.1..], ','))
  {
    if pos == |s| then None
    else
      var t := s[pos..];
      var f := UpTo(t, ',');
      var next := pos + |f|;
      if next < |s| then
        assert t[|f| + 1..] == s[next + 1..];
        assert Fields(t, ',') == [f] + Fields(t[|f| + 1..], ',');
        Some((f, next + 1))
      else
        assert s[|s|..] == [] && |f| == |t|;
        assert Fields(t, ',') == [f];
        Some((f, |s|))
  }

  /** `get_fpga_ip_list`: reads fields until `getline` fails, appending each. */
  method GetFpgaIpList(env: string) returns (ipList: seq<string>)
    ensures ipList == Fields(env, ',')
  {
    ipList := [];
    assert env[0..] == env;
    var line := Getline(env, 0);
    while line.Some?
      invariant line.Some? ==> line.value.1 <= |env|
      invariant Fields(env, ',') == ipList + (if line.None? then [] else [line.value.0] + Fields(env[line.value.1..], ','))
      decreases if line.Some? then |env| - line.value.1 + 1 else 0
    {
      var pos := line.value.1;
      ipList := ipList + [line.value.0];
      line := Getline(env, pos);
    }
  }

  /** Two commas in a row delimit an empty address. */
  lemma {:induction false} ConsecutiveCommasGiveEmptyField(a: string, b: string)
    requires ',' !in a && b != []
    ensures Fields(a + [',', ','] + b, ',') == [a, []] + Fields(b, ',')
  {
    var s := a + [',', ','] + b;
    var t := [','] + b;
    assert UpTo(s, ',') == a by {
      assert s == a + ([',', ','] + b);
      UpToBeforeSep(a, [',', ','] + b);
    }
    assert s[|a| + 1..] == t;
    assert Fields(s, ',') == [a] + Fields(t, ',');
    assert UpTo(t, ',') == [];
    assert t[1..] == b;
    assert Fields(t, ',') == [[]] + Fields(b, ',');
  }

  /** A comma at the very end opens no further field. */
  lemma {:induction false} TrailingCommaAddsNoField(s: string)
    requires s != [] && s[|s| - 1] != ','
    ensures Fields(s + [','], ',') == Fields(s, ',')
    decreases |s|
  {
    var f := UpTo(s, ',');
    if |f| < |s| {
      var rest := s[|f| + 1..];
      assert UpTo(s + [','], ',') == f by { UpToExtend(s, [','], ','); }
      assert (s + [','])[|f| + 1..] == rest + [','];
      TrailingCommaAddsNoField(rest);
    } else {
      assert f == s;
      assert UpTo(s + [','], ',') == s by { UpToBeforeSep(s, [',']); }
      assert (s + [','])[|s| + 1..] == [];
    }
  }

  /** Appending text does not change a field that already ended at a comma. */
  lemma {:induction false} UpToExtend(s: string, t: string, sep: char)
    requires |UpTo(s, sep)| < |s|
    ensures UpTo(s + t, sep) == UpTo(s, sep)
    decreases |s|
  {
    if s[0] != sep {
      assert (s + t)[1..] == s[1..] + t;
      UpToExtend(s[1..], t, sep);
    }
  }

  /** A text without a comma, followed by one, reads back as one field. */
  lemma {:induction false} UpToBeforeSep(a: string, rest: string)
    requires ',' !in a && rest != [] && rest[0] == ','
    ensures UpTo(a + rest, ',') == a
    decreases |a|
  {
    if a != [] {
      assert (a + rest)[1..] == a[1..] + rest;
      UpToBeforeSep(a[1..], rest);
    }
  }

  /** Joining the addresses with ',' gives back the variable's value when
    * it does not end in a comma. */
  lemma JoinIpList(env: string)
    requires env == [] || env[|env| - 1] != ','
    ensures Join(Fields(env, ','), ',') == env
    ensures forall i :: 0 <= i < |Fields(env, ',')| ==> ',' !in Fields(env, ',')[i]
  {
    JoinFields(env, ',');
  }
}
