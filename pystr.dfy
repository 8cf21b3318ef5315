/** The Python string built-ins the container listing relies on: `str.isspace`
    and `str.strip()` with no argument, `sep.join(parts)`, and `str(n)` for a
    non-negative int. Strings are sequences of Unicode scalar values. */
module PyStr {

  /** `c.isspace()`: the characters Python treats as whitespace (bidirectional
      class WS, B or S, or general category Zs), by code point. */
  predicate IsSpace(c: char) {
    var n := c as int;
    (0x09 <= n <= 0x0D) || (0x1C <= n <= 0x20) || n == 0x85 || n == 0xA0 || n == 0x1680
    || (0x2000 <= n <= 0x200A) || n == 0x2028 || n == 0x2029 || n == 0x202F
    || n == 0x205F || n == 0x3000
  }

  predicate AllSpace(s: string) {
    forall k :: 0 <= k < |s| ==> IsSpace(s[k])
  }

  /** Drops the leading whitespace. */
  function TrimStart(s: string): string {
    if |s| > 0 && IsSpace(s[0]) then TrimStart(s[1..]) else s
  }

  /** Drops the trailing whitespace. */
  function TrimEnd(s: string): string {
    if |s| > 0 && IsSpace(s[|s| - 1]) then TrimEnd(s[..|s| - 1]) else s
  }

  /** `s.strip()`: both ends trimmed. */
  function Strip(s: string): string {
    TrimEnd(TrimStart(s))
  }

  /** What is left after `TrimStart` is a suffix of `s`, what was dropped is
      all whitespace, and what is left does not start with whitespace. */
  lemma TrimStartSpec(s: string)
    ensures |TrimStart(s)| <= |s| && TrimStart(s) == s[|s| - |TrimStart(s)|..]
    ensures AllSpace(s[..|s| - |TrimStart(s)|])
    ensures TrimStart(s) == [] || !IsSpace(TrimStart(s)[0])
  {
    TrimStartSuffix(s);
    TrimStartDropped(s);
  }

  /** `TrimStart` keeps a suffix that does not start with whitespace. */
  lemma {:induction false} TrimStartSuffix(s: string)
    ensures |TrimStart(s)| <= |s| && TrimStart(s) == s[|s| - |TrimStart(s)|..]
    ensures TrimStart(s) == [] || !IsSpace(TrimStart(s)[0])
    decreases |s|
  {
    if |s| > 0 && IsSpace(s[0]) {
      var r := TrimStart(s[1..]);
      TrimStartSuffix(s[1..]);
      assert r == s[|s| - |r|..] by { assert s[1..][|s| - |r| - 1..] == s[|s| - |r|..]; }
    } else {
      assert s[|s| - |s|..] == s;
    }
  }

  /** What `TrimStart` drops is whitespace. */
  lemma {:induction false} TrimStartDropped(s: string)
    ensures |TrimStart(s)| <= |s| && AllSpace(s[..|s| - |TrimStart(s)|])
    decreases |s|
  {
    if |s| > 0 && IsSpace(s[0]) {
      var n := |s| - |TrimStart(s)|;
      TrimStartDropped(s[1..]);
      forall k | 0 <= k < n ensures IsSpace(s[..n][k]) {
        if k > 0 { assert s[1..][..n - 1][k - 1] == s[..n][k]; }
      }
    } else {
      assert s[..0] == [];
    }
  }

  /** What is left after `TrimEnd` is a prefix of `s`, what was dropped is all
      whitespace, and what is left does not end with whitespace. */
  lemma {:induction false} TrimEndSpec(s: string)
    ensures |TrimEnd(s)| <= |s| && TrimEnd(s) == s[..|TrimEnd(s)|]
    ensures AllSpace(s[|TrimEnd(s)|..])
    ensures TrimEnd(s) == [] || !IsSpace(TrimEnd(s)[|TrimEnd(s)| - 1])
    decreases |s|
  {
    if |s| > 0 && IsSpace(s[|s| - 1]) {
      var r := TrimEnd(s[..|s| - 1]);
      TrimEndSpec(s[..|s| - 1]);
      assert r == s[..|r|] by { assert s[..|s| - 1][..|r|] == s[..|r|]; }
      assert AllSpace(s[|r|..]) by {
        forall k | 0 <= k < |s| - |r| ensures IsSpace(s[|r|..][k]) {
          if k < |s| - 1 - |r| { assert s[..|s| - 1][|r|..][k] == s[|r|..][k]; }
        }
      }
    } else {
      assert s[|s|..] == [];
    }
  }

  /** `s.strip()` is no longer than `s`, neither of its ends is whitespace,
      and it is empty exactly when `s` is all whitespace. */
  lemma StripSpec(s: string)
    ensures |Strip(s)| <= |s|
    ensures Strip(s) == [] || (!IsSpace(Strip(s)[0]) && !IsSpace(Strip(s)[|Strip(s)| - 1]))
    ensures Strip(s) == [] <==> AllSpace(s)
  {
    var t := TrimStart(s);
    var r := TrimEnd(t);
    TrimStartSpec(s);
    TrimEndSpec(t);
    assert r != [] ==> r[0] == t[0];
    assert t == [] ==> s[..|s|] == s;
    assert t != [] ==> t[0] == s[|s| - |t|];
  }

  /** Leading whitespace removal stops at the first non-whitespace character. */
  lemma {:induction false} TrimStartAt(s: string, i: nat)
    requires i <= |s| && AllSpace(s[..i])
    requires i < |s| ==> !IsSpace(s[i])
    ensures TrimStart(s) == s[i..]
    decreases i
  {
    if i > 0 {
      assert s[..i][0] == s[0];
      assert s[1..][..i - 1] == s[..i][1..];
      TrimStartAt(s[1..], i - 1);
    }
  }

  /** Trailing whitespace removal stops after the last non-whitespace character. */
  lemma {:induction false} TrimEndAt(s: string, j: nat)
    requires j <= |s| && AllSpace(s[j..])
    requires 0 < j ==> !IsSpace(s[j - 1])
    ensures TrimEnd(s) == s[..j]
    decreases |s| - j
  {
    if j < |s| {
      assert s[j..][|s| - 1 - j] == s[|s| - 1];
      assert s[..|s| - 1][j..] == s[j..][..|s| - 1 - j];
      TrimEndAt(s[..|s| - 1], j);
    } else {
      assert s[..j] == s;
    }
  }

  /** `str.strip` is fully determined by its contract: any slice `s[i..j]`
      whose surroundings are whitespace and whose ends are not is the result. */
  lemma {:induction false} StripUnique(s: string, i: nat, j: nat)
    requires i <= j <= |s|
    requires AllSpace(s[..i]) && AllSpace(s[j..])
    requires i < j ==> !IsSpace(s[i]) && !IsSpace(s[j - 1])
    ensures Strip(s) == s[i..j]
  {
    if i == j {
      forall k | 0 <= k < |s| ensures IsSpace(s[k]) {
        if k < i { assert s[..i][k] == s[k]; } else { assert s[j..][k - j] == s[k]; }
      }
      StripSpec(s);
    } else {
      StripSlice(s, i, j);
    }
  }

  /** The non-blank case of `StripUnique`. */
  lemma {:induction false} StripSlice(s: string, i: nat, j: nat)
    requires i < j <= |s|
    requires AllSpace(s[..i]) && AllSpace(s[j..])
    requires !IsSpace(s[i]) && !IsSpace(s[j - 1])
    ensures TrimEnd(TrimStart(s)) == s[i..j]
  {
    var t := s[i..];
    assert TrimStart(s) == t by { TrimStartAt(s, i); }
    assert TrimEnd(t) == s[i..j] by {
      assert t[j - i..] == s[j..];
      assert t[j - i - 1] == s[j - 1];
      TrimEndAt(t, j - i);
      assert t[..j - i] == s[i..j];
    }
  }

  /** Removing trailing whitespace never reaches past a non-whitespace
      character: it only trims what follows it. */
  lemma {:induction false} TrimEndAfter(x: string, y: string)
    requires x != [] && !IsSpace(x[|x| - 1])
    ensures TrimEnd(x + y) == x + TrimEnd(y)
    decreases |y|
  {
    if y != [] && IsSpace(y[|y| - 1]) {
      assert (x + y)[..|x + y| - 1] == x + y[..|y| - 1];
      TrimEndAfter(x, y[..|y| - 1]);
    } else if y == [] {
      assert x + y == x;
    }
  }

  /** Whitespace after a string that is not all whitespace is trimmed along
      with that string's own trailing whitespace, and nothing more. */
  lemma TrimEndPadded(a: string, p: string, y: string)
    requires !AllSpace(p) && AllSpace(y)
    ensures TrimEnd(p) != []
    ensures TrimEnd(a + p + y) == a + TrimEnd(p)
  {
    TrimEndSpec(p);
    var q := TrimEnd(p);
    var w := p[|q|..];
    assert forall i :: |q| <= i < |p| ==> IsSpace(p[i]) by {
      forall i | |q| <= i < |p| ensures IsSpace(p[i]) {
        assert w[i - |q|] == p[i];
      }
    }
    var k :| 0 <= k < |p| && !IsSpace(p[k]);
    assert |q| > k;
    var x, z := a + q, w + y;
    assert a + p + y == x + z by {
      assert p == q + w;
    }
    assert x[|x| - 1] == q[|q| - 1];
    TrimEndAfter(x, z);
    AllSpaceAppend(w, y);
    assert z[0..] == z;
    TrimEndAt(z, 0);
    assert x + z[..0] == x;
  }

  /** Two runs of whitespace make one. */
  lemma AllSpaceAppend(w: string, y: string)
    requires AllSpace(w) && AllSpace(y)
    ensures AllSpace(w + y)
  {
    forall i | 0 <= i < |w + y| ensures IsSpace((w + y)[i]) {
      if i >= |w| {
        assert (w + y)[i] == y[i - |w|];
      }
    }
  }

  /** `str.strip` of a string that starts with a non-whitespace character and
      has one more at the end of `x` keeps all of `x`. */
  lemma {:induction false} StripAfter(x: string, y: string)
    requires x != [] && !IsSpace(x[0]) && !IsSpace(x[|x| - 1])
    ensures Strip(x + y) == x + TrimEnd(y)
  {
    assert (x + y)[0] == x[0];
    assert TrimStart(x + y) == x + y;
    TrimEndAfter(x, y);
  }

  /** `sep.join(parts)`: the parts in order with `sep` between neighbours. */
  function Join(parts: seq<string>, sep: string): string {
    if parts == [] then []
    else if |parts| == 1 then parts[0]
    else parts[0] + sep + Join(parts[1..], sep)
  }

  /** The joined string starts with the first part, and its length is that of
      all the parts plus one separator between each two neighbours. */
  lemma {:induction false} JoinSpec(parts: seq<string>, sep: string)
    ensures parts == [] ==> Join(parts, sep) == []
    ensures parts != [] ==> parts[0] <= Join(parts, sep)
    ensures |Join(parts, sep)|
            == TotalLength(parts) + (if parts == [] then 0 else |sep| * (|parts| - 1))
    decreases |parts|
  {
    if |parts| > 1 {
      JoinSpec(parts[1..], sep);
    }
  }

  /** The sum of the lengths of `parts`. */
  function TotalLength(parts: seq<string>): nat {
    if parts == [] then 0 else |parts[0]| + TotalLength(parts[1..])
  }

  /** Joining one more part on the right appends the separator and the part. */
  lemma {:induction false} JoinSnoc(parts: seq<string>, x: string, sep: string)
    requires parts != []
    ensures Join(parts + [x], sep) == Join(parts, sep) + sep + x
    decreases |parts|
  {
    if |parts| == 1 {
      assert (parts + [x])[1..] == [x];
    } else {
      assert (parts + [x])[1..] == parts[1..] + [x];
      JoinSnoc(parts[1..], x, sep);
    }
  }

  /** The decimal digit character for `d`. */
  function DigitChar(d: nat): (c: char)
    requires d < 10
    ensures '0' <= c <= '9' && c as int - '0' as int == d
  {
    (48 + d) as char
  }

  predicate AllDigits(s: string) {
    forall k :: 0 <= k < |s| ==> '0' <= s[k] <= '9'
  }

  /** `str(n)` for `n >= 0`. */
  function Decimal(n: nat): string {
    if n < 10 then [DigitChar(n)] else Decimal(n / 10) + [DigitChar(n % 10)]
  }

  /** `str(n)` is one or more decimal digits, with no leading zero unless `n`
      is zero. */
  lemma {:induction false} DecimalSpec(n: nat)
    ensures Decimal(n) != [] && AllDigits(Decimal(n))
    ensures Decimal(n)[0] == '0' ==> n == 0
  {
    if n >= 10 {
      DecimalSpec(n / 10);
      assert Decimal(n)[0] == Decimal(n / 10)[0];
    }
  }

  /** `int(s)` for a string of decimal digits. */
  function DecimalValue(s: string): nat
    requires AllDigits(s)
  {
    if s == [] then 0
    else DecimalValue(s[..|s| - 1]) * 10 + (s[|s| - 1] as int - '0' as int)
  }

  /** `int(str(n)) == n`: the rendered count is the count itself. */
  lemma {:induction false} DecimalRoundTrip(n: nat)
    ensures AllDigits(Decimal(n)) && DecimalValue(Decimal(n)) == n
  {
    DecimalSpec(n);
    if n >= 10 {
      var r := Decimal(n);
      assert r[..|r| - 1] == Decimal(n / 10);
      DecimalRoundTrip(n / 10);
    }
  }
}
