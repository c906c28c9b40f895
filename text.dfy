/** Character and string facts the daemon takes from Go's `strings`, `unicode`
    and `fmt` packages: white space, substring search, `strings.Fields`,
    decimal text as `%d` prints it and as `Sscanf("%d")` reads it. */
module Text {
  import opened Wrappers

  /** unicode.IsSpace: the characters with the Unicode White_Space property. */
  predicate IsSpace(c: char) {
    var n := c as int;
    n == 0x20 || 0x09 <= n <= 0x0D || n == 0x85 || n == 0xA0 || n == 0x1680
    || 0x2000 <= n <= 0x200A || n == 0x2028 || n == 0x2029 || n == 0x202F
    || n == 0x205F || n == 0x3000
  }

  /** A non-empty run of non-space characters: one field of strings.Fields. */
  predicate IsToken(s: string) {
    |s| > 0 && forall i :: 0 <= i < |s| ==> !IsSpace(s[i])
  }

  /** strings.TrimSpace(s) == "" */
  predicate IsBlank(s: string) {
    forall i :: 0 <= i < |s| ==> IsSpace(s[i])
  }

  /** strings.Contains(s, sub) */
  predicate Contains(s: string, sub: string)
    decreases |s|
  {
    sub <= s || (|s| > 0 && Contains(s[1..], sub))
  }

  /** Every character of a contained string occurs in the containing one. */
  lemma {:induction false} ContainsChar(s: string, sub: string, k: nat)
    requires Contains(s, sub) && k < |sub|
    ensures sub[k] in s
  {
    if sub <= s {
      assert s[k] == sub[k];
    } else {
      ContainsChar(s[1..], sub, k);
      assert s[1..][..] == s[1..];
    }
  }

  /** A token never contains a string that holds white space. */
  lemma {:induction false} TokenContainsNoSpaced(s: string, sub: string, k: nat)
    requires IsToken(s) && k < |sub| && IsSpace(sub[k])
    ensures !Contains(s, sub)
  {
    if Contains(s, sub) {
      ContainsChar(s, sub, k);
      assert false;
    }
  }

  /** Index of the first occurrence of `sub` in `s`, as strings.Index. */
  function IndexOf(s: string, sub: string): (r: Option<nat>)
    decreases |s|
    ensures r.Some? <==> Contains(s, sub)
    ensures r.Some? ==> r.value + |sub| <= |s| && s[r.value..r.value + |sub|] == sub
    ensures r.Some? ==> forall j :: 0 <= j < r.value ==> !(sub <= s[j..])
  {
    if sub <= s then Some(0)
    else if |s| == 0 then None
    else
      match IndexOf(s[1..], sub)
      case None => None
      case Some(i) =>
        IndexOfStep(s, sub, i);
        Some(i + 1)
  }

  /** A first occurrence at i in the tail is a first occurrence at i + 1 in `s`,
      once `s` itself does not start with `sub`. */
  lemma {:induction false} IndexOfStep(s: string, sub: string, i: nat)
    requires |s| > 0 && !(sub <= s)
    requires i + |sub| <= |s[1..]| && s[1..][i..i + |sub|] == sub
    requires forall j :: 0 <= j < i ==> !(sub <= s[1..][j..])
    ensures i + 1 + |sub| <= |s| && s[i + 1..i + 1 + |sub|] == sub
    ensures forall j :: 0 <= j < i + 1 ==> !(sub <= s[j..])
  {
    assert s[i + 1..i + 1 + |sub|] == s[1..][i..i + |sub|];
    forall j | 0 <= j < i + 1
      ensures !(sub <= s[j..])
    {
      if j > 0 {
        assert s[j..] == s[1..][j - 1..];
      } else {
        assert s[0..] == s;
      }
    }
  }

  lemma {:induction false} ContainsSuffix(s: string, k: nat, sub: string)
    requires k <= |s| && sub <= s[k..]
    ensures Contains(s, sub)
    decreases k
  {
    if k > 0 {
      assert s[1..][k - 1..] == s[k..];
      ContainsSuffix(s[1..], k - 1, sub);
    } else {
      assert s[0..] == s;
    }
  }

  /** When the first character of `sub` does not occur in `a`, the first
      occurrence of `sub` in `a + sub + rest` is right after `a`. */
  lemma {:induction false} IndexAfterPrefix(a: string, sub: string, rest: string)
    requires |sub| >= 1 && sub[0] !in a
    ensures IndexOf(a + sub + rest, sub) == Some(|a|)
  {
    var s := a + sub + rest;
    assert s[|a|..][..|sub|] == sub;
    ContainsSuffix(s, |a|, sub);
    var i := IndexOf(s, sub).value;
    assert forall j :: 0 <= j < |a| ==> s[j] == a[j] && s[j] != sub[0];
    assert s[i] == sub[0];
  }

  /** Index of the last occurrence of `c` in `s`, as strings.LastIndexByte. */
  function LastIndexOf(s: string, c: char): (r: Option<nat>)
    ensures r.None? <==> c !in s
    ensures r.Some? ==> r.value < |s| && s[r.value] == c && c !in s[r.value + 1..]
  {
    if |s| == 0 then None
    else if s[|s| - 1] == c then Some(|s| - 1)
    else
      var r := LastIndexOf(s[..|s| - 1], c);
      assert r.Some? ==> s[r.value + 1..] == s[..|s| - 1][r.value + 1..] + [s[|s| - 1]];
      assert s == s[..|s| - 1] + [s[|s| - 1]];
      r
  }

  /** Length of the leading run of non-space characters. */
  function TokenLength(s: string): (n: nat)
    ensures n <= |s|
    ensures forall i :: 0 <= i < n ==> !IsSpace(s[i])
    ensures n < |s| ==> IsSpace(s[n])
  {
    if |s| == 0 || IsSpace(s[0]) then 0 else 1 + TokenLength(s[1..])
  }

  /** strings.Fields: the maximal runs of non-space characters, in order. */
  function Fields(s: string): (r: seq<string>)
    decreases |s|
    ensures forall k :: 0 <= k < |r| ==> IsToken(r[k])
  {
    if |s| == 0 then []
    else if IsSpace(s[0]) then Fields(s[1..])
    else
      var n := TokenLength(s);
      [s[..n]] + Fields(s[n..])
  }

  /** Two tokens joined by one space character split back into exactly those two fields. */
  lemma {:induction false} FieldsOfPair(a: string, sep: char, b: string)
    requires IsToken(a) && IsSpace(sep) && IsToken(b)
    ensures Fields(a + [sep] + b) == [a, b]
  {
    var s := a + [sep] + b;
    assert s[|a|] == sep;
    assert forall i :: 0 <= i < |a| ==> s[i] == a[i];
    assert TokenLength(s) == |a|;
    assert s[..|a|] == a;
    assert s[|a|..] == [sep] + b;
    assert ([sep] + b)[1..] == b;
    assert Fields([sep] + b) == Fields(b);
    assert TokenLength(b) == |b|;
    assert b[..|b|] == b && b[|b|..] == [];
    assert Fields(b) == [b] + Fields([]);
    assert Fields(s) == [a] + Fields([sep] + b);
  }

  predicate IsDigit(c: char) {
    '0' <= c <= '9'
  }

  predicate AllDigits(t: string) {
    forall i :: 0 <= i < |t| ==> IsDigit(t[i])
  }

  function DigitChar(d: nat): (c: char)
    requires d < 10
    ensures IsDigit(c)
  {
    (('0' as int) + d) as char
  }

  function DigitValue(c: char): (d: nat)
    requires IsDigit(c)
    ensures d < 10
  {
    (c as int) - ('0' as int)
  }

  /** Decimal text of a natural number without leading zeros, as `%d` prints it. */
  function DecimalText(n: nat): (r: string)
    ensures |r| >= 1 && AllDigits(r)
    ensures (r[0] == '0') <==> n == 0
    ensures n < 10 ==> |r| == 1
    ensures n < 100 ==> |r| <= 2
    ensures n < 1000 ==> |r| <= 3
  {
    if n < 10 then [DigitChar(n)] else DecimalText(n / 10) + [DigitChar(n % 10)]
  }

  /** The number a string of decimal digits denotes. */
  function DigitsValue(t: string): nat
    requires AllDigits(t)
  {
    if |t| == 0 then 0 else DigitsValue(t[..|t| - 1]) * 10 + DigitValue(t[|t| - 1])
  }

  /** Reading back what DecimalText prints gives the number again. */
  lemma {:induction false} DecimalRoundTrip(n: nat)
    ensures DigitsValue(DecimalText(n)) == n
  {
    if n >= 10 {
      var t := DecimalText(n);
      assert t[..|t| - 1] == DecimalText(n / 10);
      DecimalRoundTrip(n / 10);
    }
  }

  /** DecimalText is injective. */
  lemma {:induction false} DecimalTextInjective(m: nat, n: nat)
    requires DecimalText(m) == DecimalText(n)
    ensures m == n
  {
    DecimalRoundTrip(m);
    DecimalRoundTrip(n);
  }

  /** `%d` of a Go int. */
  function IntText(i: int): string {
    if i < 0 then "-" + DecimalText(-i) else DecimalText(i)
  }

  const MaxInt64: int := 0x7FFF_FFFF_FFFF_FFFF

  /** Length of the leading run of decimal digits. */
  function DigitRunLength(s: string): (n: nat)
    ensures n <= |s| && AllDigits(s[..n])
    ensures n < |s| ==> !IsDigit(s[n])
  {
    if |s| == 0 || !IsDigit(s[0]) then 0
    else
      var n := 1 + DigitRunLength(s[1..]);
      assert forall i :: 1 <= i < n ==> s[..n][i] == s[1..][..n - 1][i - 1];
      n
  }

  /** Leading white space removed, as fmt's scanner skips it before a verb. */
  function SkipSpace(s: string): (r: string)
    ensures |r| <= |s| && r == s[|s| - |r|..]
    ensures |r| > 0 ==> !IsSpace(r[0])
  {
    if |s| > 0 && IsSpace(s[0]) then SkipSpace(s[1..]) else s
  }

  /** The value an int that starts at 0 holds after `fmt.Sscanf(s, "%d", &v)`: white space
      other than a newline is skipped, then an optional sign and a run of decimal digits
      are read. A newline in the leading white space ("unexpected newline"), no digit, or
      a value outside int64 makes Sscanf report an error and leave v at 0. */
  function ScanInt(s: string): (v: int)
    ensures -MaxInt64 - 1 <= v <= MaxInt64
  {
    var t := SkipSpace(s);
    if '\n' in s[..|s| - |t|] then 0
    else
      var negative := |t| > 0 && t[0] == '-';
      var body := if |t| > 0 && (t[0] == '-' || t[0] == '+') then t[1..] else t;
      var n := DigitRunLength(body);
      if n == 0 then 0
      else
        var magnitude: int := DigitsValue(body[..n]);
        if negative && magnitude <= MaxInt64 + 1 then -magnitude
        else if !negative && magnitude <= MaxInt64 then magnitude
        else 0
  }

  /** Skipping white space passes every character of a leading white-space run. */
  lemma {:induction false} SkipSpacePast(s: string, k: nat)
    requires k < |s| && forall i :: 0 <= i <= k ==> IsSpace(s[i])
    ensures |SkipSpace(s)| <= |s| - k - 1
    decreases k
  {
    assert IsSpace(s[0]);
    if k > 0 {
      SkipSpacePast(s[1..], k - 1);
    }
  }

  /** A newline among the white space before the digits fails the scan: v stays 0. */
  lemma {:induction false} ScanIntNewline(s: string, k: nat)
    requires k < |s| && s[k] == '\n' && forall i :: 0 <= i < k ==> IsSpace(s[i])
    ensures ScanInt(s) == 0
  {
    assert IsSpace(s[k]);
    SkipSpacePast(s, k);
    var t := SkipSpace(s);
    assert s[..|s| - |t|][k] == '\n';
  }

  /** Sscanf("%d") reads back what `%d` prints, for every non-negative int64. */
  lemma {:induction false} ScanDecimal(n: nat)
    requires n <= MaxInt64
    ensures ScanInt(DecimalText(n)) == n
  {
    DecimalRoundTrip(n);
    ScanDigits(DecimalText(n));
  }

  /** A run of digits without sign or space scans as its value, when that fits in int64. */
  lemma {:induction false} ScanDigits(t: string)
    requires |t| >= 1 && AllDigits(t) && DigitsValue(t) <= MaxInt64
    ensures ScanInt(t) == DigitsValue(t)
  {
    assert IsDigit(t[0]);
    var u := SkipSpace(t);
    assert u == t;
    assert '\n' !in t[..|t| - |u|] by {
      assert |t| - |u| == 0;
    }
    assert DigitRunLength(t) == |t|;
    assert t[..|t|] == t;
  }
}
