/** IPv4 addresses as the byte slices of Go's `net.IP`: their big-endian value,
    the carry increment and byte-wise comparison of pkg/ipalloc/allocator.go,
    the dotted-decimal text of `ip.String()` and its reading by
    `net.ParseIP(s).To4()`, and subnet membership (`ipnet.Contains`). */
module IpAddr {
  import opened Wrappers
  import opened Text

  type Byte = x: int | 0 <= x < 256

  function Pow256(n: nat): (p: nat)
    ensures p >= 1
  {
    if n == 0 then 1 else 256 * Pow256(n - 1)
  }

  function Pow2(n: nat): (p: nat)
    ensures p >= 1
  {
    if n == 0 then 1 else 2 * Pow2(n - 1)
  }

  /** The number a byte sequence denotes, most significant byte first. */
  function Value(s: seq<Byte>): nat {
    if |s| == 0 then 0 else Value(s[..|s| - 1]) * 256 + s[|s| - 1]
  }

  lemma {:induction false} ValueBound(s: seq<Byte>)
    ensures Value(s) < Pow256(|s|)
  {
    if |s| > 0 {
      var p := s[..|s| - 1];
      ValueBound(p);
      assert Value(p) + 1 <= Pow256(|p|);
      assert (Value(p) + 1) * 256 <= Pow256(|p|) * 256;
    }
  }

  /** Value of a concatenation: the prefix shifted left by the suffix's bytes. */
  lemma {:induction false} ValueConcat(p: seq<Byte>, q: seq<Byte>)
    ensures Value(p + q) == Value(p) * Pow256(|q|) + Value(q)
    decreases |q|
  {
    if |q| == 0 {
      assert p + q == p;
    } else {
      var q' := q[..|q| - 1];
      assert (p + q)[..|p + q| - 1] == p + q';
      ValueConcat(p, q');
      calc {
        Value(p + q);
        Value(p + q') * 256 + q[|q| - 1];
        (Value(p) * Pow256(|q'|) + Value(q')) * 256 + q[|q| - 1];
        { assert (Value(p) * Pow256(|q'|)) * 256 == Value(p) * (Pow256(|q'|) * 256); }
        Value(p) * Pow256(|q|) + Value(q);
      }
    }
  }

  /** x * p + rx < y * p + ry when x < y and rx < p: the high part decides. */
  lemma {:induction false} ShiftLess(x: nat, rx: nat, y: nat, ry: nat, p: nat)
    requires x < y && rx < p
    ensures x * p + rx < y * p + ry
  {
    assert (x + 1) * p <= y * p;
  }

  /** Addresses that agree up to byte i and differ there are ordered by that byte. */
  lemma {:induction false} LexLess(a: seq<Byte>, b: seq<Byte>, i: nat)
    requires |a| == |b| && i < |a| && a[..i] == b[..i] && a[i] < b[i]
    ensures Value(a) < Value(b)
  {
    var a1, a2 := a[..i + 1], a[i + 1..];
    var b1, b2 := b[..i + 1], b[i + 1..];
    assert a == a1 + a2 && b == b1 + b2;
    ValueConcat(a1, a2);
    ValueConcat(b1, b2);
    assert a1[..i] == a[..i] && b1[..i] == b[..i];
    assert Value(a1) < Value(b1);
    ValueBound(a2);
    ShiftLess(Value(a1), Value(a2), Value(b1), Value(b2), Pow256(|a2|));
  }

  function Zeros(n: nat): (z: seq<Byte>)
    ensures |z| == n && forall j :: 0 <= j < n ==> z[j] == 0
  {
    seq(n, _ => 0)
  }

  /** incrementIP, as a value: add one at the last byte and carry through bytes that were 255. */
  function Increment(s: seq<Byte>): (r: seq<Byte>)
    ensures |r| == |s|
  {
    if |s| == 0 then []
    else if s[|s| - 1] < 255 then s[..|s| - 1] + [s[|s| - 1] + 1]
    else Increment(s[..|s| - 1]) + [0]
  }

  /** Increment adds one to the big-endian value; the all-255 address wraps to zero. */
  lemma {:induction false} IncrementValue(s: seq<Byte>)
    ensures Value(s) + 1 < Pow256(|s|) ==> Value(Increment(s)) == Value(s) + 1
    ensures Value(s) + 1 == Pow256(|s|) ==> Value(Increment(s)) == 0
  {
    if |s| > 0 {
      var p := s[..|s| - 1];
      var r := Increment(s);
      if s[|s| - 1] < 255 {
        assert r[..|r| - 1] == p;
      } else {
        assert r[..|r| - 1] == Increment(p);
        IncrementValue(p);
        ValueBound(p);
        assert Value(s) + 1 == (Value(p) + 1) * 256;
        assert Pow256(|s|) == Pow256(|p|) * 256;
        if Value(p) + 1 < Pow256(|p|) {
          assert (Value(p) + 1) * 256 < Pow256(|p|) * 256;
        }
      }
    }
  }

  /** Increment is addition of one modulo 256^len. */
  lemma {:induction false} IncrementModular(s: seq<Byte>)
    ensures Value(Increment(s)) == (Value(s) + 1) % Pow256(|s|)
  {
    ValueBound(s);
    IncrementValue(s);
    WrapMod(Value(s), Value(Increment(s)), Pow256(|s|));
  }

  lemma {:induction false} WrapMod(v: nat, w: nat, m: nat)
    requires v < m
    requires v + 1 < m ==> w == v + 1
    requires v + 1 == m ==> w == 0
    ensures w == (v + 1) % m
  {
  }

  /** Bytes that are all 255 at the end turn into zeros and pass the carry on. */
  lemma {:induction false} IncrementCarry(s: seq<Byte>, k: nat)
    requires k <= |s| && forall j :: k <= j < |s| ==> s[j] == 255
    ensures Increment(s) == Increment(s[..k]) + Zeros(|s| - k)
    decreases |s| - k
  {
    if k == |s| {
      assert s[..k] == s;
    } else {
      var p := s[..|s| - 1];
      IncrementCarry(p, k);
      assert p[..k] == s[..k];
      assert Zeros(|p| - k) + [0] == Zeros(|s| - k);
    }
  }

  /** incrementIP: adds 1 to the address in place, carrying from the last byte. */
  method IncrementIP(ip: array<Byte>)
    modifies ip
    ensures ip[..] == Increment(old(ip[..]))
  {
    var i := ip.Length - 1;
    while i >= 0
      invariant -1 <= i < ip.Length
      invariant ip[..i + 1] == old(ip[..i + 1])
      invariant forall j :: i < j < ip.Length ==> ip[j] == 0 && old(ip[j]) == 255
      decreases i
    {
      ip[i] := ((ip[i] as int) + 1) % 256;
      if ip[i] > 0 {
        ghost var s := old(ip[..]);
        IncrementCarry(s, i + 1);
        assert s[..i + 1] == s[..i] + [s[i]];
        assert ip[..] == s[..i] + [s[i] + 1] + Zeros(ip.Length - i - 1);
        break;
      }
      i := i - 1;
    }
    if i < 0 {
      IncrementCarry(old(ip[..]), 0);
      assert ip[..] == Zeros(ip.Length);
    }
  }

  /** compareIP on the 16-byte forms of two addresses. To16 prefixes a 4-byte
      address with the same twelve bytes, so two IPv4 addresses compare by their
      own four bytes: lexicographic order, which is the order of their values. */
  method CompareIP(a: seq<Byte>, b: seq<Byte>) returns (c: int)
    requires |a| == |b|
    ensures c == -1 || c == 0 || c == 1
    ensures c == 0 <==> a == b
    ensures c < 0 <==> Value(a) < Value(b)
    ensures c > 0 <==> Value(a) > Value(b)
  {
    for i := 0 to |a|
      invariant a[..i] == b[..i]
    {
      if a[i] < b[i] {
        LexLess(a, b, i);
        return -1;
      }
      if a[i] > b[i] {
        LexLess(b, a, i);
        return 1;
      }
    }
    assert a == a[..|a|] && b == b[..|b|];
    return 0;
  }

  predicate NoDot(t: string) {
    '.' !in t
  }

  /** strings.Join(parts, "."). */
  function JoinDots(parts: seq<string>): string
    requires |parts| >= 1
  {
    if |parts| == 1 then parts[0] else parts[0] + "." + JoinDots(parts[1..])
  }

  /** strings.Split(s, "."): the pieces between dots. */
  function SplitDots(s: string): (r: seq<string>)
    decreases |s|
    ensures |r| >= 1 && JoinDots(r) == s
  {
    match IndexOf(s, ".")
    case None => [s]
    case Some(i) =>
      var r := [s[..i]] + SplitDots(s[i + 1..]);
      assert r[1..] == SplitDots(s[i + 1..]);
      assert s == s[..i] + "." + s[i + 1..];
      r
  }

  /** A dot after a dot-free piece is where SplitDots cuts. */
  lemma {:induction false} SplitDotsCons(a: string, rest: string)
    requires NoDot(a)
    ensures SplitDots(a + "." + rest) == [a] + SplitDots(rest)
  {
    var s := a + "." + rest;
    IndexAfterPrefix(a, ".", rest);
    assert s[..|a|] == a && s[|a| + 1..] == rest;
  }

  /** A dot-free piece is never split. */
  lemma {:induction false} SplitDotsSingle(a: string)
    requires NoDot(a)
    ensures SplitDots(a) == [a]
  {
    if Contains(a, ".") {
      ContainsChar(a, ".", 0);
    }
  }

  /** Splitting dot-free pieces joined by dots gives back the pieces. */
  lemma {:induction false} SplitJoin(parts: seq<string>)
    requires |parts| >= 1 && forall k :: 0 <= k < |parts| ==> NoDot(parts[k])
    ensures SplitDots(JoinDots(parts)) == parts
  {
    if |parts| == 1 {
      SplitDotsSingle(parts[0]);
    } else {
      SplitJoin(parts[1..]);
      SplitDotsCons(parts[0], JoinDots(parts[1..]));
    }
  }

  /** ip.String() of a 4-byte address: four decimal bytes joined by dots. */
  function FormatIPv4(ip: seq<Byte>): string
    requires |ip| == 4
  {
    JoinDots([DecimalText(ip[0]), DecimalText(ip[1]), DecimalText(ip[2]), DecimalText(ip[3])])
  }

  /** One field of a dotted quad, as net.ParseIP reads it: one to three decimal
      digits, no leading zero, at most 255. */
  function ParseByte(t: string): (r: Option<Byte>)
    ensures r.Some? ==> DecimalText(r.value) == t
  {
    if 1 <= |t| <= 3 && AllDigits(t) && (|t| == 1 || t[0] != '0') && DigitsValue(t) < 256 then
      DigitTextOfValue(t);
      Some(DigitsValue(t))
    else None
  }

  /** A digit string without a leading zero is the decimal text of its value. */
  lemma {:induction false} DigitTextOfValue(t: string)
    requires 1 <= |t| && AllDigits(t) && (|t| == 1 || t[0] != '0')
    ensures DecimalText(DigitsValue(t)) == t
    decreases |t|
  {
    if |t| > 1 {
      var p := t[..|t| - 1];
      assert p[0] == t[0];
      DigitTextOfValue(p);
      var n := DigitsValue(t);
      assert n / 10 == DigitsValue(p) && n % 10 == DigitValue(t[|t| - 1]);
      assert DigitChar(DigitValue(t[|t| - 1])) == t[|t| - 1];
      assert t == p + [t[|t| - 1]];
    } else {
      assert DigitChar(DigitValue(t[0])) == t[0];
    }
  }

  /** net.ParseIP(s).To4() for dotted-quad text: four fields, each a byte. */
  function ParseIP(s: string): (r: Option<seq<Byte>>)
    ensures r.Some? ==> |r.value| == 4 && FormatIPv4(r.value) == s
  {
    var parts := SplitDots(s);
    if |parts| != 4 then None
    else
      match (ParseByte(parts[0]), ParseByte(parts[1]), ParseByte(parts[2]), ParseByte(parts[3]))
      case (Some(a), Some(b), Some(c), Some(d)) =>
        assert [DecimalText(a), DecimalText(b), DecimalText(c), DecimalText(d)] == parts;
        Some([a, b, c, d])
      case _ => None
  }

  lemma {:induction false} DecimalNoDot(n: nat)
    ensures NoDot(DecimalText(n))
  {
    var t := DecimalText(n);
    assert forall k :: 0 <= k < |t| ==> t[k] != '.';
  }

  lemma {:induction false} ParseByteOfText(b: Byte)
    ensures ParseByte(DecimalText(b)) == Some(b)
  {
    DecimalRoundTrip(b);
  }

  /** Reading back the text of an address gives the address: ParseIP undoes ip.String(). */
  lemma {:induction false} ParseFormat(ip: seq<Byte>)
    requires |ip| == 4
    ensures ParseIP(FormatIPv4(ip)) == Some(ip)
  {
    assert ip == [ip[0], ip[1], ip[2], ip[3]];
    var parts := [DecimalText(ip[0]), DecimalText(ip[1]), DecimalText(ip[2]), DecimalText(ip[3])];
    DecimalNoDot(ip[0]);
    DecimalNoDot(ip[1]);
    DecimalNoDot(ip[2]);
    DecimalNoDot(ip[3]);
    SplitJoin(parts);
    assert SplitDots(FormatIPv4(ip)) == parts;
    ParseByteOfText(ip[0]);
    ParseByteOfText(ip[1]);
    ParseByteOfText(ip[2]);
    ParseByteOfText(ip[3]);
  }

  /** ip.String() is injective on 4-byte addresses. */
  lemma {:induction false} FormatInjective(a: seq<Byte>, b: seq<Byte>)
    requires |a| == 4 && |b| == 4 && FormatIPv4(a) == FormatIPv4(b)
    ensures a == b
  {
    ParseFormat(a);
    ParseFormat(b);
  }

  /** Byte sequences of equal length with equal values are equal. */
  lemma {:induction false} ValueInjective(a: seq<Byte>, b: seq<Byte>)
    requires |a| == |b| && Value(a) == Value(b)
    ensures a == b
  {
    if |a| > 0 {
      var pa, pb := a[..|a| - 1], b[..|b| - 1];
      assert Value(pa) == Value(pb) && a[|a| - 1] == b[|b| - 1];
      ValueInjective(pa, pb);
      assert a == pa + [a[|a| - 1]] && b == pb + [b[|b| - 1]];
    }
  }

  /** The n-byte big-endian encoding of v. */
  function Bytes(v: nat, n: nat): (r: seq<Byte>)
    requires v < Pow256(n)
    ensures |r| == n && Value(r) == v
  {
    if n == 0 then []
    else
      var r := Bytes(v / 256, n - 1) + [v % 256];
      assert r[..n - 1] == Bytes(v / 256, n - 1);
      r
  }

  /** The value of a 4-byte address, written out. */
  lemma {:induction false} Value4(a: seq<Byte>)
    requires |a| == 4
    ensures Value(a) == (((a[0] as int) * 256 + a[1]) * 256 + a[2]) * 256 + a[3]
  {
    var a1, a2, a3 := a[..1], a[..2], a[..3];
    assert a1[..0] == [] && a2[..1] == a1 && a3[..2] == a2;
    assert Value(a1) == a[0];
    assert Value(a2) == Value(a1) * 256 + a[1];
    assert Value(a3) == Value(a2) * 256 + a[2];
    assert Value(a) == Value(a3) * 256 + a[3];
  }

  const AddressCount: nat := 0x1_0000_0000

  lemma {:induction false} AddressCountIsPow()
    ensures Pow256(4) == AddressCount
  {
  }

  /** The 4-byte address whose value is v. */
  function Address(v: nat): (a: seq<Byte>)
    requires v < AddressCount
    ensures |a| == 4 && Value(a) == v
  {
    AddressCountIsPow();
    Bytes(v, 4)
  }

  lemma {:induction false} AddressOfValue(ip: seq<Byte>)
    requires |ip| == 4
    ensures Value(ip) < AddressCount && Address(Value(ip)) == ip
  {
    ValueBound(ip);
    AddressCountIsPow();
    ValueInjective(Address(Value(ip)), ip);
  }

  lemma {:induction false} MulLeftMono(a: nat, b: nat, c: nat)
    ensures b <= c ==> a * b <= a * c
  {
  }

  /** Quotient and remainder are unique. */
  lemma {:induction false} DivModUnique(x: nat, a: nat, q: nat, r: nat)
    requires a > 0 && r < a && x == a * q + r
    ensures x / a == q && x % a == r
  {
    var q', r' := x / a, x % a;
    assert x == a * q' + r';
    MulLeftMono(a, q + 1, q');
    MulLeftMono(a, q' + 1, q);
    assert a * (q + 1) == a * q + a;
    assert a * (q' + 1) == a * q' + a;
  }

  type PrefixLength = n: nat | n <= 32

  /** A parsed CIDR block: `net.ParseCIDR` gives the network address with the
      host bits cleared and the prefix length. */
  datatype Subnet = Subnet(network: seq<Byte>, prefixLength: PrefixLength)

  function Size(subnet: Subnet): nat {
    Pow2(32 - subnet.prefixLength)
  }

  predicate ValidSubnet(subnet: Subnet) {
    |subnet.network| == 4 && Value(subnet.network) % Size(subnet) == 0
  }

  /** ipnet.Contains for a 4-byte address: it lies in the block that starts at the
      network address and spans 2^(32 - prefix) addresses. For a network address
      with its host bits cleared this is the masked comparison Go performs. */
  predicate InSubnet(subnet: Subnet, ip: seq<Byte>) {
    |ip| == 4 && Value(subnet.network) <= Value(ip) < Value(subnet.network) + Size(subnet)
  }

  lemma {:induction false} Pow2Add(m: nat, n: nat)
    ensures Pow2(m + n) == Pow2(m) * Pow2(n)
  {
    if m > 0 {
      Pow2Add(m - 1, n);
      assert Pow2(m + n) == 2 * Pow2(m - 1 + n);
    }
  }

  lemma {:induction false} Pow2Is32()
    ensures Pow2(32) == AddressCount
  {
    Pow2Add(1, 1);
    Pow2Add(2, 2);
    Pow2Add(4, 4);
    Pow2Add(8, 8);
    Pow2Add(16, 16);
  }

  /** A multiple of `size` below `size * rest` leaves room for a whole block. */
  lemma {:induction false} BlockFits(n: nat, size: nat, rest: nat)
    requires size > 0 && n < size * rest && n % size == 0
    ensures n + size <= size * rest
  {
    var q := n / size;
    assert n == size * q;
    MulLeftMono(size, rest, q);
    MulLeftMono(size, q + 1, rest);
    assert size * (q + 1) == n + size;
  }

  /** An aligned block ends at or before the end of the address space. */
  lemma {:induction false} AlignedBlockFits(subnet: Subnet)
    requires ValidSubnet(subnet)
    ensures Value(subnet.network) + Size(subnet) <= AddressCount
  {
    Pow2Add(32 - subnet.prefixLength, subnet.prefixLength);
    Pow2Is32();
    ValueBound(subnet.network);
    AddressCountIsPow();
    BlockFits(Value(subnet.network), Size(subnet), Pow2(subnet.prefixLength));
  }

  /** Rounding v down to a multiple of size gives an aligned value within one block below v. */
  lemma {:induction false} RoundDown(v: nat, size: nat)
    requires size > 0
    ensures (size * (v / size)) % size == 0
    ensures size * (v / size) <= v < size * (v / size) + size
  {
    DivModUnique(size * (v / size), size, v / size, 0);
  }

  /** v rounded down to a multiple of size. */
  function RoundedDown(v: nat, size: nat): (base: nat)
    requires size > 0
    ensures base % size == 0 && base <= v < base + size
  {
    RoundDown(v, size);
    size * (v / size)
  }

  /** ip.Mask(CIDRMask(prefix, 32)): the host bits cleared. */
  function Mask(ip: seq<Byte>, prefixLength: PrefixLength): (network: seq<Byte>)
    requires |ip| == 4
    ensures ValidSubnet(Subnet(network, prefixLength))
    ensures InSubnet(Subnet(network, prefixLength), ip)
  {
    AddressOfValue(ip);
    var base := RoundedDown(Value(ip), Pow2(32 - prefixLength));
    Address(base)
  }

  /** net.ParseCIDR for IPv4 text: an address, a slash, and a decimal prefix
      length of at most 32. The result is the masked network. */
  function ParseCIDR(s: string): (r: Option<Subnet>)
    ensures r.Some? ==> ValidSubnet(r.value)
  {
    match IndexOf(s, "/")
    case None => None
    case Some(i) =>
      var mask := s[i + 1..];
      match ParseIP(s[..i])
      case None => None
      case Some(ip) =>
        if 1 <= |mask| && AllDigits(mask) && DigitsValue(mask) <= 32 then
          Some(Subnet(Mask(ip, DigitsValue(mask)), DigitsValue(mask)))
        else None
  }

  /** 10.107.0.0/16, the fallback of NewAllocator and the default of `net.subnet`. */
  const DefaultSubnet: Subnet := Subnet([10, 107, 0, 0], 16)
}
