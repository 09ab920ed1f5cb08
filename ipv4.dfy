/** The part of Python's `ipaddress` module the creator uses:
    `IPv4Address(s)` to read a neighbour's address, `ip_network(s)` (strict)
    to read an excluded range, and `address in network`.

    An address is its 32-bit value. A network is a base address and a prefix
    length; `address in network` compares the address with its host bits
    cleared against the base, and a strict network has no host bits set. */
module IPv4 {
  import opened Wrappers
  import opened Text

  /** 2^32, the number of IPv4 addresses. */
  const Space: nat := 0x1_0000_0000

  type Address = a: nat | a < 0x1_0000_0000

  function Pow2(n: nat): (r: nat)
    ensures r >= 1
  {
    if n == 0 then 1 else 2 * Pow2(n - 1)
  }

  lemma {:induction false} Pow2Add(a: nat, b: nat)
    ensures Pow2(a + b) == Pow2(a) * Pow2(b)
    decreases a
  {
    if a > 0 {
      Pow2Add(a - 1, b);
      assert Pow2(a + b) == 2 * Pow2(a - 1 + b);
    }
  }

  lemma Pow2Values()
    ensures Pow2(8) == 256 && Pow2(32) == Space
  {
    assert Pow2(2) == 4;
    Pow2Add(2, 2);
    Pow2Add(4, 4);
    Pow2Add(8, 8);
    Pow2Add(16, 16);
  }

  lemma {:induction false} Pow2Monotone(a: nat, b: nat)
    requires a <= b
    ensures Pow2(a) <= Pow2(b)
    decreases b
  {
    if a < b {
      Pow2Monotone(a, b - 1);
    }
  }

  lemma {:induction false} Pow2Injective(a: nat, b: nat)
    requires Pow2(a) == Pow2(b)
    ensures a == b
  {
    if a < b {
      Pow2Monotone(a + 1, b);
    } else if b < a {
      Pow2Monotone(b + 1, a);
    }
  }

  // ---------------------------------------------------------------------
  // Addresses in dotted-quad form.

  /** The four bytes of an address, most significant first. */
  function OctetsOf(a: Address): (o: seq<nat>)
    ensures |o| == 4 && forall i :: 0 <= i < 4 ==> o[i] < 256
  {
    var q1 := a / 256;
    var q2 := q1 / 256;
    [q2 / 256, q2 % 256, q1 % 256, a % 256]
  }

  /** `int.from_bytes(octets, 'big')`. */
  function FromOctets(o: seq<nat>): (a: Address)
    requires |o| == 4 && forall i :: 0 <= i < 4 ==> o[i] < 256
  {
    ((o[0] * 256 + o[1]) * 256 + o[2]) * 256 + o[3]
  }

  /** The bytes of an address give the address back, and bytes give back
      the bytes. */
  lemma OctetsRoundTrip(a: Address, o: seq<nat>)
    requires |o| == 4 && forall i :: 0 <= i < 4 ==> o[i] < 256
    ensures FromOctets(OctetsOf(a)) == a
    ensures OctetsOf(FromOctets(o)) == o
  {
    var x := FromOctets(o);
    assert x % 256 == o[3] && x / 256 == (o[0] * 256 + o[1]) * 256 + o[2];
    assert (x / 256) / 256 == o[0] * 256 + o[1];
  }

  /** `_parse_octet`: one to three ASCII digits, no leading zero, at most
      255. */
  function ParseOctet(s: string): (r: Option<nat>)
    ensures r.Some? ==> r.value < 256
  {
    if |s| == 0 || !AllDigits(s) || |s| > 3 || (s != "0" && s[0] == '0') then None
    else
      var v := DecimalValue(s);
      if v > 255 then None else Some(v)
  }

  /** `IPv4Address(s)` on a string: exactly four octets separated by dots;
      `None` where Python raises `AddressValueError`. */
  function ParseAddress(s: string): Option<Address> {
    var parts := SplitOn(s, '.');
    if |parts| != 4 then None
    else
      match (ParseOctet(parts[0]), ParseOctet(parts[1]), ParseOctet(parts[2]), ParseOctet(parts[3]))
      case (Some(o0), Some(o1), Some(o2), Some(o3)) => Some(FromOctets([o0, o1, o2, o3]))
      case _ => None
  }

  /** `str(address)`: the four octets in decimal, joined with dots. */
  function FormatAddress(a: Address): string {
    var o := OctetsOf(a);
    JoinWith([NatToString(o[0]), NatToString(o[1]), NatToString(o[2]), NatToString(o[3])], '.')
  }

  lemma ParseOctetOfNumeral(n: nat)
    requires n < 256
    ensures ParseOctet(NatToString(n)) == Some(n)
  {
    DecimalRoundTrip(n);
    NatToStringLength(n);
    NatToStringCanonical(n);
  }

  lemma ParseOctetCanonical(s: string)
    requires ParseOctet(s).Some?
    ensures s == NatToString(ParseOctet(s).value)
  {
    DecimalCanonical(s);
  }

  /** No octet numeral holds a dot. */
  lemma NumeralHasNoDot(n: nat)
    ensures '.' !in NatToString(n) && '/' !in NatToString(n)
  {
    var s := NatToString(n);
    assert forall i :: 0 <= i < |s| ==> IsDigit(s[i]);
  }

  /** Reading a formatted address gives the address back. */
  lemma AddressRoundTrip(a: Address)
    ensures ParseAddress(FormatAddress(a)) == Some(a)
  {
    var o := OctetsOf(a);
    var parts := [NatToString(o[0]), NatToString(o[1]), NatToString(o[2]), NatToString(o[3])];
    forall p | p in parts ensures '.' !in p {
      var i :| 0 <= i < 4 && p == parts[i];
      NumeralHasNoDot(o[i]);
    }
    JoinSplitOn(parts, '.');
    ParseOctetOfNumeral(o[0]);
    ParseOctetOfNumeral(o[1]);
    ParseOctetOfNumeral(o[2]);
    ParseOctetOfNumeral(o[3]);
    OctetsRoundTrip(a, o);
    assert [o[0], o[1], o[2], o[3]] == o;
  }

  /** Every string that reads as an address is that address's canonical
      form: the reading is strict. */
  lemma AddressCanonical(s: string)
    requires ParseAddress(s).Some?
    ensures FormatAddress(ParseAddress(s).value) == s
  {
    var parts := SplitOn(s, '.');
    var o := seq(4, i requires 0 <= i < 4 => ParseOctet(parts[i]).value);
    assert FromOctets(o) == ParseAddress(s).value;
    OctetsRoundTrip(0, o);
    forall i | 0 <= i < 4 ensures parts[i] == NatToString(o[i]) {
      ParseOctetCanonical(parts[i]);
    }
    SplitOnJoin(s, '.');
    assert parts == [NatToString(o[0]), NatToString(o[1]), NatToString(o[2]), NatToString(o[3])];
  }

  /** The two lemmas above together: a string reads as `a` exactly when it
      is `str(a)`. */
  lemma ParseAddressIff(s: string, a: Address)
    ensures ParseAddress(s) == Some(a) <==> s == FormatAddress(a)
  {
    AddressRoundTrip(a);
    if ParseAddress(s) == Some(a) {
      AddressCanonical(s);
    }
  }

  // ---------------------------------------------------------------------
  // Networks.

  datatype Network = Network(base: nat, prefixLen: nat)

  /** What `ip_network(s)` (strict) can return for IPv4: a prefix length of
      at most 32 and a base with no host bits set. */
  predicate ValidNetwork(n: Network) {
    n.prefixLen <= 32 && n.base < Space && n.base % Pow2(32 - n.prefixLen) == 0
  }

  /** The network mask of a prefix length: `prefixLen` ones, then zeros. */
  function NetmaskValue(prefixLen: nat): (m: nat)
    requires prefixLen <= 32
    ensures m < Space
  {
    Pow2Values();
    Pow2Monotone(32 - prefixLen, 32);
    Space - Pow2(32 - prefixLen)
  }

  /** Different prefix lengths have different netmasks. */
  lemma NetmaskInjective(p: nat, q: nat)
    requires p <= 32 && q <= 32
    requires NetmaskValue(p) == NetmaskValue(q)
    ensures p == q
  {
    Pow2Injective(32 - p, 32 - q);
  }

  /** `address in network`: the address with its host bits cleared is the
      base. */
  predicate InNetwork(a: nat, n: Network) {
    n.prefixLen <= 32 &&
    var k := Pow2(32 - n.prefixLen);
    a / k * k == n.base
  }

  /** The address lies in one of the networks. */
  predicate InAny(a: nat, nets: seq<Network>) {
    exists i :: 0 <= i < |nets| && InNetwork(a, nets[i])
  }

  /** Membership in a strict network is the address range it covers. */
  lemma InNetworkRange(a: nat, n: Network)
    requires ValidNetwork(n)
    ensures InNetwork(a, n) <==> n.base <= a < n.base + Pow2(32 - n.prefixLen)
  {
    BlockRange(a, n.base, Pow2(32 - n.prefixLen));
  }

  /** For a multiple `base` of `k`, rounding `a` down to a multiple of `k`
      gives `base` exactly for the `k` numbers from `base` on. */
  lemma BlockRange(a: nat, base: nat, k: nat)
    requires k > 0 && base % k == 0
    ensures a / k * k == base <==> base <= a < base + k
  {
    var q := base / k;
    DivMul(base, k);
    DivMul(a, k);
    if base <= a < base + k {
      DivUnique(a, k, q);
    }
    if a / k * k == q * k {
      MulCancel(a / k, q, k);
    }
  }

  lemma DivMul(a: nat, k: nat)
    requires k > 0
    ensures a / k * k <= a < a / k * k + k
    ensures a % k == 0 ==> a / k * k == a
  {
  }

  lemma DivUnique(a: nat, k: nat, q: nat)
    requires k > 0 && q * k <= a < q * k + k
    ensures a / k == q
  {
    var d := a / k;
    DivMul(a, k);
    if d < q {
      MulLe(d + 1, q, k);
    } else if d > q {
      MulLe(q + 1, d, k);
    }
  }

  lemma MulCancel(x: nat, y: nat, k: nat)
    requires k > 0 && x * k == y * k
    ensures x == y
  {
  }

  lemma MulLe(x: nat, y: nat, k: nat)
    requires x <= y
    ensures x * k <= y * k
  {
  }

  /** `_prefix_from_ip_int`: the prefix length whose netmask is `m`, looked
      for from `p` upwards (a netmask has at most one). */
  function MaskPrefix(m: nat, p: nat): (r: Option<nat>)
    requires p <= 33
    ensures r.Some? ==> p <= r.value <= 32 && NetmaskValue(r.value) == m
    ensures r.None? ==> forall q: nat :: p <= q <= 32 ==> NetmaskValue(q) != m
    decreases 33 - p
  {
    if p > 32 then None
    else if NetmaskValue(p) == m then Some(p)
    else MaskPrefix(m, p + 1)
  }

  /** The part after `/` in `ip_network`: a decimal prefix length of at most
      32 (leading zeros allowed), or else an address that is a netmask, or
      else one that is a hostmask (the complement of a netmask). */
  function ParsePrefix(s: string): (r: Option<nat>)
    ensures r.Some? ==> r.value <= 32
  {
    if |s| > 0 && AllDigits(s) && DecimalValue(s) <= 32 then Some(DecimalValue(s))
    else
      match ParseAddress(s)
      case None => None
      case Some(m) =>
        match MaskPrefix(m, 0)
        case Some(p) => Some(p)
        case None => MaskPrefix(Space - 1 - m, 0)
  }

  /** `ip_network(s)` for an IPv4 network, strict: at most one `/`, an
      address, a prefix, and no host bits set. `None` where Python raises. */
  function ParseNetwork(s: string): (r: Option<Network>)
    ensures r.Some? ==> ValidNetwork(r.value)
    ensures r.Some? ==> ParseAddress(SplitOn(s, '/')[0]) == Some(r.value.base)
    ensures r.Some? ==> |SplitOn(s, '/')| <= 2
    ensures r.Some? && |SplitOn(s, '/')| == 1 ==> r.value.prefixLen == 32
    ensures r.Some? && |SplitOn(s, '/')| == 2 ==> ParsePrefix(SplitOn(s, '/')[1]) == Some(r.value.prefixLen)
  {
    var parts := SplitOn(s, '/');
    if |parts| > 2 then None
    else
      match ParseAddress(parts[0])
      case None => None
      case Some(a) =>
        match (if |parts| == 1 then Some(32) else ParsePrefix(parts[1]))
        case None => None
        case Some(p) => if a % Pow2(32 - p) == 0 then Some(Network(a, p)) else None
  }

  /** `str(network)`: the base, a slash, the prefix length. */
  function FormatNetwork(n: Network): string
    requires ValidNetwork(n)
  {
    FormatAddress(n.base) + "/" + NatToString(n.prefixLen)
  }

  /** A dotted address holds only digits and dots. */
  lemma FormatAddressChars(a: Address)
    ensures forall c :: c in FormatAddress(a) ==> c == '.' || IsDigit(c)
  {
    var o := OctetsOf(a);
    var parts := [NatToString(o[0]), NatToString(o[1]), NatToString(o[2]), NatToString(o[3])];
    forall c | c in FormatAddress(a) ensures c == '.' || IsDigit(c) {
      JoinWithChars(parts, '.', c);
      if c != '.' {
        var i :| 0 <= i < 4 && c in parts[i];
        var k :| 0 <= k < |parts[i]| && parts[i][k] == c;
      }
    }
  }

  /** Reading a formatted strict network gives the network back. */
  lemma NetworkRoundTrip(n: Network)
    requires ValidNetwork(n)
    ensures ParseNetwork(FormatNetwork(n)) == Some(n)
  {
    FormattedParts(n);
    AddressRoundTrip(n.base);
    PrefixRoundTrip(n.prefixLen);
    ParseNetworkOfParts(FormatNetwork(n), FormatAddress(n.base), NatToString(n.prefixLen), n);
  }

  /** A string that splits into a strict network's address and prefix
      length reads as that network. */
  lemma ParseNetworkOfParts(s: string, x: string, y: string, n: Network)
    requires ValidNetwork(n)
    requires SplitOn(s, '/') == [x, y] && ParseAddress(x) == Some(n.base) && ParsePrefix(y) == Some(n.prefixLen)
    ensures ParseNetwork(s) == Some(n)
  {
  }

  /** `ip_network` is strict: an address with host bits set below the
      prefix raises, so the range is rejected. */
  lemma ParseNetworkHostBits(x: string, y: string, a: nat, p: nat)
    requires '/' !in x && '/' !in y
    requires ParseAddress(x) == Some(a) && ParsePrefix(y) == Some(p)
    requires a % Pow2(32 - p) != 0
    ensures ParseNetwork(x + "/" + y) == None
  {
    JoinSplitOn([x, y], '/');
    assert JoinWith([x, y], '/') == x + "/" + y;
  }

  /** A formatted network splits at its one slash. */
  lemma FormattedParts(n: Network)
    requires ValidNetwork(n)
    ensures SplitOn(FormatNetwork(n), '/') == [FormatAddress(n.base), NatToString(n.prefixLen)]
  {
    var x := FormatAddress(n.base);
    var y := NatToString(n.prefixLen);
    FormatAddressChars(n.base);
    assert '/' !in x;
    NumeralHasNoDot(n.prefixLen);
    JoinSplitOn([x, y], '/');
    assert JoinWith([x, y], '/') == FormatNetwork(n);
  }

  /** A prefix length written in decimal reads back. */
  lemma PrefixRoundTrip(p: nat)
    requires p <= 32
    ensures ParsePrefix(NatToString(p)) == Some(p)
  {
    DecimalRoundTrip(p);
    var s := NatToString(p);
    assert forall i :: 0 <= i < |s| ==> IsDigit(s[i]);
  }

  /** A dotted address is never a plain decimal numeral. */
  lemma FormatAddressHasDot(a: Address)
    ensures !AllDigits(FormatAddress(a))
  {
    var o := OctetsOf(a);
    var parts := [NatToString(o[0]), NatToString(o[1]), NatToString(o[2]), NatToString(o[3])];
    JoinFirst(parts, '.');
    assert FormatAddress(a)[|parts[0]|] == '.';
  }

  /** A network written with a netmask reads as the same prefix length. */
  lemma NetmaskPrefix(p: nat)
    requires p <= 32
    ensures ParsePrefix(FormatAddress(NetmaskValue(p))) == Some(p)
  {
    var m := NetmaskValue(p);
    FormatAddressHasDot(m);
    AddressRoundTrip(m);
    var r := MaskPrefix(m, 0);
    assert r.Some?;
    NetmaskInjective(r.value, p);
  }
}
