/** Dotted-quad and CIDR text as Go's `net.ParseCIDR` reads it and `IPNet.String` writes it. */
module Ipv4Text {
  import opened Wrappers
  import opened Ipv4
  import opened Text
  import Decimal

  function AddressText(a: Address): string {
    Decimal.Format(a / 0x100_0000) + "." + Decimal.Format(a / 0x1_0000 % 256) + "."
    + Decimal.Format(a / 256 % 256) + "." + Decimal.Format(a % 256)
  }

  /** At most three digits, no leading zero, at most 255. */
  function ParseOctet(s: string): (o: Option<nat>)
    ensures o.Some? ==> o.value < 256
  {
    match Decimal.ParseDigits(s)
    case None => None
    case Some(n) => if |s| > 3 || (|s| > 1 && s[0] == '0') || n > 255 then None else Some(n)
  }

  function ParseAddress(s: string): Option<Address> {
    var parts := Split(s, '.');
    if |parts| != 4 then None
    else
      match (ParseOctet(parts[0]), ParseOctet(parts[1]), ParseOctet(parts[2]), ParseOctet(parts[3]))
      case (Some(a), Some(b), Some(c), Some(d)) => Some(a * 0x100_0000 + b * 0x1_0000 + c * 256 + d)
      case _ => None
  }

  function CidrText(c: Cidr): string {
    AddressText(c.network) + "/" + Decimal.Format(c.length)
  }

  /** The network the text denotes, host bits cleared. */
  function ParseCidr(s: string): (c: Option<Cidr>)
    ensures c.Some? ==> c.value.Valid()
  {
    var parts := Split(s, '/');
    if |parts| != 2 then None
    else
      match (ParseAddress(parts[0]), Decimal.ParseDigits(parts[1]))
      case (Some(a), Some(n)) => if n <= 32 then Some(Canonical(a, n)) else None
      case _ => None
  }

  lemma ParseOctetOfFormat(n: nat)
    requires n < 256
    ensures ParseOctet(Decimal.Format(n)) == Some(n)
  {
    Decimal.ParseDigitsOfFormat(n);
    Decimal.FormatLength(n);
    Decimal.FormatHasNoLeadingZero(n);
  }

  lemma FourParts(head: string, t1: string, s: string, t2: string, t3: string)
    ensures head + t1 + s + t2 + s + t3 == head + (t1 + s + (t2 + s + t3))
  {
    Associates(head + t1 + s + t2, s, t3);
    Associates(head + t1 + s, t2, s + t3);
    Associates(head + t1, s, t2 + (s + t3));
    Associates(head, t1, s + (t2 + (s + t3)));
    Associates(t1, s, t2 + (s + t3));
    Associates(t2, s, t3);
  }

  lemma SplitFour(t0: string, t1: string, t2: string, t3: string, separator: char)
    requires separator !in t0 && separator !in t1 && separator !in t2 && separator !in t3
    ensures Split(t0 + [separator] + t1 + [separator] + t2 + [separator] + t3, separator) == [t0, t1, t2, t3]
  {
    var tail2 := t2 + [separator] + t3;
    var tail1 := t1 + [separator] + tail2;
    FourParts(t0 + [separator], t1, [separator], t2, t3);
    SplitHead(t0, separator, tail1);
    SplitHead(t1, separator, tail2);
    SplitHead(t2, separator, t3);
    SplitWhole(t3, separator);
  }

  lemma OctetsOf(a: Address)
    ensures a / 0x100_0000 < 256
    ensures a == a / 0x100_0000 * 0x100_0000 + a / 0x1_0000 % 256 * 0x1_0000 + a / 256 % 256 * 256 + a % 256
  {
    var x, y, z := a / 256, a / 0x1_0000, a / 0x100_0000;
    assert y == x / 256 && z == y / 256;
    assert a == x * 256 + a % 256 && x == y * 256 + x % 256 && y == z * 256 + y % 256;
    assert z < 256 && y % 256 == y - z * 256;
  }

  lemma ParseFourOctets(
    t0: string, t1: string, t2: string, t3: string, n0: nat, n1: nat, n2: nat, n3: nat)
    requires '.' !in t0 && '.' !in t1 && '.' !in t2 && '.' !in t3
    requires ParseOctet(t0) == Some(n0) && ParseOctet(t1) == Some(n1)
    requires ParseOctet(t2) == Some(n2) && ParseOctet(t3) == Some(n3)
    ensures ParseAddress(t0 + "." + t1 + "." + t2 + "." + t3)
         == Some(n0 * 0x100_0000 + n1 * 0x1_0000 + n2 * 256 + n3)
  {
    SplitFour(t0, t1, t2, t3, '.');
  }

  lemma ParseAddressOfText(a: Address)
    ensures ParseAddress(AddressText(a)) == Some(a)
    ensures '/' !in AddressText(a)
  {
    var n0, n1, n2, n3 := a / 0x100_0000, a / 0x1_0000 % 256, a / 256 % 256, a % 256;
    OctetsOf(a);
    ParseOctetOfFormat(n0);
    ParseOctetOfFormat(n1);
    ParseOctetOfFormat(n2);
    ParseOctetOfFormat(n3);
    ParseFourOctets(Decimal.Format(n0), Decimal.Format(n1), Decimal.Format(n2), Decimal.Format(n3), n0, n1, n2, n3);
  }

  /** Writing a canonical block and reading it back gives the block. */
  lemma ParseCidrOfText(c: Cidr)
    requires c.Valid()
    ensures ParseCidr(CidrText(c)) == Some(c)
  {
    ParseAddressOfText(c.network);
    Decimal.ParseDigitsOfFormat(c.length);
    var digits := Decimal.Format(c.length);
    SplitHead(AddressText(c.network), '/', digits);
    SplitWhole(digits, '/');
    assert CidrText(c) == AddressText(c.network) + ['/'] + digits;
  }
}
