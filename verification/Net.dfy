/** IPv4 addresses, address blocks and packets. */
module Net {

  type Ip = x: int | 0 <= x < 0x1_0000_0000

  type Byte = x: int | 0 <= x < 256

  /** The address with these four octets. */
  function Address4(a: Byte, b: Byte, c: Byte, d: Byte): Ip {
    a * 0x100_0000 + b * 0x1_0000 + c * 0x100 + d
  }

  lemma Octets(a: Byte, b: Byte, c: Byte, d: Byte)
    ensures var ip := Address4(a, b, c, d);
            && ip / 0x100_0000 == a && ip / 0x1_0000 % 0x100 == b && ip / 0x100 % 0x100 == c && ip % 0x100 == d
            && ip / 0x1_0000 == a * 0x100 + b && ip / 0x100 == a * 0x1_0000 + b * 0x100 + c
  {
    var ip := Address4(a, b, c, d);
    assert ip / 0x1_0000 == a * 0x100 + b;
    assert ip / 0x100 == a * 0x1_0000 + b * 0x100 + c;
  }

  /** An address block: the `bits` most significant bits of `base` are the prefix. */
  datatype Cidr = Cidr(base: Ip, bits: nat)

  datatype Packet = Packet(src: Ip, dst: Ip)

  function Pow2(n: nat): (r: nat)
    ensures r >= 1
  {
    if n == 0 then 1 else 2 * Pow2(n - 1)
  }

  /** Prefix match of section 3.1 of RFC 4632: the leftmost `bits` bits agree. */
  predicate InCidr(c: Cidr, ip: Ip) {
    c.bits <= 32 && ip / Pow2(32 - c.bits) == c.base / Pow2(32 - c.bits)
  }

  function HostCidr(ip: Ip): Cidr {
    Cidr(ip, 32)
  }

  lemma {:induction false} MulStep(m: nat, a: nat, b: nat)
    requires a < b
    ensures m * a + m <= m * b
    decreases b
  {
    assert m * b == m * (b - 1) + m;
    if a < b - 1 {
      MulStep(m, a, b - 1);
    }
  }

  lemma QuotientBlock(x: nat, b: nat, m: nat)
    requires m > 0
    ensures x / m == b / m <==> m * (b / m) <= x < m * (b / m) + m
  {
    assert x == m * (x / m) + x % m;
    if x / m < b / m {
      MulStep(m, x / m, b / m);
    } else if b / m < x / m {
      MulStep(m, b / m, x / m);
    }
  }

  /** A block of `bits` prefix bits is the aligned run of 2^(32-bits) addresses around its base,
      and the host block of an address holds that address and no other. */
  lemma CidrIsAlignedBlock(c: Cidr, ip: Ip)
    requires c.bits <= 32
    ensures var m := Pow2(32 - c.bits); var low := m * (c.base / m);
            low <= c.base < low + m && (InCidr(c, ip) <==> low <= ip < low + m)
    ensures c.bits == 32 ==> (InCidr(c, ip) <==> ip == c.base)
  {
    var m := Pow2(32 - c.bits);
    QuotientBlock(ip, c.base, m);
    QuotientBlock(c.base, c.base, m);
  }

  /** The `n` low bits of `x`, the most significant first. */
  function Bits(x: nat, n: nat): (bits: seq<bool>)
    ensures |bits| == n
  {
    if n == 0 then [] else Bits(x / 2, n - 1) + [x % 2 == 1]
  }

  lemma QuotientIs(x: nat, m: nat, q: nat)
    requires m > 0 && m * q <= x < m * q + m
    ensures x / m == q
  {
    assert x == m * (x / m) + x % m;
    if x / m < q {
      MulStep(m, x / m, q);
    } else if q < x / m {
      MulStep(m, q, x / m);
    }
  }

  lemma DivideTwice(x: nat, m: nat)
    requires m > 0
    ensures x / 2 / m == x / (2 * m)
  {
    var half := x / 2;
    var q := half / m;
    var low := m * q;
    assert half == low + half % m;
    assert low <= half < low + m;
    assert 2 * m * q == 2 * low;
    QuotientIs(x, 2 * m, q);
  }

  lemma EightMore(n: nat)
    ensures Pow2(n + 8) == 0x100 * Pow2(n)
  {
    assert Pow2(n + 2) == 4 * Pow2(n);
    assert Pow2(n + 4) == 16 * Pow2(n);
    assert Pow2(n + 6) == 64 * Pow2(n);
  }

  lemma WholeOctets()
    ensures Pow2(0) == 1 && Pow2(8) == 0x100 && Pow2(16) == 0x1_0000 && Pow2(24) == 0x100_0000
    ensures Pow2(32) == 0x1_0000_0000
  {
    EightMore(0);
    EightMore(8);
    EightMore(16);
    EightMore(24);
  }

  lemma {:induction false} BitsInjective(x: nat, y: nat, n: nat)
    requires x < Pow2(n) && y < Pow2(n)
    ensures Bits(x, n) == Bits(y, n) <==> x == y
  {
    if n > 0 {
      BitsInjective(x / 2, y / 2, n - 1);
      assert Bits(x, n)[..n - 1] == Bits(x / 2, n - 1) && Bits(y, n)[..n - 1] == Bits(y / 2, n - 1);
      if Bits(x, n) == Bits(y, n) {
        assert Bits(x, n)[n - 1] == Bits(y, n)[n - 1];
      }
    }
  }

  /** To drop the `k` last bits of two numbers is to divide both by 2^k. */
  lemma {:induction false} LeadingBits(x: nat, y: nat, n: nat, k: nat)
    requires x < Pow2(n) && y < Pow2(n) && k <= n
    ensures x / Pow2(k) == y / Pow2(k) <==> Bits(x, n)[..n - k] == Bits(y, n)[..n - k]
    decreases k
  {
    if k == 0 {
      BitsInjective(x, y, n);
      assert Bits(x, n)[..n] == Bits(x, n) && Bits(y, n)[..n] == Bits(y, n);
    } else {
      DivideTwice(x, Pow2(k - 1));
      DivideTwice(y, Pow2(k - 1));
      LeadingBits(x / 2, y / 2, n - 1, k - 1);
      assert Bits(x, n)[..n - k] == Bits(x / 2, n - 1)[..n - k];
      assert Bits(y, n)[..n - k] == Bits(y / 2, n - 1)[..n - k];
    }
  }

  /** A block holds exactly the addresses whose leading bits are those of its base. */
  lemma CidrIsPrefix(c: Cidr, ip: Ip)
    ensures InCidr(c, ip) <==> c.bits <= 32 && Bits(ip, 32)[..c.bits] == Bits(c.base, 32)[..c.bits]
  {
    WholeOctets();
    if c.bits <= 32 {
      LeadingBits(ip, c.base, 32, 32 - c.bits);
    }
  }

  lemma AddressInjective(a: Byte, b: Byte, c: Byte, d: Byte, a': Byte, b': Byte, c': Byte, d': Byte)
    ensures Address4(a, b, c, d) == Address4(a', b', c', d') <==> a == a' && b == b' && c == c' && d == d'
    ensures a * 0x100 + b == a' * 0x100 + b' <==> a == a' && b == b'
    ensures a * 0x1_0000 + b * 0x100 + c == a' * 0x1_0000 + b' * 0x100 + c' <==> a == a' && b == b' && c == c'
  {
  }

  lemma BlockOf(base: Ip, ip: Ip, bits: nat, m: nat)
    requires bits <= 32 && m == Pow2(32 - bits)
    ensures InCidr(Cidr(base, bits), ip) <==> ip / m == base / m
  {
  }

  /** In octets: /8, /16 and /24 compare the first one, two and three, /32 all, and /0 none. */
  lemma CidrByOctets(a: Byte, b: Byte, c: Byte, d: Byte, a': Byte, b': Byte, c': Byte, d': Byte)
    ensures var base, ip := Address4(a, b, c, d), Address4(a', b', c', d');
            && InCidr(Cidr(base, 0), ip)
            && (InCidr(Cidr(base, 8), ip) <==> a' == a)
            && (InCidr(Cidr(base, 16), ip) <==> a' == a && b' == b)
            && (InCidr(Cidr(base, 24), ip) <==> a' == a && b' == b && c' == c)
            && (InCidr(Cidr(base, 32), ip) <==> a' == a && b' == b && c' == c && d' == d)
  {
    var base, ip := Address4(a, b, c, d), Address4(a', b', c', d');
    WholeOctets();
    Octets(a, b, c, d);
    Octets(a', b', c', d');
    AddressInjective(a, b, c, d, a', b', c', d');
    hide Address4, Pow2, InCidr;
    BlockOf(base, ip, 0, 0x1_0000_0000);
    BlockOf(base, ip, 8, 0x100_0000);
    BlockOf(base, ip, 16, 0x1_0000);
    BlockOf(base, ip, 24, 0x100);
    BlockOf(base, ip, 32, 1);
  }
}
