/** IPv4 addresses and CIDR notation (section 3.1 of RFC 4632), as Go's net package prints and parses them. */
module Cidr {
  import opened Options
  import opened Text

  type Octet = o: nat | o < 256

  datatype Ipv4 = Ipv4(a: Octet, b: Octet, c: Octet, d: Octet)

  function PrintIp(ip: Ipv4): string {
    Digits(ip.a) + ['.'] + (Digits(ip.b) + ['.'] + (Digits(ip.c) + ['.'] + Digits(ip.d)))
  }

  /** A decimal octet; leading zeros are refused. */
  function ParseOctet(s: string): Option<Octet> {
    if s == "" || !AllDigits(s) || (|s| > 1 && s[0] == '0') || Value(s) > 255 then None else Some(Value(s))
  }

  function ParseIp(s: string): Option<Ipv4> {
    var p := Split(s, '.');
    if |p| != 4 then None
    else match (ParseOctet(p[0]), ParseOctet(p[1]), ParseOctet(p[2]), ParseOctet(p[3]))
         case (Some(a), Some(b), Some(c), Some(d)) => Some(Ipv4(a, b, c, d))
         case _ => None
  }

  /** `net.ParseCIDR` on IPv4 text: the address and the prefix length; the length may have leading zeros. */
  function ParseCidr(s: string): Option<(Ipv4, nat)> {
    match Cut(s, '/')
    case None => None
    case Some(p) =>
      if p.1 == "" || !AllDigits(p.1) || Value(p.1) > 32 then None
      else match ParseIp(p.0) case None => None case Some(ip) => Some((ip, Value(p.1)))
  }

  lemma OctetRoundTrip(o: Octet)
    ensures ParseOctet(Digits(o)) == Some(o) && '.' !in Digits(o)
  {
    ValueDigits(o);
    assert !IsDigit('.');
    assert o == 0 ==> |Digits(o)| == 1;
  }

  lemma OctetCanonical(s: string)
    requires ParseOctet(s).Some?
    ensures Digits(ParseOctet(s).value) == s
  {
    DigitsValue(s);
  }

  lemma SplitFour(a: string, b: string, c: string, d: string)
    requires '.' !in a && '.' !in b && '.' !in c && '.' !in d
    ensures Split(a + ['.'] + (b + ['.'] + (c + ['.'] + d)), '.') == [a, b, c, d]
  {
    SplitPlain(a, '.');
    SplitPlain(b, '.');
    SplitPlain(c, '.');
    SplitPlain(d, '.');
    SplitAppend(a, '.', b + ['.'] + (c + ['.'] + d));
    SplitAppend(b, '.', c + ['.'] + d);
    SplitAppend(c, '.', d);
    assert [a] + ([b] + ([c] + [d])) == [a, b, c, d];
  }

  /** Printing and parsing are inverse: every address comes back, and only canonical text is accepted. */
  lemma {:induction false} IpRoundTrip(ip: Ipv4)
    ensures ParseIp(PrintIp(ip)) == Some(ip)
  {
    OctetRoundTrip(ip.a);
    OctetRoundTrip(ip.b);
    OctetRoundTrip(ip.c);
    OctetRoundTrip(ip.d);
    SplitFour(Digits(ip.a), Digits(ip.b), Digits(ip.c), Digits(ip.d));
  }

  lemma JoinFour(p: seq<string>)
    requires |p| == 4
    ensures Join(p, '.') == p[0] + ['.'] + (p[1] + ['.'] + (p[2] + ['.'] + p[3]))
  {
    assert p[1..][1..] == p[2..] && p[2..][1..] == p[3..] && p[3..] == [p[3]];
    assert Join(p[3..], '.') == p[3];
    assert Join(p[2..], '.') == p[2] + ['.'] + p[3];
    assert Join(p[1..], '.') == p[1] + ['.'] + (p[2] + ['.'] + p[3]);
  }

  lemma {:induction false} IpCanonical(s: string)
    requires ParseIp(s).Some?
    ensures PrintIp(ParseIp(s).value) == s
  {
    var p := Split(s, '.');
    JoinSplit(s, '.');
    JoinFour(p);
    OctetCanonical(p[0]);
    OctetCanonical(p[1]);
    OctetCanonical(p[2]);
    OctetCanonical(p[3]);
  }

  lemma PrintedChars(ip: Ipv4)
    ensures PrintIp(ip) != "" && '/' !in PrintIp(ip) && ':' !in PrintIp(ip)
  {
    assert !IsDigit('/') && !IsDigit(':');
  }

  /** What is accepted: the canonical address, a slash, and a prefix length in digits, leading zeros allowed. */
  lemma {:induction false} CidrExactly(s: string, ip: Ipv4, n: nat)
    ensures ParseCidr(s) == Some((ip, n)) <==>
            n <= 32 && exists d :: AllDigits(d) && d != "" && Value(d) == n && s == PrintIp(ip) + ['/'] + d
  {
    PrintedChars(ip);
    if ParseCidr(s) == Some((ip, n)) {
      CutParts(s, '/');
      var (address, d) := Cut(s, '/').value;
      IpCanonical(address);
      assert AllDigits(d) && s == PrintIp(ip) + ['/'] + d;
    }
    if n <= 32 {
      forall d | AllDigits(d) && d != "" && Value(d) == n && s == PrintIp(ip) + ['/'] + d
        ensures ParseCidr(s) == Some((ip, n))
      {
        CutKeyed(PrintIp(ip), '/', d);
        IpRoundTrip(ip);
      }
    }
  }

  // ---- masking ----------------------------------------------------------------

  lemma MulAtLeast(d: int, m: int)
    requires d >= 1 && m >= 0
    ensures m * d >= m
  {
  }

  lemma MulAtMost(d: int, m: int)
    requires d <= -1 && m >= 0
    ensures m * d <= -m
  {
    MulAtLeast(-d, m);
    assert m * d == -(m * -d);
  }

  lemma DivMod(x: nat, m: nat)
    requires m > 0
    ensures x == m * (x / m) + x % m && x / m >= 0 && x % m < m && x % m <= x
  {
    var q := x / m;
    assert x == m * q + x % m;
    if q >= 1 { MulAtLeast(q, m); } else if q <= -1 { MulAtMost(q, m); }
  }

  lemma ModUnique(x: nat, m: nat, t: nat, r: nat)
    requires m > 0 && r < m && x == m * t + r
    ensures x % m == r
  {
    DivMod(x, m);
    var d := x / m - t;
    assert m * d == m * (x / m) - m * t;
    if d >= 1 { MulAtLeast(d, m); }
    if d <= -1 { MulAtMost(d, m); }
  }

  function Pow2(n: nat): (r: nat)
    ensures r > 0
  {
    if n == 0 then 1 else 2 * Pow2(n - 1)
  }

  /** How many bits of octet number `i` a prefix of length `n` keeps. */
  function Kept(n: nat, i: nat): (k: nat)
    ensures k <= 8
  {
    if n <= 8 * i then 0 else if n >= 8 * i + 8 then 8 else n - 8 * i
  }

  /** The octet with all but its top `k` bits cleared. */
  function MaskOctet(o: Octet, k: nat): Octet
    requires k <= 8
  {
    DivMod(o, Pow2(8 - k));
    o - o % Pow2(8 - k)
  }

  /** The network address, octet by octet as `IP.Mask` computes it. */
  function Masked(ip: Ipv4, n: nat): Ipv4
    requires n <= 32
  {
    Ipv4(MaskOctet(ip.a, Kept(n, 0)), MaskOctet(ip.b, Kept(n, 1)),
         MaskOctet(ip.c, Kept(n, 2)), MaskOctet(ip.d, Kept(n, 3)))
  }

  /** The network in CIDR notation, `IPNet.String`. */
  function PrintNetwork(ip: Ipv4, n: nat): string
    requires n <= 32
  {
    PrintIp(Masked(ip, n)) + ['/'] + Digits(n)
  }

  /** The address as a 32-bit number. */
  function Number(ip: Ipv4): nat {
    ((ip.a * 256 + ip.b) * 256 + ip.c) * 256 + ip.d
  }

  lemma PowersOfTwo()
    ensures Pow2(1) == 2 && Pow2(2) == 4 && Pow2(3) == 8 && Pow2(4) == 16
    ensures Pow2(5) == 32 && Pow2(6) == 64 && Pow2(7) == 128 && Pow2(8) == 256
  {
  }

  lemma {:induction false} Pow2Sum(m: nat, n: nat)
    ensures Pow2(m + n) == Pow2(m) * Pow2(n)
  {
    if m > 0 {
      Pow2Sum(m - 1, n);
      assert m + n - 1 == m - 1 + n;
      assert 2 * (Pow2(m - 1) * Pow2(n)) == (2 * Pow2(m - 1)) * Pow2(n);
    }
  }

  lemma MulSwap(p: int, h: int, s: int)
    ensures p * (h * s) == h * (p * s)
  {
  }

  /** Adding multiples of a multiple of `p` does not change the remainder. */
  lemma AddMultiple(hi: nat, o: nat, p: nat, s: nat)
    requires p > 0
    ensures (hi * (p * s) + o) % p == o % p
  {
    var q, t := o / p, hi * s;
    DivMod(o, p);
    MulSwap(p, hi, s);
    assert p * (t + q) == p * t + p * q;
    ModUnique(hi * (p * s) + o, p, t + q, o % p);
  }

  /** Only the low octet matters modulo a power of two up to 256. */
  lemma LowOctet(hi: nat, o: Octet, k: nat)
    requires k <= 8
    ensures (hi * 256 + o) % Pow2(k) == o % Pow2(k)
  {
    PowersOfTwo();
    Pow2Sum(k, 8 - k);
    AddMultiple(hi, o, Pow2(k), Pow2(8 - k));
  }

  /** A number `q` above a low part: its remainder modulo `p` blocks of the low part. */
  lemma ModScaled(q: nat, p: nat, low: nat, size: nat)
    requires p > 0 && low < size
    ensures p * size > 0 && (q * size + low) % (p * size) == (q % p) * size + low
  {
    var t, r := q / p, q % p;
    DivMod(q, p);
    MulAtLeast(p - r, size);
    assert size * (p - r) == p * size - r * size;
    assert q * size == (p * t + r) * size == (p * t) * size + r * size;
    MulSwap(t, p, size);
    assert (p * t) * size == (p * size) * t;
    ModUnique(q * size + low, p * size, t, r * size + low);
  }

  lemma TakeScaled(q: int, r: int, low: int, size: int)
    ensures q * size + low - (r * size + low) == (q - r) * size
  {
  }

  /** Clearing all bits of the octets after `o` and the low bits of `o` is rounding down to a block of that size. */
  lemma BlockAt(hi: nat, o: Octet, k: nat, low: nat, bits: nat)
    requires k <= 8 && low < Pow2(bits)
    ensures var x := (hi * 256 + o) * Pow2(bits) + low;
            x - x % Pow2(8 - k + bits) == (hi * 256 + MaskOctet(o, k)) * Pow2(bits)
  {
    hide Pow2;
    var q, p, size := hi * 256 + o, Pow2(8 - k), Pow2(bits);
    Pow2Sum(8 - k, bits);
    LowOctet(hi, o, 8 - k);
    ModScaled(q, p, low, size);
    TakeScaled(q, o % p, low, size);
    assert q - o % p == hi * 256 + MaskOctet(o, k);
  }

  lemma MaskEnds(o: Octet)
    ensures MaskOctet(o, 8) == o && MaskOctet(o, 0) == 0
  {
    PowersOfTwo();
  }

  lemma LargePowers()
    ensures Pow2(0) == 1 && Pow2(8) == 256 && Pow2(16) == 65536 && Pow2(24) == 16777216
  {
    PowersOfTwo();
    Pow2Sum(8, 8);
    Pow2Sum(8, 16);
  }

  /** Masking gives the start of the block of 2^(32-n) addresses that holds the address. */
  lemma {:induction false} NetworkIsBlockStart(ip: Ipv4, n: nat)
    requires n <= 32
    ensures Number(Masked(ip, n)) == Number(ip) - Number(ip) % Pow2(32 - n)
  {
    if n <= 8 {
      FirstOctetCut(ip, n);
    } else if n <= 16 {
      SecondOctetCut(ip, n);
    } else if n <= 24 {
      ThirdOctetCut(ip, n);
    } else {
      FourthOctetCut(ip, n);
    }
  }

  /** A cut at one octet, with the numbers before and after it spelled out. */
  lemma {:induction false} CutAt(x: nat, y: nat, hi: nat, o: Octet, k: nat, low: nat, bits: nat, size: nat)
    requires k <= 8 && low < size == Pow2(bits)
    requires x == (hi * 256 + o) * size + low && y == (hi * 256 + MaskOctet(o, k)) * size
    ensures y == x - x % Pow2(8 - k + bits)
  {
    hide Pow2;
    hide MaskOctet;
    BlockAt(hi, o, k, low, bits);
  }

  lemma {:induction false} FirstOctetCut(ip: Ipv4, n: nat)
    requires n <= 8
    ensures Number(Masked(ip, n)) == Number(ip) - Number(ip) % Pow2(32 - n)
  {
    hide Pow2;
    hide MaskOctet;
    LargePowers();
    MaskEnds(ip.b);
    MaskEnds(ip.c);
    MaskEnds(ip.d);
    CutAt(Number(ip), Number(Masked(ip, n)), 0, ip.a, n, (ip.b * 256 + ip.c) * 256 + ip.d, 24, 16777216);
  }

  lemma {:induction false} SecondOctetCut(ip: Ipv4, n: nat)
    requires 8 < n <= 16
    ensures Number(Masked(ip, n)) == Number(ip) - Number(ip) % Pow2(32 - n)
  {
    hide Pow2;
    hide MaskOctet;
    LargePowers();
    MaskEnds(ip.a);
    MaskEnds(ip.c);
    MaskEnds(ip.d);
    CutAt(Number(ip), Number(Masked(ip, n)), ip.a, ip.b, n - 8, ip.c * 256 + ip.d, 16, 65536);
  }

  lemma {:induction false} ThirdOctetCut(ip: Ipv4, n: nat)
    requires 16 < n <= 24
    ensures Number(Masked(ip, n)) == Number(ip) - Number(ip) % Pow2(32 - n)
  {
    hide Pow2;
    hide MaskOctet;
    LargePowers();
    MaskEnds(ip.a);
    MaskEnds(ip.b);
    MaskEnds(ip.d);
    CutAt(Number(ip), Number(Masked(ip, n)), ip.a * 256 + ip.b, ip.c, n - 16, ip.d, 8, 256);
  }

  lemma {:induction false} FourthOctetCut(ip: Ipv4, n: nat)
    requires 24 < n <= 32
    ensures Number(Masked(ip, n)) == Number(ip) - Number(ip) % Pow2(32 - n)
  {
    hide Pow2;
    hide MaskOctet;
    LargePowers();
    MaskEnds(ip.a);
    MaskEnds(ip.b);
    MaskEnds(ip.c);
    CutAt(Number(ip), Number(Masked(ip, n)), (ip.a * 256 + ip.b) * 256 + ip.c, ip.d, n - 24, 0, 0, 1);
  }
}
