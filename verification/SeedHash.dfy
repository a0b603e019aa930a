/**
  The hash of a seed, FNV-1a over 64 bits with its own starting value, printed as 16 hexadecimal
  digits.  The controller files recipes under it and the mutator looks them up by it.
 */
module SeedHashing {
  import opened Wrappers

  const BASIS: nat := 1469598103934665603

  const PRIME: nat := 1099511628211

  /** The exclusive or of two numbers, bit by bit. */
  function XorOf(a: nat, b: nat): nat
    decreases a + b
  {
    if a == 0 && b == 0 then 0 else 2 * XorOf(a / 2, b / 2) + (a % 2 + b % 2) % 2
  }

  function FnvStep(hash: nat, b: bv8): (r: nat)
    ensures r < TWO_64
  {
    XorOf(hash, b as nat) * PRIME % TWO_64
  }

  function Fnv(data: seq<bv8>): (r: nat)
    ensures r < TWO_64
  {
    if data == [] then BASIS else FnvStep(Fnv(data[..|data| - 1]), data[|data| - 1])
  }

  function HexDigit(n: nat): char
    requires n < 16
  {
    if n < 10 then ('0' as int + n) as char else ('a' as int + n - 10) as char
  }

  function Hex(n: nat, digits: nat): (s: string)
    ensures |s| == digits
  {
    if digits == 0 then "" else Hex(n / 16, digits - 1) + [HexDigit(n % 16)]
  }

  function SeedHash(data: seq<bv8>): string { Hex(Fnv(data), 16) }

  /** The mutator's loop over a buffer. */
  method ComputeSeedHash(data: seq<bv8>) returns (out: string)
    ensures out == SeedHash(data)
  {
    hide FnvStep;
    var hash := BASIS;
    for i := 0 to |data|
      invariant hash == Fnv(data[..i])
    {
      assert data[..i + 1][..i] == data[..i];
      hash := FnvStep(hash, data[i]);
    }
    assert data[..|data|] == data;
    out := Hex(hash, 16);
  }

  /** The controller's loop, which takes the bytes off the front. */
  method StableSeedHashHex(bytes: seq<bv8>) returns (out: string)
    ensures out == SeedHash(bytes)
  {
    hide FnvStep;
    var hash, rest := BASIS, bytes;
    while rest != []
      invariant |rest| <= |bytes| && rest == bytes[|bytes| - |rest|..]
      invariant hash == Fnv(bytes[..|bytes| - |rest|])
    {
      var i := |bytes| - |rest|;
      assert bytes[..i + 1][..i] == bytes[..i] && rest[0] == bytes[i];
      hash := FnvStep(hash, rest[0]);
      rest := rest[1..];
    }
    assert bytes[..|bytes|] == bytes;
    out := Hex(hash, 16);
  }

  // ---------- the printed digits ----------

  /** The 16 digits give the number back, so two seeds share a key exactly when their hashes are equal. */
  lemma {:induction false} HexIsInjective(m: nat, n: nat, digits: nat)
    requires m < Power16(digits) && n < Power16(digits) && Hex(m, digits) == Hex(n, digits)
    ensures m == n
    decreases digits
  {
    if digits > 0 {
      var a, b := Hex(m, digits), Hex(n, digits);
      assert a[..digits - 1] == Hex(m / 16, digits - 1) && b[..digits - 1] == Hex(n / 16, digits - 1);
      assert a[digits - 1] == HexDigit(m % 16) && b[digits - 1] == HexDigit(n % 16);
      DigitsDiffer(m % 16, n % 16);
      HexIsInjective(m / 16, n / 16, digits - 1);
    }
  }

  lemma DigitsDiffer(a: nat, b: nat)
    requires a < 16 && b < 16 && HexDigit(a) == HexDigit(b)
    ensures a == b
  {
  }

  function Power16(k: nat): nat { if k == 0 then 1 else 16 * Power16(k - 1) }

  lemma SixteenDigitsSuffice()
    ensures Power16(16) == TWO_64
  {
    assert Power16(4) == 0x1_0000;
    assert Power16(8) == 0x1_0000_0000;
    assert Power16(12) == 0x1_0000_0000_0000;
  }

  lemma SameKeyExactlyWhen(a: seq<bv8>, b: seq<bv8>)
    ensures SeedHash(a) == SeedHash(b) <==> Fnv(a) == Fnv(b)
  {
    hide Hex, Fnv, Power16;
    SixteenDigitsSuffice();
    if SeedHash(a) == SeedHash(b) {
      HexIsInjective(Fnv(a), Fnv(b), 16);
    }
  }

  // ---------- one byte ----------

  const INVERSE: nat := 14886173955864302971

  lemma PrimeHasInverse()
    ensures PRIME * INVERSE == 1 + 887285111055 * TWO_64
  {
  }

  /** Multiplying by an odd constant modulo a power of two loses nothing. */
  lemma ProductsDiffer(a: nat, b: nat)
    requires a < TWO_64 && b < TWO_64 && a * PRIME % TWO_64 == b * PRIME % TWO_64
    ensures a == b
  {
    PrimeHasInverse();
    Cancel(a, b, PRIME, INVERSE, 887285111055, TWO_64);
  }

  lemma Cancel(a: nat, b: nat, p: nat, inverse: nat, k: nat, m: nat)
    requires a < m && b < m && p * inverse == 1 + k * m && a * p % m == b * p % m
    ensures a == b
  {
    var d, q := a - b, a * p / m - b * p / m;
    Difference(a, b, p);
    Difference(a * p / m, b * p / m, m);
    assert d * p == q * m;
    Rearranged(d, p, inverse, k, q, m);
    SmallMultiple(d, q * inverse - d * k, m);
  }

  lemma Difference(x: int, y: int, z: int)
    ensures (x - y) * z == x * z - y * z
  {
  }

  lemma Rearranged(d: int, p: int, inverse: int, k: int, q: int, m: int)
    requires d * p == q * m && p * inverse == 1 + k * m
    ensures d == (q * inverse - d * k) * m
  {
    Associates(d, p, inverse);
    Associates(q, m, inverse);
    Associates(q, inverse, m);
    Associates(d, k, m);
    Difference(q * inverse, d * k, m);
    assert d * (1 + k * m) == d + d * (k * m);
    assert m * inverse == inverse * m;
  }

  lemma Associates(x: int, y: int, z: int)
    ensures (x * y) * z == x * (y * z)
  {
  }

  lemma SmallMultiple(d: int, t: int, m: nat)
    requires d == t * m && 0 - m < d < m
    ensures d == 0
  {
  }

  /** The last bit, and the bits before it. */
  lemma XorParts(a: nat, b: nat)
    ensures XorOf(a, b) / 2 == XorOf(a / 2, b / 2) && XorOf(a, b) % 2 == (a % 2 + b % 2) % 2
  {
  }

  /** The same exclusive or again takes it back. */
  lemma {:induction false} XorTwice(a: nat, b: nat)
    ensures XorOf(XorOf(a, b), b) == a
    decreases a + b
  {
    hide XorOf;
    XorParts(a, b);
    XorParts(XorOf(a, b), b);
    if a > 0 || b > 0 {
      XorTwice(a / 2, b / 2);
    } else {
      XorNothing(0);
    }
  }

  lemma {:induction false} XorIsSymmetric(a: nat, b: nat)
    ensures XorOf(a, b) == XorOf(b, a)
    decreases a + b
  {
    if a > 0 || b > 0 {
      XorIsSymmetric(a / 2, b / 2);
    }
  }

  function Power2(k: nat): nat { if k == 0 then 1 else 2 * Power2(k - 1) }

  lemma {:induction false} XorFits(a: nat, b: nat, k: nat)
    requires a < Power2(k) && b < Power2(k)
    ensures XorOf(a, b) < Power2(k)
  {
    if a > 0 || b > 0 {
      XorFits(a / 2, b / 2, k - 1);
    }
  }

  lemma {:induction false} PowersMultiply(a: nat, b: nat)
    ensures Power2(a + b) == Power2(a) * Power2(b)
  {
    if a > 0 {
      PowersMultiply(a - 1, b);
    }
  }

  lemma SixtyFourBits()
    ensures Power2(64) == TWO_64
  {
    assert Power2(4) == 16;
    PowersMultiply(4, 4);
    PowersMultiply(8, 8);
    PowersMultiply(16, 16);
    PowersMultiply(32, 32);
  }

  /** Two seeds that differ in one byte never share a key. */
  lemma OneByteChangesKey(a: seq<bv8>, b: seq<bv8>, i: nat)
    requires |a| == |b| && i < |a| && a[i] != b[i]
    requires forall k :: 0 <= k < |a| && k != i ==> a[k] == b[k]
    ensures SeedHash(a) != SeedHash(b)
  {
    SameKeyExactlyWhen(a, b);
    OneByteChangesHash(a, b, i);
  }

  lemma {:induction false} OneByteChangesHash(a: seq<bv8>, b: seq<bv8>, i: nat)
    requires |a| == |b| && i < |a| && a[i] != b[i]
    requires forall k :: 0 <= k < |a| && k != i ==> a[k] == b[k]
    ensures Fnv(a) != Fnv(b)
  {
    hide FnvStep;
    var n := |a| - 1;
    if i == n {
      assert a[..n] == b[..n];
    } else {
      OneByteChangesHash(a[..n], b[..n], i);
    }
    if Fnv(a) == Fnv(b) {
      StepsDiffer(Fnv(a[..n]), Fnv(b[..n]), a[n], b[n]);
    }
  }

  /** One step from equal hashes, or with equal bytes, ends in equal hashes only if both were equal. */
  lemma StepsDiffer(g: nat, h: nat, b: bv8, c: bv8)
    requires g < TWO_64 && h < TWO_64 && FnvStep(g, b) == FnvStep(h, c) && (g == h || b == c)
    ensures g == h && b == c
  {
    hide XorOf;
    var x, y := b as nat, c as nat;
    ByteFits(b);
    ByteFits(c);
    XorsDiffer(g, h, x, y);
    if x == y {
      BytesDiffer(b, c);
    }
  }

  lemma XorsDiffer(g: nat, h: nat, x: nat, y: nat)
    requires g < TWO_64 && h < TWO_64 && x < TWO_64 && y < TWO_64 && (g == h || x == y)
    requires XorOf(g, x) * PRIME % TWO_64 == XorOf(h, y) * PRIME % TWO_64
    ensures g == h && x == y
  {
    hide XorOf, Power2;
    SixtyFourBits();
    XorFits(g, x, 64);
    XorFits(h, y, 64);
    ProductsDiffer(XorOf(g, x), XorOf(h, y));
    XorTwice(g, x);
    XorTwice(h, y);
    XorIsSymmetric(g, x);
    XorIsSymmetric(h, y);
    XorTwice(x, g);
    XorTwice(y, h);
  }

  lemma ByteFits(b: bv8)
    ensures b as nat < TWO_64
  {
    assert b as nat < 256;
  }

  lemma BytesDiffer(x: bv8, y: bv8)
    requires x as nat == y as nat
    ensures x == y
  {
  }

  lemma FourMoreDigits(n: nat, d: nat)
    ensures Hex(n, d + 4) == Hex(n / 65536, d) + [HexDigit(n / 4096 % 16), HexDigit(n / 256 % 16),
                                                  HexDigit(n / 16 % 16), HexDigit(n % 16)]
  {
    hide HexDigit;
    assert Hex(n, d + 4) == Hex(n / 16, d + 3) + [HexDigit(n % 16)];
    assert Hex(n / 16, d + 3) == Hex(n / 256, d + 2) + [HexDigit(n / 16 % 16)] by { DivideTwice(n, 16); }
    assert Hex(n / 256, d + 2) == Hex(n / 4096, d + 1) + [HexDigit(n / 256 % 16)] by { DivideTwice(n, 256); }
    assert Hex(n / 4096, d + 1) == Hex(n / 65536, d) + [HexDigit(n / 4096 % 16)] by { DivideTwice(n, 4096); }
  }

  lemma DivideTwice(n: nat, k: nat)
    requires k == 16 || k == 256 || k == 4096
    ensures n / k / 16 == n / (k * 16)
  {
  }

  /** The keys of an empty seed and of a seed of one `a`. */
  lemma KeyExamples()
    ensures SeedHash([]) == "1465" + "0fb0" + "739d" + "0383"
    ensures SeedHash([0x61]) == "44bd" + "8ad4" + "73cd" + "9906"
  {
    hide Hex, FnvStep;
    Digits(BASIS, 0x1465, 0x0fb0, 0x739d, 0x0383);
    Digits(0x44bd8ad473cd9906, 0x44bd, 0x8ad4, 0x73cd, 0x9906);
    EmptyKeyStart();
    EmptyKeyEnd();
    OneByteKeyStart();
    OneByteKeyEnd();
    assert [0x61 as bv8][..0] == [];
    OneStep();
  }

  lemma EmptyKeyStart()
    ensures Hex(0x1465, 4) == "1465" && Hex(0x0fb0, 4) == "0fb0"
  {
    hide Hex;
    FourMoreDigits(0x1465, 0);
    FourMoreDigits(0x0fb0, 0);
    NoDigits();
  }

  lemma EmptyKeyEnd()
    ensures Hex(0x739d, 4) == "739d" && Hex(0x0383, 4) == "0383"
  {
    hide Hex;
    FourMoreDigits(0x739d, 0);
    FourMoreDigits(0x0383, 0);
    NoDigits();
  }

  lemma OneByteKeyStart()
    ensures Hex(0x44bd, 4) == "44bd" && Hex(0x8ad4, 4) == "8ad4"
  {
    hide Hex;
    FourMoreDigits(0x44bd, 0);
    FourMoreDigits(0x8ad4, 0);
    NoDigits();
  }

  lemma OneByteKeyEnd()
    ensures Hex(0x73cd, 4) == "73cd" && Hex(0x9906, 4) == "9906"
  {
    hide Hex;
    FourMoreDigits(0x73cd, 0);
    FourMoreDigits(0x9906, 0);
    NoDigits();
  }

  lemma NoDigits()
    ensures Hex(0, 0) == ""
  {
  }

  lemma {:induction false} XorNothing(a: nat)
    ensures XorOf(a, 0) == a
  {
    if a > 0 {
      XorNothing(a / 2);
    }
  }

  lemma XorBit(a: nat, b: nat, x: nat, y: nat)
    requires x < 2 && y < 2
    ensures XorOf(2 * a + x, 2 * b + y) == 2 * XorOf(a, b) + (x + y) % 2
  {
    hide XorOf;
    XorParts(2 * a + x, 2 * b + y);
  }

  /** The low eight bits of the basis are 1000 0011, those of `a` are 0110 0001. */
  lemma XorWithBasis(h: nat)
    ensures XorOf(256 * h + 0x83, 0x61) == 256 * h + 0xe2
  {
    hide XorOf;
    XorNothing(h);
    XorBit(h, 0, 1, 0);
    XorBit(2 * h + 1, 0, 0, 1);
    XorBit(4 * h + 2, 1, 0, 1);
    XorBit(8 * h + 4, 3, 0, 0);
    XorBit(16 * h + 8, 6, 0, 0);
    XorBit(32 * h + 16, 12, 0, 0);
    XorBit(64 * h + 32, 24, 1, 0);
    XorBit(128 * h + 65, 48, 1, 1);
  }

  lemma OneStep()
    ensures FnvStep(BASIS, 0x61) == 0x44bd8ad473cd9906
  {
    hide XorOf;
    XorWithBasis(BASIS / 256);
  }

  lemma Digits(n: nat, a: nat, b: nat, c: nat, d: nat)
    requires a < 65536 && b < 65536 && c < 65536 && d < 65536
    requires n == ((a * 65536 + b) * 65536 + c) * 65536 + d
    ensures Hex(n, 16) == Hex(a, 4) + Hex(b, 4) + Hex(c, 4) + Hex(d, 4)
  {
    hide HexDigit, Hex;
    LastFour(n, n / 65536, d, 12);
    LastFour(n / 65536, n / 65536 / 65536, c, 8);
    LastFour(n / 65536 / 65536, a, b, 4);
  }

  lemma LastFour(n: nat, high: nat, low: nat, k: nat)
    requires n == high * 65536 + low && low < 65536
    ensures Hex(n, k + 4) == Hex(high, k) + Hex(low, 4)
  {
    hide HexDigit, Hex;
    FourMoreDigits(n, k);
    FourMoreDigits(low, 0);
    SameDigits(high, low);
    NoDigits();
  }

  lemma SameDigits(high: nat, low: nat)
    requires low < 65536
    ensures var n := high * 65536 + low;
      && n / 65536 == high && low / 65536 == 0
      && n / 4096 % 16 == low / 4096 % 16 && n / 256 % 16 == low / 256 % 16
      && n / 16 % 16 == low / 16 % 16 && n % 16 == low % 16
  {
    var n := high * 65536 + low;
    MultipleAway(high * 16, low / 4096, low % 4096, 4096, n);
    MultipleAway(high * 256, low / 256, low % 256, 256, n);
    MultipleAway(high * 4096, low / 16, low % 16, 16, n);
    DigitStays(high, low / 4096);
    DigitStays(high * 16, low / 256);
    DigitStays(high * 256, low / 16);
    DigitStays(high * 4096, low);
  }

  lemma MultipleAway(m: nat, q: nat, r: nat, k: nat, n: nat)
    requires k > 0 && r < k && n == (m + q) * k + r
    ensures n / k == m + q
  {
    var t := n / k - (m + q);
    assert n == (n / k) * k + n % k;
    assert t * k == (n / k) * k - (m + q) * k;
    assert 0 - k < t * k < k;
    Between(t, k);
  }

  lemma Between(t: int, k: int)
    requires k > 0 && 0 - k < t * k < k
    ensures t == 0
  {
  }

  lemma DigitStays(h: nat, x: nat)
    ensures (h * 16 + x) % 16 == x % 16
  {
  }
}
