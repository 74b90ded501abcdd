/** How a key finds its bucket. */
module Hashing {
  import opened Basics

  /** x as a signed 32-bit integer. */
  function Wrap32(x: int): (r: int)
    ensures -0x8000_0000 <= r < 0x8000_0000
    ensures (r - x) % 0x1_0000_0000 == 0
  {
    (x + 0x8000_0000) % 0x1_0000_0000 - 0x8000_0000
  }

  /** The BKDR hash of a byte string in wrapping 32-bit arithmetic. */
  function Bkdr(s: Key): int {
    if s == [] then 0 else Wrap32(Bkdr(s[..|s| - 1]) * 131 + s[|s| - 1] as int)
  }

  method HashBkdr(s: Key) returns (hash: int)
    ensures hash == Bkdr(s)
  {
    hash := 0;
    for i := 0 to |s|
      invariant hash == Bkdr(s[..i])
    {
      assert s[..i + 1][..i] == s[..i];
      hash := Wrap32(hash * 131 + s[i] as int);
    }
    assert s[..|s|] == s;
  }

  /** Bitwise and of a two's complement integer, negative ones included, with a
      mask that is not negative. */
  function And(x: int, mask: nat): (r: nat)
    ensures r <= mask
    decreases mask
  {
    if mask == 0 then 0 else x % 2 * (mask % 2) + 2 * And(x / 2, mask / 2)
  }

  /** The bucket of a key. */
  function BucketOf(k: Key, mask: nat): (i: nat)
    ensures i <= mask
  {
    And(Bkdr(k), mask)
  }

  function Power(b: nat, n: nat): nat {
    if n == 0 then 1 else b * Power(b, n - 1)
  }

  /** The bytes of a key as the digits of a number to the base 131. */
  function Digits(s: Key): nat {
    if s == [] then 0 else s[0] as nat * Power(131, |s| - 1) + Digits(s[1..])
  }

  lemma {:induction false} DigitsSnoc(s: Key, c: byte)
    ensures Digits(s + [c]) == Digits(s) * 131 + c as nat
  {
    if s == [] {
      assert [c][1..] == [] && Power(131, 0) == 1;
    } else {
      DigitsSnoc(s[1..], c);
      assert (s + [c])[1..] == s[1..] + [c];
      assert Power(131, |s|) == 131 * Power(131, |s| - 1);
      Shifted(s[0] as nat, Power(131, |s| - 1));
    }
  }

  lemma Shifted(c: nat, p: nat)
    ensures c * (131 * p) == c * p * 131
  {
  }

  /** The hash of a key is that number, wrapped to 32 bits once, at the end. */
  lemma {:induction false} BkdrIs(s: Key)
    ensures Bkdr(s) == Wrap32(Digits(s))
  {
    if s != [] {
      var k := |s| - 1;
      BkdrIs(s[..k]);
      assert s == s[..k] + [s[k]];
      DigitsSnoc(s[..k], s[k]);
      hide Wrap32, Digits;
      WrapOnce(Digits(s[..k]), s[k] as int);
    }
  }

  lemma WrapOnce(d: int, c: int)
    ensures Wrap32(Wrap32(d) * 131 + c) == Wrap32(d * 131 + c)
  {
    var h := Wrap32(d);
    hide Wrap32;
    var q := (h - d) / 0x1_0000_0000;
    assert h == d + q * 0x1_0000_0000;
    SameWrap(h * 131 + c, d * 131 + c, 131 * q);
  }

  lemma SameWrap(x: int, y: int, q: int)
    requires x == y + q * 0x1_0000_0000
    ensures Wrap32(x) == Wrap32(y)
  {
  }

  predicate PowerOf2(n: nat) {
    n == 1 || (0 < n && n % 2 == 0 && PowerOf2(n / 2))
  }

  lemma MultipleBounds(d: int, n: nat)
    ensures 1 <= d ==> n <= d * n
    ensures d <= -1 ==> d * n <= 0 - n
  {
    if 1 <= d {
      assert (d - 1) * n >= 0;
    } else if d <= -1 {
      assert (-1 - d) * n >= 0;
    }
  }

  lemma QuotientUnique(n: nat, q: int, r: int, p: int, t: int)
    requires 0 <= r < n && 0 <= t < n && q * n + r == p * n + t
    ensures q == p && r == t
  {
    MultipleBounds(q - p, n);
    assert (q - p) * n == q * n - p * n;
  }

  /** Doubling the divisor: the new remainder is read off the parity and the old one. */
  lemma ModDouble(x: int, n: nat)
    requires 0 < n
    ensures x % (2 * n) == 2 * (x / 2 % n) + x % 2
  {
    var h := x / 2;
    var q, r := h / n, h % n;
    assert h == q * n + r;
    assert q * (2 * n) == 2 * (q * n);
    QuotientUnique(2 * n, q, 2 * r + x % 2, x / (2 * n), x % (2 * n));
  }

  /** Under a mask of ones, the bucket is the hash modulo the number of buckets,
      so it depends on the low bits only and every bucket is used. */
  lemma {:induction false} AndIsMod(x: int, mask: nat)
    requires PowerOf2(mask + 1)
    ensures And(x, mask) == x % (mask + 1)
    decreases mask
  {
    if mask != 0 {
      AndIsMod(x / 2, mask / 2);
      ModDouble(x, mask / 2 + 1);
      assert mask + 1 == 2 * (mask / 2 + 1);
    }
  }

  predicate LowBits(mask: bv16) {
    mask & (mask + 1) == 0
  }

  /** The mask is all ones below some bit, and it is the least such mask that
      leaves room for cap buckets. */
  predicate LeastMask(mask: bv16, cap: bv16) {
    && LowBits(mask)
    && (cap <= mask || cap - 1 == mask || cap == 0)
    && (mask == 0 || mask >> 1 < cap - 1)
  }

  method MaskOfNextPowOf2(cap: bv16) returns (mask: bv16)
    ensures LeastMask(mask, cap)
    ensures cap <= 0x8000 ==> mask <= 0x7fff
  {
    if cap > 0 && cap & (cap - 1) == 0 {
      return cap - 1;
    }
    mask := cap;
    mask := mask | (mask >> 1);
    mask := mask | (mask >> 2);
    mask := mask | (mask >> 4);
    return mask | (mask >> 8);
  }

  /** Read as a number, such a mask is one less than a power of two. */
  lemma LowBitsPower(mask: bv16)
    requires LowBits(mask)
    ensures PowerOf2(mask as nat + 1)
    ensures mask <= 0x7fff ==> mask as nat <= 0x7fff
  {
    assert mask == 0 || mask == 1 || mask == 3 || mask == 7 || mask == 0xf || mask == 0x1f || mask == 0x3f
      || mask == 0x7f || mask == 0xff || mask == 0x1ff || mask == 0x3ff || mask == 0x7ff || mask == 0xfff
      || mask == 0x1fff || mask == 0x3fff || mask == 0x7fff || mask == 0xffff;
    assert PowerOf2(1) && PowerOf2(2) && PowerOf2(4) && PowerOf2(8) && PowerOf2(16) && PowerOf2(32);
    assert PowerOf2(64) && PowerOf2(128) && PowerOf2(256) && PowerOf2(512) && PowerOf2(1024);
    assert PowerOf2(2048) && PowerOf2(4096) && PowerOf2(8192) && PowerOf2(16384) && PowerOf2(32768);
    assert PowerOf2(65536);
  }
}
