/** The Bloom filter: what its words hold after any run of additions and resets. */
module Bloom {
  import opened Basics

  const TWO_TO_64: nat := 0x1_0000_0000_0000_0000

  // ---- Words as sets of bits ----

  // A word is a number below 2 to the 64.

  /** Whether a bit of a word is set: the and with one shifted left is not zero. */
  predicate BitSet(w: nat, bit: nat) {
    if bit == 0 then w % 2 == 1 else BitSet(w / 2, bit - 1)
  }

  /** A word with a bit set: the or with one shifted left. */
  function WithBit(w: nat, bit: nat): nat {
    if bit == 0 then w / 2 * 2 + 1 else WithBit(w / 2, bit - 1) * 2 + w % 2
  }

  lemma {:induction false} BitAfter(w: nat, b: nat, c: nat)
    ensures BitSet(WithBit(w, b), c) <==> b == c || BitSet(w, c)
  {
    if b != 0 && c != 0 {
      BitAfter(w / 2, b - 1, c - 1);
    }
  }

  lemma {:induction false} NoBit(b: nat)
    ensures !BitSet(0, b)
  {
    if b != 0 {
      NoBit(b - 1);
    }
  }

  function Pow2(n: nat): nat {
    if n == 0 then 1 else 2 * Pow2(n - 1)
  }

  /** Setting one of n bits of a number of n bits gives a number of n bits. */
  lemma {:induction false} StaysInWord(w: nat, b: nat, n: nat)
    requires w < Pow2(n) && b < n
    ensures WithBit(w, b) < Pow2(n)
  {
    assert Pow2(n) == 2 * Pow2(n - 1);
    assert WithBit(w, b) == if b == 0 then w / 2 * 2 + 1 else WithBit(w / 2, b - 1) * 2 + w % 2;
    hide Pow2, WithBit;
    HalfBelow(w, Pow2(n - 1));
    if b != 0 {
      StaysInWord(w / 2, b - 1, n - 1);
    }
  }

  lemma HalfBelow(w: nat, p: nat)
    requires w < 2 * p
    ensures w / 2 < p && w / 2 * 2 + 1 < 2 * p && w % 2 <= 1
  {
  }

  lemma {:induction false} Pow2Sum(a: nat, b: nat)
    ensures Pow2(a + b) == Pow2(a) * Pow2(b)
  {
    if b != 0 {
      Pow2Sum(a, b - 1);
    }
  }

  lemma WordSize()
    ensures Pow2(64) == TWO_TO_64
  {
    assert Pow2(2) == 4;
    Pow2Sum(2, 2);
    Pow2Sum(4, 4);
    Pow2Sum(8, 8);
    Pow2Sum(16, 16);
    Pow2Sum(32, 32);
  }

  // ---- Probe positions ----

  /** The i-th position of a key, in 64-bit arithmetic that wraps. */
  function Probe(h1: nat, h2: nat, i: nat, m: nat): (pos: nat)
    requires 0 < m
    ensures pos < m
  {
    (h1 + i * h2) % TWO_TO_64 % m
  }

  /** The two hash values of a key are arbitrary. */
  datatype Config = Config(m: nat, k: nat, hash1: Key -> nat, hash2: Key -> nat)

  function Position(cfg: Config, key: Key, i: nat): (pos: nat)
    requires 0 < cfg.m
    ensures pos < cfg.m
  {
    Probe(cfg.hash1(key), cfg.hash2(key), i, cfg.m)
  }

  /** Starting at the first hash value and adding the second, in 64 bits, i times. */
  function Stepped(h1: nat, h2: nat, i: nat): nat {
    if i == 0 then h1 % TWO_TO_64 else (Stepped(h1, h2, i - 1) + h2) % TWO_TO_64
  }

  lemma {:induction false} ProbeIs(h1: nat, h2: nat, i: nat, m: nat)
    requires 0 < m
    ensures Probe(h1, h2, i, m) == Stepped(h1, h2, i) % m
  {
    SteppedIs(h1, h2, i);
  }

  lemma {:induction false} SteppedIs(h1: nat, h2: nat, i: nat)
    ensures Stepped(h1, h2, i) == (h1 + i * h2) % TWO_TO_64
  {
    if i != 0 {
      SteppedIs(h1, h2, i - 1);
      WrapLater(h1 + (i - 1) * h2, h2);
      assert h1 + (i - 1) * h2 + h2 == h1 + i * h2;
    }
  }

  lemma WrapLater(x: nat, y: nat)
    ensures (x % TWO_TO_64 + y) % TWO_TO_64 == (x + y) % TWO_TO_64
  {
    assert x == x / TWO_TO_64 * TWO_TO_64 + x % TWO_TO_64;
  }

  /** The bit that the i-th step of a key leads to. */
  function BitOf(cfg: Config, key: Key, i: nat): nat
    requires 0 < cfg.m
  {
    Stepped(cfg.hash1(key), cfg.hash2(key), i) % cfg.m
  }

  /** One of the k steps of one of these keys leads to the bit. */
  predicate SetBefore(cfg: Config, keys: seq<Key>, pos: nat)
    requires 0 < cfg.m
  {
    exists j, i :: 0 <= j < |keys| && 0 <= i < cfg.k && BitOf(cfg, keys[j], i) == pos
  }

  lemma SetBeforeIs(cfg: Config, keys: seq<Key>, key: Key, i: nat)
    requires 0 < cfg.m
    ensures BitOf(cfg, key, i) == Position(cfg, key, i)
    ensures SetBefore(cfg, keys, BitOf(cfg, key, i)) <==> ProbedByAny(cfg, keys, Position(cfg, key, i))
  {
    forall q, n: nat ensures BitOf(cfg, q, n) == Position(cfg, q, n) {
      ProbeIs(cfg.hash1(q), cfg.hash2(q), n, cfg.m);
    }
    hide BitOf, Position;
    var pos := Position(cfg, key, i);
    if j, n :| 0 <= j < |keys| && 0 <= n < cfg.k && BitOf(cfg, keys[j], n) == pos {
      assert Position(cfg, keys[j], n) == pos && Probed(cfg, keys[j], cfg.k, pos);
    }
  }

  /** Two keys whose first hash values agree are told apart by the second. */
  lemma ToldApart(a: Key, b: Key)
    requires a != b
    ensures var cfg := Config(64, 2, (_: Key) => 1, (k: Key) => if k == a then 2 else 3);
      && SetBefore(cfg, [a], BitOf(cfg, b, 0)) && !SetBefore(cfg, [a], BitOf(cfg, b, 1))
  {
    var cfg := Config(64, 2, (_: Key) => 1, (k: Key) => if k == a then 2 else 3);
    assert BitOf(cfg, a, 0) == 1 && BitOf(cfg, a, 1) == 3 && BitOf(cfg, b, 0) == 1 && BitOf(cfg, b, 1) == 4;
    hide BitOf;
    assert [a][0] == a;
  }

  /** pos is one of the first n probe positions of a key. */
  predicate Probed(cfg: Config, key: Key, n: nat, pos: nat)
    requires 0 < cfg.m
  {
    exists i :: 0 <= i < n && Position(cfg, key, i) == pos
  }

  /** pos is a probe position of one of these keys. */
  predicate ProbedByAny(cfg: Config, keys: seq<Key>, pos: nat)
    requires 0 < cfg.m
  {
    exists j :: 0 <= j < |keys| && Probed(cfg, keys[j], cfg.k, pos)
  }

  lemma ProbedNext(cfg: Config, key: Key, n: nat, pos: nat)
    requires 0 < cfg.m
    ensures Probed(cfg, key, n + 1, pos) <==> Probed(cfg, key, n, pos) || Position(cfg, key, n) == pos
  {
  }

  lemma AnyNext(cfg: Config, keys: seq<Key>, key: Key, pos: nat)
    requires 0 < cfg.m
    ensures ProbedByAny(cfg, keys + [key], pos) <==> ProbedByAny(cfg, keys, pos) || Probed(cfg, key, cfg.k, pos)
  {
    hide Probed;
    var more := keys + [key];
    if j :| 0 <= j < |keys| && Probed(cfg, keys[j], cfg.k, pos) {
      assert more[j] == keys[j];
    }
    assert more[|keys|] == key;
  }

  // ---- The filter ----

  /** The words hold the bits of exactly the positions below m that are in the set. */
  ghost predicate Holds(words: seq<nat>, m: nat, positions: set<nat>) {
    && m <= 64 * |words| && (forall i | 0 <= i < |words| :: words[i] < TWO_TO_64)
    && forall pos | 0 <= pos < m :: BitSet(words[pos / 64], pos % 64) <==> pos in positions
  }

  lemma SetOne(words: seq<nat>, m: nat, positions: set<nat>, pos: nat)
    requires Holds(words, m, positions) && pos < m
    ensures Holds(words[pos / 64 := WithBit(words[pos / 64], pos % 64)], m, positions + {pos})
  {
    hide BitSet, WithBit, Pow2;
    var words' := words[pos / 64 := WithBit(words[pos / 64], pos % 64)];
    WordSize();
    StaysInWord(words[pos / 64], pos % 64, 64);
    forall p | 0 <= p < m ensures BitSet(words'[p / 64], p % 64) <==> p in positions + {pos} {
      BitAfter(words[pos / 64], pos % 64, p % 64);
    }
  }

  class BloomFilter {
    const config: Config
    const bits: array<nat>
    var count: nat
    ghost var added: seq<Key>        // the keys added since the last reset

    ghost function Positions(): set<nat>
      reads this
      requires 0 < config.m
    {
      set pos: nat | pos < config.m && ProbedByAny(config, added, pos)
    }

    ghost predicate Valid()
      reads this, bits
    {
      && 0 < config.m && config.m + 63 < TWO_TO_64
      && bits.Length == (config.m + 63) / 64
      && count == |added| % TWO_TO_64
      && Holds(bits[..], config.m, Positions())
    }

    /** A filter of m bits, for the m and k that its sizing chose. */
    constructor (config: Config)
      requires 0 < config.m && config.m + 63 < TWO_TO_64
      ensures Valid() && fresh(bits) && this.config == config && added == []
    {
      this.config := config;
      bits := new nat[(config.m + 63) / 64](_ => 0);
      count, added := 0, [];
      new;
      hide BitSet;
      forall pos | 0 <= pos < config.m ensures !BitSet(bits[..][pos / 64], pos % 64) {
        NoBit(pos % 64);
      }
    }

    method SetBit(pos: nat, ghost positions: set<nat>)
      requires pos < config.m && Holds(bits[..], config.m, positions)
      modifies bits
      ensures Holds(bits[..], config.m, positions + {pos})
    {
      hide BitSet, WithBit;
      SetOne(bits[..], config.m, positions, pos);
      var idx := pos / 64;
      var bit := pos % 64;
      bits[idx] := WithBit(bits[idx], bit);
      assert bits[..] == old(bits[..])[idx := WithBit(old(bits[..])[idx], bit)];
    }

    /** Sets the positions of a key. */
    method Add(key: Key)
      requires Valid()
      modifies this, bits
      ensures Valid() && added == old(added) + [key]
    {
      hide Holds, Position, Probed, ProbedByAny;
      ghost var before, now := Positions(), Positions();
      ProbedNone(config, key);
      for i := 0 to config.k
        invariant Holds(bits[..], config.m, now)
        invariant added == old(added) && count == old(count)
        invariant forall pos :: pos in now <==> pos in before || (0 <= pos < config.m && Probed(config, key, i, pos))
      {
        var pos := Position(config, key, i);
        forall p | 0 <= p ensures Probed(config, key, i + 1, p) <==> Probed(config, key, i, p) || pos == p {
          ProbedNext(config, key, i, p);
        }
        SetBit(pos, now);
        now := now + {pos};
      }
      count := (count + 1) % TWO_TO_64;
      forall p | 0 <= p
        ensures ProbedByAny(config, added + [key], p) <==>
          ProbedByAny(config, added, p) || Probed(config, key, config.k, p)
      {
        AnyNext(config, added, key, p);
      }
      added := added + [key];
      assert now == Positions();
    }

    /** A key is in the filter exactly if all its positions were set for keys added
        since the last reset; an added key always is. */
    method Contains(key: Key) returns (found: bool)
      requires Valid()
      ensures found <==> forall i | 0 <= i < config.k :: SetBefore(config, added, BitOf(config, key, i))
      ensures key in added ==> found
    {
      hide BitSet, Position, Probed, ProbedByAny, BitOf, SetBefore;
      for i := 0 to config.k
        invariant forall j | 0 <= j < i :: SetBefore(config, added, BitOf(config, key, j))
      {
        var pos := Position(config, key, i);
        SetBeforeIs(config, added, key, i);
        assert bits[..][pos / 64] == bits[pos / 64];
        if key in added {
          AddedProbed(config, added, key, i);
        }
        if !BitSet(bits[pos / 64], pos % 64) {
          return false;
        }
      }
      return true;
    }

    /** Forgets everything. */
    method Reset()
      requires Valid()
      modifies this, bits
      ensures Valid() && added == []
    {
      hide BitSet, Position, Probed;
      for i := 0 to bits.Length
        modifies bits
        invariant forall j | 0 <= j < i :: bits[j] == 0
      {
        bits[i] := 0;
      }
      count, added := 0, [];
      forall pos | 0 <= pos < config.m ensures !BitSet(bits[..][pos / 64], pos % 64) {
        NoBit(pos % 64);
      }
    }
  }

  lemma ProbedNone(cfg: Config, key: Key)
    requires 0 < cfg.m
    ensures forall pos :: !Probed(cfg, key, 0, pos)
  {
  }

  lemma AddedProbed(cfg: Config, keys: seq<Key>, key: Key, i: nat)
    requires 0 < cfg.m && key in keys && i < cfg.k
    ensures ProbedByAny(cfg, keys, Position(cfg, key, i))
  {
    var j :| 0 <= j < |keys| && keys[j] == key;
    assert Probed(cfg, keys[j], cfg.k, Position(cfg, key, i));
  }
}
