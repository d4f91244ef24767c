/** MT19937 with all its parameters written out: the recurrences of the stream and of the two ways to
    seed it, on plain bit-vector expressions, and that the other modules compute these. */
module MersenneParameters {
  import opened MersenneRounds
  import opened MersenneSeeding
  import opened MersenneStream
  import opened MersenneWords

  // ---------- the parameters ----------

  /** Word k+624 of the stream from words k, k+1 and k+397. */
  function TwistedWord(u: bv32, l: bv32, m: bv32): bv32 {
    var y := (u & 0x80000000) | (l & 0x7fffffff);
    if y & 1 == 0 then m ^ (y >> 1) else m ^ (y >> 1) ^ 0x9908b0df
  }

  /** `a`, `b` and `c` are what the first three lines of the tempering of w give, and `r` its result. */
  predicate TemperedBy(w: bv32, a: bv32, b: bv32, c: bv32, r: bv32) {
    && a == w ^ (w >> 11)
    && b == a ^ ((a << 7) & 0x9d2c5680)
    && c == b ^ ((b << 15) & 0xefc60000)
    && r == c ^ (c >> 18)
  }

  /** The word written before, folded, and the products of the three seeding loops with it. */
  function Folded(v: bv32): bv64 { v as bv64 ^ (v as bv64 >> 30) }
  function SeedProduct(x: bv64): bv64 { 1812433253 * x }
  function KeyProduct(x: bv64): bv64 { x * 1664525 }
  function IndexProduct(x: bv64): bv64 { x * 1566083941 }

  /** A word that is replaced, mixed with a product. */
  function Crossed(w: bv32, t: bv64): bv64 { w as bv64 ^ t }

  /** The words the three loops write: with position i, with word j of the key, and less position i. */
  function SeededWord(x: bv64, i: bv64): bv32 { ((x + i) & 0xffffffff) as bv32 }
  function KeyedWord(x: bv64, key: bv64, j: bv64): bv32 { ((x + key + j) & 0xffffffff) as bv32 }
  function IndexedWord(x: bv64, i: bv64): bv32 { ((x - i) & 0xffffffff) as bv32 }

  // ---------- the stream ----------

  lemma TwistIs(u: bv32, l: bv32, m: bv32)
    ensures Xor32(m, TwistOf(Join(u, l))) == TwistedWord(u, l, m)
  {
    var y := (u & 0x80000000) | (l & 0x7fffffff);
    JoinIs(u, l);
    TwistBits(y);
    XorIs(m, TwistOf(y));
    XorGroups(m, y >> 1);
  }

  lemma JoinIs(u: bv32, l: bv32)
    ensures Join(u, l) == (u & 0x80000000) | (l & 0x7fffffff)
  {
  }

  lemma XorIs(v: bv32, w: bv32)
    ensures Xor32(v, w) == v ^ w
  {
  }

  lemma XorGroups(m: bv32, h: bv32)
    ensures m ^ (h ^ 0x9908b0df) == m ^ h ^ 0x9908b0df
  {
  }

  /** The stream starts with the 624 words of the state, and word k+624 comes from words k, k+1 and k+397. */
  lemma WordIs(init: seq<bv32>, k: nat)
    requires |init| == 624
    ensures k < 624 ==> X(init, k) == init[k]
    ensures X(init, k + 624) == TwistedWord(X(init, k), X(init, k + 1), X(init, k + 397))
  {
    NextWord(init, k);
    TwistIs(X(init, k), X(init, k + 1), X(init, k + 397));
  }

  lemma Line11Is(w: bv32)
    ensures Line11(w) == w ^ (w >> 11)
  {
  }

  lemma Line7Is(w: bv32)
    ensures Line7(w) == w ^ ((w << 7) & 0x9d2c5680)
  {
  }

  lemma Line15Is(w: bv32)
    ensures Line15(w) == w ^ ((w << 15) & 0xefc60000)
  {
  }

  lemma Line18Is(w: bv32)
    ensures Line18(w) == w ^ (w >> 18)
  {
  }

  lemma TemperIs(w: bv32, a: bv32, b: bv32, c: bv32)
    requires a == Line11(w) && b == Line7(a) && c == Line15(b)
    ensures TemperedBy(w, a, b, c, Temper(w))
  {
    Line11Is(w);
    Line7Is(a);
    Line15Is(b);
    Line18Is(c);
  }

  /** Output i is word 624 + i of the stream, tempered. */
  lemma OutputIs(init: seq<bv32>, i: nat) returns (a: bv32, b: bv32, c: bv32)
    requires |init| == 624
    ensures TemperedBy(X(init, 624 + i), a, b, c, Output(init, i))
  {
    a := Line11(X(init, 624 + i));
    b := Line7(a);
    c := Line15(b);
    TemperIs(X(init, 624 + i), a, b, c);
  }

  /** The next output after 624 outputs, computed from three of them alone. */
  lemma NextOutput(init: seq<bv32>, i: nat) returns (w: bv32, a: bv32, b: bv32, c: bv32)
    requires |init| == 624
    ensures w == TwistedWord(Untemper(Output(init, i)), Untemper(Output(init, i + 1)), Untemper(Output(init, i + 397)))
    ensures TemperedBy(w, a, b, c, Output(init, i + 624))
  {
    WordFromOutput(init, i);
    WordFromOutput(init, i + 1);
    WordFromOutput(init, i + 397);
    WordIs(init, 624 + i);
    w := X(init, 624 + (i + 624));
    a, b, c := OutputIs(init, i + 624);
  }

  // ---------- seeding with a number ----------

  lemma WideIs(w: bv32)
    ensures Wide(w) == w as bv64
  {
  }

  lemma FoldIs(x: bv64)
    ensures Fold(x) == x ^ (x >> 30)
  {
  }

  lemma FoldedInline(v: bv32)
    ensures Folded(v) == v as bv64 ^ (v as bv64 >> 30)
  {
  }

  lemma FoldedIs(v: bv32)
    ensures Fold(Wide(v)) == Folded(v)
  {
    WideIs(v);
    FoldIs(v as bv64);
    FoldedInline(v);
  }

  lemma SeedProductIs(x: bv64)
    ensures TimesSeed(x) == SeedProduct(x)
  {
  }

  lemma SeededInline(t: bv64, i: bv64)
    ensures SeededWord(t, i) == ((t + i) & 0xffffffff) as bv32
  {
  }

  lemma SeededIs(t: bv64, i: bv64)
    ensures Low(Plus(t, i)) == SeededWord(t, i)
  {
    PlusIs(t, i);
    LowIs(t + i);
    SeededInline(t, i);
  }

  lemma SeedStepIs(v: bv32, i: bv64)
    ensures NextSeed32(v, Low(i)) == SeededWord(SeedProduct(Folded(v)), i)
  {
    WideFold(v);
    LowWide(Fold32(v));
    LowTimesSeed(Fold(Wide(v)));
    LowPlus(TimesSeed(Fold(Wide(v))), i);
    FoldedIs(v);
    SeedProductIs(Folded(v));
    SeededIs(SeedProduct(Folded(v)), i);
  }

  /** The state of seed s starts with s, and each word comes from the one before it. */
  lemma SeedStateIs(s: bv32, i: nat)
    requires 1 <= i < 624
    ensures |SeedState(s)| == 624 && SeedState(s)[0] == s
    ensures SeedState(s)[i] == SeededWord(SeedProduct(Folded(SeedState(s)[i - 1])), i as bv64)
  {
    SeedStepIs(SeedState(s)[i - 1], i as bv64);
  }

  // ---------- seeding with an array ----------

  lemma KeyProductIs(x: bv64)
    ensures TimesKey(x) == KeyProduct(x)
  {
  }

  lemma IndexProductIs(x: bv64)
    ensures TimesIndex(x) == IndexProduct(x)
  {
  }

  lemma WideXorIs(x: bv64, y: bv64)
    ensures Xor(x, y) == x ^ y
  {
  }

  lemma CrossedInline(w: bv32, t: bv64)
    ensures Crossed(w, t) == w as bv64 ^ t
  {
  }

  lemma CrossedIs(w: bv32, t: bv64)
    ensures Xor(Wide(w), t) == Crossed(w, t)
  {
    WideIs(w);
    WideXorIs(w as bv64, t);
    CrossedInline(w, t);
  }

  lemma KeyedInline(x: bv64, key: bv64, j: bv64)
    ensures KeyedWord(x, key, j) == ((x + key + j) & 0xffffffff) as bv32
  {
  }

  lemma KeyedIs(x: bv64, key: bv64, j: bv64)
    ensures Low(Plus(Plus(x, key), j)) == KeyedWord(x, key, j)
  {
    PlusIs(x, key);
    PlusIs(x + key, j);
    LowIs(x + key + j);
    KeyedInline(x, key, j);
  }

  lemma IndexedInline(x: bv64, i: bv64)
    ensures IndexedWord(x, i) == ((x - i) & 0xffffffff) as bv32
  {
  }

  lemma IndexedIs(x: bv64, i: bv64)
    ensures Low(Minus(x, i)) == IndexedWord(x, i)
  {
    MinusIs(x, i);
    LowIs(x - i);
    IndexedInline(x, i);
  }

  lemma KeyStepIs(w: bv32, v: bv32, key: bv32, j: bv64)
    ensures MixKey32(w, v, key, Low(j)) == KeyedWord(Crossed(w, KeyProduct(Folded(v))), key as bv64, j)
  {
    var t := TimesKey(Fold(Wide(v)));
    WideFold(v);
    LowWide(Fold32(v));
    LowTimesKey(Fold(Wide(v)));
    LowWide(w);
    LowXor(Wide(w), t);
    LowWide(key);
    WideIs(key);
    LowPlus(Xor(Wide(w), t), Wide(key));
    LowPlus(Plus(Xor(Wide(w), t), Wide(key)), j);
    FoldedIs(v);
    KeyProductIs(Folded(v));
    CrossedIs(w, t);
    KeyedIs(Crossed(w, t), Wide(key), j);
  }

  lemma IndexStepIs(w: bv32, v: bv32, i: bv64)
    ensures MixIndex32(w, v, Low(i)) == IndexedWord(Crossed(w, IndexProduct(Folded(v))), i)
  {
    var t := TimesIndex(Fold(Wide(v)));
    WideFold(v);
    LowWide(Fold32(v));
    LowTimesIndex(Fold(Wide(v)));
    LowWide(w);
    LowXor(Wide(w), t);
    LowMinus(Xor(Wide(w), t), i);
    FoldedIs(v);
    IndexProductIs(Folded(v));
    CrossedIs(w, t);
    IndexedIs(Crossed(w, t), i);
  }

  /** The steps of the two loops go round positions 1 to 623. */
  lemma {:induction false} PositionIs(t: nat)
    requires t >= 1
    ensures Position(t) == (t - 1) % 623 + 1
  {
    if t < 624 {
      PositionStart(t);
      ModuloUnique(t - 1, 623, 0, t - 1);
    } else {
      PositionRepeats(t);
      PositionIs(t - 623);
      ModuloRepeats(t - 1, 623);
    }
  }

  /** And round the key. */
  lemma {:induction false} KeyIndexIs(t: nat, length: nat)
    requires t >= 1 && length >= 1
    ensures KeyIndex(t, length) == (t - 1) % length
  {
    if t > 1 {
      KeyIndexIs(t - 1, length);
      NextModulo(t - 2, length);
    }
  }

  lemma NextModulo(x: nat, n: nat)
    requires n >= 1
    ensures (x + 1) % n == if x % n + 1 >= n then 0 else x % n + 1
  {
    var q, r := x / n, x % n;
    if r + 1 >= n {
      assert x + 1 == n * (q + 1);
      ModuloUnique(x + 1, n, q + 1, 0);
    } else {
      ModuloUnique(x + 1, n, q, r + 1);
    }
  }

  lemma ModuloRepeats(x: nat, n: nat)
    requires 1 <= n <= x
    ensures x % n == (x - n) % n
  {
    var q, r := (x - n) / n, (x - n) % n;
    assert x == n * (q + 1) + r;
    ModuloUnique(x, n, q + 1, r);
  }

  lemma ModuloUnique(x: nat, n: nat, q: nat, r: nat)
    requires r < n && x == n * q + r
    ensures x % n == r
  {
    var d := x / n - q;
    assert n * d == r - x % n;
    Between(n, d);
  }

  lemma Between(n: int, d: int)
    requires 0 < n && 0 - n < n * d < n
    ensures d == 0
  {
    if d >= 1 { MulAtLeast(n, d); } else if d <= -1 { MulAtLeast(n, -d); }
  }

  lemma MulAtLeast(n: int, d: int)
    requires n >= 0 && d >= 1
    ensures n * d >= n
  {
  }

  /** What a step of the first loop writes, from the word w it replaces, the word v written before and
      word j of the key; and a step of the second loop, at position i. */
  ghost function FirstLoop(w: bv32, v: bv32, key: bv32, j: nat): bv32
    requires j < 0x8000_0000
  {
    KeyedWord(Crossed(w, KeyProduct(Folded(v))), key as bv64, j as bv64)
  }

  ghost function SecondLoop(w: bv32, v: bv32, i: nat): bv32
    requires i < 0x8000_0000
  {
    IndexedWord(Crossed(w, IndexProduct(Folded(v))), i as bv64)
  }

  /** The word that step t replaces, by position and round. */
  ghost function OldWord(key: seq<bv32>, t: nat): bv32
    requires IsKey(key) && t >= 1
  {
    if t < 624 then SeedState(19650218)[t] else Mixed(key, t - 623)
  }

  lemma KeyMixing(key: seq<bv32>, t: nat, w: bv32, v: bv32, j: nat)
    requires IsKey(key) && 1 <= t <= KeySteps(key) && j == KeyIndex(t, |key|)
    ensures Mixing(key)(t, w, v) == MixKey32(w, v, key[j], Low(j as bv64))
  {
  }

  lemma IndexMixing(key: seq<bv32>, t: nat, w: bv32, v: bv32, i: nat)
    requires IsKey(key) && t > KeySteps(key) && i == Position(t)
    ensures Mixing(key)(t, w, v) == MixIndex32(w, v, Low(i as bv64))
  {
  }

  lemma FirstLoopMixes(key: seq<bv32>, t: nat, w: bv32, v: bv32, j: nat)
    requires IsKey(key) && 1 <= t <= KeySteps(key) && j == KeyIndex(t, |key|)
    ensures Mixing(key)(t, w, v) == FirstLoop(w, v, key[j], j)
  {
    KeyMixing(key, t, w, v, j);
    KeyStepIs(w, v, key[j], j as bv64);
  }

  lemma SecondLoopMixes(key: seq<bv32>, t: nat, w: bv32, v: bv32, i: nat)
    requires IsKey(key) && t > KeySteps(key) && i == Position(t)
    ensures Mixing(key)(t, w, v) == SecondLoop(w, v, i)
  {
    IndexMixing(key, t, w, v, i);
    IndexStepIs(w, v, i as bv64);
  }

  lemma MixedStep(key: seq<bv32>, t: nat)
    requires IsKey(key) && t >= 1
    ensures Mixed(key, t) == Mixing(key)(t, Replaced(Start(), Mixing(key), t), Mixed(key, t - 1))
  {
    WrittenIs(Start(), Mixing(key), t);
  }

  lemma StartIs(key: seq<bv32>, t: nat)
    requires IsKey(key) && t >= 1
    ensures Mixed(key, 0) == SeedState(19650218)[0]
    ensures Replaced(Start(), Mixing(key), t) == OldWord(key, t)
  {
  }

  /** The words the two loops of init_by_array write, one after the other: the first takes 624 steps or
      one per word of the key, whichever is more. */
  lemma KeyWordsAre(key: seq<bv32>, t: nat)
    requires IsKey(key) && t >= 1
    ensures Mixed(key, 0) == SeedState(19650218)[0]
    ensures t <= 624 || t <= |key| ==>
      Mixed(key, t) == FirstLoop(OldWord(key, t), Mixed(key, t - 1), key[(t - 1) % |key|], (t - 1) % |key|)
    ensures 624 < t && |key| < t ==>
      Mixed(key, t) == SecondLoop(OldWord(key, t), Mixed(key, t - 1), (t - 1) % 623 + 1)
  {
    StartIs(key, t);
    MixedStep(key, t);
    if t <= KeySteps(key) {
      KeyIndexIs(t, |key|);
      FirstLoopMixes(key, t, OldWord(key, t), Mixed(key, t - 1), (t - 1) % |key|);
    } else {
      PositionIs(t);
      SecondLoopMixes(key, t, OldWord(key, t), Mixed(key, t - 1), (t - 1) % 623 + 1);
    }
  }

  /** The state of a key is the top bit and then the last 623 of these words, each in its position. */
  lemma KeyStateIs(key: seq<bv32>, t: nat)
    requires IsKey(key)
    requires (624 < t <= 624 + 623 && |key| <= 624) || (|key| < t <= |key| + 623 && 624 <= |key|)
    ensures |KeyState(key)| == 624 && KeyState(key)[0] == 0x80000000
    ensures KeyState(key)[(t - 1) % 623 + 1] == Mixed(key, t)
  {
    PositionIs(t);
    StateIsLastWords(key, t);
  }
}
