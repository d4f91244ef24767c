/** The word operations of MT19937: the 64-bit computation of the program and the 32-bit words it
    stands for. */
module MersenneWords {
  /** The 32-bit word in an unsigned long, and an unsigned long that holds a 32-bit word. */
  function Low(x: bv64): bv32 { (x & 0xffffffff) as bv32 }

  function Wide(w: bv32): bv64 { w as bv64 }

  lemma LowWide(w: bv32)
    ensures Low(Wide(w)) == w
  {
  }

  /** Masking leaves the low word. */
  lemma MaskIsLow(x: bv64)
    ensures Mask(x) == Wide(Low(x))
  {
  }

  // ---------- arithmetic on unsigned long, and on 32-bit words ----------

  function Plus(x: bv64, y: bv64): bv64 { x + y }
  function Plus32(v: bv32, w: bv32): bv32 { v + w }
  function Minus(x: bv64, y: bv64): bv64 { x - y }
  function Minus32(v: bv32, w: bv32): bv32 { v - w }
  function Xor(x: bv64, y: bv64): bv64 { x ^ y }
  function Xor32(v: bv32, w: bv32): bv32 { v ^ w }
  function TimesSeed(x: bv64): bv64 { 1812433253 * x }
  function TimesSeed32(w: bv32): bv32 { 1812433253 * w }
  function TimesKey(x: bv64): bv64 { x * 1664525 }
  function TimesKey32(w: bv32): bv32 { w * 1664525 }
  function TimesIndex(x: bv64): bv64 { x * 1566083941 }
  function TimesIndex32(w: bv32): bv32 { w * 1566083941 }
  function Fold(x: bv64): bv64 { x ^ (x >> 30) }
  function Fold32(w: bv32): bv32 { w ^ (w >> 30) }
  function Mask(x: bv64): bv64 { x & 0xffffffff }

  lemma LowIs(x: bv64)
    ensures Low(x) == (x & 0xffffffff) as bv32
  {
  }

  lemma LowOfSum(x: bv64, y: bv64)
    ensures Low(x + y) == (x & 0xffffffff) as bv32 + (y & 0xffffffff) as bv32
  {
  }

  lemma LowOfDifference(x: bv64, y: bv64)
    ensures Low(x - y) == (x & 0xffffffff) as bv32 - (y & 0xffffffff) as bv32
  {
  }

  /** Taking the low word commutes with the arithmetic. */
  lemma LowPlus(x: bv64, y: bv64)
    ensures Low(Plus(x, y)) == Plus32(Low(x), Low(y))
  {
    LowIs(x);
    LowIs(y);
    LowOfSum(x, y);
    PlusIs(x, y);
    Plus32Is((x & 0xffffffff) as bv32, (y & 0xffffffff) as bv32);
  }

  lemma PlusIs(x: bv64, y: bv64)
    ensures Plus(x, y) == x + y
  {
  }

  lemma Plus32Is(v: bv32, w: bv32)
    ensures Plus32(v, w) == v + w
  {
  }

  lemma LowMinus(x: bv64, y: bv64)
    ensures Low(Minus(x, y)) == Minus32(Low(x), Low(y))
  {
    LowIs(x);
    LowIs(y);
    LowOfDifference(x, y);
    MinusIs(x, y);
    Minus32Is((x & 0xffffffff) as bv32, (y & 0xffffffff) as bv32);
  }

  lemma MinusIs(x: bv64, y: bv64)
    ensures Minus(x, y) == x - y
  {
  }

  lemma Minus32Is(v: bv32, w: bv32)
    ensures Minus32(v, w) == v - w
  {
  }

  lemma LowXor(x: bv64, y: bv64)
    ensures Low(Xor(x, y)) == Xor32(Low(x), Low(y))
  {
  }

  lemma LowTimesSeed(x: bv64)
    ensures Low(TimesSeed(x)) == TimesSeed32(Low(x))
  {
    assert Low(x) == (x & 0xffffffff) as bv32 && TimesSeed(x) == 1812433253 * x;
    assert Low(1812433253 * x) == 1812433253 * (x & 0xffffffff) as bv32;
    assert TimesSeed32((x & 0xffffffff) as bv32) == 1812433253 * (x & 0xffffffff) as bv32;
  }

  lemma LowTimesKey(x: bv64)
    ensures Low(TimesKey(x)) == TimesKey32(Low(x))
  {
    assert Low(x) == (x & 0xffffffff) as bv32 && TimesKey(x) == x * 1664525;
    assert Low(x * 1664525) == (x & 0xffffffff) as bv32 * 1664525;
    assert TimesKey32((x & 0xffffffff) as bv32) == (x & 0xffffffff) as bv32 * 1664525;
  }

  lemma LowTimesIndex(x: bv64)
    ensures Low(TimesIndex(x)) == TimesIndex32(Low(x))
  {
    assert Low(x) == (x & 0xffffffff) as bv32 && TimesIndex(x) == x * 1566083941;
    assert Low(x * 1566083941) == (x & 0xffffffff) as bv32 * 1566083941;
    assert TimesIndex32((x & 0xffffffff) as bv32) == (x & 0xffffffff) as bv32 * 1566083941;
  }

  /** And with folding, on words below 2^32. */
  lemma WideFold(w: bv32)
    ensures Fold(Wide(w)) == Wide(Fold32(w))
  {
  }

  // ---------- seeding ----------

  /** One step of init_genrand, masked to 32 bits, and in 32-bit arithmetic. */
  function NextSeed(x: bv64, i: bv64): bv64 { Mask(Plus(TimesSeed(Fold(x)), i)) }

  function NextSeed32(w: bv32, i: bv32): bv32 { Plus32(TimesSeed32(Fold32(w)), i) }

  /** A step of the first loop of init_by_array. */
  function MixKey(x: bv64, prev: bv64, key: bv64, j: bv64): bv64 {
    Mask(Plus(Plus(Xor(x, TimesKey(Fold(prev))), key), j))
  }

  function MixKey32(v: bv32, w: bv32, key: bv32, j: bv32): bv32 {
    Plus32(Plus32(Xor32(v, TimesKey32(Fold32(w))), key), j)
  }

  /** A step of its second loop. */
  function MixIndex(x: bv64, prev: bv64, i: bv64): bv64 { Mask(Minus(Xor(x, TimesIndex(Fold(prev))), i)) }

  function MixIndex32(v: bv32, w: bv32, i: bv32): bv32 { Minus32(Xor32(v, TimesIndex32(Fold32(w))), i) }

  /** What each step does with its product, whatever 64-bit product t that is: masked, it is the 32-bit
      step from the low word of t. */
  lemma NextSeedIs32(t: bv64, i: bv64)
    ensures Mask(Plus(t, i)) == Wide(Plus32(Low(t), Low(i)))
  {
    LowPlus(t, i);
    MaskIsLow(Plus(t, i));
  }

  lemma MixKeyIs32(v: bv32, t: bv64, key: bv64, j: bv64)
    ensures Mask(Plus(Plus(Xor(Wide(v), t), key), j)) == Wide(Plus32(Plus32(Xor32(v, Low(t)), Low(key)), Low(j)))
  {
    LowWide(v);
    LowXor(Wide(v), t);
    LowPlus(Xor(Wide(v), t), key);
    NextSeedIs32(Plus(Xor(Wide(v), t), key), j);
  }

  lemma MixIndexIs32(v: bv32, t: bv64, i: bv64)
    ensures Mask(Minus(Xor(Wide(v), t), i)) == Wide(Minus32(Xor32(v, Low(t)), Low(i)))
  {
    LowWide(v);
    LowXor(Wide(v), t);
    LowMinus(Xor(Wide(v), t), i);
    MaskIsLow(Minus(Xor(Wide(v), t), i));
  }

  // ---------- twist ----------

  /** The top bit of u with the other bits of l. */
  function Join(u: bv32, l: bv32): bv32 { (u & 0x80000000) | (l & 0x7fffffff) }

  function Half32(y: bv32): bv32 { y >> 1 }
  function Mag32(y: bv32): bv32 { if y & 1 == 0 then 0 else 0x9908b0df }

  function TwistOf(y: bv32): bv32 { Xor32(Half32(y), Mag32(y)) }

  /** One word of the block: the two lines of each loop of genrand_int32. */
  function JoinWide(u: bv64, l: bv64): bv64 { (u & 0x80000000) | (l & 0x7fffffff) }
  function Half(y: bv64): bv64 { y >> 1 }
  function Mag(y: bv64): bv64 { if y & 1 == 0 then 0 else 0x9908b0df }

  function TwistWide(u: bv64, l: bv64, m: bv64): bv64 {
    var y := JoinWide(u, l);
    Xor(Xor(m, Half(y)), Mag(y))
  }

  lemma WideJoin(u: bv32, l: bv32)
    ensures JoinWide(Wide(u), Wide(l)) == Wide(Join(u, l))
  {
    assert Wide(u) == u as bv64 && Wide(l) == l as bv64;
    JoinedBits(u, l);
    assert Join(u, l) == (u & 0x80000000) | (l & 0x7fffffff);
    assert Wide((u & 0x80000000) | (l & 0x7fffffff)) == ((u & 0x80000000) | (l & 0x7fffffff)) as bv64;
  }

  lemma JoinedBits(u: bv32, l: bv32)
    ensures JoinWide(u as bv64, l as bv64) == ((u & 0x80000000) | (l & 0x7fffffff)) as bv64
  {
  }

  lemma WideHalf(y: bv32)
    ensures Half(Wide(y)) == Wide(Half32(y))
  {
    assert Wide(y) == y as bv64;
    assert Half(y as bv64) == (y >> 1) as bv64;
    assert Half32(y) == y >> 1;
    assert Wide(y >> 1) == (y >> 1) as bv64;
  }

  lemma WideMag(y: bv32)
    ensures Mag(Wide(y)) == Wide(Mag32(y))
  {
  }

  lemma WideXor(v: bv32, w: bv32)
    ensures Xor(Wide(v), Wide(w)) == Wide(Xor32(v, w))
  {
  }

  lemma XorAssociates(v: bv32, w: bv32, z: bv32)
    ensures Xor32(Xor32(v, w), z) == Xor32(v, Xor32(w, z))
  {
    assert Xor32(v, w) == v ^ w && Xor32(w, z) == w ^ z;
    assert Xor32(v ^ w, z) == Xor32(v, w ^ z);
  }

  lemma TwistWideIsTwist(u: bv32, l: bv32, m: bv32, z: bv32)
    requires z == Xor32(m, TwistOf(Join(u, l)))
    ensures TwistWide(Wide(u), Wide(l), Wide(m)) == Wide(z)
  {
    var y := Join(u, l);
    WideJoin(u, l);
    WideHalf(y);
    WideMag(y);
    WideXor(m, Half32(y));
    WideXor(Xor32(m, Half32(y)), Mag32(y));
    XorAssociates(m, Half32(y), Mag32(y));
  }

  /** The word a twist came from. */
  function Untwist(z: bv32): bv32 {
    if z & 0x80000000 == 0 then z << 1 else ((z ^ 0x9908b0df) << 1) | 1
  }

  lemma UntwistTwist(y: bv32)
    ensures Untwist(TwistOf(y)) == y
  {
    TwistBits(y);
    if y & 1 == 0 { UntwistEven(y); } else { UntwistOdd(y); }
  }

  lemma TwistBits(y: bv32)
    ensures TwistOf(y) == if y & 1 == 0 then y >> 1 else (y >> 1) ^ 0x9908b0df
  {
    assert Half32(y) == y >> 1;
    assert Xor32(y >> 1, 0) == y >> 1;
    assert Xor32(y >> 1, 0x9908b0df) == (y >> 1) ^ 0x9908b0df;
  }

  lemma UntwistEven(y: bv32)
    requires y & 1 == 0
    ensures Untwist(y >> 1) == y
  {
  }

  lemma UntwistOdd(y: bv32)
    requires y & 1 != 0
    ensures Untwist((y >> 1) ^ 0x9908b0df) == y
  {
  }

  // ---------- tempering ----------

  function Line11(w: bv32): bv32 { w ^ (w >> 11) }
  function Line7(w: bv32): bv32 { w ^ ((w << 7) & 0x9d2c5680) }
  function Line15(w: bv32): bv32 { w ^ ((w << 15) & 0xefc60000) }
  function Line18(w: bv32): bv32 { w ^ (w >> 18) }

  function Temper(w: bv32): bv32 { Line18(Line15(Line7(Line11(w)))) }

  /** The four tempering lines of genrand_int32 on an unsigned long. */
  function Wide11(y: bv64): bv64 { y ^ (y >> 11) }
  function Wide7(y: bv64): bv64 { y ^ ((y << 7) & 0x9d2c5680) }
  function Wide15(y: bv64): bv64 { y ^ ((y << 15) & 0xefc60000) }
  function Wide18(y: bv64): bv64 { y ^ (y >> 18) }

  function TemperWide(y: bv64): bv64 { Wide18(Wide15(Wide7(Wide11(y)))) }

  lemma WideLine11(w: bv32)
    ensures Wide11(Wide(w)) == Wide(Line11(w))
  {
    assert Wide(w) == w as bv64 && Line11(w) == w ^ (w >> 11);
    assert Wide11(w as bv64) == (w ^ (w >> 11)) as bv64 == Wide(w ^ (w >> 11));
  }

  lemma WideLine7(w: bv32)
    ensures Wide7(Wide(w)) == Wide(Line7(w))
  {
    assert Wide(w) == w as bv64 && Line7(w) == w ^ ((w << 7) & 0x9d2c5680);
    assert Wide7(w as bv64) == (w ^ ((w << 7) & 0x9d2c5680)) as bv64 == Wide(w ^ ((w << 7) & 0x9d2c5680));
  }

  lemma WideLine15(w: bv32)
    ensures Wide15(Wide(w)) == Wide(Line15(w))
  {
    assert Wide(w) == w as bv64 && Line15(w) == w ^ ((w << 15) & 0xefc60000);
    assert Wide15(w as bv64) == (w ^ ((w << 15) & 0xefc60000)) as bv64 == Wide(w ^ ((w << 15) & 0xefc60000));
  }

  lemma WideLine18(w: bv32)
    ensures Wide18(Wide(w)) == Wide(Line18(w))
  {
    assert Wide(w) == w as bv64 && Line18(w) == w ^ (w >> 18);
    assert Wide18(w as bv64) == (w ^ (w >> 18)) as bv64 == Wide(w ^ (w >> 18));
  }

  /** Tempering an unsigned long that holds a 32-bit word gives the tempered 32-bit word. */
  lemma TemperWideIsTemper(w: bv32)
    ensures TemperWide(Wide(w)) == Wide(Temper(w))
  {
    WideLine11(w);
    WideLine7(Line11(w));
    WideLine15(Line7(Line11(w)));
    WideLine18(Line15(Line7(Line11(w))));
  }

  function Undo11(z: bv32): bv32 { z ^ ((z ^ (z >> 11)) >> 11) }

  function Undo7(z: bv32): bv32 {
    var a := z ^ ((z << 7) & 0x9d2c5680);
    var b := z ^ ((a << 7) & 0x9d2c5680);
    var c := z ^ ((b << 7) & 0x9d2c5680);
    z ^ ((c << 7) & 0x9d2c5680)
  }

  /** Each tempering line undone, last line first. */
  function Untemper(z: bv32): bv32 { Undo11(Undo7(Line15(Line18(z)))) }

  lemma Undo11Line11(w: bv32)
    ensures Undo11(Line11(w)) == w
  {
    assert Line11(w) == w ^ (w >> 11);
    assert Undo11(w ^ (w >> 11)) == w;
  }

  lemma Line11Undo11(w: bv32)
    ensures Line11(Undo11(w)) == w
  {
    assert Undo11(w) == w ^ ((w ^ (w >> 11)) >> 11);
    assert Line11(w ^ ((w ^ (w >> 11)) >> 11)) == w;
  }

  lemma Undo7Line7(w: bv32)
    ensures Undo7(Line7(w)) == w && Line7(Undo7(w)) == w
  {
  }

  lemma Line15Twice(w: bv32)
    ensures Line15(Line15(w)) == w
  {
  }

  lemma Line18Twice(w: bv32)
    ensures Line18(Line18(w)) == w
  {
    assert Line18(w) == w ^ (w >> 18);
    assert Line18(w ^ (w >> 18)) == w;
  }

  /** Tempering is a bijection on 32-bit words with Untemper as its inverse. */
  lemma UntemperTemper(w: bv32)
    ensures Untemper(Temper(w)) == w && Temper(Untemper(w)) == w
  {
    Line18Twice(Line15(Line7(Line11(w))));
    Line15Twice(Line7(Line11(w)));
    Undo7Line7(Line11(w));
    Undo11Line11(w);
    Line11Undo11(Undo7(Line15(Line18(w))));
    Undo7Line7(Line15(Line18(w)));
    Line15Twice(Line18(w));
    Line18Twice(w);
  }

  lemma TemperInjective(v: bv32, w: bv32)
    requires Temper(v) == Temper(w)
    ensures v == w
  {
    UntemperTemper(v);
    UntemperTemper(w);
  }
}
