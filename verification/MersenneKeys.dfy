/** Which seeds of MT19937 can be told apart by the numbers they generate: all single words, and all
    arrays of one length exactly when that length is at most N-2. */
module MersenneKeys {
  import opened MersenneRounds
  import opened MersenneSeeding
  import opened MersenneStream
  import opened MersenneWords

  // ---------- single words ----------

  lemma SumMinus(v: bv32, i: bv32)
    ensures Minus32(v + i, i) == v
  {
  }

  lemma PlusMinus(v: bv32, i: bv32)
    ensures Minus32(Plus32(v, i), i) == v
  {
    SumMinus(v, i);
    assert Plus32(v, i) == v + i;
  }

  /** The multiplier of init_genrand is odd, so it has an inverse. */
  function DivideSeed(w: bv32): bv32 { 2520285293 * w }

  lemma DivideProduct(w: bv32)
    ensures DivideSeed(1812433253 * w) == w
  {
  }

  lemma DivideTimes(w: bv32)
    ensures DivideSeed(TimesSeed32(w)) == w
  {
    DivideProduct(w);
    assert TimesSeed32(w) == 1812433253 * w;
  }

  lemma FoldTwice(w: bv32)
    ensures Fold32(Fold32(w)) == w
  {
  }

  lemma NextSeedInjective(v: bv32, w: bv32, i: bv32)
    requires NextSeed32(v, i) == NextSeed32(w, i)
    ensures v == w
  {
    PlusMinus(TimesSeed32(Fold32(v)), i);
    PlusMinus(TimesSeed32(Fold32(w)), i);
    DivideTimes(Fold32(v));
    DivideTimes(Fold32(w));
    FoldTwice(v);
    FoldTwice(w);
  }

  lemma SecondWordIs(s: bv32)
    ensures SeedWord(s, 1) == NextSeed32(s, Index32(1))
  {
    assert SeedWord(s, 0) == s;
  }

  lemma SeedFromSecondWord(s: bv32, z: bv32)
    requires SeedWord(s, 1) == SeedWord(z, 1)
    ensures s == z
  {
    SecondWordIs(s);
    SecondWordIs(z);
    NextSeedInjective(s, z, Index32(1));
  }

  lemma SecondWordInWindow(s: bv32)
    ensures InWindow(SeedState(s), 0, 1) == SeedWord(s, 1)
  {
  }

  /** Different seeds give states whose significant bits differ at the start, hence always. */
  lemma SeedsGiveDifferentRuns(s: bv32, z: bv32, k: nat)
    requires SameWindow(SeedState(s), k, SeedState(z), k)
    ensures s == z
  {
    var a, b := SeedState(s), SeedState(z);
    StateIsReversible(a, 0, b, 0, k);
    assert InWindow(a, 0, 1) == InWindow(b, 0, 1);
    SecondWordInWindow(s);
    SecondWordInWindow(z);
    SeedFromSecondWord(s, z);
  }

  /** Among any N consecutive numbers, those generated from two different seeds differ. */
  lemma SeedsToldApart(s: bv32, z: bv32, i: nat)
    requires s != z
    ensures exists n :: 0 <= n < N && OutputAfter(SeedState(s), i, n) != OutputAfter(SeedState(z), i, n)
  {
    if forall n :: 0 <= n < N ==> OutputAfter(SeedState(s), i, n) == OutputAfter(SeedState(z), i, n) {
      OutputsGiveState(SeedState(s), i, SeedState(z), i);
      SeedsGiveDifferentRuns(s, z, N + i);
      assert false;
    }
  }

  // ---------- one mixing step ----------

  lemma DifferencePlus(v: bv32, i: bv32)
    ensures Plus32(v - i, i) == v
  {
  }

  lemma MinusPlus(v: bv32, i: bv32)
    ensures Plus32(Minus32(v, i), i) == v
  {
    DifferencePlus(v, i);
    assert Minus32(v, i) == v - i;
  }

  lemma PlusDifference(m: bv32, t: bv32)
    ensures Plus32(m, t - m) == t
  {
  }

  lemma PlusMinusLeft(m: bv32, t: bv32)
    ensures Plus32(m, Minus32(t, m)) == t
  {
    PlusDifference(m, t);
    assert Minus32(t, m) == t - m;
  }

  lemma SumMinusLeft(m: bv32, k: bv32)
    ensures Minus32(m + k, m) == k
  {
  }

  lemma PlusMinusFirst(m: bv32, k: bv32)
    ensures Minus32(Plus32(m, k), m) == k
  {
    SumMinusLeft(m, k);
    assert Plus32(m, k) == m + k;
  }

  lemma XorInline(v: bv32, m: bv32)
    ensures Xor32(v ^ m, m) == v
  {
  }

  lemma XorTwice(v: bv32, m: bv32)
    ensures Xor32(Xor32(v, m), m) == v
  {
    XorInline(v, m);
    assert Xor32(v, m) == v ^ m;
  }

  /** The word a step without key replaces, from what it wrote with the product m. */
  function UnmixIndex(z: bv32, m: bv32, i: bv32): bv32 { Xor32(Plus32(z, i), m) }

  lemma UnmixIndexMix(v: bv32, m: bv32, i: bv32)
    ensures UnmixIndex(Minus32(Xor32(v, m), i), m, i) == v
  {
    MinusPlus(Xor32(v, m), i);
    XorTwice(v, m);
  }

  /** The key word with which a step writes z, where x is the word before the key is added. */
  function KeyFor(z: bv32, x: bv32, j: bv32): bv32 { Minus32(Minus32(z, j), x) }

  lemma KeyForMix(x: bv32, key: bv32, j: bv32)
    ensures KeyFor(Plus32(Plus32(x, key), j), x, j) == key
  {
    PlusMinus(Plus32(x, key), j);
    PlusMinusFirst(x, key);
  }

  lemma MixKeyFor(z: bv32, x: bv32, j: bv32)
    ensures Plus32(Plus32(x, KeyFor(z, x, j)), j) == z
  {
    PlusMinusLeft(x, Minus32(z, j));
    MinusPlus(z, j);
  }

  /** The word with its top bit flipped. */
  function Flip(w: bv32): bv32 { w + 0x80000000 }

  lemma FlipPlusInline(v: bv32, k: bv32)
    ensures Flip(v + k) == Plus32(v + 0x80000000, k) == Plus32(v, k + 0x80000000)
  {
  }

  lemma FlipPlus(v: bv32, k: bv32)
    ensures Plus32(Flip(v), k) == Flip(Plus32(v, k)) == Plus32(v, Flip(k))
  {
    FlipPlusInline(v, k);
    assert Flip(v) == v + 0x80000000 && Flip(k) == k + 0x80000000 && Plus32(v, k) == v + k;
  }

  lemma FlipFlipInline(v: bv32)
    ensures Flip(v + 0x80000000) == v
  {
  }

  lemma FlipFlip(v: bv32)
    ensures Flip(Flip(v)) == v != Flip(v)
  {
    FlipFlipInline(v);
    assert Flip(v) == v + 0x80000000;
  }

  lemma FlipXor(v: bv32, m: bv32)
    ensures Xor32(Flip(v), m) == Flip(Xor32(v, m))
  {
  }

  lemma FlipKey(x: bv32, key: bv32, j: bv32)
    ensures Plus32(Plus32(x, Flip(key)), j) == Flip(Plus32(Plus32(x, key), j))
  {
    FlipPlus(x, key);
    FlipPlus(Plus32(x, key), j);
  }

  /** Flipping the top bits of the replaced word and of the key word changes nothing. */
  lemma FlipBoth(v: bv32, m: bv32, key: bv32, j: bv32)
    ensures Plus32(Plus32(Xor32(Flip(v), m), Flip(key)), j) == Plus32(Plus32(Xor32(v, m), key), j)
  {
    FlipXor(v, m);
    FlipPlus(Xor32(v, m), Flip(key));
    FlipPlus(Xor32(v, m), key);
    FlipFlip(Plus32(Xor32(v, m), key));
  }

  /** The word of a step before the key is added to it. */
  function BeforeKey(v: bv32, w: bv32): bv32 { Xor32(v, TimesKey32(Fold32(w))) }

  // ---------- arrays of at most N-2 words ----------

  lemma {:induction false} FirstPass(t: nat, length: nat)
    requires 1 <= t <= length
    ensures KeyIndex(t, length) == t - 1
  {
    if t > 1 { FirstPass(t - 1, length); }
  }

  /** After the last key word comes the first. */
  lemma PassEnds(length: nat)
    requires length >= 1
    ensures KeyIndex(length + 1, length) == 0
  {
    FirstPass(length, length);
  }

  lemma KeyWord(key: seq<bv32>, t: nat)
    requires IsKey(key) && 1 <= t <= KeySteps(key)
    ensures key[KeyIndex(t, |key|)] ==
            KeyFor(Mixed(key, t), BeforeKey(Replaced(Start(), Mixing(key), t), Mixed(key, t - 1)),
                   Index32(KeyIndex(t, |key|)))
  {
    MixedByKey(key, t);
    KeyForMix(BeforeKey(Replaced(Start(), Mixing(key), t), Mixed(key, t - 1)), key[KeyIndex(t, |key|)],
              Index32(KeyIndex(t, |key|)));
  }

  lemma MixingIndex(key: seq<bv32>, t: nat, v: bv32, w: bv32)
    requires IsKey(key) && t > KeySteps(key)
    ensures UnmixIndex(Mixing(key)(t, v, w), TimesIndex32(Fold32(w)), Index32(Position(t))) == v
  {
    UnmixIndexMix(v, TimesIndex32(Fold32(w)), Index32(Position(t)));
  }

  /** Two keys of one length, short enough that every word is used before the last step. */
  ghost predicate Short(a: seq<bv32>, b: seq<bv32>) { 1 <= |a| == |b| <= N - 2 }

  /** The keys write the same word in step t. */
  ghost predicate SameWord(a: seq<bv32>, b: seq<bv32>, t: nat)
    requires Short(a, b)
  {
    Agree(Start(), Mixing(a), Mixing(b), t)
  }

  lemma SameAtEnd(a: seq<bv32>, b: seq<bv32>, t: nat)
    requires Short(a, b) && KeyState(a) == KeyState(b) && N < t < N + N
    ensures SameWord(a, b, t)
  {
    StateIsLastWords(a, t);
    StateIsLastWords(b, t);
  }

  lemma ShortReversible(a: seq<bv32>, b: seq<bv32>)
    requires Short(a, b)
    ensures Reversible(Mixing(a), Mixing(b))
  {
    forall t: nat, v: bv32, w: bv32, z: bv32 | t > N && Mixing(a)(t, v, z) == Mixing(b)(t, w, z) ensures v == w {
      MixingIndex(a, t, v, z);
      MixingIndex(b, t, w, z);
    }
  }

  /** Equal states come from equal words, back to the second step. */
  lemma SameFromTwo(a: seq<bv32>, b: seq<bv32>, t: nat)
    requires Short(a, b) && KeyState(a) == KeyState(b) && 2 <= t <= N
    ensures SameWord(a, b, t)
  {
    ShortReversible(a, b);
    forall u: nat | N < u < N + N ensures Agree(Start(), Mixing(a), Mixing(b), u) {
      SameAtEnd(a, b, u);
    }
    AgreeBack(Start(), Mixing(a), Mixing(b), t);
  }

  lemma SameKeyWord(a: seq<bv32>, b: seq<bv32>, t: nat)
    requires Short(a, b) && 1 <= t < N && SameWord(a, b, t) && SameWord(a, b, t - 1)
    ensures a[KeyIndex(t, |a|)] == b[KeyIndex(t, |a|)]
  {
    KeyWord(a, t);
    KeyWord(b, t);
  }

  lemma SameFirstWord(a: seq<bv32>, b: seq<bv32>)
    requires Short(a, b) && KeyState(a) == KeyState(b)
    ensures a[0] == b[0] && SameWord(a, b, 1)
  {
    var t := if |a| == 1 then 3 else |a| + 1;
    PassEnds(|a|);
    SameFromTwo(a, b, t);
    SameFromTwo(a, b, t - 1);
    SameKeyWord(a, b, t);
    FirstPass(1, |a|);
    MixedByKey(a, 1);
    MixedByKey(b, 1);
  }

  /** An array of at most N-2 words can be read back from the state it gives. */
  lemma ShortKeysToldApart(a: seq<bv32>, b: seq<bv32>)
    requires Short(a, b) && KeyState(a) == KeyState(b)
    ensures a == b
  {
    SameFirstWord(a, b);
    forall j | 1 <= j < |a| ensures a[j] == b[j] {
      FirstPass(j + 1, |a|);
      SameFromTwo(a, b, j + 1);
      if j > 1 { SameFromTwo(a, b, j); }
      SameKeyWord(a, b, j + 1);
    }
  }

  // ---------- longer arrays ----------

  /** A key of N-1 words or more. */
  ghost predicate IsLong(key: seq<bv32>) { IsKey(key) && |key| >= N - 1 }

  /** The key with the top bit of its first word flipped and its second word chosen so that step 2
      writes the same word as before. */
  ghost function Head(key: seq<bv32>): (r: seq<bv32>)
    requires IsLong(key)
    ensures |r| == |key| && r[0] == Flip(key[0])
    ensures r[1] == KeyFor(Mixed(key, 2), BeforeKey(Start()(2), Flip(Mixed(key, 1))), Index32(1))
    ensures forall j :: 2 <= j < |key| ==> r[j] == key[j]
  {
    key[0 := Flip(key[0])][1 := KeyFor(Mixed(key, 2), BeforeKey(Start()(2), Flip(Mixed(key, 1))), Index32(1))]
  }

  /** And, where there is a word N-1, with the top bit of that word flipped too. */
  ghost function Twin(key: seq<bv32>): (r: seq<bv32>)
    requires IsLong(key)
    ensures |r| == |key| && r[..2] == Head(key)[..2]
    ensures forall j :: 2 <= j < |key| && j != N - 1 ==> r[j] == key[j]
    ensures |key| >= N ==> r[N - 1] == Flip(key[N - 1])
  {
    if |key| < N then Head(key) else Head(key)[N - 1 := Flip(key[N - 1])]
  }

  lemma TwinStart(key: seq<bv32>)
    requires IsLong(key)
    ensures Twin(key)[0] == Flip(key[0])
    ensures Twin(key)[1] == KeyFor(Mixed(key, 2), BeforeKey(Start()(2), Flip(Mixed(key, 1))), Index32(1))
  {
    assert Twin(key)[..2][0] == Head(key)[..2][0] && Twin(key)[..2][1] == Head(key)[..2][1];
  }

  lemma TwinFirst(key: seq<bv32>)
    requires IsLong(key)
    ensures Mixed(Twin(key), 0) == Mixed(key, 0) && Mixed(Twin(key), 1) == Flip(Mixed(key, 1))
  {
    var z := Twin(key);
    TwinStart(key);
    FirstPass(1, |key|);
    MixedByKey(key, 1);
    MixedByKey(z, 1);
    FlipKey(BeforeKey(Start()(1), Mixed(key, 0)), key[0], Index32(0));
  }

  lemma TwinSecond(key: seq<bv32>)
    requires IsLong(key)
    ensures Mixed(Twin(key), 2) == Mixed(key, 2)
  {
    var z := Twin(key);
    TwinStart(key);
    TwinFirst(key);
    FirstPass(2, |key|);
    MixedByKey(z, 2);
    MixKeyFor(Mixed(key, 2), BeforeKey(Start()(2), Flip(Mixed(key, 1))), Index32(1));
  }

  /** From the third step on the twin mixes as the key does, but in step N. */
  lemma TwinMixing(key: seq<bv32>)
    requires IsLong(key)
    ensures SameMixing(Mixing(Twin(key)), Mixing(key))
  {
    forall t: nat, v: bv32, w: bv32 | t >= 3 && t != N
      ensures Mixing(Twin(key))(t, v, w) == Mixing(key)(t, v, w)
    {
      if t <= KeySteps(key) { FirstPass(t, |key|); }
    }
  }

  /** Step N replaces the word of step 1, which differs. With N words or more the last of the chosen
      words makes up for it; with N-1 words the first word is used again, whose top bit differs too. */
  lemma TwinMakesUp(key: seq<bv32>, z: bv32)
    requires IsLong(key)
    ensures Mixing(Twin(key))(N, Flip(Mixed(key, 1)), z) == Mixing(key)(N, Mixed(key, 1), z)
  {
    if |key| >= N {
      FirstPass(N, |key|);
      FlipBoth(Mixed(key, 1), TimesKey32(Fold32(z)), key[N - 1], Index32(N - 1));
    } else {
      TwinStart(key);
      PassEnds(|key|);
      FlipBoth(Mixed(key, 1), TimesKey32(Fold32(z)), key[0], Index32(0));
    }
  }

  lemma TwinMakesUpAlways(key: seq<bv32>)
    requires IsLong(key)
    ensures MakesUp(Mixing(Twin(key)), Mixed(Twin(key), 1), Mixing(key), Mixed(key, 1))
  {
    TwinFirst(key);
    forall z: bv32 ensures Mixing(Twin(key))(N, Mixed(Twin(key), 1), z) == Mixing(key)(N, Mixed(key, 1), z) {
      TwinMakesUp(key, z);
    }
  }

  /** From the second step on, the twin writes the words the key writes. */
  lemma TwinAgrees(key: seq<bv32>, t: nat)
    requires IsLong(key) && t >= 2
    ensures Mixed(Twin(key), t) == Mixed(key, t)
  {
    TwinMixing(key);
    TwinMakesUpAlways(key);
    TwinSecond(key);
    AgreeOn(Start(), Mixing(Twin(key)), Mixing(key), t);
  }

  /** Every key of N-1 words or more shares its state with a different key of the same length. */
  lemma LongKeyHasTwin(key: seq<bv32>)
    requires IsLong(key)
    ensures Twin(key) != key && |Twin(key)| == |key| && KeyState(Twin(key)) == KeyState(key)
  {
    TwinStart(key);
    FlipFlip(key[0]);
    forall i | 1 <= i < N ensures KeyState(Twin(key))[i] == KeyState(key)[i] {
      var t := LatestAt(AllSteps(key), i);
      TwinAgrees(key, t);
      StateIsLastWords(key, t);
      StateIsLastWords(Twin(key), t);
    }
  }

  /** Keys of one length can be told apart by their states exactly when they have at most N-2 words. */
  lemma KeysToldApart(length: nat)
    requires 1 <= length < 0x8000_0000
    ensures (forall a: seq<bv32>, b: seq<bv32> :: |a| == |b| == length && KeyState(a) == KeyState(b) ==> a == b)
            <==> length <= N - 2
  {
    if length <= N - 2 {
      forall a: seq<bv32>, b: seq<bv32> | |a| == |b| == length && KeyState(a) == KeyState(b) ensures a == b {
        ShortKeysToldApart(a, b);
      }
    } else {
      var key := seq(length, _ => 0);
      LongKeyHasTwin(key);
    }
  }

  /** Two different keys of one length, at most N-2, never share a state, and among any N consecutive
      numbers generated from them some number differs. */
  lemma KeysGiveDifferentRuns(a: seq<bv32>, b: seq<bv32>, k: nat)
    requires Short(a, b) && SameWindow(KeyState(a), k, KeyState(b), k)
    ensures a == b
  {
    var u, v := KeyState(a), KeyState(b);
    StateIsReversible(u, 0, v, 0, k);
    forall i | 0 <= i < N ensures u[i] == v[i] {
      assert i > 0 ==> InWindow(u, 0, i) == InWindow(v, 0, i);
    }
    ShortKeysToldApart(a, b);
  }

  lemma KeysDifferInOutput(a: seq<bv32>, b: seq<bv32>, i: nat)
    requires Short(a, b) && a != b
    ensures exists n :: 0 <= n < N && OutputAfter(KeyState(a), i, n) != OutputAfter(KeyState(b), i, n)
  {
    if forall n :: 0 <= n < N ==> OutputAfter(KeyState(a), i, n) == OutputAfter(KeyState(b), i, n) {
      OutputsGiveState(KeyState(a), i, KeyState(b), i);
      KeysGiveDifferentRuns(a, b, N + i);
      assert false;
    }
  }
}
