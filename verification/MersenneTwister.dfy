/** The generator with its state array, on a machine whose unsigned long has 64 bits. */
module MersenneTwister {
  import opened MersenneFirst
  import opened MersenneRounds
  import opened MersenneSeeding
  import opened MersenneStream
  import opened MersenneWords

  /** The array holds the window of the stream that starts at `base`. */
  ghost predicate HoldsWindow(mt: seq<bv64>, init: seq<bv32>, base: nat)
    requires |mt| == N && |init| == N
  {
    forall i :: 0 <= i < N ==> mt[i] == Wide(InWindow(init, base, i))
  }

  /** The first k words are already those of the next window. */
  ghost predicate Refilled(mt: seq<bv64>, init: seq<bv32>, base: nat, next: nat, k: nat)
    requires |mt| == N && |init| == N
  {
    && (forall i :: 0 <= i < N && i < k ==> mt[i] == Wide(InWindow(init, next, i)))
    && (forall i :: k <= i < N ==> mt[i] == Wide(InWindow(init, base, i)))
  }

  lemma InNextWindow(init: seq<bv32>, base: nat, k: nat)
    requires |init| == N
    ensures InWindow(init, base + N, k) ==
            Xor32(InWindow(init, base, k + M), TwistOf(Join(InWindow(init, base, k), InWindow(init, base, k + 1))))
  {
    NextWord(init, base + k);
    assert base + N + k == base + k + N;
  }

  /** A word past the end of a window is in the next one. */
  lemma PastEnd(init: seq<bv32>, base: nat, k: nat)
    requires |init| == N && k >= N
    ensures InWindow(init, base, k) == InWindow(init, base + N, k - N)
  {
    assert base + k == base + N + (k - N);
  }

  /** Where words k+1 and k+M are found, counted past the end into the next window. */
  predicate Sources(k: nat, k1: nat, km: nat) {
    k < N && k1 == (if k + 1 < N then k + 1 else 0) && km == (if k + M < N then k + M else k + M - N)
  }

  lemma RefillReads(mt: seq<bv64>, init: seq<bv32>, base: nat, next: nat, k: nat, k1: nat, km: nat)
    requires |mt| == N && |init| == N && next == base + N && Sources(k, k1, km) && Refilled(mt, init, base, next, k)
    ensures mt[k] == Wide(InWindow(init, base, k)) && mt[k1] == Wide(InWindow(init, base, k + 1))
    ensures mt[km] == Wide(InWindow(init, base, k + M))
  {
    if k + 1 == N { PastEnd(init, base, k + 1); }
    if k + M >= N { PastEnd(init, base, k + M); }
  }

  /** Word k is replaced from words k, k+1 and k+M. */
  lemma RefillStep(mt: seq<bv64>, init: seq<bv32>, base: nat, next: nat, k: nat, k1: nat, km: nat)
    requires |mt| == N && |init| == N && next == base + N && Sources(k, k1, km) && Refilled(mt, init, base, next, k)
    ensures TwistWide(mt[k], mt[k1], mt[km]) == Wide(InWindow(init, next, k))
  {
    RefillReads(mt, init, base, next, k, k1, km);
    InNextWindow(init, base, k);
    TwistWideIsTwist(InWindow(init, base, k), InWindow(init, base, k + 1), InWindow(init, base, k + M),
                     InWindow(init, next, k));
  }

  lemma RefilledNext(mt: seq<bv64>, init: seq<bv32>, base: nat, next: nat, k: nat, w: bv64)
    requires |mt| == N && |init| == N && k < N && Refilled(mt, init, base, next, k)
    requires w == Wide(InWindow(init, next, k))
    ensures Refilled(mt[k := w], init, base, next, k + 1)
  {
  }

  // ---------- seeding ----------

  /** The first k words are those of the seed s. */
  ghost predicate SeedWords(mt: seq<bv64>, s: bv32, k: nat)
    requires |mt| == N
  {
    forall i :: 0 <= i < N && i < k ==> mt[i] == Wide(SeedWord(s, i))
  }

  lemma SeedStep(mt: seq<bv64>, s: bv32, k: nat)
    requires |mt| == N && 1 <= k < N && SeedWords(mt, s, k)
    ensures NextSeed(mt[k - 1], Index(k)) == Wide(SeedWord(s, k))
  {
    var w := SeedWord(s, k - 1);
    WideFold(w);
    LowWide(Fold32(w));
    LowTimesSeed(Fold(Wide(w)));
    NextSeedIs32(TimesSeed(Fold(Wide(w))), Index(k));
  }

  lemma SeedWordsNext(mt: seq<bv64>, s: bv32, k: nat)
    requires |mt| == N && k < N && SeedWords(mt, s, k)
    ensures SeedWords(mt[k := Wide(SeedWord(s, k))], s, k + 1)
  {
  }

  lemma SeedWordsHold(mt: seq<bv64>, s: bv32)
    requires |mt| == N && SeedWords(mt, s, N)
    ensures HoldsWindow(mt, SeedState(s), 0)
  {
  }

  /** The low words of an array of unsigned longs. */
  ghost function LowWords(initKey: seq<bv64>): (r: seq<bv32>)
    ensures |r| == |initKey| && forall j :: 0 <= j < |initKey| ==> r[j] == Low(initKey[j])
  {
    seq(|initKey|, j requires 0 <= j < |initKey| => Low(initKey[j]))
  }

  /** Word p after t steps of mixing: its cell, and the last word written if the next step is at p+1. */
  ghost predicate MixedWord(mt: seq<bv64>, key: seq<bv32>, t: nat, p: nat)
    requires |mt| == N && IsKey(key) && p < N
  {
    && (p >= 1 ==> mt[p] == Wide(MixedCell(key, t, p)))
    && (p + 1 == Position(t + 1) ==> mt[p] == Wide(Mixed(key, t)))
  }

  ghost predicate MixedWords(mt: seq<bv64>, key: seq<bv32>, t: nat)
    requires |mt| == N && IsKey(key)
  {
    forall p :: 0 <= p < N ==> MixedWord(mt, key, t, p)
  }

  lemma MixedWordsStart(mt: seq<bv64>, key: seq<bv32>)
    requires |mt| == N && IsKey(key) && SeedWords(mt, ARRAY_SEED, N)
    ensures MixedWords(mt, key, 0)
  {
  }

  lemma KeyStepIs(key: seq<bv32>, t: nat, i: nat, j: nat)
    requires IsKey(key) && t < KeySteps(key) && i == Position(t + 1) && j == KeyIndex(t + 1, |key|)
    ensures Mixed(key, t + 1) == MixKey32(MixedCell(key, t, i), Mixed(key, t), key[j], Low(Index(j)))
  {
  }

  lemma IndexStepIs(key: seq<bv32>, t: nat, i: nat)
    requires IsKey(key) && t >= KeySteps(key) && i == Position(t + 1)
    ensures Mixed(key, t + 1) == MixIndex32(MixedCell(key, t, i), Mixed(key, t), Low(Index(i)))
  {
  }

  lemma KeyStep(mt: seq<bv64>, initKey: seq<bv64>, t: nat, i: nat, j: nat)
    requires |mt| == N && IsKey(LowWords(initKey)) && MixedWords(mt, LowWords(initKey), t)
    requires t < KeySteps(LowWords(initKey)) && i == Position(t + 1) && j == KeyIndex(t + 1, |initKey|)
    ensures MixKey(mt[i], mt[i - 1], initKey[j], Index(j)) == Wide(Mixed(LowWords(initKey), t + 1))
  {
    var key := LowWords(initKey);
    assert MixedWord(mt, key, t, i) && MixedWord(mt, key, t, i - 1);
    KeyStepIs(key, t, i, j);
    WideFold(Mixed(key, t));
    LowWide(Fold32(Mixed(key, t)));
    LowTimesKey(Fold(Wide(Mixed(key, t))));
    MixKeyIs32(MixedCell(key, t, i), TimesKey(Fold(Wide(Mixed(key, t)))), initKey[j], Index(j));
  }

  lemma IndexStep(mt: seq<bv64>, key: seq<bv32>, t: nat, i: nat)
    requires |mt| == N && IsKey(key) && MixedWords(mt, key, t) && t >= KeySteps(key) && i == Position(t + 1)
    ensures MixIndex(mt[i], mt[i - 1], Index(i)) == Wide(Mixed(key, t + 1))
  {
    assert MixedWord(mt, key, t, i) && MixedWord(mt, key, t, i - 1);
    IndexStepIs(key, t, i);
    WideFold(Mixed(key, t));
    LowWide(Fold32(Mixed(key, t)));
    LowTimesIndex(Fold(Wide(Mixed(key, t))));
    MixIndexIs32(MixedCell(key, t, i), TimesIndex(Fold(Wide(Mixed(key, t)))), Index(i));
  }

  /** Writing word i and, at the end of a round, copying the last word to the front. */
  ghost function Advance(mt: seq<bv64>, i: nat, w: bv64): (r: seq<bv64>)
    requires |mt| == N && 1 <= i < N
    ensures |r| == N
  {
    if i + 1 >= N then mt[i := w][0 := w] else mt[i := w]
  }

  lemma MixedWordNext(mt: seq<bv64>, key: seq<bv32>, t: nat, i: nat, p: nat)
    requires |mt| == N && IsKey(key) && p < N && MixedWord(mt, key, t, p) && i == Position(t + 1)
    ensures MixedWord(Advance(mt, i, Wide(Mixed(key, t + 1))), key, t + 1, p)
  {
  }

  lemma MixedWordsNext(mt: seq<bv64>, key: seq<bv32>, t: nat, i: nat)
    requires |mt| == N && IsKey(key) && MixedWords(mt, key, t) && i == Position(t + 1)
    ensures MixedWords(Advance(mt, i, Wide(Mixed(key, t + 1))), key, t + 1)
  {
    var next, r := t + 1, Advance(mt, i, Wide(Mixed(key, t + 1)));
    forall p | 0 <= p < N ensures MixedWord(r, key, next, p) {
      MixedWordNext(mt, key, t, i, p);
    }
  }

  lemma MixedWordsEnd(mt: seq<bv64>, key: seq<bv32>)
    requires |mt| == N && IsKey(key) && MixedWords(mt, key, AllSteps(key))
    ensures HoldsWindow(mt[0 := 0x80000000], KeyState(key), 0)
  {
    forall p | 1 <= p < N ensures mt[p] == Wide(InWindow(KeyState(key), 0, p)) {
      assert MixedWord(mt, key, AllSteps(key), p);
    }
  }

  class Generator {
    const mt: array<bv64>
    var mti: nat
    ghost var init: seq<bv32>
    ghost var base: nat
    ghost var calls: nat

    /** Seeded with the state `init`, and `calls` numbers generated since. */
    ghost predicate Seeded()
      reads this, mt
    {
      && mt.Length == N && |init| == N && mti <= N
      && base + mti == N + calls
      && HoldsWindow(mt[..], init, base)
    }

    ghost predicate Valid()
      reads this, mt
    {
      mt.Length == N && (mti == N + 1 || Seeded())
    }

    constructor ()
      ensures Valid() && mti == N + 1 && fresh(mt)
    {
      mt := new bv64[N](_ => 0);
      mti := N + 1;
    }

    /** init_genrand */
    method InitGenrand(s: bv64)
      requires mt.Length == N
      modifies this, mt
      ensures Seeded() && init == SeedState(Low(s)) && calls == 0 && mti == N
    {
      mt[0] := Mask(s);
      mti := 1;
      MaskIsLow(s);
      while mti < N
        invariant mt.Length == N && 1 <= mti <= N
        invariant SeedWords(mt[..], Low(s), mti)
      {
        SeedAt(mti, Low(s));
        mti := mti + 1;
      }
      SeedWordsHold(mt[..], Low(s));
      init, base, calls := SeedState(Low(s)), 0, 0;
    }

    /** The body of the seeding loop. */
    method SeedAt(k: nat, ghost s: bv32)
      requires mt.Length == N && 1 <= k < N && SeedWords(mt[..], s, k)
      modifies mt
      ensures SeedWords(mt[..], s, k + 1)
    {
      ghost var words := mt[..];
      SeedStep(words, s, k);
      SeedWordsNext(words, s, k);
      mt[k] := NextSeed(mt[k - 1], Index(k));
      assert mt[..] == words[k := Wide(SeedWord(s, k))];
    }

    /** init_by_array */
    method InitByArray(initKey: seq<bv64>)
      requires mt.Length == N && 1 <= |initKey| < 0x8000_0000
      modifies this, mt
      ensures Seeded() && init == KeyState(LowWords(initKey)) && calls == 0 && mti == N
    {
      ghost var key := LowWords(initKey);
      InitGenrand(19650218);
      assert Low(19650218) == ARRAY_SEED;
      MixedWordsStart(mt[..], key);
      var i := MixKeyIn(initKey);
      MixOnce(i, key);
      ghost var words := mt[..];
      MixedWordsEnd(words, key);
      mt[0] := 0x80000000;
      assert mt[..] == words[0 := 0x80000000];
      init := KeyState(key);
    }

    /** The first loop of init_by_array. */
    method MixKeyIn(initKey: seq<bv64>) returns (i: nat)
      requires mt.Length == N && IsKey(LowWords(initKey)) && MixedWords(mt[..], LowWords(initKey), 0)
      modifies mt
      ensures i == Position(KeySteps(LowWords(initKey)) + 1)
      ensures MixedWords(mt[..], LowWords(initKey), KeySteps(LowWords(initKey)))
    {
      ghost var key := LowWords(initKey);
      ghost var t := 0;
      i := 1;
      var j := 0;
      var k := if N > |initKey| then N else |initKey|;
      while k > 0
        invariant 0 <= k && t + k == KeySteps(key)
        invariant i == Position(t + 1) && j == KeyIndex(t + 1, |initKey|)
        invariant MixedWords(mt[..], key, t)
      {
        i := WriteKey(i, initKey, j, t);
        j := j + 1;
        if j >= |initKey| { j := 0; }
        k, t := k - 1, t + 1;
      }
    }

    /** The second loop of init_by_array. */
    method MixOnce(start: nat, ghost key: seq<bv32>)
      requires mt.Length == N && IsKey(key) && start == Position(KeySteps(key) + 1)
      requires MixedWords(mt[..], key, KeySteps(key))
      modifies mt
      ensures MixedWords(mt[..], key, AllSteps(key))
    {
      ghost var t := KeySteps(key);
      var i := start;
      var k := N - 1;
      while k > 0
        invariant 0 <= k && t + k == AllSteps(key) && t >= KeySteps(key)
        invariant i == Position(t + 1)
        invariant MixedWords(mt[..], key, t)
      {
        i := WriteIndex(i, key, t);
        k, t := k - 1, t + 1;
      }
    }

    /** The body of the first loop, but for stepping on in the key. */
    method WriteKey(i: nat, initKey: seq<bv64>, j: nat, ghost t: nat) returns (next: nat)
      requires mt.Length == N && IsKey(LowWords(initKey)) && MixedWords(mt[..], LowWords(initKey), t)
      requires t < KeySteps(LowWords(initKey)) && i == Position(t + 1) && j == KeyIndex(t + 1, |initKey|)
      modifies mt
      ensures MixedWords(mt[..], LowWords(initKey), t + 1) && next == Position(t + 2)
    {
      KeyStep(mt[..], initKey, t, i, j);
      next := Write(i, MixKey(mt[i], mt[i - 1], initKey[j], Index(j)), LowWords(initKey), t);
    }

    /** The body of the second loop. */
    method WriteIndex(i: nat, ghost key: seq<bv32>, ghost t: nat) returns (next: nat)
      requires mt.Length == N && IsKey(key) && MixedWords(mt[..], key, t)
      requires t >= KeySteps(key) && i == Position(t + 1)
      modifies mt
      ensures MixedWords(mt[..], key, t + 1) && next == Position(t + 2)
    {
      IndexStep(mt[..], key, t, i);
      next := Write(i, MixIndex(mt[i], mt[i - 1], Index(i)), key, t);
    }

    /** Both seeding loops write a word, step on, and wrap round at the end of the array. */
    method Write(i: nat, w: bv64, ghost key: seq<bv32>, ghost t: nat) returns (next: nat)
      requires mt.Length == N && IsKey(key) && i == Position(t + 1)
      requires MixedWords(mt[..], key, t) && w == Wide(Mixed(key, t + 1))
      modifies mt
      ensures MixedWords(mt[..], key, t + 1) && next == Position(t + 2)
    {
      ghost var words := mt[..];
      MixedWordsNext(words, key, t, i);
      mt[i] := w;
      next := i + 1;
      if next >= N {
        mt[0] := mt[N - 1];
        next := 1;
      }
      assert mt[..] == Advance(words, i, w);
    }

    /** genrand_int32 */
    method GenrandInt32() returns (y: bv64)
      requires Valid()
      modifies this, mt
      ensures Seeded() && mti <= N
      ensures old(mti) == N + 1 ==> init == SeedState(5489) && calls == 1
      ensures old(mti) <= N ==> init == old(init) && calls == old(calls) + 1
      ensures y == Wide(Output(init, calls - 1))
      ensures old(mti) == N + 1 ==> y == 3499211612
    {
      if mti >= N {
        Generate();
      }
      y := Draw();
      FirstWide();
    }

    /** N words at one time, with the default seed if there was none. */
    method Generate()
      requires Valid() && mti >= N
      modifies this, mt
      ensures Seeded() && mti == 0
      ensures old(mti) == N + 1 ==> init == SeedState(5489) && calls == 0
      ensures old(mti) == N ==> init == old(init) && calls == old(calls)
    {
      if mti == N + 1 {
        InitGenrand(5489);
        assert Low(5489) == 5489;
      }
      Refill();
    }

    /** The next word, tempered. */
    method Draw() returns (y: bv64)
      requires Seeded() && mti < N
      modifies this
      ensures Seeded() && init == old(init) && calls == old(calls) + 1
      ensures y == Wide(Output(init, calls - 1))
    {
      y := mt[mti];
      TemperWideIsTemper(InWindow(init, base, mti));
      mti := mti + 1;
      calls := calls + 1;
      y := TemperWide(y);
    }

    /** The three loops that generate N words at one time. */
    method Refill()
      requires Seeded() && mti == N
      modifies this, mt
      ensures Seeded() && mti == 0 && init == old(init) && calls == old(calls)
    {
      ghost var next := base + N;
      var kk := 0;
      while kk < N - M
        modifies mt
        invariant mt.Length == N && 0 <= kk <= N - M
        invariant Refilled(mt[..], init, base, next, kk)
      {
        RefillAt(kk, kk + 1, kk + M, next);
        kk := kk + 1;
      }
      while kk < N - 1
        modifies mt
        invariant mt.Length == N && N - M <= kk <= N - 1
        invariant Refilled(mt[..], init, base, next, kk)
      {
        RefillAt(kk, kk + 1, kk + M - N, next);
        kk := kk + 1;
      }
      RefillAt(N - 1, 0, M - 1, next);
      base := next;
      mti := 0;
    }

    method RefillAt(k: nat, k1: nat, km: nat, ghost next: nat)
      requires mt.Length == N && |init| == N && next == base + N
      requires Sources(k, k1, km) && Refilled(mt[..], init, base, next, k)
      modifies mt
      ensures Refilled(mt[..], init, base, next, k + 1)
    {
      ghost var words := mt[..];
      RefillStep(words, init, base, next, k, k1, km);
      mt[k] := TwistWide(mt[k], mt[k1], mt[km]);
      RefilledNext(words, init, base, next, k, Wide(InWindow(init, next, k)));
      assert mt[..] == words[k := Wide(InWindow(init, next, k))];
    }
  }
}
