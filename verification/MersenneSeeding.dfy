/** The two ways to seed MT19937, as recurrences on 32-bit words, and which seeds can be told apart
    from the states they give. */
module MersenneSeeding {
  import opened MersenneRounds
  import opened MersenneStream
  import opened MersenneWords

  /** A C int used as an unsigned long. */
  function Index(i: nat): bv64
    requires i < 0x8000_0000
  {
    i as bv64
  }

  function Index32(i: nat): bv32
    requires i < 0x8000_0000
  {
    Low(Index(i))
  }

  // ---------- one word ----------

  /** Word i of the state seeded by s. */
  ghost function SeedWord(s: bv32, i: nat): bv32
    requires i < N
  {
    if i == 0 then s else NextSeed32(SeedWord(s, i - 1), Index32(i))
  }

  ghost function SeedState(s: bv32): (r: seq<bv32>)
    ensures |r| == N && forall i :: 0 <= i < N ==> r[i] == SeedWord(s, i)
  {
    seq(N, i requires 0 <= i < N => SeedWord(s, i))
  }

  lemma SecondWord()
    ensures NextSeed32(0, Index32(2)) != 0
  {
    assert Fold32(0) == 0;
    assert TimesSeed32(0) == 0;
    assert Index(2) == 2;
    assert Low(2) == 2;
    assert Plus32(0, 2) == 2;
  }

  /** No seed gives the all-zero state, so no run from a seed ever reaches it. */
  lemma SeedNeverZero(s: bv32, k: nat)
    ensures !ZeroWindow(SeedState(s), k)
  {
    var a := SeedState(s);
    SecondWord();
    assert InWindow(a, 0, 1) == SeedWord(s, 1) && InWindow(a, 0, 2) == SeedWord(s, 2);
    assert SeedWord(s, 1) == 0 ==> SeedWord(s, 2) != 0;
    NeverAllZero(a, k);
  }

  // ---------- an array of words ----------

  const ARRAY_SEED: bv32 := 19650218

  /** init_by_array needs a key of at least one word; its length is a C int. */
  ghost predicate IsKey(key: seq<bv32>) { 1 <= |key| < 0x8000_0000 }

  /** And uses key[KeyIndex(t)]: 0, 1, ..., length-1, 0, 1, ... */
  ghost function KeyIndex(t: nat, length: nat): (j: nat)
    requires t >= 1 && length >= 1
    ensures j < length
  {
    if t == 1 || KeyIndex(t - 1, length) + 1 >= length then 0 else KeyIndex(t - 1, length) + 1
  }

  /** How many steps mix the key in; N-1 more follow without it. */
  ghost function KeySteps(key: seq<bv32>): nat { if N > |key| then N else |key| }

  ghost function Start(): nat -> bv32 { (i: nat) => if i < N then SeedWord(ARRAY_SEED, i) else 0 }

  /** Step t mixes the word it replaces with the word written before it. */
  ghost function Mixing(key: seq<bv32>): (nat, bv32, bv32) -> bv32
    requires IsKey(key)
  {
    (t: nat, word: bv32, prev: bv32) =>
      if t == 0 then 0
      else if t <= KeySteps(key) then
        MixKey32(word, prev, key[KeyIndex(t, |key|)], Index32(KeyIndex(t, |key|)))
      else MixIndex32(word, prev, Index32(Position(t)))
  }

  ghost function Mixed(key: seq<bv32>, t: nat): bv32
    requires IsKey(key)
  {
    Written(Start(), Mixing(key), t)
  }

  ghost function MixedCell(key: seq<bv32>, t: nat, i: nat): bv32
    requires IsKey(key) && 1 <= i < N
  {
    Cell(Start(), Mixing(key), t, i)
  }

  ghost function AllSteps(key: seq<bv32>): nat { KeySteps(key) + (N - 1) }

  /** The state seeded by a key. */
  ghost function KeyState(key: seq<bv32>): (r: seq<bv32>)
    requires IsKey(key)
    ensures |r| == N && r[0] == 0x80000000
    ensures forall i :: 1 <= i < N ==> r[i] == MixedCell(key, AllSteps(key), i)
  {
    seq(N, i requires 0 <= i < N => if i == 0 then 0x80000000 else MixedCell(key, AllSteps(key), i))
  }

  /** No key gives the all-zero state either. */
  lemma KeyNeverZero(key: seq<bv32>, k: nat)
    requires IsKey(key)
    ensures !ZeroWindow(KeyState(key), k)
  {
    assert X(KeyState(key), 0) == 0x80000000;
    NeverAllZero(KeyState(key), k);
  }

  // ---------- the seeding loops as a recurrence of lag N-1 ----------

  lemma MixedByKey(key: seq<bv32>, t: nat)
    requires IsKey(key) && 1 <= t <= KeySteps(key)
    ensures Mixed(key, t) == MixKey32(Replaced(Start(), Mixing(key), t), Mixed(key, t - 1),
                                      key[KeyIndex(t, |key|)], Index32(KeyIndex(t, |key|)))
  {
    WrittenIs(Start(), Mixing(key), t);
  }

  /** The state is the last N-1 words written. */
  lemma StateIsLastWords(key: seq<bv32>, t: nat)
    requires IsKey(key) && KeySteps(key) < t <= AllSteps(key)
    ensures KeyState(key)[Position(t)] == Mixed(key, t)
  {
    CellKept(Start(), Mixing(key), t, AllSteps(key) - t);
  }
}
