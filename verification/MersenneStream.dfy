/** The MT19937 word stream as a recurrence, and what is true of every stream. The recurrence and
    its parameters are those of mersenne_twister_engine, section 26.5.3.2 of ISO C++11. */
module MersenneStream {
  import opened MersenneWords

  const N: nat := 624
  const M: nat := 397

  /** Word k of the stream that starts with the N words of `init`. */
  ghost function X(init: seq<bv32>, k: nat): bv32
    requires |init| == N
  {
    if k < N then init[k]
    else Xor32(X(init, k - N + M), TwistOf(Join(X(init, k - N), X(init, k - N + 1))))
  }

  /** The i-th number generated from the state `init`. */
  ghost function Output(init: seq<bv32>, i: nat): bv32
    requires |init| == N
  {
    Temper(X(init, N + i))
  }

  /** Word i of the window that starts at k. */
  ghost function InWindow(init: seq<bv32>, k: nat, i: nat): bv32
    requires |init| == N
  {
    X(init, k + i)
  }

  // ---------- the 19937 significant bits ----------

  /** The same top bit. */
  predicate SameTop(v: bv32, w: bv32) { v & 0x80000000 == w & 0x80000000 }

  /** The streams have the same significant bits in the windows that start at j and at k: the top
      bit of the first word and all of the other N-1 words. */
  ghost predicate SameWindow(a: seq<bv32>, j: nat, b: seq<bv32>, k: nat)
    requires |a| == N && |b| == N
  {
    SameTop(X(a, j), X(b, k)) && forall i :: 1 <= i < N ==> InWindow(a, j, i) == InWindow(b, k, i)
  }

  lemma JoinTop(u: bv32, l: bv32, u': bv32, l': bv32)
    requires Join(u, l) == Join(u', l')
    ensures SameTop(u, u')
  {
  }

  lemma JoinRest(u: bv32, l: bv32, u': bv32, l': bv32)
    requires Join(u, l) == Join(u', l') && SameTop(l, l')
    ensures l == l'
  {
  }

  lemma JoinSame(u: bv32, l: bv32, u': bv32)
    requires SameTop(u, u')
    ensures Join(u, l) == Join(u', l)
  {
  }

  lemma XorCancels(m: bv32, t: bv32, t': bv32)
    requires Xor32(m, t) == Xor32(m, t')
    ensures t == t'
  {
  }

  /** The last word of the next window. */
  lemma NextWord(a: seq<bv32>, j: nat)
    requires |a| == N
    ensures X(a, j + N) == Xor32(X(a, j + M), TwistOf(Join(X(a, j), X(a, j + 1))))
  {
  }

  /** The significant bits of a window are determined by those of the window before it. */
  lemma WindowForward(a: seq<bv32>, j: nat, b: seq<bv32>, k: nat)
    requires |a| == N && |b| == N && SameWindow(a, j, b, k)
    ensures SameWindow(a, j + 1, b, k + 1) && X(a, j + N) == X(b, k + N)
  {
    NextWord(a, j);
    NextWord(b, k);
    assert InWindow(a, j, 1) == InWindow(b, k, 1) && InWindow(a, j, M) == InWindow(b, k, M);
    JoinSame(X(a, j), X(a, j + 1), X(b, k));
    var j', k' := j + 1, k + 1;
    forall i | 1 <= i < N ensures InWindow(a, j', i) == InWindow(b, k', i) {
      assert i < N - 1 ==> InWindow(a, j, i + 1) == InWindow(b, k, i + 1);
    }
  }

  /** And by those of the window after it: a step can be run backwards on the significant bits. */
  lemma WindowBackward(a: seq<bv32>, j: nat, b: seq<bv32>, k: nat)
    requires |a| == N && |b| == N && SameWindow(a, j + 1, b, k + 1)
    ensures SameWindow(a, j, b, k)
  {
    NextWord(a, j);
    NextWord(b, k);
    assert InWindow(a, j + 1, N - 1) == InWindow(b, k + 1, N - 1);
    assert InWindow(a, j + 1, M - 1) == InWindow(b, k + 1, M - 1);
    var y, z := Join(X(a, j), X(a, j + 1)), Join(X(b, k), X(b, k + 1));
    XorCancels(X(a, j + M), TwistOf(y), TwistOf(z));
    UntwistTwist(y);
    UntwistTwist(z);
    JoinTop(X(a, j), X(a, j + 1), X(b, k), X(b, k + 1));
    JoinRest(X(a, j), X(a, j + 1), X(b, k), X(b, k + 1));
    forall i | 1 <= i < N ensures InWindow(a, j, i) == InWindow(b, k, i) {
      assert i > 1 ==> InWindow(a, j + 1, i - 1) == InWindow(b, k + 1, i - 1);
    }
  }

  /** The streams agree on the significant bits of one pair of windows exactly when they do so at
      the start: no state of a run is reached from two different states. */
  lemma {:induction false} StateIsReversible(a: seq<bv32>, j: nat, b: seq<bv32>, k: nat, steps: nat)
    requires |a| == N && |b| == N
    ensures SameWindow(a, j + steps, b, k + steps) <==> SameWindow(a, j, b, k)
  {
    if steps > 0 {
      StateIsReversible(a, j, b, k, steps - 1);
      if SameWindow(a, j + steps, b, k + steps) {
        WindowBackward(a, j + steps - 1, b, k + steps - 1);
      } else if SameWindow(a, j + (steps - 1), b, k + (steps - 1)) {
        WindowForward(a, j + steps - 1, b, k + steps - 1);
      }
    }
  }

  // ---------- never all zero ----------

  function Zeros(): seq<bv32> { seq(N, _ => 0) }

  lemma {:induction false} ZeroStream(k: nat)
    ensures X(Zeros(), k) == 0
  {
    if k >= N {
      ZeroStream(k - N + M);
      ZeroStream(k - N);
      ZeroStream(k - N + 1);
      assert Join(0, 0) == 0 && TwistOf(0) == 0 && Xor32(0, 0) == 0;
    }
  }

  /** The significant bits of the window at k are all zero. */
  ghost predicate ZeroWindow(a: seq<bv32>, k: nat)
    requires |a| == N
  {
    X(a, k) & 0x80000000 == 0 && forall i :: 1 <= i < N ==> InWindow(a, k, i) == 0
  }

  lemma ZeroWindowIs(a: seq<bv32>, k: nat, j: nat)
    requires |a| == N
    ensures ZeroWindow(a, k) <==> SameWindow(a, k, Zeros(), j)
  {
    ZeroStream(j);
    forall i | 1 <= i < N ensures InWindow(Zeros(), j, i) == 0 {
      ZeroStream(j + i);
    }
  }

  /** A run whose initial significant bits are not all zero never reaches a state where they are. */
  lemma NeverAllZero(a: seq<bv32>, k: nat)
    requires |a| == N && !ZeroWindow(a, 0)
    ensures !ZeroWindow(a, k)
  {
    StateIsReversible(a, 0, Zeros(), 0, k);
    ZeroWindowIs(a, 0, 0);
    ZeroWindowIs(a, k, k);
  }

  // ---------- what N outputs tell ----------

  /** A word is its output, untempered. */
  lemma WordFromOutput(a: seq<bv32>, i: nat)
    requires |a| == N
    ensures X(a, N + i) == Untemper(Output(a, i))
  {
    UntemperTemper(X(a, N + i));
  }

  /** Output n of those that follow output i. */
  ghost function OutputAfter(a: seq<bv32>, i: nat, n: nat): bv32
    requires |a| == N
  {
    Output(a, i + n)
  }

  lemma SameOutputSameWord(a: seq<bv32>, i: nat, b: seq<bv32>, j: nat, n: nat)
    requires |a| == N && |b| == N && OutputAfter(a, i, n) == OutputAfter(b, j, n)
    ensures InWindow(a, N + i, n) == InWindow(b, N + j, n)
  {
    TemperInjective(X(a, N + i + n), X(b, N + j + n));
  }

  /** The N words behind N outputs, untempered, are the state that gave them. */
  lemma OutputsGiveState(a: seq<bv32>, i: nat, b: seq<bv32>, j: nat)
    requires |a| == N && |b| == N
    requires forall n :: 0 <= n < N ==> OutputAfter(a, i, n) == OutputAfter(b, j, n)
    ensures X(a, N + i) == X(b, N + j) && SameWindow(a, N + i, b, N + j)
  {
    var i', j' := N + i, N + j;
    forall n | 0 <= n < N ensures InWindow(a, i', n) == InWindow(b, j', n) {
      SameOutputSameWord(a, i, b, j, n);
    }
    assert InWindow(a, i', 0) == InWindow(b, j', 0);
  }

  /** Runs that agree on N consecutive outputs agree on every later output. */
  lemma OutputsDetermineTheRest(a: seq<bv32>, i: nat, b: seq<bv32>, j: nat, later: nat)
    requires |a| == N && |b| == N
    requires forall n :: 0 <= n < N ==> OutputAfter(a, i, n) == OutputAfter(b, j, n)
    ensures Output(a, i + later) == Output(b, j + later)
  {
    OutputsGiveState(a, i, b, j);
    if later > 0 {
      StateIsReversible(a, N + i, b, N + j, later - 1);
      assert InWindow(a, N + i + (later - 1), 1) == InWindow(b, N + j + (later - 1), 1);
    }
  }
}
