/** Two passes of the seeding loops of MT19937 seen as one: step after step rewrites the words at
    positions 1 to N-1 of an array in turn, each from its old value and the word written just
    before. This is a recurrence of lag N-1, whatever the words are and however they are mixed. */
module MersenneRounds {
  import opened MersenneStream

  /** Step t of the seeding loops writes mt[Position(t)]: 1, 2, ..., N-1, 1, 2, ... */
  ghost function Position(t: nat): (i: nat)
    requires t >= 1
    ensures 1 <= i < N
  {
    if t == 1 then 1 else if Position(t - 1) + 1 >= N then 1 else Position(t - 1) + 1
  }

  lemma {:induction false} PositionStart(t: nat)
    requires 1 <= t < N
    ensures Position(t) == t
  {
    if t > 1 { PositionStart(t - 1); }
  }

  lemma {:induction false} PositionRepeats(t: nat)
    requires t >= N
    ensures Position(t) == Position(t - (N - 1))
  {
    if t == N {
      PositionStart(N - 1);
    } else {
      PositionRepeats(t - 1);
    }
  }

  /** Between two steps at one position the others are visited. */
  lemma {:induction false} PositionsDiffer(t: nat, d: nat)
    requires t >= 1 && 1 <= d < N - 1
    ensures Position(t + d) != Position(t)
  {
    if t >= N {
      PositionRepeats(t);
      PositionRepeats(t + d);
      PositionsDiffer(t - (N - 1), d);
    } else if t + d < N {
      PositionStart(t);
      PositionStart(t + d);
    } else {
      PositionStart(t);
      PositionRepeats(t + d);
      PositionStart(t + d - (N - 1));
    }
  }

  lemma {:induction false} LatestAt(last: nat, i: nat) returns (t: nat)
    requires last >= N - 1 && 1 <= i < N
    ensures last - (N - 1) < t <= last && Position(t) == i
  {
    if last == N - 1 {
      PositionStart(i);
      t := i;
    } else {
      t := LatestAt(last - 1, i);
      if t == last - (N - 1) {
        PositionRepeats(last);
        t := last;
      }
    }
  }

  // ---------- the words ----------

  /** The word written by step t (for t = 0: the word before the first). */
  ghost function Written<T>(start: nat -> T, mix: (nat, T, T) -> T, t: nat): T
    decreases t, 0
  {
    if t == 0 then start(0)
    else mix(t, Cell(start, mix, t - 1, Position(t)), Written(start, mix, t - 1))
  }

  /** What position i holds after t steps. */
  ghost function Cell<T>(start: nat -> T, mix: (nat, T, T) -> T, t: nat, i: nat): T
    requires 1 <= i < N
    decreases t, 1
  {
    if t == 0 then start(i)
    else if Position(t) == i then Written(start, mix, t)
    else Cell(start, mix, t - 1, i)
  }

  /** A position not visited again keeps its word. */
  lemma {:induction false} CellKept<T>(start: nat -> T, mix: (nat, T, T) -> T, t: nat, d: nat)
    requires t >= 1 && d < N - 1
    ensures Cell(start, mix, t + d, Position(t)) == Written(start, mix, t)
  {
    if d > 0 {
      CellKept(start, mix, t, d - 1);
      PositionsDiffer(t, d);
    }
  }

  lemma {:induction false} CellUntouched<T>(start: nat -> T, mix: (nat, T, T) -> T, t: nat, i: nat)
    requires t < i < N
    ensures Cell(start, mix, t, i) == start(i)
  {
    if t > 0 {
      PositionStart(t);
      CellUntouched(start, mix, t - 1, i);
    }
  }

  /** The word a step replaces: a starting word in the first round, then the word of the round before. */
  ghost function Replaced<T>(start: nat -> T, mix: (nat, T, T) -> T, t: nat): T
    requires t >= 1
  {
    if t < N then start(t) else Written(start, mix, t - (N - 1))
  }

  lemma WrittenIs<T>(start: nat -> T, mix: (nat, T, T) -> T, t: nat)
    requires t >= 1
    ensures Written(start, mix, t) == mix(t, Replaced(start, mix, t), Written(start, mix, t - 1))
  {
    if t < N {
      PositionStart(t);
      CellUntouched(start, mix, t - 1, t);
    } else {
      PositionRepeats(t);
      CellKept(start, mix, t - (N - 1), N - 2);
    }
  }

  // ---------- two ways of mixing ----------

  /** No two replaced words give the same word once the first N steps are over. */
  ghost predicate Reversible<T(!new)>(f: (nat, T, T) -> T, g: (nat, T, T) -> T) {
    forall t: nat, v: T, w: T, z: T :: t > N && f(t, v, z) == g(t, w, z) ==> v == w
  }

  ghost predicate Agree<T>(start: nat -> T, f: (nat, T, T) -> T, g: (nat, T, T) -> T, t: nat) {
    Written(start, f, t) == Written(start, g, t)
  }

  lemma AgreeEarlier<T(!new)>(start: nat -> T, f: (nat, T, T) -> T, g: (nat, T, T) -> T, t: nat, later: nat)
    requires Reversible(f, g) && later == t + (N - 1) && t >= 2
    requires Agree(start, f, g, later) && Agree(start, f, g, later - 1)
    ensures Agree(start, f, g, t)
  {
    WrittenIs(start, f, later);
    WrittenIs(start, g, later);
  }

  /** Words that agree over the last round agree back to the second step. */
  lemma AgreeBack<T(!new)>(start: nat -> T, f: (nat, T, T) -> T, g: (nat, T, T) -> T, t: nat)
    requires Reversible(f, g) && forall u :: N < u < N + N ==> Agree(start, f, g, u)
    requires 2 <= t <= N
    ensures Agree(start, f, g, t)
  {
    if t == 2 {
      AgreeEarlier(start, f, g, N, N + (N - 1));
    }
    AgreeEarlier(start, f, g, t, t + (N - 1));
  }

  /** The same mixing in every step from the third on, the N-th excepted. */
  ghost predicate SameMixing<T(!new)>(f: (nat, T, T) -> T, g: (nat, T, T) -> T) {
    forall t: nat, v: T, w: T :: t >= 3 && t != N ==> f(t, v, w) == g(t, v, w)
  }

  /** In step N the mixing makes up for different replaced words. */
  ghost predicate MakesUp<T(!new)>(f: (nat, T, T) -> T, v: T, g: (nat, T, T) -> T, w: T) {
    forall z: T :: f(N, v, z) == g(N, w, z)
  }

  lemma AgreeNext<T(!new)>(start: nat -> T, f: (nat, T, T) -> T, g: (nat, T, T) -> T, t: nat)
    requires SameMixing(f, g) && MakesUp(f, Written(start, f, 1), g, Written(start, g, 1))
    requires t >= 3 && Agree(start, f, g, t - 1) && (t > N ==> Agree(start, f, g, t - (N - 1)))
    ensures Agree(start, f, g, t)
  {
    WrittenIs(start, f, t);
    WrittenIs(start, g, t);
  }

  /** Words that agree in the second step agree from then on. */
  lemma {:induction false} AgreeOn<T(!new)>(start: nat -> T, f: (nat, T, T) -> T, g: (nat, T, T) -> T, t: nat)
    requires SameMixing(f, g) && MakesUp(f, Written(start, f, 1), g, Written(start, g, 1))
    requires t >= 2 && Agree(start, f, g, 2)
    ensures Agree(start, f, g, t)
  {
    if t > 2 {
      AgreeOn(start, f, g, t - 1);
      if t > N { AgreeOn(start, f, g, t - (N - 1)); }
      AgreeNext(start, f, g, t);
    }
  }
}
