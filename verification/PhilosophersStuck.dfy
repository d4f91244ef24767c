/** When no philosopher can go on any more, and that then nobody ever eats again, whoever comes back
    from wait without being notified. */
module PhilosophersStuck {
  import opened Philosophers
  import opened PhilosophersSafety

  /** Nobody can go on but by coming back from wait without being notified. */
  ghost predicate Stuck(s: State)
    requires Table(s)
  {
    forall p :: 0 <= p < |s.pcs| ==> !CanStep(s, p)
  }

  ghost predicate AllAt(s: State, pc: Pc) { forall p :: 0 <= p < |s.pcs| ==> s.pcs[p] == pc }

  /** If a semaphore has no permit and nobody can step, the philosopher on whose right it is holds it and
      is blocked on the one on the left. */
  lemma NoPermit(s: State, c: nat)
    requires Table(s) && Inv(s) && Stuck(s) && c < |s.pcs| && s.sticks[c].permits == 0
    ensures s.pcs[c] == AcqLeft
  {
    var l := Prev(|s.pcs|, c);
    assert StickOkAt(s, c);
    assert !CanStep(s, c) && !CanStep(s, l);
  }

  /** From one blocked philosopher to the next, round the table. */
  lemma {:induction false} RoundTheTable(s: State, p: nat, d: nat) returns (q: nat)
    requires Table(s) && Inv(s) && Stuck(s) && p < |s.pcs| && s.pcs[p] == AcqLeft && d < |s.pcs|
    ensures q == (if p + d < |s.pcs| then p + d else p + d - |s.pcs|) && s.pcs[q] == AcqLeft
  {
    if d == 0 {
      q := p;
    } else {
      q := RoundTheTable(s, p, d - 1);
      assert !CanStep(s, q);
      q := Next(|s.pcs|, q);
      NoPermit(s, q);
    }
  }

  lemma OneBlockedAllBlocked(s: State, p: nat)
    requires Table(s) && Inv(s) && Stuck(s) && p < |s.pcs| && s.pcs[p] == AcqLeft
    ensures AllAt(s, AcqLeft)
  {
    forall q | 0 <= q < |s.pcs| ensures s.pcs[q] == AcqLeft {
      var r := RoundTheTable(s, p, if q >= p then q - p else q + |s.pcs| - p);
    }
  }

  /** Whoever is blocked but on a notification is blocked by a permit that is gone, perhaps by way of a
      monitor whose owner waits for the permit. */
  lemma BlockedByPermit(s: State, p: nat) returns (c: nat)
    requires Table(s) && Inv(s) && Stuck(s) && p < |s.pcs| && !s.pcs[p].Waiting?
    ensures c < |s.pcs| && s.pcs[c] == AcqLeft
  {
    c := StickUsed(s, p);
    assert !CanStep(s, p);
    assert StickOkAt(s, c);
    assert !CanStep(s, c) && !CanStep(s, Prev(|s.pcs|, c));
    NoPermit(s, c);
  }

  /** A waiting philosopher waits on the left: the owner of a clean right chopstick would have both. */
  lemma WaitsOnLeft(s: State, p: nat)
    requires Table(s) && Inv(s) && p < |s.pcs|
    requires s.pcs[p].Waiting? && s.pcs[Prev(|s.pcs|, p)].Waiting?
    ensures s.pcs[p] == Waiting(Left)
  {
    assert StickOkAt(s, p);
  }

  /** In the states that runs reach, nobody can step exactly when all philosophers hold their right
      chopstick and want the left, or all wait to be notified about the left. */
  lemma StuckIs(s: State)
    requires Table(s) && Inv(s)
    ensures Stuck(s) <==> AllAt(s, AcqLeft) || AllAt(s, Waiting(Left))
  {
    if AllAt(s, AcqLeft) {
      forall p | 0 <= p < |s.pcs| ensures !CanStep(s, p) {
        assert StickOkAt(s, Next(|s.pcs|, p));
      }
    }
    if Stuck(s) {
      if p :| 0 <= p < |s.pcs| && !s.pcs[p].Waiting? {
        var c := BlockedByPermit(s, p);
        OneBlockedAllBlocked(s, c);
      } else {
        forall p | 0 <= p < |s.pcs| ensures s.pcs[p] == Waiting(Left) {
          WaitsOnLeft(s, p);
        }
      }
    }
  }

  // ---------- for ever ----------

  /** All philosophers try for the left chopstick, which its other neighbour has clean. */
  ghost predicate AllTryLeft(s: State)
    requires Table(s)
  {
    forall p :: 0 <= p < |s.pcs| ==>
      && (s.pcs[p] == Waiting(Left) || s.pcs[p] == Entering(Left) || s.pcs[p] == Checking(Left))
      && s.sticks[p].clean && s.sticks[p].mainuser == p
  }

  lemma AllTryLeftStays(s: State, m: Move)
    requires Table(s) && AllTryLeft(s)
    ensures AllTryLeft(Do(s, m))
  {
  }

  lemma WaitersTryLeft(s: State)
    requires Table(s) && Inv(s) && AllAt(s, Waiting(Left))
    ensures AllTryLeft(s)
  {
    forall c | 0 <= c < |s.pcs| ensures s.sticks[c].clean && s.sticks[c].mainuser == c {
      assert StickOkAt(s, c);
    }
  }

  lemma AllHoldRightStays(s: State, m: Move)
    requires Table(s) && Inv(s) && AllAt(s, AcqLeft)
    ensures Do(s, m) == s
  {
    StuckIs(s);
  }

  lemma {:induction false} NobodyEats(s: State, moves: seq<Move>, p: nat)
    requires Table(s) && Inv(s) && p < |s.pcs| && (AllAt(s, AcqLeft) || AllTryLeft(s))
    ensures !Run(s, moves).pcs[p].Eating?
    decreases |moves|
  {
    if moves != [] {
      DoKeepsInv(s, moves[0]);
      if AllTryLeft(s) { AllTryLeftStays(s, moves[0]); } else { AllHoldRightStays(s, moves[0]); }
      NobodyEats(Do(s, moves[0]), moves[1..], p);
    }
  }

  /** From a stuck state on nobody ever eats, not even if waiting philosophers wake without a notification. */
  lemma StuckIsForever(s: State, moves: seq<Move>, p: nat)
    requires Table(s) && Inv(s) && Stuck(s) && p < |s.pcs|
    ensures !Run(s, moves).pcs[p].Eating?
  {
    StuckIs(s);
    if AllAt(s, Waiting(Left)) { WaitersTryLeft(s); }
    NobodyEats(s, moves, p);
  }
}
