/** Both ways in which the philosophers can get stuck are reached, whatever their number. */
module PhilosophersRuns {
  import opened Philosophers
  import opened PhilosophersReach
  import opened PhilosophersSafety
  import opened PhilosophersStuck

  lemma StuckIfReached(n: nat, t: State)
    requires n >= 2 && Reaches(Init(n), t) && Table(t) && (AllAt(t, AcqLeft) || AllAt(t, Waiting(Left)))
    ensures Stuck(t)
  {
    var moves :| Run(Init(n), moves) == t;
    InitOk(n);
    RunKeepsInv(Init(n), moves);
    StuckIs(t);
  }

  // ---------- all hold their right chopstick and want the left ----------

  /** Philosophers below k have grabbed both chopsticks and are about to eat; 0 < k. */
  ghost predicate GrabbedBoth(s: State, k: nat)
    requires Table(s)
  {
    && (forall p :: 0 <= p < |s.pcs| ==> s.pcs[p] == if p < k then AcqRight else Thinking)
    && s.sticks[0] == Lying(0, false)
    && (forall c :: 0 < c < |s.pcs| ==> s.sticks[c] == if c < k then Lying(c, true) else Lying(c - 1, false))
  }

  lemma FirstGrabsBoth(n: nat) returns (t: State)
    requires n >= 2
    ensures Reaches(Init(n), t) && |t.pcs| == n && Table(t) && GrabbedBoth(t, 1)
  {
    var s := Init(n);
    PassesRight(s, 0);
    var a := Put(s, 0, Entering(Left), Right, Lying(0, false));
    Passes(a, 0, Left, Lying(0, false));
    t := Put(a, 0, AcqRight, Left, Lying(0, false));
    ReachesThen(s, a, t);
  }

  lemma {:induction false} OthersGrabBoth(s: State, k: nat) returns (t: State)
    requires Table(s) && 0 < k < |s.pcs| && GrabbedBoth(s, k)
    ensures Reaches(s, t) && |t.pcs| == |s.pcs| && Table(t) && GrabbedBoth(t, |s.pcs| - 1)
    decreases |s.pcs| - k
  {
    if k == |s.pcs| - 1 {
      t := s;
      ReachesSelf(s);
    } else {
      TakesRight(s, k, k - 1);
      var a := Put(s, k, Entering(Left), Right, Lying(k, true));
      Passes(a, k, Left, Lying(k, false));
      var b := Put(a, k, AcqRight, Left, Lying(k, false));
      t := OthersGrabBoth(b, k + 1);
      ReachesThen(s, a, b);
      ReachesThen(s, b, t);
    }
  }

  /** Philosophers below k have acquired the semaphore on the right; all the others are about to. */
  ghost predicate AcquiredRight(s: State, k: nat)
    requires Table(s)
  {
    && (forall p :: 0 <= p < |s.pcs| ==> s.pcs[p] == if p < k then AcqLeft else AcqRight)
    && (forall c :: k <= c < |s.pcs| ==> s.sticks[c].permits == 1)
  }

  /** The last philosopher takes a chopstick from each neighbour. */
  lemma LastGrabsBoth(s: State) returns (t: State)
    requires Table(s) && GrabbedBoth(s, |s.pcs| - 1)
    ensures Reaches(s, t) && |t.pcs| == |s.pcs| && Table(t) && AcquiredRight(t, 0)
  {
    var p := |s.pcs| - 1;
    TakesRight(s, p, p - 1);
    var a := Put(s, p, Entering(Left), Right, Lying(p, true));
    Takes(a, p, Left, 0);
    t := Put(a, p, AcqRight, Left, Lying(p, true));
    ReachesThen(s, a, t);
  }

  lemma {:induction false} AllAcquireRight(s: State, k: nat) returns (t: State)
    requires Table(s) && k <= |s.pcs| && AcquiredRight(s, k)
    ensures Reaches(s, t) && |t.pcs| == |s.pcs| && Table(t) && AllAt(t, AcqLeft)
    decreases |s.pcs| - k
  {
    if k == |s.pcs| {
      t := s;
      ReachesSelf(s);
    } else {
      PutSame(s, k, Right);
      Goes(s, k, Right, AcqRight, s.sticks[k]);
      var a := Put(s, k, AcqLeft, Right, s.sticks[k].(permits := 0));
      t := AllAcquireRight(a, k + 1);
      ReachesThen(s, a, t);
    }
  }

  /** For every number of philosophers a run reaches the state where all hold one chopstick. */
  lemma AllCanHoldRight(n: nat) returns (t: State)
    requires n >= 2
    ensures Reaches(Init(n), t) && Table(t) && AllAt(t, AcqLeft) && Stuck(t)
  {
    var a := FirstGrabsBoth(n);
    var b := OthersGrabBoth(a, 1);
    var c := LastGrabsBoth(b);
    t := AllAcquireRight(c, 0);
    ReachesThen(Init(n), a, b);
    ReachesThen(Init(n), b, c);
    ReachesThen(Init(n), c, t);
    StuckIfReached(n, t);
  }

  // ---------- all wait to be notified about the left chopstick ----------

  /** Philosophers below k have grabbed the chopstick on the right only; 0 < k. */
  ghost predicate GrabbedRight(s: State, k: nat)
    requires Table(s)
  {
    && (forall p :: 0 <= p < |s.pcs| ==> s.pcs[p] == if p < k then Entering(Left) else Thinking)
    && s.sticks[0] == Lying(0, false)
    && (forall c :: 0 < c < |s.pcs| ==> s.sticks[c] == if c < k then Lying(c, true) else Lying(c - 1, false))
  }

  lemma FirstGrabsRight(n: nat) returns (t: State)
    requires n >= 2
    ensures Reaches(Init(n), t) && |t.pcs| == n && Table(t) && GrabbedRight(t, 1)
  {
    PassesRight(Init(n), 0);
    t := Put(Init(n), 0, Entering(Left), Right, Lying(0, false));
  }

  lemma {:induction false} OthersGrabRight(s: State, k: nat) returns (t: State)
    requires Table(s) && 0 < k <= |s.pcs| && GrabbedRight(s, k)
    ensures Reaches(s, t) && |t.pcs| == |s.pcs| && Table(t) && GrabbedRight(t, |s.pcs|)
    decreases |s.pcs| - k
  {
    if k == |s.pcs| {
      t := s;
      ReachesSelf(s);
    } else {
      TakesRight(s, k, k - 1);
      var a := Put(s, k, Entering(Left), Right, Lying(k, true));
      t := OthersGrabRight(a, k + 1);
      ReachesThen(s, a, t);
    }
  }

  /** Philosophers from k on have taken the left chopstick too, have eaten, and have set the right one down
      but not the left; 0 < k. */
  ghost predicate HaveEaten(s: State, k: nat)
    requires Table(s)
  {
    var n := |s.pcs|;
    && (forall p :: 0 <= p < n ==> s.pcs[p] == if p < k then Entering(Left) else Setting(Left))
    && s.sticks[0] == (if k < n then Lying(n - 1, true) else Lying(0, false))
    && (forall c :: 0 < c < n ==> s.sticks[c] == if c <= k then Lying(c, c < k) else Lying(c - 1, true))
  }

  /** Philosopher p takes the dirty left chopstick from its neighbour, eats, and sets the right one down. */
  lemma TakesLeftAndEats(s: State, p: nat, r: nat, clean: bool) returns (t: State)
    requires Table(s) && p < |s.pcs| && s.pcs[p] == Entering(Left)
    requires StickAt(s, p, Left) == Lying(Next(|s.pcs|, p), false) && StickAt(s, p, Right) == Lying(r, clean)
    requires s.pcs[Prev(|s.pcs|, p)] != Waiting(Left)
    ensures Reaches(s, t) && |t.pcs| == |s.pcs| && Table(t)
    ensures t.pcs == s.pcs[p := Setting(Left)]
    ensures t.sticks == s.sticks[Next(|s.pcs|, p) := Lying(p, true)][p := Lying(r, false)]
  {
    Takes(s, p, Left, Next(|s.pcs|, p));
    var a := Put(s, p, AcqRight, Left, Lying(p, true));
    Eats(a, p, r, clean);
    t := Put(a, p, Setting(Left), Right, Lying(r, false));
    ReachesThen(s, a, t);
  }

  lemma {:induction false} OthersEat(s: State, k: nat) returns (t: State)
    requires Table(s) && 0 < k <= |s.pcs| && HaveEaten(s, k)
    ensures Reaches(s, t) && |t.pcs| == |s.pcs| && Table(t) && HaveEaten(t, 1)
    decreases k
  {
    if k == 1 {
      t := s;
      ReachesSelf(s);
    } else {
      var a := TakesLeftAndEats(s, k - 1, k - 1, true);
      t := OthersEat(a, k - 1);
      ReachesThen(s, a, t);
    }
  }

  /** Philosophers below k are done; every chopstick lies with the neighbour on whose left it is, dirty
      if that neighbour is done. */
  ghost predicate SetDown(s: State, k: nat)
    requires Table(s)
  {
    var n := |s.pcs|;
    && (forall p :: 0 <= p < n ==> s.pcs[p] == if p < k then Thinking else Setting(Left))
    && (forall c :: 0 <= c < n ==>
          s.sticks[c] == Lying(Prev(n, c), s.sticks[c].clean) && (Prev(n, c) < k ==> !s.sticks[c].clean))
  }

  lemma FirstEats(s: State) returns (t: State)
    requires Table(s) && HaveEaten(s, 1)
    ensures Reaches(s, t) && |t.pcs| == |s.pcs| && Table(t) && SetDown(t, 0)
  {
    t := TakesLeftAndEats(s, 0, |s.pcs| - 1, true);
  }

  lemma {:induction false} AllSetDown(s: State, k: nat) returns (t: State)
    requires Table(s) && k <= |s.pcs| && SetDown(s, k)
    ensures Reaches(s, t) && |t.pcs| == |s.pcs| && Table(t) && SetDown(t, |s.pcs|)
    decreases |s.pcs| - k
  {
    if k == |s.pcs| {
      t := s;
      ReachesSelf(s);
    } else {
      var c := Next(|s.pcs|, k);
      Sets(s, k, Left, s.sticks[c]);
      var a := Put(s, k, Thinking, Left, s.sticks[c].(clean := false));
      t := AllSetDown(a, k + 1);
      ReachesThen(s, a, t);
    }
  }

  /** Now philosophers below k have taken the chopstick on the right from the neighbour. */
  ghost predicate TookRight(s: State, k: nat)
    requires Table(s)
  {
    && (forall p :: 0 <= p < |s.pcs| ==> s.pcs[p] == if p < k then Entering(Left) else Thinking)
    && (forall c :: 0 <= c < |s.pcs| ==> s.sticks[c] == if c < k then Lying(c, true) else Lying(Prev(|s.pcs|, c), false))
  }

  lemma {:induction false} AllTakeRight(s: State, k: nat) returns (t: State)
    requires Table(s) && k <= |s.pcs| && TookRight(s, k)
    ensures Reaches(s, t) && |t.pcs| == |s.pcs| && Table(t) && TookRight(t, |s.pcs|)
    decreases |s.pcs| - k
  {
    if k == |s.pcs| {
      t := s;
      ReachesSelf(s);
    } else {
      TakesRight(s, k, Prev(|s.pcs|, k));
      var a := Put(s, k, Entering(Left), Right, Lying(k, true));
      t := AllTakeRight(a, k + 1);
      ReachesThen(s, a, t);
    }
  }

  /** And philosophers below k wait for the one on the left. */
  ghost predicate WaitLeft(s: State, k: nat)
    requires Table(s)
  {
    && (forall p :: 0 <= p < |s.pcs| ==> s.pcs[p] == if p < k then Waiting(Left) else Entering(Left))
    && (forall c :: 0 <= c < |s.pcs| ==> s.sticks[c] == Lying(c, true))
  }

  lemma {:induction false} AllWaitLeft(s: State, k: nat) returns (t: State)
    requires Table(s) && k <= |s.pcs| && WaitLeft(s, k)
    ensures Reaches(s, t) && |t.pcs| == |s.pcs| && Table(t) && AllAt(t, Waiting(Left))
    decreases |s.pcs| - k
  {
    if k == |s.pcs| {
      t := s;
      ReachesSelf(s);
    } else {
      var c := Next(|s.pcs|, k);
      Waits(s, k, Left, Lying(c, true));
      var a := Put(s, k, Waiting(Left), Left, Lying(c, true));
      t := AllWaitLeft(a, k + 1);
      ReachesThen(s, a, t);
    }
  }

  /** After one meal each, all chopsticks can lie dirty with the neighbour on whose left they are. */
  lemma AllCanTurn(n: nat) returns (t: State)
    requires n >= 2
    ensures Reaches(Init(n), t) && |t.pcs| == n && Table(t) && TookRight(t, 0)
  {
    var a := FirstGrabsRight(n);
    var b := OthersGrabRight(a, 1);
    var c := OthersEat(b, n);
    var d := FirstEats(c);
    t := AllSetDown(d, 0);
    ReachesThen(Init(n), a, b);
    ReachesThen(Init(n), b, c);
    ReachesThen(Init(n), c, d);
    ReachesThen(Init(n), d, t);
  }

  /** For every number of philosophers a run reaches the state where all wait and nobody is left to
      notify them. */
  lemma AllCanWait(n: nat) returns (t: State)
    requires n >= 2
    ensures Reaches(Init(n), t) && Table(t) && AllAt(t, Waiting(Left)) && Stuck(t)
  {
    var a := AllCanTurn(n);
    var b := AllTakeRight(a, 0);
    t := AllWaitLeft(b, 0);
    ReachesThen(Init(n), a, b);
    ReachesThen(Init(n), b, t);
    StuckIfReached(n, t);
  }
}
