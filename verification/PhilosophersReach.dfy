/** Runs that leave the philosophers stuck, for every number of them. */
module PhilosophersReach {
  import opened Philosophers
  import opened PhilosophersSafety
  import opened PhilosophersStuck

  ghost predicate Reaches(s: State, t: State)
    requires Table(s)
  {
    exists moves :: Run(s, moves) == t
  }

  lemma {:induction false} RunAppend(s: State, a: seq<Move>, b: seq<Move>)
    requires Table(s)
    ensures Run(s, a + b) == Run(Run(s, a), b)
    decreases |a|
  {
    if a == [] {
      assert a + b == b;
    } else {
      assert (a + b)[1..] == a[1..] + b;
      RunAppend(Do(s, a[0]), a[1..], b);
    }
  }

  lemma ReachesSelf(s: State)
    requires Table(s)
    ensures Reaches(s, s)
  {
    assert Run(s, []) == s;
  }

  lemma ReachesThen(s: State, t: State, u: State)
    requires Table(s) && Reaches(s, t) && Table(t) && Reaches(t, u)
    ensures Reaches(s, u)
  {
    var a :| Run(s, a) == t;
    var b :| Run(t, b) == u;
    RunAppend(s, a, b);
    assert Run(s, a + b) == u;
  }

  // ---------- what one philosopher can do while the others stand still ----------

  /** Philosopher p goes to pc and the chopstick on this side becomes k. */
  function Put(s: State, p: nat, pc: Pc, side: Side, k: Chopstick): (t: State)
    requires Table(s) && p < |s.pcs|
    ensures Table(t) && |t.pcs| == |s.pcs|
  {
    State(s.pcs[p := pc], s.sticks[StickOf(|s.pcs|, p, side) := k])
  }

  function StickAt(s: State, p: nat, side: Side): Chopstick
    requires Table(s) && p < |s.pcs|
  {
    s.sticks[StickOf(|s.pcs|, p, side)]
  }

  /** One step of p about the chopstick on this side. */
  lemma Goes(s: State, p: nat, side: Side, pc: Pc, k: Chopstick)
    requires Table(s) && p < |s.pcs| && Uses(pc) == side && Can(pc, k) && !pc.Setting?
    ensures Reaches(Put(s, p, pc, side, k), Put(s, p, NextPc(pc, p, k), side, NextStick(pc, p, k)))
  {
    var t := Put(s, p, pc, side, k);
    var u := Put(s, p, NextPc(pc, p, k), side, NextStick(pc, p, k));
    assert Step(t, p) == u;
    assert Run(u, []) == u;
    assert Run(t, [Go(p)]) == u;
  }

  lemma PutSame(s: State, p: nat, side: Side)
    requires Table(s) && p < |s.pcs|
    ensures Put(s, p, s.pcs[p], side, StickAt(s, p, side)) == s
  {
  }

  /** Where grabChopstick leads for each side. */
  function Grabbed(side: Side): Pc { if side == Right then Entering(Left) else AcqRight }

  /** grabChopstick of a chopstick whose main user one is already. */
  lemma Passes(s: State, p: nat, side: Side, k: Chopstick)
    requires Table(s) && p < |s.pcs| && s.pcs[p] == Entering(side) && StickAt(s, p, side) == k
    requires k.mainuser == p && k.monitor.Free?
    ensures Reaches(s, Put(s, p, Grabbed(side), side, k))
  {
    PutSame(s, p, side);
    Goes(s, p, side, Entering(side), k);
    Goes(s, p, side, Checking(side), k.(monitor := Owned(p)));
    ReachesThen(s, Put(s, p, Checking(side), side, k.(monitor := Owned(p))), Put(s, p, Grabbed(side), side, k));
  }

  /** grabChopstick of a chopstick that the neighbour has clean: wait. */
  lemma Waits(s: State, p: nat, side: Side, k: Chopstick)
    requires Table(s) && p < |s.pcs| && s.pcs[p] == Entering(side) && StickAt(s, p, side) == k
    requires k.mainuser != p && k.clean && k.monitor.Free?
    ensures Reaches(s, Put(s, p, Waiting(side), side, k))
  {
    PutSame(s, p, side);
    Goes(s, p, side, Entering(side), k);
    Goes(s, p, side, Checking(side), k.(monitor := Owned(p)));
    ReachesThen(s, Put(s, p, Checking(side), side, k.(monitor := Owned(p))), Put(s, p, Waiting(side), side, k));
  }

  /** grabChopstick of a dirty chopstick of the neighbour: acquire it. */
  lemma GetsPermit(s: State, p: nat, side: Side, q: nat)
    requires Table(s) && p < |s.pcs| && q != p && s.pcs[p] == Entering(side)
    requires StickAt(s, p, side) == Chopstick(q, 1, false, Free)
    ensures Reaches(s, Put(s, p, Taking(side), side, Chopstick(q, 0, false, Owned(p))))
  {
    var k := Chopstick(q, 1, false, Owned(p));
    PutSame(s, p, side);
    Goes(s, p, side, Entering(side), Chopstick(q, 1, false, Free));
    Goes(s, p, side, Checking(side), k);
    Goes(s, p, side, Acquiring(side), k);
    ReachesThen(s, Put(s, p, Checking(side), side, k), Put(s, p, Acquiring(side), side, k));
    ReachesThen(s, Put(s, p, Acquiring(side), side, k), Put(s, p, Taking(side), side, k.(permits := 0)));
  }

  /** And become its main user. */
  lemma Takes(s: State, p: nat, side: Side, q: nat)
    requires Table(s) && p < |s.pcs| && q != p && s.pcs[p] == Entering(side)
    requires StickAt(s, p, side) == Chopstick(q, 1, false, Free)
    ensures Reaches(s, Put(s, p, Grabbed(side), side, Chopstick(p, 1, true, Free)))
  {
    var a, k := Put(s, p, Taking(side), side, Chopstick(q, 0, false, Owned(p))), Chopstick(p, 1, true, Owned(p));
    GetsPermit(s, p, side, q);
    Goes(s, p, side, Taking(side), Chopstick(q, 0, false, Owned(p)));
    Goes(s, p, side, Releasing(side), k.(permits := 0));
    Goes(s, p, side, Checking(side), k);
    ReachesThen(s, a, Put(s, p, Releasing(side), side, k.(permits := 0)));
    ReachesThen(s, Put(s, p, Releasing(side), side, k.(permits := 0)), Put(s, p, Checking(side), side, k));
    ReachesThen(s, Put(s, p, Checking(side), side, k), Put(s, p, Grabbed(side), side, k.(monitor := Free)));
  }

  lemma Begins(s: State, p: nat)
    requires Table(s) && p < |s.pcs| && s.pcs[p] == Thinking
    ensures Reaches(s, Put(s, p, Entering(Right), Right, StickAt(s, p, Right)))
  {
    PutSame(s, p, Right);
    Goes(s, p, Right, Thinking, StickAt(s, p, Right));
  }

  /** A chopstick nobody is using at the moment. */
  function Lying(user: nat, clean: bool): Chopstick { Chopstick(user, 1, clean, Free) }

  /** From thinking to wanting the left chopstick, by taking the right one from the neighbour. */
  lemma TakesRight(s: State, p: nat, q: nat)
    requires Table(s) && p < |s.pcs| && q != p && s.pcs[p] == Thinking && StickAt(s, p, Right) == Lying(q, false)
    ensures Reaches(s, Put(s, p, Entering(Left), Right, Lying(p, true)))
  {
    Begins(s, p);
    var t := Put(s, p, Entering(Right), Right, Lying(q, false));
    Takes(t, p, Right, q);
    assert Put(t, p, Entering(Left), Right, Lying(p, true)) == Put(s, p, Entering(Left), Right, Lying(p, true));
    ReachesThen(s, t, Put(s, p, Entering(Left), Right, Lying(p, true)));
  }

  /** The same when it is one's own, dirty. */
  lemma PassesRight(s: State, p: nat)
    requires Table(s) && p < |s.pcs| && s.pcs[p] == Thinking && StickAt(s, p, Right) == Lying(p, false)
    ensures Reaches(s, Put(s, p, Entering(Left), Right, Lying(p, false)))
  {
    Begins(s, p);
    var t := Put(s, p, Entering(Right), Right, Lying(p, false));
    Passes(t, p, Right, Lying(p, false));
    assert Put(t, p, Entering(Left), Right, Lying(p, false)) == Put(s, p, Entering(Left), Right, Lying(p, false));
    ReachesThen(s, t, Put(s, p, Entering(Left), Right, Lying(p, false)));
  }

  lemma Sets(s: State, p: nat, side: Side, k: Chopstick)
    requires Table(s) && p < |s.pcs| && s.pcs[p] == Setting(side) && StickAt(s, p, side) == k && k.monitor.Free?
    requires s.pcs[Neighbour(|s.pcs|, p, side)] != Waiting(Opposite(side))
    ensures Reaches(s, Put(s, p, if side == Right then Setting(Left) else Thinking, side, k.(clean := false)))
  {
    var u := Put(s, p, if side == Right then Setting(Left) else Thinking, side, k.(clean := false));
    assert Step(s, p) == u;
    assert Run(u, []) == u;
    assert Run(s, [Go(p)]) == u;
  }

  lemma StartsToEat(s: State, p: nat, r: Chopstick, l: Chopstick)
    requires Table(s) && p < |s.pcs| && s.pcs[p] == AcqRight && StickAt(s, p, Right) == r && StickAt(s, p, Left) == l
    requires r.permits == 1 && l.permits == 1
    ensures Reaches(s, Put(Put(s, p, AcqLeft, Right, r.(permits := 0)), p, Eating, Left, l.(permits := 0)))
  {
    PutSame(s, p, Right);
    Goes(s, p, Right, AcqRight, r);
    var a := Put(s, p, AcqLeft, Right, r.(permits := 0));
    PutSame(a, p, Left);
    Goes(a, p, Left, AcqLeft, l);
    ReachesThen(s, a, Put(a, p, Eating, Left, l.(permits := 0)));
  }

  lemma StopsEating(s: State, p: nat, r: Chopstick, l: Chopstick)
    requires Table(s) && p < |s.pcs| && s.pcs[p] == Eating && StickAt(s, p, Right) == r && StickAt(s, p, Left) == l
    requires r.permits == 0 && l.permits == 0
    ensures Reaches(s, Put(Put(s, p, RelLeft, Right, r.(permits := 1)), p, Setting(Right), Left, l.(permits := 1)))
  {
    PutSame(s, p, Right);
    Goes(s, p, Right, Eating, r);
    Goes(s, p, Right, RelRight, r);
    var a := Put(s, p, RelLeft, Right, r.(permits := 1));
    ReachesThen(s, Put(s, p, RelRight, Right, r), a);
    PutSame(a, p, Left);
    Goes(a, p, Left, RelLeft, l);
    ReachesThen(s, a, Put(a, p, Setting(Right), Left, l.(permits := 1)));
  }

  /** eat, and setting the right chopstick down. */
  lemma Eats(s: State, p: nat, q: nat, clean: bool)
    requires Table(s) && p < |s.pcs| && s.pcs[p] == AcqRight
    requires StickAt(s, p, Right) == Lying(q, clean) && StickAt(s, p, Left).permits == 1
    requires s.pcs[Prev(|s.pcs|, p)] != Waiting(Left)
    ensures Reaches(s, Put(s, p, Setting(Left), Right, Lying(q, false)))
  {
    var r, l := Lying(q, clean), StickAt(s, p, Left);
    StartsToEat(s, p, r, l);
    var a := Put(Put(s, p, AcqLeft, Right, r.(permits := 0)), p, Eating, Left, l.(permits := 0));
    StopsEating(a, p, r.(permits := 0), l.(permits := 0));
    var b := Put(s, p, Setting(Right), Right, r);
    assert Put(Put(a, p, RelLeft, Right, r), p, Setting(Right), Left, l) == b;
    Sets(b, p, Right, r);
    assert Put(b, p, Setting(Left), Right, Lying(q, false)) == Put(s, p, Setting(Left), Right, Lying(q, false));
    ReachesThen(s, a, b);
    ReachesThen(s, b, Put(s, p, Setting(Left), Right, Lying(q, false)));
  }
}
