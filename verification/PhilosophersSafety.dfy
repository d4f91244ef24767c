/** What every step of every philosopher keeps, and that neighbours never eat at the same time. */
module PhilosophersSafety {
  import opened Philosophers

  /** The philosopher holds the semaphore of the chopstick on this side. */
  predicate HoldsSem(pc: Pc, side: Side) {
    || pc == Taking(side) || pc == Releasing(side) || pc == Eating || pc == RelRight
    || (side == Right && pc == AcqLeft) || (side == Left && pc == RelLeft)
  }

  /** The philosopher is inside the monitor of that chopstick. */
  predicate InMonitor(pc: Pc, side: Side) {
    pc == Checking(side) || pc == Acquiring(side) || pc == Taking(side) || pc == Releasing(side)
  }

  predicate InEat(pc: Pc) { pc == AcqRight || pc == AcqLeft || pc == Eating || pc == RelRight || pc == RelLeft }

  /** The philosopher may have the chopstick clean: it has grabbed it and not set it down since. */
  predicate MayClaim(pc: Pc, side: Side) {
    || pc == Releasing(side) || pc == Checking(side) || InEat(pc) || pc == Setting(Right)
    || (side == Left && pc == Setting(Left))
    || (side == Right &&
          (pc == Entering(Left) || pc == Checking(Left) || pc == Acquiring(Left) || pc == Taking(Left) ||
           pc == Releasing(Left) || pc == Waiting(Left)))
  }

  function Bit(b: bool): nat { if b then 1 else 0 }

  /** A chopstick k between the philosopher r on whose right it is, at pr, and l on whose left, at pl. */
  predicate StickOk(k: Chopstick, r: nat, pr: Pc, l: nat, pl: Pc) {
    && k.permits + Bit(HoldsSem(pr, Right)) + Bit(HoldsSem(pl, Left)) == 1
    && (k.monitor == Owned(r) <==> InMonitor(pr, Right))
    && (k.monitor == Owned(l) <==> InMonitor(pl, Left))
    && (k.monitor == Free || k.monitor == Owned(r) || k.monitor == Owned(l))
    && (k.mainuser == r || k.mainuser == l)
    && (pr == Waiting(Right) ==> k.clean && k.mainuser == l)
    && (pl == Waiting(Left) ==> k.clean && k.mainuser == r)
    && (k.clean && k.mainuser == r ==> MayClaim(pr, Right))
    && (k.clean && k.mainuser == l ==> MayClaim(pl, Left))
  }

  ghost predicate StickOkAt(s: State, c: nat)
    requires Table(s) && c < |s.pcs|
  {
    StickOk(s.sticks[c], c, s.pcs[c], Prev(|s.pcs|, c), s.pcs[Prev(|s.pcs|, c)])
  }

  ghost predicate Inv(s: State)
    requires Table(s)
  {
    forall c :: 0 <= c < |s.pcs| ==> StickOkAt(s, c)
  }

  // ---------- a step at the chopstick it is about ----------

  lemma RightStepOk(k: Chopstick, r: nat, pr: Pc, l: nat, pl: Pc)
    requires r != l && StickOk(k, r, pr, l, pl) && Uses(pr) == Right && Can(pr, k)
    ensures StickOk(NextStick(pr, r, k), r, NextPc(pr, r, k), l, if pr.Setting? then Woken(pl, Left) else pl)
  {
  }

  lemma LeftStepOk(k: Chopstick, r: nat, pr: Pc, l: nat, pl: Pc)
    requires r != l && StickOk(k, r, pr, l, pl) && Uses(pl) == Left && Can(pl, k)
    ensures StickOk(NextStick(pl, l, k), r, if pl.Setting? then Woken(pr, Right) else pr, l, NextPc(pl, l, k))
  {
  }

  // ---------- and at the other chopstick of the same philosopher ----------

  /** What a chopstick sees of a philosopher is not changed by a step about the other chopstick, nor by
      being notified there. */
  predicate SameTo(pc: Pc, next: Pc, side: Side) {
    && HoldsSem(next, side) == HoldsSem(pc, side)
    && InMonitor(next, side) == InMonitor(pc, side)
    && (next == Waiting(side) ==> pc == Waiting(side))
    && (MayClaim(pc, side) ==> MayClaim(next, side))
  }

  lemma OtherStick(pc: Pc, p: nat, k: Chopstick)
    ensures SameTo(pc, NextPc(pc, p, k), Opposite(Uses(pc)))
  {
  }

  lemma SameToKeeps(k: Chopstick, r: nat, pr: Pc, pr': Pc, l: nat, pl: Pc, pl': Pc)
    requires StickOk(k, r, pr, l, pl) && SameTo(pr, pr', Right) && SameTo(pl, pl', Left)
    ensures StickOk(k, r, pr', l, pl')
  {
  }

  // ---------- one step, all chopsticks ----------

  lemma UsedStick(s: State, p: nat)
    requires Table(s) && Inv(s) && p < |s.pcs| && CanStep(s, p)
    ensures StickOkAt(Step(s, p), StickUsed(s, p))
  {
    var n, c := |s.pcs|, StickUsed(s, p);
    assert StickOkAt(s, c);
    if Uses(s.pcs[p]) == Right {
      RightStepOk(s.sticks[c], p, s.pcs[p], Prev(n, p), s.pcs[Prev(n, p)]);
    } else {
      assert Prev(n, c) == p;
      LeftStepOk(s.sticks[c], c, s.pcs[c], p, s.pcs[p]);
    }
  }

  lemma WokenElsewhere(pc: Pc, side: Side)
    ensures SameTo(pc, Woken(pc, side), Opposite(side))
  {
  }

  lemma PcAfter(s: State, p: nat, q: nat)
    requires Table(s) && p < |s.pcs| && q < |s.pcs| && CanStep(s, p)
    ensures Step(s, p).pcs[q] ==
      if q == p then NextPc(s.pcs[p], p, s.sticks[StickUsed(s, p)])
      else if s.pcs[p].Setting? && q == Neighbour(|s.pcs|, p, s.pcs[p].side)
      then Woken(s.pcs[q], Opposite(s.pcs[p].side))
      else s.pcs[q]
  {
  }

  /** At a chopstick the step is not about, philosopher q on this side of it looks as before. */
  lemma LooksSame(s: State, p: nat, q: nat, side: Side)
    requires Table(s) && p < |s.pcs| && q < |s.pcs| && CanStep(s, p)
    requires StickOf(|s.pcs|, q, side) != StickUsed(s, p)
    ensures SameTo(s.pcs[q], Step(s, p).pcs[q], side)
  {
    PcAfter(s, p, q);
    if q == p {
      OtherStick(s.pcs[p], p, s.sticks[StickUsed(s, p)]);
    } else if s.pcs[p].Setting? {
      WokenElsewhere(s.pcs[q], Opposite(s.pcs[p].side));
    }
  }

  lemma StepKeepsInv(s: State, p: nat)
    requires Table(s) && Inv(s)
    ensures Inv(Step(s, p))
  {
    var n, t := |s.pcs|, Step(s, p);
    if p < n && CanStep(s, p) {
      forall c | 0 <= c < n ensures StickOkAt(t, c) {
        if c == StickUsed(s, p) {
          UsedStick(s, p);
        } else {
          assert StickOkAt(s, c);
          LooksSame(s, p, c, Right);
          LooksSame(s, p, Prev(n, c), Left);
          SameToKeeps(s.sticks[c], c, s.pcs[c], t.pcs[c], Prev(n, c), s.pcs[Prev(n, c)], t.pcs[Prev(n, c)]);
        }
      }
    }
  }

  lemma WakesKeepsInv(s: State, p: nat)
    requires Table(s) && Inv(s)
    ensures Inv(Wakes(s, p))
  {
    var n, t := |s.pcs|, Wakes(s, p);
    forall c | 0 <= c < n ensures StickOkAt(t, c) {
      assert StickOkAt(s, c);
    }
  }

  lemma DoKeepsInv(s: State, m: Move)
    requires Table(s) && Inv(s)
    ensures Inv(Do(s, m))
  {
    match m
    case Go(p) => StepKeepsInv(s, p);
    case Wake(p) => WakesKeepsInv(s, p);
  }

  lemma InitOk(n: nat)
    requires n >= 2
    ensures Inv(Init(n))
  {
  }

  lemma {:induction false} RunKeepsInv(s: State, moves: seq<Move>)
    requires Table(s) && Inv(s)
    ensures Inv(Run(s, moves))
    decreases |moves|
  {
    if moves != [] {
      DoKeepsInv(s, moves[0]);
      RunKeepsInv(Do(s, moves[0]), moves[1..]);
    }
  }

  /** In every run, two neighbours are never eating at the same time. */
  lemma NeighboursNeverEatTogether(n: nat, moves: seq<Move>, p: nat)
    requires n >= 2 && p < n
    ensures !(Run(Init(n), moves).pcs[p].Eating? && Run(Init(n), moves).pcs[Next(n, p)].Eating?)
  {
    InitOk(n);
    RunKeepsInv(Init(n), moves);
    var c := Next(n, p);
    assert StickOkAt(Run(Init(n), moves), c) && Prev(n, c) == p;
  }

  /** In every run, the permit of each chopstick is either there or with one of its two neighbours, its
      monitor is taken exactly while one of them is inside, and its main user is one of them. */
  lemma ChopsticksAreShared(n: nat, moves: seq<Move>, c: nat)
    requires n >= 2 && c < n
    ensures StickOkAt(Run(Init(n), moves), c)
  {
    InitOk(n);
    RunKeepsInv(Init(n), moves);
  }

  /** Who can be in the way of a philosopher at pc: the neighbour at q, with whom it shares a chopstick on
      its own side `side`. */
  predicate InTheWay(pc: Pc, side: Side, q: Pc) {
    match pc
    case Entering(_) => InMonitor(q, Opposite(side))
    case Setting(_) => InMonitor(q, Opposite(side))
    case Acquiring(_) => HoldsSem(q, Opposite(side))
    case AcqRight => HoldsSem(q, Opposite(side))
    case AcqLeft => HoldsSem(q, Opposite(side))
    case _ => false
  }

  lemma CanAtStick(k: Chopstick, r: nat, pr: Pc, l: nat, pl: Pc)
    requires r != l && StickOk(k, r, pr, l, pl)
    ensures Uses(pr) == Right ==> (Can(pr, k) <==> !pr.Waiting? && !InTheWay(pr, Right, pl))
    ensures Uses(pl) == Left ==> (Can(pl, k) <==> !pl.Waiting? && !InTheWay(pl, Left, pr))
  {
  }

  /** In every run, a philosopher can go on exactly when it does not wait to be notified and its neighbour
      is not in the way: inside the monitor it wants to enter, for grabbing or for setting down, or with
      the semaphore it wants. */
  lemma OnlyNeighboursBlock(n: nat, moves: seq<Move>, p: nat)
    requires n >= 2 && p < n
    ensures var s := Run(Init(n), moves);
      var pc, side := s.pcs[p], Uses(s.pcs[p]);
      CanStep(s, p) <==> !pc.Waiting? && !InTheWay(pc, side, s.pcs[Neighbour(n, p, side)])
  {
    InitOk(n);
    RunKeepsInv(Init(n), moves);
    var s := Run(Init(n), moves);
    var c := StickUsed(s, p);
    assert StickOkAt(s, c);
    CanAtStick(s.sticks[c], c, s.pcs[c], Prev(n, c), s.pcs[Prev(n, c)]);
  }
}
