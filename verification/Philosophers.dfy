/** The dining philosophers, any number of them, as a machine that takes one step of one philosopher
    at a time. Philosopher p has chopstick p on the right and the next one on the left. */
module Philosophers {
  datatype Side = Right | Left

  /** Where a philosopher is: on the way into, inside or waiting in grabChopstick for one side, in eat,
      or about to call setChopstick for one side. */
  datatype Pc =
    | Thinking
    | Entering(side: Side)
    | Checking(side: Side)
    | Acquiring(side: Side)
    | Taking(side: Side)
    | Releasing(side: Side)
    | Waiting(side: Side)
    | AcqRight
    | AcqLeft
    | Eating
    | RelRight
    | RelLeft
    | Setting(side: Side)

  datatype Monitor = Free | Owned(owner: nat)

  datatype Chopstick = Chopstick(mainuser: nat, permits: nat, clean: bool, monitor: Monitor)

  datatype State = State(pcs: seq<Pc>, sticks: seq<Chopstick>)

  predicate Table(s: State) { |s.pcs| == |s.sticks| >= 2 }

  function Next(n: nat, p: nat): nat { if p + 1 >= n then 0 else p + 1 }

  function Prev(n: nat, c: nat): nat
    requires n > 0
  {
    if c == 0 then n - 1 else c - 1
  }

  /** The chopstick on one side of philosopher p. */
  function StickOf(n: nat, p: nat, side: Side): nat { if side == Right then p else Next(n, p) }

  // ---------- one philosopher and one chopstick ----------

  /** Which chopstick the next step is about. */
  function Uses(pc: Pc): Side {
    match pc
    case Entering(side) => side
    case Checking(side) => side
    case Acquiring(side) => side
    case Taking(side) => side
    case Releasing(side) => side
    case Waiting(side) => side
    case AcqLeft => Left
    case RelLeft => Left
    case Setting(side) => side
    case _ => Right
  }

  /** Whether philosopher p at pc can go on by itself: not while the monitor or the semaphore is taken,
      and not while waiting to be notified. */
  predicate Can(pc: Pc, k: Chopstick) {
    match pc
    case Entering(_) => k.monitor.Free?
    case Acquiring(_) => k.permits > 0
    case Waiting(_) => false
    case AcqRight => k.permits > 0
    case AcqLeft => k.permits > 0
    case Setting(_) => k.monitor.Free?
    case _ => true
  }

  function NextPc(pc: Pc, p: nat, k: Chopstick): Pc {
    match pc
    case Thinking => Entering(Right)
    case Entering(side) => Checking(side)
    case Checking(side) =>
      if k.mainuser == p then (if side == Right then Entering(Left) else AcqRight)
      else if !k.clean then Acquiring(side)
      else Waiting(side)
    case Acquiring(side) => Taking(side)
    case Taking(side) => Releasing(side)
    case Releasing(side) => Checking(side)
    case Waiting(side) => pc
    case AcqRight => AcqLeft
    case AcqLeft => Eating
    case Eating => RelRight
    case RelRight => RelLeft
    case RelLeft => Setting(Right)
    case Setting(side) => if side == Right then Setting(Left) else Thinking
  }

  function NextStick(pc: Pc, p: nat, k: Chopstick): Chopstick {
    match pc
    case Entering(_) => k.(monitor := Owned(p))
    case Checking(_) => if k.mainuser != p && !k.clean then k else k.(monitor := Free)
    case Acquiring(_) => k.(permits := if k.permits > 0 then k.permits - 1 else 0)
    case Taking(_) => k.(clean := true, mainuser := p)
    case Releasing(_) => k.(permits := k.permits + 1)
    case AcqRight => k.(permits := if k.permits > 0 then k.permits - 1 else 0)
    case AcqLeft => k.(permits := if k.permits > 0 then k.permits - 1 else 0)
    case RelRight => k.(permits := k.permits + 1)
    case RelLeft => k.(permits := k.permits + 1)
    case Setting(_) => k.(clean := false)
    case _ => k
  }

  /** notifyAll: a philosopher waiting for this chopstick goes on to enter its monitor again. */
  function Woken(pc: Pc, side: Side): Pc { if pc == Waiting(side) then Entering(side) else pc }

  // ---------- the table ----------

  function StickUsed(s: State, p: nat): nat
    requires Table(s) && p < |s.pcs|
  {
    StickOf(|s.pcs|, p, Uses(s.pcs[p]))
  }

  predicate CanStep(s: State, p: nat)
    requires Table(s) && p < |s.pcs|
  {
    Can(s.pcs[p], s.sticks[StickUsed(s, p)])
  }

  /** The philosopher on the other side of the chopstick. */
  function Neighbour(n: nat, p: nat, side: Side): nat
    requires n > 0
  {
    if side == Right then Prev(n, p) else Next(n, p)
  }

  function Opposite(side: Side): Side { if side == Right then Left else Right }

  /** The pcs after a step of philosopher p: its own, and its neighbour's if setChopstick notifies it. */
  function PcsAfter(s: State, p: nat): seq<Pc>
    requires Table(s) && p < |s.pcs|
  {
    var pc, k := s.pcs[p], s.sticks[StickUsed(s, p)];
    var moved := s.pcs[p := NextPc(pc, p, k)];
    if pc.Setting? then
      var q := Neighbour(|s.pcs|, p, pc.side);
      moved[q := Woken(moved[q], Opposite(pc.side))]
    else moved
  }

  /** A step of philosopher p; none if it cannot step. */
  function Step(s: State, p: nat): State
    requires Table(s)
  {
    if p < |s.pcs| && CanStep(s, p) then
      State(PcsAfter(s, p),
            s.sticks[StickUsed(s, p) := NextStick(s.pcs[p], p, s.sticks[StickUsed(s, p)])])
    else s
  }

  /** A philosopher may come back from wait without having been notified, as Java allows. */
  function Wakes(s: State, p: nat): State
    requires Table(s)
  {
    if p < |s.pcs| && s.pcs[p].Waiting? then s.(pcs := s.pcs[p := Entering(s.pcs[p].side)]) else s
  }

  datatype Move = Go(p: nat) | Wake(p: nat)

  function Do(s: State, m: Move): (t: State)
    requires Table(s)
    ensures Table(t) && |t.pcs| == |s.pcs|
  {
    match m
    case Go(p) => Step(s, p)
    case Wake(p) => Wakes(s, p)
  }

  function Run(s: State, moves: seq<Move>): (t: State)
    requires Table(s)
    ensures Table(t) && |t.pcs| == |s.pcs|
    decreases |moves|
  {
    if moves == [] then s else Run(Do(s, moves[0]), moves[1..])
  }

  /** Each chopstick starts dirty, with the neighbour of the smaller number. */
  function InitialUser(n: nat, c: nat): nat
    requires n > 0
  {
    if c < Prev(n, c) then c else Prev(n, c)
  }

  function Init(n: nat): (s: State)
    requires n >= 2
    ensures Table(s) && |s.pcs| == n
  {
    State(seq(n, _ => Thinking),
          seq(n, c requires 0 <= c < n => Chopstick(InitialUser(n, c), 1, false, Free)))
  }
}
