/** How long and how short the shared list can get. */
module SharedListLimits {
  import opened SharedList
  import opened SharedListInvariant
  import opened SharedListRuns
  import opened SharedListSteps

  // ---------- how long ----------

  /** The inserter has found room and has not linked its node yet. */
  predicate HasRoom(pc: Inserter) {
    pc.InsTryLock? || pc.InsAlloc? || pc.InsCheck? || pc.InsWalk? || pc.InsLink?
  }

  ghost function Pending(inserters: seq<Inserter>): nat {
    if inserters == [] then 0
    else Pending(inserters[1..]) + if HasRoom(inserters[0]) then 1 else 0
  }

  lemma {:induction false} PendingAtMost(inserters: seq<Inserter>)
    ensures Pending(inserters) <= |inserters|
  {
    if inserters != [] { PendingAtMost(inserters[1..]); }
  }

  lemma {:induction false} PendingMoves(inserters: seq<Inserter>, i: nat, pc: Inserter)
    requires i < |inserters|
    ensures Pending(inserters[i := pc]) ==
            Pending(inserters) + (if HasRoom(pc) then 1 else 0) - (if HasRoom(inserters[i]) then 1 else 0)
  {
    if i == 0 {
      assert inserters[i := pc][1..] == inserters[1..];
    } else {
      assert inserters[i := pc][1..] == inserters[1..][i - 1 := pc];
      PendingMoves(inserters[1..], i - 1, pc);
    }
  }

  /** With the nodes about to be linked, the list has at most 24 nodes and one more per inserter. */
  ghost predicate Bounded(s: State, nodes: seq<nat>) {
    |nodes| + Pending(s.inserters) < MAX_SIZE + |s.inserters|
  }

  /** An inserter that finds room saw a count below 25, and the list was no longer than the count. */
  lemma RoomIsReal(s: State, nodes: seq<nat>, i: nat, draw: int)
    requires Inv(s, nodes) && i < |s.inserters| && !HasRoom(s.inserters[i])
    requires HasRoom(InsertStep(s, i, draw).inserters[i])
    ensures |nodes| < MAX_SIZE
  {
    assert InserterOk(s, nodes, i);
    if s.inserters[i].InsCounting? && s.inserters[i].cur in s.heap {
      CountGoesOn(s, nodes, s.inserters[i].cur, s.inserters[i].count);
    } else {
      assert s.head == 0 == At(nodes, 0);
      ChainInHeap(s.heap, s.head, nodes);
    }
  }

  lemma InsertKeepsBound(s: State, nodes: seq<nat>, list: seq<nat>, i: nat, draw: int)
    requires Inv(s, nodes) && Bounded(s, nodes) && i < |s.inserters|
    requires |list| == |nodes| + if s.inserters[i].InsLink? then 1 else 0
    ensures s.inserters[i].InsLink? ==> InsertStep(s, i, draw).inserters[i].InsUnlock?
    ensures Bounded(InsertStep(s, i, draw), list)
  {
    var t := InsertStep(s, i, draw);
    assert InserterOk(s, nodes, i);
    assert t.inserters == s.inserters[i := t.inserters[i]];
    PendingMoves(s.inserters, i, t.inserters[i]);
    PendingAtMost(t.inserters);
    if HasRoom(t.inserters[i]) && !HasRoom(s.inserters[i]) { RoomIsReal(s, nodes, i, draw); }
  }

  lemma StepKeepsBound(s: State, nodes: seq<nat>, a: Action) returns (list: seq<nat>)
    requires Inv(s, nodes) && Bounded(s, nodes)
    ensures Inv(Step(s, a), list) && Bounded(Step(s, a), list)
  {
    list := StepKeepsInv(s, nodes, a);
    if a.Insert? && a.i < |s.inserters| && 0 <= a.draw < 10 {
      InsertKeepsBound(s, nodes, list, a.i, a.draw);
    } else {
      assert Step(s, a).inserters == s.inserters;
    }
  }

  lemma {:induction false} RunKeepsBound(s: State, nodes: seq<nat>, actions: seq<Action>) returns (list: seq<nat>)
    requires Inv(s, nodes) && Bounded(s, nodes)
    ensures Inv(Run(s, actions), list) && Bounded(Run(s, actions), list)
    decreases |actions|
  {
    list := nodes;
    if actions != [] {
      list := StepKeepsBound(s, nodes, actions[0]);
      list := RunKeepsBound(Step(s, actions[0]), list, actions[1..]);
    }
  }

  lemma {:induction false} NonePending(n: nat)
    ensures Pending(seq(n, _ => InsIdle)) == 0
  {
    if n > 0 {
      assert seq(n, _ => InsIdle)[1..] == seq(n - 1, _ => InsIdle);
      NonePending(n - 1);
    }
  }

  /** The list never has more than 24 nodes and one per inserter. */
  lemma ListIsBounded(inserters: nat, deleters: nat, searchers: nat, draw: int, actions: seq<Action>, nodes: seq<nat>)
    requires var s := Run(Init(inserters, deleters, searchers, draw), actions); Chain(s.heap, s.head, nodes)
    ensures |nodes| <= 24 + inserters
  {
    InitOk(inserters, deleters, searchers, draw);
    NonePending(inserters);
    var s := Run(Init(inserters, deleters, searchers, draw), actions);
    var list := RunKeepsBound(Init(inserters, deleters, searchers, draw), [1], actions);
    RunKeepsThreads(Init(inserters, deleters, searchers, draw), actions);
    ChainIsUnique(s.heap, s.head, nodes, list);
  }
}
