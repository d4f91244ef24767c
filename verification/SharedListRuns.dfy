/** What holds in every run of any number of searching, inserting and deleting threads. */
module SharedListRuns {
  import opened SharedList
  import opened SharedListInvariant
  import opened SharedListSteps

  // ---------- the invariant ----------

  lemma InitOk(inserters: nat, deleters: nat, searchers: nat, draw: int)
    ensures Inv(Init(inserters, deleters, searchers, draw), [1])
  {
  }

  /** Which steps make the list longer or shorter. */
  predicate Links(s: State, a: Action) {
    a.Insert? && a.i < |s.inserters| && 0 <= a.draw < 10 && s.inserters[a.i].InsLink?
  }

  predicate Unlinks(s: State, a: Action) {
    a.Delete? && a.i < |s.deleters| && 0 <= a.draw < 10 && s.deleters[a.i].DelUnlink?
  }

  lemma StepKeepsInv(s: State, nodes: seq<nat>, a: Action) returns (list: seq<nat>)
    requires Inv(s, nodes)
    ensures Inv(Step(s, a), list) && Changes(nodes, list)
    ensures Links(s, a) ==> |list| == |nodes| + 1
    ensures Unlinks(s, a) ==> |list| + 1 == |nodes|
    ensures !Links(s, a) && !Unlinks(s, a) ==> list == nodes
  {
    list := nodes;
    match a
    case Insert(i, draw) =>
      if i < |s.inserters| && 0 <= draw < 10 { list := InsertStepKeepsInv(s, nodes, i, draw); }
    case Delete(i, draw) =>
      if i < |s.deleters| && 0 <= draw < 10 { list := DeleteStepKeepsInv(s, nodes, i, draw); }
    case Search(i) =>
      if i < |s.searchers| { SearchStepKeepsInv(s, nodes, i); }
  }

  lemma {:induction false} RunKeepsInv(s: State, nodes: seq<nat>, actions: seq<Action>) returns (list: seq<nat>)
    requires Inv(s, nodes)
    ensures Inv(Run(s, actions), list)
    decreases |actions|
  {
    list := nodes;
    if actions != [] {
      list := StepKeepsInv(s, nodes, actions[0]);
      list := RunKeepsInv(Step(s, actions[0]), list, actions[1..]);
    }
  }

  predicate SameThreads(s: State, t: State) {
    |t.inserters| == |s.inserters| && |t.deleters| == |s.deleters| && |t.searchers| == |s.searchers|
  }

  lemma StepKeepsThreads(s: State, a: Action)
    ensures SameThreads(s, Step(s, a))
  {
  }

  lemma {:induction false} RunKeepsThreads(s: State, actions: seq<Action>)
    ensures SameThreads(s, Run(s, actions))
    decreases |actions|
  {
    if actions != [] {
      StepKeepsThreads(s, actions[0]);
      RunKeepsThreads(Step(s, actions[0]), actions[1..]);
    }
  }

  /** In every reachable state the list is a chain of allocated nodes that ends in NULL. */
  lemma ListIsAlwaysAChain(inserters: nat, deleters: nat, searchers: nat, draw: int, actions: seq<Action>)
    ensures exists nodes :: Inv(Run(Init(inserters, deleters, searchers, draw), actions), nodes)
  {
    InitOk(inserters, deleters, searchers, draw);
    var nodes := RunKeepsInv(Init(inserters, deleters, searchers, draw), [1], actions);
  }

  lemma {:induction false} ChainPrefix(heap: map<nat, Node>, head: nat, a: seq<nat>, b: seq<nat>, k: nat)
    requires Chain(heap, head, a) && Chain(heap, head, b) && k <= |a|
    ensures k <= |b| && a[..k] == b[..k]
  {
    if k > 0 {
      ChainPrefix(heap, head, a, b, k - 1);
      if k - 1 > 0 { assert Linked(heap, a, k - 2) && Linked(heap, b, k - 2); }
      assert Linked(heap, a, k - 1);
      assert At(a, k - 1) == At(b, k - 1);
    }
  }

  /** And the heap determines which chain. */
  lemma ChainIsUnique(heap: map<nat, Node>, head: nat, a: seq<nat>, b: seq<nat>)
    requires Chain(heap, head, a) && Chain(heap, head, b)
    ensures a == b
  {
    ChainPrefix(heap, head, a, b, |a|);
    ChainPrefix(heap, head, b, a, |b|);
  }

  // ---------- who may be where ----------

  /** A deleter that has both locks is alone: no other deleter holds a lock, no inserter is building or
      linking a node, no searcher is on the list. */
  lemma DeleterIsAlone(s: State, nodes: seq<nat>, d: nat)
    requires Inv(s, nodes) && d < |s.deleters| && DeleteHoldsSearch(s.deleters[d])
    ensures forall i :: 0 <= i < |s.deleters| && i != d ==> !DeleteHoldsInsert(s.deleters[i])
    ensures forall i :: 0 <= i < |s.inserters| ==> !InsertHolds(s.inserters[i])
    ensures forall i :: 0 <= i < |s.searchers| ==> !SearchHolds(s.searchers[i])
  {
    assert DeleterLocks(s, d);
    forall i | 0 <= i < |s.deleters| && i != d ensures !DeleteHoldsInsert(s.deleters[i]) {
      assert DeleterLocks(s, i);
    }
    forall i | 0 <= i < |s.inserters| ensures !InsertHolds(s.inserters[i]) {
      assert InserterLocks(s, i);
    }
    forall i | 0 <= i < |s.searchers| ensures !SearchHolds(s.searchers[i]) {
      assert SearcherLocks(s, i);
    }
  }

  /** At most one inserter is building or linking a node, and at most one searcher searches. */
  lemma OneInserterOneSearcher(s: State, nodes: seq<nat>, i: nat, j: nat)
    requires Inv(s, nodes)
    ensures i < |s.inserters| && j < |s.inserters| && InsertHolds(s.inserters[i]) && InsertHolds(s.inserters[j]) ==> i == j
    ensures i < |s.searchers| && j < |s.searchers| && SearchHolds(s.searchers[i]) && SearchHolds(s.searchers[j]) ==> i == j
  {
    assert i < |s.inserters| ==> InserterLocks(s, i);
    assert j < |s.inserters| ==> InserterLocks(s, j);
    assert i < |s.searchers| ==> SearcherLocks(s, i);
    assert j < |s.searchers| ==> SearcherLocks(s, j);
  }

  /** A search reports the list exactly as it is at the moment the search meets its end, though inserters
      may have been at work all along. */
  lemma SearchSeesTheList(s: State, nodes: seq<nat>, i: nat)
    requires Inv(s, nodes) && i < |s.searchers| && s.searchers[i].SeaVisit?
    requires Step(s, Search(i)).searchers[i].SeaUnlock?
    ensures Step(s, Search(i)).searchers[i].seen == Values(s.heap, nodes)
  {
    VisitKeepsInv(s, nodes, i);
  }

  /** Under the locks nobody meets a freed node: only an unlocked count can, on the node it stands on. */
  lemma OnlyCountsGetLost(s: State, nodes: seq<nat>, i: nat, draw: int)
    requires Inv(s, nodes)
    ensures i < |s.inserters| && !s.inserters[i].InsLost? && InsertStep(s, i, draw).inserters[i].InsLost?
            ==> s.inserters[i].InsCounting? && s.inserters[i].cur !in s.heap
    ensures i < |s.deleters| && !s.deleters[i].DelLost? && DeleteStep(s, i, draw).deleters[i].DelLost?
            ==> s.deleters[i].DelCounting? && s.deleters[i].cur !in s.heap
    ensures i < |s.searchers| && !s.searchers[i].SeaLost? ==> !SearchStep(s, i).searchers[i].SeaLost?
  {
    if i < |s.inserters| {
      assert InserterOk(s, nodes, i);
      if s.inserters[i].InsWalk? { WalkKeepsInv(s, nodes, i); }
    }
    if i < |s.deleters| {
      assert DeleterOk(s, nodes, i);
      if s.deleters[i].DelScan? { ScanKeepsInv(s, nodes, i); }
      if s.deleters[i].DelUnlink? {
        var k := UnlinkFinds(s, nodes, i, s.deleters[i].prev, s.deleters[i].cur);
      }
    }
    if i < |s.searchers| && s.searchers[i].SeaVisit? { VisitKeepsInv(s, nodes, i); }
  }
}
