/** What every step of the threads keeps: the list is a chain of allocated nodes that ends in NULL,
    the mutexes are held as the threads think, and every thread knows enough about the list. */
module SharedListInvariant {
  import opened SharedList

  // ---------- the chain ----------

  /** The address of node k of the list, NULL past its end. */
  ghost function At(nodes: seq<nat>, k: nat): nat { if k < |nodes| then nodes[k] else 0 }

  ghost predicate Distinct(nodes: seq<nat>) { forall j, k :: 0 <= j < k < |nodes| ==> nodes[j] != nodes[k] }

  ghost predicate Linked(heap: map<nat, Node>, nodes: seq<nat>, k: nat)
    requires k < |nodes|
  {
    nodes[k] != 0 && nodes[k] in heap && heap[nodes[k]].next == At(nodes, k + 1)
  }

  /** From `head` the nodes are met in this order, and then NULL. */
  ghost predicate Chain(heap: map<nat, Node>, head: nat, nodes: seq<nat>) {
    && head == At(nodes, 0)
    && Distinct(nodes)
    && forall k :: 0 <= k < |nodes| ==> Linked(heap, nodes, k)
  }

  ghost function Values(heap: map<nat, Node>, nodes: seq<nat>): (r: seq<int>)
    requires forall k :: 0 <= k < |nodes| ==> nodes[k] in heap
    ensures |r| == |nodes| && forall k :: 0 <= k < |nodes| ==> r[k] == heap[nodes[k]].val
  {
    seq(|nodes|, k requires 0 <= k < |nodes| => heap[nodes[k]].val)
  }

  // ---------- the locks ----------

  predicate InsertHolds(pc: Inserter) {
    pc.InsAlloc? || pc.InsCheck? || pc.InsWalk? || pc.InsLink? || pc.InsUnlock?
  }

  predicate DeleteHoldsSearch(pc: Deleter) {
    pc.DelStart? || pc.DelScan? || pc.DelUnlink? || pc.DelFree? || pc.DelUnlockSearch?
  }

  predicate DeleteHoldsInsert(pc: Deleter) {
    pc.DelTrySearch? || DeleteHoldsSearch(pc) || pc.DelUnlockInsert?
  }

  predicate SearchHolds(pc: Searcher) { pc.SeaStart? || pc.SeaVisit? || pc.SeaUnlock? }

  ghost predicate InserterLocks(s: State, i: nat)
    requires i < |s.inserters|
  {
    InsertHolds(s.inserters[i]) <==> s.insertLock == AnInserter(i)
  }

  ghost predicate DeleterLocks(s: State, i: nat)
    requires i < |s.deleters|
  {
    && (DeleteHoldsInsert(s.deleters[i]) <==> s.insertLock == ADeleter(i))
    && (DeleteHoldsSearch(s.deleters[i]) <==> s.searchLock == ADeleter(i))
  }

  /** A searcher holds the lock while it searches; one that found the list empty keeps it. */
  ghost predicate SearcherLocks(s: State, i: nat)
    requires i < |s.searchers|
  {
    && (SearchHolds(s.searchers[i]) ==> s.searchLock == ASearcher(i))
    && (s.searchLock == ASearcher(i) ==> SearchHolds(s.searchers[i]) || s.head == 0)
  }

  ghost predicate LocksOk(s: State) {
    && (forall i :: 0 <= i < |s.inserters| ==> InserterLocks(s, i))
    && (forall i :: 0 <= i < |s.deleters| ==> DeleterLocks(s, i))
    && (forall i :: 0 <= i < |s.searchers| ==> SearcherLocks(s, i))
    && match s.insertLock {
         case Nobody => true
         case AnInserter(i) => i < |s.inserters|
         case ADeleter(i) => i < |s.deleters|
         case ASearcher(i) => false
       }
  }

  // ---------- the threads ----------

  /** The node that is out of the list but not yet freed, 0 if there is none. */
  ghost function Leaving(s: State): nat {
    if s.insertLock.ADeleter? && s.insertLock.i < |s.deleters| && s.deleters[s.insertLock.i].DelFree?
    then s.deleters[s.insertLock.i].cur else 0
  }

  /** A count that has passed `count` nodes and stands on `cur`, if that node is not freed, has passed at
      least as many nodes as there are before it in the list. */
  ghost predicate CountOk(s: State, nodes: seq<nat>, cur: nat, count: nat) {
    var heap, leaving := s.heap, Leaving(s);
    0 < cur < s.unused && (cur in heap ==>
      && (cur in nodes || cur == leaving)
      && (forall k :: 0 <= k < |nodes| && nodes[k] == cur ==> k <= count)
      && (cur == leaving ==> PassedUpTo(nodes, heap[cur].next, count)))
  }

  /** All nodes before `p` have been passed. */
  ghost predicate PassedUpTo(nodes: seq<nat>, p: nat, count: nat) {
    forall k :: 0 <= k <= |nodes| && At(nodes, k) == p ==> k <= count
  }

  ghost predicate NewNode(heap: map<nat, Node>, nodes: seq<nat>, n: nat) {
    n != 0 && n in heap && n !in nodes && heap[n].next == 0
  }

  ghost predicate InserterOk(s: State, nodes: seq<nat>, i: nat)
    requires i < |s.inserters|
  {
    match s.inserters[i]
    case InsCounting(cur, count) => CountOk(s, nodes, cur, count)
    case InsCheck(n) => NewNode(s.heap, nodes, n)
    case InsWalk(n, end) => NewNode(s.heap, nodes, n) && nodes != [] && (end == 0 || end in nodes)
    case InsLink(n, end) => NewNode(s.heap, nodes, n) && nodes != [] && end == nodes[|nodes| - 1]
    case _ => true
  }

  /** `prev` is the node before `cur`, if there is one. */
  ghost predicate Before(nodes: seq<nat>, prev: nat, cur: nat) {
    forall k :: 0 < k < |nodes| && nodes[k] == cur ==> nodes[k - 1] == prev
  }

  ghost predicate DeleterOk(s: State, nodes: seq<nat>, i: nat)
    requires i < |s.deleters|
  {
    match s.deleters[i]
    case DelCounting(cur, count) => CountOk(s, nodes, cur, count)
    case DelScan(_, prev, cur) => cur == 0 || (cur in nodes && Before(nodes, prev, cur))
    case DelUnlink(prev, cur) => cur in nodes && Before(nodes, prev, cur)
    case DelFree(cur) =>
      cur != 0 && cur in s.heap && cur !in nodes && (s.heap[cur].next == 0 || s.heap[cur].next in nodes)
    case _ => true
  }

  ghost predicate SearcherOk(s: State, nodes: seq<nat>, i: nat)
    requires i < |s.searchers| && forall k :: 0 <= k < |nodes| ==> nodes[k] in s.heap
  {
    match s.searchers[i]
    case SeaVisit(cur, seen) =>
      |seen| < |nodes| && cur == nodes[|seen|] && seen == Values(s.heap, nodes)[..|seen|]
    case _ => true
  }

  ghost predicate HeapOk(s: State) { 0 !in s.heap && s.unused > 0 && forall p :: p in s.heap ==> p < s.unused }

  ghost predicate ThreadsOk(s: State, nodes: seq<nat>)
    requires forall k :: 0 <= k < |nodes| ==> nodes[k] in s.heap
  {
    && (forall i :: 0 <= i < |s.inserters| ==> InserterOk(s, nodes, i))
    && (forall i :: 0 <= i < |s.deleters| ==> DeleterOk(s, nodes, i))
    && (forall i :: 0 <= i < |s.searchers| ==> SearcherOk(s, nodes, i))
  }

  lemma ChainInHeap(heap: map<nat, Node>, head: nat, nodes: seq<nat>)
    requires Chain(heap, head, nodes)
    ensures forall k :: 0 <= k < |nodes| ==> nodes[k] in heap && nodes[k] != 0
  {
    forall k | 0 <= k < |nodes| ensures nodes[k] in heap && nodes[k] != 0 {
      assert Linked(heap, nodes, k);
    }
  }

  /** The list of state s is `nodes`, and all is well. */
  ghost predicate Inv(s: State, nodes: seq<nat>) {
    && HeapOk(s)
    && Chain(s.heap, s.head, nodes)
    && (forall k :: 0 <= k < |nodes| ==> nodes[k] in s.heap)
    && LocksOk(s)
    && ThreadsOk(s, nodes)
  }
}
