/** Runs of the shared list that reach its limits. */
module SharedListReach {
  import opened SharedList
  import opened SharedListInvariant
  import opened SharedListRuns
  import opened SharedListSteps

  ghost predicate Reaches(s: State, t: State) { exists actions :: Run(s, actions) == t }

  lemma {:induction false} RunAppend(s: State, a: seq<Action>, b: seq<Action>)
    ensures Run(s, a + b) == Run(Run(s, a), b)
    decreases |a|
  {
    if a == [] {
      assert a + b == b;
    } else {
      assert (a + b)[1..] == a[1..] + b;
      RunAppend(Step(s, a[0]), a[1..], b);
    }
  }

  lemma ReachesSelf(s: State)
    ensures Reaches(s, s)
  {
    assert Run(s, []) == s;
  }

  lemma ReachesThen(s: State, t: State, u: State)
    requires Reaches(s, t) && Reaches(t, u)
    ensures Reaches(s, u)
  {
    var a :| Run(s, a) == t;
    var b :| Run(t, b) == u;
    RunAppend(s, a, b);
    assert Run(s, a + b) == u;
  }

  lemma ReachesStep(s: State, a: Action)
    ensures Reaches(s, Step(s, a))
  {
    assert Run(Step(s, a), []) == Step(s, a);
    assert Run(s, [a]) == Step(s, a);
  }

  // ---------- one inserter at work while the others wait ----------

  /** Nothing an inserter has no business with is changed. */
  ghost predicate SameElsewhere(s: State, t: State) {
    t.deleters == s.deleters && t.searchers == s.searchers && t.searchLock == s.searchLock
  }

  /** A step of inserter i that goes to t, after which u can be reached. */
  lemma InsertThen(s: State, i: nat, t: State, u: State)
    requires i < |s.inserters| && t == InsertStep(s, i, 0) && Reaches(t, u)
    ensures Reaches(s, u)
  {
    ReachesStep(s, Insert(i, 0));
    ReachesThen(s, t, u);
  }

  lemma {:induction false} CountsUp(s: State, nodes: seq<nat>, i: nat, c: nat)
    requires Chain(s.heap, s.head, nodes) && c < |nodes| < MAX_SIZE
    requires i < |s.inserters| && s.inserters[i] == InsCounting(nodes[c], c)
    ensures Reaches(s, SetInserter(s, i, InsTryLock))
    decreases |nodes| - c
  {
    assert Linked(s.heap, nodes, c);
    var u := SetInserter(s, i, InsTryLock);
    if c + 1 == |nodes| {
      ReachesSelf(u);
      InsertThen(s, i, u, u);
    } else {
      assert Linked(s.heap, nodes, c + 1);
      var t := SetInserter(s, i, InsCounting(nodes[c + 1], c + 1));
      CountsUp(t, nodes, i, c + 1);
      assert SetInserter(t, i, InsTryLock) == u;
      InsertThen(s, i, t, u);
    }
  }

  /** An idle inserter that counts less than 25 nodes comes to try the lock. */
  lemma FindsRoom(s: State, nodes: seq<nat>, i: nat)
    requires Chain(s.heap, s.head, nodes) && 0 < |nodes| < MAX_SIZE
    requires i < |s.inserters| && s.inserters[i].InsIdle?
    ensures Reaches(s, SetInserter(s, i, InsTryLock))
  {
    assert Linked(s.heap, nodes, 0);
    var t := SetInserter(s, i, InsCounting(nodes[0], 0));
    CountsUp(t, nodes, i, 0);
    assert SetInserter(t, i, InsTryLock) == SetInserter(s, i, InsTryLock);
    InsertThen(s, i, t, SetInserter(s, i, InsTryLock));
  }

  lemma {:induction false} WalksToEnd(s: State, nodes: seq<nat>, i: nat, n: nat, k: nat)
    requires Chain(s.heap, s.head, nodes) && k < |nodes|
    requires i < |s.inserters| && s.inserters[i] == InsWalk(n, nodes[k])
    ensures Reaches(s, SetInserter(s, i, InsLink(n, nodes[|nodes| - 1])))
    decreases |nodes| - k
  {
    assert Linked(s.heap, nodes, k);
    var u := SetInserter(s, i, InsLink(n, nodes[|nodes| - 1]));
    if k + 1 == |nodes| {
      ReachesSelf(u);
      InsertThen(s, i, u, u);
    } else {
      assert Linked(s.heap, nodes, k + 1);
      var t := SetInserter(s, i, InsWalk(n, nodes[k + 1]));
      WalksToEnd(t, nodes, i, n, k + 1);
      assert SetInserter(t, i, InsLink(n, nodes[|nodes| - 1])) == u;
      InsertThen(s, i, t, u);
    }
  }

  /** From trying the lock, when it is free, to standing at the end of the list with a new node. */
  lemma GetsToEnd(s: State, nodes: seq<nat>, i: nat) returns (t: State)
    requires Inv(s, nodes) && nodes != [] && s.insertLock.Nobody?
    requires i < |s.inserters| && s.inserters[i].InsTryLock?
    ensures Reaches(s, t) && Inv(t, nodes) && t.insertLock == AnInserter(i)
    ensures t.inserters == s.inserters[i := InsLink(s.unused, nodes[|nodes| - 1])] && SameElsewhere(s, t)
  {
    var a := InsertStep(s, i, 0);
    var la := InsertStepKeepsInv(s, nodes, i, 0);
    var b := InsertStep(a, i, 0);
    var lb := InsertStepKeepsInv(a, nodes, i, 0);
    var c := InsertStep(b, i, 0);
    var lc := InsertStepKeepsInv(b, nodes, i, 0);
    assert Linked(c.heap, nodes, 0);
    var d := InsertStep(c, i, 0);
    var ld := InsertStepKeepsInv(c, nodes, i, 0);
    t := SetInserter(d, i, InsLink(s.unused, nodes[|nodes| - 1]));
    WalksToEnd(d, nodes, i, s.unused, 0);
    InsertThen(c, i, d, t);
    InsertThen(b, i, c, t);
    InsertThen(a, i, b, t);
    InsertThen(s, i, a, t);
    InserterMoves(d, nodes, i, InsLink(s.unused, nodes[|nodes| - 1]));
  }

  /** From there to being idle, with the list one node longer. */
  lemma LinksAndLeaves(s: State, nodes: seq<nat>, i: nat, n: nat) returns (t: State, list: seq<nat>)
    requires Inv(s, nodes) && nodes != [] && i < |s.inserters| && s.inserters[i] == InsLink(n, nodes[|nodes| - 1])
    ensures Reaches(s, t) && Inv(t, list) && |list| == |nodes| + 1 && t.insertLock.Nobody?
    ensures t.inserters == s.inserters[i := InsIdle] && SameElsewhere(s, t)
  {
    assert InserterOk(s, nodes, i);
    var a := InsertStep(s, i, 0);
    list := InsertStepKeepsInv(s, nodes, i, 0);
    t := InsertStep(a, i, 0);
    var lt := InsertStepKeepsInv(a, list, i, 0);
    ReachesSelf(t);
    InsertThen(a, i, t, t);
    InsertThen(s, i, a, t);
  }

  lemma InsertsOne(s: State, nodes: seq<nat>, i: nat) returns (t: State, list: seq<nat>)
    requires Inv(s, nodes) && nodes != [] && s.insertLock.Nobody?
    requires i < |s.inserters| && s.inserters[i].InsTryLock?
    ensures Reaches(s, t) && Inv(t, list) && |list| == |nodes| + 1 && t.insertLock.Nobody?
    ensures t.inserters == s.inserters[i := InsIdle] && SameElsewhere(s, t)
  {
    var m := GetsToEnd(s, nodes, i);
    t, list := LinksAndLeaves(m, nodes, i, s.unused);
    ReachesThen(s, m, t);
  }

  // ---------- the longest list ----------

  /** Inserters lo up to hi have found room and wait for the lock, the others are idle. */
  ghost predicate Waiting(s: State, lo: nat, hi: nat) {
    && s.insertLock.Nobody?
    && (forall i :: 0 <= i < |s.inserters| ==> s.inserters[i] == if lo <= i < hi then InsTryLock else InsIdle)
  }

  lemma {:induction false} Fill(s: State, nodes: seq<nat>) returns (t: State, list: seq<nat>)
    requires Inv(s, nodes) && 0 < |nodes| < MAX_SIZE && |s.inserters| > 0 && Waiting(s, 0, 0)
    ensures Reaches(s, t) && Inv(t, list) && |list| == MAX_SIZE - 1 && |t.inserters| == |s.inserters| && Waiting(t, 0, 0)
    decreases MAX_SIZE - |nodes|
  {
    if |nodes| == MAX_SIZE - 1 {
      t, list := s, nodes;
      ReachesSelf(s);
    } else {
      FindsRoom(s, nodes, 0);
      InserterMoves(s, nodes, 0, InsTryLock);
      var u := SetInserter(s, 0, InsTryLock);
      var v, more := InsertsOne(u, nodes, 0);
      t, list := Fill(v, more);
      ReachesThen(s, u, v);
      ReachesThen(s, v, t);
    }
  }

  lemma {:induction false} AllFindRoom(s: State, nodes: seq<nat>, hi: nat) returns (t: State)
    requires Inv(s, nodes) && 0 < |nodes| < MAX_SIZE && hi <= |s.inserters| && Waiting(s, 0, hi)
    ensures Reaches(s, t) && Inv(t, nodes) && |t.inserters| == |s.inserters| && Waiting(t, 0, |s.inserters|)
    decreases |s.inserters| - hi
  {
    if hi == |s.inserters| {
      t := s;
      ReachesSelf(s);
    } else {
      FindsRoom(s, nodes, hi);
      InserterMoves(s, nodes, hi, InsTryLock);
      t := AllFindRoom(SetInserter(s, hi, InsTryLock), nodes, hi + 1);
      ReachesThen(s, SetInserter(s, hi, InsTryLock), t);
    }
  }

  lemma {:induction false} AllInsert(s: State, nodes: seq<nat>, lo: nat) returns (t: State, list: seq<nat>)
    requires Inv(s, nodes) && nodes != [] && lo <= |s.inserters| && Waiting(s, lo, |s.inserters|)
    ensures Reaches(s, t) && Inv(t, list) && |list| == |nodes| + (|s.inserters| - lo)
    decreases |s.inserters| - lo
  {
    if lo == |s.inserters| {
      t, list := s, nodes;
      ReachesSelf(s);
    } else {
      var u, more := InsertsOne(s, nodes, lo);
      t, list := AllInsert(u, more, lo + 1);
      ReachesThen(s, u, t);
    }
  }

  /** With one inserter or more, some run makes the list exactly as long as no run may exceed. */
  lemma LongestList(inserters: nat, deleters: nat, searchers: nat, draw: int)
    returns (actions: seq<Action>, nodes: seq<nat>)
    requires inserters > 0
    ensures var s := Run(Init(inserters, deleters, searchers, draw), actions); Chain(s.heap, s.head, nodes)
    ensures |nodes| == 24 + inserters
  {
    var s := Init(inserters, deleters, searchers, draw);
    InitOk(inserters, deleters, searchers, draw);
    var t, list := Fill(s, [1]);
    var u := AllFindRoom(t, list, 0);
    var v, all := AllInsert(u, list, 0);
    ReachesThen(s, t, u);
    ReachesThen(s, u, v);
    actions :| Run(s, actions) == v;
    nodes := all;
  }
}
