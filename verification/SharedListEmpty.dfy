/** When the shared list can become empty, what happens then, and when a count can meet a freed node. */
module SharedListEmpty {
  import opened SharedList
  import opened SharedListInvariant
  import opened SharedListReach
  import opened SharedListRuns
  import opened SharedListSteps

  // ---------- without inserters nothing happens ----------

  /** One node, and deleters that never count more. */
  ghost predicate Still(s: State) {
    && s.inserters == [] && s.head == 1 && 1 in s.heap && s.heap[1].next == 0
    && (forall i :: 0 <= i < |s.deleters| ==> s.deleters[i] == DelIdle || s.deleters[i] == DelCounting(1, 0))
    && (forall i :: 0 <= i < |s.searchers| ==> !s.searchers[i].SeaLost? && (s.searchers[i].SeaVisit? ==> s.searchers[i].cur == 1))
  }

  lemma StillStays(s: State, a: Action)
    requires Still(s)
    ensures Still(Step(s, a))
  {
  }

  lemma {:induction false} StillForever(s: State, actions: seq<Action>)
    requires Still(s)
    ensures Still(Run(s, actions))
    decreases |actions|
  {
    if actions != [] {
      StillStays(s, actions[0]);
      StillForever(Step(s, actions[0]), actions[1..]);
    }
  }

  // ---------- a single deleter never empties the list ----------

  /** What the only deleter knows: it alone makes the list shorter, so its count is exact and lasts. */
  ghost predicate OnlyDeleterOk(nodes: seq<nat>, pc: Deleter) {
    match pc
    case DelCounting(cur, count) => count < |nodes| && cur == nodes[count]
    case DelTryInsert => |nodes| > 1
    case DelTrySearch => |nodes| > 1
    case DelStart => |nodes| > 1
    case DelScan(_, _, _) => |nodes| > 1
    case DelUnlink(_, _) => |nodes| > 1
    case DelLost => false
    case _ => true
  }

  ghost predicate NeverEmpty(s: State, nodes: seq<nat>) {
    |s.deleters| <= 1 && nodes != [] && forall i :: 0 <= i < |s.deleters| ==> OnlyDeleterOk(nodes, s.deleters[i])
  }

  lemma OnlyDeleterSteps(s: State, nodes: seq<nat>, list: seq<nat>, draw: int)
    requires Inv(s, nodes) && NeverEmpty(s, nodes) && |s.deleters| == 1
    requires s.deleters[0].DelUnlink? ==> |list| + 1 == |nodes|
    requires !s.deleters[0].DelUnlink? ==> list == nodes
    ensures NeverEmpty(DeleteStep(s, 0, draw), list)
  {
    var pc := s.deleters[0];
    assert OnlyDeleterOk(nodes, pc) && DeleterOk(s, nodes, 0);
    assert Linked(s.heap, nodes, 0);
    if pc.DelCounting? {
      assert Linked(s.heap, nodes, pc.count);
      if pc.count + 1 < |nodes| { assert Linked(s.heap, nodes, pc.count + 1); }
    }
    if pc.DelScan? { ScanKeepsInv(s, nodes, 0); }
    if pc.DelUnlink? { var k := UnlinkFinds(s, nodes, 0, pc.prev, pc.cur); }
  }

  lemma OtherSteps(s: State, nodes: seq<nat>, list: seq<nat>, a: Action)
    requires NeverEmpty(s, nodes) && !a.Delete? && Changes(nodes, list) && |list| >= |nodes|
    ensures NeverEmpty(Step(s, a), list)
  {
    assert Step(s, a).deleters == s.deleters;
    assert list[..|nodes|] == nodes;
    forall i | 0 <= i < |s.deleters| ensures OnlyDeleterOk(list, s.deleters[i]) {
      assert OnlyDeleterOk(nodes, s.deleters[i]);
    }
  }

  lemma StepKeepsNeverEmpty(s: State, nodes: seq<nat>, a: Action) returns (list: seq<nat>)
    requires Inv(s, nodes) && NeverEmpty(s, nodes)
    ensures Inv(Step(s, a), list) && NeverEmpty(Step(s, a), list)
  {
    list := StepKeepsInv(s, nodes, a);
    if a.Delete? {
      if a.i < |s.deleters| && 0 <= a.draw < 10 { OnlyDeleterSteps(s, nodes, list, a.draw); }
    } else {
      OtherSteps(s, nodes, list, a);
    }
  }

  lemma {:induction false} RunKeepsNeverEmpty(s: State, nodes: seq<nat>, actions: seq<Action>) returns (list: seq<nat>)
    requires Inv(s, nodes) && NeverEmpty(s, nodes)
    ensures Inv(Run(s, actions), list) && NeverEmpty(Run(s, actions), list)
    decreases |actions|
  {
    list := nodes;
    if actions != [] {
      list := StepKeepsNeverEmpty(s, nodes, actions[0]);
      list := RunKeepsNeverEmpty(Step(s, actions[0]), list, actions[1..]);
    }
  }

  // ---------- an empty list stays empty ----------

  lemma EmptyStep(s: State, nodes: seq<nat>, a: Action)
    requires Inv(s, nodes) && s.head == 0
    ensures Step(s, a).head == 0
  {
    ChainInHeap(s.heap, s.head, nodes);
    assert At(nodes, 0) == 0;
    if a.Insert? && a.i < |s.inserters| { assert InserterOk(s, nodes, a.i); }
    if a.Delete? && a.i < |s.deleters| { assert DeleterOk(s, nodes, a.i); }
  }

  /** Once the list is empty no inserter ever puts a node into it again. */
  lemma {:induction false} EmptyForever(s: State, nodes: seq<nat>, actions: seq<Action>)
    requires Inv(s, nodes) && s.head == 0
    ensures Run(s, actions).head == 0
    decreases |actions|
  {
    if actions != [] {
      EmptyStep(s, nodes, actions[0]);
      var list := StepKeepsInv(s, nodes, actions[0]);
      EmptyForever(Step(s, actions[0]), list, actions[1..]);
    }
  }

  /** A searcher that met the empty list keeps the lock for ever: nobody searches or deletes again. */
  ghost predicate LockGone(s: State, i: nat) {
    i < |s.searchers| && s.searchers[i].SeaIdle? && s.searchLock == ASearcher(i)
  }

  lemma LockGoneStep(s: State, nodes: seq<nat>, i: nat, a: Action)
    requires Inv(s, nodes) && LockGone(s, i)
    ensures LockGone(Step(s, a), i)
  {
    if a.Delete? && a.i < |s.deleters| { assert DeleterLocks(s, a.i); }
    if a.Search? && a.i < |s.searchers| { assert SearcherLocks(s, a.i); }
  }

  lemma {:induction false} LockGoneForever(s: State, nodes: seq<nat>, i: nat, actions: seq<Action>)
    requires Inv(s, nodes) && LockGone(s, i)
    ensures LockGone(Run(s, actions), i)
    decreases |actions|
  {
    if actions != [] {
      LockGoneStep(s, nodes, i, actions[0]);
      var list := StepKeepsInv(s, nodes, actions[0]);
      LockGoneForever(Step(s, actions[0]), list, i, actions[1..]);
    }
  }

  // ---------- deleting the first node ----------

  ghost predicate DrawsOk(s: State) { forall p :: p in s.heap ==> 0 <= s.heap[p].val < 10 }

  lemma {:induction false} RunKeepsDraws(s: State, actions: seq<Action>)
    requires DrawsOk(s)
    ensures DrawsOk(Run(s, actions))
    decreases |actions|
  {
    if actions != [] {
      StepKeepsDraws(s, actions[0]);
      RunKeepsDraws(Step(s, actions[0]), actions[1..]);
    }
  }

  lemma StepKeepsDraws(s: State, a: Action)
    requires DrawsOk(s)
    ensures DrawsOk(Step(s, a))
  {
    if a.Insert? && a.i < |s.inserters| && 0 <= a.draw < 10 {
      InsertKeepsDraws(s, a.i, a.draw);
    } else if a.Delete? && a.i < |s.deleters| && 0 <= a.draw < 10 {
      DeleteKeepsDraws(s, a.i, a.draw);
    }
  }

  lemma InsertKeepsDraws(s: State, i: nat, draw: int)
    requires DrawsOk(s) && i < |s.inserters| && 0 <= draw < 10
    ensures DrawsOk(InsertStep(s, i, draw))
  {
  }

  lemma DeleteKeepsDraws(s: State, i: nat, draw: int)
    requires DrawsOk(s) && i < |s.deleters|
    ensures DrawsOk(DeleteStep(s, i, draw))
  {
  }

  lemma ReachKeepsDraws(s: State, t: State)
    requires DrawsOk(s) && Reaches(s, t)
    ensures DrawsOk(t)
  {
    var actions :| Run(s, actions) == t;
    RunKeepsDraws(s, actions);
  }

  lemma DeleteThen(s: State, d: nat, draw: int, t: State, u: State)
    requires d < |s.deleters| && 0 <= draw < 10 && t == DeleteStep(s, d, draw) && Reaches(t, u)
    ensures Reaches(s, u)
  {
    ReachesStep(s, Delete(d, draw));
    ReachesThen(s, t, u);
  }

  /** An idle deleter that counts two nodes comes to try the locks. */
  lemma FindsTwo(s: State, nodes: seq<nat>, d: nat)
    requires Inv(s, nodes) && |nodes| == 2 && d < |s.deleters| && s.deleters[d].DelIdle?
    ensures Reaches(s, SetDeleter(s, d, DelTryInsert)) && Inv(SetDeleter(s, d, DelTryInsert), nodes)
  {
    assert Linked(s.heap, nodes, 0) && Linked(s.heap, nodes, 1);
    var a := SetDeleter(s, d, DelCounting(nodes[0], 0));
    var b := SetDeleter(s, d, DelCounting(nodes[1], 1));
    var c := SetDeleter(s, d, DelTryInsert);
    assert DeleteStep(s, d, 0) == a && DeleteStep(a, d, 0) == b && DeleteStep(b, d, 0) == c;
    ReachesSelf(c);
    DeleteThen(b, d, 0, c, c);
    DeleteThen(a, d, 0, b, c);
    DeleteThen(s, d, 0, a, c);
    DeleterMoves(s, nodes, d, DelTryInsert);
  }

  /** The locks are free and deleter d is about to try them. */
  ghost predicate Ready(s: State, nodes: seq<nat>, d: nat) {
    && Inv(s, nodes) && nodes != [] && DrawsOk(s)
    && s.insertLock.Nobody? && s.searchLock.Nobody? && d < |s.deleters| && s.deleters[d].DelTryInsert?
  }

  /** The deleter takes both locks. */
  lemma GetsLocks(s: State, nodes: seq<nat>, d: nat) returns (t: State)
    requires Ready(s, nodes, d)
    ensures t == SetDeleter(s, d, DelStart).(insertLock := ADeleter(d), searchLock := ADeleter(d))
    ensures Inv(t, nodes) && Reaches(s, t)
  {
    var a := DeleteStep(s, d, 0);
    var la := DeleteStepKeepsInv(s, nodes, d, 0);
    t := DeleteStep(a, d, 0);
    var lt := DeleteStepKeepsInv(a, nodes, d, 0);
    ReachesSelf(t);
    DeleteThen(a, d, 0, t, t);
    DeleteThen(s, d, 0, a, t);
  }

  /** It draws the value of the first node. */
  lemma FindsFirst(s: State, nodes: seq<nat>, d: nat) returns (t: State)
    requires Inv(s, nodes) && nodes != [] && DrawsOk(s) && d < |s.deleters| && s.deleters[d].DelStart?
    ensures t == SetDeleter(s, d, DelUnlink(0, s.head)) && Inv(t, nodes) && Reaches(s, t)
  {
    assert Linked(s.heap, nodes, 0);
    var v := s.heap[s.head].val;
    var a := DeleteStep(s, d, v);
    var la := DeleteStepKeepsInv(s, nodes, d, v);
    t := DeleteStep(a, d, v);
    var lt := DeleteStepKeepsInv(a, nodes, d, v);
    ReachesSelf(t);
    DeleteThen(a, d, v, t, t);
    DeleteThen(s, d, v, a, t);
  }

  /** It unlinks the node in hand and frees it. */
  lemma FreesIt(s: State, nodes: seq<nat>, d: nat) returns (t: State, list: seq<nat>)
    requires Inv(s, nodes) && d < |s.deleters| && s.deleters[d] == DelUnlink(0, s.head)
    ensures Reaches(s, t) && Inv(t, list) && |list| + 1 == |nodes| && s.head !in t.heap
    ensures t.inserters == s.inserters && t.insertLock == s.insertLock && t.searchLock == s.searchLock
    ensures t.deleters == s.deleters[d := DelUnlockSearch]
  {
    assert DeleterOk(s, nodes, d);
    var a := DeleteStep(s, d, 0);
    list := DeleteStepKeepsInv(s, nodes, d, 0);
    t := DeleteStep(a, d, 0);
    var lt := DeleteStepKeepsInv(a, list, d, 0);
    ReachesSelf(t);
    DeleteThen(a, d, 0, t, t);
    DeleteThen(s, d, 0, a, t);
  }

  lemma ReleasesLocks(s: State, nodes: seq<nat>, d: nat) returns (t: State)
    requires Inv(s, nodes) && d < |s.deleters| && s.deleters[d].DelUnlockSearch?
    ensures Reaches(s, t) && Inv(t, nodes)
    ensures t == SetDeleter(s, d, DelIdle).(insertLock := Nobody, searchLock := Nobody)
  {
    var a := DeleteStep(s, d, 0);
    var la := DeleteStepKeepsInv(s, nodes, d, 0);
    t := DeleteStep(a, d, 0);
    var lt := DeleteStepKeepsInv(a, nodes, d, 0);
    ReachesSelf(t);
    DeleteThen(a, d, 0, t, t);
    DeleteThen(s, d, 0, a, t);
  }

  /** It can delete the first node, whatever the other threads are about. */
  lemma DeletesFirst(s: State, nodes: seq<nat>, d: nat) returns (t: State, list: seq<nat>)
    requires Ready(s, nodes, d)
    ensures Reaches(s, t) && Inv(t, list) && |list| + 1 == |nodes| && s.head !in t.heap
    ensures t.insertLock.Nobody? && t.searchLock.Nobody? && t.inserters == s.inserters
    ensures t.deleters == s.deleters[d := DelIdle]
  {
    var a := GetsLocks(s, nodes, d);
    var b := FindsFirst(a, nodes, d);
    var c;
    c, list := FreesIt(b, nodes, d);
    t := ReleasesLocks(c, list, d);
    ReachesThen(s, a, b);
    ReachesThen(s, b, c);
    ReachesThen(s, c, t);
  }

  // ---------- when the list can become empty, when a count can be lost ----------

  /** With an inserter, the list comes to have two nodes while all threads are idle again. */
  lemma TwoNodes(s: State) returns (t: State, nodes: seq<nat>)
    requires Inv(s, [1]) && |s.inserters| > 0 && s.inserters[0].InsIdle? && s.insertLock.Nobody?
    ensures Reaches(s, t) && Inv(t, nodes) && |nodes| == 2 && t.insertLock.Nobody?
    ensures t.inserters == s.inserters && t.deleters == s.deleters && t.searchLock == s.searchLock
  {
    FindsRoom(s, [1], 0);
    InserterMoves(s, [1], 0, InsTryLock);
    var u := SetInserter(s, 0, InsTryLock);
    t, nodes := InsertsOne(u, [1], 0);
    ReachesThen(s, u, t);
  }

  /** Two deleters that both counted two nodes delete both. */
  lemma BothDelete(s: State, nodes: seq<nat>) returns (t: State)
    requires Inv(s, nodes) && |nodes| == 2 && DrawsOk(s) && s.insertLock.Nobody? && s.searchLock.Nobody?
    requires |s.deleters| >= 2 && s.deleters[0].DelIdle? && s.deleters[1].DelIdle?
    ensures Reaches(s, t) && t.head == 0
  {
    FindsTwo(s, nodes, 0);
    var a := SetDeleter(s, 0, DelTryInsert);
    FindsTwo(a, nodes, 1);
    var b := SetDeleter(a, 1, DelTryInsert);
    var c, one := DeletesFirst(b, nodes, 0);
    ReachKeepsDraws(b, c);
    var none;
    t, none := DeletesFirst(c, one, 1);
    assert t.head == At(none, 0);
    ReachesThen(s, a, b);
    ReachesThen(s, b, c);
    ReachesThen(s, c, t);
  }

  /** The list can become empty exactly when there are an inserter and two deleters. */
  lemma CanBecomeEmpty(inserters: nat, deleters: nat, searchers: nat, draw: int)
    requires 0 <= draw < 10
    ensures (exists t :: Reaches(Init(inserters, deleters, searchers, draw), t) && t.head == 0)
            <==> inserters >= 1 && deleters >= 2
  {
    var s := Init(inserters, deleters, searchers, draw);
    InitOk(inserters, deleters, searchers, draw);
    if inserters >= 1 && deleters >= 2 {
      var t, nodes := TwoNodes(s);
      ReachKeepsDraws(s, t);
      var u := BothDelete(t, nodes);
      ReachesThen(s, t, u);
    } else {
      forall t | Reaches(s, t) ensures t.head != 0 {
        var actions :| Run(s, actions) == t;
        if inserters == 0 {
          StillForever(s, actions);
        } else {
          var list := RunKeepsNeverEmpty(s, [1], actions);
          ChainInHeap(t.heap, t.head, list);
        }
      }
    }
  }

  ghost predicate NoneLost(s: State) {
    && (forall i :: 0 <= i < |s.inserters| ==> !s.inserters[i].InsLost?)
    && (forall i :: 0 <= i < |s.deleters| ==> !s.deleters[i].DelLost?)
    && (forall i :: 0 <= i < |s.searchers| ==> !s.searchers[i].SeaLost?)
  }

  /** Without deleters no node is ever freed, and every count stands on a node. */
  ghost predicate NothingFreed(s: State) {
    && s.deleters == [] && NoneLost(s)
    && (forall i :: 0 <= i < |s.inserters| && s.inserters[i].InsCounting? ==> s.inserters[i].cur in s.heap)
  }

  lemma NothingFreedInsert(s: State, nodes: seq<nat>, i: nat, draw: int)
    requires Inv(s, nodes) && NothingFreed(s) && i < |s.inserters|
    ensures NothingFreed(InsertStep(s, i, draw))
  {
    var t := InsertStep(s, i, draw);
    ChainInHeap(s.heap, s.head, nodes);
    assert InserterOk(s, nodes, i);
    OnlyCountsGetLost(s, nodes, i, draw);
    if s.inserters[i].InsCounting? { ScanGoesOn(s.heap, s.head, nodes, s.inserters[i].cur); }
    assert s.head == 0 || s.head == nodes[0];
    assert t.inserters == s.inserters[i := t.inserters[i]];
  }

  lemma NothingFreedStep(s: State, nodes: seq<nat>, a: Action)
    requires Inv(s, nodes) && NothingFreed(s)
    ensures NothingFreed(Step(s, a))
  {
    if a.Insert? && a.i < |s.inserters| && 0 <= a.draw < 10 {
      NothingFreedInsert(s, nodes, a.i, a.draw);
    } else if a.Search? && a.i < |s.searchers| {
      OnlyCountsGetLost(s, nodes, a.i, 0);
      var t := SearchStep(s, a.i);
      assert t.searchers == s.searchers[a.i := t.searchers[a.i]] && t.inserters == s.inserters && t.heap == s.heap;
    }
  }

  lemma {:induction false} NothingFreedEver(s: State, nodes: seq<nat>, actions: seq<Action>)
    requires Inv(s, nodes) && NothingFreed(s)
    ensures NothingFreed(Run(s, actions))
    decreases |actions|
  {
    if actions != [] {
      NothingFreedStep(s, nodes, actions[0]);
      var list := StepKeepsInv(s, nodes, actions[0]);
      NothingFreedEver(Step(s, actions[0]), list, actions[1..]);
    }
  }

  /** An inserter that starts to count while a deleter has the first node in hand is lost. */
  lemma CountIsLost(s: State, nodes: seq<nat>) returns (t: State)
    requires Inv(s, nodes) && |nodes| == 2 && DrawsOk(s) && s.insertLock.Nobody? && s.searchLock.Nobody?
    requires |s.deleters| >= 1 && s.deleters[0].DelIdle? && |s.inserters| >= 1 && s.inserters[0].InsIdle?
    ensures Reaches(s, t) && !NoneLost(t)
  {
    assert Linked(s.heap, nodes, 0);
    FindsTwo(s, nodes, 0);
    var a := SetDeleter(s, 0, DelTryInsert);
    var b := InsertStep(a, 0, 0);
    var lb := InsertStepKeepsInv(a, nodes, 0, 0);
    var c, one := DeletesFirst(b, nodes, 0);
    t := InsertStep(c, 0, 0);
    ReachesSelf(t);
    InsertThen(c, 0, t, t);
    ReachesThen(b, c, t);
    InsertThen(a, 0, b, t);
    ReachesThen(s, a, t);
    assert t.inserters[0].InsLost?;
  }

  /** Some count can be lost exactly when there are an inserter and a deleter. */
  lemma CountCanBeLost(inserters: nat, deleters: nat, searchers: nat, draw: int)
    requires 0 <= draw < 10
    ensures (exists t :: Reaches(Init(inserters, deleters, searchers, draw), t) && !NoneLost(t))
            <==> inserters >= 1 && deleters >= 1
  {
    var s := Init(inserters, deleters, searchers, draw);
    InitOk(inserters, deleters, searchers, draw);
    if inserters >= 1 && deleters >= 1 {
      var t, nodes := TwoNodes(s);
      ReachKeepsDraws(s, t);
      var u := CountIsLost(t, nodes);
      ReachesThen(s, t, u);
    } else {
      forall t | Reaches(s, t) ensures NoneLost(t) {
        var actions :| Run(s, actions) == t;
        if inserters == 0 { StillForever(s, actions); } else { NothingFreedEver(s, [1], actions); }
      }
    }
  }
}
