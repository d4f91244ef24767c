/** The linked list shared by searching, inserting and deleting threads, as a machine that takes one
    step of one thread at a time. A step makes at most one access to shared memory, or two to the
    same node. Address 0 is NULL. */
module SharedList {
  datatype Node = Node(next: nat, val: int)

  /** Who holds a mutex. */
  datatype Owner = Nobody | AnInserter(i: nat) | ADeleter(i: nat) | ASearcher(i: nat)

  datatype Inserter =
    | InsIdle
    | InsCounting(cur: nat, count: nat)
    | InsTryLock
    | InsAlloc
    | InsCheck(node: nat)
    | InsWalk(node: nat, end: nat)
    | InsLink(node: nat, end: nat)
    | InsUnlock
    | InsLost

  datatype Deleter =
    | DelIdle
    | DelCounting(cur: nat, count: nat)
    | DelTryInsert
    | DelTrySearch
    | DelStart
    | DelScan(target: int, prev: nat, cur: nat)
    | DelUnlink(prev: nat, cur: nat)
    | DelFree(cur: nat)
    | DelUnlockSearch
    | DelUnlockInsert
    | DelLost

  datatype Searcher =
    | SeaIdle
    | SeaStart
    | SeaVisit(cur: nat, seen: seq<int>)
    | SeaUnlock(seen: seq<int>)
    | SeaLost

  datatype State = State(
    heap: map<nat, Node>,
    unused: nat,
    head: nat,
    insertLock: Owner,
    searchLock: Owner,
    inserters: seq<Inserter>,
    deleters: seq<Deleter>,
    searchers: seq<Searcher>)

  /** A step of one thread; `draw` is the random number it draws if it does. */
  datatype Action = Insert(i: nat, draw: int) | Delete(i: nat, draw: int) | Search(i: nat)

  // ---------- linked_list_size, which takes no lock ----------

  datatype Count = Counting(cur: nat, count: nat) | Counted(count: nat) | Lost

  function CountFrom(p: nat, count: nat): Count {
    if p == 0 then Counted(count) else Counting(p, count)
  }

  /** Going on from a node that has been freed has no meaning: the thread is lost. */
  function CountOn(heap: map<nat, Node>, cur: nat, count: nat): Count {
    if cur in heap then CountFrom(heap[cur].next, count + 1) else Lost
  }

  // ---------- insert ----------

  const MAX_SIZE := 25

  function InsertAfter(c: Count): Inserter {
    match c
    case Counting(p, n) => InsCounting(p, n)
    case Counted(n) => if n < MAX_SIZE then InsTryLock else InsIdle
    case Lost => InsLost
  }

  function SetInserter(s: State, i: nat, pc: Inserter): State
    requires i < |s.inserters|
  {
    s.(inserters := s.inserters[i := pc])
  }

  function InsertStep(s: State, i: nat, draw: int): State
    requires i < |s.inserters|
  {
    match s.inserters[i]
    case InsIdle => SetInserter(s, i, InsertAfter(CountFrom(s.head, 0)))
    case InsCounting(p, n) => SetInserter(s, i, InsertAfter(CountOn(s.heap, p, n)))
    case InsTryLock =>
      if s.insertLock.Nobody? then SetInserter(s, i, InsAlloc).(insertLock := AnInserter(i))
      else SetInserter(s, i, InsIdle)
    case InsAlloc =>
      SetInserter(s, i, InsCheck(s.unused)).(heap := s.heap[s.unused := Node(0, draw)], unused := s.unused + 1)
    case InsCheck(n) => SetInserter(s, i, if s.head == 0 then InsUnlock else InsWalk(n, 0))
    case InsWalk(n, end) =>
      if end != 0 && end !in s.heap then SetInserter(s, i, InsLost)
      else
        var p := if end == 0 then s.head else s.heap[end].next;
        SetInserter(s, i, if p != 0 then InsWalk(n, p) else InsLink(n, end))
    case InsLink(n, end) =>
      if end == 0 then SetInserter(s, i, InsUnlock).(head := n)
      else if end !in s.heap then SetInserter(s, i, InsLost)
      else SetInserter(s, i, InsUnlock).(heap := s.heap[end := s.heap[end].(next := n)])
    case InsUnlock => SetInserter(s, i, InsIdle).(insertLock := Nobody)
    case InsLost => s
  }

  // ---------- delete ----------

  function DeleteAfter(c: Count): Deleter {
    match c
    case Counting(p, n) => DelCounting(p, n)
    case Counted(n) => if n > 1 then DelTryInsert else DelIdle
    case Lost => DelLost
  }

  function SetDeleter(s: State, i: nat, pc: Deleter): State
    requires i < |s.deleters|
  {
    s.(deleters := s.deleters[i := pc])
  }

  function DeleteStep(s: State, i: nat, draw: int): State
    requires i < |s.deleters|
  {
    match s.deleters[i]
    case DelIdle => SetDeleter(s, i, DeleteAfter(CountFrom(s.head, 0)))
    case DelCounting(p, n) => SetDeleter(s, i, DeleteAfter(CountOn(s.heap, p, n)))
    case DelTryInsert =>
      if s.insertLock.Nobody? then SetDeleter(s, i, DelTrySearch).(insertLock := ADeleter(i))
      else SetDeleter(s, i, DelIdle)
    case DelTrySearch =>
      if s.searchLock.Nobody? then SetDeleter(s, i, DelStart).(searchLock := ADeleter(i))
      else SetDeleter(s, i, DelUnlockInsert)
    case DelStart => SetDeleter(s, i, DelScan(draw, 0, s.head))
    case DelScan(target, prev, cur) =>
      SetDeleter(s, i,
        if cur == 0 then DelUnlockSearch
        else if cur !in s.heap then DelLost
        else if s.heap[cur].val == target then DelUnlink(prev, cur)
        else DelScan(target, cur, s.heap[cur].next))
    case DelUnlink(prev, cur) =>
      if cur !in s.heap || (cur != s.head && prev !in s.heap) then SetDeleter(s, i, DelLost)
      else if cur == s.head then SetDeleter(s, i, DelFree(cur)).(head := s.heap[cur].next)
      else SetDeleter(s, i, DelFree(cur)).(heap := s.heap[prev := s.heap[prev].(next := s.heap[cur].next)])
    case DelFree(cur) => SetDeleter(s, i, DelUnlockSearch).(heap := s.heap - {cur})
    case DelUnlockSearch => SetDeleter(s, i, DelUnlockInsert).(searchLock := Nobody)
    case DelUnlockInsert => SetDeleter(s, i, DelIdle).(insertLock := Nobody)
    case DelLost => s
  }

  // ---------- search ----------

  function SetSearcher(s: State, i: nat, pc: Searcher): State
    requires i < |s.searchers|
  {
    s.(searchers := s.searchers[i := pc])
  }

  /** On an empty list the searcher starts over and keeps the lock. */
  function SearchStep(s: State, i: nat): State
    requires i < |s.searchers|
  {
    match s.searchers[i]
    case SeaIdle =>
      if s.searchLock.Nobody? then SetSearcher(s, i, SeaStart).(searchLock := ASearcher(i)) else s
    case SeaStart => SetSearcher(s, i, if s.head == 0 then SeaIdle else SeaVisit(s.head, []))
    case SeaVisit(cur, seen) =>
      if cur !in s.heap then SetSearcher(s, i, SeaLost)
      else
        var seen' := seen + [s.heap[cur].val];
        SetSearcher(s, i, if s.heap[cur].next == 0 then SeaUnlock(seen') else SeaVisit(s.heap[cur].next, seen'))
    case SeaUnlock(_) => SetSearcher(s, i, SeaIdle).(searchLock := Nobody)
    case SeaLost => s
  }

  // ---------- runs ----------

  /** The list as main leaves it before the threads start: one node. */
  function Init(inserters: nat, deleters: nat, searchers: nat, draw: int): State {
    State(map[1 := Node(0, draw)], 2, 1, Nobody, Nobody,
          seq(inserters, _ => InsIdle), seq(deleters, _ => DelIdle), seq(searchers, _ => SeaIdle))
  }

  /** Random numbers are drawn from 0 to 9; a step of a thread that does not exist is none. */
  function Step(s: State, a: Action): State {
    match a
    case Insert(i, draw) => if i < |s.inserters| && 0 <= draw < 10 then InsertStep(s, i, draw) else s
    case Delete(i, draw) => if i < |s.deleters| && 0 <= draw < 10 then DeleteStep(s, i, draw) else s
    case Search(i) => if i < |s.searchers| then SearchStep(s, i) else s
  }

  function Run(s: State, actions: seq<Action>): State
    decreases |actions|
  {
    if actions == [] then s else Run(Step(s, actions[0]), actions[1..])
  }
}
