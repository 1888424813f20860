/**
The lock-free stack (mmocraft/util/lockfree_stack.h): any number of pushing threads, each a load and
a compare-exchange retry loop, and popping threads that detach the whole list with one exchange and
then walk and free it. Freed addresses may be handed out again at any later allocation.

The concurrent machine is one label per atomic step. It is proved to implement an atomic stack whose
only transitions are the successful compare-exchange (push) and the exchange (pop everything).
*/
module LockfreeStack {
  import opened Wrappers

  type Thread = nat

  type Address = nat

  const NULL: Address := 0

  datatype Node<T> = Node(value: T, next: Address)

  /** Where a thread is: outside, in push's retry loop, or walking a detached list. */
  datatype Local<T> =
    | Idle
    | Pushing(node: Address)
    | Walking(cur: Address, seen: seq<T>)

  datatype State<T> = State(head: Address, heap: map<Address, Node<T>>, locals: map<Thread, Local<T>>)

  datatype Label<T> =
    | PushStart(t: Thread, value: T, at: Address) // allocate a node and load the head into its next
    | CasSucceeds(t: Thread)
    | CasFails(t: Thread)                         // a changed head, or a spurious failure
    | Exchange(t: Thread)
    | Visit(t: Thread)                            // read a node, step to its next, delete it
    | Finish(t: Thread)

  function LocalOf<T>(s: State<T>, t: Thread): Local<T> {
    if t in s.locals then s.locals[t] else Idle
  }

  function Init<T>(): State<T> {
    State(NULL, map[], map[])
  }

  /** One atomic step; None when the thread cannot take it, or would touch an address that is not allocated. */
  function Step<T>(s: State<T>, l: Label<T>): Option<State<T>> {
    var local := LocalOf(s, l.t);
    match l
    case PushStart(t, value, at) =>
      if local.Idle? && at != NULL && at !in s.heap then
        Some(s.(heap := s.heap[at := Node(value, s.head)], locals := s.locals[t := Pushing(at)]))
      else None
    case CasSucceeds(t) =>
      if local.Pushing? && local.node in s.heap && s.heap[local.node].next == s.head then
        Some(s.(head := local.node, locals := s.locals[t := Idle]))
      else None
    case CasFails(t) =>
      if local.Pushing? && local.node in s.heap then
        Some(s.(heap := s.heap[local.node := s.heap[local.node].(next := s.head)]))
      else None
    case Exchange(t) =>
      if local.Idle? then Some(s.(head := NULL, locals := s.locals[t := Walking(s.head, [])])) else None
    case Visit(t) =>
      if local.Walking? && local.cur != NULL && local.cur in s.heap then
        var node := s.heap[local.cur];
        Some(s.(heap := s.heap - {local.cur}, locals := s.locals[t := Walking(node.next, local.seen + [node.value])]))
      else None
    case Finish(t) =>
      if local.Walking? && local.cur == NULL then Some(s.(locals := s.locals[t := Idle])) else None
  }

  function Exec<T>(run: seq<Label<T>>): Option<State<T>> {
    if run == [] then Some(Init())
    else match Exec(run[..|run| - 1])
      case None => None
      case Some(s) => Step(s, run[|run| - 1])
  }

  // ----- The atomic stack.

  /** Contents newest first, the value each pusher brings, and the result of each thread's last pop. */
  datatype Atomic<T> = Atomic(stack: seq<T>, bringing: map<Thread, T>, results: map<Thread, seq<T>>)

  function AtomicStep<T>(a: Atomic<T>, l: Label<T>): Atomic<T> {
    match l
    case PushStart(t, value, _) => a.(bringing := a.bringing[t := value])
    case CasSucceeds(t) => if t in a.bringing then a.(stack := [a.bringing[t]] + a.stack) else a
    case Exchange(t) => a.(stack := [], results := a.results[t := a.stack])
    case _ => a
  }

  function AtomicExec<T>(run: seq<Label<T>>): Atomic<T> {
    if run == [] then Atomic([], map[], map[]) else AtomicStep(AtomicExec(run[..|run| - 1]), run[|run| - 1])
  }

  // ----- Chains of nodes.

  /** Following next from p visits exactly these addresses, holding these values, and ends at null. */
  ghost predicate IsChain<T>(heap: map<Address, Node<T>>, p: Address, addrs: seq<Address>, values: seq<T>)
    decreases |addrs|
  {
    if addrs == [] then p == NULL && values == []
    else
      && values != [] && p == addrs[0] && p != NULL && p in heap && heap[p].value == values[0]
      && IsChain(heap, heap[p].next, addrs[1..], values[1..])
  }

  ghost predicate Distinct(addrs: seq<Address>) {
    forall i, j :: 0 <= i < j < |addrs| ==> addrs[i] != addrs[j]
  }

  lemma {:induction false} ChainFrame<T>(heap: map<Address, Node<T>>, heap': map<Address, Node<T>>, p: Address,
      addrs: seq<Address>, values: seq<T>)
    requires IsChain(heap, p, addrs, values)
    requires forall x :: x in addrs && x in heap ==> x in heap' && heap'[x] == heap[x]
    ensures IsChain(heap', p, addrs, values)
    decreases |addrs|
  {
    if addrs == [] {
    } else {
      assert addrs[0] in addrs;
      ChainFrame(heap, heap', heap[p].next, addrs[1..], values[1..]);
    }
  }

  lemma {:induction false} ChainAllocated<T>(heap: map<Address, Node<T>>, p: Address, addrs: seq<Address>,
      values: seq<T>)
    requires IsChain(heap, p, addrs, values)
    ensures forall x :: x in addrs ==> x in heap && x != NULL
    decreases |addrs|
  {
    if addrs == [] {
    } else {
      ChainAllocated(heap, heap[p].next, addrs[1..], values[1..]);
      assert addrs == [addrs[0]] + addrs[1..];
    }
  }

  // ----- The simulation relation.

  /** Which addresses make up the shared list and the rest of each detached list. */
  datatype Ownership = Ownership(live: seq<Address>, held: map<Thread, seq<Address>>)

  ghost predicate SharedListRelated<T>(s: State<T>, a: Atomic<T>, own: Ownership) {
    IsChain(s.heap, s.head, own.live, a.stack) && Distinct(own.live)
  }

  /** A walking thread has seen a prefix of its pop's result, and its remaining chain holds the rest. */
  ghost predicate WalkRelated<T>(s: State<T>, a: Atomic<T>, own: Ownership, t: Thread) {
    var local := LocalOf(s, t);
    local.Walking? ==>
      && t in own.held && t in a.results && Distinct(own.held[t])
      && local.seen <= a.results[t]
      && IsChain(s.heap, local.cur, own.held[t], a.results[t][|local.seen|..])
  }

  ghost predicate PushRelated<T>(s: State<T>, a: Atomic<T>, own: Ownership, t: Thread) {
    var local := LocalOf(s, t);
    local.Pushing? ==>
      && local.node != NULL && local.node in s.heap && local.node !in own.live
      && t in a.bringing && s.heap[local.node].value == a.bringing[t]
  }

  ghost predicate Separated<T>(s: State<T>, own: Ownership, t: Thread, u: Thread) {
    var p, q := LocalOf(s, t), LocalOf(s, u);
    && (t != u && p.Pushing? && q.Pushing? ==> p.node != q.node)
    && (p.Pushing? && q.Walking? && u in own.held ==> p.node !in own.held[u])
    && (t != u && p.Walking? && q.Walking? && t in own.held && u in own.held ==>
          forall x :: x in own.held[t] ==> x !in own.held[u])
    && (p.Walking? && t in own.held ==> forall x :: x in own.held[t] ==> x !in own.live)
  }

  ghost predicate Related<T>(s: State<T>, a: Atomic<T>, own: Ownership) {
    && SharedListRelated(s, a, own)
    && (forall t :: WalkRelated(s, a, own, t))
    && (forall t :: PushRelated(s, a, own, t))
    && (forall t, u :: Separated(s, own, t, u))
  }

  function NextOwnership<T>(s: State<T>, l: Label<T>, own: Ownership): Ownership {
    var local := LocalOf(s, l.t);
    match l
    case CasSucceeds(_) => if local.Pushing? then own.(live := [local.node] + own.live) else own
    case Exchange(t) => Ownership([], own.held[t := own.live])
    case Visit(t) => if t in own.held && own.held[t] != [] then own.(held := own.held[t := own.held[t][1..]]) else own
    case _ => own
  }

  // ----- Each step keeps the relation.

  lemma PushStartKeeps<T>(s: State<T>, a: Atomic<T>, own: Ownership, l: Label<T>, s': State<T>)
    requires Related(s, a, own) && l.PushStart? && Step(s, l) == Some(s')
    ensures Related(s', AtomicStep(a, l), own)
  {
    var a' := AtomicStep(a, l);
    ChainFrame(s.heap, s'.heap, s.head, own.live, a.stack);
    ChainAllocated(s.heap, s.head, own.live, a.stack);
    forall t ensures WalkRelated(s', a', own, t) {
      assert WalkRelated(s, a, own, t);
      if t != l.t && LocalOf(s, t).Walking? {
        ChainFrame(s.heap, s'.heap, LocalOf(s, t).cur, own.held[t], a.results[t][|LocalOf(s, t).seen|..]);
      }
    }
    forall t ensures PushRelated(s', a', own, t) {
      assert PushRelated(s, a, own, t);
    }
    forall t, u ensures Separated(s', own, t, u) {
      assert Separated(s, own, t, u) && PushRelated(s, a, own, t) && PushRelated(s, a, own, u)
          && WalkRelated(s, a, own, u);
      if LocalOf(s, u).Walking? {
        ChainAllocated(s.heap, LocalOf(s, u).cur, own.held[u], a.results[u][|LocalOf(s, u).seen|..]);
      }
    }
  }

  lemma CasSucceedsKeeps<T>(s: State<T>, a: Atomic<T>, own: Ownership, l: Label<T>, s': State<T>)
    requires Related(s, a, own) && l.CasSucceeds? && Step(s, l) == Some(s')
    ensures Related(s', AtomicStep(a, l), NextOwnership(s, l, own))
  {
    var a', own' := AtomicStep(a, l), NextOwnership(s, l, own);
    var node := LocalOf(s, l.t).node;
    assert PushRelated(s, a, own, l.t);
    assert own'.live[1..] == own.live && a'.stack[1..] == a.stack;
    forall t ensures WalkRelated(s', a', own', t) {
      assert WalkRelated(s, a, own, t);
    }
    forall t ensures PushRelated(s', a', own', t) {
      assert PushRelated(s, a, own, t) && Separated(s, own, t, l.t);
    }
    forall t, u ensures Separated(s', own', t, u) {
      assert Separated(s, own, t, u) && Separated(s, own, l.t, t);
    }
  }

  lemma CasFailsKeeps<T>(s: State<T>, a: Atomic<T>, own: Ownership, l: Label<T>, s': State<T>)
    requires Related(s, a, own) && l.CasFails? && Step(s, l) == Some(s')
    ensures Related(s', a, own)
  {
    assert PushRelated(s, a, own, l.t);
    ChainFrame(s.heap, s'.heap, s.head, own.live, a.stack);
    forall t ensures WalkRelated(s', a, own, t) {
      assert WalkRelated(s, a, own, t) && Separated(s, own, l.t, t);
      if LocalOf(s, t).Walking? {
        ChainFrame(s.heap, s'.heap, LocalOf(s, t).cur, own.held[t], a.results[t][|LocalOf(s, t).seen|..]);
      }
    }
    forall t ensures PushRelated(s', a, own, t) {
      assert PushRelated(s, a, own, t);
    }
    forall t, u ensures Separated(s', own, t, u) {
      assert Separated(s, own, t, u);
    }
  }

  lemma ExchangeKeeps<T>(s: State<T>, a: Atomic<T>, own: Ownership, l: Label<T>, s': State<T>)
    requires Related(s, a, own) && l.Exchange? && Step(s, l) == Some(s')
    ensures Related(s', AtomicStep(a, l), NextOwnership(s, l, own))
  {
    var a', own' := AtomicStep(a, l), NextOwnership(s, l, own);
    assert a.stack[0..] == a.stack;
    forall t ensures WalkRelated(s', a', own', t) {
      assert WalkRelated(s, a, own, t);
    }
    forall t ensures PushRelated(s', a', own', t) {
      assert PushRelated(s, a, own, t);
    }
    forall t, u ensures Separated(s', own', t, u) {
      assert Separated(s, own, t, u) && PushRelated(s, a, own, t) && Separated(s, own, u, t);
    }
  }

  lemma VisitKeeps<T>(s: State<T>, a: Atomic<T>, own: Ownership, l: Label<T>, s': State<T>)
    requires Related(s, a, own) && l.Visit? && Step(s, l) == Some(s')
    ensures Related(s', a, NextOwnership(s, l, own))
  {
    var own' := NextOwnership(s, l, own);
    assert WalkRelated(s, a, own, l.t) && Separated(s, own, l.t, l.t);
    var cur := LocalOf(s, l.t).cur;
    var rest := a.results[l.t][|LocalOf(s, l.t).seen|..];
    ChainAllocated(s.heap, cur, own.held[l.t], rest);
    assert own.held[l.t] != [] && own.held[l.t][0] == cur;
    assert forall x :: x in own.held[l.t][1..] ==> x in own.held[l.t] && x != cur;
    ChainFrame(s.heap, s'.heap, s.head, own.live, a.stack);
    forall t ensures WalkRelated(s', a, own', t) {
      assert WalkRelated(s, a, own, t) && Separated(s, own, l.t, t);
      if LocalOf(s, t).Walking? {
        var rest' := a.results[t][|LocalOf(s', t).seen|..];
        if t == l.t {
          assert rest[1..] == rest';
        }
        ChainFrame(s.heap, s'.heap, LocalOf(s', t).cur, own'.held[t], rest');
      }
    }
    forall t ensures PushRelated(s', a, own', t) {
      assert PushRelated(s, a, own, t) && Separated(s, own, t, l.t);
    }
    forall t, u ensures Separated(s', own', t, u) {
      assert Separated(s, own, t, u);
    }
  }

  lemma StepKeeps<T>(s: State<T>, a: Atomic<T>, own: Ownership, l: Label<T>, s': State<T>)
    requires Related(s, a, own) && Step(s, l) == Some(s')
    ensures Related(s', AtomicStep(a, l), NextOwnership(s, l, own))
  {
    match l {
      case PushStart(_, _, _) => PushStartKeeps(s, a, own, l, s');
      case CasSucceeds(_) => CasSucceedsKeeps(s, a, own, l, s');
      case CasFails(_) => CasFailsKeeps(s, a, own, l, s');
      case Exchange(_) => ExchangeKeeps(s, a, own, l, s');
      case Visit(_) => VisitKeeps(s, a, own, l, s');
      case Finish(_) =>
        forall t ensures WalkRelated(s', a, own, t) { assert WalkRelated(s, a, own, t); }
        forall t ensures PushRelated(s', a, own, t) { assert PushRelated(s, a, own, t); }
        forall t, u ensures Separated(s', own, t, u) { assert Separated(s, own, t, u); }
    }
  }

  // ----- Main results, over every interleaving.

  /** Every run of the concurrent machine is a run of the atomic stack. */
  lemma {:induction false} EveryRunIsAtomic<T>(run: seq<Label<T>>) returns (own: Ownership)
    requires Exec(run).Some?
    ensures Related(Exec(run).value, AtomicExec(run), own)
    decreases |run|
  {
    if run == [] {
      own := Ownership([], map[]);
    } else {
      var before := run[..|run| - 1];
      var own0 := EveryRunIsAtomic(before);
      StepKeeps(Exec(before).value, AtomicExec(before), own0, run[|run| - 1], Exec(run).value);
      own := NextOwnership(Exec(before).value, run[|run| - 1], own0);
    }
  }

  /** The list is finite, acyclic, fully allocated, and holds exactly the atomic stack's contents, newest first. */
  lemma ListIsAtomicStack<T>(run: seq<Label<T>>)
    requires Exec(run).Some?
    ensures exists addrs :: Distinct(addrs) && IsChain(Exec(run).value.heap, Exec(run).value.head, addrs,
        AtomicExec(run).stack)
  {
    var own := EveryRunIsAtomic(run);
  }

  /**
  A popping thread reads its pop's atomic result from the front: what it has read is a prefix, and once it
  reaches null it has read all of it. It never reaches a freed address.
  */
  lemma PopReturnsAtomicResult<T>(run: seq<Label<T>>, t: Thread)
    requires Exec(run).Some? && LocalOf(Exec(run).value, t).Walking?
    ensures t in AtomicExec(run).results
    ensures var local := LocalOf(Exec(run).value, t);
      && local.seen <= AtomicExec(run).results[t]
      && (local.cur == NULL <==> local.seen == AtomicExec(run).results[t])
      && (local.cur != NULL ==> Step(Exec(run).value, Visit(t)).Some?)
      && (local.cur == NULL ==> Step(Exec(run).value, Finish(t)).Some?)
  {
    var own := EveryRunIsAtomic(run);
    assert WalkRelated(Exec(run).value, AtomicExec(run), own, t);
  }

  /**
  A pusher's own node is never freed under it, so its retry is always defined, and succeeds when the head is
  unchanged.
  */
  lemma PushRetryIsDefined<T>(run: seq<Label<T>>, t: Thread)
    requires Exec(run).Some? && LocalOf(Exec(run).value, t).Pushing?
    ensures Step(Exec(run).value, CasFails(t)).Some?
    ensures var s := Step(Exec(run).value, CasFails(t)).value; Step(s, CasSucceeds(t)).Some?
  {
    var own := EveryRunIsAtomic(run);
    assert PushRelated(Exec(run).value, AtomicExec(run), own, t);
  }

  // ----- Memory: nothing leaks.

  /** Every allocated node is on the list, on some walker's chain, or a pusher's own. */
  ghost predicate Owned<T>(s: State<T>, own: Ownership, x: Address) {
    || x in own.live
    || (exists t :: LocalOf(s, t).Walking? && t in own.held && x in own.held[t])
    || (exists t :: LocalOf(s, t).Pushing? && LocalOf(s, t).node == x)
  }

  lemma StepKeepsOwned<T>(s: State<T>, a: Atomic<T>, own: Ownership, l: Label<T>, s': State<T>, x: Address)
    requires Related(s, a, own) && Step(s, l) == Some(s') && x in s'.heap
    requires x in s.heap ==> Owned(s, own, x)
    ensures Owned(s', NextOwnership(s, l, own), x)
  {
    var own' := NextOwnership(s, l, own);
    assert WalkRelated(s, a, own, l.t);
    if x !in s.heap {
      assert LocalOf(s', l.t).Pushing? && LocalOf(s', l.t).node == x;
    } else if x in own.live {
      assert l.Exchange? ==> LocalOf(s', l.t).Walking? && x in own'.held[l.t];
    } else if t :| LocalOf(s, t).Walking? && t in own.held && x in own.held[t] {
      if t == l.t && l.Visit? {
        assert own.held[t] == [own.held[t][0]] + own.held[t][1..];
      }
      assert LocalOf(s', t).Walking? && t in own'.held && x in own'.held[t];
    } else {
      var t :| LocalOf(s, t).Pushing? && LocalOf(s, t).node == x;
      if t != l.t || l.CasFails? {
        assert LocalOf(s', t).Pushing? && LocalOf(s', t).node == x;
      } else {
        assert l.CasSucceeds? && x in own'.live;
      }
    }
  }

  lemma {:induction false} EveryNodeIsOwned<T>(run: seq<Label<T>>) returns (own: Ownership)
    requires Exec(run).Some?
    ensures Related(Exec(run).value, AtomicExec(run), own)
    ensures forall x :: x in Exec(run).value.heap ==> Owned(Exec(run).value, own, x)
    decreases |run|
  {
    if run == [] {
      own := Ownership([], map[]);
    } else {
      var before, l := run[..|run| - 1], run[|run| - 1];
      var s, s' := Exec(before).value, Exec(run).value;
      var own0 := EveryNodeIsOwned(before);
      StepKeeps(s, AtomicExec(before), own0, l, s');
      own := NextOwnership(s, l, own0);
      forall x | x in s'.heap ensures Owned(s', own, x) {
        StepKeepsOwned(s, AtomicExec(before), own0, l, s', x);
      }
    }
  }

  /** When nobody pushes or pops, exactly the nodes of the list are allocated. */
  lemma NothingLeaks<T>(run: seq<Label<T>>)
    requires Exec(run).Some? && forall t :: LocalOf(Exec(run).value, t).Idle?
    ensures exists addrs ::
      && IsChain(Exec(run).value.heap, Exec(run).value.head, addrs, AtomicExec(run).stack) && Distinct(addrs)
      && forall x :: x in Exec(run).value.heap <==> x in addrs
  {
    var own := EveryNodeIsOwned(run);
    ChainAllocated(Exec(run).value.heap, Exec(run).value.head, own.live, AtomicExec(run).stack);
    forall x | x in Exec(run).value.heap ensures x in own.live {
      assert Owned(Exec(run).value, own, x);
    }
  }

  /** A thread outside may always pop, and push at any address that is not allocated. */
  lemma IdleThreadMayStart<T>(run: seq<Label<T>>, t: Thread, value: T, at: Address)
    requires Exec(run).Some? && LocalOf(Exec(run).value, t).Idle? && at != NULL
    ensures var s := Exec(run).value;
      && Step(s, Exchange(t)).Some? && LocalOf(Step(s, Exchange(t)).value, t) == Walking(s.head, [])
      && (Step(s, PushStart(t, value, at)).Some? <==> at !in s.heap)
      && (at !in s.heap ==> Step(Step(s, PushStart(t, value, at)).value, CasSucceeds(t)).Some?)
  {
  }

  // ----- Conservation: what is pushed comes out once, newest first between two pops.

  /** The values whose push has taken effect, in the order of their compare-exchange. */
  function Pushed<T>(run: seq<Label<T>>): seq<T> {
    if run == [] then []
    else
      var before := run[..|run| - 1];
      var l := run[|run| - 1];
      if l.CasSucceeds? && l.t in AtomicExec(before).bringing then Pushed(before) + [AtomicExec(before).bringing[l.t]]
      else Pushed(before)
  }

  /** The results of all pops, in the order of their exchange. */
  function Pops<T>(run: seq<Label<T>>): seq<seq<T>> {
    if run == [] then []
    else
      var before := run[..|run| - 1];
      if run[|run| - 1].Exchange? then Pops(before) + [AtomicExec(before).stack] else Pops(before)
  }

  function OldestFirst<T>(s: seq<T>): seq<T> {
    if s == [] then [] else OldestFirst(s[1..]) + [s[0]]
  }

  function AllOldestFirst<T>(pops: seq<seq<T>>): seq<T> {
    if pops == [] then [] else AllOldestFirst(pops[..|pops| - 1]) + OldestFirst(pops[|pops| - 1])
  }

  lemma LabelKeepsOrder<T>(before: seq<Label<T>>, l: Label<T>, pops: seq<seq<T>>)
    ensures var a, a' := AtomicExec(before), AtomicStep(AtomicExec(before), l);
      AllOldestFirst(if l.Exchange? then pops + [a.stack] else pops) + OldestFirst(a'.stack) ==
      AllOldestFirst(pops) + OldestFirst(a.stack)
      + if l.CasSucceeds? && l.t in a.bringing then [a.bringing[l.t]] else []
  {
    var a, a' := AtomicExec(before), AtomicStep(AtomicExec(before), l);
    if l.Exchange? {
      assert (pops + [a.stack])[..|pops|] == pops;
    } else if l.CasSucceeds? && l.t in a.bringing {
      assert a'.stack[1..] == a.stack;
    }
  }

  /**
  Every popped batch turned oldest-first, one after the other, and then what is still in the list, is the
  push order. So each push is returned by at most one pop, and a pop returns what was added since the last one.
  */
  lemma {:induction false} PushedOnceInOrder<T>(run: seq<Label<T>>)
    ensures AllOldestFirst(Pops(run)) + OldestFirst(AtomicExec(run).stack) == Pushed(run)
    decreases |run|
  {
    if run == [] {
    } else {
      PushedOnceInOrder(run[..|run| - 1]);
      LabelKeepsOrder(run[..|run| - 1], run[|run| - 1], Pops(run[..|run| - 1]));
    }
  }

  // ----- The same about what the threads actually read.

  /** The walk of one pop: who walks, what was read so far, and whether null was reached. */
  datatype Walk<T> = Walk(t: Thread, seen: seq<T>, done: bool)

  /** The place of the thread's latest walk, or the length when it has none. */
  function LatestOf<T>(walks: seq<Walk<T>>, t: Thread): (k: nat)
    ensures k <= |walks| && (k < |walks| ==> walks[k].t == t)
    ensures forall i :: k < i < |walks| ==> walks[i].t != t
    ensures k == |walks| ==> forall i :: 0 <= i < |walks| ==> walks[i].t != t
  {
    if walks == [] then 0
    else if walks[|walks| - 1].t == t then |walks| - 1
    else
      var k := LatestOf(walks[..|walks| - 1], t);
      if k == |walks| - 1 then |walks| else k
  }

  /** What a step of the concrete machine adds to the walks. */
  function NextWalks<T>(s: State<T>, l: Label<T>, s': State<T>, walks: seq<Walk<T>>): seq<Walk<T>> {
    match l
    case Exchange(t) => walks + [Walk(t, [], s.head == NULL)]
    case Visit(t) =>
      var k, local := LatestOf(walks, t), LocalOf(s', t);
      if k < |walks| && local.Walking? then walks[k := Walk(t, local.seen, local.cur == NULL)] else walks
    case _ => walks
  }

  /** The walks of a run, in the order of their exchanges. */
  function WalksOf<T>(run: seq<Label<T>>): seq<Walk<T>>
    requires Exec(run).Some?
  {
    if run == [] then []
    else NextWalks(Exec(run[..|run| - 1]).value, run[|run| - 1], Exec(run).value, WalksOf(run[..|run| - 1]))
  }

  /** The values whose node became the head, in order. */
  function PushedNodes<T>(run: seq<Label<T>>): seq<T>
    requires Exec(run).Some?
  {
    if run == [] then []
    else
      var s, l := Exec(run[..|run| - 1]).value, run[|run| - 1];
      var local := LocalOf(s, l.t);
      PushedNodes(run[..|run| - 1]) +
      if l.CasSucceeds? && local.Pushing? && local.node in s.heap then [s.heap[local.node].value] else []
  }

  lemma {:induction false} PushedNodesArePushed<T>(run: seq<Label<T>>)
    requires Exec(run).Some?
    ensures PushedNodes(run) == Pushed(run)
    decreases |run|
  {
    if run != [] {
      var before, l := run[..|run| - 1], run[|run| - 1];
      PushedNodesArePushed(before);
      var own := EveryRunIsAtomic(before);
      assert PushRelated(Exec(before).value, AtomicExec(before), own, l.t);
    }
  }

  /** A finished walk has read its pop's batch; only a thread still walking has an unfinished one, its latest. */
  ghost predicate WalkKnown<T>(s: State<T>, walks: seq<Walk<T>>, pops: seq<seq<T>>, k: nat)
    requires k < |walks| == |pops|
  {
    && (walks[k].done ==> walks[k].seen == pops[k])
    && (!walks[k].done ==> LocalOf(s, walks[k].t).Walking? && LatestOf(walks, walks[k].t) == k)
  }

  /** A walking thread's latest walk is the one it is on. */
  ghost predicate WalkerKnown<T>(s: State<T>, a: Atomic<T>, walks: seq<Walk<T>>, pops: seq<seq<T>>, t: Thread)
    requires |walks| == |pops|
  {
    var local, k := LocalOf(s, t), LatestOf(walks, t);
    local.Walking? ==>
      && k < |walks| && t in a.results && pops[k] == a.results[t]
      && walks[k] == Walk(t, local.seen, local.cur == NULL)
  }

  ghost predicate WalksKnown<T>(s: State<T>, a: Atomic<T>, walks: seq<Walk<T>>, pops: seq<seq<T>>) {
    && |walks| == |pops|
    && (forall k :: 0 <= k < |walks| ==> WalkKnown(s, walks, pops, k))
    && (forall t :: WalkerKnown(s, a, walks, pops, t))
  }

  /** The walk of l's thread, if it is walking behind the step, is right so far. */
  ghost predicate WalksRight<T>(s: State<T>, a: Atomic<T>, t: Thread) {
    var local := LocalOf(s, t);
    local.Walking? ==> t in a.results && (local.cur == NULL <==> local.seen == a.results[t])
  }

  lemma ExchangeKeepsWalks<T>(s: State<T>, a: Atomic<T>, l: Label<T>, s': State<T>, walks: seq<Walk<T>>,
      pops: seq<seq<T>>)
    requires WalksKnown(s, a, walks, pops) && l.Exchange? && Step(s, l) == Some(s')
        && WalksRight(s', AtomicStep(a, l), l.t)
    ensures WalksKnown(s', AtomicStep(a, l), NextWalks(s, l, s', walks), pops + [a.stack])
  {
    var walks', pops' := NextWalks(s, l, s', walks), pops + [a.stack];
    assert walks'[..|walks|] == walks;
    forall k | 0 <= k < |walks'| ensures WalkKnown(s', walks', pops', k) {
      if k < |walks| {
        assert WalkKnown(s, walks, pops, k);
      }
    }
    forall t ensures WalkerKnown(s', AtomicStep(a, l), walks', pops', t) {
      assert WalkerKnown(s, a, walks, pops, t);
    }
  }

  lemma LatestAfterUpdate<T>(walks: seq<Walk<T>>, k: nat, walk: Walk<T>, t: Thread)
    requires k < |walks| && walks[k].t == walk.t
    ensures LatestOf(walks[k := walk], t) == LatestOf(walks, t)
  {
    var walks' := walks[k := walk];
    var i, j := LatestOf(walks, t), LatestOf(walks', t);
    assert forall n :: 0 <= n < |walks| ==> walks'[n].t == walks[n].t;
    assert i < |walks| ==> walks'[i].t == t;
    assert j < |walks| ==> walks[j].t == t;
  }

  lemma VisitKeepsWalks<T>(s: State<T>, a: Atomic<T>, l: Label<T>, s': State<T>, walks: seq<Walk<T>>, pops: seq<seq<T>>)
    requires WalksKnown(s, a, walks, pops) && l.Visit? && Step(s, l) == Some(s') && WalksRight(s', a, l.t)
    ensures WalksKnown(s', a, NextWalks(s, l, s', walks), pops)
  {
    var walks', k0 := NextWalks(s, l, s', walks), LatestOf(walks, l.t);
    assert WalkerKnown(s, a, walks, pops, l.t);
    var local := LocalOf(s', l.t);
    var walk := Walk(l.t, local.seen, local.cur == NULL);
    assert walks' == walks[k0 := walk];
    forall k | 0 <= k < |walks'| ensures WalkKnown(s', walks', pops, k) {
      assert WalkKnown(s, walks, pops, k);
      LatestAfterUpdate(walks, k0, walk, walks[k].t);
    }
    forall t ensures WalkerKnown(s', a, walks', pops, t) {
      assert WalkerKnown(s, a, walks, pops, t);
      LatestAfterUpdate(walks, k0, walk, t);
    }
  }

  lemma OtherStepKeepsWalks<T>(s: State<T>, a: Atomic<T>, l: Label<T>, s': State<T>, walks: seq<Walk<T>>,
      pops: seq<seq<T>>)
    requires WalksKnown(s, a, walks, pops) && !l.Visit? && !l.Exchange? && Step(s, l) == Some(s')
    ensures WalksKnown(s', AtomicStep(a, l), walks, pops)
  {
    assert WalkerKnown(s, a, walks, pops, l.t);
    forall k | 0 <= k < |walks| ensures WalkKnown(s', walks, pops, k) {
      assert WalkKnown(s, walks, pops, k);
    }
    forall t ensures WalkerKnown(s', AtomicStep(a, l), walks, pops, t) {
      assert WalkerKnown(s, a, walks, pops, t);
    }
  }

  lemma {:induction false} WalksAreKnown<T>(run: seq<Label<T>>)
    requires Exec(run).Some?
    ensures WalksKnown(Exec(run).value, AtomicExec(run), WalksOf(run), Pops(run))
    decreases |run|
  {
    if run != [] {
      var before, l := run[..|run| - 1], run[|run| - 1];
      var s, a, s' := Exec(before).value, AtomicExec(before), Exec(run).value;
      WalksAreKnown(before);
      if LocalOf(s', l.t).Walking? {
        PopReturnsAtomicResult(run, l.t);
      }
      if l.Exchange? {
        ExchangeKeepsWalks(s, a, l, s', WalksOf(before), Pops(before));
      } else if l.Visit? {
        VisitKeepsWalks(s, a, l, s', WalksOf(before), Pops(before));
      } else {
        OtherStepKeepsWalks(s, a, l, s', WalksOf(before), Pops(before));
      }
    }
  }

  function SeenBy<T>(walks: seq<Walk<T>>): (batches: seq<seq<T>>)
    ensures |batches| == |walks| && forall k :: 0 <= k < |walks| ==> batches[k] == walks[k].seen
  {
    seq(|walks|, k requires 0 <= k < |walks| => walks[k].seen)
  }

  /**
  A pop's batch is what its thread has read and, while it walks, the values on the rest of its chain.
  */
  ghost predicate InHand<T>(s: State<T>, walk: Walk<T>, batch: seq<T>) {
    if walk.done then batch == walk.seen
    else
      && LocalOf(s, walk.t).Walking? && walk.seen <= batch
      && exists addrs :: IsChain(s.heap, LocalOf(s, walk.t).cur, addrs, batch[|walk.seen|..])
  }

  lemma BatchIsInHand<T>(s: State<T>, a: Atomic<T>, own: Ownership, walks: seq<Walk<T>>, pops: seq<seq<T>>, k: nat)
    requires Related(s, a, own) && WalksKnown(s, a, walks, pops) && k < |walks|
    ensures InHand(s, walks[k], pops[k])
  {
    var t := walks[k].t;
    assert WalkKnown(s, walks, pops, k);
    if !walks[k].done {
      assert WalkerKnown(s, a, walks, pops, t) && WalkRelated(s, a, own, t);
    }
  }

  /**
  Of the threads, with walks under way: in every run the pops' batches, each turned oldest-first, and then the nodes
  on the list are exactly the values pushed, in order; and a batch is what its thread has read and what it still has
  before it.
  */
  lemma EveryValueIsInOneHand<T>(run: seq<Label<T>>) returns (batches: seq<seq<T>>, addrs: seq<Address>, values: seq<T>)
    requires Exec(run).Some?
    ensures |batches| == |WalksOf(run)|
    ensures forall k :: 0 <= k < |batches| ==> InHand(Exec(run).value, WalksOf(run)[k], batches[k])
    ensures Distinct(addrs) && IsChain(Exec(run).value.heap, Exec(run).value.head, addrs, values)
    ensures AllOldestFirst(batches) + OldestFirst(values) == PushedNodes(run)
  {
    WalksAreKnown(run);
    var own := EveryRunIsAtomic(run);
    batches, addrs, values := Pops(run), own.live, AtomicExec(run).stack;
    forall k | 0 <= k < |batches| ensures InHand(Exec(run).value, WalksOf(run)[k], batches[k]) {
      BatchIsInHand(Exec(run).value, AtomicExec(run), own, WalksOf(run), batches, k);
    }
    PushedOnceInOrder(run);
    PushedNodesArePushed(run);
  }

  /**
  Of the threads themselves: with every walk finished, what they read, batch after batch and each turned
  oldest-first, followed by the nodes still on the list, is exactly the values pushed, in order. So no value is
  read by two pops, and none is lost.
  */
  lemma PoppedOnceInOrder<T>(run: seq<Label<T>>)
    requires Exec(run).Some? && forall walk :: walk in WalksOf(run) ==> walk.done
    ensures exists addrs, values ::
      && Distinct(addrs) && IsChain(Exec(run).value.heap, Exec(run).value.head, addrs, values)
      && AllOldestFirst(SeenBy(WalksOf(run))) + OldestFirst(values) == PushedNodes(run)
  {
    var walks := WalksOf(run);
    var batches, addrs, values := EveryValueIsInOneHand(run);
    forall k | 0 <= k < |walks| ensures SeenBy(walks)[k] == batches[k] {
      assert walks[k] in walks && InHand(Exec(run).value, walks[k], batches[k]);
    }
    assert SeenBy(walks) == batches;
  }
}
