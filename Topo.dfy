/**
 * `_topo_order`: Kahn's algorithm over the workflow's nodes, with an in-degree map
 * and a FIFO queue. The ids it cannot schedule are reported as cycles.
 *
 * The in-degree of an id counts every `dependsOn` entry of every node carrying that id
 * (duplicates and unknown ids included), and popping an id takes one off the in-degree
 * of each node that lists it. `Pending` is that count as a function of the ids popped so far.
 */
module Topo {
  import opened Seqs
  import opened Workflow

  /** How many entries of `order` are listed in `deps`. */
  function Hits(order: seq<string>, deps: seq<string>): (r: nat)
    ensures r <= |order|
  {
    if order == [] then 0
    else Hits(order[..|order| - 1], deps) + (if order[|order| - 1] in deps then 1 else 0)
  }

  /** The in-degree `x` still has once the ids in `order` have been popped. */
  function Pending(nodes: seq<Node>, x: string, order: seq<string>): int {
    if nodes == [] then 0
    else
      var n := nodes[|nodes| - 1];
      Pending(nodes[..|nodes| - 1], x, order)
        + (if n.id == x then |n.dependsOn| - Hits(order, n.dependsOn) else 0)
  }

  /** How many nodes with id `x` list `cur`: what popping `cur` takes off the in-degree of `x`. */
  function Drops(nodes: seq<Node>, x: string, cur: string): nat {
    if nodes == [] then 0
    else
      var n := nodes[|nodes| - 1];
      Drops(nodes[..|nodes| - 1], x, cur) + (if n.id == x && cur in n.dependsOn then 1 else 0)
  }

  /** Every dependency in `deps` is in `done`, and none is listed twice. */
  predicate Satisfied(deps: seq<string>, done: seq<string>) {
    NoDup(deps) && forall d :: d in deps ==> d in done
  }

  /** Every node with id `x` has its dependencies satisfied by `done`. */
  predicate Ready(nodes: seq<Node>, x: string, done: seq<string>) {
    forall k :: 0 <= k < |nodes| && nodes[k].id == x ==> Satisfied(nodes[k].dependsOn, done)
  }

  /** No node with id `x` lists a dependency. */
  predicate DependencyFree(nodes: seq<Node>, x: string) {
    forall k :: 0 <= k < |nodes| && nodes[k].id == x ==> nodes[k].dependsOn == []
  }

  /** `order` lists every id once, each after the dependencies of all the nodes carrying it. */
  predicate CompleteSchedule(nodes: seq<Node>, order: seq<string>) {
    && NoDup(order) && Elems(order) == IdSet(nodes)
    && forall i :: 0 <= i < |order| ==> Ready(nodes, order[i], order[..i])
  }

  /** The workflow can run to completion in some order. */
  ghost predicate Schedulable(nodes: seq<Node>) {
    exists order :: CompleteSchedule(nodes, order)
  }

  /** The ids with no dependencies, in the order they first appear: the queue's first contents. */
  function Roots(nodes: seq<Node>): seq<string> {
    Where(Ids(nodes), x => DependencyFree(nodes, x))
  }

  // ---------------------------------------------------------------------
  // Counting lemmas
  // ---------------------------------------------------------------------

  lemma HitsSnoc(order: seq<string>, c: string, deps: seq<string>)
    ensures Hits(order + [c], deps) == Hits(order, deps) + (if c in deps then 1 else 0)
  {
    assert (order + [c])[..|order|] == order;
  }

  /** Over a duplicate-free `order`, `Hits` counts the distinct ids common to both. */
  lemma {:induction false} HitsCard(order: seq<string>, deps: seq<string>)
    requires NoDup(order)
    ensures Hits(order, deps) == |Elems(order) * Elems(deps)|
  {
    if order != [] {
      var init, c := order[..|order| - 1], order[|order| - 1];
      assert order == init + [c];
      HitsCard(init, deps);
      assert c !in init;
      ElemsSnoc(init, c);
      InterSnoc(Elems(init), c, Elems(deps));
      assert c !in Elems(init) * Elems(deps);
    }
  }

  /** A duplicate-free `order` hits at most every entry of `deps`, and all of them exactly when it satisfies `deps`. */
  lemma HitsAtMost(order: seq<string>, deps: seq<string>)
    requires NoDup(order)
    ensures Hits(order, deps) <= |deps|
    ensures Hits(order, deps) == |deps| <==> Satisfied(deps, order)
  {
    HitsCard(order, deps);
    ElemsCard(deps);
    InterCard(Elems(order), Elems(deps));
    if Hits(order, deps) == |deps| {
      assert Elems(deps) <= Elems(order);
      assert forall d :: d in deps ==> d in Elems(deps);
    }
  }

  /** Popping never drives an in-degree below zero, and it reaches zero exactly when the id is ready. */
  lemma {:induction false} PendingSign(nodes: seq<Node>, x: string, order: seq<string>)
    requires NoDup(order)
    ensures Pending(nodes, x, order) >= 0
    ensures Pending(nodes, x, order) == 0 <==> Ready(nodes, x, order)
  {
    if nodes != [] {
      var init, n := nodes[..|nodes| - 1], nodes[|nodes| - 1];
      PendingSign(init, x, order);
      HitsAtMost(order, n.dependsOn);
      assert forall k :: 0 <= k < |init| ==> init[k] == nodes[k];
      if Ready(nodes, x, order) {
        assert Ready(init, x, order);
      }
    }
  }

  /** Before anything is popped, the in-degree is zero exactly for the ids whose nodes list no dependency. */
  lemma {:induction false} PendingInitial(nodes: seq<Node>, x: string)
    ensures Pending(nodes, x, []) >= 0
    ensures Pending(nodes, x, []) == 0 <==> DependencyFree(nodes, x)
  {
    if nodes != [] {
      var init := nodes[..|nodes| - 1];
      PendingInitial(init, x);
      assert forall k :: 0 <= k < |init| ==> init[k] == nodes[k];
    }
  }

  /** Popping `c` takes `Drops(nodes, x, c)` off the in-degree of `x`. */
  lemma {:induction false} PendingSnoc(nodes: seq<Node>, x: string, order: seq<string>, c: string)
    ensures Pending(nodes, x, order + [c]) == Pending(nodes, x, order) - Drops(nodes, x, c)
  {
    if nodes != [] {
      PendingSnoc(nodes[..|nodes| - 1], x, order, c);
      HitsSnoc(order, c, nodes[|nodes| - 1].dependsOn);
    }
  }

  lemma DropsStep(nodes: seq<Node>, x: string, c: string, j: nat)
    requires j < |nodes|
    ensures Drops(nodes[..j + 1], x, c)
         == Drops(nodes[..j], x, c) + (if nodes[j].id == x && c in nodes[j].dependsOn then 1 else 0)
  {
    assert nodes[..j + 1][..j] == nodes[..j];
  }

  lemma {:induction false} DropsPrefix(nodes: seq<Node>, x: string, c: string, j: nat)
    requires j <= |nodes|
    ensures Drops(nodes[..j], x, c) <= Drops(nodes, x, c)
    decreases |nodes| - j
  {
    if j < |nodes| {
      DropsStep(nodes, x, c, j);
      DropsPrefix(nodes, x, c, j + 1);
    } else {
      assert nodes[..j] == nodes;
    }
  }

  // ---------------------------------------------------------------------
  // The algorithm
  // ---------------------------------------------------------------------

  /**
   * The first two loops of `_topo_order`: `indeg.setdefault(id, 0)` for each node, then one
   * increment per `dependsOn` entry. `keys` is the dict's key order.
   */
  method InDegrees(nodes: seq<Node>) returns (indeg: map<string, int>, keys: seq<string>)
    ensures keys == Ids(nodes)
    ensures indeg.Keys == IdSet(nodes)
    ensures forall x :: x in indeg ==> indeg[x] == Pending(nodes, x, [])
  {
    indeg, keys := ZeroDegrees(nodes);
    for i := 0 to |nodes|
      invariant indeg.Keys == IdSet(nodes)
      invariant forall x :: x in indeg ==> indeg[x] == Pending(nodes[..i], x, [])
    {
      indeg := CountDependencies(nodes, i, indeg);
    }
    assert nodes[..|nodes|] == nodes;
  }

  /** The first loop: every id at in-degree zero, in order of first occurrence. */
  method ZeroDegrees(nodes: seq<Node>) returns (indeg: map<string, int>, keys: seq<string>)
    ensures keys == Ids(nodes)
    ensures indeg.Keys == IdSet(nodes)
    ensures forall x :: x in indeg ==> indeg[x] == 0
  {
    indeg, keys := map[], [];
    for i := 0 to |nodes|
      invariant keys == Ids(nodes[..i])
      invariant indeg.Keys == IdSet(nodes[..i])
      invariant forall x :: x in indeg ==> indeg[x] == 0
    {
      var nid := nodes[i].id;
      assert nodes[..i + 1][..i] == nodes[..i];
      IdSetSnoc(nodes[..i + 1]);
      if nid !in indeg {
        indeg := indeg[nid := 0];
        keys := keys + [nid];
      }
    }
    assert nodes[..|nodes|] == nodes;
  }

  /** One pass of the second loop: the `i`-th node's dependencies each add one to its id's in-degree. */
  method CountDependencies(nodes: seq<Node>, i: nat, indeg0: map<string, int>) returns (indeg: map<string, int>)
    requires i < |nodes| && indeg0.Keys == IdSet(nodes)
    requires forall x :: x in indeg0 ==> indeg0[x] == Pending(nodes[..i], x, [])
    ensures indeg.Keys == IdSet(nodes)
    ensures forall x :: x in indeg ==> indeg[x] == Pending(nodes[..i + 1], x, [])
  {
    indeg := indeg0;
    var n := nodes[i];
    assert n.id in IdSet(nodes);
    assert nodes[..i + 1][..i] == nodes[..i];
    for j := 0 to |n.dependsOn|
      invariant indeg.Keys == IdSet(nodes)
      invariant forall x :: x in indeg ==> indeg[x] == Pending(nodes[..i], x, []) + (if x == n.id then j else 0)
    {
      indeg := indeg[n.id := indeg[n.id] + 1];
    }
  }

  /** The queue holds exactly the unscheduled ids of in-degree zero, once each. */
  ghost predicate QueueInv(nodes: seq<Node>, indeg: map<string, int>, order: seq<string>, q: seq<string>) {
    && indeg.Keys == IdSet(nodes)
    && NoDup(order + q) && Elems(order + q) <= IdSet(nodes)
    && (forall x :: x in indeg ==> (x in order + q <==> indeg[x] == 0))
  }

  /** The in-degrees once the nodes before `j` have been visited for the popped id `cur`. */
  ghost predicate Released(nodes: seq<Node>, indeg: map<string, int>, done: seq<string>, cur: string, j: nat)
    requires j <= |nodes|
  {
    forall x :: x in indeg ==> indeg[x] == Pending(nodes, x, done) - Drops(nodes[..j], x, cur)
  }

  /**
   * The body of the `for n in nodes` loop after `cur` is popped: one decrement for each
   * node that lists `cur`, queueing the ids that reach zero.
   */
  method Release(nodes: seq<Node>, cur: string, ghost done: seq<string>, indeg0: map<string, int>, order: seq<string>, q0: seq<string>)
    returns (indeg: map<string, int>, q: seq<string>)
    requires order == done + [cur]
    requires QueueInv(nodes, indeg0, order, q0)
    requires forall x :: x in indeg0 ==> indeg0[x] == Pending(nodes, x, done)
    ensures QueueInv(nodes, indeg, order, q)
    ensures forall x :: x in indeg ==> indeg[x] == Pending(nodes, x, order)
    ensures q0 <= q
  {
    indeg, q := indeg0, q0;
    assert nodes[..0] == [];
    for j := 0 to |nodes|
      invariant QueueInv(nodes, indeg, order, q)
      invariant Released(nodes, indeg, done, cur, j)
      invariant q0 <= q
    {
      indeg, q := ReleaseAt(nodes, cur, done, order, j, indeg, q);
    }
    assert nodes[..|nodes|] == nodes;
    forall x | x in indeg ensures indeg[x] == Pending(nodes, x, order) {
      PendingSnoc(nodes, x, done, cur);
    }
  }

  /** One iteration of that loop, for the node at `j`. */
  method ReleaseAt(nodes: seq<Node>, cur: string, ghost done: seq<string>, order: seq<string>, j: nat,
                   indeg0: map<string, int>, q0: seq<string>)
    returns (indeg: map<string, int>, q: seq<string>)
    requires order == done + [cur] && j < |nodes|
    requires QueueInv(nodes, indeg0, order, q0) && Released(nodes, indeg0, done, cur, j)
    ensures QueueInv(nodes, indeg, order, q) && Released(nodes, indeg, done, cur, j + 1)
    ensures q0 <= q
  {
    indeg, q := indeg0, q0;
    assert NoDup(order) by {
      assert forall i :: 0 <= i < |order| ==> order[i] == (order + q)[i];
    }
    var n := nodes[j];
    forall x | x in indeg
      ensures Drops(nodes[..j + 1], x, cur)
           == Drops(nodes[..j], x, cur) + (if n.id == x && cur in n.dependsOn then 1 else 0)
    {
      DropsStep(nodes, x, cur, j);
    }
    if cur in n.dependsOn {
      assert n.id in IdSet(nodes);
      PendingSnoc(nodes, n.id, done, cur);
      PendingSign(nodes, n.id, order);
      DropsPrefix(nodes, n.id, cur, j + 1);
      indeg := indeg[n.id := indeg[n.id] - 1];
      if indeg[n.id] == 0 {
        assert n.id !in order + q;
        q := q + [n.id];
        assert order + q == (order + q[..|q| - 1]) + [n.id];
      }
    }
  }

  /** `indeg` holds the in-degree every id has once the ids in `order` have been popped. */
  ghost predicate Degrees(nodes: seq<Node>, indeg: map<string, int>, order: seq<string>) {
    forall x :: x in indeg ==> indeg[x] == Pending(nodes, x, order)
  }

  /** Every id in `order` was ready when it was popped. */
  ghost predicate Scheduled(nodes: seq<Node>, order: seq<string>) {
    forall i :: 0 <= i < |order| ==> Ready(nodes, order[i], order[..i])
  }

  lemma ScheduledSnoc(nodes: seq<Node>, done: seq<string>, cur: string)
    requires Scheduled(nodes, done) && Ready(nodes, cur, done)
    ensures Scheduled(nodes, done + [cur])
  {
    var order := done + [cur];
    assert order[..|done|] == done;
    assert forall i :: 0 <= i < |done| ==> order[..i] == done[..i];
  }

  /** A node whose dependencies are not satisfied leaves its id among the unscheduled ones. */
  lemma Blocked(nodes: seq<Node>, order: seq<string>, k: nat)
    requires k < |nodes|
    requires forall x :: x in IdSet(nodes) ==> (x in order <==> Ready(nodes, x, order))
    requires !Satisfied(nodes[k].dependsOn, order)
    ensures nodes[k].id in Where(Ids(nodes), x => x !in order)
  {
    assert nodes[k].id in IdSet(nodes);
    assert nodes[k].id in Elems(Ids(nodes));
  }

  /** Once the queue is empty, the ids left with a positive in-degree are exactly the unscheduled ones. */
  lemma Leftover(nodes: seq<Node>, indeg: map<string, int>, order: seq<string>)
    requires QueueInv(nodes, indeg, order, []) && Degrees(nodes, indeg, order)
    ensures NoDup(order)
    ensures forall x :: x in IdSet(nodes) ==> (x in order <==> Ready(nodes, x, order))
    ensures Where(Ids(nodes), x => x in indeg && indeg[x] > 0) == Where(Ids(nodes), x => x !in order)
    ensures forall k :: 0 <= k < |nodes| && !Satisfied(nodes[k].dependsOn, order) ==>
              nodes[k].id in Where(Ids(nodes), x => x !in order)
  {
    assert order + [] == order;
    forall x | x in IdSet(nodes) ensures (x in indeg && indeg[x] > 0) == (x !in order)
      ensures x in order <==> Ready(nodes, x, order)
    {
      PendingSign(nodes, x, order);
    }
    WhereCongruent(Ids(nodes), x => x in indeg && indeg[x] > 0, x => x !in order);
    forall k | 0 <= k < |nodes| && !Satisfied(nodes[k].dependsOn, order)
      ensures nodes[k].id in Where(Ids(nodes), x => x !in order)
    {
      Blocked(nodes, order, k);
    }
  }

  /** The `while q` loop: pop the front id, schedule it and release the ids that depend on it. */
  method Drain(nodes: seq<Node>, indeg0: map<string, int>, q0: seq<string>) returns (indeg: map<string, int>, order: seq<string>)
    requires QueueInv(nodes, indeg0, [], q0) && Degrees(nodes, indeg0, [])
    ensures QueueInv(nodes, indeg, order, []) && Degrees(nodes, indeg, order)
    ensures Scheduled(nodes, order)
    ensures q0 <= order
  {
    indeg, order := indeg0, [];
    var q := q0;
    while q != []
      invariant QueueInv(nodes, indeg, order, q) && Degrees(nodes, indeg, order)
      invariant Scheduled(nodes, order)
      invariant q0 <= order + q
      decreases |IdSet(nodes)| - |order|
    {
      NoDupBounded(order + q, IdSet(nodes));
      ghost var before := order + q;
      indeg, order, q := Pop(nodes, indeg, order, q);
      assert q0 <= order + q by {
        assert before <= order + q;
      }
    }
    assert order + q == order;
  }

  /** One turn of the `while q` loop: pop the front id, schedule it and release the ids that depend on it. */
  method Pop(nodes: seq<Node>, indeg0: map<string, int>, order0: seq<string>, q0: seq<string>)
    returns (indeg: map<string, int>, order: seq<string>, q: seq<string>)
    requires q0 != []
    requires QueueInv(nodes, indeg0, order0, q0) && Degrees(nodes, indeg0, order0) && Scheduled(nodes, order0)
    ensures QueueInv(nodes, indeg, order, q) && Degrees(nodes, indeg, order) && Scheduled(nodes, order)
    ensures order == order0 + [q0[0]] && order0 + q0 <= order + q
  {
    var cur := q0[0];
    assert cur in order0 + q0;
    NoDupSplit(order0, q0);
    PendingSign(nodes, cur, order0);
    q := q0[1..];
    order := order0 + [cur];
    assert q0 == [cur] + q;
    assert order0 + q0 == order + q;
    ScheduledSnoc(nodes, order0, cur);
    indeg, q := Release(nodes, cur, order0, indeg0, order, q);
  }

  /**
   * Kahn's algorithm as `_topo_order` runs it. `order` holds each id at most once, every id
   * after all the dependencies of every node carrying it; an id is scheduled exactly when its
   * nodes' dependencies are all scheduled and listed once each; `cycles` is every other id,
   * in the order the ids first appear.
   */
  method TopoOrder(nodes: seq<Node>) returns (order: seq<string>, cycles: seq<string>)
    ensures NoDup(order) && Elems(order) <= IdSet(nodes)
    ensures forall i :: 0 <= i < |order| ==> Ready(nodes, order[i], order[..i])
    ensures forall x :: x in IdSet(nodes) ==> (x in order <==> Ready(nodes, x, order))
    ensures cycles == Where(Ids(nodes), x => x !in order)
    ensures forall x :: x in cycles <==> x in IdSet(nodes) && x !in order
    ensures Roots(nodes) <= order
    ensures forall k, d :: 0 <= k < |nodes| && d in nodes[k].dependsOn && d !in order ==> nodes[k].id in cycles
    ensures forall k :: 0 <= k < |nodes| && !NoDup(nodes[k].dependsOn) ==> nodes[k].id in cycles
    ensures cycles == [] <==> Schedulable(nodes)
  {
    var indeg, keys := InDegrees(nodes);
    var q := Where(keys, x => x in indeg && indeg[x] == 0);
    forall x | x in keys ensures (x in indeg && indeg[x] == 0) == DependencyFree(nodes, x) {
      PendingInitial(nodes, x);
    }
    WhereCongruent(keys, x => x in indeg && indeg[x] == 0, x => DependencyFree(nodes, x));
    assert [] + q == q;
    indeg, order := Drain(nodes, indeg, q);
    cycles := Where(keys, x => x in indeg && indeg[x] > 0);
    Leftover(nodes, indeg, order);
    UnscheduledIffCycle(nodes, order, cycles);
  }

  // ---------------------------------------------------------------------
  // Acyclic workflows
  // ---------------------------------------------------------------------

  /** Every dependency names a node, and no node lists one twice. */
  predicate KnownDependencies(nodes: seq<Node>) {
    forall k :: 0 <= k < |nodes| ==>
      NoDup(nodes[k].dependsOn) && forall d :: d in nodes[k].dependsOn ==> d in IdSet(nodes)
  }

  /** `rank` puts every dependency strictly before the node that lists it: the graph has no cycle. */
  predicate Ranked(nodes: seq<Node>, rank: string -> nat) {
    forall k, d :: 0 <= k < |nodes| && d in nodes[k].dependsOn ==> rank(d) < rank(nodes[k].id)
  }

  lemma {:induction false} RankedScheduled(nodes: seq<Node>, order: seq<string>, rank: string -> nat, x: string)
    requires forall y :: y in IdSet(nodes) ==> (y in order <==> Ready(nodes, y, order))
    requires KnownDependencies(nodes) && Ranked(nodes, rank)
    requires x in IdSet(nodes)
    ensures x in order
    decreases rank(x)
  {
    forall k | 0 <= k < |nodes| && nodes[k].id == x ensures Satisfied(nodes[k].dependsOn, order) {
      forall d | d in nodes[k].dependsOn ensures d in order {
        RankedScheduled(nodes, order, rank, d);
      }
    }
  }

  /**
   * Given what `TopoOrder` ensures of `order`, an acyclic workflow whose dependencies all
   * name nodes, once each, is scheduled completely, so `cycles` is empty.
   */
  lemma AcyclicNoCycles(nodes: seq<Node>, order: seq<string>, rank: string -> nat)
    requires forall y :: y in IdSet(nodes) ==> (y in order <==> Ready(nodes, y, order))
    requires KnownDependencies(nodes) && Ranked(nodes, rank)
    ensures forall y :: y in IdSet(nodes) ==> y in order
  {
    forall y | y in IdSet(nodes) ensures y in order {
      RankedScheduled(nodes, order, rank, y);
    }
  }

  /** Where `x` sits in `s`, or `|s|` when it is absent. */
  function Position(s: seq<string>, x: string): (r: nat)
    ensures r <= |s|
    ensures r < |s| <==> x in s
    ensures r < |s| ==> s[r] == x && x !in s[..r]
  {
    if s == [] then 0
    else if s[0] == x then 0
    else
      var r := Position(s[1..], x);
      assert r < |s| - 1 ==> s[..r + 1] == [s[0]] + s[1..][..r];
      1 + r
  }

  /**
   * Conversely, a schedule that covers every id witnesses that the workflow is acyclic
   * (positions in `order` rank it) and that every dependency names a node, once.
   */
  lemma CompleteScheduleRanks(nodes: seq<Node>, order: seq<string>, rank: string -> nat)
    requires NoDup(order) && Elems(order) <= IdSet(nodes)
    requires forall i :: 0 <= i < |order| ==> Ready(nodes, order[i], order[..i])
    requires forall y :: y in IdSet(nodes) ==> y in order
    requires forall y :: rank(y) == Position(order, y)
    ensures KnownDependencies(nodes)
    ensures Ranked(nodes, rank)
  {
    forall k, d | 0 <= k < |nodes| && d in nodes[k].dependsOn
      ensures d in IdSet(nodes) && Position(order, d) < Position(order, nodes[k].id)
    {
      var x := nodes[k].id;
      assert x in IdSet(nodes);
      var i := Position(order, x);
      assert Ready(nodes, order[i], order[..i]);
      assert d in order[..i];
      var j :| 0 <= j < i && order[j] == d;
      assert d in Elems(order);
    }
    forall k | 0 <= k < |nodes| ensures NoDup(nodes[k].dependsOn) {
      var x := nodes[k].id;
      assert x in IdSet(nodes);
      var i := Position(order, x);
      assert Ready(nodes, order[i], order[..i]);
    }
  }

  /**
   * Given what `TopoOrder` ensures of `order` and `cycles`, no id is left over exactly
   * when the workflow can run to completion in some order.
   */
  lemma UnscheduledIffCycle(nodes: seq<Node>, order: seq<string>, cycles: seq<string>)
    requires NoDup(order) && Elems(order) <= IdSet(nodes)
    requires forall i :: 0 <= i < |order| ==> Ready(nodes, order[i], order[..i])
    requires forall x :: x in IdSet(nodes) ==> (x in order <==> Ready(nodes, x, order))
    requires forall x :: x in cycles <==> x in IdSet(nodes) && x !in order
    ensures cycles == [] <==> Schedulable(nodes)
  {
    if cycles == [] {
      assert Elems(order) == IdSet(nodes);
      assert CompleteSchedule(nodes, order);
    }
    if Schedulable(nodes) {
      var o :| CompleteSchedule(nodes, o);
      var rank := y => Position(o, y);
      CompleteScheduleRanks(nodes, o, rank);
      AcyclicNoCycles(nodes, order, rank);
      assert forall y :: y in IdSet(nodes) ==> y in order;
      assert Elems(cycles) == {};
      EmptyIffNoElems(cycles);
    }
  }
}
