/**
  The mark-sweep collector of src/gc.cpp on a heap of linked nodes: recursive marking over possibly
  cyclic graphs, in-place unlinking during the sweep, and the bookkeeping of CollectorPolicy.
 */
module Collector {
  import opened CollectorPolicy

  /** What a node refers to, by kind of object or environment. */
  datatype Payload =
    | Plain
    | ConsCell(car: Node?, cdr: Node?)
    | ClosureCell(body: seq<Node?>, env: Node?, literals: seq<Node?>)
    | VecCell(elems: seq<Node?>)
    | MapCell(mapped: seq<Node?>)
    | PqCell(queued: seq<Node?>)
    | EnvCell(parent: Node?, bound: seq<Node?>)

  /** The order in which `gc_mark_children` visits. */
  function Children(p: Payload): seq<Node?> {
    match p
    case Plain => []
    case ConsCell(a, d) => [a, d]
    case ClosureCell(body, env, literals) => body + [env] + literals
    case VecCell(elems) => elems
    case MapCell(mapped) => mapped
    case PqCell(queued) => queued
    case EnvCell(parent, bound) => [parent] + bound
  }

  class Node {
    var marked: bool
    var next: Node?
    var payload: Payload
    const size: nat

    constructor (payload: Payload, size: nat)
      ensures !marked && next == null && this.payload == payload && this.size == size
    {
      marked, next := false, null;
      this.payload, this.size := payload, size;
    }
  }

  // ----- reachability -----

  /** The object graph, as a value. */
  type Graph = map<Node, set<Node>>

  /** The fields of a node that refer to other nodes. */
  predicate RefersTo(p: Payload, c: Node) {
    match p
    case Plain => false
    case ConsCell(car, cdr) => c == car || c == cdr
    case ClosureCell(body, env, literals) => c in body || c == env || c in literals
    case VecCell(elems) => c in elems
    case MapCell(mapped) => c in mapped
    case PqCell(queued) => c in queued
    case EnvCell(parent, bound) => c == parent || c in bound
  }

  ghost function Only(refs: seq<Node?>): set<Node> {
    set c: Node | c in refs
  }

  ghost function KidsOf(p: Payload): set<Node> {
    match p
    case Plain => {}
    case ConsCell(car, cdr) => Only([car, cdr])
    case ClosureCell(body, env, literals) => Only(body) + Only([env]) + Only(literals)
    case VecCell(elems) => Only(elems)
    case MapCell(mapped) => Only(mapped)
    case PqCell(queued) => Only(queued)
    case EnvCell(parent, bound) => Only([parent]) + Only(bound)
  }

  /** The graph and the visiting order both cover exactly the references. */
  lemma VisitsReferences(p: Payload, c: Node)
    ensures c in Children(p) <==> RefersTo(p, c)
    ensures c in KidsOf(p) <==> RefersTo(p, c)
  {
  }

  predicate Holds(ref: Node?, kept: seq<Node>) {
    ref == null || ref in kept
  }

  /** Every reference of the node, field by field, is null or kept. */
  predicate FieldsKept(p: Payload, kept: seq<Node>) {
    match p
    case Plain => true
    case ConsCell(car, cdr) => Holds(car, kept) && Holds(cdr, kept)
    case ClosureCell(body, env, literals) =>
      Holds(env, kept) && (forall i :: 0 <= i < |body| ==> Holds(body[i], kept))
      && forall i :: 0 <= i < |literals| ==> Holds(literals[i], kept)
    case VecCell(elems) => forall i :: 0 <= i < |elems| ==> Holds(elems[i], kept)
    case MapCell(mapped) => forall i :: 0 <= i < |mapped| ==> Holds(mapped[i], kept)
    case PqCell(queued) => forall i :: 0 <= i < |queued| ==> Holds(queued[i], kept)
    case EnvCell(parent, bound) => Holds(parent, kept) && forall i :: 0 <= i < |bound| ==> Holds(bound[i], kept)
  }

  lemma ReferencesKept(p: Payload, kept: seq<Node>)
    requires forall c: Node :: RefersTo(p, c) ==> c in kept
    ensures FieldsKept(p, kept)
  {
  }

  ghost predicate Closed(g: Graph, s: set<Node>) {
    forall n <- s :: n in g && g[n] <= s
  }

  /** Nodes at most k references away from the roots. */
  ghost function Within(g: Graph, roots: set<Node>, k: nat): set<Node> {
    if k == 0 then roots
    else
      var w := Within(g, roots, k - 1);
      w + set n, c | n in w && n in g && c in g[n] :: c
  }

  ghost predicate Reachable(g: Graph, roots: set<Node>, n: Node) {
    exists k: nat :: n in Within(g, roots, k)
  }

  ghost function ReachableSet(g: Graph, roots: set<Node>): set<Node> {
    set n | n in g.Keys && Reachable(g, roots, n)
  }

  lemma {:induction false} WithinStays(g: Graph, roots: set<Node>, s: set<Node>, k: nat)
    requires roots <= s && Closed(g, s)
    ensures Within(g, roots, k) <= s
    decreases k
  {
    if k > 0 {
      WithinStays(g, roots, s, k - 1);
    }
  }

  lemma {:induction false} ReachableClosed(g: Graph, roots: set<Node>)
    requires Closed(g, g.Keys) && roots <= g.Keys
    ensures roots <= ReachableSet(g, roots) && Closed(g, ReachableSet(g, roots))
  {
    var r := ReachableSet(g, roots);
    forall n | n in roots
      ensures n in r
    {
      assert n in Within(g, roots, 0);
    }
    forall n, c | n in r && c in g[n]
      ensures c in r
    {
      var k: nat :| n in Within(g, roots, k);
      assert c in Within(g, roots, k + 1);
    }
  }

  /** What is reachable is a root or is referred to from something reachable. */
  lemma {:induction false} ReachableHasReason(g: Graph, roots: set<Node>, n: Node, k: nat)
    requires Closed(g, g.Keys) && roots <= g.Keys && n in Within(g, roots, k)
    ensures n in roots || exists m: Node :: m in ReachableSet(g, roots) && n in g[m]
    decreases k
  {
    if k > 0 {
      if n in Within(g, roots, k - 1) {
        ReachableHasReason(g, roots, n, k - 1);
      } else {
        var m :| m in Within(g, roots, k - 1) && m in g && n in g[m];
        assert m in ReachableSet(g, roots);
      }
    }
  }

  /** A set that contains the roots, is closed and holds only reachable nodes is the reachable set. */
  lemma {:induction false} ReachableUnique(g: Graph, roots: set<Node>, s: set<Node>)
    requires Closed(g, g.Keys) && s <= g.Keys
    requires roots <= s && Closed(g, s) && s <= ReachableSet(g, roots)
    ensures s == ReachableSet(g, roots)
  {
    forall n | n in ReachableSet(g, roots)
      ensures n in s
    {
      var k: nat :| n in Within(g, roots, k);
      WithinStays(g, roots, s, k);
    }
  }

  // ----- marking -----

  ghost predicate GraphIs(g: Graph)
    reads g.Keys`payload
  {
    && (forall n <- g.Keys :: g[n] == KidsOf(n.payload))
    && Closed(g, g.Keys)
  }

  ghost function MarkedSet(keys: set<Node>): set<Node>
    reads keys`marked
  {
    set n | n in keys && n.marked
  }

  /** In the marked set `m`, nodes whose children are not being visited have all their children marked. */
  ghost predicate Finished(g: Graph, stack: set<Node>, m: set<Node>) {
    stack <= m && forall n <- m - stack :: n in g && g[n] <= m
  }

  /** From `m` to `m2` only nodes of `within` were added. */
  ghost predicate Marks(m: set<Node>, m2: set<Node>, within: set<Node>) {
    m <= m2 <= m + within
  }

  lemma MarkedInside(keys: set<Node>)
    ensures MarkedSet(keys) <= keys
  {
  }

  lemma MarksReflexive(m: set<Node>, within: set<Node>)
    ensures Marks(m, m, within)
  {
  }

  lemma MarksTransitive(m: set<Node>, m2: set<Node>, m3: set<Node>, within: set<Node>)
    requires Marks(m, m2, within) && Marks(m2, m3, within)
    ensures Marks(m, m3, within) && m2 <= m3
  {
  }

  lemma ChildWithin(g: Graph, within: set<Node>, n: Node, c: Node?)
    requires GraphIs(g) && Closed(g, within) && n in within && c in Children(n.payload)
    ensures c != null ==> c in within
  {
    if c != null {
      VisitsReferences(n.payload, c);
      assert c in KidsOf(n.payload);
    }
  }

  lemma ChildrenCovered(g: Graph, n: Node, m: set<Node>)
    requires GraphIs(g) && n in g
    requires
      var children := Children(n.payload);
      forall j :: 0 <= j < |children| && children[j] != null ==> children[j] in m
    ensures g[n] <= m
  {
    forall c | c in g[n]
      ensures c in m
    {
      VisitsReferences(n.payload, c);
    }
  }

  lemma FinishNode(g: Graph, stack: set<Node>, m: set<Node>, n: Node)
    requires Finished(g, stack + {n}, m) && n in g && g[n] <= m
    ensures Finished(g, stack, m)
  {
  }

  /**
    `mark_node` and `gc_mark_children`.  `stack` are the nodes whose children are being visited;
    every recursive call adds an unmarked node to it, so marking ends on every graph.
   */
  method MarkNode(n: Node?, ghost g: Graph, ghost stack: set<Node>, ghost within: set<Node>)
    requires GraphIs(g) && Finished(g, stack, MarkedSet(g.Keys))
    requires n != null ==> n in within
    requires within <= g.Keys && Closed(g, within)
    modifies g.Keys`marked
    ensures GraphIs(g) && Finished(g, stack, MarkedSet(g.Keys))
    ensures Marks(old(MarkedSet(g.Keys)), MarkedSet(g.Keys), within)
    ensures n != null ==> n in MarkedSet(g.Keys)
    decreases g.Keys - stack, 1
  {
    if n == null || n.marked {
      return;
    }
    ghost var before := MarkedSet(g.Keys);
    n.marked := true;
    assert MarkedSet(g.Keys) == before + {n};
    MarkChildren(n, g, stack + {n}, within);
    FinishNode(g, stack, MarkedSet(g.Keys), n);
  }

  method MarkChildren(n: Node, ghost g: Graph, ghost stack: set<Node>, ghost within: set<Node>)
    requires GraphIs(g) && Finished(g, stack, MarkedSet(g.Keys))
    requires n in stack && n in within
    requires within <= g.Keys && Closed(g, within)
    modifies g.Keys`marked
    ensures GraphIs(g) && Finished(g, stack, MarkedSet(g.Keys))
    ensures Marks(old(MarkedSet(g.Keys)), MarkedSet(g.Keys), within)
    ensures g[n] <= MarkedSet(g.Keys)
    decreases g.Keys - stack, 2
  {
    hide Finished, Marks, Closed, GraphIs, MarkedSet, KidsOf, Children;
    var children := Children(n.payload);
    MarksReflexive(MarkedSet(g.Keys), within);
    var i := 0;
    while i < |children|
      invariant 0 <= i <= |children|
      invariant GraphIs(g) && Finished(g, stack, MarkedSet(g.Keys))
      invariant Marks(old(MarkedSet(g.Keys)), MarkedSet(g.Keys), within)
      invariant forall j :: 0 <= j < i && children[j] != null ==> children[j] in MarkedSet(g.Keys)
    {
      ghost var before := MarkedSet(g.Keys);
      ChildWithin(g, within, n, children[i]);
      MarkNode(children[i], g, stack, within);
      MarksTransitive(old(MarkedSet(g.Keys)), before, MarkedSet(g.Keys), within);
      i := i + 1;
    }
    ChildrenCovered(g, n, MarkedSet(g.Keys));
  }

  // ----- the list of all nodes -----

  ghost function NodeSet(s: seq<Node>): set<Node> {
    set n | n in s
  }

  ghost predicate Distinct(s: seq<Node>) {
    forall i, j :: 0 <= i < j < |s| ==> s[i] != s[j]
  }

  ghost function First(s: seq<Node>, otherwise: Node?): Node? {
    if s == [] then otherwise else s[0]
  }

  /** The nodes of `s` are linked in this order and the last one points at `end`. */
  ghost predicate Chained(s: seq<Node>, end: Node?)
    reads NodeSet(s)`next
  {
    forall i :: 0 <= i < |s| ==> s[i].next == First(s[i + 1..], end)
  }

  /** The nodes of `s` that are in `m`, in their order. */
  ghost function Keep(s: seq<Node>, m: set<Node>): seq<Node> {
    if s == [] then []
    else Keep(s[..|s| - 1], m) + (if s[|s| - 1] in m then [s[|s| - 1]] else [])
  }

  lemma {:induction false} KeepFacts(s: seq<Node>, m: set<Node>)
    ensures NodeSet(Keep(s, m)) == NodeSet(s) * m
    ensures Distinct(s) ==> Distinct(Keep(s, m))
    ensures |Keep(s, m)| <= |s|
    decreases |s|
  {
    if s != [] {
      KeepFacts(s[..|s| - 1], m);
      assert NodeSet(s) == NodeSet(s[..|s| - 1]) + {s[|s| - 1]};
      var k := Keep(s[..|s| - 1], m);
      if Distinct(s) {
        forall n | n in k
          ensures n != s[|s| - 1]
        {
          assert n in NodeSet(k);
        }
      }
      assert NodeSet(k + [s[|s| - 1]]) == NodeSet(k) + {s[|s| - 1]};
      assert k + [] == k;
    }
  }

  function TotalSize(s: seq<Node>): nat {
    if s == [] then 0 else TotalSize(s[..|s| - 1]) + s[|s| - 1].size
  }

  /** Where a sweep stands: `kept` done, `rest` to come, `prev` holding the link to `cur`. */
  ghost predicate Sweeping(head: Node?, kept: seq<Node>, rest: seq<Node>, prev: Node?, cur: Node?, m: set<Node>)
    reads kept, rest
  {
    && cur == First(rest, null)
    && prev == (if kept == [] then null else kept[|kept| - 1])
    && head == First(kept, cur)
    && Chained(kept, cur)
    && Chained(rest, null)
    && (forall n <- kept :: !n.marked)
    && (forall n <- rest :: n.marked <==> n in m)
  }

  datatype Swept = Swept(live: nat, bytes: nat, freed: nat)

  /** The collector.  `nodes` is the list behind `head`; `symbols` is the table of interned symbols. */
  class Gc {
    var head: Node?
    var c: Control
    var bytes: nat
    var rootSlots: seq<Node?>
    var rootEnvs: seq<Node?>
    var symbols: seq<Node?>
    var log: seq<Lifecycle>
    ghost var nodes: seq<Node>
    ghost var h: History

    ghost function Roots(): set<Node>
      reads this`rootSlots, this`rootEnvs, this`symbols
    {
      set n: Node | n in rootSlots + rootEnvs + symbols
    }

    ghost function HeapGraph(): Graph
      reads this`nodes, NodeSet(nodes)`payload
    {
      map n | n in NodeSet(nodes) :: KidsOf(n.payload)
    }

    /** The nodes a collection must keep. */
    ghost function Live(): set<Node>
      reads this`rootSlots, this`rootEnvs, this`symbols, this`nodes, NodeSet(nodes)`payload
    {
      ReachableSet(HeapGraph(), Roots())
    }

    ghost predicate ListOk()
      reads this`head, this`nodes, NodeSet(nodes)`next, NodeSet(nodes)`marked
    {
      && head == First(nodes, null) && Chained(nodes, null) && Distinct(nodes)
      && MarkedSet(NodeSet(nodes)) == {}
    }

    /** Nothing reachable lies outside the list. */
    ghost predicate HeapOk()
      reads this`rootSlots, this`rootEnvs, this`symbols, this`nodes, NodeSet(nodes)`payload
    {
      Roots() <= NodeSet(nodes) && forall n <- NodeSet(nodes) :: KidsOf(n.payload) <= NodeSet(nodes)
    }

    ghost predicate Consistent()
      reads this, nodes
    {
      ListOk() && HeapOk() && |nodes| == c.current && bytes == TotalSize(nodes)
    }

    /** Accounts, event pairing, policies and pacing hold of everything this collector has done. */
    ghost predicate Accounted()
      reads this`c, this`log, this`h
    {
      h.c == c && h.log == log && Inv(h)
    }

    ghost predicate Valid()
      reads this, nodes
    {
      Consistent() && Accounted()
    }

    constructor ()
      ensures Valid() && nodes == [] && c == INITIAL && log == [] && Roots() == {}
    {
      hide Inv;
      head, c, bytes, nodes := null, INITIAL, 0, [];
      rootSlots, rootEnvs, symbols, log := [], [], [], [];
      h := START;
      StartIsSound();
    }

    /** Drop the current node: the link that led to it now leads to its successor. */
    method Unlink(prev: Node?, cur: Node, ghost kept: seq<Node>, ghost rest: seq<Node>, ghost m: set<Node>)
        returns (next: Node?)
      requires Sweeping(head, kept, rest, prev, cur, m) && Distinct(kept + rest)
      modifies this`head, NodeSet(kept)`next
      ensures Sweeping(head, kept, rest[1..], prev, next, m)
    {
      assert (kept + rest)[|kept|] == cur;
      assert forall j :: 0 <= j < |kept| ==> (kept + rest)[j] == kept[j];
      assert forall j :: 0 <= j < |rest| ==> (kept + rest)[|kept| + j] == rest[j];
      if prev == null {
        head := cur.next;
      } else {
        assert prev in NodeSet(kept);
        prev.next := cur.next;
      }
      next := cur.next;
    }

    /** Keep the current node: clear its mark and move the link past it. */
    method Retain(prev: Node?, cur: Node, ghost kept: seq<Node>, ghost rest: seq<Node>, ghost m: set<Node>)
        returns (next: Node?)
      requires Sweeping(head, kept, rest, prev, cur, m) && Distinct(kept + rest)
      modifies cur`marked
      ensures Sweeping(head, kept + [cur], rest[1..], cur, next, m)
      ensures !cur.marked
    {
      assert (kept + rest)[|kept|] == cur;
      assert forall j :: 0 < j < |rest| ==> (kept + rest)[|kept| + j] == rest[j];
      cur.marked := false;
      next := cur.next;
    }

    /**
      `sweep`: unlink every unmarked node in place and clear the marks.  `link` of the source, a
      pointer to the pointer at the current node, is `prev`, with null standing for the list head.
     */
    method Sweep(ghost nodes: seq<Node>, ghost m: set<Node>) returns (r: Swept)
      requires head == First(nodes, null) && Chained(nodes, null) && Distinct(nodes)
      requires forall n <- nodes :: n.marked <==> n in m
      modifies this`head, NodeSet(nodes)`marked, NodeSet(nodes)`next
      ensures head == First(Keep(nodes, m), null) && Chained(Keep(nodes, m), null)
      ensures forall n <- nodes :: !n.marked
      ensures r.live == |Keep(nodes, m)| && r.freed == |nodes| - r.live && r.bytes == TotalSize(Keep(nodes, m))
    {
      hide Chained, Distinct, Keep, Sweeping, First, TotalSize;
      var prev: Node?, cur := null, head;
      var live, bytes, freed := 0, 0, 0;
      ghost var i, kept := 0, [];
      SweepStarts(head, nodes, m);
      while cur != null
        invariant 0 <= i <= |nodes|
        invariant kept == Keep(nodes[..i], m)
        invariant Sweeping(head, kept, nodes[i..], prev, cur, m)
        invariant forall j :: 0 <= j < i ==> !nodes[j].marked
        invariant live == |kept| && bytes == TotalSize(kept) && freed == i - live
        decreases |nodes| - i
      {
        SweepingAt(head, kept, nodes[i..], prev, cur, m);
        SweepStep(nodes, i, m);
        SweepDistinct(nodes, i, m);
        assert nodes[i..][1..] == nodes[i + 1..];
        if !cur.marked {
          cur := Unlink(prev, cur, kept, nodes[i..], m);
          freed := freed + 1;
        } else {
          live := live + 1;
          bytes := bytes + cur.size;
          var node := cur;
          cur := Retain(prev, cur, kept, nodes[i..], m);
          kept := kept + [node];
          TotalSizeSnoc(kept[..|kept| - 1], node);
          assert kept[..|kept| - 1] + [node] == kept;
          prev := node;
        }
        i := i + 1;
      }
      SweepingAt(head, kept, nodes[i..], prev, cur, m);
      assert nodes[..i] == nodes;
      r := Swept(live, bytes, freed);
    }

    /** One of the three root loops of the mark phase. */
    method MarkRoots(roots: seq<Node?>, ghost g: Graph, ghost live: set<Node>)
      requires GraphIs(g) && Finished(g, {}, MarkedSet(g.Keys))
      requires live <= g.Keys && Closed(g, live) && forall r: Node :: r in roots ==> r in live
      modifies g.Keys`marked
      ensures GraphIs(g) && Finished(g, {}, MarkedSet(g.Keys))
      ensures Marks(old(MarkedSet(g.Keys)), MarkedSet(g.Keys), live)
      ensures forall r: Node :: r in roots ==> r in MarkedSet(g.Keys)
    {
      hide Finished, Marks, Closed, GraphIs;
      MarksReflexive(MarkedSet(g.Keys), live);
      var i := 0;
      while i < |roots|
        invariant 0 <= i <= |roots|
        invariant GraphIs(g) && Finished(g, {}, MarkedSet(g.Keys))
        invariant Marks(old(MarkedSet(g.Keys)), MarkedSet(g.Keys), live)
        invariant forall j :: 0 <= j < i && roots[j] != null ==> roots[j] in MarkedSet(g.Keys)
      {
        ghost var before := MarkedSet(g.Keys);
        MarkNode(roots[i], g, {}, live);
        MarksTransitive(old(MarkedSet(g.Keys)), before, MarkedSet(g.Keys), live);
        i := i + 1;
      }
    }

    /** The mark phase marks exactly the reachable nodes. */
    method MarkPhase()
      requires ListOk() && HeapOk()
      modifies NodeSet(nodes)`marked
      ensures MarkedSet(NodeSet(nodes)) == Live()
    {
      hide Closed, Finished, Marks, GraphIs, ReachableSet, ListOk, HeapOk, MarkedSet, KidsOf, NodeSet;
      ghost var g, live := HeapGraph(), Live();
      MarkStarts();
      MarkRoots(rootSlots, g, live);
      ghost var m1 := MarkedSet(g.Keys);
      MarkRoots(rootEnvs, g, live);
      ghost var m2 := MarkedSet(g.Keys);
      MarkRoots(symbols, g, live);
      ghost var m3 := MarkedSet(g.Keys);
      MarkedInside(g.Keys);
      MarksTransitive({}, m1, m2, live);
      MarksTransitive({}, m2, m3, live);
      SameGraph(g);
      MarkEnds(g, m1, m2, m3);
    }

    lemma SameGraph(g: Graph)
      requires GraphIs(g) && g.Keys == NodeSet(nodes)
      ensures g == HeapGraph()
    {
    }

    lemma MarkStarts()
      requires ListOk() && HeapOk()
      ensures GraphIs(HeapGraph()) && HeapGraph().Keys == NodeSet(nodes) && Roots() <= NodeSet(nodes)
      ensures MarkedSet(HeapGraph().Keys) == {} && Finished(HeapGraph(), {}, {})
      ensures Live() <= HeapGraph().Keys && Closed(HeapGraph(), Live())
      ensures forall r: Node :: r in rootSlots ==> r in Live()
      ensures forall r: Node :: r in rootEnvs ==> r in Live()
      ensures forall r: Node :: r in symbols ==> r in Live()
    {
      ReachableClosed(HeapGraph(), Roots());
      forall r: Node | r in rootSlots + rootEnvs + symbols
        ensures r in Live()
      {
        assert r in Roots();
      }
    }

    lemma MarkEnds(g: Graph, m1: set<Node>, m2: set<Node>, m3: set<Node>)
      requires GraphIs(g) && Finished(g, {}, m3) && m1 <= m2 <= m3 && m3 <= g.Keys
      requires Roots() <= g.Keys && g == HeapGraph() && Marks({}, m3, Live())
      requires forall r: Node :: r in rootSlots ==> r in m1
      requires forall r: Node :: r in rootEnvs ==> r in m2
      requires forall r: Node :: r in symbols ==> r in m3
      ensures m3 == Live()
    {
      ReachableUnique(g, Roots(), m3);
    }

    /** The survivors of a collection: the reachable nodes, in list order. */
    ghost function Survivors(): seq<Node>
      reads this`rootSlots, this`rootEnvs, this`symbols, this`nodes, NodeSet(nodes)`payload
    {
      Keep(nodes, Live())
    }

    lemma SurvivorsAreLive()
      requires ListOk() && HeapOk()
      ensures NodeSet(Survivors()) == Live() <= NodeSet(nodes) && Distinct(Survivors()) && |Survivors()| <= |nodes|
      ensures Roots() <= Live() && forall n <- Live() :: KidsOf(n.payload) <= Live()
    {
      KeepFacts(nodes, Live());
      MarkStarts();
      assert NodeSet(nodes) * Live() == Live();
      ReachableClosed(HeapGraph(), Roots());
    }

    /** Every root slot, root environment and interned symbol is null or kept. */
    ghost predicate RootsKept(kept: seq<Node>)
      reads this`rootSlots, this`rootEnvs, this`symbols
    {
      && (forall i :: 0 <= i < |rootSlots| ==> Holds(rootSlots[i], kept))
      && (forall i :: 0 <= i < |rootEnvs| ==> Holds(rootEnvs[i], kept))
      && (forall i :: 0 <= i < |symbols| ==> Holds(symbols[i], kept))
    }

    lemma RootsInside()
      requires HeapOk()
      ensures RootsKept(nodes)
    {
      forall r: Node | r in rootSlots || r in rootEnvs || r in symbols
        ensures r in nodes
      {
        assert r in rootSlots + rootEnvs + symbols;
        assert r in Roots();
        assert r in NodeSet(nodes);
      }
      assert forall i :: 0 <= i < |rootSlots| && rootSlots[i] != null ==> rootSlots[i] in rootSlots;
      assert forall i :: 0 <= i < |rootEnvs| && rootEnvs[i] != null ==> rootEnvs[i] in rootEnvs;
      assert forall i :: 0 <= i < |symbols| && symbols[i] != null ==> symbols[i] in symbols;
    }

    /** Field by field, nothing a listed node or a root refers to lies outside the list. */
    lemma NothingOutside()
      requires HeapOk()
      ensures forall n <- nodes :: FieldsKept(n.payload, nodes)
      ensures RootsKept(nodes)
    {
      RootsInside();
      forall n | n in nodes
        ensures FieldsKept(n.payload, nodes)
      {
        assert n in NodeSet(nodes);
        forall c: Node | RefersTo(n.payload, c)
          ensures c in nodes
        {
          VisitsReferences(n.payload, c);
        }
        ReferencesKept(n.payload, nodes);
      }
    }

    /** Every one of these nodes is a root, or one of them refers to it. */
    ghost predicate HaveReasons(kept: seq<Node>)
      reads this`rootSlots, this`rootEnvs, this`symbols, NodeSet(kept)`payload
    {
      forall n <- kept :: n in Roots() || exists m <- kept :: m in NodeSet(kept) && RefersTo(m.payload, n)
    }

    twostate lemma ReasonsKept(kept: seq<Node>)
      requires old(HaveReasons(kept))
      requires Roots() == old(Roots()) && forall n <- kept :: n.payload == old(n.payload)
      ensures HaveReasons(kept)
    {
      hide Roots, RefersTo;
    }

    lemma SurvivorsHaveReasons()
      requires ListOk() && HeapOk()
      ensures HaveReasons(Survivors())
    {
      hide ListOk, HeapOk, Keep, Roots, KidsOf;
      SurvivorsAreLive();
      MarkStarts();
      forall n | n in Survivors() && n !in Roots()
        ensures exists m <- Survivors() :: m in NodeSet(Survivors()) && RefersTo(m.payload, n)
      {
        assert n in NodeSet(Survivors());
        var k: nat :| n in Within(HeapGraph(), Roots(), k);
        ReachableHasReason(HeapGraph(), Roots(), n, k);
        var m: Node :| m in Live() && n in HeapGraph()[m];
        VisitsReferences(m.payload, n);
        assert m in NodeSet(Survivors());
      }
    }

    /** Both phases: the list becomes the reachable nodes in their old relative order, unmarked. */
    method MarkAndSweep() returns (swept: Swept)
      requires ListOk() && HeapOk()
      modifies this`head, this`nodes, NodeSet(nodes)`marked, NodeSet(nodes)`next
      ensures ListOk() && HeapOk()
      ensures nodes == old(Survivors()) && |nodes| <= |old(nodes)|
      ensures forall n <- old(nodes) :: !n.marked
      ensures swept == Swept(|nodes|, TotalSize(nodes), |old(nodes)| - |nodes|)
    {
      hide Chained, Distinct, Keep, TotalSize, KidsOf, ReachableSet;
      SurvivorsAreLive();
      ghost var live, survivors := Live(), Survivors();
      MarkPhase();
      assert forall n <- nodes :: n in NodeSet(nodes);
      assert forall n <- nodes :: n.marked <==> n in MarkedSet(NodeSet(nodes));
      swept := Sweep(nodes, live);
      assert forall n <- NodeSet(survivors) :: n in nodes;
      nodes := survivors;
    }

    /**
      `collect_impl`: mark, sweep, and move the accounts as CollectorPolicy says.  Afterwards the list
      holds precisely the reachable nodes in their old relative order, with every mark cleared.
     */
    method CollectImpl(reason: Reason, forced: bool)
      requires Consistent()
      modifies this`head, this`nodes, this`c, this`bytes, this`log, NodeSet(nodes)`marked, NodeSet(nodes)`next
      ensures Consistent()
      ensures nodes == old(Survivors()) && |nodes| <= old(c).current
      ensures forall n <- old(nodes) :: !n.marked
      ensures forall n <- nodes :: FieldsKept(n.payload, nodes)
      ensures HaveReasons(nodes)
      ensures RootsKept(nodes)
      ensures
        var e := Collected(old(c), reason, forced, |nodes|);
        c == e.c && log == old(log) + e.events
    {
      hide ListOk, HeapOk, Survivors, TotalSize, FieldsKept, RefersTo, HaveReasons, RootsKept;
      SurvivorsHaveReasons();
      ghost var survivors := Survivors();
      var id, before := c.collections + 1, c.current;
      log := log + [Lifecycle(true, id, reason, c.policy, forced, InTick(c), before, 0, 0)];
      var swept := MarkAndSweep();
      ReasonsKept(survivors);
      NothingOutside();
      bytes := swept.bytes;
      c := c.(current := swept.live, liveAfterLast := swept.live, threshold := NextThreshold(swept.live),
              requested := false, reason := Requested);
      c := c.(collections := id, freedTotal := c.freedTotal + swept.freed,
              forcedCount := if forced then c.forcedCount + 1 else c.forcedCount);
      log := log + [Lifecycle(false, id, reason, c.policy, forced, InTick(c), before, swept.live, swept.freed)];
    }

    // ----- the operations -----

    /** What every operation keeps and how it moves the accounts; `nodes` changes only if it collected. */
    twostate predicate Did(op: Op)
      reads this, nodes
    {
      && old(Valid()) && Valid()
      && Fits(old(c), op)
      && var e := Do(old(c), op);
         && c == e.c && log == old(log) + e.events && h == After(old(h), op)
         && nodes == (if e.events == [] then old(nodes) else old(Survivors()))
    }

    /** In every state a collector can be in, its accounts balance and its events keep their promises. */
    lemma AccountsBalance()
      requires Valid()
      ensures |nodes| + c.freedTotal == c.total && c.freedTotal == FreedIn(log) && c.forcedCount == ForcedIn(log)
      ensures Paired(log, c.collections) && forall i :: 0 <= i < |log| ==> PolicyKept(log[i])
    {
      hide FreedIn, ForcedIn;
    }

    lemma Account(op: Op)
      requires Accounted() && Fits(c, op)
      ensures After(h, op).c == Do(c, op).c && After(h, op).log == log + Do(c, op).events && Inv(After(h, op))
    {
      StepKeeps(h, op);
      assert log + [] == log;
    }

    method LinkNode(node: Node)
      requires Valid() && node !in nodes && !node.marked && KidsOf(node.payload) <= NodeSet(nodes)
      modifies this`head, this`nodes, this`c, this`bytes, this`h, node`next
      ensures Valid() && nodes == [node] + old(nodes) && c == Do(old(c), Link).c && h == After(old(h), Link)
    {
      hide Chained, Distinct, TotalSize, KidsOf, MarkedSet, NodeSet, First, Roots, Inv, After;
      Account(Link);
      h := After(h, Link);
      ghost var rest := nodes;
      InNodeSet(node, rest);
      node.next := head;
      head := node;
      nodes := [node] + nodes;
      LinkedList(node, rest);
      c := c.(current := c.current + 1, total := c.total + 1);
      bytes := bytes + node.size;
      if c.current > c.threshold {
        c := c.(requested := true, reason := Threshold);
      }
    }

    lemma LinkedList(node: Node, rest: seq<Node>)
      requires nodes == [node] + rest && head == node && node.next == First(rest, null) && node !in rest && !node.marked
      requires Chained(rest, null) && Distinct(rest) && MarkedSet(NodeSet(rest)) == {}
      requires Roots() <= NodeSet(rest) && KidsOf(node.payload) <= NodeSet(rest)
      requires forall n <- NodeSet(rest) :: KidsOf(n.payload) <= NodeSet(rest)
      ensures ListOk() && HeapOk() && TotalSize(nodes) == TotalSize(rest) + node.size
    {
      hide Chained, Distinct, TotalSize, KidsOf, First;
      TotalSizeCons(node, rest);
      assert NodeSet(nodes) == {node} + NodeSet(rest);
      ChainedCons(node, rest);
      DistinctOne(node);
      DistinctConcat([node], rest);
      assert MarkedSet(NodeSet(nodes)) == MarkedSet(NodeSet(rest));
      FirstCons(node, rest);
    }

    method RequestCollection()
      requires Valid()
      modifies this`c, this`h
      ensures Did(Request)
    {
      hide Inv, After;
      Account(Request);
      h := After(h, Request);
      c := c.(requested := true, reason := Requested);
      assert log + [] == log;
    }

    method MaybeCollect() returns (thrown: bool)
      requires Valid()
      modifies this`head, this`nodes, this`c, this`bytes, this`log, this`h, NodeSet(nodes)`marked, NodeSet(nodes)`next
      ensures Did(Op.MaybeCollect(|old(Survivors())|))
      ensures thrown == Do(old(c), Op.MaybeCollect(|old(Survivors())|)).throws
      ensures thrown <==> old(c).requested && old(c).policy == FailOnTickGc && old(c).depth > 0
      ensures old(c).requested && (old(c).policy == DefaultPolicy || (old(c).policy != Manual && old(c).depth == 0)) ==>
        nodes == old(Survivors()) && !c.requested
    {
      hide ListOk, HeapOk, TotalSize, Keep, Live, Inv, After;
      SurvivorsAreLive();
      Account(Op.MaybeCollect(|Survivors()|));
      h := After(h, Op.MaybeCollect(|Survivors()|));
      assert log + [] == log;
      if !c.requested {
        return false;
      }
      if c.policy.Manual? {
        return false;
      }
      if c.policy.BetweenTicks? && InTick(c) {
        return false;
      }
      if c.policy.FailOnTickGc? && InTick(c) {
        return true;
      }
      var reason := if c.policy.BetweenTicks? then BetweenTicksReason else c.reason;
      CollectImpl(reason, false);
      return false;
    }

    method Collect() returns (thrown: bool)
      requires Valid()
      modifies this`head, this`nodes, this`c, this`bytes, this`log, this`h, NodeSet(nodes)`marked, NodeSet(nodes)`next
      ensures Did(Op.Collect(|old(Survivors())|))
      ensures thrown == Do(old(c), Op.Collect(|old(Survivors())|)).throws
    {
      hide ListOk, HeapOk, TotalSize, Keep, Live, Inv, After;
      SurvivorsAreLive();
      Account(Op.Collect(|Survivors()|));
      h := After(h, Op.Collect(|Survivors()|));
      assert log + [] == log;
      if c.policy.FailOnTickGc? && InTick(c) {
        return true;
      }
      CollectImpl(Forced, true);
      return false;
    }

    method EnterTick()
      requires Valid()
      modifies this`c, this`h
      ensures Did(Op.EnterTick)
    {
      hide Inv, After;
      Account(Op.EnterTick);
      h := After(h, Op.EnterTick);
      c := c.(depth := c.depth + 1);
      assert log + [] == log;
    }

    method ExitTick()
      requires Valid()
      modifies this`head, this`nodes, this`c, this`bytes, this`log, this`h, NodeSet(nodes)`marked, NodeSet(nodes)`next
      ensures Did(Op.ExitTick(|old(Survivors())|))
    {
      hide ListOk, HeapOk, TotalSize, Keep, Live, Inv, After;
      SurvivorsAreLive();
      Account(Op.ExitTick(|Survivors()|));
      h := After(h, Op.ExitTick(|Survivors()|));
      assert log + [] == log;
      if c.depth > 0 {
        c := c.(depth := c.depth - 1);
      }
      if c.depth == 0 && c.requested && c.policy.BetweenTicks? {
        CollectImpl(BetweenTicksReason, false);
      }
    }

    method SetPolicy(policy: Policy)
      requires Valid()
      modifies this`c, this`h
      ensures Did(Op.SetPolicy(policy))
    {
      hide Inv, After;
      Account(Op.SetPolicy(policy));
      h := After(h, Op.SetPolicy(policy));
      c := c.(policy := policy);
      assert log + [] == log;
    }
  }

  lemma InNodeSet(n: Node, s: seq<Node>)
    ensures n in NodeSet(s) <==> n in s
  {
  }

  lemma FirstCons(n: Node, s: seq<Node>)
    ensures First([n] + s, null) == n
  {
  }

  lemma DistinctOne(n: Node)
    ensures Distinct([n])
  {
  }

  lemma ChainedCons(n: Node, s: seq<Node>)
    requires Chained(s, null) && n.next == First(s, null)
    ensures Chained([n] + s, null)
  {
    var all := [n] + s;
    forall i | 0 <= i < |all|
      ensures all[i].next == First(all[i + 1..], null)
    {
      assert all[i + 1..] == s[i..];
    }
  }

  lemma {:induction false} TotalSizeCons(n: Node, s: seq<Node>)
    ensures TotalSize([n] + s) == n.size + TotalSize(s)
    decreases |s|
  {
    var all := [n] + s;
    if s == [] {
      assert all[..0] == [];
    } else {
      assert all[..|all| - 1] == [n] + s[..|s| - 1];
      TotalSizeCons(n, s[..|s| - 1]);
    }
  }

  lemma SweepStarts(head: Node?, nodes: seq<Node>, m: set<Node>)
    requires head == First(nodes, null) && Chained(nodes, null)
    requires forall n <- nodes :: n.marked <==> n in m
    ensures nodes[0..] == nodes && nodes[..0] == [] && Keep(nodes[..0], m) == [] && TotalSize([]) == 0
    ensures Sweeping(head, [], nodes, null, head, m)
  {
  }

  lemma SweepingAt(head: Node?, kept: seq<Node>, rest: seq<Node>, prev: Node?, cur: Node?, m: set<Node>)
    requires Sweeping(head, kept, rest, prev, cur, m)
    ensures cur == null <==> rest == []
    ensures cur != null ==> cur == rest[0] && (cur.marked <==> cur in m)
    ensures cur == null ==> head == First(kept, null) && Chained(kept, null)
  {
  }

  lemma TotalSizeSnoc(s: seq<Node>, n: Node)
    ensures TotalSize(s + [n]) == TotalSize(s) + n.size
  {
    assert (s + [n])[..|s|] == s;
  }

  lemma DistinctConcat(a: seq<Node>, b: seq<Node>)
    requires Distinct(a) && Distinct(b) && NodeSet(a) !! NodeSet(b)
    ensures Distinct(a + b)
  {
    var s := a + b;
    forall i, j | 0 <= i < j < |s|
      ensures s[i] != s[j]
    {
      if i < |a| <= j {
        assert s[i] in NodeSet(a) && s[j] in NodeSet(b);
      }
    }
  }

  lemma DistinctSplit(s: seq<Node>, i: nat)
    requires Distinct(s) && i <= |s|
    ensures Distinct(s[..i]) && Distinct(s[i..]) && NodeSet(s[..i]) !! NodeSet(s[i..])
  {
  }

  /** The nodes kept so far and the nodes to come are all different. */
  lemma SweepDistinct(nodes: seq<Node>, i: nat, m: set<Node>)
    requires Distinct(nodes) && i <= |nodes|
    ensures Distinct(Keep(nodes[..i], m) + nodes[i..])
    ensures NodeSet(Keep(nodes[..i], m)) <= NodeSet(nodes)
  {
    DistinctSplit(nodes, i);
    KeepFacts(nodes[..i], m);
    hide Distinct, Keep;
    DistinctConcat(Keep(nodes[..i], m), nodes[i..]);
  }

  lemma {:induction false} SweepStep(nodes: seq<Node>, i: nat, m: set<Node>)
    requires i < |nodes|
    ensures Keep(nodes[..i + 1], m) == (if nodes[i] in m then Keep(nodes[..i], m) + [nodes[i]] else Keep(nodes[..i], m))
  {
    assert nodes[..i + 1][..i] == nodes[..i];
    assert Keep(nodes[..i], m) + [] == Keep(nodes[..i], m);
  }
}
