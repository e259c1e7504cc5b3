/**
  Benchmark fixtures: flattening a tree into an id-indexed node array (bench/runtimes/muesli_adapter.cpp),
  rebuilding its source form (src/builtins.cpp) and writing that form directly (bench/fixtures/source_factory.cpp).
 */
module Fixture {
  import opened Values
  import opened Printer
  import opened BtDefinition

  datatype FixtureKind = FixSeq | FixSel | FixReactiveSel | FixCond | FixAct

  datatype FixtureNode = FixtureNode(kind: FixtureKind, leafName: string, children: seq<FixtureNode>)

  function ToBtKind(kind: FixtureKind): BtKind {
    match kind
    case FixSeq => Seq
    case FixSel => Sel
    case FixReactiveSel => ReactiveSel
    case FixCond => Cond
    case FixAct => Act
  }

  predicate IsFixtureLeaf(kind: FixtureKind) {
    kind == FixCond || kind == FixAct
  }

  // ----- the flattened form -----

  function Count(t: FixtureNode): (n: nat)
    ensures n > 0
    decreases t
  {
    1 + CountAll(t.children)
  }

  function CountAll(ts: seq<FixtureNode>): nat
    decreases ts
  {
    if ts == [] then 0 else CountAll(ts[..|ts| - 1]) + Count(ts[|ts| - 1])
  }

  /** The ids of the roots of consecutive subtrees placed from `base` on. */
  function RootIds(ts: seq<FixtureNode>, base: nat): (ids: seq<nat>)
    ensures |ids| == |ts|
    ensures forall i :: 0 <= i < |ids| ==> base <= ids[i] < base + CountAll(ts)
  {
    if ts == [] then []
    else RootIds(ts[..|ts| - 1], base) + [base + CountAll(ts[..|ts| - 1])]
  }

  function Placed(t: FixtureNode, id: nat, children: seq<nat>): BtNode {
    BtNode(ToBtKind(t.kind), id, children, t.leafName, [], 0)
  }

  /** A tree in pre-order from id `base` on. */
  function Flatten(t: FixtureNode, base: nat): (nodes: seq<BtNode>)
    ensures |nodes| == Count(t)
    decreases t
  {
    [Placed(t, base, RootIds(t.children, base + 1))] + FlattenAll(t.children, base + 1)
  }

  function FlattenAll(ts: seq<FixtureNode>, base: nat): (nodes: seq<BtNode>)
    ensures |nodes| == CountAll(ts)
    decreases ts
  {
    if ts == [] then []
    else FlattenAll(ts[..|ts| - 1], base) + Flatten(ts[|ts| - 1], base + CountAll(ts[..|ts| - 1]))
  }

  class Definition {
    var nodes: seq<BtNode>
    var root: nat

    constructor ()
      ensures nodes == [] && root == 0
    {
      nodes, root := [], 0;
    }

    method AppendNode(source: FixtureNode) returns (id: nat)
      modifies this`nodes
      ensures id == |old(nodes)| && nodes == old(nodes) + Flatten(source, id)
      decreases source
    {
      hide Flatten, FlattenAll, RootIds;
      id := |nodes|;
      ghost var before := nodes;
      nodes := nodes + [BtNode(ToBtKind(source.kind), id, [], source.leafName, [], 0)];
      var i := 0;
      NoneYet(source, id);
      while i < |source.children|
        invariant 0 <= i <= |source.children|
        invariant nodes == before + [Placed(source, id, RootIds(source.children[..i], id + 1))]
            + FlattenAll(source.children[..i], id + 1)
      {
        OneMore(source.children, i, id + 1);
        var childId := AppendNode(source.children[i]);
        nodes := nodes[id := nodes[id].(children := nodes[id].children + [childId])];
        i := i + 1;
      }
      FlattenIs(source, id);
      assert source.children[..i] == source.children;
    }

    /** `compile_tree` on a new definition. */
    method CompileTree(fixture: FixtureNode)
      requires nodes == []
      modifies this
      ensures nodes == Flatten(fixture, 0) && root == 0
    {
      var id := AppendNode(fixture);
      root := id;
    }
  }

  lemma NoneYet(t: FixtureNode, id: nat)
    ensures t.children[..0] == [] && RootIds([], id + 1) == [] && FlattenAll([], id + 1) == []
  {
  }

  lemma OneMore(ts: seq<FixtureNode>, i: nat, base: nat)
    requires i < |ts|
    ensures RootIds(ts[..i + 1], base) == RootIds(ts[..i], base) + [base + CountAll(ts[..i])]
    ensures FlattenAll(ts[..i + 1], base) == FlattenAll(ts[..i], base) + Flatten(ts[i], base + CountAll(ts[..i]))
  {
    assert ts[..i + 1][..i] == ts[..i];
  }

  lemma FlattenIs(t: FixtureNode, base: nat)
    ensures Flatten(t, base) == [Placed(t, base, RootIds(t.children, base + 1))] + FlattenAll(t.children, base + 1)
  {
  }

  // ----- the shape of the node array -----

  /** From `base` on, nodes carry their own index and point strictly forward, inside the array. */
  predicate Numbered(nodes: seq<BtNode>, base: nat) {
    forall i :: 0 <= i < |nodes| ==>
      nodes[i].id == base + i
      && forall k :: 0 <= k < |nodes[i].children| ==> base + i < nodes[i].children[k] < base + |nodes|
  }

  lemma {:induction false} FlattenNumbered(t: FixtureNode, base: nat)
    ensures Numbered(Flatten(t, base), base)
    decreases t, 1
  {
    FlattenAllNumbered(t.children, base + 1);
    var nodes, rest := Flatten(t, base), FlattenAll(t.children, base + 1);
    forall i | 0 <= i < |nodes|
      ensures nodes[i].id == base + i
      ensures forall k :: 0 <= k < |nodes[i].children| ==> base + i < nodes[i].children[k] < base + |nodes|
    {
      if i > 0 {
        assert nodes[i] == rest[i - 1];
      }
    }
  }

  lemma {:induction false} FlattenAllNumbered(ts: seq<FixtureNode>, base: nat)
    ensures Numbered(FlattenAll(ts, base), base)
    decreases ts, 0
  {
    if ts != [] {
      var front, last := ts[..|ts| - 1], ts[|ts| - 1];
      FlattenAllNumbered(front, base);
      FlattenNumbered(last, base + CountAll(front));
      NumberedJoin(FlattenAll(front, base), Flatten(last, base + CountAll(front)), base);
    }
  }

  lemma NumberedJoin(a: seq<BtNode>, b: seq<BtNode>, base: nat)
    requires Numbered(a, base) && Numbered(b, base + |a|)
    ensures Numbered(a + b, base)
  {
    forall i | 0 <= i < |a + b|
      ensures (a + b)[i].id == base + i
      ensures forall k :: 0 <= k < |(a + b)[i].children| ==> base + i < (a + b)[i].children[k] < base + |a + b|
    {
      if i >= |a| {
        assert (a + b)[i] == b[i - |a|];
      }
    }
  }

  /** How many child references in the array name x. */
  function References(nodes: seq<BtNode>, x: nat): nat {
    if nodes == [] then 0 else References(nodes[..|nodes| - 1], x) + multiset(nodes[|nodes| - 1].children)[x]
  }

  lemma {:induction false} ReferencesJoin(a: seq<BtNode>, b: seq<BtNode>, x: nat)
    ensures References(a + b, x) == References(a, x) + References(b, x)
    decreases |b|
  {
    if b == [] {
      assert a + b == a;
    } else {
      ReferencesJoin(a, b[..|b| - 1], x);
      assert (a + b)[..|a + b| - 1] == a + b[..|b| - 1];
    }
  }

  /** Below a tree's root every node is referred to exactly once. */
  lemma {:induction false} TreeReferences(t: FixtureNode, base: nat, x: nat)
    ensures References(Flatten(t, base), x) == if base < x < base + Count(t) then 1 else 0
    decreases t, 1
  {
    hide FlattenAll, RootIds, References;
    var rest := FlattenAll(t.children, base + 1);
    ForestReferences(t.children, base + 1, x);
    var top := [Placed(t, base, RootIds(t.children, base + 1))];
    ReferencesJoin(top, rest, x);
    SingleReference(top[0], x);
  }

  lemma SingleReference(n: BtNode, x: nat)
    ensures References([n], x) == multiset(n.children)[x]
  {
    assert [n][..0] == [];
  }

  lemma {:induction false} ForestReferences(ts: seq<FixtureNode>, base: nat, x: nat)
    ensures multiset(RootIds(ts, base))[x] + References(FlattenAll(ts, base), x)
            == if base <= x < base + CountAll(ts) then 1 else 0
    decreases ts, 0
  {
    hide Flatten, References;
    if ts == [] {
      NoReferences(x);
    } else {
      var front, last := ts[..|ts| - 1], ts[|ts| - 1];
      var at := base + CountAll(front);
      ForestReferences(front, base, x);
      TreeReferences(last, at, x);
      ReferencesJoin(FlattenAll(front, base), Flatten(last, at), x);
      OneMoreId(RootIds(front, base), at, x);
    }
  }

  lemma NoReferences(x: nat)
    ensures References([], x) == 0
  {
  }

  lemma OneMoreId(ids: seq<nat>, id: nat, x: nat)
    ensures multiset(ids + [id])[x] == multiset(ids)[x] + if x == id then 1 else 0
  {
  }

  /** Ids are the pre-order positions, children come later, and every node but the root has one parent. */
  lemma FlattenShape(t: FixtureNode)
    ensures Numbered(Flatten(t, 0), 0) && |Flatten(t, 0)| == Count(t)
    ensures forall x: nat :: References(Flatten(t, 0), x) == if 0 < x < Count(t) then 1 else 0
  {
    hide Flatten, References;
    FlattenNumbered(t, 0);
    forall x: nat
      ensures References(Flatten(t, 0), x) == if 0 < x < Count(t) then 1 else 0
    {
      TreeReferences(t, 0, x);
    }
  }

  // ----- the text of a fixture -----

  /** The text `make_fixture_dsl` is to produce: leaves show their name, composites their children. */
  function FixtureText(t: FixtureNode): string
    decreases t
  {
    "(" + Tag(ToBtKind(t.kind))
    + (if IsFixtureLeaf(t.kind) then " " + t.leafName else FixtureTexts(t.children)) + ")"
  }

  function FixtureTexts(ts: seq<FixtureNode>): string
    decreases ts
  {
    if ts == [] then "" else FixtureTexts(ts[..|ts| - 1]) + (" " + FixtureText(ts[|ts| - 1]))
  }

  class Stream {
    var text: string

    constructor ()
      ensures text == ""
    {
      text := "";
    }

    method AppendFixtureNode(node: FixtureNode)
      modifies this
      ensures text == old(text) + FixtureText(node)
      decreases node
    {
      hide FixtureText, FixtureTexts, Tag, ToBtKind;
      ghost var start := text;
      TextIs(node);
      var open := "";
      match node.kind {
        case FixSeq => open := "(seq";
        case FixSel => open := "(sel";
        case FixReactiveSel => open := "(reactive-sel";
        case FixCond =>
          text := text + ("(cond " + node.leafName + ")");
          return;
        case FixAct =>
          text := text + ("(act " + node.leafName + ")");
          return;
      }
      text := text + open;
      var i := 0;
      TextsSoFar(node.children, 0);
      while i < |node.children|
        invariant 0 <= i <= |node.children|
        invariant text == start + open + FixtureTexts(node.children[..i])
      {
        TextsSoFar(node.children, i);
        Regroup(start + open, FixtureTexts(node.children[..i]), " ", FixtureText(node.children[i]));
        text := text + " ";
        AppendFixtureNode(node.children[i]);
        i := i + 1;
      }
      text := text + ")";
      assert node.children[..i] == node.children;
      Regroup(start, open, FixtureTexts(node.children), ")");
    }
  }

  lemma TextIs(t: FixtureNode)
    ensures FixtureText(t)
            == match t.kind
               case FixSeq => "(seq" + FixtureTexts(t.children) + ")"
               case FixSel => "(sel" + FixtureTexts(t.children) + ")"
               case FixReactiveSel => "(reactive-sel" + FixtureTexts(t.children) + ")"
               case FixCond => "(cond " + t.leafName + ")"
               case FixAct => "(act " + t.leafName + ")"
  {
    hide FixtureTexts;
    match t.kind
    case FixSeq => assert "(" + "seq" == "(seq";
    case FixSel => assert "(" + "sel" == "(sel";
    case FixReactiveSel => assert "(" + "reactive-sel" == "(reactive-sel";
    case FixCond => Spaced("(", "cond", t.leafName);
    case FixAct => Spaced("(", "act", t.leafName);
  }

  lemma Spaced(open: string, tag: string, name: string)
    ensures open + tag + (" " + name) + ")" == open + tag + " " + name + ")"
    ensures open == "(" && tag == "cond" ==> open + tag + " " == "(cond "
    ensures open == "(" && tag == "act" ==> open + tag + " " == "(act "
  {
  }

  lemma TextsSoFar(ts: seq<FixtureNode>, i: nat)
    requires i <= |ts|
    ensures FixtureTexts(ts[..0]) == ""
    ensures i < |ts| ==> FixtureTexts(ts[..i + 1]) == FixtureTexts(ts[..i]) + (" " + FixtureText(ts[i]))
  {
    if i < |ts| {
      assert ts[..i + 1][..i] == ts[..i];
    }
  }

  // ----- flattening is undone by rebuilding and writing -----

  /** The source form of a fixture tree. */
  function DslOf(t: FixtureNode): Value
    decreases t
  {
    ListOf([Sym(Tag(ToBtKind(t.kind)))] + if IsFixtureLeaf(t.kind) then [Sym(t.leafName)] else DslOfAll(t.children))
  }

  function DslOfAll(ts: seq<FixtureNode>): (vs: seq<Value>)
    ensures |vs| == |ts|
    decreases ts
  {
    if ts == [] then [] else DslOfAll(ts[..|ts| - 1]) + [DslOf(ts[|ts| - 1])]
  }

  lemma {:induction false} Rebuilt(nodes: seq<BtNode>, t: FixtureNode, base: nat)
    requires Acyclic(nodes) && Holds(nodes, base, Flatten(t, base))
    ensures NodeToDsl(nodes, base) == Some(DslOf(t))
    decreases t, 1
  {
    hide FlattenAll, NodesToDsl, ListOf, DslOfAll, RootIds;
    var top, rest := [Placed(t, base, RootIds(t.children, base + 1))], FlattenAll(t.children, base + 1);
    HoldsJoin(nodes, base, top, rest);
    assert nodes[base] == top[0];
    if !IsFixtureLeaf(t.kind) {
      AllRebuilt(nodes, t.children, base + 1, base);
    } else {
      assert [Sym(Tag(ToBtKind(t.kind))), Sym(t.leafName)] + [] == [Sym(Tag(ToBtKind(t.kind)))] + [Sym(t.leafName)];
    }
  }

  lemma {:induction false} AllRebuilt(nodes: seq<BtNode>, ts: seq<FixtureNode>, base: nat, parent: nat)
    requires Acyclic(nodes) && parent < |nodes| && Holds(nodes, base, FlattenAll(ts, base))
    requires Below(nodes, RootIds(ts, base), parent)
    ensures NodesToDsl(nodes, RootIds(ts, base), parent) == Some(DslOfAll(ts))
    decreases ts, 0
  {
    hide Flatten, NodeToDsl, DslOf, Acyclic, Depth, Holds;
    if ts != [] {
      var front, last := ts[..|ts| - 1], ts[|ts| - 1];
      HoldsJoin(nodes, base, FlattenAll(front, base), Flatten(last, base + CountAll(front)));
      var ids := RootIds(ts, base);
      assert ids[..|ts| - 1] == RootIds(front, base);
      assert forall k :: 0 <= k < |front| ==> RootIds(front, base)[k] == ids[k];
      AllRebuilt(nodes, front, base, parent);
      Rebuilt(nodes, last, base + CountAll(front));
    }
  }

  /** The texts of list items, each after a space. */
  lemma {:induction false} TailText(fw: FloatWriter, items: seq<Value>, more: Value)
    requires items != [] && Write(fw, more).Some? && WriteTail(fw, ListOf(items)).Some?
    ensures WriteTail(fw, ListOf(items + [more]))
            == Some(WriteTail(fw, ListOf(items)).value + (" " + Write(fw, more).value))
    decreases |items|
  {
    hide Write, WriteTail;
    var rest := items[1..];
    assert (items + [more])[1..] == rest + [more];
    TailCons(fw, items[0], ListOf(rest));
    TailCons(fw, items[0], ListOf(rest + [more]));
    if rest == [] {
      TailCons(fw, more, Nil);
      assert rest + [more] == [more];
      var first, last := " " + Write(fw, items[0]).value, " " + Write(fw, more).value;
      assert first + (last + "") == first + "" + last;
      assert ListOf([more]) == Cons(more, Nil);
    } else {
      TailText(fw, rest, more);
      var first, tail := " " + Write(fw, items[0]).value, WriteTail(fw, ListOf(rest)).value;
      var last := " " + Write(fw, more).value;
      assert first + tail + last == first + (tail + last);
    }
  }

  lemma TailCons(fw: FloatWriter, a: Value, d: Value)
    ensures WriteTail(fw, Nil) == Some("")
    ensures WriteTail(fw, Cons(a, d)).Some? <==> Write(fw, a).Some? && WriteTail(fw, d).Some?
    ensures WriteTail(fw, Cons(a, d)).Some? ==>
      WriteTail(fw, Cons(a, d)).value == " " + Write(fw, a).value + WriteTail(fw, d).value
  {
  }

  lemma {:induction false} TextsMatch(fw: FloatWriter, ts: seq<FixtureNode>)
    ensures WriteTail(fw, ListOf(DslOfAll(ts))) == Some(FixtureTexts(ts))
    decreases ts, 0
  {
    hide Write, WriteTail, DslOf, FixtureText;
    TailCons(fw, Nil, Nil);
    if ts != [] {
      var front, last := ts[..|ts| - 1], ts[|ts| - 1];
      TextsMatch(fw, front);
      TextMatches(fw, last);
      if front == [] {
        assert DslOfAll(ts) == [DslOf(last)];
        assert ListOf([DslOf(last)]) == Cons(DslOf(last), Nil);
        TailCons(fw, DslOf(last), Nil);
        var text := " " + FixtureText(last);
        assert text + "" == text == "" + text;
      } else {
        TailText(fw, DslOfAll(front), DslOf(last));
      }
    }
  }

  lemma {:induction false} TextMatches(fw: FloatWriter, t: FixtureNode)
    ensures Write(fw, DslOf(t)) == Some(FixtureText(t))
    decreases t, 1
  {
    hide FixtureTexts, DslOfAll;
    var tag := Sym(Tag(ToBtKind(t.kind)));
    var items := if IsFixtureLeaf(t.kind) then [Sym(t.leafName)] else DslOfAll(t.children);
    assert ([tag] + items)[1..] == items;
    if IsFixtureLeaf(t.kind) {
      assert ListOf(items) == Cons(Sym(t.leafName), Nil);
      TailCons(fw, Sym(t.leafName), Nil);
      assert " " + t.leafName + "" == " " + t.leafName;
    } else {
      TextsMatch(fw, t.children);
    }
  }

  /** Where children come later, nodes rank by their distance from the end. */
  lemma NumberedIsAcyclic(nodes: seq<BtNode>)
    requires Numbered(nodes, 0)
    ensures Acyclic(nodes)
  {
    var rank := seq(|nodes|, i requires 0 <= i < |nodes| => (|nodes| - i) as nat);
    assert Ranked(nodes, rank);
  }

  /** Flattening a fixture, rebuilding its form and writing it gives the text written directly. */
  lemma FlattenedFixtureWrites(fw: FloatWriter, t: FixtureNode)
    ensures Acyclic(Flatten(t, 0))
    ensures var form := DefinitionToDsl(Flatten(t, 0), 0);
            form.Some? && Write(fw, form.value) == Some(FixtureText(t))
  {
    hide Flatten, NodeToDsl, DslOf, FixtureText, Write;
    FlattenNumbered(t, 0);
    NumberedIsAcyclic(Flatten(t, 0));
    Rebuilt(Flatten(t, 0), t, 0);
    TextMatches(fw, t);
  }

  /** The three programs together. */
  method FixtureSources(fw: FloatWriter, t: FixtureNode) returns (direct: string, rebuilt: Option<string>)
    ensures rebuilt == Some(direct) && direct == FixtureText(t)
  {
    hide Flatten, NodeToDsl, FixtureText, Write, Acyclic;
    FlattenedFixtureWrites(fw, t);
    var out := new Stream();
    out.AppendFixtureNode(t);
    assert "" + FixtureText(t) == FixtureText(t);
    direct := out.text;
    var definition := new Definition();
    definition.CompileTree(t);
    var form := DefinitionToDsl(definition.nodes, definition.root);
    rebuilt := PrintImpl(fw, form.value);
  }
}
