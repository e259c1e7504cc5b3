/** Behaviour-tree forms, the arrays they compile to and the forms `bt.to-dsl` gives back. */
module BtRoundTrip {
  import opened Values
  import opened BtDefinition
  import opened BtCompiler
  import P = Printer
  import R = ReaderSpec

  // ----- which forms spell which trees -----

  predicate IsLeaf(kind: BtKind) {
    kind.Cond? || kind.Act?
  }

  predicate IsCounted(kind: BtKind) {
    kind.Repeat? || kind.Retry?
  }

  predicate IsConstant(kind: BtKind) {
    kind.Succeed? || kind.Fail? || kind.Running?
  }

  /** What a node of each kind must and may hold. */
  predicate Shaped(t: Tree) {
    if IsComposite(t.kind) then |t.children| >= 1 && t.leafName == "" && t.args == [] && t.intParam == 0
    else if t.kind.Invert? then |t.children| == 1 && t.leafName == "" && t.args == [] && t.intParam == 0
    else if IsCounted(t.kind) then |t.children| == 1 && t.leafName == "" && t.args == [] && t.intParam >= 0
    else if IsLeaf(t.kind) then t.children == [] && t.intParam == 0
    else if IsConstant(t.kind) then t.children == [] && t.leafName == "" && t.args == [] && t.intParam == 0
    else t.children == [] && t.leafName == "" && |t.args| % 2 == 0 && t.intParam == 0
  }

  /** The items of a form of the tree, after its tag. */
  predicate SpellsRest(rest: seq<Value>, t: Tree)
    decreases t, 0
  {
    if IsCounted(t.kind) then
      rest != [] && rest[0] == Int(t.intParam) && SpellsAll(rest[1..], t.children)
    else if IsLeaf(t.kind) then
      rest != [] && (rest[0] == Sym(t.leafName) || rest[0] == Str(t.leafName)) && rest[1..] == ArgValues(t.args)
    else if IsComposite(t.kind) || t.kind.Invert? then SpellsAll(rest, t.children)
    else rest == ArgValues(t.args)
  }

  /** The form spells the tree: its tag, then its count or its name, its children or its arguments. */
  predicate Spells(form: Value, t: Tree)
    decreases t, 1
  {
    && Shaped(t) && form.Cons? && IsProperList(form) && form.car == Sym(Tag(t.kind))
    && SpellsRest(Items(form.cdr), t)
  }

  predicate SpellsAll(forms: seq<Value>, ts: seq<Tree>)
    decreases ts, 0
  {
    |forms| == |ts| && forall i :: 0 <= i < |ts| ==> Spells(forms[i], ts[i])
  }

  // ----- tags and arguments -----

  lemma ShortTags(kind: BtKind)
    ensures |Tag(kind)| <= 5 ==> KindOf(Tag(kind)) == Some(kind)
  {
    assert "seq"[2] == 'q' && "sel"[2] == 'l' && "act"[0] == 'a';
    assert "cond"[0] == 'c' && "fail"[0] == 'f' && "retry"[0] == 'r';
  }

  lemma LongTags(kind: BtKind)
    ensures |Tag(kind)| > 5 ==> KindOf(Tag(kind)) == Some(kind)
  {
    assert "mem-seq"[6] == 'q' && "mem-sel"[6] == 'l' && "succeed"[0] == 's' && "running"[0] == 'r';
    assert "reactive-seq"[11] == 'q' && "reactive-sel"[11] == 'l';
  }

  lemma TagsAreKinds(name: string, kind: BtKind)
    ensures KindOf(name) == Some(kind) <==> name == Tag(kind)
  {
    hide KindOf, Tag;
    ShortTags(kind);
    LongTags(kind);
  }

  lemma ArgSpelled(v: Value, a: Arg)
    ensures CompileArg(v) == Some(a) <==> v == ArgValue(a)
  {
  }

  lemma {:induction false} ArgsSpelled(vs: seq<Value>, args: seq<Arg>)
    ensures CompileArgs(vs) == Some(args) <==> vs == ArgValues(args)
    decreases |vs|
  {
    hide CompileArg, ArgValue, ArgValues;
    if vs != [] && args != [] {
      var n, m := |vs| - 1, |args| - 1;
      ArgsSpelled(vs[..n], args[..m]);
      ArgSpelled(vs[n], args[m]);
      assert args == args[..m] + [args[m]] && vs == vs[..n] + [vs[n]];
      if n == m && vs[..n] == ArgValues(args[..m]) && vs[n] == ArgValue(args[m]) {
        forall i | 0 <= i < |vs| ensures vs[i] == ArgValue(args[i]) {
          assert i < n ==> vs[..n][i] == ArgValue(args[..m][i]);
        }
        assert vs == ArgValues(args);
      }
      if vs == ArgValues(args) {
        assert vs[..n] == ArgValues(args[..m]);
      }
    }
  }

  // ----- parsing is reading the spelling -----

  lemma {:induction false} ParseSpells(form: Value, t: Tree)
    ensures Parse(form) == Some(t) <==> Spells(form, t)
    decreases Size(form), 2
  {
    hide ParseKind, SpellsRest, KindOf, Tag, Shaped;
    if form.Cons? && IsProperList(form) && form.car.Sym? {
      TagsAreKinds(form.car.name, t.kind);
      assert Items(form)[1..] == Items(form.cdr);
      if KindOf(form.car.name).Some? {
        KindSpells(KindOf(form.car.name).value, Items(form), Size(form), t);
      }
    }
  }

  lemma {:induction false} KindSpells(kind: BtKind, items: seq<Value>, size: nat, t: Tree)
    requires items != [] && SeqSize(items) < size
    ensures ParseKind(kind, items, size) == Some(t) <==> t.kind == kind && Shaped(t) && SpellsRest(items[1..], t)
    decreases size, 1
  {
    hide Parse, ParseAll, ParseKind, CompileArgs, Shaped, SpellsRest, SeqSize;
    SuffixSmaller(items, 1);
    if kind.Invert? || IsCounted(kind) {
      SingleSpells(kind, items, size, t);
    } else if IsComposite(kind) {
      AllSpelled(items[1..], t.children);
      CompositeSpells(kind, items, size, t);
    } else {
      LeafSpells(kind, items, size, t);
    }
  }

  lemma CompositeSpells(kind: BtKind, items: seq<Value>, size: nat, t: Tree)
    requires items != [] && SeqSize(items) < size && IsComposite(kind)
    requires ParseAll(items[1..]) == Some(t.children) <==> SpellsAll(items[1..], t.children)
    ensures ParseKind(kind, items, size) == Some(t) <==> t.kind == kind && Shaped(t) && SpellsRest(items[1..], t)
  {
    hide Parse, ParseAll, CompileArgs, Spells, SeqSize;
  }

  lemma LeafSpells(kind: BtKind, items: seq<Value>, size: nat, t: Tree)
    requires items != [] && SeqSize(items) < size && !IsComposite(kind) && !kind.Invert? && !IsCounted(kind)
    ensures ParseKind(kind, items, size) == Some(t) <==> t.kind == kind && Shaped(t) && SpellsRest(items[1..], t)
  {
    hide Parse, ParseAll, ParseKind, CompileArgs, SpellsRest, Shaped, SeqSize;
    if IsLeaf(kind) {
      NamedSpells(kind, items, size, t);
    } else {
      UnnamedSpells(kind, items, size, t);
    }
  }

  lemma NamedSpells(kind: BtKind, items: seq<Value>, size: nat, t: Tree)
    requires items != [] && SeqSize(items) < size && IsLeaf(kind)
    ensures ParseKind(kind, items, size) == Some(t) <==> t.kind == kind && Shaped(t) && SpellsRest(items[1..], t)
  {
    hide Parse, ParseAll, CompileArgs, Spells, SpellsAll, SeqSize, ArgValues;
    if |items| >= 2 {
      assert items[1..][1..] == items[2..];
      ArgsSpelled(items[2..], t.args);
    }
  }

  lemma UnnamedSpells(kind: BtKind, items: seq<Value>, size: nat, t: Tree)
    requires items != [] && SeqSize(items) < size && !IsComposite(kind) && !kind.Invert? && !IsCounted(kind)
    requires !IsLeaf(kind)
    ensures ParseKind(kind, items, size) == Some(t) <==> t.kind == kind && Shaped(t) && SpellsRest(items[1..], t)
  {
    hide Parse, ParseAll, CompileArgs, Spells, SpellsAll, SeqSize;
    ArgsSpelled(items[1..], t.args);
  }

  lemma {:induction false} SingleSpells(kind: BtKind, items: seq<Value>, size: nat, t: Tree)
    requires items != [] && SeqSize(items) < size && (kind.Invert? || IsCounted(kind))
    ensures ParseKind(kind, items, size) == Some(t) <==> t.kind == kind && Shaped(t) && SpellsRest(items[1..], t)
    decreases size, 0
  {
    hide Parse, ParseAll, CompileArgs, Spells, SeqSize;
    var at := if kind.Invert? then 1 else 2;
    if at < |items| {
      SuffixSmaller(items, at);
      AllSpelled(items[at..], t.children);
      assert |items| == at + 1 ==> items[at..] == [items[at]];
      OneForm(items[at]);
    }
  }

  lemma {:induction false} AllSpelled(forms: seq<Value>, ts: seq<Tree>)
    ensures ParseAll(forms) == Some(ts) <==> SpellsAll(forms, ts)
    decreases SeqSize(forms), 0
  {
    hide Parse, Spells;
    if forms != [] && ts != [] {
      var n, m := |forms| - 1, |ts| - 1;
      SeqSizeSplit(forms[..n], [forms[n]]);
      assert forms[..n] + [forms[n]] == forms && ts[..m] + [ts[m]] == ts;
      ItemSmaller(forms, n);
      AllSpelled(forms[..n], ts[..m]);
      ParseSpells(forms[n], ts[m]);
      if SpellsAll(forms[..n], ts[..m]) && Spells(forms[n], ts[m]) && n == m {
        forall i | 0 <= i < |ts| ensures Spells(forms[i], ts[i]) {
          assert i < n ==> Spells(forms[..n][i], ts[..m][i]);
        }
      }
    }
  }

  // ----- the canonical form -----

  /** What stands between the tag and the children or arguments. */
  function Label(t: Tree): seq<Value> {
    if IsCounted(t.kind) then [Int(t.intParam)] else if IsLeaf(t.kind) then [Sym(t.leafName)] else []
  }

  /** The form of a tree in which every leaf is named by a symbol. */
  function Canonical(t: Tree): Value
    decreases t, 1
  {
    Cons(Sym(Tag(t.kind)), ListOf(Label(t) + CanonicalAll(t.children) + ArgValues(t.args)))
  }

  function CanonicalAll(ts: seq<Tree>): (vs: seq<Value>)
    ensures |vs| == |ts| && forall i :: 0 <= i < |vs| ==> vs[i] == Canonical(ts[i])
    decreases ts, 0
  {
    seq(|ts|, i requires 0 <= i < |ts| => Canonical(ts[i]))
  }

  /** Below every node the shapes are right. */
  predicate AllShaped(t: Tree)
    decreases t
  {
    Shaped(t) && forall i :: 0 <= i < |t.children| ==> AllShaped(t.children[i])
  }

  lemma {:induction false} SpelledIsShaped(form: Value, t: Tree)
    requires Spells(form, t)
    ensures AllShaped(t)
    decreases t
  {
    hide Tag, Shaped;
    forall i | 0 <= i < |t.children| ensures AllShaped(t.children[i]) {
      var rest := Items(form.cdr);
      ChildSpelled(rest, t, i);
      var v :| Spells(v, t.children[i]);
      SpelledIsShaped(v, t.children[i]);
    }
  }

  lemma ChildSpelled(rest: seq<Value>, t: Tree, i: nat)
    requires Shaped(t) && SpellsRest(rest, t) && i < |t.children|
    ensures exists v: Value :: Spells(v, t.children[i])
  {
    hide Spells;
    if IsCounted(t.kind) {
      assert Spells(rest[1..][i], t.children[i]);
    } else {
      assert Spells(rest[i], t.children[i]);
    }
  }

  /** The canonical form of a tree spells it. */
  lemma {:induction false} CanonicalSpells(t: Tree)
    requires AllShaped(t)
    ensures Spells(Canonical(t), t)
    decreases t
  {
    hide Tag, AllShaped, Spells, ArgValues;
    var rest := Label(t) + CanonicalAll(t.children) + ArgValues(t.args);
    forall i | 0 <= i < |t.children| ensures Spells(Canonical(t.children[i]), t.children[i]) {
      ShapedParts(t, i);
      CanonicalSpells(t.children[i]);
    }
    ShapedTop(t);
    CanonicalRest(t);
    assert Spells(Canonical(t), t) by { SpellsIs(Canonical(t), t); }
  }

  lemma ShapedTop(t: Tree)
    requires AllShaped(t)
    ensures Shaped(t)
  {
  }

  lemma ShapedParts(t: Tree, i: nat)
    requires AllShaped(t) && i < |t.children|
    ensures AllShaped(t.children[i])
  {
  }

  lemma SpellsIs(form: Value, t: Tree)
    requires Shaped(t) && form.Cons? && IsProperList(form) && form.car == Sym(Tag(t.kind))
    requires SpellsRest(Items(form.cdr), t)
    ensures Spells(form, t)
  {
  }

  lemma CanonicalRest(t: Tree)
    requires Shaped(t) && forall i :: 0 <= i < |t.children| ==> Spells(Canonical(t.children[i]), t.children[i])
    ensures SpellsRest(Label(t) + CanonicalAll(t.children) + ArgValues(t.args), t)
  {
    hide Spells, Canonical;
    var head, kids, args := Label(t), CanonicalAll(t.children), ArgValues(t.args);
    assert head + kids + args == head + (kids + args);
    assert t.args == [] ==> args == [] && kids + args == kids;
    assert t.children == [] ==> kids == [] && kids + args == args;
    assert (head + (kids + args))[|head|..] == kids + args;
    assert head == [] ==> head + (kids + args) == kids + args;
  }

  // ----- the array of a tree -----

  /** From `base` on, nodes carry their own index and their children come before them. */
  predicate Numbered(nodes: seq<BtNode>, base: nat) {
    forall i :: 0 <= i < |nodes| ==>
      nodes[i].id == base + i
      && forall k :: 0 <= k < |nodes[i].children| ==> base <= nodes[i].children[k] < base + i
  }

  lemma NumberedJoin(a: seq<BtNode>, b: seq<BtNode>, base: nat)
    requires Numbered(a, base) && Numbered(b, base + |a|)
    ensures Numbered(a + b, base)
  {
    forall i | 0 <= i < |a + b|
      ensures (a + b)[i].id == base + i
      ensures forall k :: 0 <= k < |(a + b)[i].children| ==> base <= (a + b)[i].children[k] < base + i
    {
      if i >= |a| {
        assert (a + b)[i] == b[i - |a|];
      }
    }
  }

  lemma {:induction false} LayoutNumbered(t: Tree, base: nat)
    ensures Numbered(Layout(t, base), base)
    decreases t, 1
  {
    hide LayoutAll, RootIds;
    var below := LayoutAll(t.children, base);
    LayoutAllNumbered(t.children, base);
    forall i | 0 <= i < |below| + 1
      ensures (below + [NodeOf(t, base)])[i].id == base + i
      ensures
        var kids := (below + [NodeOf(t, base)])[i].children;
        forall k :: 0 <= k < |kids| ==> base <= kids[k] < base + i
    {
      assert i < |below| ==> (below + [NodeOf(t, base)])[i] == below[i];
    }
  }

  lemma {:induction false} LayoutAllNumbered(ts: seq<Tree>, base: nat)
    ensures Numbered(LayoutAll(ts, base), base)
    decreases ts, 0
  {
    hide Layout, Numbered;
    if ts == [] {
      assert Numbered([], base) by { NoneNumbered(base); }
    } else {
      var front, last := ts[..|ts| - 1], ts[|ts| - 1];
      LayoutAllNumbered(front, base);
      LayoutNumbered(last, base + CountAll(front));
      NumberedJoin(LayoutAll(front, base), Layout(last, base + CountAll(front)), base);
    }
  }

  lemma NoneNumbered(base: nat)
    ensures Numbered([], base)
  {
  }

  /** Where children come earlier, nodes rank by their place. */
  lemma NumberedIsAcyclic(nodes: seq<BtNode>)
    requires Numbered(nodes, 0)
    ensures Acyclic(nodes)
  {
    var rank := seq(|nodes|, (i: nat) => i);
    assert Ranked(nodes, rank);
  }

  lemma {:induction false} Rebuilt(nodes: seq<BtNode>, t: Tree, base: nat)
    requires Acyclic(nodes) && AllShaped(t) && Holds(nodes, base, Layout(t, base))
    ensures NodeToDsl(nodes, base + Count(t) - 1) == Some(Canonical(t))
    decreases t, 1
  {
    hide LayoutAll, ListOf, RootIds, AllShaped, Canonical, NodeToDsl, NodesToDsl;
    var below, id := LayoutAll(t.children, base), base + Count(t) - 1;
    HoldsJoin(nodes, base, below, [NodeOf(t, base)]);
    assert nodes[base + |below|] == [NodeOf(t, base)][0];
    assert Below(nodes, nodes[id].children, id);
    forall i | 0 <= i < |t.children| ensures AllShaped(t.children[i]) {
      ShapedParts(t, i);
    }
    AllRebuilt(nodes, t.children, base, id);
    ShapedTop(t);
    RebuiltNode(nodes, t, base);
  }

  /** A node whose children are rebuilt is. */
  lemma RebuiltNode(nodes: seq<BtNode>, t: Tree, base: nat)
    requires Acyclic(nodes) && Shaped(t)
    requires
      var id := base + Count(t) - 1;
      && id < |nodes| && nodes[id] == NodeOf(t, base) && Below(nodes, RootIds(t.children, base), id)
      && NodesToDsl(nodes, RootIds(t.children, base), id) == Some(CanonicalAll(t.children))
    ensures NodeToDsl(nodes, base + Count(t) - 1) == Some(Canonical(t))
  {
    hide RootIds, Count, ArgValues, Canonical, NodesToDsl, NodeToDsl, Tag, ListOf, Acyclic;
    var id := base + Count(t) - 1;
    if |t.children| == 1 {
      OneNode(nodes, RootIds(t.children, base), id);
    }
    NodeCases(nodes, id);
    CanonicalIs(t);
  }

  /** One level of the rebuilding, for nodes with the children they should have. */
  lemma NodeCases(nodes: seq<BtNode>, id: nat)
    requires Acyclic(nodes) && id < |nodes| && Below(nodes, nodes[id].children, id)
    requires nodes[id].kind.Invert? || IsCounted(nodes[id].kind) ==> |nodes[id].children| == 1
    ensures
      var n := nodes[id];
      var tag, items := Sym(Tag(n.kind)), NodesToDsl(nodes, n.children, id);
      NodeToDsl(nodes, id)
      == if IsComposite(n.kind) then if items.None? then None else Some(ListOf([tag] + items.value))
         else if n.kind.Invert? || IsCounted(n.kind) then
           var child := NodeToDsl(nodes, n.children[0]);
           if child.None? then None
           else if n.kind.Invert? then Some(ListOf([tag, child.value]))
           else Some(ListOf([tag, Int(n.intParam), child.value]))
         else if IsLeaf(n.kind) then Some(ListOf([tag, Sym(n.leafName)] + ArgValues(n.args)))
         else if IsConstant(n.kind) then Some(ListOf([tag]))
         else Some(ListOf([tag] + ArgValues(n.args)))
  {
    hide NodesToDsl, Tag, ListOf, ArgValues, Acyclic;
  }

  lemma OneNode(nodes: seq<BtNode>, ids: seq<nat>, parent: nat)
    requires Acyclic(nodes) && Below(nodes, ids, parent) && |ids| == 1
    ensures
      var child := NodeToDsl(nodes, ids[0]);
      NodesToDsl(nodes, ids, parent) == if child.None? then None else Some([child.value])
  {
    hide NodeToDsl;
    assert ids[..0] == [] && NodesToDsl(nodes, [], parent) == Some([]);
    assert forall v: Value :: [] + [v] == [v];
  }

  lemma ListCons(v: Value, vs: seq<Value>)
    ensures ListOf([v] + vs) == Cons(v, ListOf(vs))
  {
    assert ([v] + vs)[1..] == vs;
  }

  lemma CanonicalIs(t: Tree)
    requires Shaped(t)
    ensures
      var tag, kids, args := Sym(Tag(t.kind)), CanonicalAll(t.children), ArgValues(t.args);
      Canonical(t)
      == if IsComposite(t.kind) then ListOf([tag] + kids)
         else if t.kind.Invert? then ListOf([tag, kids[0]])
         else if IsCounted(t.kind) then ListOf([tag, Int(t.intParam), kids[0]])
         else if IsLeaf(t.kind) then ListOf([tag, Sym(t.leafName)] + args)
         else ListOf([tag] + args)
  {
    hide Tag, ListOf, ArgValues, CanonicalAll, Canonical;
    CanonicalCons(t);
    RestIs(Sym(Tag(t.kind)), Label(t), CanonicalAll(t.children), ArgValues(t.args));
  }

  lemma CanonicalCons(t: Tree)
    ensures Canonical(t) == ListOf([Sym(Tag(t.kind))] + (Label(t) + CanonicalAll(t.children) + ArgValues(t.args)))
  {
    hide Tag, ListOf, ArgValues, CanonicalAll;
    ListCons(Sym(Tag(t.kind)), Label(t) + CanonicalAll(t.children) + ArgValues(t.args));
  }

  lemma RestIs(tag: Value, head: seq<Value>, kids: seq<Value>, args: seq<Value>)
    ensures head == [] && args == [] ==> head + kids + args == kids
    ensures head == [] && kids == [] ==> head + kids + args == args
    ensures |head| == 0 && |kids| == 1 && |args| == 0 ==> [tag] + (head + kids + args) == [tag, kids[0]]
    ensures |head| == 1 && |kids| == 1 && |args| == 0 ==> [tag] + (head + kids + args) == [tag, head[0], kids[0]]
    ensures |head| == 1 && |kids| == 0 ==> [tag] + (head + kids + args) == [tag, head[0]] + args
  {
  }

  lemma {:induction false} AllRebuilt(nodes: seq<BtNode>, ts: seq<Tree>, base: nat, parent: nat)
    requires Acyclic(nodes) && Holds(nodes, base, LayoutAll(ts, base)) && Below(nodes, RootIds(ts, base), parent)
    requires forall i :: 0 <= i < |ts| ==> AllShaped(ts[i])
    ensures NodesToDsl(nodes, RootIds(ts, base), parent) == Some(CanonicalAll(ts))
    decreases ts, 0
  {
    hide Layout, LayoutAll, RootIds, NodeToDsl, NodesToDsl, Canonical, CanonicalAll;
    hide Acyclic, Below, Holds, AllShaped, Count, CountAll;
    var ids := RootIds(ts, base);
    if ts == [] {
      NoNodes(nodes, parent);
    } else {
      var n := |ts| - 1;
      var front, last, at := ts[..n], ts[n], base + CountAll(ts[..n]);
      LayoutSnoc(ts, base);
      HoldsJoin(nodes, base, LayoutAll(front, base), Layout(last, at));
      BelowFront(nodes, ids, parent);
      AllRebuilt(nodes, front, base, parent);
      Rebuilt(nodes, last, at);
      NodesSnoc(nodes, ids, parent);
      assert CanonicalAll(ts) == CanonicalAll(front) + [Canonical(last)];
    }
  }

  lemma NoNodes(nodes: seq<BtNode>, parent: nat)
    requires Acyclic(nodes) && Below(nodes, [], parent)
    ensures NodesToDsl(nodes, [], parent) == Some([])
  {
  }

  lemma NodesSnoc(nodes: seq<BtNode>, ids: seq<nat>, parent: nat)
    requires Acyclic(nodes) && ids != [] && Below(nodes, ids, parent) && Below(nodes, ids[..|ids| - 1], parent)
    ensures
      var front, last := NodesToDsl(nodes, ids[..|ids| - 1], parent), NodeToDsl(nodes, ids[|ids| - 1]);
      front.Some? && last.Some? ==> NodesToDsl(nodes, ids, parent) == Some(front.value + [last.value])
  {
    hide NodeToDsl;
  }

  lemma {:induction false} LayoutSnoc(ts: seq<Tree>, base: nat)
    requires ts != []
    ensures
      var n := |ts| - 1;
      var at := base + CountAll(ts[..n]);
      && LayoutAll(ts, base) == LayoutAll(ts[..n], base) + Layout(ts[n], at)
      && |LayoutAll(ts[..n], base)| == CountAll(ts[..n])
      && RootIds(ts, base)[..n] == RootIds(ts[..n], base) && RootIds(ts, base)[n] == at + Count(ts[n]) - 1
  {
    hide Layout, LayoutAll, Count, RootIds, CountAll;
    LayoutLast(ts, base);
    RootLast(ts, base);
  }

  lemma {:induction false} LayoutLast(ts: seq<Tree>, base: nat)
    requires ts != []
    ensures
      var n := |ts| - 1;
      LayoutAll(ts, base) == LayoutAll(ts[..n], base) + Layout(ts[n], base + CountAll(ts[..n]))
  {
    hide Layout, Count, RootIds, CountAll;
  }

  lemma {:induction false} RootLast(ts: seq<Tree>, base: nat)
    requires ts != []
    ensures
      var n := |ts| - 1;
      && RootIds(ts, base)[..n] == RootIds(ts[..n], base)
      && RootIds(ts, base)[n] == base + CountAll(ts[..n]) + Count(ts[n]) - 1
  {
    hide Layout, LayoutAll, Count;
  }

  lemma BelowFront(nodes: seq<BtNode>, ids: seq<nat>, parent: nat)
    requires Acyclic(nodes) && ids != [] && Below(nodes, ids, parent)
    ensures Below(nodes, ids[..|ids| - 1], parent)
  {
  }

  // ----- the laws of the round trip -----

  /**
    Every accepted form compiles to an array that `bt.to-dsl` turns into the canonical form, and the canonical form
    compiles to the same array.
   */
  lemma CompiledFormsReturn(form: Value, t: Tree)
    requires Parse(form) == Some(t)
    ensures Numbered(Layout(t, 0), 0) && Acyclic(Layout(t, 0))
    ensures DefinitionToDsl(Layout(t, 0), Count(t) - 1) == Some(Canonical(t))
    ensures Parse(Canonical(t)) == Some(t)
  {
    hide Parse, Spells, Layout, Canonical, NodeToDsl, Numbered, AllShaped;
    ParseSpells(form, t);
    SpelledIsShaped(form, t);
    LayoutNumbered(t, 0);
    NumberedIsAcyclic(Layout(t, 0));
    Rebuilt(Layout(t, 0), t, 0);
    CanonicalSpells(t);
    ParseSpells(Canonical(t), t);
  }

  /** Two accepted forms have the same canonical form exactly when they compile to the same array. */
  lemma FormsIdentifyDefinitions(v: Value, t: Tree, w: Value, u: Tree)
    requires Parse(v) == Some(t) && Parse(w) == Some(u)
    ensures Canonical(t) == Canonical(u) <==> Layout(t, 0) == Layout(u, 0)
  {
    hide Parse, Layout, Canonical, NodeToDsl, Numbered;
    CompiledFormsReturn(v, t);
    CompiledFormsReturn(w, u);
  }

  /** The text of the canonical form, read again, compiles to the same array. */
  lemma CanonicalTextRecompiles(fl: R.FloatReader, fw: P.FloatWriter, form: Value, t: Tree)
    requires Parse(form) == Some(t) && P.Readable(fl, Canonical(t))
    ensures P.Write(fw, Canonical(t)).Some?
    ensures
      var r := R.ReadAll(fl, P.Write(fw, Canonical(t)).value, 0);
      r.Got? && |r.v| == 1 && Parse(r.v[0]) == Some(t)
  {
    hide Parse, Layout, Canonical, NodeToDsl, Numbered;
    CompiledFormsReturn(form, t);
    P.PrintThenRead(fl, fw, Canonical(t));
  }

  /** The form is of a condition or an action, and names it by a string. */
  predicate NamesByString(form: Value) {
    && form.Cons? && (form.car == Sym("cond") || form.car == Sym("act"))
    && form.cdr.Cons? && form.cdr.car.Str?
  }

  /** So does the form, or one inside it. */
  predicate HasStringName(form: Value)
    decreases Size(form)
  {
    && form.Cons? && IsProperList(form)
    && (NamesByString(form)
        || (ItemsSmaller(Items(form));
            exists i :: 0 <= i < |Items(form)| && HasStringName(Items(form)[i])))
  }

  lemma ItemsSmaller(s: seq<Value>)
    ensures forall i :: 0 <= i < |s| ==> Size(s[i]) < SeqSize(s)
  {
    forall i | 0 <= i < |s| ensures Size(s[i]) < SeqSize(s) {
      ItemSmaller(s, i);
    }
  }

  predicate AnyStringName(forms: seq<Value>) {
    exists i :: 0 <= i < |forms| && HasStringName(forms[i])
  }

  lemma HasStringNameIs(form: Value)
    requires form.Cons? && IsProperList(form) && form.car.Sym?
    ensures HasStringName(form) <==> NamesByString(form) || AnyStringName(Items(form.cdr))
  {
    var items, rest := Items(form), Items(form.cdr);
    assert items == [form.car] + rest;
    if AnyStringName(rest) {
      var i :| 0 <= i < |rest| && HasStringName(rest[i]);
      assert items[i + 1] == rest[i];
    }
    if j :| 0 <= j < |items| && HasStringName(items[j]) {
      assert j > 0 && rest[j - 1] == items[j];
    }
  }

  lemma ListsEqual(vs: seq<Value>, list: Value)
    requires IsProperList(list)
    ensures ListOf(vs) == list <==> vs == Items(list)
  {
    if vs == Items(list) {
      ItemsBack(list);
    }
  }

  lemma {:induction false} ItemsBack(list: Value)
    requires IsProperList(list)
    ensures ListOf(Items(list)) == list
    decreases list
  {
    if list.Cons? {
      ItemsBack(list.cdr);
      assert Items(list)[1..] == Items(list.cdr);
    }
  }

  /** `bt.to-dsl` gives an accepted form back unchanged exactly when no leaf in it is named by a string. */
  lemma {:induction false} UnchangedExactly(form: Value, t: Tree)
    requires Spells(form, t)
    ensures Canonical(t) == form <==> !HasStringName(form)
    decreases t, 1
  {
    hide Spells, Tag, ListOf, HasStringName, SpellsRest;
    SpelledParts(form, t);
    var rest := Items(form.cdr);
    ListsEqual(Label(t) + CanonicalAll(t.children) + ArgValues(t.args), form.cdr);
    HasStringNameIs(form);
    RestUnchanged(form, rest, t);
  }

  lemma SpelledParts(form: Value, t: Tree)
    requires Spells(form, t)
    ensures form.Cons? && IsProperList(form) && IsProperList(form.cdr) && form.car == Sym(Tag(t.kind))
    ensures Shaped(t) && SpellsRest(Items(form.cdr), t)
    ensures form.cdr.Cons? <==> Items(form.cdr) != []
    ensures form.cdr.Cons? ==> Items(form.cdr)[0] == form.cdr.car
  {
  }

  lemma {:induction false} RestUnchanged(form: Value, rest: seq<Value>, t: Tree)
    requires form.Cons? && form.car == Sym(Tag(t.kind)) && Shaped(t) && SpellsRest(rest, t)
    requires (form.cdr.Cons? <==> rest != []) && (rest != [] ==> form.cdr.car == rest[0])
    ensures Label(t) + CanonicalAll(t.children) + ArgValues(t.args) == rest <==>
            !NamesByString(form) && !AnyStringName(rest)
    decreases t, 0
  {
    hide Tag, Canonical, CanonicalAll, AnyStringName, ArgValues;
    LeafTags(t.kind);
    NoNames(t.args);
    if IsLeaf(t.kind) {
      LeafUnchanged(rest, t);
    } else if IsCounted(t.kind) {
      AllUnchanged(rest[1..], t.children);
      CountUnchanged(rest, t);
    } else if IsComposite(t.kind) || t.kind.Invert? {
      AllUnchanged(rest, t.children);
      assert [] + CanonicalAll(t.children) + [] == CanonicalAll(t.children);
    } else {
      assert [] + [] + ArgValues(t.args) == ArgValues(t.args);
    }
  }

  lemma LeafTags(kind: BtKind)
    ensures Tag(kind) == "cond" || Tag(kind) == "act" <==> IsLeaf(kind)
  {
    hide KindOf;
    TagsAreKinds("cond", kind);
    TagsAreKinds("act", kind);
    TagsAreKinds("cond", Cond);
    TagsAreKinds("act", Act);
  }

  lemma NoNames(args: seq<Arg>)
    ensures !AnyStringName(ArgValues(args)) && (args == [] ==> ArgValues(args) == [])
  {
  }

  lemma LeafUnchanged(rest: seq<Value>, t: Tree)
    requires Shaped(t) && IsLeaf(t.kind) && SpellsRest(rest, t)
    ensures Label(t) + CanonicalAll(t.children) + ArgValues(t.args) == rest <==> rest[0].Sym?
    ensures !AnyStringName(rest)
  {
    hide ArgValues;
    NoNames(t.args);
    var args := ArgValues(t.args);
    assert rest == [rest[0]] + args;
    assert [Sym(t.leafName)] + [] + args == [Sym(t.leafName)] + args;
    if rest == [Sym(t.leafName)] + args {
      assert rest[0] == Sym(t.leafName);
    }
    forall i | 0 <= i < |rest| ensures !HasStringName(rest[i]) {
      assert i > 0 ==> rest[i] == args[i - 1];
    }
  }

  lemma CountUnchanged(rest: seq<Value>, t: Tree)
    requires Shaped(t) && IsCounted(t.kind) && SpellsRest(rest, t)
    ensures Label(t) + CanonicalAll(t.children) + ArgValues(t.args) == rest <==> CanonicalAll(t.children) == rest[1..]
    ensures AnyStringName(rest) <==> AnyStringName(rest[1..])
  {
    hide SpellsAll, CanonicalAll;
    var kids, n := CanonicalAll(t.children), Int(t.intParam);
    assert [n] + kids + [] == [n] + kids && rest == [n] + rest[1..];
    assert ([n] + kids)[1..] == kids;
    if i :| 0 <= i < |rest| && HasStringName(rest[i]) {
      assert rest[1..][i - 1] == rest[i];
    }
    if i :| 0 <= i < |rest[1..]| && HasStringName(rest[1..][i]) {
      assert rest[i + 1] == rest[1..][i];
    }
  }

  lemma {:induction false} AllUnchanged(forms: seq<Value>, ts: seq<Tree>)
    requires SpellsAll(forms, ts)
    ensures CanonicalAll(ts) == forms <==> !AnyStringName(forms)
    decreases ts, 0
  {
    hide Spells, Canonical, HasStringName;
    forall i | 0 <= i < |ts| ensures Canonical(ts[i]) == forms[i] <==> !HasStringName(forms[i]) {
      UnchangedExactly(forms[i], ts[i]);
    }
  }
}
