/**
  `compile_definition` of src/bt/compiler.cpp: source forms become arrays of nodes, children before their parents,
  and `bt.to-dsl` turns these back into source forms.
 */
module BtCompiler {
  import opened Values
  import opened BtDefinition

  /** What a source form says: a node with the trees below it. */
  datatype Tree = Tree(kind: BtKind, children: seq<Tree>, leafName: string, args: seq<Arg>, intParam: int)

  predicate IsComposite(kind: BtKind) {
    kind.Seq? || kind.Sel? || kind.MemSeq? || kind.MemSel? || kind.AsyncSeq? || kind.ReactiveSeq? || kind.ReactiveSel?
  }

  // ----- parsing a form -----

  function KindOf(name: string): (r: Option<BtKind>)
    ensures r.Some? ==> name == Tag(r.value)
  {
    if name == "seq" then Some(Seq)
    else if name == "sel" then Some(Sel)
    else if name == "mem-seq" then Some(MemSeq)
    else if name == "mem-sel" then Some(MemSel)
    else if name == "async-seq" then Some(AsyncSeq)
    else if name == "reactive-seq" then Some(ReactiveSeq)
    else if name == "reactive-sel" then Some(ReactiveSel)
    else if name == "invert" then Some(Invert)
    else if name == "repeat" then Some(Repeat)
    else if name == "retry" then Some(Retry)
    else if name == "cond" then Some(Cond)
    else if name == "act" then Some(Act)
    else if name == "succeed" then Some(Succeed)
    else if name == "fail" then Some(Fail)
    else if name == "running" then Some(Running)
    else if name == "plan-action" then Some(PlanAction)
    else if name == "vla-request" then Some(VlaRequest)
    else if name == "vla-wait" then Some(VlaWait)
    else if name == "vla-cancel" then Some(VlaCancel)
    else None
  }

  /** `compile_arg` */
  function CompileArg(v: Value): Option<Arg> {
    match v
    case Nil => Some(NilArg)
    case Bool(b) => Some(BoolArg(b))
    case Int(i) => Some(IntArg(i))
    case Float(bits) => Some(FloatArg(bits))
    case Sym(name) => Some(SymArg(name))
    case Str(text) => Some(StrArg(text))
    case _ => None
  }

  function CompileArgs(vs: seq<Value>): (r: Option<seq<Arg>>)
    ensures r.Some? ==> |r.value| == |vs|
  {
    if vs == [] then Some([])
    else
      var front, last := CompileArgs(vs[..|vs| - 1]), CompileArg(vs[|vs| - 1]);
      if front.Some? && last.Some? then Some(front.value + [last.value]) else None
  }

  /** What `compile_node` makes of a form; None stands for its errors. */
  function Parse(form: Value): Option<Tree>
    decreases Size(form), 1
  {
    if !form.Cons? || !IsProperList(form) || !form.car.Sym? then None
    else
      var items := Items(form);
      match KindOf(form.car.name)
      case None => None
      case Some(kind) => ParseKind(kind, items, Size(form))
  }

  function ParseKind(kind: BtKind, items: seq<Value>, ghost size: nat): Option<Tree>
    requires items != [] && SeqSize(items) < size
    decreases size, 0
  {
    match kind
    case Invert =>
      if |items| != 2 then None
      else
        ItemSmaller(items, 1);
        var child := Parse(items[1]);
        if child.None? then None else Some(Tree(kind, [child.value], "", [], 0))
    case Repeat | Retry =>
      if |items| != 3 || !items[1].Int? || items[1].i < 0 then None
      else
        ItemSmaller(items, 2);
        var child := Parse(items[2]);
        if child.None? then None else Some(Tree(kind, [child.value], "", [], items[1].i))
    case Cond | Act =>
      if |items| < 2 || !(items[1].Sym? || items[1].Str?) then None
      else
        var name := if items[1].Sym? then items[1].name else items[1].text;
        var args := CompileArgs(items[2..]);
        if args.None? then None else Some(Tree(kind, [], name, args.value, 0))
    case Succeed | Fail | Running =>
      if |items| != 1 then None else Some(Tree(kind, [], "", [], 0))
    case PlanAction | VlaRequest | VlaWait | VlaCancel =>
      if |items| % 2 == 0 then None
      else
        var args := CompileArgs(items[1..]);
        if args.None? then None else Some(Tree(kind, [], "", args.value, 0))
    case _ =>
      if |items| < 2 then None
      else
        SuffixSmaller(items, 1);
        var children := ParseAll(items[1..]);
        if children.None? then None else Some(Tree(kind, children.value, "", [], 0))
  }

  function ParseAll(forms: seq<Value>): (r: Option<seq<Tree>>)
    ensures r.Some? ==> |r.value| == |forms|
    decreases SeqSize(forms), 0
  {
    if forms == [] then Some([])
    else
      var front, last := forms[..|forms| - 1], forms[|forms| - 1];
      SeqSizeSplit(front, [last]);
      assert front + [last] == forms;
      ItemSmaller(forms, |forms| - 1);
      var ts, t := ParseAll(front), Parse(last);
      if ts.Some? && t.Some? then Some(ts.value + [t.value]) else None
  }

  // ----- the node array of a tree -----

  function Count(t: Tree): (n: nat)
    ensures n > 0
    decreases t
  {
    CountAll(t.children) + 1
  }

  function CountAll(ts: seq<Tree>): nat
    decreases ts
  {
    if ts == [] then 0 else CountAll(ts[..|ts| - 1]) + Count(ts[|ts| - 1])
  }

  /** The last node of each of several trees laid out one after another. */
  function RootIds(ts: seq<Tree>, base: nat): (ids: seq<nat>)
    ensures |ids| == |ts|
    ensures forall i :: 0 <= i < |ids| ==> base <= ids[i] < base + CountAll(ts)
  {
    if ts == [] then [] else RootIds(ts[..|ts| - 1], base) + [base + CountAll(ts) - 1]
  }

  function NodeOf(t: Tree, base: nat): BtNode {
    BtNode(t.kind, base + Count(t) - 1, RootIds(t.children, base), t.leafName, t.args, t.intParam)
  }

  /** The nodes below a tree, then its own. */
  function Layout(t: Tree, base: nat): (nodes: seq<BtNode>)
    ensures |nodes| == Count(t)
    decreases t
  {
    LayoutAll(t.children, base) + [NodeOf(t, base)]
  }

  function LayoutAll(ts: seq<Tree>, base: nat): (nodes: seq<BtNode>)
    ensures |nodes| == CountAll(ts)
    decreases ts
  {
    if ts == [] then []
    else LayoutAll(ts[..|ts| - 1], base) + Layout(ts[|ts| - 1], base + CountAll(ts[..|ts| - 1]))
  }

  // ----- the compiler -----

  class CompilerState {
    var nodes: seq<BtNode>

    constructor ()
      ensures nodes == []
    {
      nodes := [];
    }

    method EmitNode(n: BtNode) returns (id: nat)
      modifies this`nodes
      ensures id == |old(nodes)| && nodes == old(nodes) + [n.(id := id)]
    {
      id := |nodes|;
      nodes := nodes + [n.(id := id)];
    }

    /** The children of a node, one after another. */
    method CompileChildren(forms: seq<Value>) returns (ids: Option<seq<nat>>)
      modifies this`nodes
      ensures ids.Some? <==> ParseAll(forms).Some?
      ensures ids.Some? ==>
        var base := |old(nodes)|;
        && ids.value == RootIds(ParseAll(forms).value, base)
        && nodes == old(nodes) + LayoutAll(ParseAll(forms).value, base)
      decreases SeqSize(forms), 0
    {
      hide Parse, Layout, Count;
      var out: seq<nat> := [];
      var i := 0;
      ghost var base, before := |nodes|, nodes;
      while i < |forms|
        invariant 0 <= i <= |forms|
        invariant ParseAll(forms[..i]).Some?
        invariant out == RootIds(ParseAll(forms[..i]).value, base)
        invariant nodes == before + LayoutAll(ParseAll(forms[..i]).value, base)
      {
        ItemSmaller(forms, i);
        assert forms[..i + 1][..i] == forms[..i];
        ghost var ts := ParseAll(forms[..i]).value;
        var id := CompileNode(forms[i]);
        if id.None? {
          PrefixFails(forms, i);
          return None;
        }
        assert (ts + [Parse(forms[i]).value])[..|ts|] == ts;
        out := out + [id.value];
        i := i + 1;
      }
      assert forms[..i] == forms;
      return Some(out);
    }

    /** A node over the forms of its children. */
    method CompileInner(kind: BtKind, forms: seq<Value>, n: int) returns (id: Option<nat>)
      modifies this`nodes
      ensures id.Some? <==> ParseAll(forms).Some?
      ensures id.Some? ==>
        && nodes == old(nodes) + Layout(Tree(kind, ParseAll(forms).value, "", [], n), |old(nodes)|)
        && id.value == |nodes| - 1
      decreases SeqSize(forms), 1
    {
      hide ParseAll, LayoutAll, RootIds, CountAll;
      var ids := CompileChildren(forms);
      if ids.None? {
        return None;
      }
      var i := EmitNode(BtNode(kind, 0, ids.value, "", [], n));
      return Some(i);
    }

    /** A node over its literal arguments. */
    method CompileLeaf(kind: BtKind, name: string, raw: seq<Value>) returns (id: Option<nat>)
      modifies this`nodes
      ensures id.Some? <==> CompileArgs(raw).Some?
      ensures id.Some? ==>
        && nodes == old(nodes) + Layout(Tree(kind, [], name, CompileArgs(raw).value, 0), |old(nodes)|)
        && id.value == |nodes| - 1
    {
      var args: seq<Arg> := [];
      var i := 0;
      while i < |raw|
        invariant 0 <= i <= |raw| && CompileArgs(raw[..i]) == Some(args)
      {
        assert raw[..i + 1][..i] == raw[..i];
        var arg := CompileArg(raw[i]);
        if arg.None? {
          ArgsFail(raw, i);
          return None;
        }
        args := args + [arg.value];
        i := i + 1;
      }
      assert raw[..i] == raw;
      var n := EmitNode(BtNode(kind, 0, [], name, args, 0));
      return Some(n);
    }

    method CompileNode(expr: Value) returns (id: Option<nat>)
      modifies this`nodes
      ensures id.Some? <==> Parse(expr).Some?
      ensures id.Some? ==>
        && nodes == old(nodes) + Layout(Parse(expr).value, |old(nodes)|)
        && id.value == |nodes| - 1
      decreases Size(expr), 1
    {
      hide ParseKind, Layout;
      if !expr.Cons? {
        return None;
      }
      var list := VectorFromList(expr);
      if list.None? {
        return None;
      }
      var items := list.value;
      if !items[0].Sym? {
        return None;
      }
      var kind := KindOf(items[0].name);
      if kind.None? {
        return None;
      }
      id := CompileKind(kind.value, items, Size(expr));
    }

    /** The part of `compile_node` after the head of the form is known. */
    method CompileKind(kind: BtKind, items: seq<Value>, ghost size: nat) returns (id: Option<nat>)
      requires items != [] && SeqSize(items) < size
      modifies this`nodes
      ensures id.Some? <==> ParseKind(kind, items, size).Some?
      ensures id.Some? ==>
        && nodes == old(nodes) + Layout(ParseKind(kind, items, size).value, |old(nodes)|)
        && id.value == |nodes| - 1
      decreases size, 0
    {
      hide Parse, ParseAll, Layout, Count, SeqSize;
      SuffixSmaller(items, 1);
      match kind {
        case Invert =>
          if |items| != 2 {
            return None;
          }
          OneForm(items[1]);
          assert items[1..] == [items[1]];
          id := CompileInner(kind, items[1..], 0);
        case Repeat | Retry =>
          if |items| != 3 || !items[1].Int? || items[1].i < 0 {
            return None;
          }
          SuffixSmaller(items, 2);
          OneForm(items[2]);
          assert items[2..] == [items[2]];
          id := CompileInner(kind, items[2..], items[1].i);
        case Cond | Act =>
          if |items| < 2 || !(items[1].Sym? || items[1].Str?) {
            return None;
          }
          id := CompileLeaf(kind, if items[1].Sym? then items[1].name else items[1].text, items[2..]);
        case Succeed | Fail | Running =>
          if |items| != 1 {
            return None;
          }
          id := CompileLeaf(kind, "", []);
        case PlanAction | VlaRequest | VlaWait | VlaCancel =>
          if |items| % 2 == 0 {
            return None;
          }
          id := CompileLeaf(kind, "", items[1..]);
        case _ =>
          if |items| < 2 {
            return None;
          }
          id := CompileInner(kind, items[1..], 0);
      }
    }
  }

  lemma {:induction false} PrefixFails(forms: seq<Value>, i: nat)
    requires i < |forms| && Parse(forms[i]).None?
    ensures ParseAll(forms).None?
    decreases |forms|
  {
    hide Parse;
    if i < |forms| - 1 {
      PrefixFails(forms[..|forms| - 1], i);
    }
  }

  lemma {:induction false} ArgsFail(vs: seq<Value>, i: nat)
    requires i < |vs| && CompileArg(vs[i]).None?
    ensures CompileArgs(vs).None?
    decreases |vs|
  {
    if i < |vs| - 1 {
      ArgsFail(vs[..|vs| - 1], i);
    }
  }

  lemma OneForm(form: Value)
    ensures ParseAll([form]) == if Parse(form).None? then None else Some([Parse(form).value])
  {
    hide Parse;
    assert [form][..0] == [] && ParseAll([]) == Some([]);
    if Parse(form).Some? {
      assert [] + [Parse(form).value] == [Parse(form).value];
    }
  }

  /** `compile_definition`: the nodes of the form's tree, children first, and its root last. */
  method CompileDefinition(form: Value) returns (nodes: seq<BtNode>, root: Option<nat>)
    ensures root.Some? <==> Parse(form).Some?
    ensures root.Some? ==> nodes == Layout(Parse(form).value, 0) && root.value == |nodes| - 1
  {
    hide Parse, Layout;
    var state := new CompilerState();
    root := state.CompileNode(form);
    nodes := state.nodes;
    assert root.Some? ==> [] + Layout(Parse(form).value, 0) == Layout(Parse(form).value, 0);
  }
}
