/** Compiled behaviour-tree definitions (include/bt/ast.hpp) and `bt.to-dsl` (src/builtins.cpp). */
module BtDefinition {
  import opened Values

  datatype BtKind =
    | Seq | Sel | MemSeq | MemSel | AsyncSeq | ReactiveSeq | ReactiveSel
    | Invert | Repeat | Retry
    | Cond | Act | Succeed | Fail | Running
    | PlanAction | VlaRequest | VlaWait | VlaCancel

  /** A literal argument of a leaf. */
  datatype Arg =
    | NilArg | BoolArg(b: bool) | IntArg(i: int) | FloatArg(bits: nat) | SymArg(name: string) | StrArg(text: string)

  /** A node of a definition; a definition is an array of nodes, in which they name each other, and a root. */
  datatype BtNode = BtNode(kind: BtKind, id: nat, children: seq<nat>, leafName: string, args: seq<Arg>, intParam: int)

  function Tag(kind: BtKind): string {
    match kind
    case Seq => "seq"
    case Sel => "sel"
    case MemSeq => "mem-seq"
    case MemSel => "mem-sel"
    case AsyncSeq => "async-seq"
    case ReactiveSeq => "reactive-seq"
    case ReactiveSel => "reactive-sel"
    case Invert => "invert"
    case Repeat => "repeat"
    case Retry => "retry"
    case Cond => "cond"
    case Act => "act"
    case Succeed => "succeed"
    case Fail => "fail"
    case Running => "running"
    case PlanAction => "plan-action"
    case VlaRequest => "vla-request"
    case VlaWait => "vla-wait"
    case VlaCancel => "vla-cancel"
  }

  /** `bt_arg_to_lisp_value` */
  function ArgValue(a: Arg): Value {
    match a
    case NilArg => Nil
    case BoolArg(b) => Bool(b)
    case IntArg(i) => Int(i)
    case FloatArg(bits) => Float(bits)
    case SymArg(name) => Sym(name)
    case StrArg(text) => Str(text)
  }

  function ArgValues(args: seq<Arg>): (vs: seq<Value>)
    ensures |vs| == |args| && forall i :: 0 <= i < |vs| ==> vs[i] == ArgValue(args[i])
  {
    seq(|args|, i requires 0 <= i < |args| => ArgValue(args[i]))
  }

  // ----- back to source form -----

  /** Every child inside the array ranks below its parent. */
  predicate Ranked(nodes: seq<BtNode>, rank: seq<nat>) {
    && |rank| == |nodes|
    && forall i, k :: 0 <= i < |nodes| && 0 <= k < |nodes[i].children| && nodes[i].children[k] < |nodes| ==>
         rank[nodes[i].children[k]] < rank[i]
  }

  /** No node is below itself; on other arrays the source recurses for ever. */
  ghost predicate Acyclic(nodes: seq<BtNode>) {
    exists rank: seq<nat> :: Ranked(nodes, rank)
  }

  ghost function RankOf(nodes: seq<BtNode>): (rank: seq<nat>)
    requires Acyclic(nodes)
    ensures Ranked(nodes, rank)
  {
    var rank: seq<nat> :| Ranked(nodes, rank);
    rank
  }

  ghost function Depth(nodes: seq<BtNode>, id: nat): (d: nat)
    requires Acyclic(nodes)
  {
    if id < |nodes| then RankOf(nodes)[id] + 1 else 0
  }

  /** The ids all rank below the parent. */
  ghost predicate Below(nodes: seq<BtNode>, ids: seq<nat>, parent: nat)
    requires Acyclic(nodes)
  {
    forall k :: 0 <= k < |ids| ==> Depth(nodes, ids[k]) < Depth(nodes, parent)
  }

  /** `bt_node_to_dsl`: None stands for its errors. */
  function NodeToDsl(nodes: seq<BtNode>, id: nat): Option<Value>
    requires Acyclic(nodes)
    decreases Depth(nodes, id), 1, 0
  {
    if id >= |nodes| then None
    else
      var n := nodes[id];
      var tag := Sym(Tag(n.kind));
      assert Below(nodes, n.children, id);
      match n.kind
      case Seq | Sel | MemSeq | MemSel | AsyncSeq | ReactiveSeq | ReactiveSel =>
        var items := NodesToDsl(nodes, n.children, id);
        if items.None? then None else Some(ListOf([tag] + items.value))
      case Invert =>
        if |n.children| != 1 then None
        else
          var child := NodeToDsl(nodes, n.children[0]);
          if child.None? then None else Some(ListOf([tag, child.value]))
      case Repeat | Retry =>
        if |n.children| != 1 then None
        else
          var child := NodeToDsl(nodes, n.children[0]);
          if child.None? then None else Some(ListOf([tag, Int(n.intParam), child.value]))
      case Cond | Act => Some(ListOf([tag, Sym(n.leafName)] + ArgValues(n.args)))
      case Succeed | Fail | Running => Some(ListOf([tag]))
      case PlanAction | VlaRequest | VlaWait | VlaCancel => Some(ListOf([tag] + ArgValues(n.args)))
  }

  function NodesToDsl(nodes: seq<BtNode>, ids: seq<nat>, parent: nat): (r: Option<seq<Value>>)
    requires Acyclic(nodes) && Below(nodes, ids, parent)
    decreases Depth(nodes, parent), 0, |ids|
  {
    if ids == [] then Some([])
    else
      var front := NodesToDsl(nodes, ids[..|ids| - 1], parent);
      var last := NodeToDsl(nodes, ids[|ids| - 1]);
      if front.Some? && last.Some? then Some(front.value + [last.value]) else None
  }

  /** `bt_definition_to_dsl` */
  function DefinitionToDsl(nodes: seq<BtNode>, root: nat): Option<Value>
    requires Acyclic(nodes)
  {
    if nodes == [] || root >= |nodes| then None else NodeToDsl(nodes, root)
  }

  // ----- parts of a definition -----

  /** `part` stands in the array from `base` on. */
  predicate Holds(nodes: seq<BtNode>, base: nat, part: seq<BtNode>) {
    base + |part| <= |nodes| && forall i :: 0 <= i < |part| ==> nodes[base + i] == part[i]
  }

  lemma HoldsJoin(nodes: seq<BtNode>, base: nat, a: seq<BtNode>, b: seq<BtNode>)
    requires Holds(nodes, base, a + b)
    ensures Holds(nodes, base, a) && Holds(nodes, base + |a|, b)
  {
    forall i | 0 <= i < |a| ensures nodes[base + i] == a[i] { assert (a + b)[i] == a[i]; }
    forall i | 0 <= i < |b| ensures nodes[base + |a| + i] == b[i] { assert (a + b)[|a| + i] == b[i]; }
  }
}
