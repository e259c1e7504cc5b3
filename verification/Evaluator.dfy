/**
  The tree evaluator of src/eval.cpp on expressions without `define`, `lambda`, `load`, `bt`,
  `defbt` and `quasiquote` (evaluating one of those ends in `OutsideModel`).  Without them no
  closure can capture a call frame and nothing can change it from outside, so frames are values.
 */
module Evaluator {
  import opened Values
  import opened Forms
  import opened Machine

  /** Environments: the closure's captured environment, then one frame per call or let. */
  datatype Scope = Root(env: nat) | Frame(bindings: map<string, Value>, parent: Scope)

  function RootEnv(s: Scope): nat {
    if s.Root? then s.env else RootEnv(s.parent)
  }

  /** `lookup`: innermost frame first, then the captured environment. */
  function LookUp(o: Oracle, s: Scope, name: string, w: World): Answer {
    match s
    case Root(env) => Global(o, env, name, w)
    case Frame(b, parent) => if name in b then Val(b[name], w) else LookUp(o, parent, name, w)
  }

  function Apply(o: Oracle, fn: Value, args: seq<Value>, tail: bool, w: World): Outcome {
    if tail then Tail(fn, args, w) else o.invoke(fn, args, w)
  }

  datatype Bound = Bound(bindings: map<string, Value>, w: World) | Unbindable(stop: Answer)

  datatype Evaluated = Evaluated(vals: seq<Value>, w: World) | Stopped(stop: Answer)

  function Eval(o: Oracle, e: Value, s: Scope, tail: bool, w: World): (r: Outcome)
    ensures !tail ==> !r.Tail?
    decreases Size(e), 1
  {
    match e
    case Sym(name) => LookUp(o, s, name, w)
    case Cons(head, rest) =>
      if !IsProperList(rest) then Exn(BadForm("call"), w)
      else
        assert Items(e) == [head] + Items(rest);
        EvalList(o, head, Items(rest), s, tail, w)
    case _ => Val(e, w)
  }

  function EvalList(o: Oracle, head: Value, args: seq<Value>, s: Scope, tail: bool, w: World): (r: Outcome)
    ensures !tail ==> !r.Tail?
    decreases Size(head) + SeqSize(args), 3
  {
    if head == Sym("quote") then if |args| == 1 then Val(args[0], w) else Exn(BadForm("quote"), w)
    else if head == Sym("if") then EvalIf(o, args, s, tail, w)
    else if head == Sym("let") then EvalLet(o, args, s, tail, w)
    else if head == Sym("and") then EvalAnd(o, args, s, tail, w)
    else if head == Sym("or") then EvalOr(o, args, s, tail, w)
    else if head == Sym("cond") then EvalCond(o, args, s, tail, w)
    else if head == Sym("begin") then EvalSequence(o, args, s, tail, w)
    else if head == Sym("unquote") || head == Sym("unquote-splicing") then Exn(BadForm(head.name), w)
    else if head.Sym? && Refused(head.name) then Exn(OutsideModel(head.name), w)
    else EvalCall(o, head, args, s, tail, w)
  }

  function EvalCall(o: Oracle, head: Value, args: seq<Value>, s: Scope, tail: bool, w: World): (r: Outcome)
    ensures !tail ==> !r.Tail?
    decreases Size(head) + SeqSize(args), 2
  {
    var fn := Eval(o, head, s, false, w);
    if !fn.Val? then fn
    else
      var got := EvalArgs(o, args, s, fn.w);
      if got.Stopped? then got.stop else Apply(o, fn.v, got.vals, tail, got.w)
  }

  function EvalArgs(o: Oracle, args: seq<Value>, s: Scope, w: World): (r: Evaluated)
    ensures r.Evaluated? ==> |r.vals| == |args|
    ensures r.Stopped? ==> !r.stop.Val?
    decreases SeqSize(args), 0
  {
    if args == [] then Evaluated([], w)
    else
      var first := Eval(o, args[0], s, false, w);
      if !first.Val? then Stopped(first)
      else
        var more := EvalArgs(o, args[1..], s, first.w);
        if more.Stopped? then more else Evaluated([first.v] + more.vals, more.w)
  }

  function EvalIf(o: Oracle, args: seq<Value>, s: Scope, tail: bool, w: World): (r: Outcome)
    ensures !tail ==> !r.Tail?
    decreases SeqSize(args), 0
  {
    if |args| != 2 && |args| != 3 then Exn(BadForm("if"), w)
    else
      ItemSmaller(args, 0); ItemSmaller(args, 1);
      var test := Eval(o, args[0], s, false, w);
      if !test.Val? then test
      else if Truthy(test.v) then Eval(o, args[1], s, tail, test.w)
      else if |args| == 3 then ItemSmaller(args, 2); Eval(o, args[2], s, tail, test.w)
      else Val(Nil, test.w)
  }

  function EvalSequence(o: Oracle, es: seq<Value>, s: Scope, tail: bool, w: World): (r: Outcome)
    ensures !tail ==> !r.Tail?
    decreases SeqSize(es), 0
  {
    if es == [] then Val(Nil, w)
    else if |es| == 1 then Eval(o, es[0], s, tail, w)
    else
      var first := Eval(o, es[0], s, false, w);
      if !first.Val? then first else EvalSequence(o, es[1..], s, tail, first.w)
  }

  function EvalAnd(o: Oracle, es: seq<Value>, s: Scope, tail: bool, w: World): (r: Outcome)
    ensures !tail ==> !r.Tail?
    decreases SeqSize(es), 0
  {
    if es == [] then Val(Bool(true), w)
    else if |es| == 1 then Eval(o, es[0], s, tail, w)
    else
      var first := Eval(o, es[0], s, false, w);
      if !first.Val? || !Truthy(first.v) then first else EvalAnd(o, es[1..], s, tail, first.w)
  }

  /** Outside tail position an `or` with no truthy argument is nil, whatever its last value was. */
  function EvalOr(o: Oracle, es: seq<Value>, s: Scope, tail: bool, w: World): (r: Outcome)
    ensures !tail ==> !r.Tail?
    decreases SeqSize(es), 0
  {
    if es == [] then Val(Nil, w)
    else if |es| == 1 && tail then Eval(o, es[0], s, true, w)
    else
      var first := Eval(o, es[0], s, false, w);
      if !first.Val? || Truthy(first.v) then first
      else if |es| == 1 then Val(Nil, first.w)
      else EvalOr(o, es[1..], s, tail, first.w)
  }

  function EvalCond(o: Oracle, clauses: seq<Value>, s: Scope, tail: bool, w: World): (r: Outcome)
    ensures !tail ==> !r.Tail?
    decreases SeqSize(clauses), 0
  {
    if clauses == [] then Val(Nil, w)
    else if !IsProperList(clauses[0]) || Items(clauses[0]) == [] then Exn(BadForm("cond"), w)
    else
      var clause := Items(clauses[0]);
      assert SeqSize(clause) == 1 + Size(clause[0]) + SeqSize(clause[1..]);
      if clause[0] == Sym("else") then
        if |clauses| != 1 then Exn(BadForm("cond"), w)
        else EvalSequence(o, clause[1..], s, tail, w)
      else
        var test := Eval(o, clause[0], s, false, w);
        if !test.Val? then test
        else if !Truthy(test.v) then EvalCond(o, clauses[1..], s, tail, test.w)
        else if |clause| == 1 then test
        else EvalSequence(o, clause[1..], s, tail, test.w)
  }

  /** Initialisers see the outer scope; a repeated name keeps its last value. */
  function EvalBinds(o: Oracle, bs: seq<Value>, s: Scope, acc: map<string, Value>, w: World): (r: Bound)
    ensures r.Unbindable? ==> !r.stop.Val?
    decreases SeqSize(bs), 0
  {
    if bs == [] then Bound(acc, w)
    else if !IsBinding(bs[0]) then Unbindable(Exn(BadForm("let"), w))
    else
      BindingSmaller(bs[0]);
      var init := Eval(o, Items(bs[0])[1], s, false, w);
      if !init.Val? then Unbindable(init)
      else EvalBinds(o, bs[1..], s, acc[Items(bs[0])[0].name := init.v], init.w)
  }

  function EvalLet(o: Oracle, args: seq<Value>, s: Scope, tail: bool, w: World): (r: Outcome)
    ensures !tail ==> !r.Tail?
    decreases SeqSize(args), 1
  {
    if |args| < 2 || !IsProperList(args[0]) then Exn(BadForm("let"), w)
    else
      var got := EvalBinds(o, Items(args[0]), s, map[], w);
      if got.Unbindable? then got.stop
      else EvalSequence(o, args[1..], Frame(got.bindings, s), tail, got.w)
  }

  /** The frame of a call: the last of several equal parameter names wins. */
  function ParamFrame(params: seq<string>, args: seq<Value>): map<string, Value>
    requires |params| == |args|
  {
    if params == [] then map[]
    else ParamFrame(params[..|params| - 1], args[..|params| - 1])[params[|params| - 1] := args[|params| - 1]]
  }

  /** A closure body always starts in tail position. */
  function EvalBody(o: Oracle, params: seq<string>, body: seq<Value>, env: nat, args: seq<Value>, w: World): Outcome
    requires |params| == |args|
  {
    EvalSequence(o, body, Frame(ParamFrame(params, args), Root(env)), true, w)
  }
}
