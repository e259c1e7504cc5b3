/**
  The evaluator of src/eval.cpp as it runs: form evaluators that loop over their arguments and, in tail
  position, hand the last expression back, and the loop of `eval_in_position` that takes it up again.  Every
  method is proved against the recursive evaluator, so bouncing never changes an answer.
 */
module Interpreter {
  import opened Values
  import opened Forms
  import opened Machine
  import opened Bytecode
  import opened Evaluator
  import opened Positions
  import opened CompilerCorrectness
  import opened Runtime

  /** What a step gives: an answer, or an expression to go on with, in tail position. */
  datatype StepOutcome = Done(r: Answer) | Bounce(e: Value, s: Scope, w: World, fuel: nat)

  /** The answer a step stands for. */
  ghost function Resume(host: Host, out: StepOutcome): Answer {
    match out
    case Done(r) => r
    case Bounce(e, s, w, fuel) => Settle(fuel, host, Eval(VmOracle(fuel, host), e, s, true, w))
  }

  ghost function Settle(fuel: nat, host: Host, r: Outcome): Answer {
    if r.Tail? then VmInvoke(fuel, host, r.fn, r.args, r.w) else r
  }

  /** Only tail positions bounce, and to something smaller or after a call. */
  ghost predicate Fair(out: StepOutcome, tail: bool, fuel: nat, size: nat) {
    out.Bounce? ==> tail && (out.fuel < fuel || (out.fuel == fuel && Size(out.e) < size))
  }

  // ----- the recursive evaluator, one argument further -----

  lemma AndFrom(o: Oracle, args: seq<Value>, i: nat, s: Scope, tail: bool, w: World)
    requires i < |args|
    ensures EvalAnd(o, args[i..], s, tail, w)
            == if i + 1 == |args| then Eval(o, args[i], s, tail, w)
               else
                 var first := Eval(o, args[i], s, false, w);
                 if !first.Val? || !Truthy(first.v) then first else EvalAnd(o, args[i + 1..], s, tail, first.w)
  {
    assert args[i..][1..] == args[i + 1..];
  }

  lemma OrFrom(o: Oracle, args: seq<Value>, i: nat, s: Scope, tail: bool, w: World)
    requires i < |args|
    ensures EvalOr(o, args[i..], s, tail, w)
            == if i + 1 == |args| && tail then Eval(o, args[i], s, true, w)
               else
                 var first := Eval(o, args[i], s, false, w);
                 if !first.Val? || Truthy(first.v) then first
                 else if i + 1 == |args| then Val(Nil, first.w)
                 else EvalOr(o, args[i + 1..], s, tail, first.w)
  {
    assert args[i..][1..] == args[i + 1..];
  }

  lemma SequenceFrom(o: Oracle, es: seq<Value>, i: nat, s: Scope, tail: bool, w: World)
    requires i < |es|
    ensures EvalSequence(o, es[i..], s, tail, w)
            == if i + 1 == |es| then Eval(o, es[i], s, tail, w)
               else
                 var first := Eval(o, es[i], s, false, w);
                 if !first.Val? then first else EvalSequence(o, es[i + 1..], s, tail, first.w)
  {
    assert es[i..][1..] == es[i + 1..];
  }

  lemma ArgsFrom(o: Oracle, args: seq<Value>, i: nat, s: Scope, w: World)
    requires i < |args|
    ensures EvalArgs(o, args[i..], s, w)
            == var first := Eval(o, args[i], s, false, w);
               if !first.Val? then Stopped(first)
               else
                 var more := EvalArgs(o, args[i + 1..], s, first.w);
                 if more.Stopped? then more else Evaluated([first.v] + more.vals, more.w)
  {
    assert args[i..][1..] == args[i + 1..];
  }

  lemma BindsFrom(o: Oracle, bs: seq<Value>, i: nat, s: Scope, acc: map<string, Value>, w: World)
    requires i < |bs|
    ensures EvalBinds(o, bs[i..], s, acc, w)
            == if !IsBinding(bs[i]) then Unbindable(Exn(BadForm("let"), w))
               else
                 var init := Eval(o, Items(bs[i])[1], s, false, w);
                 if !init.Val? then Unbindable(init)
                 else EvalBinds(o, bs[i + 1..], s, acc[Items(bs[i])[0].name := init.v], init.w)
  {
    assert bs[i..][1..] == bs[i + 1..];
  }

  lemma CondFrom(o: Oracle, clauses: seq<Value>, i: nat, s: Scope, tail: bool, w: World)
    requires i < |clauses|
    ensures EvalCond(o, clauses[i..], s, tail, w)
            == if !IsProperList(clauses[i]) || Items(clauses[i]) == [] then Exn(BadForm("cond"), w)
               else
                 var clause := Items(clauses[i]);
                 if clause[0] == Sym("else") then
                   if i + 1 != |clauses| then Exn(BadForm("cond"), w) else EvalSequence(o, clause[1..], s, tail, w)
                 else
                   var test := Eval(o, clause[0], s, false, w);
                   if !test.Val? then test
                   else if !Truthy(test.v) then EvalCond(o, clauses[i + 1..], s, tail, test.w)
                   else if |clause| == 1 then test
                   else EvalSequence(o, clause[1..], s, tail, test.w)
  {
    assert clauses[i..][1..] == clauses[i + 1..];
  }

  lemma NothingLeft(o: Oracle, s: Scope, tail: bool, acc: map<string, Value>, w: World)
    ensures EvalSequence(o, [], s, tail, w) == Val(Nil, w)
    ensures EvalAnd(o, [], s, tail, w) == Val(Bool(true), w)
    ensures EvalOr(o, [], s, tail, w) == Val(Nil, w)
    ensures EvalCond(o, [], s, tail, w) == Val(Nil, w)
    ensures EvalArgs(o, [], s, w) == Evaluated([], w)
    ensures EvalBinds(o, [], s, acc, w) == Bound(acc, w)
  {
  }

  // ----- the form evaluators -----

  method EvalNonTail(fuel: nat, host: Host, e: Value, s: Scope, w: World) returns (r: Answer)
    ensures r == Eval(VmOracle(fuel, host), e, s, false, w)
    decreases fuel, Size(e), 3
  {
    r := EvalInPosition(fuel, host, e, s, false, w);
  }

  method EvalOrBounce(fuel: nat, host: Host, e: Value, s: Scope, tail: bool, w: World, ghost size: nat)
      returns (out: StepOutcome)
    requires Size(e) < size
    ensures Resume(host, out) == Settle(fuel, host, Eval(VmOracle(fuel, host), e, s, tail, w))
    ensures Fair(out, tail, fuel, size)
    decreases fuel, Size(e), 4
  {
    if tail {
      return Bounce(e, s, w, fuel);
    }
    var r := EvalNonTail(fuel, host, e, s, w);
    return Done(r);
  }

  method EvalIfForm(fuel: nat, host: Host, args: seq<Value>, s: Scope, tail: bool, w: World) returns (out: StepOutcome)
    ensures Resume(host, out) == Settle(fuel, host, EvalIf(VmOracle(fuel, host), args, s, tail, w))
    ensures Fair(out, tail, fuel, SeqSize(args))
    decreases fuel, SeqSize(args), 5
  {
    hide Eval, VmInvoke, VmOracle, SeqSize;
    if |args| != 2 && |args| != 3 {
      return Done(Exn(BadForm("if"), w));
    }
    ItemSmaller(args, 0);
    ItemSmaller(args, 1);
    var test := EvalNonTail(fuel, host, args[0], s, w);
    if !test.Val? {
      return Done(test);
    }
    if Truthy(test.v) {
      out := EvalOrBounce(fuel, host, args[1], s, tail, test.w, SeqSize(args));
      return;
    }
    if |args| == 3 {
      ItemSmaller(args, 2);
      out := EvalOrBounce(fuel, host, args[2], s, tail, test.w, SeqSize(args));
      return;
    }
    return Done(Val(Nil, test.w));
  }

  method EvalAndForm(fuel: nat, host: Host, args: seq<Value>, s: Scope, tail: bool, w: World) returns (out: StepOutcome)
    ensures Resume(host, out) == Settle(fuel, host, EvalAnd(VmOracle(fuel, host), args, s, tail, w))
    ensures Fair(out, tail, fuel, SeqSize(args))
    decreases fuel, SeqSize(args), 5
  {
    hide Eval, EvalAnd, VmInvoke, VmOracle, SeqSize;
    ghost var o := VmOracle(fuel, host);
    NothingLeft(o, s, tail, map[], w);
    assert args[0..] == args;
    var last := Val(Bool(true), w);
    var i := 0;
    while i < |args|
      invariant 0 <= i <= |args| && last.Val?
      invariant i < |args| ==> EvalAnd(o, args, s, tail, w) == EvalAnd(o, args[i..], s, tail, last.w)
      invariant i == |args| ==> EvalAnd(o, args, s, tail, w) == last
    {
      AndFrom(o, args, i, s, tail, last.w);
      ItemSmaller(args, i);
      if i + 1 == |args| && tail {
        return Bounce(args[i], s, last.w, fuel);
      }
      var r := EvalNonTail(fuel, host, args[i], s, last.w);
      if !r.Val? || !Truthy(r.v) {
        return Done(r);
      }
      last := r;
      i := i + 1;
    }
    return Done(last);
  }

  method EvalOrForm(fuel: nat, host: Host, args: seq<Value>, s: Scope, tail: bool, w: World) returns (out: StepOutcome)
    ensures Resume(host, out) == Settle(fuel, host, EvalOr(VmOracle(fuel, host), args, s, tail, w))
    ensures Fair(out, tail, fuel, SeqSize(args))
    decreases fuel, SeqSize(args), 5
  {
    hide Eval, EvalOr, VmInvoke, VmOracle, SeqSize;
    ghost var o := VmOracle(fuel, host);
    NothingLeft(o, s, tail, map[], w);
    assert args[0..] == args;
    var world := w;
    var i := 0;
    while i < |args|
      invariant 0 <= i <= |args|
      invariant i < |args| ==> EvalOr(o, args, s, tail, w) == EvalOr(o, args[i..], s, tail, world)
      invariant i == |args| ==> EvalOr(o, args, s, tail, w) == Val(Nil, world)
    {
      OrFrom(o, args, i, s, tail, world);
      ItemSmaller(args, i);
      if i + 1 == |args| && tail {
        return Bounce(args[i], s, world, fuel);
      }
      var r := EvalNonTail(fuel, host, args[i], s, world);
      if !r.Val? || Truthy(r.v) {
        return Done(r);
      }
      world := r.w;
      i := i + 1;
    }
    return Done(Val(Nil, world));
  }

  method EvalSequenceStep(fuel: nat, host: Host, es: seq<Value>, s: Scope, tail: bool, w: World)
      returns (out: StepOutcome)
    ensures Resume(host, out) == Settle(fuel, host, EvalSequence(VmOracle(fuel, host), es, s, tail, w))
    ensures Fair(out, tail, fuel, SeqSize(es))
    decreases fuel, SeqSize(es), 5
  {
    hide Eval, EvalSequence, VmInvoke, VmOracle, SeqSize;
    ghost var o := VmOracle(fuel, host);
    NothingLeft(o, s, tail, map[], w);
    assert es[0..] == es;
    var last := Val(Nil, w);
    var i := 0;
    while i < |es|
      invariant 0 <= i <= |es| && last.Val?
      invariant i < |es| ==> EvalSequence(o, es, s, tail, w) == EvalSequence(o, es[i..], s, tail, last.w)
      invariant i == |es| ==> EvalSequence(o, es, s, tail, w) == last
    {
      SequenceFrom(o, es, i, s, tail, last.w);
      ItemSmaller(es, i);
      if i + 1 == |es| && tail {
        return Bounce(es[i], s, last.w, fuel);
      }
      var r := EvalNonTail(fuel, host, es[i], s, last.w);
      if !r.Val? {
        return Done(r);
      }
      last := r;
      i := i + 1;
    }
    return Done(last);
  }

  /** The binding loop of `let`: initialisers see the outer scope only. */
  method EvalBindings(fuel: nat, host: Host, bs: seq<Value>, s: Scope, w: World) returns (got: Bound)
    ensures got == EvalBinds(VmOracle(fuel, host), bs, s, map[], w)
    decreases fuel, SeqSize(bs), 5
  {
    hide Eval, EvalBinds, VmInvoke, VmOracle, SeqSize, IsBinding;
    ghost var o := VmOracle(fuel, host);
    var frame: map<string, Value>, world := map[], w;
    assert bs[0..] == bs;
    var i := 0;
    while i < |bs|
      invariant 0 <= i <= |bs|
      invariant EvalBinds(o, bs, s, map[], w) == EvalBinds(o, bs[i..], s, frame, world)
    {
      BindsFrom(o, bs, i, s, frame, world);
      if !IsBinding(bs[i]) {
        return Unbindable(Exn(BadForm("let"), world));
      }
      ItemSmaller(bs, i);
      BindingSmaller(bs[i]);
      BindingParts(bs[i]);
      var init := EvalNonTail(fuel, host, Items(bs[i])[1], s, world);
      if !init.Val? {
        return Unbindable(init);
      }
      frame := frame[Items(bs[i])[0].name := init.v];
      world := init.w;
      i := i + 1;
    }
    assert bs[i..] == [];
    NothingLeft(o, s, false, frame, world);
    return Bound(frame, world);
  }

  lemma BindingParts(b: Value)
    requires IsBinding(b)
    ensures IsProperList(b) && |Items(b)| == 2 && Items(b)[0].Sym?
  {
  }

  method EvalLetForm(fuel: nat, host: Host, args: seq<Value>, s: Scope, tail: bool, w: World) returns (out: StepOutcome)
    ensures Resume(host, out) == Settle(fuel, host, EvalLet(VmOracle(fuel, host), args, s, tail, w))
    ensures Fair(out, tail, fuel, SeqSize(args))
    decreases fuel, SeqSize(args), 6
  {
    hide Eval, EvalSequence, EvalBinds, VmInvoke, VmOracle, SeqSize;
    if |args| < 2 || !IsProperList(args[0]) {
      return Done(Exn(BadForm("let"), w));
    }
    ItemSmaller(args, 0);
    SuffixSmaller(args, 1);
    var got := EvalBindings(fuel, host, Items(args[0]), s, w);
    if got.Unbindable? {
      return Done(got.stop);
    }
    out := EvalSequenceStep(fuel, host, args[1..], Frame(got.bindings, s), tail, got.w);
  }

  method EvalCondForm(fuel: nat, host: Host, clauses: seq<Value>, s: Scope, tail: bool, w: World)
      returns (out: StepOutcome)
    ensures Resume(host, out) == Settle(fuel, host, EvalCond(VmOracle(fuel, host), clauses, s, tail, w))
    ensures Fair(out, tail, fuel, SeqSize(clauses))
    decreases fuel, SeqSize(clauses), 6
  {
    hide Eval, EvalSequence, EvalCond, VmInvoke, VmOracle, SeqSize;
    ghost var o := VmOracle(fuel, host);
    assert clauses[0..] == clauses;
    var world := w;
    var i := 0;
    while i < |clauses|
      invariant 0 <= i <= |clauses|
      invariant EvalCond(o, clauses, s, tail, w) == EvalCond(o, clauses[i..], s, tail, world)
    {
      CondFrom(o, clauses, i, s, tail, world);
      if !IsProperList(clauses[i]) || Items(clauses[i]) == [] {
        return Done(Exn(BadForm("cond"), world));
      }
      var clause := Items(clauses[i]);
      ItemSmaller(clauses, i);
      ItemSmaller(clause, 0);
      SuffixSmaller(clause, 1);
      if clause[0] == Sym("else") {
        if i + 1 != |clauses| {
          return Done(Exn(BadForm("cond"), world));
        }
        out := EvalSequenceStep(fuel, host, clause[1..], s, tail, world);
        return;
      }
      var test := EvalNonTail(fuel, host, clause[0], s, world);
      if !test.Val? {
        return Done(test);
      }
      if Truthy(test.v) {
        if |clause| == 1 {
          return Done(test);
        }
        out := EvalSequenceStep(fuel, host, clause[1..], s, tail, test.w);
        return;
      }
      world := test.w;
      i := i + 1;
    }
    assert clauses[i..] == [];
    NothingLeft(o, s, tail, map[], world);
    return Done(Val(Nil, world));
  }

  // ----- calls -----

  method EvalArguments(fuel: nat, host: Host, args: seq<Value>, s: Scope, w: World) returns (got: Evaluated)
    ensures got == EvalArgs(VmOracle(fuel, host), args, s, w)
    decreases fuel, SeqSize(args), 5
  {
    hide Eval, EvalArgs, VmInvoke, VmOracle, SeqSize;
    ghost var o := VmOracle(fuel, host);
    var vals, world := [], w;
    assert args[0..] == args;
    var i := 0;
    ghost var whole := EvalArgs(o, args, s, w);
    while i < |args|
      invariant 0 <= i <= |args|
      invariant whole == Prepend(vals, EvalArgs(o, args[i..], s, world))
    {
      ArgsFrom(o, args, i, s, world);
      ItemSmaller(args, i);
      var r := EvalNonTail(fuel, host, args[i], s, world);
      if !r.Val? {
        return Stopped(r);
      }
      PrependMore(vals, r.v, EvalArgs(o, args[i + 1..], s, r.w));
      vals := vals + [r.v];
      world := r.w;
      i := i + 1;
    }
    assert args[i..] == [];
    NothingLeft(o, s, false, map[], world);
    assert vals + [] == vals;
    return Evaluated(vals, world);
  }

  ghost function Prepend(vals: seq<Value>, more: Evaluated): Evaluated {
    if more.Stopped? then more else Evaluated(vals + more.vals, more.w)
  }

  lemma PrependMore(vals: seq<Value>, v: Value, more: Evaluated)
    ensures Prepend(vals, Prepend([v], more)) == Prepend(vals + [v], more)
  {
    if more.Evaluated? {
      assert vals + ([v] + more.vals) == vals + [v] + more.vals;
    }
  }

  /** `apply_callable_in_position`: in tail position the body of an interpreted closure is handed back. */
  method ApplyCallable(fuel: nat, host: Host, fn: Value, args: seq<Value>, tail: bool, w: World)
      returns (out: StepOutcome)
    ensures Resume(host, out) == VmInvoke(fuel, host, fn, args, w)
    ensures Fair(out, tail, fuel, 0)
    decreases fuel, 0, 0
  {
    hide CodeOf, Run, ParseSequence, CompileClosure, Runnable, Start, EvalSequence, PrimCall, Eval;
    match fn {
      case Prim(id) => return Done(PrimCall(host, id, args, w));
      case Closure(params, body, env) =>
        if |params| != |args| {
          return Done(Exn(Arity(|params|, |args|), w));
        }
        if CompileClosure(params, body).Some? {
          var r := ExecuteCompiledClosure(fuel, host, fn, args, w);
          return Done(r);
        }
        if fuel == 0 {
          return Done(Abort(OutOfFuel));
        }
        var scope := CallFrame(params, args, env);
        var step := EvalSequenceStep(fuel - 1, host, body, scope, true, w);
        if tail {
          return step;
        }
        if step.Bounce? {
          var r := EvalInPosition(step.fuel, host, step.e, step.s, true, step.w);
          return Done(r);
        }
        return step;
      case _ => return Done(Exn(NotCallable, w));
    }
  }

  /** The frame a call defines its parameters in, one after the other. */
  method CallFrame(params: seq<string>, args: seq<Value>, env: nat) returns (s: Scope)
    requires |params| == |args|
    ensures s == Frame(ParamFrame(params, args), Root(env))
  {
    var bindings: map<string, Value> := map[];
    var i := 0;
    while i < |params|
      invariant 0 <= i <= |params|
      invariant bindings == ParamFrame(params[..i], args[..i])
    {
      assert params[..i + 1][..i] == params[..i] && args[..i + 1][..i] == args[..i];
      bindings := bindings[params[i] := args[i]];
      i := i + 1;
    }
    assert params[..i] == params && args[..i] == args;
    return Frame(bindings, Root(env));
  }

  method EvalListForm(fuel: nat, host: Host, head: Value, args: seq<Value>, s: Scope, tail: bool, w: World)
      returns (out: StepOutcome)
    ensures Resume(host, out) == Settle(fuel, host, EvalList(VmOracle(fuel, host), head, args, s, tail, w))
    ensures Fair(out, tail, fuel, Size(head) + SeqSize(args))
    decreases fuel, Size(head) + SeqSize(args), 8
  {
    hide Eval, EvalSequence, EvalCond, EvalIf, EvalLet, EvalAnd, EvalOr, EvalArgs, VmInvoke, VmOracle, SeqSize, Size;
    SizePositive(head);
    if head == Sym("quote") {
      return Done(if |args| == 1 then Val(args[0], w) else Exn(BadForm("quote"), w));
    } else if head == Sym("if") {
      out := EvalIfForm(fuel, host, args, s, tail, w);
    } else if head == Sym("let") {
      out := EvalLetForm(fuel, host, args, s, tail, w);
    } else if head == Sym("and") {
      out := EvalAndForm(fuel, host, args, s, tail, w);
    } else if head == Sym("or") {
      out := EvalOrForm(fuel, host, args, s, tail, w);
    } else if head == Sym("cond") {
      out := EvalCondForm(fuel, host, args, s, tail, w);
    } else if head == Sym("begin") {
      out := EvalSequenceStep(fuel, host, args, s, tail, w);
    } else if head == Sym("unquote") || head == Sym("unquote-splicing") {
      return Done(Exn(BadForm(head.name), w));
    } else if head.Sym? && Refused(head.name) {
      return Done(Exn(OutsideModel(head.name), w));
    } else {
      out := EvalCallForm(fuel, host, head, args, s, tail, w);
    }
  }

  lemma SizePositive(v: Value)
    ensures Size(v) > 0
  {
  }

  method EvalCallForm(fuel: nat, host: Host, head: Value, args: seq<Value>, s: Scope, tail: bool, w: World)
      returns (out: StepOutcome)
    ensures Resume(host, out) == Settle(fuel, host, EvalCall(VmOracle(fuel, host), head, args, s, tail, w))
    ensures Fair(out, tail, fuel, Size(head) + SeqSize(args))
    decreases fuel, Size(head) + SeqSize(args), 7
  {
    hide Eval, EvalArgs, VmInvoke, SeqSize, Size;
    SizePositive(head);
    var fn := EvalNonTail(fuel, host, head, s, w);
    if !fn.Val? {
      return Done(fn);
    }
    var got := EvalArguments(fuel, host, args, s, fn.w);
    if got.Stopped? {
      return Done(got.stop);
    }
    out := ApplyCallable(fuel, host, fn.v, got.vals, tail, got.w);
  }

  /** `lookup`: walk outwards to the first frame that binds the name. */
  method Lookup(o: Oracle, s: Scope, name: string, w: World) returns (r: Answer)
    ensures r == LookUp(o, s, name, w)
  {
    var cursor := s;
    while cursor.Frame?
      invariant LookUp(o, s, name, w) == LookUp(o, cursor, name, w)
      decreases cursor
    {
      if name in cursor.bindings {
        return Val(cursor.bindings[name], w);
      }
      cursor := cursor.parent;
    }
    return Global(o, cursor.env, name, w);
  }

  /** `eval_step_in_position` */
  method EvalStep(fuel: nat, host: Host, e: Value, s: Scope, tail: bool, w: World) returns (out: StepOutcome)
    ensures Resume(host, out) == Settle(fuel, host, Eval(VmOracle(fuel, host), e, s, tail, w))
    ensures Fair(out, tail, fuel, Size(e))
    decreases fuel, Size(e), 1
  {
    hide EvalList, VmInvoke, VmOracle;
    match e {
      case Sym(name) =>
        var found := Lookup(VmOracle(fuel, host), s, name, w);
        return Done(found);
      case Cons(head, rest) =>
        if !IsProperList(rest) {
          return Done(Exn(BadForm("call"), w));
        }
        out := EvalListForm(fuel, host, head, Items(rest), s, tail, w);
      case _ => return Done(Val(e, w));
    }
  }

  /** `eval_in_position`: bounce until there is an answer. */
  method EvalInPosition(fuel: nat, host: Host, e: Value, s: Scope, tail: bool, w: World) returns (r: Answer)
    ensures r == Settle(fuel, host, Eval(VmOracle(fuel, host), e, s, tail, w))
    decreases fuel, Size(e), 2
  {
    hide Eval, VmInvoke, VmOracle, Size;
    var expr, scope, position, world := e, s, tail, w;
    var left: nat := fuel;
    while true
      invariant left < fuel || (left == fuel && Size(expr) <= Size(e))
      invariant Settle(left, host, Eval(VmOracle(left, host), expr, scope, position, world))
             == Settle(fuel, host, Eval(VmOracle(fuel, host), e, s, tail, w))
      decreases left, Size(expr)
    {
      var out := EvalStep(left, host, expr, scope, position, world);
      if out.Done? {
        return out.r;
      }
      expr, scope, position, world, left := out.e, out.s, true, out.w, out.fuel;
    }
  }

  /** `invoke_callable` */
  method InvokeCallable(fuel: nat, host: Host, fn: Value, args: seq<Value>, w: World) returns (r: Answer)
    ensures r == VmInvoke(fuel, host, fn, args, w)
  {
    var out := ApplyCallable(fuel, host, fn, args, false, w);
    r := out.r;
  }
}
