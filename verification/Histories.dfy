/**
  What the history of a run means.  Every event stands for a question the run really asked of the host, at that
  point of the history; a primitive that throws or a name that is not bound ends the run with that error, and these
  errors arise in no other way.
 */
module Histories {
  import opened Values
  import opened Forms
  import opened Bytecode
  import opened Machine
  import opened Evaluator
  import opened CompilerCorrectness
  import opened Positions
  import opened Runtime

  /** The event at k was answered by the host, and if the answer was a failure the run ended with it. */
  predicate EventTrue(host: Host, h: World, k: nat, r: Outcome)
    requires k < |h|
  {
    match h[k]
    case LookedUp(env, name) =>
      host.lookup(h[..k], env, name).Some? || (k + 1 == |h| && r == Exn(Unbound(name), h))
    case Applied(id, args) =>
      match host.prim(h[..k], id, args)
      case Returns(_) => true
      case Throws(code) => k + 1 == |h| && r == Exn(Raised(code), h)
  }

  /** The last event is the host's failure that the error reports. */
  predicate EndsInFailure(host: Host, h: World, err: Error) {
    match err
    case Raised(code) =>
      h != [] && h[|h| - 1].Applied?
      && host.prim(h[..|h| - 1], h[|h| - 1].prim, h[|h| - 1].args) == Throws(code)
    case Unbound(name) =>
      h != [] && h[|h| - 1].LookedUp? && h[|h| - 1].name == name
      && host.lookup(h[..|h| - 1], h[|h| - 1].env, name) == None
    case _ => true
  }

  predicate Extends(w: World, h: World) {
    |w| <= |h| && h[..|w|] == w
  }

  /** An outcome reached from history `w` continues it truthfully. */
  predicate Continues(host: Host, w: World, r: Outcome) {
    !r.Abort? ==>
      && Extends(w, r.w)
      && (forall k: nat :: |w| <= k < |r.w| ==> EventTrue(host, r.w, k, r))
      && (r.Exn? && (r.err.Raised? || r.err.Unbound?) ==> |r.w| > |w| && EndsInFailure(host, r.w, r.err))
  }

  ghost predicate OracleTrue(host: Host, o: Oracle) {
    && o.lookup == host.lookup
    && forall fn: Value, args: seq<Value>, w: World :: Continues(host, w, o.invoke(fn, args, w))
  }

  lemma {:induction false} Chained(host: Host, w: World, a: Outcome, r: Outcome)
    requires a.Val? && Continues(host, w, a) && Continues(host, a.w, r)
    ensures Continues(host, w, r)
  {
    if !r.Abort? {
      forall k: nat | |w| <= k < |r.w|
        ensures EventTrue(host, r.w, k, r)
      {
        if k < |a.w| {
          assert EventTrue(host, a.w, k, a);
          assert r.w[k] == r.w[..|a.w|][k] && r.w[..k] == r.w[..|a.w|][..k];
        }
      }
      assert r.w[..|w|] == r.w[..|a.w|][..|w|];
    }
  }

  /** Nothing asked. */
  lemma Still(host: Host, r: Outcome)
    requires !r.Abort? && !(r.Exn? && (r.err.Raised? || r.err.Unbound?))
    ensures Continues(host, r.w, r)
  {
  }

  lemma GlobalTrue(host: Host, o: Oracle, env: nat, name: string, w: World)
    requires o.lookup == host.lookup
    ensures Continues(host, w, Global(o, env, name, w))
  {
    var h := w + [LookedUp(env, name)];
    assert h[..|w|] == w;
  }

  lemma PrimTrue(host: Host, id: nat, args: seq<Value>, w: World)
    ensures Continues(host, w, PrimCall(host, id, args, w))
  {
    var h := w + [Applied(id, args)];
    assert h[..|w|] == w;
  }

  // ----- the evaluator -----

  lemma {:induction false} LookUpTrue(host: Host, o: Oracle, s: Scope, name: string, w: World)
    requires OracleTrue(host, o)
    ensures Continues(host, w, LookUp(o, s, name, w))
    decreases s
  {
    hide Continues, Global;
    match s
    case Root(env) => GlobalTrue(host, o, env, name, w);
    case Frame(b, parent) =>
      if name in b {
        Still(host, Val(b[name], w));
      } else {
        LookUpTrue(host, o, parent, name, w);
      }
  }

  lemma {:induction false} EvalTrue(host: Host, o: Oracle, e: Value, s: Scope, tail: bool, w: World)
    requires OracleTrue(host, o)
    ensures Continues(host, w, Eval(o, e, s, tail, w))
    decreases Size(e), 1
  {
    hide Continues, OracleTrue, EvalList;
    if e.Sym? {
      LookUpTrue(host, o, s, e.name, w);
    } else if e.Cons? && IsProperList(e.cdr) {
      assert Items(e) == [e.car] + Items(e.cdr);
      ListTrue(host, o, e.car, Items(e.cdr), s, tail, w);
    } else {
      Still(host, Eval(o, e, s, tail, w));
    }
  }

  lemma {:induction false} ListTrue(
    host: Host, o: Oracle, head: Value, args: seq<Value>, s: Scope, tail: bool, w: World)
    requires OracleTrue(host, o)
    ensures Continues(host, w, EvalList(o, head, args, s, tail, w))
    decreases Size(head) + SeqSize(args), 3
  {
    hide *;
    ListCases(o, head, args, s, tail, w);
    if head == Sym("if") {
      IfTrue(host, o, args, s, tail, w);
    } else if head == Sym("let") {
      LetTrue(host, o, args, s, tail, w);
    } else if head == Sym("and") {
      AndTrue(host, o, args, s, tail, w);
    } else if head == Sym("or") {
      OrTrue(host, o, args, s, tail, w);
    } else if head == Sym("cond") {
      CondTrue(host, o, args, s, tail, w);
    } else if head == Sym("begin") {
      SequenceTrue(host, o, args, s, tail, w);
    } else if IsCallHead(head) {
      CallTrue(host, o, head, args, s, tail, w);
    } else {
      RigidTrue(host, head, args, w);
    }
  }

  lemma RigidTrue(host: Host, head: Value, args: seq<Value>, w: World)
    ensures Continues(host, w, Rigid(head, args, w))
  {
    hide Continues;
    Still(host, Rigid(head, args, w));
  }

  lemma {:induction false} CallTrue(
    host: Host, o: Oracle, head: Value, args: seq<Value>, s: Scope, tail: bool, w: World)
    requires OracleTrue(host, o)
    ensures Continues(host, w, EvalCall(o, head, args, s, tail, w))
    decreases Size(head) + SeqSize(args), 2
  {
    hide Continues, Eval, EvalArgs;
    EvalTrue(host, o, head, s, false, w);
    var fn := Eval(o, head, s, false, w);
    if fn.Val? {
      ArgsTrue(host, o, args, s, fn.w);
      var got := EvalArgs(o, args, s, fn.w);
      if got.Evaluated? {
        ApplyTrue(host, o, fn.v, got.vals, tail, got.w);
        Chained(host, fn.w, Val(Nil, got.w), Apply(o, fn.v, got.vals, tail, got.w));
      }
      Chained(host, w, fn, if got.Stopped? then got.stop else Apply(o, fn.v, got.vals, tail, got.w));
    }
  }

  lemma ApplyTrue(host: Host, o: Oracle, fn: Value, args: seq<Value>, tail: bool, w: World)
    requires OracleTrue(host, o)
    ensures Continues(host, w, Apply(o, fn, args, tail, w))
  {
    hide Continues;
    if tail {
      Still(host, Tail(fn, args, w));
    }
  }

  /** Argument lists: where they stop, or the history when all are there. */
  lemma {:induction false} ArgsTrue(host: Host, o: Oracle, args: seq<Value>, s: Scope, w: World)
    requires OracleTrue(host, o)
    ensures
      var got := EvalArgs(o, args, s, w);
      Continues(host, w, if got.Stopped? then got.stop else Val(Nil, got.w))
    decreases SeqSize(args), 0
  {
    hide Continues, Eval, OracleTrue;
    if args == [] {
      Still(host, Val(Nil, w));
    } else {
      EvalTrue(host, o, args[0], s, false, w);
      var first := Eval(o, args[0], s, false, w);
      if first.Val? {
        ArgsTrue(host, o, args[1..], s, first.w);
        var more := EvalArgs(o, args[1..], s, first.w);
        Chained(host, w, first, if more.Stopped? then more.stop else Val(Nil, more.w));
      }
    }
  }

  lemma {:induction false} IfTrue(host: Host, o: Oracle, args: seq<Value>, s: Scope, tail: bool, w: World)
    requires OracleTrue(host, o)
    ensures Continues(host, w, EvalIf(o, args, s, tail, w))
    decreases SeqSize(args), 0
  {
    hide Continues, Eval, OracleTrue;
    if |args| != 2 && |args| != 3 {
      Still(host, EvalIf(o, args, s, tail, w));
    } else {
      ItemSmaller(args, 0);
      ItemSmaller(args, 1);
      EvalTrue(host, o, args[0], s, false, w);
      var test := Eval(o, args[0], s, false, w);
      if test.Val? {
        if Truthy(test.v) {
          EvalTrue(host, o, args[1], s, tail, test.w);
        } else if |args| == 3 {
          ItemSmaller(args, 2);
          EvalTrue(host, o, args[2], s, tail, test.w);
        } else {
          Still(host, Val(Nil, test.w));
        }
        Chained(host, w, test, EvalIf(o, args, s, tail, w));
      }
    }
  }

  lemma {:induction false} SequenceTrue(host: Host, o: Oracle, es: seq<Value>, s: Scope, tail: bool, w: World)
    requires OracleTrue(host, o)
    ensures Continues(host, w, EvalSequence(o, es, s, tail, w))
    decreases SeqSize(es), 0
  {
    hide Continues, Eval, OracleTrue;
    if es == [] {
      Still(host, Val(Nil, w));
    } else if |es| == 1 {
      EvalTrue(host, o, es[0], s, tail, w);
    } else {
      EvalTrue(host, o, es[0], s, false, w);
      var first := Eval(o, es[0], s, false, w);
      if first.Val? {
        SequenceTrue(host, o, es[1..], s, tail, first.w);
        Chained(host, w, first, EvalSequence(o, es[1..], s, tail, first.w));
      }
    }
  }

  lemma {:induction false} AndTrue(host: Host, o: Oracle, es: seq<Value>, s: Scope, tail: bool, w: World)
    requires OracleTrue(host, o)
    ensures Continues(host, w, EvalAnd(o, es, s, tail, w))
    decreases SeqSize(es), 0
  {
    hide Continues, Eval, OracleTrue;
    if es == [] {
      Still(host, Val(Bool(true), w));
    } else if |es| == 1 {
      EvalTrue(host, o, es[0], s, tail, w);
    } else {
      EvalTrue(host, o, es[0], s, false, w);
      var first := Eval(o, es[0], s, false, w);
      if first.Val? && Truthy(first.v) {
        AndTrue(host, o, es[1..], s, tail, first.w);
        Chained(host, w, first, EvalAnd(o, es[1..], s, tail, first.w));
      }
    }
  }

  lemma {:induction false} OrTrue(host: Host, o: Oracle, es: seq<Value>, s: Scope, tail: bool, w: World)
    requires OracleTrue(host, o)
    ensures Continues(host, w, EvalOr(o, es, s, tail, w))
    decreases SeqSize(es), 0
  {
    hide Continues, Eval, OracleTrue;
    if es == [] {
      Still(host, Val(Nil, w));
    } else if |es| == 1 && tail {
      EvalTrue(host, o, es[0], s, true, w);
    } else {
      EvalTrue(host, o, es[0], s, false, w);
      var first := Eval(o, es[0], s, false, w);
      if first.Val? && !Truthy(first.v) {
        if |es| == 1 {
          Still(host, Val(Nil, first.w));
        } else {
          OrTrue(host, o, es[1..], s, tail, first.w);
        }
        Chained(host, w, first, EvalOr(o, es, s, tail, w));
      }
    }
  }

  lemma {:induction false} CondTrue(host: Host, o: Oracle, cs: seq<Value>, s: Scope, tail: bool, w: World)
    requires OracleTrue(host, o)
    ensures Continues(host, w, EvalCond(o, cs, s, tail, w))
    decreases SeqSize(cs), 0
  {
    hide Continues, Eval, EvalSequence, OracleTrue;
    if cs == [] || !IsProperList(cs[0]) || Items(cs[0]) == [] {
      Still(host, EvalCond(o, cs, s, tail, w));
    } else {
      var clause := Items(cs[0]);
      assert SeqSize(clause) == 1 + Size(clause[0]) + SeqSize(clause[1..]);
      if clause[0] == Sym("else") {
        SequenceTrue(host, o, clause[1..], s, tail, w);
        Still(host, Exn(BadForm("cond"), w));
      } else {
        EvalTrue(host, o, clause[0], s, false, w);
        var test := Eval(o, clause[0], s, false, w);
        if test.Val? {
          CondTrue(host, o, cs[1..], s, tail, test.w);
          SequenceTrue(host, o, clause[1..], s, tail, test.w);
          Still(host, Val(test.v, test.w));
          Chained(host, w, test, EvalCond(o, cs, s, tail, w));
        }
      }
    }
  }

  lemma {:induction false} BindsTrue(host: Host, o: Oracle, bs: seq<Value>, s: Scope, acc: map<string, Value>, w: World)
    requires OracleTrue(host, o)
    ensures
      var got := EvalBinds(o, bs, s, acc, w);
      Continues(host, w, if got.Unbindable? then got.stop else Val(Nil, got.w))
    decreases SeqSize(bs), 0
  {
    hide Continues, Eval, OracleTrue;
    if bs == [] {
      Still(host, Val(Nil, w));
    } else if !IsBinding(bs[0]) {
      Still(host, Exn(BadForm("let"), w));
    } else {
      BindingSmaller(bs[0]);
      EvalTrue(host, o, Items(bs[0])[1], s, false, w);
      var init := Eval(o, Items(bs[0])[1], s, false, w);
      if init.Val? {
        var acc2 := acc[Items(bs[0])[0].name := init.v];
        BindsTrue(host, o, bs[1..], s, acc2, init.w);
        var more := EvalBinds(o, bs[1..], s, acc2, init.w);
        Chained(host, w, init, if more.Unbindable? then more.stop else Val(Nil, more.w));
      }
    }
  }

  lemma {:induction false} LetTrue(host: Host, o: Oracle, args: seq<Value>, s: Scope, tail: bool, w: World)
    requires OracleTrue(host, o)
    ensures Continues(host, w, EvalLet(o, args, s, tail, w))
    decreases SeqSize(args), 1
  {
    hide Continues, EvalBinds, EvalSequence, OracleTrue;
    if |args| < 2 || !IsProperList(args[0]) {
      Still(host, Exn(BadForm("let"), w));
    } else {
      BindsTrue(host, o, Items(args[0]), s, map[], w);
      var got := EvalBinds(o, Items(args[0]), s, map[], w);
      if got.Bound? {
        SequenceTrue(host, o, args[1..], Frame(got.bindings, s), tail, got.w);
        Chained(host, w, Val(Nil, got.w), EvalSequence(o, args[1..], Frame(got.bindings, s), tail, got.w));
      }
    }
  }

  // ----- the machine -----

  /** What a frame answers, seen as an outcome. */
  function OutcomeOf(end: FrameEnd, w: World): Outcome {
    match end
    case Returned(r) => r
    case Reuse(fn, args, w2, _) => Tail(fn, args, w2)
    case Fault(kind) => Exn(Internal(kind), w)
  }

  lemma {:induction false} RunTrue(host: Host, o: Oracle, env: nat, code: Code, m: Vm)
    requires OracleTrue(host, o) && Runnable(code)
    ensures
      var end := Run(o, env, code, m);
      !end.Fault? ==> Continues(host, m.world, OutcomeOf(end, m.world))
    decreases |code| - m.ip
  {
    hide Continues, Runnable;
    if m.ip < |code| {
      StepTrue(host, o, env, code[m.ip], m);
      var t := Step(o, env, code[m.ip], m);
      if t.Next? {
        StepForward(o, env, code, m);
        RunTrue(host, o, env, code, t.m);
        if !Run(o, env, code, t.m).Fault? {
          Chained(host, m.world, Val(Nil, t.m.world), OutcomeOf(Run(o, env, code, t.m), t.m.world));
        }
      }
    }
  }

  lemma StepTrue(host: Host, o: Oracle, env: nat, i: Instr, m: Vm)
    requires OracleTrue(host, o)
    ensures
      var t := Step(o, env, i, m);
      if t.Next? then Continues(host, m.world, Val(Nil, t.m.world))
      else !t.end.Fault? ==> Continues(host, m.world, OutcomeOf(t.end, m.world))
  {
    hide Continues, Global;
    Still(host, Val(Nil, m.world));
    match i
    case LoadName(name) =>
      GlobalTrue(host, o, env, name, m.world);
      PushTrue(host, m, m.world, Global(o, env, name, m.world));
    case CallN(n) =>
      if |m.stack| >= n + 1 {
        var r := o.invoke(Callee(m.stack, n), CallArgs(m.stack, n), m.world);
        PushTrue(host, m.(stack := Drop(m.stack, n + 1)), m.world, r);
      }
    case TailCallN(n) =>
      if |m.stack| >= n + 1 {
        Still(host, Tail(Callee(m.stack, n), CallArgs(m.stack, n), m.world));
      }
    case ReturnValue => Still(host, Val(if m.stack == [] then Nil else Top(m.stack), m.world));
    case _ =>
  }

  lemma PushTrue(host: Host, m: Vm, w: World, a: Answer)
    requires Continues(host, w, a)
    ensures
      var t := Push(m, a);
      if t.Next? then Continues(host, w, Val(Nil, t.m.world)) else Continues(host, w, OutcomeOf(t.end, w))
  {
    if a.Val? {
      forall k: nat | |w| <= k < |a.w|
        ensures EventTrue(host, a.w, k, Val(Nil, a.w))
      {
        assert EventTrue(host, a.w, k, a);
      }
    }
  }

  // ----- whole programs -----

  /**
    Every run of the tree evaluator: each event it adds to the history is a question the host answered at that
    point, and failures of the host are exactly what ends the run with `Raised` or `Unbound`.
   */
  lemma {:induction false} TreeHistories(watch: bool, fuel: nat, host: Host, fn: Value, args: seq<Value>, w: World)
    ensures Continues(host, w, TreeInvoke(watch, fuel, host, fn, args, w))
    decreases fuel
  {
    hide Continues, EvalBody, PrimCall, ParseSequence, CleanBody;
    match fn
    case Prim(id) => PrimTrue(host, id, args, w);
    case Closure(params, body, env) =>
      if |params| != |args| {
        Still(host, Exn(Arity(|params|, |args|), w));
      } else if fuel == 0 || (watch && ParseSequence(body).Some? && !CleanBody(body)) {
        Aborted(host, w, TreeInvoke(watch, fuel, host, fn, args, w));
      } else {
        var o := TreeOracle(watch, fuel - 1, host);
        forall f: Value, a: seq<Value>, u: World
          ensures Continues(host, u, o.invoke(f, a, u))
        {
          TreeHistories(watch, fuel - 1, host, f, a, u);
        }
        BodyTrue(host, o, params, body, env, args, w);
        var r := EvalBody(o, params, body, env, args, w);
        if r.Tail? {
          TreeHistories(watch, fuel - 1, host, r.fn, r.args, r.w);
          Handed(host, w, r, TreeInvoke(watch, fuel - 1, host, r.fn, r.args, r.w));
        }
      }
    case _ => Still(host, Exn(NotCallable, w));
  }

  lemma Aborted(host: Host, w: World, r: Outcome)
    requires r.Abort?
    ensures Continues(host, w, r)
  {
  }

  lemma BodyTrue(host: Host, o: Oracle, params: seq<string>, body: seq<Value>, env: nat, args: seq<Value>, w: World)
    requires OracleTrue(host, o) && |params| == |args|
    ensures Continues(host, w, EvalBody(o, params, body, env, args, w))
  {
    hide Continues, EvalSequence, ParamFrame;
    SequenceTrue(host, o, body, Frame(ParamFrame(params, args), Root(env)), true, w);
  }

  lemma Handed(host: Host, w: World, a: Outcome, r: Outcome)
    requires a.Tail? && Continues(host, w, a) && Continues(host, a.w, r)
    ensures Continues(host, w, r)
  {
    forall k: nat | |w| <= k < |a.w|
      ensures EventTrue(host, a.w, k, Val(Nil, a.w))
    {
      assert EventTrue(host, a.w, k, a);
    }
    Chained(host, w, Val(Nil, a.w), r);
  }

  /** The same of every run of the runtime. */
  lemma {:induction false} VmHistories(fuel: nat, host: Host, fn: Value, args: seq<Value>, w: World)
    ensures Continues(host, w, VmInvoke(fuel, host, fn, args, w))
    decreases fuel
  {
    hide Continues, EvalBody, PrimCall, CompileClosure, Run, Runnable, Start;
    match fn
    case Prim(id) => PrimTrue(host, id, args, w);
    case Closure(params, body, env) =>
      if |params| != |args| {
        Still(host, Exn(Arity(|params|, |args|), w));
      } else if fuel == 0 {
        Aborted(host, w, Abort(OutOfFuel));
      } else {
        var o := VmOracle(fuel - 1, host);
        forall f: Value, a: seq<Value>, u: World
          ensures Continues(host, u, o.invoke(f, a, u))
        {
          VmHistories(fuel - 1, host, f, a, u);
        }
        BodyTrue(host, o, params, body, env, args, w);
        var r := EvalBody(o, params, body, env, args, w);
        if CompileClosure(params, body).Some? {
          CompiledRunnable(params, body);
          r := FrameOutcome(host, o, params, body, env, args, w);
        }
        if r.Tail? {
          VmHistories(fuel - 1, host, r.fn, r.args, r.w);
          Handed(host, w, r, VmInvoke(fuel - 1, host, r.fn, r.args, r.w));
        }
      }
    case _ => Still(host, Exn(NotCallable, w));
  }

  lemma {:induction false} FrameOutcome(
    host: Host, o: Oracle, params: seq<string>, body: seq<Value>, env: nat, args: seq<Value>, w: World)
    returns (r: Outcome)
    requires OracleTrue(host, o) && |params| == |args| && CompileClosure(params, body).Some?
    ensures
      var c := CompileClosure(params, body).value;
      Runnable(c.code) && r == OutcomeOf(Run(o, env, c.code, Start(c, args, w)), w) && Continues(host, w, r)
  {
    hide Continues, CodeOf, Run, Runnable, SlotEval, ParseSequence;
    var c := CompileClosure(params, body).value;
    NoInternalFault(o, params, body, env, args, w);
    RunTrue(host, o, env, c.code, Start(c, args, w));
    r := OutcomeOf(Run(o, env, c.code, Start(c, args, w)), w);
  }

  // ----- direct answers -----

  /** Calling a primitive answers what the host answers to that call, and records the call. */
  lemma PrimitiveAnswers(fuel: nat, host: Host, id: nat, args: seq<Value>, w: World)
    ensures
      var r := VmInvoke(fuel, host, Prim(id), args, w);
      && r == TreeInvoke(false, fuel, host, Prim(id), args, w)
      && (r.Val? || r.Exn?) && r.w == w + [Applied(id, args)]
      && (r.Val? <==> host.prim(w, id, args).Returns?)
      && (r.Val? ==> r.v == host.prim(w, id, args).v)
      && (r.Exn? ==> r.err == Raised(host.prim(w, id, args).code))
  {
  }

  /** A name that no frame binds answers what the host binds it to in the captured environment, or is unbound. */
  lemma GlobalAnswers(o: Oracle, env: nat, name: string, tail: bool, w: World)
    ensures
      var r := Eval(o, Sym(name), Root(env), tail, w);
      && (r.Val? || r.Exn?) && r.w == w + [LookedUp(env, name)]
      && (r.Val? <==> o.lookup(w, env, name).Some?)
      && (r.Val? ==> r.v == o.lookup(w, env, name).value)
      && (r.Exn? ==> r.err == Unbound(name))
  {
  }

  /** A call with the wrong number of arguments, or of something that cannot be called, asks nothing. */
  lemma RefusedCalls(fuel: nat, host: Host, fn: Value, args: seq<Value>, w: World)
    ensures fn.Closure? && |fn.params| != |args| ==>
      VmInvoke(fuel, host, fn, args, w) == TreeInvoke(false, fuel, host, fn, args, w)
      == Exn(Arity(|fn.params|, |args|), w)
    ensures !fn.Closure? && !fn.Prim? ==>
      VmInvoke(fuel, host, fn, args, w) == TreeInvoke(false, fuel, host, fn, args, w) == Exn(NotCallable, w)
  {
  }

  // ----- calling closures -----

  /** A call of a compiled closure with a clean body is its body evaluated in a frame of its own. */
  lemma CleanCall(fuel: nat, host: Host, fn: Value, args: seq<Value>, w: World)
    requires fuel > 0 && fn.Closure? && |fn.params| == |args| && ParseSequence(fn.body).Some? && CleanBody(fn.body)
    ensures
      var r := EvalBody(VmOracle(fuel - 1, host), fn.params, fn.body, fn.env, args, w);
      VmInvoke(fuel, host, fn, args, w) == if r.Tail? then VmInvoke(fuel - 1, host, r.fn, r.args, r.w) else r
  {
    hide ParseSequence, CompileClosure, CleanBody, Run, Runnable, EvalBody, Start;
    CompileIffParse(fn.params, fn.body);
    CompiledFrameCorrect(VmOracle(fuel - 1, host), fn.params, fn.body, fn.env, args, w);
  }

  /** The last parameter of that name. */
  predicate LastNamed(params: seq<string>, name: string, i: nat) {
    i < |params| && params[i] == name && name !in params[i + 1..]
  }

  lemma {:induction false} FrameBinds(params: seq<string>, args: seq<Value>, name: string)
    requires |params| == |args|
    ensures name in ParamFrame(params, args) <==> name in params
    ensures forall i: nat :: LastNamed(params, name, i) ==>
              name in ParamFrame(params, args) && ParamFrame(params, args)[name] == args[i]
    decreases |params|
  {
    if params != [] {
      var n := |params| - 1;
      FrameBinds(params[..n], args[..n], name);
      assert params == params[..n] + [params[n]];
      forall i: nat | LastNamed(params, name, i)
        ensures name in ParamFrame(params, args) && ParamFrame(params, args)[name] == args[i]
      {
        if i < n {
          assert params[n] in params[i + 1..];
          assert params[i + 1..n] == params[..n][i + 1..];
          assert params[i + 1..] == params[i + 1..n] + [params[n]];
          assert LastNamed(params[..n], name, i);
        }
      }
    }
  }

  lemma VariableBody(o: Oracle, params: seq<string>, name: string, env: nat, args: seq<Value>, w: World)
    requires |params| == |args|
    ensures
      var r := EvalBody(o, params, [Sym(name)], env, args, w);
      && (forall i: nat :: LastNamed(params, name, i) ==> r == Val(args[i], w))
      && (name !in params ==> r == Eval(o, Sym(name), Root(env), true, w))
  {
    hide ParamFrame, LastNamed;
    var s := Frame(ParamFrame(params, args), Root(env));
    FrameBinds(params, args, name);
    assert EvalSequence(o, [Sym(name)], s, true, w) == Eval(o, Sym(name), s, true, w) == LookUp(o, s, name, w);
    assert LookUp(o, Root(env), name, w) == Eval(o, Sym(name), Root(env), true, w);
  }

  lemma VariableIsClean(name: string)
    ensures ParseSequence([Sym(name)]) == Some(Ref(name)) && CleanBody([Sym(name)])
  {
  }

  /**
    In the body of a closure a name stands for the argument of the last parameter so named, and any other name for
    what the closure's own environment binds it to; so in bytecode as in the evaluator.
   */
  lemma ClosureVariables(fuel: nat, host: Host, params: seq<string>, name: string, env: nat, args: seq<Value>, w: World)
    requires fuel > 0 && |params| == |args|
    ensures
      var r := VmInvoke(fuel, host, Closure(params, [Sym(name)], env), args, w);
      && r == TreeInvoke(false, fuel, host, Closure(params, [Sym(name)], env), args, w)
      && (forall i: nat :: LastNamed(params, name, i) ==> r == Val(args[i], w))
      && (name !in params ==>
            r == match host.lookup(w, env, name)
                 case Some(v) => Val(v, w + [LookedUp(env, name)])
                 case None => Exn(Unbound(name), w + [LookedUp(env, name)]))
  {
    hide ParseSequence, CleanBody, EvalBody, ParamFrame, LastNamed;
    VariableIsClean(name);
    var fn, o, p := Closure(params, [Sym(name)], env), VmOracle(fuel - 1, host), TreeOracle(false, fuel - 1, host);
    CleanCall(fuel, host, fn, args, w);
    VariableBody(o, params, name, env, args, w);
    VariableBody(p, params, name, env, args, w);
    if name in params {
      SomeIsLast(params, name);
    }
  }

  lemma {:induction false} SomeIsLast(params: seq<string>, name: string)
    requires name in params
    ensures exists i: nat :: LastNamed(params, name, i)
    decreases |params|
  {
    var n := |params| - 1;
    if params[n] == name {
      assert LastNamed(params, name, n);
    } else {
      assert params == params[..n] + [params[n]];
      SomeIsLast(params[..n], name);
      var i: nat :| LastNamed(params[..n], name, i);
      assert params[i + 1..] == params[..n][i + 1..] + [params[n]];
      assert LastNamed(params, name, i);
    }
  }

  const APPLY: seq<Value> := [Cons(Sym("f"), Cons(Sym("x"), Nil))]

  lemma ApplyEvaluates(o: Oracle, s: Scope, w: World)
    requires s.Frame? && "f" in s.bindings && "x" in s.bindings
    ensures EvalSequence(o, APPLY, s, true, w) == Tail(s.bindings["f"], [s.bindings["x"]], w)
  {
    var v := s.bindings["x"];
    assert EvalArgs(o, [], s, w) == Evaluated([], w) && [Sym("x")][1..] == [] && [v] + [] == [v];
    assert EvalArgs(o, [Sym("x")], s, w) == Evaluated([v], w);
    assert Items(Cons(Sym("x"), Nil)) == [Sym("x")];
    assert EvalSequence(o, APPLY, s, true, w) == Eval(o, APPLY[0], s, true, w);
  }

  lemma ApplyBody(o: Oracle, env: nat, g: Value, v: Value, w: World)
    ensures EvalBody(o, ["f", "x"], APPLY, env, [g, v], w) == Tail(g, [v], w)
  {
    hide EvalSequence, ParamFrame;
    FrameBinds(["f", "x"], [g, v], "f");
    FrameBinds(["f", "x"], [g, v], "x");
    assert LastNamed(["f", "x"], "f", 0) && LastNamed(["f", "x"], "x", 1);
    ApplyEvaluates(o, Frame(ParamFrame(["f", "x"], [g, v]), Root(env)), w);
  }

  lemma ApplyIsClean()
    ensures ParseSequence(APPLY).Some? && CleanBody(APPLY)
  {
    assert Items(APPLY[0]) == [Sym("f"), Sym("x")];
    assert ParseArgs([Sym("x")]) == Some(Arg(Ref("x"), NoArgs));
    assert ParseExpr(APPLY[0]) == Some(Call(Ref("f"), Arg(Ref("x"), NoArgs)));
  }

  /** Calling `(lambda (f x) (f x))` with g and v is calling g with v: callee and argument arrive as they were given. */
  lemma ApplyIsCall(fuel: nat, host: Host, env: nat, g: Value, v: Value, w: World)
    requires fuel > 0
    ensures VmInvoke(fuel, host, Closure(["f", "x"], APPLY, env), [g, v], w) == VmInvoke(fuel - 1, host, g, [v], w)
    ensures TreeInvoke(false, fuel, host, Closure(["f", "x"], APPLY, env), [g, v], w)
            == TreeInvoke(false, fuel - 1, host, g, [v], w)
  {
    hide ParseSequence, CleanBody, EvalBody, PrimCall;
    ApplyIsClean();
    CleanCall(fuel, host, Closure(["f", "x"], APPLY, env), [g, v], w);
    ApplyBody(VmOracle(fuel - 1, host), env, g, v, w);
    ApplyBody(TreeOracle(false, fuel - 1, host), env, g, v, w);
  }
}
