/**
  Whole programs: closures calling closures.  The same program is run three ways:
  - `TreeInvoke` evaluates every closure body with the tree evaluator;
  - `VmInvoke` is what the runtime does: bytecode where the compiler accepted the body, one frame
    reused along a chain of tail calls, the tree evaluator for the other closures;
  - `NestedInvoke` is bytecode compiled without tail calls, so every call nests.
  Fuel bounds the depth of calls; `FuelMonotone`, `VmFuelMonotone` and `NestedFuelMonotone` show that it only
  decides whether a run ends.
 */
module Runtime {
  import opened Values
  import opened Forms
  import opened Bytecode
  import opened Machine
  import opened Simulation
  import opened Evaluator
  import opened CompilerCorrectness
  import opened Positions

  datatype PrimResult = Returns(v: Value) | Throws(code: nat)

  /** Everything outside closures: global bindings and primitives, as functions of the history. */
  datatype Host = Host(
    lookup: (World, nat, string) -> Option<Value>,
    prim: (World, nat, seq<Value>) -> PrimResult)

  function PrimCall(host: Host, id: nat, args: seq<Value>, w: World): Answer {
    match host.prim(w, id, args)
    case Returns(v) => Val(v, w + [Applied(id, args)])
    case Throws(code) => Exn(Raised(code), w + [Applied(id, args)])
  }

  /** With `watch`, a run stops at the first call of a compiled closure whose body is not clean. */
  function TreeInvoke(watch: bool, fuel: nat, host: Host, fn: Value, args: seq<Value>, w: World): Answer
    decreases fuel, 1
  {
    match fn
    case Prim(id) => PrimCall(host, id, args, w)
    case Closure(params, body, env) =>
      if |params| != |args| then Exn(Arity(|params|, |args|), w)
      else if fuel == 0 then Abort(OutOfFuel)
      else if watch && ParseSequence(body).Some? && !CleanBody(body) then Abort(Unclean)
      else
        var r := EvalBody(TreeOracle(watch, fuel - 1, host), params, body, env, args, w);
        if r.Tail? then TreeInvoke(watch, fuel - 1, host, r.fn, r.args, r.w) else r
    case _ => Exn(NotCallable, w)
  }

  function TreeOracle(watch: bool, fuel: nat, host: Host): Oracle
    decreases fuel, 2
  {
    Oracle(host.lookup, (fn: Value, args: seq<Value>, w: World) => TreeInvoke(watch, fuel, host, fn, args, w))
  }

  function VmInvoke(fuel: nat, host: Host, fn: Value, args: seq<Value>, w: World): Answer
    decreases fuel, 1
  {
    match fn
    case Prim(id) => PrimCall(host, id, args, w)
    case Closure(params, body, env) =>
      if |params| != |args| then Exn(Arity(|params|, |args|), w)
      else if fuel == 0 then Abort(OutOfFuel)
      else if CompileClosure(params, body).Some? then
        CompiledRunnable(params, body);
        var c := CompileClosure(params, body).value;
        match Run(VmOracle(fuel - 1, host), env, c.code, Start(c, args, w))
        case Returned(r) => r
        case Reuse(fn2, args2, w2, _) => VmInvoke(fuel - 1, host, fn2, args2, w2)
        case Fault(kind) => Exn(Internal(kind), w)
      else
        var r := EvalBody(VmOracle(fuel - 1, host), params, body, env, args, w);
        if r.Tail? then VmInvoke(fuel - 1, host, r.fn, r.args, r.w) else r
    case _ => Exn(NotCallable, w)
  }

  function VmOracle(fuel: nat, host: Host): Oracle
    decreases fuel, 2
  {
    Oracle(host.lookup, (fn: Value, args: seq<Value>, w: World) => VmInvoke(fuel, host, fn, args, w))
  }

  // ----- compiled programs behave like interpreted ones -----

  /**
    Every run that calls only clean compiled closures gives the same answer - value, error and the
    whole history of lookups and primitive calls - under bytecode as under the tree evaluator.
   */
  lemma {:induction false} CompiledRunsAgree(fuel: nat, host: Host, fn: Value, args: seq<Value>, w: World)
    requires TreeInvoke(true, fuel, host, fn, args, w) != Abort(Unclean)
    ensures VmInvoke(fuel, host, fn, args, w) == TreeInvoke(false, fuel, host, fn, args, w)
  {
    WatchedAgrees(fuel, host, fn, args, w);
    WatchingChangesNothing(fuel, host, fn, args, w);
  }

  lemma {:induction false} WatchedAgrees(fuel: nat, host: Host, fn: Value, args: seq<Value>, w: World)
    ensures Refines(Some(Unclean), TreeInvoke(true, fuel, host, fn, args, w), VmInvoke(fuel, host, fn, args, w))
    decreases fuel
  {
    hide CodeOf, Run, Start, ParseSequence, CompileClosure, CleanBody, Runnable, EvalBody, PrimCall;
    if fn.Closure? && |fn.params| == |args| && fuel > 0 && !(ParseSequence(fn.body).Some? && !CleanBody(fn.body)) {
      var o, p := TreeOracle(true, fuel - 1, host), VmOracle(fuel - 1, host);
      CompileIffParse(fn.params, fn.body);
      forall f: Value, a: seq<Value>, u: World
        ensures Refines(Some(Unclean), o.invoke(f, a, u), p.invoke(f, a, u))
      {
        WatchedAgrees(fuel - 1, host, f, a, u);
      }
      BodyRefines(Some(Unclean), o, p, fn.params, fn.body, fn.env, args, w);
      if CompileClosure(fn.params, fn.body).Some? {
        CompiledFrameCorrect(p, fn.params, fn.body, fn.env, args, w);
      }
      var r := EvalBody(o, fn.params, fn.body, fn.env, args, w);
      if r.Tail? {
        WatchedAgrees(fuel - 1, host, r.fn, r.args, r.w);
      }
    }
  }

  lemma CompileIffParse(params: seq<string>, body: seq<Value>)
    ensures CompileClosure(params, body).Some? == ParseSequence(body).Some?
  {
  }

  lemma {:induction false} BodyRefines(h: Option<Halt>, o: Oracle, p: Oracle, params: seq<string>, body: seq<Value>,
      env: nat, args: seq<Value>, w: World)
    requires OracleRefines(h, o, p) && |params| == |args|
    ensures Refines(h, EvalBody(o, params, body, env, args, w), EvalBody(p, params, body, env, args, w))
  {
    SequenceRefines(h, o, p, body, Frame(ParamFrame(params, args), Root(env)), true, w);
  }

  lemma {:induction false} WatchingChangesNothing(fuel: nat, host: Host, fn: Value, args: seq<Value>, w: World)
    ensures Refines(Some(Unclean), TreeInvoke(true, fuel, host, fn, args, w),
        TreeInvoke(false, fuel, host, fn, args, w))
    decreases fuel
  {
    if fn.Closure? && |fn.params| == |args| && fuel > 0 && !(ParseSequence(fn.body).Some? && !CleanBody(fn.body)) {
      var o, p := TreeOracle(true, fuel - 1, host), TreeOracle(false, fuel - 1, host);
      forall f: Value, a: seq<Value>, u: World
        ensures Refines(Some(Unclean), o.invoke(f, a, u), p.invoke(f, a, u))
      {
        WatchingChangesNothing(fuel - 1, host, f, a, u);
      }
      BodyRefines(Some(Unclean), o, p, fn.params, fn.body, fn.env, args, w);
      var r := EvalBody(o, fn.params, fn.body, fn.env, args, w);
      if r.Tail? {
        WatchingChangesNothing(fuel - 1, host, r.fn, r.args, r.w);
      }
    }
  }

  /** A run that ends is not changed by allowing it more. */
  lemma {:induction false} FuelMonotone(watch: bool, fuel: nat, more: nat, host: Host, fn: Value, args: seq<Value>,
      w: World)
    requires fuel <= more
    ensures Refines(Some(OutOfFuel), TreeInvoke(watch, fuel, host, fn, args, w),
        TreeInvoke(watch, more, host, fn, args, w))
    decreases fuel
  {
    if fn.Closure? && |fn.params| == |args| && fuel > 0
       && !(watch && ParseSequence(fn.body).Some? && !CleanBody(fn.body)) {
      var o, p := TreeOracle(watch, fuel - 1, host), TreeOracle(watch, more - 1, host);
      forall f: Value, a: seq<Value>, u: World
        ensures Refines(Some(OutOfFuel), o.invoke(f, a, u), p.invoke(f, a, u))
      {
        FuelMonotone(watch, fuel - 1, more - 1, host, f, a, u);
      }
      BodyRefines(Some(OutOfFuel), o, p, fn.params, fn.body, fn.env, args, w);
      var r := EvalBody(o, fn.params, fn.body, fn.env, args, w);
      if r.Tail? {
        FuelMonotone(watch, fuel - 1, more - 1, host, r.fn, r.args, r.w);
      }
    }
  }

  /** Whatever runs around it, no frame of an accepted body ends in an internal error of the machine. */
  lemma {:induction false} NoInternalFault(o: Oracle, params: seq<string>, body: seq<Value>, env: nat,
      args: seq<Value>, w: World)
    requires CompileClosure(params, body).Some? && |params| == |args|
    ensures
      var c := CompileClosure(params, body).value;
      Runnable(c.code) &&
      var end := Run(o, env, c.code, Start(c, args, w));
      !end.Fault? && (end.Reuse? ==> end.residue == [])
  {
    FrameBehaviour(o, params, body, env, args, w);
  }

  // ----- tail calls -----

  function PlainCode(params: seq<string>, body: seq<Value>): Code
    requires ParseSequence(body).Some?
  {
    CodeOf(ParseSequence(body).value, ParamScope(params), false, 0) + [ReturnValue]
  }

  lemma {:induction false} PlainRunnable(params: seq<string>, body: seq<Value>)
    requires ParseSequence(body).Some?
    ensures Runnable(PlainCode(params, body))
  {
    hide CodeOf, ParseSequence, Runnable, ForwardFrom, ParamScope;
    var f := ParseSequence(body).value;
    CodeForward(f, ParamScope(params), false, 0);
    ForwardRuns(CodeOf(f, ParamScope(params), false, 0));
  }

  /** The machine without frame reuse: a closure's last call nests like any other. */
  function NestedInvoke(fuel: nat, host: Host, fn: Value, args: seq<Value>, w: World): Answer
    decreases fuel, 1
  {
    match fn
    case Prim(id) => PrimCall(host, id, args, w)
    case Closure(params, body, env) =>
      if |params| != |args| then Exn(Arity(|params|, |args|), w)
      else if fuel == 0 then Abort(OutOfFuel)
      else if CompileClosure(params, body).Some? then
        PlainRunnable(params, body);
        var c := CompileClosure(params, body).value;
        match Run(NestedOracle(fuel - 1, host), env, PlainCode(params, body), Start(c, args, w))
        case Returned(r) => r
        case Reuse(_, _, _, _) => Exn(Internal(FellOffEnd), w)
        case Fault(kind) => Exn(Internal(kind), w)
      else
        Finish(NestedOracle(fuel - 1, host), EvalBody(NestedOracle(fuel - 1, host), params, body, env, args, w))
    case _ => Exn(NotCallable, w)
  }

  function NestedOracle(fuel: nat, host: Host): Oracle
    decreases fuel, 2
  {
    Oracle(host.lookup, (fn: Value, args: seq<Value>, w: World) => NestedInvoke(fuel, host, fn, args, w))
  }

  predicate FrameRefines(h: Option<Halt>, a: FrameEnd, b: FrameEnd) {
    (h.Some? && a == Returned(Abort(h.value))) || a == b
  }

  /** A frame run with a refined oracle ends in a refined way. */
  lemma {:induction false} RunRefines(h: Option<Halt>, o: Oracle, p: Oracle, env: nat, code: Code, m: Vm)
    requires Runnable(code) && OracleRefines(h, o, p)
    ensures FrameRefines(h, Run(o, env, code, m), Run(p, env, code, m))
    decreases |code| - m.ip
  {
    if m.ip < |code| {
      var t := Step(o, env, code[m.ip], m);
      if t == Step(p, env, code[m.ip], m) {
        if t.Next? {
          StepForward(o, env, code, m);
          RunRefines(h, o, p, env, code, t.m);
        }
      } else {
        StepRefines(h, o, p, env, code[m.ip], m);
      }
    }
  }

  lemma StepRefines(h: Option<Halt>, o: Oracle, p: Oracle, env: nat, i: Instr, m: Vm)
    requires OracleRefines(h, o, p)
    ensures
      var a, b := Step(o, env, i, m), Step(p, env, i, m);
      a == b || (h.Some? && a == Stop(Returned(Abort(h.value))))
  {
  }

  /** Form by form, the tail version of the code followed by its handed-over call is the plain version. */
  lemma {:induction false} TailFormNests(o: Oracle, env: nat, f: Form, sc: CScope, l: seq<Value>, w: World)
    requires Fits(Depth(f), sc, l)
    ensures Finish(o, SlotEval(o, env, f, sc, true, l, w).r) == SlotEval(o, env, f, sc, false, l, w).r
    decreases f
  {
    match f
    case Lit(_) =>
    case Ref(_) =>
    case If(c, t, e) =>
      SlotIf(o, env, f, sc, true, l, w);
      SlotIf(o, env, f, sc, false, l, w);
      var out := SlotEval(o, env, c, sc, false, l, w);
      if out.r.Val? {
        TailFormNests(o, env, t, sc, out.locals, out.r.w);
        TailFormNests(o, env, e, sc, out.locals, out.r.w);
      }
    case Then(a, b) => TailPairNests(o, env, f, sc, l, w);
    case And(a, b) => TailPairNests(o, env, f, sc, l, w);
    case Or(a, b) => TailPairNests(o, env, f, sc, l, w);
    case OrLast(e) =>
      TailFormNests(o, env, e, sc, l, w);
    case Let(bs, body) =>
      SlotLet(o, env, f, sc, true, l, w);
      SlotLet(o, env, f, sc, false, l, w);
      var got := SlotBinds(o, env, bs, sc, sc.next, l, w);
      if got.GotArgs? {
        TailFormNests(o, env, body, BindScope(sc, bs), got.locals, got.w);
      }
    case Call(fn, args) =>
      SlotCall(o, env, f, sc, true, l, w);
      SlotCall(o, env, f, sc, false, l, w);
  }

  lemma {:induction false} TailPairNests(o: Oracle, env: nat, f: Form, sc: CScope, l: seq<Value>, w: World)
    requires f.Then? || f.And? || f.Or?
    requires Fits(Depth(f), sc, l)
    ensures Finish(o, SlotEval(o, env, f, sc, true, l, w).r) == SlotEval(o, env, f, sc, false, l, w).r
    decreases f, 0
  {
    SlotPair(o, env, f, sc, true, l, w);
    SlotPair(o, env, f, sc, false, l, w);
    var out := SlotEval(o, env, f.first, sc, false, l, w);
    if out.r.Val? {
      TailFormNests(o, env, f.rest, sc, out.locals, out.r.w);
    }
  }

  /** Reusing the frame along a chain of tail calls, however long, answers as nested calls would. */
  lemma {:induction false} TailCallsNest(fuel: nat, host: Host, fn: Value, args: seq<Value>, w: World)
    ensures VmInvoke(fuel, host, fn, args, w) == NestedInvoke(fuel, host, fn, args, w)
    decreases fuel
  {
    if fn.Closure? && |fn.params| == |args| && fuel > 0 {
      var o, p := VmOracle(fuel - 1, host), NestedOracle(fuel - 1, host);
      forall f: Value, a: seq<Value>, u: World
        ensures Refines(None, o.invoke(f, a, u), p.invoke(f, a, u))
      {
        TailCallsNest(fuel - 1, host, f, a, u);
      }
      if CompileClosure(fn.params, fn.body).Some? {
        CompiledTailNests(o, p, fn.params, fn.body, fn.env, args, w);
      } else {
        BodyRefines(None, o, p, fn.params, fn.body, fn.env, args, w);
      }
    }
  }

  lemma {:induction false} CompiledTailNests(o: Oracle, p: Oracle, params: seq<string>, body: seq<Value>, env: nat,
      args: seq<Value>, w: World)
    requires CompileClosure(params, body).Some? && |params| == |args| && OracleRefines(None, o, p)
    ensures Runnable(CompileClosure(params, body).value.code) && Runnable(PlainCode(params, body))
    ensures
      var c := CompileClosure(params, body).value;
      var tail := Run(o, env, c.code, Start(c, args, w));
      var plain := Run(p, env, PlainCode(params, body), Start(c, args, w));
      && plain.Returned?
      && (tail.Returned? || tail.Reuse?)
      && (tail.Returned? ==> tail == plain)
      && (tail.Reuse? ==> plain.r == o.invoke(tail.fn, tail.args, tail.w))
  {
    hide CodeOf, SlotEval, Run, Depth, ParseSequence, ParamScope;
    var c := CompileClosure(params, body).value;
    var f := ParseSequence(body).value;
    var m := Start(c, args, w);
    FrameBehaviour(o, params, body, env, args, w);
    PlainRunnable(params, body);
    RunRefines(None, o, p, env, PlainCode(params, body), m);
    BodyRuns(o, env, f, ParamScope(params), false, m);
    TailFormNests(o, env, f, ParamScope(params), m.locals, w);
  }

  /** The runtime itself: more fuel never changes the answer of a run that ends. */
  lemma {:induction false} VmFuelMonotone(fuel: nat, more: nat, host: Host, fn: Value, args: seq<Value>, w: World)
    requires fuel <= more
    ensures Refines(Some(OutOfFuel), VmInvoke(fuel, host, fn, args, w), VmInvoke(more, host, fn, args, w))
    decreases fuel
  {
    hide CodeOf, Run, Start, ParseSequence, CompileClosure, Runnable, EvalBody, PrimCall;
    if fn.Closure? && |fn.params| == |args| && fuel > 0 {
      var o, p := VmOracle(fuel - 1, host), VmOracle(more - 1, host);
      forall f: Value, a: seq<Value>, u: World
        ensures Refines(Some(OutOfFuel), o.invoke(f, a, u), p.invoke(f, a, u))
      {
        VmFuelMonotone(fuel - 1, more - 1, host, f, a, u);
      }
      if CompileClosure(fn.params, fn.body).Some? {
        CompiledRunnable(fn.params, fn.body);
        var c := CompileClosure(fn.params, fn.body).value;
        RunRefines(Some(OutOfFuel), o, p, fn.env, c.code, Start(c, args, w));
        var end := Run(o, fn.env, c.code, Start(c, args, w));
        if end.Reuse? {
          VmFuelMonotone(fuel - 1, more - 1, host, end.fn, end.args, end.w);
        }
      } else {
        BodyRefines(Some(OutOfFuel), o, p, fn.params, fn.body, fn.env, args, w);
        var r := EvalBody(o, fn.params, fn.body, fn.env, args, w);
        if r.Tail? {
          VmFuelMonotone(fuel - 1, more - 1, host, r.fn, r.args, r.w);
        }
      }
    }
  }

  lemma {:induction false} NestedFuelMonotone(fuel: nat, more: nat, host: Host, fn: Value, args: seq<Value>, w: World)
    requires fuel <= more
    ensures Refines(Some(OutOfFuel), NestedInvoke(fuel, host, fn, args, w), NestedInvoke(more, host, fn, args, w))
  {
    VmFuelMonotone(fuel, more, host, fn, args, w);
    TailCallsNest(fuel, host, fn, args, w);
    TailCallsNest(more, host, fn, args, w);
  }

  // ----- the loop that runs a chain of tail calls -----

  /** `execute_compiled_closure`: one loop iteration per frame, the operand stack thrown away in between. */
  method ExecuteCompiledClosure(fuel: nat, host: Host, fn: Value, args: seq<Value>, w: World) returns (r: Answer)
    requires fn.Closure? && CompileClosure(fn.params, fn.body).Some?
    ensures r == VmInvoke(fuel, host, fn, args, w)
  {
    hide CodeOf, Run, ParseSequence, CompileClosure, Runnable, Start, EvalBody, PrimCall;
    var activeFn, activeArgs, world, left := fn, args, w, fuel;
    while true
      invariant activeFn.Closure? && CompileClosure(activeFn.params, activeFn.body).Some?
      invariant VmInvoke(left, host, activeFn, activeArgs, world) == VmInvoke(fuel, host, fn, args, w)
      decreases left
    {
      if |activeFn.params| != |activeArgs| {
        return Exn(Arity(|activeFn.params|, |activeArgs|), world);
      }
      if left == 0 {
        return Abort(OutOfFuel);
      }
      var compiled := CompileClosure(activeFn.params, activeFn.body).value;
      CompiledRunnable(activeFn.params, activeFn.body);
      var end, turns := RunFrame(VmOracle(left - 1, host), activeFn.env, compiled.code,
          Start(compiled, activeArgs, world));
      match end {
        case Returned(answer) =>
          return answer;
        case Fault(kind) =>
          return Exn(Internal(kind), world);
        case Reuse(callee, callArgs, after, _) =>
          if !(callee.Closure? && CompileClosure(callee.params, callee.body).Some?) {
            return VmInvoke(left - 1, host, callee, callArgs, after);
          }
          activeFn, activeArgs, world, left := callee, callArgs, after, left - 1;
      }
    }
  }
}
