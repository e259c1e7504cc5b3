/**
  Why bytecode and evaluator may differ, for every body the compiler accepts and with no condition on its shape.
  A run of the bytecode shows a cause when a let's binding has been overwritten by the time its body starts, or
  when an `or` whose exact value is needed outside tail position gives #f.  A run that shows neither agrees
  with the evaluator.
 */
module Causes {
  import opened Values
  import opened Forms
  import opened Bytecode
  import opened Machine
  import opened Simulation
  import opened Evaluator
  import opened FormSemantics
  import opened CompilerCorrectness
  import opened Positions
  import opened Runtime

  /** The bytecode run of the form meets one of the two causes. */
  ghost predicate Shows(o: Oracle, env: nat, f: Form, sc: CScope, u: Use, l: seq<Value>, w: World)
    requires Fits(Depth(f), sc, l)
    decreases f
  {
    match f
    case Lit(_) => false
    case Ref(_) => false
    case If(c, t, e) =>
      var out := SlotEval(o, env, c, sc, false, l, w);
      Shows(o, env, c, sc, Loose, l, w)
      || (out.r.Val? && if Truthy(out.r.v) then Shows(o, env, t, sc, u, out.locals, out.r.w)
                        else Shows(o, env, e, sc, u, out.locals, out.r.w))
    case Then(a, b) =>
      var out := SlotEval(o, env, a, sc, false, l, w);
      Shows(o, env, a, sc, Loose, l, w) || (out.r.Val? && Shows(o, env, b, sc, u, out.locals, out.r.w))
    case And(a, b) =>
      var out := SlotEval(o, env, a, sc, false, l, w);
      Shows(o, env, a, sc, FirstUse(f, u), l, w)
      || (out.r.Val? && Truthy(out.r.v) && Shows(o, env, b, sc, u, out.locals, out.r.w))
    case Or(a, b) =>
      var out := SlotEval(o, env, a, sc, false, l, w);
      Shows(o, env, a, sc, Loose, l, w)
      || (out.r.Val? && !Truthy(out.r.v) && Shows(o, env, b, sc, u, out.locals, out.r.w))
    case OrLast(e) =>
      var out := SlotEval(o, env, e, sc, u.TailUse?, l, w);
      Shows(o, env, e, sc, u, l, w) || (u.Exact? && out.r.Val? && out.r.v == Bool(false))
    case Let(bs, body) =>
      var got := SlotBinds(o, env, bs, sc, sc.next, l, w);
      BindScopeOk(sc, bs);
      BindsShow(o, env, bs, sc, sc.next, l, w)
      || (got.GotArgs? && (Overwritten(got.vals, got.locals, sc.next)
                           || Shows(o, env, body, BindScope(sc, bs), u, got.locals, got.w)))
    case Call(fn, args) =>
      var out := SlotEval(o, env, fn, sc, false, l, w);
      Shows(o, env, fn, sc, Exact, l, w) || (out.r.Val? && ArgsShow(o, env, args, sc, out.locals, out.r.w))
  }

  /** How the first part of a sequence, `and` or `or` is used. */
  function FirstUse(f: Form, u: Use): Use {
    if f.And? && !u.Loose? then Exact else Loose
  }

  /** Some binding no longer has its value. */
  predicate Overwritten(vals: seq<Value>, locals: seq<Value>, slot: nat) {
    slot + |vals| > |locals| || exists k :: 0 <= k < |vals| && locals[slot + k] != vals[k]
  }

  ghost predicate ArgsShow(o: Oracle, env: nat, args: Args, sc: CScope, l: seq<Value>, w: World)
    requires Fits(ArgsDepth(args), sc, l)
    decreases args
  {
    args.Arg? &&
    var out := SlotEval(o, env, args.head, sc, false, l, w);
    Shows(o, env, args.head, sc, Exact, l, w)
    || (out.r.Val? && ArgsShow(o, env, args.rest, sc, out.locals, out.r.w))
  }

  ghost predicate BindsShow(o: Oracle, env: nat, bs: Binds, sc: CScope, slot: nat, l: seq<Value>, w: World)
    requires Fits(BindsDepth(bs), sc, l) && slot + BindCount(bs) <= |l|
    decreases bs
  {
    bs.Bind? &&
    var out := SlotEval(o, env, bs.init, sc, false, l, w);
    Shows(o, env, bs.init, sc, Exact, l, w)
    || (out.r.Val? && BindsShow(o, env, bs.rest, sc, slot + 1, out.locals[slot := out.r.v], out.r.w))
  }

  /** Slots and scope fit together, and the run shows no cause. */
  ghost predicate Clear(o: Oracle, f: Form, sc: CScope, u: Use, l: seq<Value>, s: Scope, w: World) {
    Fits(Depth(f), sc, l) && Matches(sc, l, s) && !Shows(o, RootEnv(s), f, sc, u, l, w)
  }

  lemma {:induction false} ClearAgrees(o: Oracle, f: Form, sc: CScope, u: Use, l: seq<Value>, s: Scope, w: World)
    requires Clear(o, f, sc, u, l, s, w)
    ensures Agrees(o, f, sc, u, l, s, w)
    decreases f, 1
  {
    match f
    case Lit(_) =>
    case Ref(name) =>
      assert LocalOf(s, name) == SlotValue(sc, l, name);
      LookUpLocal(o, s, name, w);
    case If(_, _, _) => IfClear(o, f, sc, u, l, s, w);
    case Then(_, _) => PairClear(o, f, sc, u, l, s, w);
    case And(_, _) => PairClear(o, f, sc, u, l, s, w);
    case Or(_, _) => PairClear(o, f, sc, u, l, s, w);
    case OrLast(e) => ClearAgrees(o, e, sc, u, l, s, w);
    case Let(_, _) => LetClear(o, f, sc, u, l, s, w);
    case Call(_, _) => CallClear(o, f, sc, u, l, s, w);
  }

  lemma {:induction false} IfClear(o: Oracle, f: Form, sc: CScope, u: Use, l: seq<Value>, s: Scope, w: World)
    requires f.If? && Clear(o, f, sc, u, l, s, w)
    ensures Agrees(o, f, sc, u, l, s, w)
    decreases f, 0
  {
    var env := RootEnv(s);
    SlotIf(o, env, f, sc, u.TailUse?, l, w);
    ClearAgrees(o, f.test, sc, Loose, l, s, w);
    var out := SlotEval(o, env, f.test, sc, false, l, w);
    if out.r.Val? {
      Locality(o, env, f.test, sc, false, l, w);
      MatchesKept(sc, l, out.locals, s, sc.next + Depth(f.test));
      ClearAgrees(o, if Truthy(out.r.v) then f.thn else f.els, sc, u, out.locals, s, out.r.w);
    }
  }

  lemma {:induction false} PairClear(o: Oracle, f: Form, sc: CScope, u: Use, l: seq<Value>, s: Scope, w: World)
    requires (f.Then? || f.And? || f.Or?) && Clear(o, f, sc, u, l, s, w)
    ensures Agrees(o, f, sc, u, l, s, w)
    decreases f, 0
  {
    var env := RootEnv(s);
    SlotPair(o, env, f, sc, u.TailUse?, l, w);
    ClearAgrees(o, f.first, sc, FirstUse(f, u), l, s, w);
    var out := SlotEval(o, env, f.first, sc, false, l, w);
    if out.r.Val? && (f.And? ==> Truthy(out.r.v)) && (f.Or? ==> !Truthy(out.r.v)) {
      Locality(o, env, f.first, sc, false, l, w);
      MatchesKept(sc, l, out.locals, s, sc.next + Depth(f.first));
      ClearAgrees(o, f.rest, sc, u, out.locals, s, out.r.w);
    }
  }

  /** The frame a let binds, from the names and the values. */
  function BindAll(acc: map<string, Value>, bs: Binds, vals: seq<Value>): map<string, Value>
    requires |vals| == BindCount(bs)
    decreases bs
  {
    if bs.NoBinds? then acc else BindAll(acc[bs.name := vals[0]], bs.rest, vals[1..])
  }

  /** Bindings that still have their values match the frame of the evaluator. */
  lemma {:induction false} KeptBindsMatch(
    part: CScope, bs: Binds, vals: seq<Value>, l: seq<Value>, s: Scope, acc: map<string, Value>)
    requires Matches(part, l, Frame(acc, s)) && |vals| == BindCount(bs) && part.next + |vals| <= |l|
    requires forall k :: 0 <= k < |vals| ==> l[part.next + k] == vals[k]
    ensures Matches(BindScope(part, bs), l, Frame(BindAll(acc, bs, vals), s))
    decreases bs
  {
    if bs.Bind? {
      assert l[part.next + 0] == vals[0];
      MatchesBind(part, l, s, acc, bs.name, vals[0]);
      assert l[part.next := vals[0]] == l;
      var next := CScope(part.slots[bs.name := part.next], part.next + 1);
      forall k | 0 <= k < |vals[1..]|
        ensures l[next.next + k] == vals[1..][k]
      {
        assert l[part.next + (k + 1)] == vals[k + 1];
      }
      KeptBindsMatch(next, bs.rest, vals[1..], l, s, acc[bs.name := vals[0]]);
    }
  }

  lemma {:induction false} BindsClear(
    o: Oracle, bs: Binds, sc: CScope, slot: nat, l: seq<Value>, s: Scope, acc: map<string, Value>, w: World)
    requires Fits(BindsDepth(bs), sc, l) && sc.next <= slot && slot + BindCount(bs) <= |l|
    requires Matches(sc, l, s) && !BindsShow(o, RootEnv(s), bs, sc, slot, l, w)
    ensures
      var got := SlotBinds(o, RootEnv(s), bs, sc, slot, l, w);
      if got.NoGo? then FormBinds(o, bs, s, acc, w) == Unbindable(got.stop)
      else
        && FormBinds(o, bs, s, acc, w) == Bound(BindAll(acc, bs, got.vals), got.w)
        && Matches(sc, got.locals, s)
    decreases bs, 0
  {
    hide Clean, Untouched, Matches, Shows, FormEval, SlotEval, Depth, BindsDepth;
    if bs.Bind? {
      var env := RootEnv(s);
      BindsUnfold(o, env, bs, sc, slot, 0, l, w);
      ClearAgrees(o, bs.init, sc, Exact, l, s, w);
      var out := SlotEval(o, env, bs.init, sc, false, l, w);
      if out.r.Val? {
        var l2 := out.locals[slot := out.r.v];
        Locality(o, env, bs.init, sc, false, l, w);
        InitKeeps(l, out.locals, sc.next, slot, sc.next + Depth(bs.init), out.r.v);
        MatchesKept(sc, l, l2, s, |l|);
        BindsClear(o, bs.rest, sc, slot + 1, l2, s, acc[bs.name := out.r.v], out.r.w);
      }
    }
  }

  /** An initialiser and its store change nothing below the let's own slots. */
  lemma InitKeeps(l: seq<Value>, k: seq<Value>, next: nat, slot: nat, hi: nat, v: Value)
    requires Untouched(l, k, next, hi) && next <= slot < |l|
    ensures Untouched(l, k[slot := v], next, |l|)
  {
  }

  lemma {:induction false} LetClear(o: Oracle, f: Form, sc: CScope, u: Use, l: seq<Value>, s: Scope, w: World)
    requires f.Let? && Clear(o, f, sc, u, l, s, w)
    ensures Agrees(o, f, sc, u, l, s, w)
    decreases f, 0
  {
    hide Clean, Untouched, SlotBinds, FormBinds, BindsShow, BindScope;
    var env := RootEnv(s);
    SlotLet(o, env, f, sc, u.TailUse?, l, w);
    BindsClear(o, f.binds, sc, sc.next, l, s, map[], w);
    var got := SlotBinds(o, env, f.binds, sc, sc.next, l, w);
    if got.GotArgs? {
      var frame := Frame(BindAll(map[], f.binds, got.vals), s);
      EmptyFrame(sc, got.locals, s);
      KeptBindsMatch(sc, f.binds, got.vals, got.locals, s, map[]);
      assert RootEnv(frame) == env;
      ClearAgrees(o, f.body, BindScope(sc, f.binds), u, got.locals, frame, got.w);
    }
  }

  lemma EmptyFrame(sc: CScope, l: seq<Value>, s: Scope)
    requires Matches(sc, l, s)
    ensures Matches(sc, l, Frame(map[], s))
  {
    forall name: string
      ensures LocalOf(Frame(map[], s), name) == SlotValue(sc, l, name)
    {
      assert LocalOf(s, name) == SlotValue(sc, l, name);
    }
  }

  lemma {:induction false} CallClear(o: Oracle, f: Form, sc: CScope, u: Use, l: seq<Value>, s: Scope, w: World)
    requires f.Call? && Clear(o, f, sc, u, l, s, w)
    ensures Agrees(o, f, sc, u, l, s, w)
    decreases f, 0
  {
    var env := RootEnv(s);
    SlotCall(o, env, f, sc, u.TailUse?, l, w);
    ClearAgrees(o, f.fn, sc, Exact, l, s, w);
    var out := SlotEval(o, env, f.fn, sc, false, l, w);
    if out.r.Val? {
      Locality(o, env, f.fn, sc, false, l, w);
      MatchesKept(sc, l, out.locals, s, sc.next + Depth(f.fn));
      ArgsClear(o, f.args, sc, out.locals, s, out.r.w);
    }
  }

  lemma {:induction false} ArgsClear(o: Oracle, args: Args, sc: CScope, l: seq<Value>, s: Scope, w: World)
    requires Fits(ArgsDepth(args), sc, l) && Matches(sc, l, s) && !ArgsShow(o, RootEnv(s), args, sc, l, w)
    ensures
      var got := SlotEvalArgs(o, RootEnv(s), args, sc, l, w);
      FormArgs(o, args, s, w) == if got.NoGo? then Stopped(got.stop) else Evaluated(got.vals, got.w)
    decreases args, 0
  {
    if args.Arg? {
      ClearAgrees(o, args.head, sc, Exact, l, s, w);
      var out := SlotEval(o, RootEnv(s), args.head, sc, false, l, w);
      if out.r.Val? {
        Locality(o, RootEnv(s), args.head, sc, false, l, w);
        MatchesKept(sc, l, out.locals, s, sc.next + Depth(args.head));
        ArgsClear(o, args.rest, sc, out.locals, s, out.r.w);
      }
    }
  }

  /**
    For every body the compiler accepts: the frame ends exactly as the evaluator ends on the body, unless the run
    overwrote a binding of a let or needed the exact value of an `or` outside tail position that was #f.
   */
  lemma {:induction false} DifferencesHaveCauses(
    o: Oracle, params: seq<string>, body: seq<Value>, env: nat, args: seq<Value>, w: World)
    requires CompileClosure(params, body).Some? && |params| == |args|
    ensures
      var c := CompileClosure(params, body).value;
      && Runnable(c.code) && Fits(Depth(ParseSequence(body).value), ParamScope(params), Start(c, args, w).locals)
      && (Run(o, env, c.code, Start(c, args, w)) == FrameEndOf(EvalBody(o, params, body, env, args, w))
          || Shows(o, env, ParseSequence(body).value, ParamScope(params), TailUse, Start(c, args, w).locals, w))
  {
    hide CodeOf, SlotEval, FormEval, Run, Depth, ParseSequence, EvalSequence, ParamFrame, ParamScope, Matches, Runnable,
         Shows;
    var c := CompileClosure(params, body).value;
    var f := ParseSequence(body).value;
    var s := Frame(ParamFrame(params, args), Root(env));
    FrameBehaviour(o, params, body, env, args, w);
    ParamsMatch(params, args, Start(c, args, w).locals, env);
    assert RootEnv(s) == RootEnv(Root(env)) == env;
    if !Shows(o, env, f, ParamScope(params), TailUse, Start(c, args, w).locals, w) {
      ClearAgrees(o, f, ParamScope(params), TailUse, Start(c, args, w).locals, s, w);
      SequenceAgrees(o, body, s, true, w);
    }
  }

  // ----- whole programs -----

  /** The frame of a compiled call meets a cause. */
  ghost predicate FrameShows(o: Oracle, params: seq<string>, body: seq<Value>, env: nat, args: seq<Value>, w: World)
    requires CompileClosure(params, body).Some? && |params| == |args|
  {
    var c := CompileClosure(params, body).value;
    FrameBehaviour(o, params, body, env, args, w);
    Shows(o, env, ParseSequence(body).value, ParamScope(params), TailUse, Start(c, args, w).locals, w)
  }

  /** The runtime, stopped at the first compiled frame that meets a cause. */
  ghost function WatchedVm(fuel: nat, host: Host, fn: Value, args: seq<Value>, w: World): Answer
    decreases fuel, 1
  {
    match fn
    case Prim(id) => PrimCall(host, id, args, w)
    case Closure(params, body, env) =>
      if |params| != |args| then Exn(Arity(|params|, |args|), w)
      else if fuel == 0 then Abort(OutOfFuel)
      else if CompileClosure(params, body).Some? then
        var o := WatchedOracle(fuel - 1, host);
        if FrameShows(o, params, body, env, args, w) then Abort(Unclean)
        else
          CompiledRunnable(params, body);
          var c := CompileClosure(params, body).value;
          match Run(o, env, c.code, Start(c, args, w))
          case Returned(r) => r
          case Reuse(fn2, args2, w2, _) => WatchedVm(fuel - 1, host, fn2, args2, w2)
          case Fault(kind) => Exn(Internal(kind), w)
      else
        var r := EvalBody(WatchedOracle(fuel - 1, host), params, body, env, args, w);
        if r.Tail? then WatchedVm(fuel - 1, host, r.fn, r.args, r.w) else r
    case _ => Exn(NotCallable, w)
  }

  ghost function WatchedOracle(fuel: nat, host: Host): Oracle
    decreases fuel, 2
  {
    Oracle(host.lookup, (fn: Value, args: seq<Value>, w: World) => WatchedVm(fuel, host, fn, args, w))
  }

  lemma {:induction false} WatchedIsVm(fuel: nat, host: Host, fn: Value, args: seq<Value>, w: World)
    ensures Refines(Some(Unclean), WatchedVm(fuel, host, fn, args, w), VmInvoke(fuel, host, fn, args, w))
    decreases fuel
  {
    hide CodeOf, Run, Start, ParseSequence, CompileClosure, Runnable, EvalBody, PrimCall, FrameShows;
    if fn.Closure? && |fn.params| == |args| && fuel > 0 {
      var o, p := WatchedOracle(fuel - 1, host), VmOracle(fuel - 1, host);
      forall f: Value, a: seq<Value>, u: World
        ensures Refines(Some(Unclean), o.invoke(f, a, u), p.invoke(f, a, u))
      {
        WatchedIsVm(fuel - 1, host, f, a, u);
      }
      if CompileClosure(fn.params, fn.body).Some? {
        CompiledRunnable(fn.params, fn.body);
        var c := CompileClosure(fn.params, fn.body).value;
        RunRefines(Some(Unclean), o, p, fn.env, c.code, Start(c, args, w));
        var end := Run(o, fn.env, c.code, Start(c, args, w));
        if end.Reuse? {
          WatchedIsVm(fuel - 1, host, end.fn, end.args, end.w);
        }
      } else {
        BodyRefines(Some(Unclean), o, p, fn.params, fn.body, fn.env, args, w);
        var r := EvalBody(o, fn.params, fn.body, fn.env, args, w);
        if r.Tail? {
          WatchedIsVm(fuel - 1, host, r.fn, r.args, r.w);
        }
      }
    }
  }

  lemma {:induction false} WatchedIsTree(fuel: nat, host: Host, fn: Value, args: seq<Value>, w: World)
    ensures Refines(Some(Unclean), WatchedVm(fuel, host, fn, args, w), TreeInvoke(false, fuel, host, fn, args, w))
    decreases fuel
  {
    hide CodeOf, Run, Start, ParseSequence, CompileClosure, Runnable, EvalBody, PrimCall, FrameShows, CleanBody;
    if fn.Closure? && |fn.params| == |args| && fuel > 0 {
      var o, p := WatchedOracle(fuel - 1, host), TreeOracle(false, fuel - 1, host);
      forall f: Value, a: seq<Value>, u: World
        ensures Refines(Some(Unclean), o.invoke(f, a, u), p.invoke(f, a, u))
      {
        WatchedIsTree(fuel - 1, host, f, a, u);
      }
      BodyRefines(Some(Unclean), o, p, fn.params, fn.body, fn.env, args, w);
      var r := EvalBody(o, fn.params, fn.body, fn.env, args, w);
      if CompileClosure(fn.params, fn.body).Some? {
        FrameHasCause(o, fn.params, fn.body, fn.env, args, w);
      }
      if r.Tail? {
        WatchedIsTree(fuel - 1, host, r.fn, r.args, r.w);
      }
    }
  }

  lemma FrameHasCause(o: Oracle, params: seq<string>, body: seq<Value>, env: nat, args: seq<Value>, w: World)
    requires CompileClosure(params, body).Some? && |params| == |args|
    ensures
      var c := CompileClosure(params, body).value;
      && Runnable(c.code)
      && (FrameShows(o, params, body, env, args, w)
          || Run(o, env, c.code, Start(c, args, w)) == FrameEndOf(EvalBody(o, params, body, env, args, w)))
  {
    hide Run, EvalBody, Shows, ParseSequence, Runnable;
    DifferencesHaveCauses(o, params, body, env, args, w);
  }

  /**
    Every run of every program: unless some compiled frame overwrites a binding or needs an `or` that is #f, the
    runtime answers as the tree evaluator does.
   */
  lemma RunsAgreeUnlessShown(fuel: nat, host: Host, fn: Value, args: seq<Value>, w: World)
    ensures VmInvoke(fuel, host, fn, args, w) == TreeInvoke(false, fuel, host, fn, args, w)
            || WatchedVm(fuel, host, fn, args, w) == Abort(Unclean)
  {
    hide VmInvoke, TreeInvoke, WatchedVm;
    WatchedIsVm(fuel, host, fn, args, w);
    WatchedIsTree(fuel, host, fn, args, w);
  }
}
