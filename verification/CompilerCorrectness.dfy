/**
  Compiled closures against the tree evaluator.

  Bytecode and evaluator differ in two places: outside tail position an `or` of falsy values is nil
  in the evaluator and its last value in bytecode, and a `let` inside a later initialiser reuses the
  slots of the same let's earlier bindings.  `Clean` rules out all uses where that shows.
 */
module CompilerCorrectness {
  import opened Values
  import opened Forms
  import opened Bytecode
  import opened Machine
  import opened Simulation
  import opened Evaluator
  import opened FormSemantics

  // ----- slot locality -----

  predicate Untouched(l: seq<Value>, k: seq<Value>, lo: nat, hi: nat) {
    |l| == |k| && forall i :: 0 <= i < |l| && !(lo <= i < hi) ==> l[i] == k[i]
  }

  /** Code compiled under a scope writes only the slots its own lets allocate above it. */
  lemma {:induction false} Locality(o: Oracle, env: nat, f: Form, sc: CScope, tail: bool, l: seq<Value>, w: World)
    requires Fits(Depth(f), sc, l)
    ensures Untouched(l, SlotEval(o, env, f, sc, tail, l, w).locals, sc.next, sc.next + Depth(f))
    decreases f
  {
    match f
    case Lit(_) =>
    case Ref(_) =>
    case If(_, _, _) => IfLocality(o, env, f, sc, tail, l, w);
    case Then(a, b) => PairLocality(o, env, f, sc, tail, l, w);
    case And(a, b) => PairLocality(o, env, f, sc, tail, l, w);
    case Or(a, b) => PairLocality(o, env, f, sc, tail, l, w);
    case OrLast(e) => Locality(o, env, e, sc, tail, l, w);
    case Let(_, _) => LetLocality(o, env, f, sc, tail, l, w);
    case Call(_, _) => CallLocality(o, env, f, sc, tail, l, w);
  }

  lemma {:induction false} IfLocality(o: Oracle, env: nat, f: Form, sc: CScope, tail: bool, l: seq<Value>, w: World)
    requires f.If? && Fits(Depth(f), sc, l)
    ensures Untouched(l, SlotEval(o, env, f, sc, tail, l, w).locals, sc.next, sc.next + Depth(f))
    decreases f, 0
  {
    SlotIf(o, env, f, sc, tail, l, w);
    Locality(o, env, f.test, sc, false, l, w);
    var out := SlotEval(o, env, f.test, sc, false, l, w);
    if out.r.Val? {
      Locality(o, env, f.thn, sc, tail, out.locals, out.r.w);
      Locality(o, env, f.els, sc, tail, out.locals, out.r.w);
    }
  }

  lemma {:induction false} LetLocality(o: Oracle, env: nat, f: Form, sc: CScope, tail: bool, l: seq<Value>, w: World)
    requires f.Let? && Fits(Depth(f), sc, l)
    ensures Untouched(l, SlotEval(o, env, f, sc, tail, l, w).locals, sc.next, sc.next + Depth(f))
    decreases f, 0
  {
    SlotLet(o, env, f, sc, tail, l, w);
    BindScopeOk(sc, f.binds);
    BindsLocality(o, env, f.binds, sc, sc.next, l, w);
    var got := SlotBinds(o, env, f.binds, sc, sc.next, l, w);
    if got.GotArgs? {
      Locality(o, env, f.body, BindScope(sc, f.binds), tail, got.locals, got.w);
    }
  }

  lemma {:induction false} CallLocality(o: Oracle, env: nat, f: Form, sc: CScope, tail: bool, l: seq<Value>, w: World)
    requires f.Call? && Fits(Depth(f), sc, l)
    ensures Untouched(l, SlotEval(o, env, f, sc, tail, l, w).locals, sc.next, sc.next + Depth(f))
    decreases f, 0
  {
    SlotCall(o, env, f, sc, tail, l, w);
    Locality(o, env, f.fn, sc, false, l, w);
    var out := SlotEval(o, env, f.fn, sc, false, l, w);
    if out.r.Val? {
      ArgsLocality(o, env, f.args, sc, out.locals, out.r.w);
    }
  }

  lemma {:induction false} PairLocality(o: Oracle, env: nat, f: Form, sc: CScope, tail: bool, l: seq<Value>, w: World)
    requires f.Then? || f.And? || f.Or?
    requires Fits(Depth(f), sc, l)
    ensures Untouched(l, SlotEval(o, env, f, sc, tail, l, w).locals, sc.next, sc.next + Depth(f))
    decreases f, 0
  {
    SlotPair(o, env, f, sc, tail, l, w);
    Locality(o, env, f.first, sc, false, l, w);
    var out := SlotEval(o, env, f.first, sc, false, l, w);
    if out.r.Val? {
      Locality(o, env, f.rest, sc, tail, out.locals, out.r.w);
    }
  }

  lemma {:induction false} ArgsLocality(o: Oracle, env: nat, args: Args, sc: CScope, l: seq<Value>, w: World)
    requires Fits(ArgsDepth(args), sc, l)
    ensures
      var got := SlotEvalArgs(o, env, args, sc, l, w);
      got.GotArgs? ==> Untouched(l, got.locals, sc.next, sc.next + ArgsDepth(args))
    decreases args
  {
    if args.Arg? {
      Locality(o, env, args.head, sc, false, l, w);
      var out := SlotEval(o, env, args.head, sc, false, l, w);
      if out.r.Val? {
        ArgsLocality(o, env, args.rest, sc, out.locals, out.r.w);
      }
    }
  }

  lemma {:induction false} BindsLocality(o: Oracle, env: nat, bs: Binds, sc: CScope, slot: nat, l: seq<Value>, w: World)
    requires Fits(BindsDepth(bs), sc, l) && sc.next <= slot && slot + BindCount(bs) <= |l|
    ensures
      var got := SlotBinds(o, env, bs, sc, slot, l, w);
      got.GotArgs? ==> Untouched(l, got.locals, sc.next, Max(sc.next + BindsDepth(bs), slot + BindCount(bs)))
    decreases bs
  {
    if bs.Bind? {
      Locality(o, env, bs.init, sc, false, l, w);
      var out := SlotEval(o, env, bs.init, sc, false, l, w);
      if out.r.Val? {
        BindsLocality(o, env, bs.rest, sc, slot + 1, out.locals[slot := out.r.v], out.r.w);
      }
    }
  }

  // ----- where bytecode and evaluator agree -----

  /** How the value of a form is used: returned from the frame, needed exactly, or only tested or dropped. */
  datatype Use = TailUse | Exact | Loose

  predicate Clean(f: Form, u: Use)
    decreases f
  {
    match f
    case Lit(_) => true
    case Ref(_) => true
    case If(c, t, e) => Clean(c, Loose) && Clean(t, u) && Clean(e, u)
    case Then(a, b) => Clean(a, Loose) && Clean(b, u)
    case And(a, b) => Clean(a, if u.Loose? then Loose else Exact) && Clean(b, u)
    case Or(a, b) => Clean(a, Loose) && Clean(b, u)
    case OrLast(e) => Clean(e, u) && (u.Exact? ==> NeverFalse(e))
    case Let(bs, body) => CleanBinds(bs, true) && Clean(body, u)
    case Call(fn, args) => Clean(fn, Exact) && CleanArgs(args)
  }

  predicate CleanArgs(args: Args)
    decreases args
  {
    args.Arg? ==> Clean(args.head, Exact) && CleanArgs(args.rest)
  }

  /** Only the first initialiser of a let may itself allocate slots. */
  predicate CleanBinds(bs: Binds, first: bool)
    decreases bs
  {
    bs.Bind? ==> Clean(bs.init, Exact) && (first || Depth(bs.init) == 0) && CleanBinds(bs.rest, false)
  }

  /** Forms whose non-tail value cannot be #f. */
  predicate NeverFalse(f: Form) {
    match f
    case Lit(v) => v != Bool(false)
    case Ref(_) => false
    case If(_, t, e) => NeverFalse(t) && NeverFalse(e)
    case Then(_, b) => NeverFalse(b)
    case And(a, b) => NeverFalse(a) && NeverFalse(b)
    case Or(_, b) => NeverFalse(b)
    case OrLast(_) => true
    case Let(_, body) => NeverFalse(body)
    case Call(_, _) => false
  }

  lemma {:induction false} NeverFalseSound(o: Oracle, f: Form, s: Scope, w: World)
    requires NeverFalse(f)
    ensures
      var r := FormEval(o, f, s, false, w);
      r.Val? ==> r.v != Bool(false)
    decreases f
  {
    match f
    case Lit(_) =>
    case If(c, t, e) =>
      var test := FormEval(o, c, s, false, w);
      if test.Val? {
        NeverFalseSound(o, t, s, test.w);
        NeverFalseSound(o, e, s, test.w);
      }
    case Then(a, b) =>
      var first := FormEval(o, a, s, false, w);
      if first.Val? {
        NeverFalseSound(o, b, s, first.w);
      }
    case And(a, b) =>
      NeverFalseSound(o, a, s, w);
      var first := FormEval(o, a, s, false, w);
      if first.Val? {
        NeverFalseSound(o, b, s, first.w);
      }
    case Or(a, b) =>
      var first := FormEval(o, a, s, false, w);
      if first.Val? {
        NeverFalseSound(o, b, s, first.w);
      }
    case OrLast(_) =>
    case Let(bs, body) =>
      var got := FormBinds(o, bs, s, map[], w);
      if got.Bound? {
        NeverFalseSound(o, body, Frame(got.bindings, s), got.w);
      }
  }

  // ----- environments against slots -----

  function LocalOf(s: Scope, name: string): Option<Value> {
    match s
    case Root(_) => None
    case Frame(b, parent) => if name in b then Some(b[name]) else LocalOf(parent, name)
  }

  lemma LookUpLocal(o: Oracle, s: Scope, name: string, w: World)
    ensures LookUp(o, s, name, w)
         == if LocalOf(s, name).Some? then Val(LocalOf(s, name).value, w) else Global(o, RootEnv(s), name, w)
  {
  }

  function SlotValue(sc: CScope, l: seq<Value>, name: string): Option<Value> {
    if name in sc.slots && sc.slots[name] < |l| then Some(l[sc.slots[name]]) else None
  }

  /** The frames of the evaluator and the slots of the machine hold the same variables. */
  ghost predicate Matches(sc: CScope, l: seq<Value>, s: Scope) {
    && ScopeOk(sc) && sc.next <= |l|
    && forall name: string :: LocalOf(s, name) == SlotValue(sc, l, name)
  }

  lemma MatchesKept(sc: CScope, l: seq<Value>, k: seq<Value>, s: Scope, hi: nat)
    requires Matches(sc, l, s) && Untouched(l, k, sc.next, hi)
    ensures Matches(sc, k, s)
  {
    forall name: string
      ensures LocalOf(s, name) == SlotValue(sc, k, name)
    {
      assert LocalOf(s, name) == SlotValue(sc, l, name);
    }
  }

  lemma MatchesBind(sc: CScope, l: seq<Value>, s: Scope, acc: map<string, Value>, name: string, v: Value)
    requires Matches(sc, l, Frame(acc, s)) && sc.next < |l|
    ensures Matches(CScope(sc.slots[name := sc.next], sc.next + 1), l[sc.next := v], Frame(acc[name := v], s))
  {
    var sc2, l2, s2 := CScope(sc.slots[name := sc.next], sc.next + 1), l[sc.next := v], Frame(acc[name := v], s);
    forall n: string
      ensures LocalOf(s2, n) == SlotValue(sc2, l2, n)
    {
      assert LocalOf(Frame(acc, s), n) == SlotValue(sc, l, n);
    }
  }

  predicate Same(u: Use, a: Outcome, b: Outcome) {
    a == b || (u.Loose? && a.Val? && b.Val? && a.w == b.w && !Truthy(a.v) && !Truthy(b.v))
  }

  ghost predicate Related(f: Form, sc: CScope, u: Use, l: seq<Value>, s: Scope) {
    Clean(f, u) && Fits(Depth(f), sc, l) && Matches(sc, l, s)
  }

  ghost predicate Agrees(o: Oracle, f: Form, sc: CScope, u: Use, l: seq<Value>, s: Scope, w: World)
    requires Fits(Depth(f), sc, l)
  {
    Same(u, SlotEval(o, RootEnv(s), f, sc, u.TailUse?, l, w).r, FormEval(o, f, s, u.TailUse?, w))
  }

  lemma {:induction false} SlotsAgree(o: Oracle, f: Form, sc: CScope, u: Use, l: seq<Value>, s: Scope, w: World)
    requires Related(f, sc, u, l, s)
    ensures Agrees(o, f, sc, u, l, s, w)
    decreases f, 1
  {
    match f
    case Lit(_) =>
    case Ref(name) =>
      assert LocalOf(s, name) == SlotValue(sc, l, name);
      LookUpLocal(o, s, name, w);
    case If(_, _, _) => IfAgree(o, f, sc, u, l, s, w);
    case Then(_, _) => PairAgree(o, f, sc, u, l, s, w);
    case And(_, _) => PairAgree(o, f, sc, u, l, s, w);
    case Or(_, _) => PairAgree(o, f, sc, u, l, s, w);
    case OrLast(_) => OrLastAgree(o, f, sc, u, l, s, w);
    case Let(_, _) => LetAgree(o, f, sc, u, l, s, w);
    case Call(_, _) => CallAgree(o, f, sc, u, l, s, w);
  }

  lemma {:induction false} IfAgree(o: Oracle, f: Form, sc: CScope, u: Use, l: seq<Value>, s: Scope, w: World)
    requires f.If? && Related(f, sc, u, l, s)
    ensures Agrees(o, f, sc, u, l, s, w)
    decreases f, 0
  {
    var env, tail := RootEnv(s), u.TailUse?;
    SlotIf(o, env, f, sc, tail, l, w);
    SlotsAgree(o, f.test, sc, Loose, l, s, w);
    var out := SlotEval(o, env, f.test, sc, false, l, w);
    if out.r.Val? {
      Locality(o, env, f.test, sc, false, l, w);
      MatchesKept(sc, l, out.locals, s, sc.next + Depth(f.test));
      SlotsAgree(o, f.thn, sc, u, out.locals, s, out.r.w);
      SlotsAgree(o, f.els, sc, u, out.locals, s, out.r.w);
    }
  }

  lemma {:induction false} PairAgree(o: Oracle, f: Form, sc: CScope, u: Use, l: seq<Value>, s: Scope, w: World)
    requires (f.Then? || f.And? || f.Or?) && Related(f, sc, u, l, s)
    ensures Agrees(o, f, sc, u, l, s, w)
    decreases f, 0
  {
    var env, tail := RootEnv(s), u.TailUse?;
    SlotPair(o, env, f, sc, tail, l, w);
    SlotsAgree(o, f.first, sc, if f.And? && !u.Loose? then Exact else Loose, l, s, w);
    var out := SlotEval(o, env, f.first, sc, false, l, w);
    if out.r.Val? {
      Locality(o, env, f.first, sc, false, l, w);
      MatchesKept(sc, l, out.locals, s, sc.next + Depth(f.first));
      SlotsAgree(o, f.rest, sc, u, out.locals, s, out.r.w);
    }
  }

  lemma {:induction false} OrLastAgree(o: Oracle, f: Form, sc: CScope, u: Use, l: seq<Value>, s: Scope, w: World)
    requires f.OrLast? && Related(f, sc, u, l, s)
    ensures Agrees(o, f, sc, u, l, s, w)
    decreases f, 0
  {
    SlotsAgree(o, f.last, sc, u, l, s, w);
    if u.Exact? {
      NeverFalseSound(o, f.last, s, w);
    }
  }

  lemma {:induction false} LetAgree(o: Oracle, f: Form, sc: CScope, u: Use, l: seq<Value>, s: Scope, w: World)
    requires f.Let? && Related(f, sc, u, l, s)
    ensures Agrees(o, f, sc, u, l, s, w)
    decreases f, 0
  {
    SlotLet(o, RootEnv(s), f, sc, u.TailUse?, l, w);
    assert Matches(sc, l, Frame(map[], s)) by {
      forall name: string ensures LocalOf(Frame(map[], s), name) == SlotValue(sc, l, name) {
        assert LocalOf(s, name) == SlotValue(sc, l, name);
      }
    }
    BindsMatch(o, f.binds, sc, sc, l, s, map[], w);
    var got := SlotBinds(o, RootEnv(s), f.binds, sc, sc.next, l, w);
    if got.GotArgs? {
      var fb := FormBinds(o, f.binds, s, map[], w);
      SlotsAgree(o, f.body, BindScope(sc, f.binds), u, got.locals, Frame(fb.bindings, s), got.w);
    }
  }

  /** An initialiser and its store, seen from the bindings before it and from the outer scope. */
  lemma InitTouches(l: seq<Value>, k: seq<Value>, next: nat, slot: nat, depth: nat, v: Value)
    requires Untouched(l, k, next, next + depth) && next <= slot < |l| && (slot == next || depth == 0)
    ensures Untouched(l, k, slot, next + depth)
    ensures Untouched(l, k[slot := v], next, |l|)
  {
  }

  /** `part` is the body scope as far as the bindings before `bs` have extended it. */
  lemma {:induction false} BindsMatch(o: Oracle, bs: Binds, sc: CScope, part: CScope, l: seq<Value>, s: Scope,
                                      acc: map<string, Value>, w: World)
    requires Fits(BindsDepth(bs), sc, l) && sc.next <= part.next && part.next + BindCount(bs) <= |l|
    requires CleanBinds(bs, part.next == sc.next)
    requires Matches(sc, l, s) && Matches(part, l, Frame(acc, s))
    ensures
      var got := SlotBinds(o, RootEnv(s), bs, sc, part.next, l, w);
      var fb := FormBinds(o, bs, s, acc, w);
      if got.NoGo? then fb == Unbindable(got.stop)
      else fb.Bound? && fb.w == got.w && Matches(BindScope(part, bs), got.locals, Frame(fb.bindings, s))
    decreases bs, 1
  {
    if bs.Bind? {
      BindsMatchStep(o, bs, sc, part, l, s, acc, w);
    }
  }

  lemma {:induction false} BindsMatchStep(o: Oracle, bs: Binds, sc: CScope, part: CScope, l: seq<Value>, s: Scope,
                                          acc: map<string, Value>, w: World)
    requires bs.Bind?
    requires Fits(BindsDepth(bs), sc, l) && sc.next <= part.next && part.next + BindCount(bs) <= |l|
    requires CleanBinds(bs, part.next == sc.next)
    requires Matches(sc, l, s) && Matches(part, l, Frame(acc, s))
    ensures
      var got := SlotBinds(o, RootEnv(s), bs, sc, part.next, l, w);
      var fb := FormBinds(o, bs, s, acc, w);
      if got.NoGo? then fb == Unbindable(got.stop)
      else fb.Bound? && fb.w == got.w && Matches(BindScope(part, bs), got.locals, Frame(fb.bindings, s))
    decreases bs, 0
  {
    hide SlotEval, SlotBinds, FormEval, Clean, Depth, BindsDepth, Matches, Untouched, Fits;
    BindsUnfold(o, RootEnv(s), bs, sc, part.next, 0, l, w);
    SlotsAgree(o, bs.init, sc, Exact, l, s, w);
    var out := SlotEval(o, RootEnv(s), bs.init, sc, false, l, w);
    if out.r.Val? {
      Locality(o, RootEnv(s), bs.init, sc, false, l, w);
      InitTouches(l, out.locals, sc.next, part.next, Depth(bs.init), out.r.v);
      MatchesKept(part, l, out.locals, Frame(acc, s), sc.next + Depth(bs.init));
      MatchesBind(part, out.locals, s, acc, bs.name, out.r.v);
      var l2 := out.locals[part.next := out.r.v];
      MatchesKept(sc, l, l2, s, |l|);
      BindsMatch(o, bs.rest, sc, CScope(part.slots[bs.name := part.next], part.next + 1), l2, s,
          acc[bs.name := out.r.v], out.r.w);
    }
  }

  lemma {:induction false} CallAgree(o: Oracle, f: Form, sc: CScope, u: Use, l: seq<Value>, s: Scope, w: World)
    requires f.Call? && Related(f, sc, u, l, s)
    ensures Agrees(o, f, sc, u, l, s, w)
    decreases f, 0
  {
    var env := RootEnv(s);
    SlotCall(o, env, f, sc, u.TailUse?, l, w);
    SlotsAgree(o, f.fn, sc, Exact, l, s, w);
    var out := SlotEval(o, env, f.fn, sc, false, l, w);
    if out.r.Val? {
      Locality(o, env, f.fn, sc, false, l, w);
      MatchesKept(sc, l, out.locals, s, sc.next + Depth(f.fn));
      ArgsMatch(o, f.args, sc, out.locals, s, out.r.w);
    }
  }

  lemma {:induction false} ArgsMatch(o: Oracle, args: Args, sc: CScope, l: seq<Value>, s: Scope, w: World)
    requires CleanArgs(args) && Fits(ArgsDepth(args), sc, l) && Matches(sc, l, s)
    ensures
      var got := SlotEvalArgs(o, RootEnv(s), args, sc, l, w);
      FormArgs(o, args, s, w) == if got.NoGo? then Stopped(got.stop) else Evaluated(got.vals, got.w)
    decreases args
  {
    if args.Arg? {
      SlotsAgree(o, args.head, sc, Exact, l, s, w);
      var out := SlotEval(o, RootEnv(s), args.head, sc, false, l, w);
      if out.r.Val? {
        Locality(o, RootEnv(s), args.head, sc, false, l, w);
        MatchesKept(sc, l, out.locals, s, sc.next + Depth(args.head));
        ArgsMatch(o, args.rest, sc, out.locals, s, out.r.w);
      }
    }
  }

  // ----- whole frames -----

  function Nils(n: nat): (s: seq<Value>)
    ensures |s| == n
  {
    seq(n, _ => Nil)
  }

  /** A fresh frame: arguments in the first slots, nil in the others, an empty operand stack. */
  function Start(c: Compiled, args: seq<Value>, w: World): Vm {
    Vm(0, [], if |args| <= c.localCount then args + Nils(c.localCount - |args|) else args, w)
  }

  function FrameEndOf(r: Outcome): FrameEnd {
    if r.Tail? then Reuse(r.fn, r.args, r.w, []) else Returned(r)
  }

  lemma RunReturn(o: Oracle, env: nat, code: Code, m: Vm, v: Value)
    requires Runnable(code) && Holds(code, m.ip, [ReturnValue]) && m.stack == [v]
    ensures Run(o, env, code, m) == Returned(Val(v, m.world))
  {
    RunOne(o, env, code, m, ReturnValue);
  }

  /** The machine on a whole compiled body, with or without tail calls. */
  lemma {:induction false} BodyRuns(o: Oracle, env: nat, f: Form, sc: CScope, tail: bool, m: Vm)
    requires Fits(Depth(f), sc, m.locals) && m.ip == 0 && m.stack == []
    ensures Runnable(CodeOf(f, sc, tail, 0) + [ReturnValue])
    ensures Run(o, env, CodeOf(f, sc, tail, 0) + [ReturnValue], m)
         == FrameEndOf(SlotEval(o, env, f, sc, tail, m.locals, m.world).r)
  {
    var body := CodeOf(f, sc, tail, 0);
    var code := body + [ReturnValue];
    CodeForward(f, sc, tail, 0);
    hide CodeOf, SlotEval, Run, Depth;
    assert Runnable(code);
    assert code[0..0 + |code|] == code;
    HoldsSplit(code, 0, body, [ReturnValue]);
    Sim(o, env, code, f, sc, tail, m);
    var out := SlotEval(o, env, f, sc, tail, m.locals, m.world);
    if out.r.Val? {
      assert m.stack + [out.r.v] == [out.r.v];
      RunReturn(o, env, code, Vm(|body|, [out.r.v], out.locals, out.r.w), out.r.v);
    }
  }

  lemma {:induction false} ParamsMatch(params: seq<string>, args: seq<Value>, l: seq<Value>, env: nat)
    requires |params| == |args| <= |l| && l[..|args|] == args
    ensures Matches(ParamScope(params), l, Frame(ParamFrame(params, args), Root(env)))
    decreases |params|
  {
    var n := |params| - 1;
    if params == [] {
      forall name: string ensures LocalOf(Frame(map[], Root(env)), name) == SlotValue(CScope(map[], 0), l, name) {
      }
    } else {
      assert l[..n] == args[..n];
      assert l[n] == args[n];
      ParamsMatch(params[..n], args[..n], l, env);
      MatchesBind(ParamScope(params[..n]), l, Root(env), ParamFrame(params[..n], args[..n]), params[n], args[n]);
      assert l[n := args[n]] == l;
    }
  }

  /** Side condition on a closure body: no clash of `Clean` in any form of it. */
  predicate CleanBody(body: seq<Value>) {
    ParseSequence(body).Some? ==> Clean(ParseSequence(body).value, TailUse)
  }

  /** What a frame of an accepted body does, with no side condition: it never faults. */
  lemma {:induction false} FrameBehaviour(o: Oracle, params: seq<string>, body: seq<Value>, env: nat,
      args: seq<Value>, w: World)
    requires CompileClosure(params, body).Some? && |params| == |args|
    ensures
      var c := CompileClosure(params, body).value;
      && Runnable(c.code)
      && |Start(c, args, w).locals| == c.localCount
      && Fits(Depth(ParseSequence(body).value), ParamScope(params), Start(c, args, w).locals)
      && Run(o, env, c.code, Start(c, args, w))
         == FrameEndOf(SlotEval(o, env, ParseSequence(body).value, ParamScope(params), true, Start(c, args, w).locals,
             w).r)
  {
    var c := CompileClosure(params, body).value;
    BodyRuns(o, env, ParseSequence(body).value, ParamScope(params), true, Start(c, args, w));
  }

  /**
    Compiler correctness, frame by frame: for every oracle, a compiled frame ends exactly as the
    evaluator ends on the same body - same value, error or tail call, after the same outside calls.
   */
  lemma {:induction false} CompiledFrameCorrect(o: Oracle, params: seq<string>, body: seq<Value>, env: nat,
      args: seq<Value>, w: World)
    requires CompileClosure(params, body).Some? && |params| == |args|
    requires CleanBody(body)
    ensures
      var c := CompileClosure(params, body).value;
      && Runnable(c.code)
      && Run(o, env, c.code, Start(c, args, w)) == FrameEndOf(EvalBody(o, params, body, env, args, w))
  {
    hide CodeOf, SlotEval, FormEval, Run, Clean, Depth, ParseSequence, EvalSequence, ParamFrame, ParamScope, Matches,
        Runnable;
    var c := CompileClosure(params, body).value;
    var f := ParseSequence(body).value;
    var s := Frame(ParamFrame(params, args), Root(env));
    FrameBehaviour(o, params, body, env, args, w);
    ParamsMatch(params, args, Start(c, args, w).locals, env);
    SlotsAgree(o, f, ParamScope(params), TailUse, Start(c, args, w).locals, s, w);
    SequenceAgrees(o, body, s, true, w);
    assert RootEnv(s) == RootEnv(Root(env)) == env;
  }
}
