/**
  The slots generated code names, and the stores it executes.  Every slot operand lies in the range its form is
  given, and the stores of SlotStores are exactly the store instructions a run executes, in order.
 */
module StoreTrace {
  import opened Values
  import opened Forms
  import opened Bytecode
  import opened Machine
  import opened Simulation
  import opened CompilerCorrectness
  import opened SlotStores

  // ----- slot operands -----

  /** Stores go to slots from `low` up to `high`, loads come from slots below `high`. */
  predicate SlotsWithin(code: Code, low: nat, high: nat) {
    forall i :: 0 <= i < |code| ==>
      && (code[i].StoreLocal? ==> low <= code[i].index < high)
      && (code[i].LoadLocal? ==> code[i].index < high)
  }

  lemma WithinJoin(a: Code, b: Code, low: nat, high: nat)
    requires SlotsWithin(a, low, high) && SlotsWithin(b, low, high)
    ensures SlotsWithin(a + b, low, high)
  {
  }

  lemma WithinMore(a: Code, low: nat, high: nat, low2: nat, high2: nat)
    requires SlotsWithin(a, low, high) && low2 <= low && high <= high2
    ensures SlotsWithin(a, low2, high2)
  {
  }

  lemma WithinOne(i: Instr, low: nat, high: nat)
    requires i.StoreLocal? ==> low <= i.index < high
    requires i.LoadLocal? ==> i.index < high
    ensures SlotsWithin([i], low, high)
  {
  }

  /** The code of a form stores only to the slots the form is given and loads only from those and earlier ones. */
  lemma {:induction false} SlotOperands(f: Form, sc: CScope, tail: bool, base: nat)
    requires ScopeOk(sc)
    ensures SlotsWithin(CodeOf(f, sc, tail, base), sc.next, sc.next + Depth(f))
    decreases f, 1
  {
    hide SlotsWithin;
    match f
    case Lit(v) => WithinOne(PushConst(v), sc.next, sc.next);
    case Ref(name) => WithinOne(RefInstr(name, sc), sc.next, sc.next);
    case If(_, _, _) => IfOperands(f, sc, tail, base);
    case Then(_, _) => PairOperands(f, sc, tail, base);
    case And(_, _) => PairOperands(f, sc, tail, base);
    case Or(_, _) => PairOperands(f, sc, tail, base);
    case OrLast(e) => SlotOperands(e, sc, tail, base);
    case Let(_, _) => LetOperands(f, sc, tail, base);
    case Call(_, _) => CallOperands(f, sc, tail, base);
  }

  lemma {:induction false} IfOperands(f: Form, sc: CScope, tail: bool, base: nat)
    requires f.If? && ScopeOk(sc)
    ensures SlotsWithin(CodeOf(f, sc, tail, base), sc.next, sc.next + Depth(f))
    decreases f, 0
  {
    hide SlotsWithin, CodeOf;
    EqIf(f, sc, tail, base);
    var low, high := sc.next, sc.next + Depth(f);
    var cc := CodeOf(f.test, sc, false, base);
    var tt := CodeOf(f.thn, sc, tail, base + |cc| + 1);
    var ee := CodeOf(f.els, sc, tail, base + |cc| + |tt| + 2);
    var j1, j2 := JumpIfFalse(base + |cc| + |tt| + 2), Jump(base + |cc| + |tt| + 2 + |ee|);
    SlotOperands(f.test, sc, false, base);
    SlotOperands(f.thn, sc, tail, base + |cc| + 1);
    SlotOperands(f.els, sc, tail, base + |cc| + |tt| + 2);
    WithinMore(cc, low, low + Depth(f.test), low, high);
    WithinMore(tt, low, low + Depth(f.thn), low, high);
    WithinMore(ee, low, low + Depth(f.els), low, high);
    WithinOne(j1, low, high);
    WithinOne(j2, low, high);
    WithinJoin(cc, [j1], low, high);
    WithinJoin(cc + [j1], tt, low, high);
    WithinJoin(cc + [j1] + tt, [j2], low, high);
    WithinJoin(cc + [j1] + tt + [j2], ee, low, high);
  }

  /** A first part, some instructions without slots, and the rest. */
  lemma TwoParts(aa: Code, mid: Code, bb: Code, low: nat, high: nat)
    requires SlotsWithin(aa, low, high) && SlotsWithin(bb, low, high)
    requires forall i :: 0 <= i < |mid| ==> !mid[i].StoreLocal? && !mid[i].LoadLocal?
    ensures SlotsWithin(aa + mid + bb, low, high)
  {
    hide SlotsWithin;
    assert SlotsWithin(mid, low, high) by { NoSlots(mid, low, high); }
    WithinJoin(aa, mid, low, high);
    WithinJoin(aa + mid, bb, low, high);
  }

  lemma NoSlots(mid: Code, low: nat, high: nat)
    requires forall i :: 0 <= i < |mid| ==> !mid[i].StoreLocal? && !mid[i].LoadLocal?
    ensures SlotsWithin(mid, low, high)
  {
  }

  lemma {:induction false} PairOperands(f: Form, sc: CScope, tail: bool, base: nat)
    requires (f.Then? || f.And? || f.Or?) && ScopeOk(sc)
    ensures SlotsWithin(CodeOf(f, sc, tail, base), sc.next, sc.next + Depth(f))
    decreases f, 0
  {
    hide SlotsWithin, CodeOf;
    var low, high := sc.next, sc.next + Depth(f);
    var aa := CodeOf(f.first, sc, false, base);
    var at := base + |aa| + if f.Then? then 1 else 2;
    var bb := CodeOf(f.rest, sc, tail, at);
    SlotOperands(f.first, sc, false, base);
    SlotOperands(f.rest, sc, tail, at);
    WithinMore(aa, low, low + Depth(f.first), low, high);
    WithinMore(bb, low, low + Depth(f.rest), low, high);
    if f.Then? {
      EqThen(f, sc, tail, base);
      TwoParts(aa, [Pop], bb, low, high);
    } else if f.And? {
      EqAnd(f, sc, tail, base);
      TwoParts(aa, [JumpIfFalseKeep(base + |aa| + 2 + |bb|), Pop], bb, low, high);
    } else {
      EqOr(f, sc, tail, base);
      TwoParts(aa, [JumpIfTruthyKeep(base + |aa| + 2 + |bb|), Pop], bb, low, high);
    }
  }

  lemma {:induction false} LetOperands(f: Form, sc: CScope, tail: bool, base: nat)
    requires f.Let? && ScopeOk(sc)
    ensures SlotsWithin(CodeOf(f, sc, tail, base), sc.next, sc.next + Depth(f))
    decreases f, 0
  {
    hide SlotsWithin, CodeOf, BindsCode, BindScope;
    EqLet(f, sc, tail, base);
    BindScopeOk(sc, f.binds);
    var low, high, inner := sc.next, sc.next + Depth(f), BindScope(sc, f.binds);
    var ii := BindsCode(f.binds, sc, sc.next, base);
    var bb := CodeOf(f.body, inner, tail, base + |ii|);
    BindOperands(f.binds, sc, sc.next, base, high);
    SlotOperands(f.body, inner, tail, base + |ii|);
    WithinMore(bb, inner.next, inner.next + Depth(f.body), low, high);
    WithinJoin(ii, bb, low, high);
  }

  lemma {:induction false} BindOperands(bs: Binds, sc: CScope, slot: nat, base: nat, high: nat)
    requires ScopeOk(sc) && sc.next <= slot && slot + BindCount(bs) <= high && sc.next + BindsDepth(bs) <= high
    ensures SlotsWithin(BindsCode(bs, sc, slot, base), sc.next, high)
    decreases bs, 0
  {
    hide SlotsWithin, CodeOf;
    if bs.NoBinds? {
      NoSlots([], sc.next, high);
    } else {
      var ii := CodeOf(bs.init, sc, false, base);
      SlotOperands(bs.init, sc, false, base);
      WithinMore(ii, sc.next, sc.next + Depth(bs.init), sc.next, high);
      WithinOne(StoreLocal(slot), sc.next, high);
      BindOperands(bs.rest, sc, slot + 1, base + |ii| + 1, high);
      WithinJoin(ii, [StoreLocal(slot)], sc.next, high);
      WithinJoin(ii + [StoreLocal(slot)], BindsCode(bs.rest, sc, slot + 1, base + |ii| + 1), sc.next, high);
    }
  }

  lemma {:induction false} CallOperands(f: Form, sc: CScope, tail: bool, base: nat)
    requires f.Call? && ScopeOk(sc)
    ensures SlotsWithin(CodeOf(f, sc, tail, base), sc.next, sc.next + Depth(f))
    decreases f, 0
  {
    hide SlotsWithin, CodeOf, ArgsCode;
    EqCall(f, sc, tail, base);
    var low, high := sc.next, sc.next + Depth(f);
    var ff := CodeOf(f.fn, sc, false, base);
    SlotOperands(f.fn, sc, false, base);
    WithinMore(ff, low, low + Depth(f.fn), low, high);
    ArgOperands(f.args, sc, base + |ff|, high);
    WithinOne(CallInstr(tail, ArgCount(f.args)), low, high);
    WithinJoin(ff, ArgsCode(f.args, sc, base + |ff|), low, high);
    WithinJoin(ff + ArgsCode(f.args, sc, base + |ff|), [CallInstr(tail, ArgCount(f.args))], low, high);
  }

  lemma {:induction false} ArgOperands(args: Args, sc: CScope, base: nat, high: nat)
    requires ScopeOk(sc) && sc.next + ArgsDepth(args) <= high
    ensures SlotsWithin(ArgsCode(args, sc, base), sc.next, high)
    decreases args, 0
  {
    hide SlotsWithin, CodeOf;
    if args.NoArgs? {
      NoSlots([], sc.next, high);
    } else {
      var hh := CodeOf(args.head, sc, false, base);
      SlotOperands(args.head, sc, false, base);
      WithinMore(hh, sc.next, sc.next + Depth(args.head), sc.next, high);
      ArgOperands(args.rest, sc, base + |hh|, high);
      WithinJoin(hh, ArgsCode(args.rest, sc, base + |hh|), sc.next, high);
    }
  }

  /** In a compiled closure every slot operand is below the local count, and no store reaches a parameter. */
  lemma {:induction false} CompiledOperands(params: seq<string>, body: seq<Value>)
    requires CompileClosure(params, body).Some?
    ensures
      var c := CompileClosure(params, body).value;
      SlotsWithin(c.code, |params|, c.localCount)
  {
    hide SlotsWithin, CodeOf, ParseSequence, Depth;
    var f, sc := ParseSequence(body).value, ParamScope(params);
    SlotOperands(f, sc, true, 0);
    WithinOne(ReturnValue, sc.next, sc.next + Depth(f));
    WithinJoin(CodeOf(f, sc, true, 0), [ReturnValue], sc.next, sc.next + Depth(f));
  }

  // ----- the stores a run executes -----

  function StoredBy(i: Instr, m: Vm): seq<Store> {
    if i.StoreLocal? && i.index < |m.locals| && m.stack != [] then [Store(i.index, Top(m.stack))] else []
  }

  /** The store instructions that `Run` executes from this state on, with the values they store. */
  function RunStores(o: Oracle, env: nat, code: Code, m: Vm): seq<Store>
    requires Runnable(code)
    decreases |code| - m.ip
  {
    if m.ip >= |code| then []
    else
      var t := Step(o, env, code[m.ip], m);
      StoredBy(code[m.ip], m) + if t.Next? then RunStores(o, env, code, t.m) else []
  }

  lemma StoresOne(o: Oracle, env: nat, code: Code, m: Vm, i: Instr)
    requires Runnable(code) && Holds(code, m.ip, [i])
    ensures
      var t := Step(o, env, i, m);
      var rest := if t.Next? then RunStores(o, env, code, t.m) else [];
      RunStores(o, env, code, m) == if StoredBy(i, m) == [] then rest else StoredBy(i, m) + rest
  {
    HoldsAt(code, m.ip, i);
    var t := Step(o, env, i, m);
    var rest := if t.Next? then RunStores(o, env, code, t.m) else [];
    assert [] + rest == rest;
  }

  /** What is stored after a stretch of n instructions that has produced `out`. */
  function StoresAfter(o: Oracle, env: nat, code: Code, m: Vm, n: nat, out: SlotOut): seq<Store>
    requires Runnable(code)
  {
    if out.r.Val? then RunStores(o, env, code, Vm(m.ip + n, m.stack + [out.r.v], out.locals, out.r.w)) else []
  }

  ghost predicate Executed(o: Oracle, env: nat, code: Code, f: Form, sc: CScope, tail: bool, m: Vm)
    requires Ready(code, f, sc, tail, m)
  {
    var out := SlotEval(o, env, f, sc, tail, m.locals, m.world);
    RunStores(o, env, code, m)
    == Stores(o, env, f, sc, tail, m.locals, m.world)
       + StoresAfter(o, env, code, m, |CodeOf(f, sc, tail, m.ip)|, out)
  }

  lemma Regrouped(a: seq<Store>, b: seq<Store>, c: seq<Store>)
    ensures a + (b + c) == a + b + c && a + [] == a && [] + a == a
  {
  }

  /** The stores of a form are those its code executes. */
  lemma {:induction false} FormExecutes(o: Oracle, env: nat, code: Code, f: Form, sc: CScope, tail: bool, m: Vm)
    requires Ready(code, f, sc, tail, m)
    ensures Executed(o, env, code, f, sc, tail, m)
    decreases f, 1
  {
    match f
    case Lit(_) => AtomExecutes(o, env, code, f, sc, tail, m);
    case Ref(_) => AtomExecutes(o, env, code, f, sc, tail, m);
    case If(_, _, _) => IfExecutes(o, env, code, f, sc, tail, m);
    case Then(_, _) => ThenExecutes(o, env, code, f, sc, tail, m);
    case And(_, _) => KeepExecutes(o, env, code, f, sc, tail, m);
    case Or(_, _) => KeepExecutes(o, env, code, f, sc, tail, m);
    case OrLast(e) => LastExecutes(o, env, code, f, sc, tail, m);
    case Let(_, _) => LetExecutes(o, env, code, f, sc, tail, m);
    case Call(_, _) => CallExecutes(o, env, code, f, sc, tail, m);
  }

  lemma {:induction false} AtomExecutes(o: Oracle, env: nat, code: Code, f: Form, sc: CScope, tail: bool, m: Vm)
    requires (f.Lit? || f.Ref?) && Ready(code, f, sc, tail, m)
    ensures Executed(o, env, code, f, sc, tail, m)
  {
    hide RunStores, Runnable, Holds;
    EqAtom(f, sc, tail, m.ip);
    StoresOne(o, env, code, m, if f.Lit? then PushConst(f.v) else RefInstr(f.name, sc));
    Regrouped(StoresAfter(o, env, code, m, 1, SlotEval(o, env, f, sc, tail, m.locals, m.world)), [], []);
  }

  lemma {:induction false} LastExecutes(o: Oracle, env: nat, code: Code, f: Form, sc: CScope, tail: bool, m: Vm)
    requires f.OrLast? && Ready(code, f, sc, tail, m)
    ensures Executed(o, env, code, f, sc, tail, m)
    decreases f, 0
  {
    hide RunStores, Runnable, Holds;
    EqAtom(f, sc, tail, m.ip);
    FormExecutes(o, env, code, f.last, sc, tail, m);
  }

  // instructions that store nothing

  lemma PopStores(o: Oracle, env: nat, code: Code, m: Vm, s: seq<Value>, v: Value)
    requires Runnable(code) && Holds(code, m.ip, [Pop]) && m.stack == s + [v]
    ensures RunStores(o, env, code, m) == RunStores(o, env, code, Vm(m.ip + 1, s, m.locals, m.world))
  {
    hide RunStores, Runnable, Holds;
    StoresOne(o, env, code, m, Pop);
    assert Drop(m.stack, 1) == s;
  }

  lemma TestStores(o: Oracle, env: nat, code: Code, m: Vm, s: seq<Value>, v: Value, t: nat)
    requires Runnable(code) && Holds(code, m.ip, [JumpIfFalse(t)]) && m.stack == s + [v]
    ensures RunStores(o, env, code, m)
         == RunStores(o, env, code, Vm(if Truthy(v) then m.ip + 1 else t, s, m.locals, m.world))
  {
    hide RunStores, Runnable, Holds;
    StoresOne(o, env, code, m, JumpIfFalse(t));
    assert Drop(m.stack, 1) == s;
  }

  lemma JumpStores(o: Oracle, env: nat, code: Code, m: Vm, t: nat)
    requires Runnable(code) && Holds(code, m.ip, [Jump(t)])
    ensures RunStores(o, env, code, m) == RunStores(o, env, code, m.(ip := t))
  {
    hide RunStores, Runnable, Holds;
    StoresOne(o, env, code, m, Jump(t));
  }

  lemma {:induction false} KeepStores(o: Oracle, env: nat, code: Code, m: Vm, s: seq<Value>, v: Value, t: nat,
      onTruthy: bool)
    requires Runnable(code) && m.stack == s + [v]
    requires Holds(code, m.ip, [if onTruthy then JumpIfTruthyKeep(t) else JumpIfFalseKeep(t)])
    requires Holds(code, m.ip + 1, [Pop])
    ensures RunStores(o, env, code, m)
         == if Truthy(v) == onTruthy then RunStores(o, env, code, m.(ip := t))
            else RunStores(o, env, code, Vm(m.ip + 2, s, m.locals, m.world))
  {
    hide RunStores, Runnable, Holds;
    StoresOne(o, env, code, m, if onTruthy then JumpIfTruthyKeep(t) else JumpIfFalseKeep(t));
    if Truthy(v) != onTruthy {
      PopStores(o, env, code, m.(ip := m.ip + 1), s, v);
    }
  }

  // composite forms

  lemma {:induction false} IfExecutes(o: Oracle, env: nat, code: Code, f: Form, sc: CScope, tail: bool, m: Vm)
    requires f.If? && Ready(code, f, sc, tail, m)
    ensures Executed(o, env, code, f, sc, tail, m)
    decreases f, 0
  {
    hide CodeOf, SlotEval, RunStores, Depth, Holds, Runnable, Fits, IfCode, Truthy;
    var cc := CodeOf(f.test, sc, false, m.ip);
    var tt := CodeOf(f.thn, sc, tail, m.ip + |cc| + 1);
    var ee := CodeOf(f.els, sc, tail, m.ip + |cc| + |tt| + 2);
    EqIf(f, sc, tail, m.ip);
    SlotIf(o, env, f, sc, tail, m.locals, m.world);
    IfHolds(code, m.ip, cc, tt, ee);
    var out := SlotEval(o, env, f.test, sc, false, m.locals, m.world);
    var ss := Stores(o, env, f.test, sc, false, m.locals, m.world);
    FormExecutes(o, env, code, f.test, sc, false, m);
    Regrouped(ss, [], []);
    if out.r.Val? {
      TestStores(o, env, code, Vm(m.ip + |cc|, m.stack + [out.r.v], out.locals, out.r.w), m.stack, out.r.v,
                 m.ip + |cc| + |tt| + 2);
      var at := if Truthy(out.r.v) then m.ip + |cc| + 1 else m.ip + |cc| + |tt| + 2;
      var m2 := Vm(at, m.stack, out.locals, out.r.w);
      var branch := if Truthy(out.r.v) then f.thn else f.els;
      var n := if Truthy(out.r.v) then |tt| else |ee|;
      var t := SlotEval(o, env, branch, sc, tail, m2.locals, m2.world);
      FormExecutes(o, env, code, branch, sc, tail, m2);
      if t.r.Val? && Truthy(out.r.v) {
        JumpStores(o, env, code, Vm(m2.ip + |tt|, m.stack + [t.r.v], t.locals, t.r.w), m.ip + |cc| + |tt| + 2 + |ee|);
      }
      Regrouped(ss, Stores(o, env, branch, sc, tail, m2.locals, m2.world), StoresAfter(o, env, code, m2, n, t));
    }
  }

  lemma {:induction false} ThenExecutes(o: Oracle, env: nat, code: Code, f: Form, sc: CScope, tail: bool, m: Vm)
    requires f.Then? && Ready(code, f, sc, tail, m)
    ensures Executed(o, env, code, f, sc, tail, m)
    decreases f, 0
  {
    hide CodeOf, SlotEval, RunStores, Depth, Holds, Runnable, Fits, Truthy;
    var aa := CodeOf(f.first, sc, false, m.ip);
    var bb := CodeOf(f.rest, sc, tail, m.ip + |aa| + 1);
    EqThen(f, sc, tail, m.ip);
    SlotPair(o, env, f, sc, tail, m.locals, m.world);
    HoldsSplit(code, m.ip, aa + [Pop], bb);
    HoldsSplit(code, m.ip, aa, [Pop]);
    var out := SlotEval(o, env, f.first, sc, false, m.locals, m.world);
    var ss := Stores(o, env, f.first, sc, false, m.locals, m.world);
    FormExecutes(o, env, code, f.first, sc, false, m);
    Regrouped(ss, [], []);
    if out.r.Val? {
      PopStores(o, env, code, Vm(m.ip + |aa|, m.stack + [out.r.v], out.locals, out.r.w), m.stack, out.r.v);
      var m2 := Vm(m.ip + |aa| + 1, m.stack, out.locals, out.r.w);
      FormExecutes(o, env, code, f.rest, sc, tail, m2);
      var t := SlotEval(o, env, f.rest, sc, tail, m2.locals, m2.world);
      Regrouped(ss, Stores(o, env, f.rest, sc, tail, m2.locals, m2.world), StoresAfter(o, env, code, m2, |bb|, t));
    }
  }

  lemma {:induction false} KeepExecutes(o: Oracle, env: nat, code: Code, f: Form, sc: CScope, tail: bool, m: Vm)
    requires (f.And? || f.Or?) && Ready(code, f, sc, tail, m)
    ensures Executed(o, env, code, f, sc, tail, m)
    decreases f, 0
  {
    hide CodeOf, SlotEval, RunStores, Depth, Holds, Runnable, Fits, Truthy;
    var aa := CodeOf(f.first, sc, false, m.ip);
    var bb := CodeOf(f.rest, sc, tail, m.ip + |aa| + 2);
    var exit := m.ip + |aa| + 2 + |bb|;
    if f.And? {
      EqAnd(f, sc, tail, m.ip);
    } else {
      EqOr(f, sc, tail, m.ip);
    }
    SlotPair(o, env, f, sc, tail, m.locals, m.world);
    KeepHolds(code, m.ip, aa, if f.And? then JumpIfFalseKeep(exit) else JumpIfTruthyKeep(exit), bb);
    var out := SlotEval(o, env, f.first, sc, false, m.locals, m.world);
    var ss := Stores(o, env, f.first, sc, false, m.locals, m.world);
    FormExecutes(o, env, code, f.first, sc, false, m);
    Regrouped(ss, [], []);
    if out.r.Val? {
      KeepStores(o, env, code, Vm(m.ip + |aa|, m.stack + [out.r.v], out.locals, out.r.w), m.stack, out.r.v, exit,
          f.Or?);
      if Truthy(out.r.v) == f.And? {
        var m2 := Vm(m.ip + |aa| + 2, m.stack, out.locals, out.r.w);
        FormExecutes(o, env, code, f.rest, sc, tail, m2);
        var t := SlotEval(o, env, f.rest, sc, tail, m2.locals, m2.world);
        Regrouped(ss, Stores(o, env, f.rest, sc, tail, m2.locals, m2.world), StoresAfter(o, env, code, m2, |bb|, t));
      }
    }
  }

  lemma {:induction false} LetExecutes(o: Oracle, env: nat, code: Code, f: Form, sc: CScope, tail: bool, m: Vm)
    requires f.Let? && Ready(code, f, sc, tail, m)
    ensures Executed(o, env, code, f, sc, tail, m)
    decreases f, 0
  {
    hide CodeOf, BindsCode, SlotEval, SlotBinds, RunStores, Depth, BindsDepth, Holds, Runnable, Fits, BindScope,
         BindStores;
    var ii := BindsCode(f.binds, sc, sc.next, m.ip);
    var sc2 := BindScope(sc, f.binds);
    EqLet(f, sc, tail, m.ip);
    SlotLet(o, env, f, sc, tail, m.locals, m.world);
    HoldsSplit(code, m.ip, ii, CodeOf(f.body, sc2, tail, m.ip + |ii|));
    BindsExecute(o, env, code, f.binds, sc, sc.next, m);
    var got := SlotBinds(o, env, f.binds, sc, sc.next, m.locals, m.world);
    var ss := BindStores(o, env, f.binds, sc, sc.next, m.locals, m.world);
    Regrouped(ss, [], []);
    assert m.stack + [] == m.stack;
    if got.GotArgs? {
      var m2 := Vm(m.ip + |ii|, m.stack, got.locals, got.w);
      FormExecutes(o, env, code, f.body, sc2, tail, m2);
      var t := SlotEval(o, env, f.body, sc2, tail, m2.locals, m2.world);
      Regrouped(ss, Stores(o, env, f.body, sc2, tail, m2.locals, m2.world),
                StoresAfter(o, env, code, m2, |CodeOf(f.body, sc2, tail, m.ip + |ii|)|, t));
    }
  }

  /** What is stored after the initialisers of a let, or after the arguments of a call. */
  function StoresPast(o: Oracle, env: nat, code: Code, m: Vm, n: nat, got: SlotArgs, pushed: bool): seq<Store>
    requires Runnable(code)
  {
    if got.NoGo? then []
    else RunStores(o, env, code, Vm(m.ip + n, m.stack + (if pushed then got.vals else []), got.locals, got.w))
  }

  // one level of the stores of initialisers and arguments

  lemma {:induction false} BindStoresCases(
    o: Oracle, env: nat, bs: Binds, sc: CScope, slot: nat, l: seq<Value>, w: World)
    requires Fits(BindsDepth(bs), sc, l) && slot + BindCount(bs) <= |l|
    ensures bs.NoBinds? ==> BindStores(o, env, bs, sc, slot, l, w) == []
    ensures bs.Bind? ==>
      && Fits(Depth(bs.init), sc, l)
      && var out := SlotEval(o, env, bs.init, sc, false, l, w);
      var ss := Stores(o, env, bs.init, sc, false, l, w);
      if !out.r.Val? then BindStores(o, env, bs, sc, slot, l, w) == ss + []
      else
        var l2 := out.locals[slot := out.r.v];
        && Fits(BindsDepth(bs.rest), sc, l2) && slot + 1 + BindCount(bs.rest) <= |l2|
        && BindStores(o, env, bs, sc, slot, l, w)
           == ss + ([Store(slot, out.r.v)] + BindStores(o, env, bs.rest, sc, slot + 1, l2, out.r.w))
  {
    hide SlotEval, Stores, Depth;
  }

  lemma {:induction false} ArgStoresCases(o: Oracle, env: nat, args: Args, sc: CScope, l: seq<Value>, w: World)
    requires Fits(ArgsDepth(args), sc, l)
    ensures args.NoArgs? ==> ArgStores(o, env, args, sc, l, w) == []
    ensures args.Arg? ==>
      && Fits(Depth(args.head), sc, l)
      && var out := SlotEval(o, env, args.head, sc, false, l, w);
      var ss := Stores(o, env, args.head, sc, false, l, w);
      if !out.r.Val? then ArgStores(o, env, args, sc, l, w) == ss + []
      else
        && Fits(ArgsDepth(args.rest), sc, out.locals)
        && ArgStores(o, env, args, sc, l, w) == ss + ArgStores(o, env, args.rest, sc, out.locals, out.r.w)
  {
    hide SlotEval, Stores, Depth;
  }

  lemma NoBindsCases(o: Oracle, env: nat, sc: CScope, slot: nat, base: nat, l: seq<Value>, w: World)
    requires Fits(BindsDepth(NoBinds), sc, l) && slot + BindCount(NoBinds) <= |l|
    ensures BindsCode(NoBinds, sc, slot, base) == []
    ensures SlotBinds(o, env, NoBinds, sc, slot, l, w) == GotArgs([], l, w)
  {
  }

  lemma NoArgsCases(o: Oracle, env: nat, sc: CScope, base: nat, l: seq<Value>, w: World)
    requires Fits(ArgsDepth(NoArgs), sc, l)
    ensures ArgsCode(NoArgs, sc, base) == [] && SlotEvalArgs(o, env, NoArgs, sc, l, w) == GotArgs([], l, w)
  {
  }

  lemma {:induction false} BindsExecute(o: Oracle, env: nat, code: Code, bs: Binds, sc: CScope, slot: nat, m: Vm)
    requires Runnable(code) && Holds(code, m.ip, BindsCode(bs, sc, slot, m.ip))
    requires Fits(BindsDepth(bs), sc, m.locals) && slot + BindCount(bs) <= |m.locals|
    ensures
      var got := SlotBinds(o, env, bs, sc, slot, m.locals, m.world);
      RunStores(o, env, code, m)
      == BindStores(o, env, bs, sc, slot, m.locals, m.world)
         + StoresPast(o, env, code, m, |BindsCode(bs, sc, slot, m.ip)|, got, false)
    decreases bs, 0
  {
    hide CodeOf, SlotEval, RunStores, Depth, BindsDepth, BindCount, Holds, Runnable, Fits, BindsCode, SlotBinds,
         BindStores, Stores;
    BindStoresCases(o, env, bs, sc, slot, m.locals, m.world);
    assert m.stack + [] == m.stack;
    if bs.NoBinds? {
      NoBindsCases(o, env, sc, slot, m.ip, m.locals, m.world);
      Regrouped(RunStores(o, env, code, m), [], []);
    } else {
      BindsUnfold(o, env, bs, sc, slot, m.ip, m.locals, m.world);
      var ii := CodeOf(bs.init, sc, false, m.ip);
      var rest := BindsCode(bs.rest, sc, slot + 1, m.ip + |ii| + 1);
      HoldsSplit(code, m.ip, ii + [StoreLocal(slot)], rest);
      HoldsSplit(code, m.ip, ii, [StoreLocal(slot)]);
      FormExecutes(o, env, code, bs.init, sc, false, m);
      var out := SlotEval(o, env, bs.init, sc, false, m.locals, m.world);
      var ss := Stores(o, env, bs.init, sc, false, m.locals, m.world);
      Regrouped(ss, [], []);
      if out.r.Val? {
        StoreStores(o, env, code, Vm(m.ip + |ii|, m.stack + [out.r.v], out.locals, out.r.w), m.stack, out.r.v, slot);
        var m2 := Vm(m.ip + |ii| + 1, m.stack, out.locals[slot := out.r.v], out.r.w);
        BindsExecute(o, env, code, bs.rest, sc, slot + 1, m2);
        var more := SlotBinds(o, env, bs.rest, sc, slot + 1, m2.locals, m2.world);
        var one, later := [Store(slot, out.r.v)], BindStores(o, env, bs.rest, sc, slot + 1, m2.locals, m2.world);
        Regrouped(one, later, StoresPast(o, env, code, m2, |rest|, more, false));
        Regrouped(ss, one + later, StoresPast(o, env, code, m2, |rest|, more, false));
      }
    }
  }

  lemma StoreStores(o: Oracle, env: nat, code: Code, m: Vm, s: seq<Value>, v: Value, k: nat)
    requires Runnable(code) && Holds(code, m.ip, [StoreLocal(k)]) && m.stack == s + [v] && k < |m.locals|
    ensures RunStores(o, env, code, m)
         == [Store(k, v)] + RunStores(o, env, code, Vm(m.ip + 1, s, m.locals[k := v], m.world))
  {
    hide RunStores, Runnable, Holds;
    StoresOne(o, env, code, m, StoreLocal(k));
    assert Drop(m.stack, 1) == s;
  }

  lemma {:induction false} CallExecutes(o: Oracle, env: nat, code: Code, f: Form, sc: CScope, tail: bool, m: Vm)
    requires f.Call? && Ready(code, f, sc, tail, m)
    ensures Executed(o, env, code, f, sc, tail, m)
    decreases f, 0
  {
    hide CodeOf, ArgsCode, SlotEval, SlotEvalArgs, RunStores, Depth, ArgsDepth, Holds, Runnable, Fits, ArgCount,
         CallInstr, ArgStores;
    var ff := CodeOf(f.fn, sc, false, m.ip);
    var aa := ArgsCode(f.args, sc, m.ip + |ff|);
    EqCall(f, sc, tail, m.ip);
    SlotCall(o, env, f, sc, tail, m.locals, m.world);
    HoldsSplit(code, m.ip, ff + aa, [CallInstr(tail, ArgCount(f.args))]);
    HoldsSplit(code, m.ip, ff, aa);
    FormExecutes(o, env, code, f.fn, sc, false, m);
    var out := SlotEval(o, env, f.fn, sc, false, m.locals, m.world);
    var ss := Stores(o, env, f.fn, sc, false, m.locals, m.world);
    Regrouped(ss, [], []);
    if out.r.Val? {
      var m1 := Vm(m.ip + |ff|, m.stack + [out.r.v], out.locals, out.r.w);
      ArgsExecute(o, env, code, f.args, sc, m1);
      var got := SlotEvalArgs(o, env, f.args, sc, out.locals, out.r.w);
      var later := ArgStores(o, env, f.args, sc, out.locals, out.r.w);
      Regrouped(ss, later, StoresPast(o, env, code, m1, |aa|, got, true));
      if got.GotArgs? {
        CallStores(o, env, code, Vm(m.ip + |ff| + |aa|, m1.stack + got.vals, got.locals, got.w), m.stack, out.r.v,
                   got.vals, tail);
      }
    }
  }

  lemma {:induction false} CallStores(o: Oracle, env: nat, code: Code, m: Vm, s: seq<Value>, fn: Value,
      args: seq<Value>, tail: bool)
    requires Runnable(code) && m.stack == s + [fn] + args
    requires Holds(code, m.ip, [CallInstr(tail, |args|)])
    ensures tail ==> RunStores(o, env, code, m) == []
    ensures !tail ==>
      RunStores(o, env, code, m)
      == StoresAfter(o, env, code, m.(stack := s), 1, SlotOut(o.invoke(fn, args, m.world), m.locals))
  {
    hide RunStores, Runnable, Holds;
    StoresOne(o, env, code, m, CallInstr(tail, |args|));
    assert CallArgs(m.stack, |args|) == args;
    assert Callee(m.stack, |args|) == fn;
    assert Drop(m.stack, |args| + 1) == s;
  }

  lemma {:induction false} ArgsExecute(o: Oracle, env: nat, code: Code, args: Args, sc: CScope, m: Vm)
    requires Runnable(code) && Holds(code, m.ip, ArgsCode(args, sc, m.ip)) && Fits(ArgsDepth(args), sc, m.locals)
    ensures
      var got := SlotEvalArgs(o, env, args, sc, m.locals, m.world);
      RunStores(o, env, code, m)
      == ArgStores(o, env, args, sc, m.locals, m.world)
         + StoresPast(o, env, code, m, |ArgsCode(args, sc, m.ip)|, got, true)
    decreases args, 0
  {
    hide CodeOf, SlotEval, RunStores, Depth, ArgsDepth, Holds, Runnable, Fits, ArgsCode, SlotEvalArgs, ArgStores,
        Stores;
    ArgStoresCases(o, env, args, sc, m.locals, m.world);
    assert m.stack + [] == m.stack;
    if args.NoArgs? {
      NoArgsCases(o, env, sc, m.ip, m.locals, m.world);
      Regrouped(RunStores(o, env, code, m), [], []);
    } else {
      ArgsUnfold(o, env, args, sc, m.ip, m.locals, m.world);
      var hh := CodeOf(args.head, sc, false, m.ip);
      var rest := ArgsCode(args.rest, sc, m.ip + |hh|);
      HoldsSplit(code, m.ip, hh, rest);
      FormExecutes(o, env, code, args.head, sc, false, m);
      var out := SlotEval(o, env, args.head, sc, false, m.locals, m.world);
      var ss := Stores(o, env, args.head, sc, false, m.locals, m.world);
      Regrouped(ss, [], []);
      if out.r.Val? {
        var m1 := Vm(m.ip + |hh|, m.stack + [out.r.v], out.locals, out.r.w);
        ArgsExecute(o, env, code, args.rest, sc, m1);
        var more := SlotEvalArgs(o, env, args.rest, sc, out.locals, out.r.w);
        if more.GotArgs? {
          assert m1.stack + more.vals == m.stack + ([out.r.v] + more.vals);
        }
        Regrouped(ss, ArgStores(o, env, args.rest, sc, out.locals, out.r.w),
                  StoresPast(o, env, code, m1, |rest|, more, true));
      }
    }
  }

  /** Over a whole frame: the stores `Run` executes are exactly the stores of the body's form. */
  lemma {:induction false} FrameStores(
    o: Oracle, params: seq<string>, body: seq<Value>, env: nat, args: seq<Value>, w: World)
    requires CompileClosure(params, body).Some? && |params| == |args|
    ensures
      var c := CompileClosure(params, body).value;
      var f, sc, m := ParseSequence(body).value, ParamScope(params), Start(c, args, w);
      && Runnable(c.code) && Fits(Depth(f), sc, m.locals)
      && RunStores(o, env, c.code, m) == Stores(o, env, f, sc, true, m.locals, w)
  {
    hide CodeOf, SlotEval, Stores, RunStores, Run, Depth, ParseSequence, ParamScope, Runnable, Fits;
    var c := CompileClosure(params, body).value;
    var f, sc, m := ParseSequence(body).value, ParamScope(params), Start(c, args, w);
    FrameBehaviour(o, params, body, env, args, w);
    var ff := CodeOf(f, sc, true, 0);
    WholeHolds(c.code, ff, [ReturnValue]);
    FormExecutes(o, env, c.code, f, sc, true, m);
    var out := SlotEval(o, env, f, sc, true, m.locals, w);
    var ss := Stores(o, env, f, sc, true, m.locals, w);
    Regrouped(ss, [], []);
    if out.r.Val? {
      StoresOne(o, env, c.code, Vm(|ff|, m.stack + [out.r.v], out.locals, out.r.w), ReturnValue);
    }
  }

  lemma WholeHolds(code: Code, a: Code, b: Code)
    requires code == a + b
    ensures Holds(code, 0, a) && Holds(code, |a|, b)
  {
    assert Holds(code, 0, a + b);
    HoldsSplit(code, 0, a, b);
  }
}
