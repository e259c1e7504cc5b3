/** Running generated code does exactly what `SlotEval` says, for every accepted form. */
module Simulation {
  import opened Values
  import opened Forms
  import opened Bytecode
  import opened Machine

  /** `code` holds the instructions `part` from address `at` on. */
  predicate Holds(code: Code, at: nat, part: Code) {
    at + |part| <= |code| && code[at..at + |part|] == part
  }

  lemma HoldsSplit(code: Code, at: nat, a: Code, b: Code)
    requires Holds(code, at, a + b)
    ensures Holds(code, at, a) && Holds(code, at + |a|, b)
  {
    var whole := code[at..at + |a + b|];
    assert a == whole[..|a|] == code[at..at + |a|];
    assert b == whole[|a|..] == code[at + |a|..at + |a| + |b|];
  }

  lemma HoldsAt(code: Code, at: nat, i: Instr)
    requires Holds(code, at, [i])
    ensures at < |code| && code[at] == i
  {
    assert code[at] == code[at..at + 1][0];
  }

  /** How a frame goes on once a stretch of n instructions has produced `out`. */
  function Resume(o: Oracle, env: nat, code: Code, m: Vm, n: nat, out: SlotOut): FrameEnd
    requires Runnable(code)
  {
    match out.r
    case Val(v, w) => Run(o, env, code, Vm(m.ip + n, m.stack + [v], out.locals, w))
    case Tail(fn, args, w) => Reuse(fn, args, w, [])
    case _ => Returned(out.r)
  }

  function ResumeArgs(o: Oracle, env: nat, code: Code, m: Vm, n: nat, got: SlotArgs): FrameEnd
    requires Runnable(code)
  {
    if got.NoGo? then Returned(got.stop)
    else Run(o, env, code, Vm(m.ip + n, m.stack + got.vals, got.locals, got.w))
  }

  function ResumeBinds(o: Oracle, env: nat, code: Code, m: Vm, n: nat, got: SlotArgs): FrameEnd
    requires Runnable(code)
  {
    if got.NoGo? then Returned(got.stop)
    else Run(o, env, code, Vm(m.ip + n, m.stack, got.locals, got.w))
  }

  /** The machine is at the start of the form's code, with room for its slots. */
  ghost predicate Ready(code: Code, f: Form, sc: CScope, tail: bool, m: Vm) {
    && Runnable(code)
    && Holds(code, m.ip, CodeOf(f, sc, tail, m.ip))
    && Fits(Depth(f), sc, m.locals)
    && (tail ==> m.stack == [])
  }

  ghost predicate Simulated(o: Oracle, env: nat, code: Code, f: Form, sc: CScope, tail: bool, m: Vm)
    requires Ready(code, f, sc, tail, m)
  {
    Run(o, env, code, m)
    == Resume(o, env, code, m, |CodeOf(f, sc, tail, m.ip)|, SlotEval(o, env, f, sc, tail, m.locals, m.world))
  }

  /** One machine turn at a known instruction. */
  lemma RunOne(o: Oracle, env: nat, code: Code, m: Vm, i: Instr)
    requires Runnable(code) && Holds(code, m.ip, [i])
    ensures
      var t := Step(o, env, i, m);
      Run(o, env, code, m) == if t.Next? then Run(o, env, code, t.m) else t.end
  {
    HoldsAt(code, m.ip, i);
  }

  lemma {:induction false} AtomSim(o: Oracle, env: nat, code: Code, f: Form, sc: CScope, tail: bool, m: Vm)
    requires f.Lit? || f.Ref?
    requires Ready(code, f, sc, tail, m)
    ensures Simulated(o, env, code, f, sc, tail, m)
  {
    hide Run, Runnable, Holds;
    EqAtom(f, sc, tail, m.ip);
    if f.Lit? {
      RunOne(o, env, code, m, PushConst(f.v));
    } else {
      RunOne(o, env, code, m, RefInstr(f.name, sc));
    }
  }

  /** After a value is pushed, a `pop` puts the stack back. */
  lemma RunPop(o: Oracle, env: nat, code: Code, m: Vm, s: seq<Value>, v: Value)
    requires Runnable(code) && Holds(code, m.ip, [Pop]) && m.stack == s + [v]
    ensures Run(o, env, code, m) == Run(o, env, code, Vm(m.ip + 1, s, m.locals, m.world))
  {
    RunOne(o, env, code, m, Pop);
    assert Drop(m.stack, 1) == s;
  }

  lemma RunStore(o: Oracle, env: nat, code: Code, m: Vm, s: seq<Value>, v: Value, k: nat)
    requires Runnable(code) && Holds(code, m.ip, [StoreLocal(k)]) && m.stack == s + [v] && k < |m.locals|
    ensures Run(o, env, code, m) == Run(o, env, code, Vm(m.ip + 1, s, m.locals[k := v], m.world))
  {
    RunOne(o, env, code, m, StoreLocal(k));
    assert Drop(m.stack, 1) == s;
  }

  lemma RunTest(o: Oracle, env: nat, code: Code, m: Vm, s: seq<Value>, v: Value, t: nat)
    requires Runnable(code) && Holds(code, m.ip, [JumpIfFalse(t)]) && m.stack == s + [v]
    ensures Run(o, env, code, m) == Run(o, env, code, Vm(if Truthy(v) then m.ip + 1 else t, s, m.locals, m.world))
  {
    RunOne(o, env, code, m, JumpIfFalse(t));
    assert Drop(m.stack, 1) == s;
  }

  lemma RunJump(o: Oracle, env: nat, code: Code, m: Vm, t: nat)
    requires Runnable(code) && Holds(code, m.ip, [Jump(t)])
    ensures Run(o, env, code, m) == Run(o, env, code, m.(ip := t))
  {
    RunOne(o, env, code, m, Jump(t));
  }

  lemma {:induction false} RunKeep(o: Oracle, env: nat, code: Code, m: Vm, s: seq<Value>, v: Value, t: nat,
      onTruthy: bool)
    requires Runnable(code) && m.stack == s + [v]
    requires Holds(code, m.ip, [if onTruthy then JumpIfTruthyKeep(t) else JumpIfFalseKeep(t)])
    requires Holds(code, m.ip + 1, [Pop])
    ensures Run(o, env, code, m)
         == if Truthy(v) == onTruthy then Run(o, env, code, m.(ip := t))
             else Run(o, env, code, Vm(m.ip + 2, s, m.locals, m.world))
  {
    hide Run, Runnable, Holds;
    RunOne(o, env, code, m, if onTruthy then JumpIfTruthyKeep(t) else JumpIfFalseKeep(t));
    if Truthy(v) != onTruthy {
      RunPop(o, env, code, m.(ip := m.ip + 1), s, v);
    }
  }

  lemma {:induction false} RunCall(o: Oracle, env: nat, code: Code, m: Vm, s: seq<Value>, fn: Value, args: seq<Value>,
      tail: bool)
    requires Runnable(code) && m.stack == s + [fn] + args
    requires Holds(code, m.ip, [CallInstr(tail, |args|)])
    ensures tail ==> Run(o, env, code, m) == Reuse(fn, args, m.world, s)
    ensures !tail ==> Run(o, env, code, m) == Resume(o, env, code, m.(stack := s), 1,
        SlotOut(o.invoke(fn, args, m.world), m.locals))
  {
    RunOne(o, env, code, m, CallInstr(tail, |args|));
    assert CallArgs(m.stack, |args|) == args;
    assert Callee(m.stack, |args|) == fn;
    assert Drop(m.stack, |args| + 1) == s;
  }

  /**
    Stack and control discipline: whatever the form, its code either pushes exactly one value and
    falls through to its own end with the slots SlotEval predicts, or ends the frame; a tail call
    leaves nothing on the stack, and no internal fault can occur inside it.
   */
  lemma {:induction false} Sim(o: Oracle, env: nat, code: Code, f: Form, sc: CScope, tail: bool, m: Vm)
    requires Ready(code, f, sc, tail, m)
    ensures Simulated(o, env, code, f, sc, tail, m)
    decreases f, 1
  {
    match f
    case Lit(_) => AtomSim(o, env, code, f, sc, tail, m);
    case Ref(_) => AtomSim(o, env, code, f, sc, tail, m);
    case If(_, _, _) => IfSim(o, env, code, f, sc, tail, m);
    case Then(_, _) => ThenSim(o, env, code, f, sc, tail, m);
    case And(_, _) => AndSim(o, env, code, f, sc, tail, m);
    case Or(_, _) => OrSim(o, env, code, f, sc, tail, m);
    case OrLast(e) => OrLastSim(o, env, code, f, sc, tail, m);
    case Let(_, _) => LetSim(o, env, code, f, sc, tail, m);
    case Call(_, _) => CallSim(o, env, code, f, sc, tail, m);
  }

  // The composite cases hide recursive definitions; these restate one level of SlotEval.

  lemma {:induction false} SlotIf(o: Oracle, env: nat, f: Form, sc: CScope, tail: bool, l: seq<Value>, w: World)
    requires f.If? && Fits(Depth(f), sc, l)
    ensures Fits(Depth(f.test), sc, l) && Fits(Depth(f.thn), sc, l) && Fits(Depth(f.els), sc, l)
    ensures
      var out := SlotEval(o, env, f.test, sc, false, l, w);
      && Fits(Depth(f.thn), sc, out.locals) && Fits(Depth(f.els), sc, out.locals)
      && (out.r.Val? || out.r.Exn? || out.r.Abort?)
      && SlotEval(o, env, f, sc, tail, l, w)
         == if !out.r.Val? then out
            else if Truthy(out.r.v) then SlotEval(o, env, f.thn, sc, tail, out.locals, out.r.w)
            else SlotEval(o, env, f.els, sc, tail, out.locals, out.r.w)
  {
  }

  lemma {:induction false} IfSim(o: Oracle, env: nat, code: Code, f: Form, sc: CScope, tail: bool, m: Vm)
    requires f.If?
    requires Ready(code, f, sc, tail, m)
    ensures Simulated(o, env, code, f, sc, tail, m)
    decreases f, 0
  {
    hide CodeOf, SlotEval, Run, Depth, Holds, Runnable, Fits, IfCode, Truthy;
    var cc := CodeOf(f.test, sc, false, m.ip);
    var tt := CodeOf(f.thn, sc, tail, m.ip + |cc| + 1);
    var ee := CodeOf(f.els, sc, tail, m.ip + |cc| + |tt| + 2);
    EqIf(f, sc, tail, m.ip);
    SlotIf(o, env, f, sc, tail, m.locals, m.world);
    IfHolds(code, m.ip, cc, tt, ee);
    var out := SlotEval(o, env, f.test, sc, false, m.locals, m.world);
    Sim(o, env, code, f.test, sc, false, m);
    if out.r.Val? {
      var m1 := Vm(m.ip + |cc|, m.stack + [out.r.v], out.locals, out.r.w);
      RunTest(o, env, code, m1, m.stack, out.r.v, m.ip + |cc| + |tt| + 2);
      if Truthy(out.r.v) {
        var m2 := Vm(m.ip + |cc| + 1, m.stack, out.locals, out.r.w);
        var t := SlotEval(o, env, f.thn, sc, tail, m2.locals, m2.world);
        Sim(o, env, code, f.thn, sc, tail, m2);
        if t.r.Val? {
          RunJump(o, env, code, Vm(m2.ip + |tt|, m.stack + [t.r.v], t.locals, t.r.w), m.ip + |cc| + |tt| + 2 + |ee|);
        }
      } else {
        Sim(o, env, code, f.els, sc, tail, Vm(m.ip + |cc| + |tt| + 2, m.stack, out.locals, out.r.w));
      }
    }
  }

  lemma IfHolds(code: Code, at: nat, cc: Code, tt: Code, ee: Code)
    requires Holds(code, at, IfCode(cc, tt, ee, at))
    ensures Holds(code, at, cc)
    ensures Holds(code, at + |cc|, [JumpIfFalse(at + |cc| + |tt| + 2)])
    ensures Holds(code, at + |cc| + 1, tt)
    ensures Holds(code, at + |cc| + 1 + |tt|, [Jump(at + |cc| + |tt| + 2 + |ee|)])
    ensures Holds(code, at + |cc| + |tt| + 2, ee)
    ensures |IfCode(cc, tt, ee, at)| == |cc| + |tt| + 2 + |ee|
  {
    var j1, j2 := [JumpIfFalse(at + |cc| + |tt| + 2)], [Jump(at + |cc| + |tt| + 2 + |ee|)];
    HoldsSplit(code, at, cc + j1 + tt + j2, ee);
    HoldsSplit(code, at, cc + j1 + tt, j2);
    HoldsSplit(code, at, cc + j1, tt);
    HoldsSplit(code, at, cc, j1);
  }

  lemma {:induction false} SlotPair(o: Oracle, env: nat, f: Form, sc: CScope, tail: bool, l: seq<Value>, w: World)
    requires (f.Then? || f.And? || f.Or?) && Fits(Depth(f), sc, l)
    ensures Fits(Depth(f.first), sc, l)
    ensures
      var out := SlotEval(o, env, f.first, sc, false, l, w);
      && Fits(Depth(f.rest), sc, out.locals)
      && !out.r.Tail?
      && SlotEval(o, env, f, sc, tail, l, w)
         == if !out.r.Val? || (f.And? && !Truthy(out.r.v)) || (f.Or? && Truthy(out.r.v)) then out
            else SlotEval(o, env, f.rest, sc, tail, out.locals, out.r.w)
  {
  }

  lemma {:induction false} ThenSim(o: Oracle, env: nat, code: Code, f: Form, sc: CScope, tail: bool, m: Vm)
    requires f.Then?
    requires Ready(code, f, sc, tail, m)
    ensures Simulated(o, env, code, f, sc, tail, m)
    decreases f, 0
  {
    hide CodeOf, SlotEval, Run, Depth, Holds, Runnable, Fits, Truthy;
    var aa := CodeOf(f.first, sc, false, m.ip);
    var bb := CodeOf(f.rest, sc, tail, m.ip + |aa| + 1);
    EqThen(f, sc, tail, m.ip);
    SlotPair(o, env, f, sc, tail, m.locals, m.world);
    HoldsSplit(code, m.ip, aa + [Pop], bb);
    HoldsSplit(code, m.ip, aa, [Pop]);
    var out := SlotEval(o, env, f.first, sc, false, m.locals, m.world);
    Sim(o, env, code, f.first, sc, false, m);
    if out.r.Val? {
      RunPop(o, env, code, Vm(m.ip + |aa|, m.stack + [out.r.v], out.locals, out.r.w), m.stack, out.r.v);
      Sim(o, env, code, f.rest, sc, tail, Vm(m.ip + |aa| + 1, m.stack, out.locals, out.r.w));
    }
  }

  lemma KeepHolds(code: Code, at: nat, aa: Code, j: Instr, bb: Code)
    requires Holds(code, at, aa + [j, Pop] + bb)
    ensures Holds(code, at, aa)
    ensures Holds(code, at + |aa|, [j])
    ensures Holds(code, at + |aa| + 1, [Pop])
    ensures Holds(code, at + |aa| + 2, bb)
  {
    assert aa + [j, Pop] + bb == aa + [j] + [Pop] + bb;
    HoldsSplit(code, at, aa + [j] + [Pop], bb);
    HoldsSplit(code, at, aa + [j], [Pop]);
    HoldsSplit(code, at, aa, [j]);
  }

  lemma {:induction false} AndSim(o: Oracle, env: nat, code: Code, f: Form, sc: CScope, tail: bool, m: Vm)
    requires f.And?
    requires Ready(code, f, sc, tail, m)
    ensures Simulated(o, env, code, f, sc, tail, m)
    decreases f, 0
  {
    hide CodeOf, SlotEval, Run, Depth, Holds, Runnable, Fits, Truthy;
    var aa := CodeOf(f.first, sc, false, m.ip);
    var bb := CodeOf(f.rest, sc, tail, m.ip + |aa| + 2);
    var exit := m.ip + |aa| + 2 + |bb|;
    EqAnd(f, sc, tail, m.ip);
    SlotPair(o, env, f, sc, tail, m.locals, m.world);
    KeepHolds(code, m.ip, aa, JumpIfFalseKeep(exit), bb);
    var out := SlotEval(o, env, f.first, sc, false, m.locals, m.world);
    Sim(o, env, code, f.first, sc, false, m);
    if out.r.Val? {
      RunKeep(o, env, code, Vm(m.ip + |aa|, m.stack + [out.r.v], out.locals, out.r.w), m.stack, out.r.v, exit, false);
      if Truthy(out.r.v) {
        Sim(o, env, code, f.rest, sc, tail, Vm(m.ip + |aa| + 2, m.stack, out.locals, out.r.w));
      }
    }
  }

  lemma {:induction false} OrSim(o: Oracle, env: nat, code: Code, f: Form, sc: CScope, tail: bool, m: Vm)
    requires f.Or?
    requires Ready(code, f, sc, tail, m)
    ensures Simulated(o, env, code, f, sc, tail, m)
    decreases f, 0
  {
    hide CodeOf, SlotEval, Run, Depth, Holds, Runnable, Fits, Truthy;
    var aa := CodeOf(f.first, sc, false, m.ip);
    var bb := CodeOf(f.rest, sc, tail, m.ip + |aa| + 2);
    var exit := m.ip + |aa| + 2 + |bb|;
    EqOr(f, sc, tail, m.ip);
    SlotPair(o, env, f, sc, tail, m.locals, m.world);
    KeepHolds(code, m.ip, aa, JumpIfTruthyKeep(exit), bb);
    var out := SlotEval(o, env, f.first, sc, false, m.locals, m.world);
    Sim(o, env, code, f.first, sc, false, m);
    if out.r.Val? {
      RunKeep(o, env, code, Vm(m.ip + |aa|, m.stack + [out.r.v], out.locals, out.r.w), m.stack, out.r.v, exit, true);
      if !Truthy(out.r.v) {
        Sim(o, env, code, f.rest, sc, tail, Vm(m.ip + |aa| + 2, m.stack, out.locals, out.r.w));
      }
    }
  }

  lemma {:induction false} OrLastSim(o: Oracle, env: nat, code: Code, f: Form, sc: CScope, tail: bool, m: Vm)
    requires f.OrLast?
    requires Ready(code, f, sc, tail, m)
    ensures Simulated(o, env, code, f, sc, tail, m)
    decreases f, 0
  {
    EqAtom(f, sc, tail, m.ip);
    Sim(o, env, code, f.last, sc, tail, m);
  }

  lemma {:induction false} SlotLet(o: Oracle, env: nat, f: Form, sc: CScope, tail: bool, l: seq<Value>, w: World)
    requires f.Let? && Fits(Depth(f), sc, l)
    ensures Fits(BindsDepth(f.binds), sc, l) && sc.next + BindCount(f.binds) <= |l|
    ensures
      var got := SlotBinds(o, env, f.binds, sc, sc.next, l, w);
      if got.NoGo? then SlotEval(o, env, f, sc, tail, l, w) == SlotOut(got.stop, l)
      else
        && Fits(Depth(f.body), BindScope(sc, f.binds), got.locals)
        && SlotEval(o, env, f, sc, tail, l, w) == SlotEval(o, env, f.body, BindScope(sc, f.binds), tail, got.locals,
            got.w)
  {
    BindScopeOk(sc, f.binds);
  }

  lemma {:induction false} LetSim(o: Oracle, env: nat, code: Code, f: Form, sc: CScope, tail: bool, m: Vm)
    requires f.Let?
    requires Ready(code, f, sc, tail, m)
    ensures Simulated(o, env, code, f, sc, tail, m)
    decreases f, 0
  {
    hide CodeOf, BindsCode, SlotEval, SlotBinds, Run, Depth, BindsDepth, Holds, Runnable, Fits, BindScope;
    var ii := BindsCode(f.binds, sc, sc.next, m.ip);
    var sc2 := BindScope(sc, f.binds);
    EqLet(f, sc, tail, m.ip);
    SlotLet(o, env, f, sc, tail, m.locals, m.world);
    HoldsSplit(code, m.ip, ii, CodeOf(f.body, sc2, tail, m.ip + |ii|));
    BindsSim(o, env, code, f.binds, sc, sc.next, m);
    var got := SlotBinds(o, env, f.binds, sc, sc.next, m.locals, m.world);
    if got.GotArgs? {
      Sim(o, env, code, f.body, sc2, tail, Vm(m.ip + |ii|, m.stack, got.locals, got.w));
    }
  }

  lemma {:induction false} BindsUnfold(o: Oracle, env: nat, bs: Binds, sc: CScope, slot: nat, base: nat,
      l: seq<Value>, w: World)
    requires bs.Bind? && Fits(BindsDepth(bs), sc, l) && slot + BindCount(bs) <= |l|
    ensures Fits(Depth(bs.init), sc, l) && slot < |l|
    ensures
      var ii := CodeOf(bs.init, sc, false, base);
      BindsCode(bs, sc, slot, base) == ii + [StoreLocal(slot)] + BindsCode(bs.rest, sc, slot + 1, base + |ii| + 1)
    ensures
      var out := SlotEval(o, env, bs.init, sc, false, l, w);
      var got := SlotBinds(o, env, bs, sc, slot, l, w);
      if !out.r.Val? then got == NoGo(out.r)
      else
        var l2 := out.locals[slot := out.r.v];
        && Fits(BindsDepth(bs.rest), sc, l2) && slot + 1 + BindCount(bs.rest) <= |l2|
        && var more := SlotBinds(o, env, bs.rest, sc, slot + 1, l2, out.r.w);
        got == if more.NoGo? then more else GotArgs([out.r.v] + more.vals, more.locals, more.w)
  {
  }

  lemma {:induction false} BindsSim(o: Oracle, env: nat, code: Code, bs: Binds, sc: CScope, slot: nat, m: Vm)
    requires Runnable(code) && Holds(code, m.ip, BindsCode(bs, sc, slot, m.ip))
    requires Fits(BindsDepth(bs), sc, m.locals) && slot + BindCount(bs) <= |m.locals|
    ensures Run(o, env, code, m)
         == ResumeBinds(o, env, code, m, |BindsCode(bs, sc, slot, m.ip)|,
             SlotBinds(o, env, bs, sc, slot, m.locals, m.world))
    decreases bs, 1
  {
    if bs.Bind? {
      BindsStep(o, env, code, bs, sc, slot, m);
    }
  }

  lemma {:induction false} BindsStep(o: Oracle, env: nat, code: Code, bs: Binds, sc: CScope, slot: nat, m: Vm)
    requires bs.Bind?
    requires Runnable(code) && Holds(code, m.ip, BindsCode(bs, sc, slot, m.ip))
    requires Fits(BindsDepth(bs), sc, m.locals) && slot + BindCount(bs) <= |m.locals|
    ensures Run(o, env, code, m)
         == ResumeBinds(o, env, code, m, |BindsCode(bs, sc, slot, m.ip)|,
             SlotBinds(o, env, bs, sc, slot, m.locals, m.world))
    decreases bs, 0
  {
    hide CodeOf, BindsCode, SlotEval, SlotBinds, Run, Depth, BindsDepth, BindCount, Holds, Runnable, Fits;
    BindsUnfold(o, env, bs, sc, slot, m.ip, m.locals, m.world);
    var ii := CodeOf(bs.init, sc, false, m.ip);
    var rest := BindsCode(bs.rest, sc, slot + 1, m.ip + |ii| + 1);
    HoldsSplit(code, m.ip, ii + [StoreLocal(slot)], rest);
    HoldsSplit(code, m.ip, ii, [StoreLocal(slot)]);
    Sim(o, env, code, bs.init, sc, false, m);
    var out := SlotEval(o, env, bs.init, sc, false, m.locals, m.world);
    if out.r.Val? {
      RunStore(o, env, code, Vm(m.ip + |ii|, m.stack + [out.r.v], out.locals, out.r.w), m.stack, out.r.v, slot);
      BindsSim(o, env, code, bs.rest, sc, slot + 1, Vm(m.ip + |ii| + 1, m.stack, out.locals[slot := out.r.v], out.r.w));
    }
  }

  lemma {:induction false} SlotCall(o: Oracle, env: nat, f: Form, sc: CScope, tail: bool, l: seq<Value>, w: World)
    requires f.Call? && Fits(Depth(f), sc, l)
    ensures Fits(Depth(f.fn), sc, l)
    ensures
      var out := SlotEval(o, env, f.fn, sc, false, l, w);
      && Fits(ArgsDepth(f.args), sc, out.locals)
      && !out.r.Tail?
      && if !out.r.Val? then SlotEval(o, env, f, sc, tail, l, w) == out
         else
           var got := SlotEvalArgs(o, env, f.args, sc, out.locals, out.r.w);
           && (got.GotArgs? ==> |got.vals| == ArgCount(f.args))
           && SlotEval(o, env, f, sc, tail, l, w)
              == if got.NoGo? then SlotOut(got.stop, l)
                 else if tail then SlotOut(Tail(out.r.v, got.vals, got.w), got.locals)
                 else SlotOut(o.invoke(out.r.v, got.vals, got.w), got.locals)
  {
  }

  lemma {:induction false} CallSim(o: Oracle, env: nat, code: Code, f: Form, sc: CScope, tail: bool, m: Vm)
    requires f.Call?
    requires Ready(code, f, sc, tail, m)
    ensures Simulated(o, env, code, f, sc, tail, m)
    decreases f, 0
  {
    hide CodeOf, ArgsCode, SlotEval, SlotEvalArgs, Run, Depth, ArgsDepth, Holds, Runnable, Fits, ArgCount, CallInstr;
    var ff := CodeOf(f.fn, sc, false, m.ip);
    var aa := ArgsCode(f.args, sc, m.ip + |ff|);
    EqCall(f, sc, tail, m.ip);
    SlotCall(o, env, f, sc, tail, m.locals, m.world);
    HoldsSplit(code, m.ip, ff + aa, [CallInstr(tail, ArgCount(f.args))]);
    HoldsSplit(code, m.ip, ff, aa);
    Sim(o, env, code, f.fn, sc, false, m);
    var out := SlotEval(o, env, f.fn, sc, false, m.locals, m.world);
    if out.r.Val? {
      var m1 := Vm(m.ip + |ff|, m.stack + [out.r.v], out.locals, out.r.w);
      ArgsSim(o, env, code, f.args, sc, m1);
      var got := SlotEvalArgs(o, env, f.args, sc, out.locals, out.r.w);
      if got.GotArgs? {
        RunCall(o, env, code, Vm(m.ip + |ff| + |aa|, m1.stack + got.vals, got.locals, got.w), m.stack, out.r.v,
            got.vals, tail);
      }
    }
  }

  lemma {:induction false} ArgsUnfold(o: Oracle, env: nat, args: Args, sc: CScope, base: nat, l: seq<Value>, w: World)
    requires args.Arg? && Fits(ArgsDepth(args), sc, l)
    ensures Fits(Depth(args.head), sc, l)
    ensures
      var hh := CodeOf(args.head, sc, false, base);
      ArgsCode(args, sc, base) == hh + ArgsCode(args.rest, sc, base + |hh|)
    ensures
      var out := SlotEval(o, env, args.head, sc, false, l, w);
      var got := SlotEvalArgs(o, env, args, sc, l, w);
      if !out.r.Val? then got == NoGo(out.r)
      else
        && Fits(ArgsDepth(args.rest), sc, out.locals)
        && var more := SlotEvalArgs(o, env, args.rest, sc, out.locals, out.r.w);
        got == if more.NoGo? then more else GotArgs([out.r.v] + more.vals, more.locals, more.w)
  {
  }

  lemma {:induction false} ArgsSim(o: Oracle, env: nat, code: Code, args: Args, sc: CScope, m: Vm)
    requires Runnable(code) && Holds(code, m.ip, ArgsCode(args, sc, m.ip)) && Fits(ArgsDepth(args), sc, m.locals)
    ensures Run(o, env, code, m)
         == ResumeArgs(o, env, code, m, |ArgsCode(args, sc, m.ip)|, SlotEvalArgs(o, env, args, sc, m.locals, m.world))
    decreases args, 1
  {
    if args.Arg? {
      ArgsStep(o, env, code, args, sc, m);
    } else {
      assert m.stack + [] == m.stack;
    }
  }

  lemma {:induction false} ArgsStep(o: Oracle, env: nat, code: Code, args: Args, sc: CScope, m: Vm)
    requires args.Arg?
    requires Runnable(code) && Holds(code, m.ip, ArgsCode(args, sc, m.ip)) && Fits(ArgsDepth(args), sc, m.locals)
    ensures Run(o, env, code, m)
         == ResumeArgs(o, env, code, m, |ArgsCode(args, sc, m.ip)|, SlotEvalArgs(o, env, args, sc, m.locals, m.world))
    decreases args, 0
  {
    hide CodeOf, ArgsCode, SlotEval, SlotEvalArgs, Run, Depth, ArgsDepth, Holds, Runnable, Fits;
    ArgsUnfold(o, env, args, sc, m.ip, m.locals, m.world);
    var hh := CodeOf(args.head, sc, false, m.ip);
    HoldsSplit(code, m.ip, hh, ArgsCode(args.rest, sc, m.ip + |hh|));
    Sim(o, env, code, args.head, sc, false, m);
    var out := SlotEval(o, env, args.head, sc, false, m.locals, m.world);
    if out.r.Val? {
      var m1 := Vm(m.ip + |hh|, m.stack + [out.r.v], out.locals, out.r.w);
      ArgsSim(o, env, code, args.rest, sc, m1);
      var more := SlotEvalArgs(o, env, args.rest, sc, out.locals, out.r.w);
      if more.GotArgs? {
        assert m1.stack + more.vals == m.stack + ([out.r.v] + more.vals);
      }
    }
  }
}
