/** The instruction set of src/compiled_eval.hpp and the code generated for each form. */
module Bytecode {
  import opened Values
  import opened Forms

  datatype Instr =
    | PushConst(literal: Value)
    | LoadLocal(index: nat)
    | LoadName(text: string)
    | StoreLocal(index: nat)
    | Pop
    | Jump(index: nat)
    | JumpIfFalse(index: nat)
    | JumpIfFalseKeep(index: nat)
    | JumpIfTruthyKeep(index: nat)
    | CallN(index: nat)
    | TailCallN(index: nat)
    | ReturnValue

  type Code = seq<Instr>

  /** `compile_scope`: visible names and the first free slot. */
  datatype CScope = CScope(slots: map<string, nat>, next: nat)

  /** The scope of a let body: binding number k gets slot `next + k`, a repeated name its last slot. */
  function BindScope(sc: CScope, bs: Binds): CScope
    decreases bs
  {
    if bs.NoBinds? then sc
    else BindScope(CScope(sc.slots[bs.name := sc.next], sc.next + 1), bs.rest)
  }

  function RefInstr(name: string, sc: CScope): Instr {
    if name in sc.slots then LoadLocal(sc.slots[name]) else LoadName(name)
  }

  function IfCode(cc: Code, tt: Code, ee: Code, base: nat): Code {
    cc + [JumpIfFalse(base + |cc| + |tt| + 2)] + tt + [Jump(base + |cc| + |tt| + 2 + |ee|)] + ee
  }

  /** The code of a form placed at address `base`; jump operands are absolute addresses. */
  function CodeOf(f: Form, sc: CScope, tail: bool, base: nat): Code
    decreases f
  {
    match f
    case Lit(v) => [PushConst(v)]
    case Ref(name) => [RefInstr(name, sc)]
    case If(c, t, e) =>
      var cc := CodeOf(c, sc, false, base);
      var tt := CodeOf(t, sc, tail, base + |cc| + 1);
      var ee := CodeOf(e, sc, tail, base + |cc| + |tt| + 2);
      IfCode(cc, tt, ee, base)
    case Then(a, b) =>
      var aa := CodeOf(a, sc, false, base);
      aa + [Pop] + CodeOf(b, sc, tail, base + |aa| + 1)
    case And(a, b) =>
      var aa := CodeOf(a, sc, false, base);
      var bb := CodeOf(b, sc, tail, base + |aa| + 2);
      AndCode(aa, bb, base)
    case Or(a, b) =>
      var aa := CodeOf(a, sc, false, base);
      var bb := CodeOf(b, sc, tail, base + |aa| + 2);
      OrCode(aa, bb, base)
    case OrLast(e) => CodeOf(e, sc, tail, base)
    case Let(bs, body) =>
      var ii := BindsCode(bs, sc, sc.next, base);
      ii + CodeOf(body, BindScope(sc, bs), tail, base + |ii|)
    case Call(fn, args) =>
      var ff := CodeOf(fn, sc, false, base);
      ff + ArgsCode(args, sc, base + |ff|) + [CallInstr(tail, ArgCount(args))]
  }

  function ArgsCode(args: Args, sc: CScope, base: nat): Code
    decreases args
  {
    if args.NoArgs? then []
    else
      var hh := CodeOf(args.head, sc, false, base);
      hh + ArgsCode(args.rest, sc, base + |hh|)
  }

  /** Initialisers are compiled in the scope outside the let, so `sc` does not grow from one to the next. */
  function BindsCode(bs: Binds, sc: CScope, slot: nat, base: nat): Code
    decreases bs
  {
    if bs.NoBinds? then []
    else
      var ii := CodeOf(bs.init, sc, false, base);
      ii + [StoreLocal(slot)] + BindsCode(bs.rest, sc, slot + 1, base + |ii| + 1)
  }

  datatype Compiled = Compiled(code: Code, localCount: nat)

  function ParamScope(params: seq<string>): (sc: CScope)
    ensures sc.next == |params|
    ensures forall name <- sc.slots :: sc.slots[name] < |params| && params[sc.slots[name]] == name
  {
    if params == [] then CScope(map[], 0)
    else
      var n := |params| - 1;
      var sc := ParamScope(params[..n]);
      CScope(sc.slots[params[n] := n], n + 1)
  }

  /** What `try_compile_closure` produces; None when some form of the body is refused. */
  function CompileClosure(params: seq<string>, body: seq<Value>): Option<Compiled> {
    var f := ParseSequence(body);
    if f.None? then None
    else Some(Compiled(CodeOf(f.value, ParamScope(params), true, 0) + [ReturnValue], |params| + Depth(f.value)))
  }

  predicate IsJump(i: Instr) {
    i.Jump? || i.JumpIfFalse? || i.JumpIfFalseKeep? || i.JumpIfTruthyKeep?
  }

  /** Every jump of code placed at `base` goes strictly forward and at most to the code's end. */
  predicate ForwardFrom(code: Code, base: nat) {
    forall i :: 0 <= i < |code| && IsJump(code[i]) ==> base + i < code[i].index <= base + |code|
  }

  lemma {:induction false} ForwardConcat(a: Code, b: Code, base: nat)
    requires ForwardFrom(a, base)
    requires ForwardFrom(b, base + |a|)
    ensures ForwardFrom(a + b, base)
  {
    forall i | 0 <= i < |a + b| && IsJump((a + b)[i])
      ensures base + i < (a + b)[i].index <= base + |a + b|
    {
      if i >= |a| {
        assert b[i - |a|] == (a + b)[i];
        assert base + |a| + (i - |a|) < b[i - |a|].index;
      }
    }
  }

  lemma {:induction false} ForwardOne(i: Instr, base: nat, rest: Code)
    requires ForwardFrom(rest, base + 1)
    requires IsJump(i) ==> base < i.index <= base + 1 + |rest|
    ensures ForwardFrom([i] + rest, base)
  {
    var c := [i] + rest;
    forall k | 0 <= k < |c| && IsJump(c[k])
      ensures base + k < c[k].index <= base + |c|
    {
      if k > 0 {
        assert c[k] == rest[k - 1];
        assert base + 1 + (k - 1) < rest[k - 1].index;
      }
    }
  }

  // The defining equations of CodeOf, one per composite form, for proofs that hide CodeOf itself.

  function AndCode(aa: Code, bb: Code, base: nat): Code {
    aa + [JumpIfFalseKeep(base + |aa| + 2 + |bb|), Pop] + bb
  }

  function OrCode(aa: Code, bb: Code, base: nat): Code {
    aa + [JumpIfTruthyKeep(base + |aa| + 2 + |bb|), Pop] + bb
  }

  function CallInstr(tail: bool, n: nat): Instr {
    if tail then TailCallN(n) else CallN(n)
  }

  lemma {:induction false} EqAtom(f: Form, sc: CScope, tail: bool, base: nat)
    requires f.Lit? || f.Ref? || f.OrLast?
    ensures f.Lit? ==> CodeOf(f, sc, tail, base) == [PushConst(f.v)]
    ensures f.Ref? ==> CodeOf(f, sc, tail, base) == [RefInstr(f.name, sc)]
    ensures f.OrLast? ==> CodeOf(f, sc, tail, base) == CodeOf(f.last, sc, tail, base)
  {
  }

  lemma {:induction false} EqIf(f: Form, sc: CScope, tail: bool, base: nat)
    requires f.If?
    ensures
      var cc := CodeOf(f.test, sc, false, base);
      var tt := CodeOf(f.thn, sc, tail, base + |cc| + 1);
      CodeOf(f, sc, tail, base) == IfCode(cc, tt, CodeOf(f.els, sc, tail, base + |cc| + |tt| + 2), base)
  {
  }

  lemma {:induction false} EqThen(f: Form, sc: CScope, tail: bool, base: nat)
    requires f.Then?
    ensures
      var aa := CodeOf(f.first, sc, false, base);
      CodeOf(f, sc, tail, base) == aa + [Pop] + CodeOf(f.rest, sc, tail, base + |aa| + 1)
  {
  }

  lemma {:induction false} EqAnd(f: Form, sc: CScope, tail: bool, base: nat)
    requires f.And?
    ensures
      var aa := CodeOf(f.first, sc, false, base);
      CodeOf(f, sc, tail, base) == AndCode(aa, CodeOf(f.rest, sc, tail, base + |aa| + 2), base)
  {
  }

  lemma {:induction false} EqOr(f: Form, sc: CScope, tail: bool, base: nat)
    requires f.Or?
    ensures
      var aa := CodeOf(f.first, sc, false, base);
      CodeOf(f, sc, tail, base) == OrCode(aa, CodeOf(f.rest, sc, tail, base + |aa| + 2), base)
  {
  }

  lemma {:induction false} EqLet(f: Form, sc: CScope, tail: bool, base: nat)
    requires f.Let?
    ensures
      var ii := BindsCode(f.binds, sc, sc.next, base);
      CodeOf(f, sc, tail, base) == ii + CodeOf(f.body, BindScope(sc, f.binds), tail, base + |ii|)
  {
  }

  lemma {:induction false} EqCall(f: Form, sc: CScope, tail: bool, base: nat)
    requires f.Call?
    ensures
      var ff := CodeOf(f.fn, sc, false, base);
      CodeOf(f, sc, tail, base) == ff + ArgsCode(f.args, sc, base + |ff|) + [CallInstr(tail, ArgCount(f.args))]
  {
  }

  /** All jumps of generated code are forward and stay within it. */
  lemma {:induction false} CodeForward(f: Form, sc: CScope, tail: bool, base: nat)
    ensures ForwardFrom(CodeOf(f, sc, tail, base), base)
    decreases f
  {
    hide *;
    match f
    case Lit(_) =>
      AtomForward(f, sc, tail, base);
    case Ref(_) =>
      AtomForward(f, sc, tail, base);
    case If(c, t, e) =>
      EqIf(f, sc, tail, base);
      var cc := CodeOf(c, sc, false, base);
      var tt := CodeOf(t, sc, tail, base + |cc| + 1);
      CodeForward(c, sc, false, base);
      CodeForward(t, sc, tail, base + |cc| + 1);
      CodeForward(e, sc, tail, base + |cc| + |tt| + 2);
      ForwardIf(cc, tt, CodeOf(e, sc, tail, base + |cc| + |tt| + 2), base);
    case Then(a, b) =>
      EqThen(f, sc, tail, base);
      var aa := CodeOf(a, sc, false, base);
      CodeForward(a, sc, false, base);
      CodeForward(b, sc, tail, base + |aa| + 1);
      ForwardThen(aa, CodeOf(b, sc, tail, base + |aa| + 1), base);
    case And(a, b) =>
      EqAnd(f, sc, tail, base);
      var aa := CodeOf(a, sc, false, base);
      CodeForward(a, sc, false, base);
      CodeForward(b, sc, tail, base + |aa| + 2);
      ForwardTest(aa, CodeOf(b, sc, tail, base + |aa| + 2), base);
    case Or(a, b) =>
      EqOr(f, sc, tail, base);
      var aa := CodeOf(a, sc, false, base);
      CodeForward(a, sc, false, base);
      CodeForward(b, sc, tail, base + |aa| + 2);
      ForwardTest(aa, CodeOf(b, sc, tail, base + |aa| + 2), base);
    case OrLast(e) =>
      EqAtom(f, sc, tail, base);
      CodeForward(e, sc, tail, base);
    case Let(bs, body) =>
      EqLet(f, sc, tail, base);
      var ii := BindsCode(bs, sc, sc.next, base);
      BindsForward(bs, sc, sc.next, base);
      CodeForward(body, BindScope(sc, bs), tail, base + |ii|);
      ForwardConcat(ii, CodeOf(body, BindScope(sc, bs), tail, base + |ii|), base);
    case Call(fn, args) =>
      EqCall(f, sc, tail, base);
      var ff := CodeOf(fn, sc, false, base);
      CodeForward(fn, sc, false, base);
      ArgsForward(args, sc, base + |ff|);
      ForwardConcat(ff, ArgsCode(args, sc, base + |ff|), base);
      ForwardCall(ff + ArgsCode(args, sc, base + |ff|), tail, ArgCount(args), base);
  }

  lemma {:induction false} AtomForward(f: Form, sc: CScope, tail: bool, base: nat)
    requires f.Lit? || f.Ref?
    ensures ForwardFrom(CodeOf(f, sc, tail, base), base)
  {
  }

  lemma {:induction false} ForwardCall(c: Code, tail: bool, n: nat, base: nat)
    requires ForwardFrom(c, base)
    ensures ForwardFrom(c + [CallInstr(tail, n)], base)
  {
    ForwardConcat(c, [CallInstr(tail, n)], base);
  }

  lemma {:induction false} ForwardIf(cc: Code, tt: Code, ee: Code, base: nat)
    requires ForwardFrom(cc, base)
    requires ForwardFrom(tt, base + |cc| + 1)
    requires ForwardFrom(ee, base + |cc| + |tt| + 2)
    ensures ForwardFrom(IfCode(cc, tt, ee, base), base)
  {
    var j1, j2 := JumpIfFalse(base + |cc| + |tt| + 2), Jump(base + |cc| + |tt| + 2 + |ee|);
    ForwardOne(j2, base + |cc| + |tt| + 1, ee);
    ForwardConcat(tt, [j2] + ee, base + |cc| + 1);
    ForwardOne(j1, base + |cc|, tt + ([j2] + ee));
    ForwardConcat(cc, [j1] + (tt + ([j2] + ee)), base);
    assert IfCode(cc, tt, ee, base) == cc + ([j1] + (tt + ([j2] + ee)));
  }

  lemma {:induction false} ForwardThen(aa: Code, bb: Code, base: nat)
    requires ForwardFrom(aa, base) && ForwardFrom(bb, base + |aa| + 1)
    ensures ForwardFrom(aa + [Pop] + bb, base)
  {
    ForwardOne(Pop, base + |aa|, bb);
    ForwardConcat(aa, [Pop] + bb, base);
    assert aa + [Pop] + bb == aa + ([Pop] + bb);
  }

  lemma {:induction false} ForwardTest(aa: Code, bb: Code, base: nat)
    requires ForwardFrom(aa, base) && ForwardFrom(bb, base + |aa| + 2)
    ensures ForwardFrom(AndCode(aa, bb, base), base) && ForwardFrom(OrCode(aa, bb, base), base)
  {
    var j1, j2 := JumpIfFalseKeep(base + |aa| + 2 + |bb|), JumpIfTruthyKeep(base + |aa| + 2 + |bb|);
    ForwardOne(Pop, base + |aa| + 1, bb);
    ForwardOne(j1, base + |aa|, [Pop] + bb);
    ForwardOne(j2, base + |aa|, [Pop] + bb);
    ForwardConcat(aa, [j1] + ([Pop] + bb), base);
    ForwardConcat(aa, [j2] + ([Pop] + bb), base);
    assert AndCode(aa, bb, base) == aa + ([j1] + ([Pop] + bb));
    assert OrCode(aa, bb, base) == aa + ([j2] + ([Pop] + bb));
  }

  lemma {:induction false} ArgsForward(args: Args, sc: CScope, base: nat)
    ensures ForwardFrom(ArgsCode(args, sc, base), base)
    decreases args
  {
    if args.Arg? {
      var hh := CodeOf(args.head, sc, false, base);
      CodeForward(args.head, sc, false, base);
      ArgsForward(args.rest, sc, base + |hh|);
      ForwardConcat(hh, ArgsCode(args.rest, sc, base + |hh|), base);
    }
  }

  lemma {:induction false} BindsForward(bs: Binds, sc: CScope, slot: nat, base: nat)
    ensures ForwardFrom(BindsCode(bs, sc, slot, base), base)
    decreases bs
  {
    if bs.Bind? {
      var ii := CodeOf(bs.init, sc, false, base);
      var rest := BindsCode(bs.rest, sc, slot + 1, base + |ii| + 1);
      CodeForward(bs.init, sc, false, base);
      BindsForward(bs.rest, sc, slot + 1, base + |ii| + 1);
      ForwardOne(StoreLocal(slot), base + |ii|, rest);
      ForwardConcat(ii, [StoreLocal(slot)] + rest, base);
      assert BindsCode(bs, sc, slot, base) == ii + ([StoreLocal(slot)] + rest);
    }
  }

  /** Code a closure may run: every jump lands strictly later and at most on the last instruction. */
  predicate Runnable(code: Code) {
    forall i :: 0 <= i < |code| && IsJump(code[i]) ==> i < code[i].index < |code|
  }

  lemma ForwardRuns(code: Code)
    requires ForwardFrom(code, 0)
    ensures Runnable(code + [ReturnValue])
  {
  }

  lemma {:induction false} CompiledRunnable(params: seq<string>, body: seq<Value>)
    requires CompileClosure(params, body).Some?
    ensures Runnable(CompileClosure(params, body).value.code)
  {
    hide CodeOf, ParseSequence, Runnable, ForwardFrom, ParamScope;
    var f := ParseSequence(body).value;
    CodeForward(f, ParamScope(params), true, 0);
    ForwardRuns(CodeOf(f, ParamScope(params), true, 0));
  }
}
