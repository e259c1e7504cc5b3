/** The compiler of src/compiled_eval.cpp: it appends to `code`, back-patches jumps and bumps `localCount`. */
module Compiler {
  import opened Values
  import opened Forms
  import opened Bytecode

  function SetTarget(i: Instr, target: nat): Instr {
    if IsJump(i) then i.(index := target) else i
  }

  /** `code` once the jumps at the given addresses all go to `target`. */
  function Patched(code: Code, jumps: seq<nat>, target: nat): (r: Code)
    ensures |r| == |code|
  {
    seq(|code|, (i: nat) requires i < |code| => if i in jumps then SetTarget(code[i], target) else code[i])
  }

  lemma PatchedAppend(code: Code, more: Code, jumps: seq<nat>, target: nat)
    requires forall j <- jumps :: j < |code|
    ensures Patched(code + more, jumps, target) == Patched(code, jumps, target) + more
  {
  }

  /** Emitting a keeping jump with a dummy target, a `pop`, and remembering the jump's address. */
  lemma PatchedTest(code: Code, j: Instr, jumps: seq<nat>, target: nat)
    requires IsJump(j) && forall k <- jumps :: k < |code|
    ensures Patched(code + [j] + [Pop], jumps + [|code|], target)
         == Patched(code, jumps, target) + [SetTarget(j, target), Pop]
  {
  }

  predicate AllBindings(bs: seq<Value>) {
    forall i :: 0 <= i < |bs| ==> IsBinding(bs[i])
  }

  /** The scope of a let body, from the names of its bindings alone. */
  function NamesScope(sc: CScope, bs: seq<Value>): CScope
    requires AllBindings(bs)
    decreases |bs|
  {
    if bs == [] then sc
    else NamesScope(CScope(sc.slots[Items(bs[0])[0].name := sc.next], sc.next + 1), bs[1..])
  }

  lemma {:induction false} NamesScopeIs(sc: CScope, bs: seq<Value>)
    requires ParseBinds(bs).Some?
    ensures AllBindings(bs)
    ensures NamesScope(sc, bs) == BindScope(sc, ParseBinds(bs).value)
    ensures BindCount(ParseBinds(bs).value) == |bs|
    decreases |bs|
  {
    if bs != [] {
      NamesScopeIs(CScope(sc.slots[Items(bs[0])[0].name := sc.next], sc.next + 1), bs[1..]);
      assert forall i :: 0 < i < |bs| ==> bs[i] == bs[1..][i - 1];
    }
  }

  lemma {:induction false} NoParseWithoutShape(bs: seq<Value>, i: nat)
    requires i < |bs| && !IsBinding(bs[i])
    ensures ParseBinds(bs).None?
    decreases i
  {
    if i > 0 {
      NoParseWithoutShape(bs[1..], i - 1);
    }
  }

  class Emitter {
    var code: Code
    var localCount: nat

    constructor (locals: nat)
      ensures code == [] && localCount == locals
    {
      code, localCount := [], locals;
    }

    method Emit(i: Instr)
      modifies this
      ensures code == old(code) + [i] && localCount == old(localCount)
    {
      code := code + [i];
    }

    method PatchJump(at: nat, target: nat)
      requires at < |code| && IsJump(code[at])
      modifies this
      ensures code == old(code)[at := old(code)[at].(index := target)] && localCount == old(localCount)
    {
      code := code[at := code[at].(index := target)];
    }

    /** The back-patching loop at the end of `and` and `or`. */
    method PatchAll(jumps: seq<nat>)
      requires forall j <- jumps :: j < |code| && IsJump(code[j])
      modifies this
      ensures code == Patched(old(code), jumps, |old(code)|) && localCount == old(localCount)
    {
      var target := |code|;
      var k := 0;
      while k < |jumps|
        invariant 0 <= k <= |jumps|
        invariant |code| == |old(code)| && localCount == old(localCount)
        invariant forall i :: 0 <= i < |code| ==>
                    code[i] == if i in jumps[..k] then SetTarget(old(code)[i], target) else old(code)[i]
      {
        assert jumps[..k + 1] == jumps[..k] + [jumps[k]];
        assert jumps[k] in jumps;
        PatchJump(jumps[k], target);
        k := k + 1;
      }
      assert jumps[..k] == jumps;
    }

    /** What compiling a form means: its code is appended and the frame is made large enough. */
    twostate predicate Compiles(f: Form, sc: CScope, tail: bool)
      reads this
    {
      && code == old(code) + CodeOf(f, sc, tail, |old(code)|)
      && localCount == Max(old(localCount), sc.next + Depth(f))
    }

    method CompileExpr(expr: Value, sc: CScope, tail: bool) returns (ok: bool)
      requires sc.next <= localCount
      modifies this
      ensures ok == ParseExpr(expr).Some?
      ensures ok ==> Compiles(ParseExpr(expr).value, sc, tail)
      ensures localCount >= old(localCount)
      decreases Size(expr), 1
    {
      if expr.Sym? {
        Emit(RefInstr(expr.name, sc));
        ok := true;
      } else if expr.Cons? {
        var proper := CheckProperList(expr);
        if !proper {
          return false;
        }
        ok := CompileListForm(Items(expr), sc, tail);
      } else {
        Emit(PushConst(expr));
        ok := true;
      }
    }

    method CompileListForm(items: seq<Value>, sc: CScope, tail: bool) returns (ok: bool)
      requires sc.next <= localCount
      modifies this
      ensures ok == ParseList(items).Some?
      ensures ok ==> Compiles(ParseList(items).value, sc, tail)
      ensures localCount >= old(localCount)
      decreases SeqSize(items), 2
    {
      if items == [] {
        return false;
      }
      var head, args := items[0], items[1..];
      if head == Sym("quote") {
        if |args| != 1 {
          return false;
        }
        Emit(PushConst(args[0]));
        return true;
      }
      if head == Sym("if") {
        ok := CompileIfForm(args, sc, tail);
      } else if head == Sym("begin") {
        ok := CompileSequence(args, sc, tail);
      } else if head == Sym("let") {
        ok := CompileLetForm(args, sc, tail);
      } else if head == Sym("and") {
        ok := CompileAndForm(args, sc, tail);
      } else if head == Sym("or") {
        ok := CompileOrForm(args, sc, tail);
      } else if head.Sym? && Refused(head.name) {
        ok := false;
      } else {
        ok := CompileCallForm(items, sc, tail);
      }
    }

    method CompileSequence(exprs: seq<Value>, sc: CScope, tail: bool) returns (ok: bool)
      requires sc.next <= localCount
      modifies this
      ensures ok == ParseSequence(exprs).Some?
      ensures ok ==> Compiles(ParseSequence(exprs).value, sc, tail)
      ensures localCount >= old(localCount)
      decreases SeqSize(exprs), 1
    {
      hide CodeOf, Depth, ParseSequence, ParseExpr;
      ParseSequenceCases(exprs);
      if exprs == [] {
        Emit(PushConst(Nil));
        LitCompiles(Nil, sc, tail, |old(code)|);
        return true;
      }
      var i := 0;
      while i < |exprs|
        invariant 0 <= i <= |exprs|
        invariant localCount >= old(localCount)
        invariant i < |exprs| ==> ParseSequence(exprs).Some? == ParseSequence(exprs[i..]).Some?
        invariant i < |exprs| && ParseSequence(exprs).Some? ==>
                    Remaining(old(code), old(localCount), ParseSequence(exprs).value, code, localCount,
                        ParseSequence(exprs[i..]).value, sc, tail)
        invariant i == |exprs| ==> ParseSequence(exprs).Some? && Compiles(ParseSequence(exprs).value, sc, tail)
      {
        var isLast := i + 1 == |exprs|;
        ItemSmaller(exprs, i);
        ParseSequenceCases(exprs[i..]);
        assert exprs[i..][1..] == exprs[i + 1..];
        ghost var c, n := code, localCount;
        ok := CompileExpr(exprs[i], sc, tail && isLast);
        if !ok {
          return false;
        }
        if !isLast {
          Emit(Pop);
          if ParseSequence(exprs).Some? {
            RemainingThen(old(code), old(localCount), ParseSequence(exprs).value, c, n,
                ParseSequence(exprs[i..]).value, sc, tail);
          }
        }
        i := i + 1;
      }
      return true;
    }

    method CompileIfForm(args: seq<Value>, sc: CScope, tail: bool) returns (ok: bool)
      requires sc.next <= localCount
      modifies this
      ensures ok == ParseIf(args).Some?
      ensures ok ==> Compiles(ParseIf(args).value, sc, tail)
      ensures localCount >= old(localCount)
      decreases SeqSize(args), 0
    {
      hide CodeOf, Depth, ParseExpr;
      if |args| != 2 && |args| != 3 {
        return false;
      }
      ItemSmaller(args, 0);
      ok := CompileExpr(args[0], sc, false);
      if !ok {
        return false;
      }
      var falseJump := |code|;
      Emit(JumpIfFalse(0));
      ItemSmaller(args, 1);
      ghost var c1, n1 := code, localCount;
      ok := CompileExpr(args[1], sc, tail);
      if !ok {
        return false;
      }
      var endJump := |code|;
      Emit(Jump(0));
      PatchJump(falseJump, |code|);
      ghost var c2 := code;
      if |args| == 3 {
        ItemSmaller(args, 2);
        ok := CompileExpr(args[2], sc, tail);
        if !ok {
          return false;
        }
      } else {
        Emit(PushConst(Nil));
        LitCompiles(Nil, sc, tail, |c2|);
      }
      PatchJump(endJump, |code|);
      IfEnd(old(code), ParseIf(args).value, sc, tail);
      ok := true;
    }

    method CompileAndForm(args: seq<Value>, sc: CScope, tail: bool) returns (ok: bool)
      requires sc.next <= localCount
      modifies this
      ensures ok == ParseAnd(args).Some?
      ensures ok ==> Compiles(ParseAnd(args).value, sc, tail)
      ensures localCount >= old(localCount)
      decreases SeqSize(args), 0
    {
      hide CodeOf, Depth, ParseAnd, ParseExpr, Patched, Chain;
      ParseAndCases(args);
      if args == [] {
        Emit(PushConst(Bool(true)));
        LitCompiles(Bool(true), sc, tail, |old(code)|);
        return true;
      }
      var exitJumps: seq<nat> := [];
      ghost var whole := ParseAnd(args);
      if whole.Some? {
        ChainStart(code, localCount, whole.value, sc, tail);
      }
      var i := 0;
      while i + 1 < |args|
        invariant 0 <= i < |args|
        invariant localCount >= old(localCount)
        invariant whole.Some? == ParseAnd(args[i..]).Some?
        invariant JumpsIn(code, exitJumps)
        invariant whole.Some? ==>
                    Chain(old(code), old(localCount), whole.value, code, localCount, exitJumps,
                        ParseAnd(args[i..]).value, sc, tail)
      {
        ItemSmaller(args, i);
        ParseAndCases(args[i..]);
        assert args[i..][1..] == args[i + 1..];
        ghost var c, n, jumps := code, localCount, exitJumps;
        ok := CompileExpr(args[i], sc, false);
        if !ok {
          return false;
        }
        if whole.Some? {
          ChainStep(false, old(code), old(localCount), whole.value, c, n, jumps, ParseAnd(args[i..]).value, sc, tail);
        }
        JumpsGrow(c, code, jumps, JumpIfFalseKeep(0));
        exitJumps := exitJumps + [|code|];
        Emit(JumpIfFalseKeep(0));
        Emit(Pop);
        i := i + 1;
      }
      ItemSmaller(args, i);
      ParseAndCases(args[i..]);
      ghost var c, n := code, localCount;
      ok := CompileExpr(args[i], sc, tail);
      if !ok {
        return false;
      }
      JumpsKept(c, code, exitJumps);
      ChainEnd(old(code), old(localCount), whole.value, c, n, exitJumps, ParseAnd(args[i..]).value,
          ParseExpr(args[i]).value, sc, tail);
      PatchAll(exitJumps);
    }

    method CompileOrForm(args: seq<Value>, sc: CScope, tail: bool) returns (ok: bool)
      requires sc.next <= localCount
      modifies this
      ensures ok == ParseOr(args).Some?
      ensures ok ==> Compiles(ParseOr(args).value, sc, tail)
      ensures localCount >= old(localCount)
      decreases SeqSize(args), 0
    {
      hide CodeOf, Depth, ParseOr, ParseExpr, Patched, Chain;
      ParseOrCases(args);
      if args == [] {
        Emit(PushConst(Nil));
        LitCompiles(Nil, sc, tail, |old(code)|);
        return true;
      }
      var exitJumps: seq<nat> := [];
      ghost var whole := ParseOr(args);
      if whole.Some? {
        ChainStart(code, localCount, whole.value, sc, tail);
      }
      var i := 0;
      while i + 1 < |args|
        invariant 0 <= i < |args|
        invariant localCount >= old(localCount)
        invariant whole.Some? == ParseOr(args[i..]).Some?
        invariant JumpsIn(code, exitJumps)
        invariant whole.Some? ==>
                    Chain(old(code), old(localCount), whole.value, code, localCount, exitJumps,
                        ParseOr(args[i..]).value, sc, tail)
      {
        ItemSmaller(args, i);
        ParseOrCases(args[i..]);
        assert args[i..][1..] == args[i + 1..];
        ghost var c, n, jumps := code, localCount, exitJumps;
        ok := CompileExpr(args[i], sc, false);
        if !ok {
          return false;
        }
        if whole.Some? {
          ChainStep(true, old(code), old(localCount), whole.value, c, n, jumps, ParseOr(args[i..]).value, sc, tail);
        }
        JumpsGrow(c, code, jumps, JumpIfTruthyKeep(0));
        exitJumps := exitJumps + [|code|];
        Emit(JumpIfTruthyKeep(0));
        Emit(Pop);
        i := i + 1;
      }
      ItemSmaller(args, i);
      ParseOrCases(args[i..]);
      ghost var c, n := code, localCount;
      ok := CompileExpr(args[i], sc, tail);
      if !ok {
        return false;
      }
      JumpsKept(c, code, exitJumps);
      ChainEnd(old(code), old(localCount), whole.value, c, n, exitJumps, ParseOr(args[i..]).value,
          ParseExpr(args[i]).value, sc, tail);
      PatchAll(exitJumps);
    }

    method CompileLetForm(args: seq<Value>, sc: CScope, tail: bool) returns (ok: bool)
      requires sc.next <= localCount
      modifies this
      ensures ok == ParseLet(args).Some?
      ensures ok ==> Compiles(ParseLet(args).value, sc, tail)
      ensures localCount >= old(localCount)
      decreases SeqSize(args), 1
    {
      hide CodeOf, BindsCode, BindScope, NamesScope, Depth, BindsDepth, BindCount, ParseBinds, ParseSequence,
          ParseExpr, ParseLet,
           IsBinding, AllBindings, SeqSize, Size, Items, IsProperList;
      if |args| < 2 {
        ParseLetCases(args);
        return false;
      }
      ParseLetCases(args);
      var listed := VectorFromList(args[0]);
      if listed.None? {
        return false;
      }
      var bindings := listed.value;
      var planned, bodyScope, inits := PlanBindings(bindings, sc);
      if !planned {
        return false;
      }
      if bodyScope.next > localCount {
        localCount := bodyScope.next;
      }
      ok := CompileInits(bindings, inits, sc);
      if !ok {
        return false;
      }
      NamesScopeIs(sc, bindings);
      ghost var c, n := code, localCount;
      ok := CompileSequence(args[1..], bodyScope, tail);
      if ok {
        LetEnd(old(code), old(localCount), ParseLet(args).value, c, sc, tail);
      }
    }

    /** The first loop of `let`: check the bindings' shape and give each a slot. */
    static method PlanBindings(bindings: seq<Value>, sc: CScope)
        returns (ok: bool, bodyScope: CScope, inits: seq<(Value, nat)>)
      ensures !ok ==> ParseBinds(bindings).None?
      ensures ok ==> AllBindings(bindings) && bodyScope == NamesScope(sc, bindings)
      ensures ok ==> bodyScope.next == sc.next + |bindings|
      ensures ok ==> |inits| == |bindings|
      ensures ok ==> forall k :: 0 <= k < |inits| ==> inits[k] == (Items(bindings[k])[1], sc.next + k)
    {
      hide NamesScope, ParseBinds;
      bodyScope, inits, ok := sc, [], true;
      NamesScopeEmpty(sc);
      assert bindings[..0] == [];
      var i := 0;
      while i < |bindings|
        invariant 0 <= i <= |bindings|
        invariant AllBindings(bindings[..i])
        invariant bodyScope == NamesScope(sc, bindings[..i]) && bodyScope.next == sc.next + i
        invariant |inits| == i
        invariant forall k :: 0 <= k < i ==> IsBinding(bindings[k]) && inits[k] == (Items(bindings[k])[1], sc.next + k)
      {
        if !IsBinding(bindings[i]) {
          NoParseWithoutShape(bindings, i);
          ok := false;
          return;
        }
        var slot := bodyScope.next;
        NamesScopeSnoc(sc, bindings[..i], bindings[i]);
        assert bindings[..i + 1] == bindings[..i] + [bindings[i]];
        bodyScope := CScope(bodyScope.slots[Items(bindings[i])[0].name := slot], slot + 1);
        inits := inits + [(Items(bindings[i])[1], slot)];
        i := i + 1;
      }
      assert bindings[..i] == bindings;
    }

    /** The second loop of `let`: every initialiser in the outer scope, then its store. */
    method CompileInits(bindings: seq<Value>, inits: seq<(Value, nat)>, sc: CScope) returns (ok: bool)
      requires sc.next <= localCount
      requires AllBindings(bindings) && |inits| == |bindings|
      requires forall k :: 0 <= k < |inits| ==> inits[k] == (Items(bindings[k])[1], sc.next + k)
      modifies this
      ensures ok == ParseBinds(bindings).Some?
      ensures ok ==> code == old(code) + BindsCode(ParseBinds(bindings).value, sc, sc.next, |old(code)|)
      ensures ok ==> localCount == Max(old(localCount), sc.next + BindsDepth(ParseBinds(bindings).value))
      ensures localCount >= old(localCount)
      decreases SeqSize(bindings), 0
    {
      hide CodeOf, BindsCode, Depth, BindsDepth, ParseBinds, ParseExpr;
      ghost var whole := ParseBinds(bindings);
      assert bindings[0..] == bindings;
      var i := 0;
      while i < |inits|
        invariant 0 <= i <= |inits|
        invariant localCount >= old(localCount)
        invariant whole.Some? == ParseBinds(bindings[i..]).Some?
        invariant whole.Some? ==>
                    InitsLeft(old(code), old(localCount), whole.value, sc.next, code, localCount,
                        ParseBinds(bindings[i..]).value, sc.next + i, sc)
      {
        SuffixSmaller(bindings, i);
        ParseBindsCases(bindings[i..]);
        assert bindings[i..][0] == bindings[i] && bindings[i..][1..] == bindings[i + 1..];
        ghost var c, n := code, localCount;
        ok := CompileExpr(inits[i].0, sc, false);
        if !ok {
          return false;
        }
        Emit(StoreLocal(inits[i].1));
        if whole.Some? {
          InitsStep(old(code), old(localCount), whole.value, sc.next, c, n, ParseBinds(bindings[i..]).value,
              sc.next + i, sc);
        }
        i := i + 1;
      }
      ParseBindsCases(bindings[i..]);
      InitsEnd(old(code), old(localCount), whole.value, sc.next, code, localCount, sc.next + i, sc);
      ok := true;
    }

    method CompileCallForm(items: seq<Value>, sc: CScope, tail: bool) returns (ok: bool)
      requires sc.next <= localCount && items != []
      modifies this
      ensures ok == ParseCall(items).Some?
      ensures ok ==> Compiles(ParseCall(items).value, sc, tail)
      ensures localCount >= old(localCount)
      decreases SeqSize(items), 1
    {
      hide CodeOf, ArgsCode, Depth, ArgsDepth, ParseArgs, ParseExpr, ArgCount;
      ItemSmaller(items, 0);
      ok := CompileExpr(items[0], sc, false);
      if !ok {
        return false;
      }
      ghost var c0, n0 := code, localCount;
      ghost var whole := ParseArgs(items[1..]);
      var i := 1;
      while i < |items|
        invariant 1 <= i <= |items|
        invariant localCount >= old(localCount)
        invariant whole.Some? == ParseArgs(items[i..]).Some?
        invariant whole.Some? ==> ArgsLeft(c0, n0, whole.value, code, localCount, ParseArgs(items[i..]).value, sc)
      {
        ItemSmaller(items, i);
        ParseArgsCases(items[i..]);
        assert items[i..][1..] == items[i + 1..];
        ghost var c, n := code, localCount;
        ok := CompileExpr(items[i], sc, false);
        if !ok {
          return false;
        }
        if whole.Some? {
          ArgsStep(c0, n0, whole.value, c, n, ParseArgs(items[i..]).value, sc);
        }
        i := i + 1;
      }
      ParseArgsCases(items[i..]);
      ghost var c, n := code, localCount;
      if tail {
        Emit(TailCallN(|items| - 1));
      } else {
        Emit(CallN(|items| - 1));
      }
      ParseArgsCount(items[1..]);
      CallEnd(old(code), old(localCount), ParseCall(items).value, c0, c, n, sc, tail);
      ok := true;
    }
  }

  /** `try_compile_closure`. */
  method TryCompileClosure(params: seq<string>, body: seq<Value>) returns (compiled: Option<Compiled>)
    ensures compiled == CompileClosure(params, body)
  {
    hide CodeOf, Depth, ParseSequence;
    var slots: map<string, nat> := map[];
    var i := 0;
    while i < |params|
      invariant 0 <= i <= |params|
      invariant CScope(slots, i) == ParamScope(params[..i])
    {
      assert params[..i + 1][..i] == params[..i];
      slots := slots[params[i] := i];
      i := i + 1;
    }
    assert params[..i] == params;
    var out := new Emitter(|params|);
    var ok := out.CompileSequence(body, CScope(slots, |params|), true);
    if !ok {
      return None;
    }
    assert out.code == CodeOf(ParseSequence(body).value, ParamScope(params), true, 0);
    out.Emit(ReturnValue);
    compiled := Some(Compiled(out.code, out.localCount));
  }

  // ----- one step of each loop -----

  /** Code `c` with frame size `n` still lacks the code of `rest` to be that of `whole` after `c0`, `n0`. */
  ghost predicate Remaining(c0: Code, n0: nat, whole: Form, c: Code, n: nat, rest: Form, sc: CScope, tail: bool) {
    && c0 + CodeOf(whole, sc, tail, |c0|) == c + CodeOf(rest, sc, tail, |c|)
    && Max(n0, sc.next + Depth(whole)) == Max(n, sc.next + Depth(rest))
  }

  lemma {:induction false} LitCompiles(v: Value, sc: CScope, tail: bool, base: nat)
    ensures CodeOf(Lit(v), sc, tail, base) == [PushConst(v)] && Depth(Lit(v)) == 0
  {
  }

  lemma {:induction false} RemainingThen(c0: Code, n0: nat, whole: Form, c: Code, n: nat, f: Form, sc: CScope,
      tail: bool)
    requires f.Then? && Remaining(c0, n0, whole, c, n, f, sc, tail)
    ensures Remaining(c0, n0, whole, c + CodeOf(f.first, sc, false, |c|) + [Pop], Max(n, sc.next + Depth(f.first)),
        f.rest, sc, tail)
  {
    hide CodeOf, Depth;
    PairDepth(f);
    var aa := CodeOf(f.first, sc, false, |c|);
    EqThen(f, sc, tail, |c|);
    var bb := CodeOf(f.rest, sc, tail, |c| + |aa| + 1);
    assert |c + aa + [Pop]| == |c| + |aa| + 1;
    assert c + (aa + [Pop] + bb) == c + aa + [Pop] + bb;
  }

  lemma {:induction false} ParseSequenceCases(es: seq<Value>)
    ensures es == [] ==> ParseSequence(es) == Some(Lit(Nil))
    ensures |es| == 1 ==> ParseSequence(es) == ParseExpr(es[0])
    ensures |es| > 1 ==> ParseSequence(es).Some? == (ParseExpr(es[0]).Some? && ParseSequence(es[1..]).Some?)
    ensures |es| > 1 && ParseSequence(es).Some? ==>
              ParseSequence(es).value == Then(ParseExpr(es[0]).value, ParseSequence(es[1..]).value)
  {
  }

  // `if`

  /** The two patches of `if`, on the code as it stands when each is made. */
  lemma {:induction false} IfEnd(c0: Code, f: Form, sc: CScope, tail: bool)
    requires f.If?
    ensures
      var cc := CodeOf(f.test, sc, false, |c0|);
      var tt := CodeOf(f.thn, sc, tail, |c0 + cc + [JumpIfFalse(0)]|);
      var open := c0 + cc + [JumpIfFalse(0)] + tt + [Jump(0)];
      var half := open[|c0 + cc| := JumpIfFalse(|open|)];
      var full := half + CodeOf(f.els, sc, tail, |half|);
      full[|c0 + cc + [JumpIfFalse(0)] + tt| := Jump(|full|)] == c0 + CodeOf(f, sc, tail, |c0|)
    ensures Depth(f) == Max(Depth(f.test), Max(Depth(f.thn), Depth(f.els)))
  {
    hide CodeOf, Depth;
    EqIf(f, sc, tail, |c0|);
    IfDepth(f);
    var cc := CodeOf(f.test, sc, false, |c0|);
    assert |c0 + cc + [JumpIfFalse(0)]| == |c0| + |cc| + 1;
    var tt := CodeOf(f.thn, sc, tail, |c0| + |cc| + 1);
    assert |c0 + cc + [JumpIfFalse(0)] + tt + [Jump(0)]| == |c0| + |cc| + |tt| + 2;
    IfPatches(c0, cc, tt, CodeOf(f.els, sc, tail, |c0| + |cc| + |tt| + 2));
  }

  lemma {:induction false} IfDepth(f: Form)
    requires f.If?
    ensures Depth(f) == Max(Depth(f.test), Max(Depth(f.thn), Depth(f.els)))
  {
  }

  lemma IfPatches(c0: Code, cc: Code, tt: Code, ee: Code)
    ensures
      var open := c0 + cc + [JumpIfFalse(0)] + tt + [Jump(0)];
      var half := open[|c0 + cc| := JumpIfFalse(|open|)];
      var full := half + ee;
      full[|c0 + cc + [JumpIfFalse(0)] + tt| := Jump(|full|)] == c0 + IfCode(cc, tt, ee, |c0|)
  {
  }

  // `and`, `or`

  predicate JumpsIn(c: Code, jumps: seq<nat>) {
    forall k :: 0 <= k < |jumps| ==> jumps[k] < |c| && IsJump(c[jumps[k]])
  }

  /** As `Remaining`, with the exits emitted so far still to be pointed at the end. */
  ghost predicate Chain(c0: Code, n0: nat, whole: Form, c: Code, n: nat, jumps: seq<nat>, rest: Form, sc: CScope,
      tail: bool) {
    && c0 + CodeOf(whole, sc, tail, |c0|)
       == Patched(c, jumps, |c0| + |CodeOf(whole, sc, tail, |c0|)|) + CodeOf(rest, sc, tail, |c|)
    && Max(n0, sc.next + Depth(whole)) == Max(n, sc.next + Depth(rest))
    && JumpsIn(c, jumps)
  }

  lemma {:induction false} ChainStart(c: Code, n: nat, whole: Form, sc: CScope, tail: bool)
    ensures Chain(c, n, whole, c, n, [], whole, sc, tail)
  {
    assert Patched(c, [], |c| + |CodeOf(whole, sc, tail, |c|)|) == c;
  }

  lemma JumpsKept(c: Code, c2: Code, jumps: seq<nat>)
    requires JumpsIn(c, jumps) && c <= c2
    ensures JumpsIn(c2, jumps)
  {
  }

  lemma JumpsGrow(c: Code, c2: Code, jumps: seq<nat>, j: Instr)
    requires JumpsIn(c, jumps) && c <= c2 && IsJump(j)
    ensures JumpsIn(c2 + [j] + [Pop], jumps + [|c2|])
  {
  }

  lemma {:induction false} ChainStep(isOr: bool, c0: Code, n0: nat, whole: Form, c: Code, n: nat, jumps: seq<nat>,
      f: Form, sc: CScope, tail: bool)
    requires Chain(c0, n0, whole, c, n, jumps, f, sc, tail)
    requires if isOr then f.Or? else f.And?
    ensures
      var at := c + CodeOf(f.first, sc, false, |c|);
      var j := if isOr then JumpIfTruthyKeep(0) else JumpIfFalseKeep(0);
      Chain(c0, n0, whole, at + [j] + [Pop], Max(n, sc.next + Depth(f.first)), jumps + [|at|], f.rest, sc, tail)
  {
    hide CodeOf, Depth, Patched;
    var aa := CodeOf(f.first, sc, false, |c|);
    var bb := CodeOf(f.rest, sc, tail, |c| + |aa| + 2);
    var end := |c0| + |CodeOf(whole, sc, tail, |c0|)|;
    var j := if isOr then JumpIfTruthyKeep(0) else JumpIfFalseKeep(0);
    if isOr {
      EqOr(f, sc, tail, |c|);
    } else {
      EqAnd(f, sc, tail, |c|);
    }
    PairDepth(f);
    ChainJoin(c0 + CodeOf(whole, sc, tail, |c0|), c, jumps, aa, bb, j, CodeOf(f, sc, tail, |c|), end);
    JumpsGrow(c, c + aa, jumps, j);
    assert |c + aa + [j] + [Pop]| == |c| + |aa| + 2;
  }

  lemma {:induction false} PairDepth(f: Form)
    requires f.Then? || f.And? || f.Or?
    ensures Depth(f) == Max(Depth(f.first), Depth(f.rest))
  {
  }

  lemma ChainJoin(all: Code, c: Code, jumps: seq<nat>, aa: Code, bb: Code, j: Instr, ff: Code, end: nat)
    requires JumpsIn(c, jumps) && IsJump(j)
    requires |all| == end && all == Patched(c, jumps, end) + ff
    requires ff == aa + [SetTarget(j, |c| + |aa| + 2 + |bb|), Pop] + bb
    ensures all == Patched(c + aa + [j] + [Pop], jumps + [|c + aa|], end) + bb
  {
    assert |Patched(c, jumps, end)| == |c|;
    assert end == |c| + |aa| + 2 + |bb|;
    PatchedAppend(c, aa, jumps, end);
    PatchedTest(c + aa, j, jumps, end);
    var p := Patched(c, jumps, end);
    assert p + (aa + [SetTarget(j, end), Pop] + bb) == p + aa + [SetTarget(j, end), Pop] + bb;
  }

  lemma {:induction false} ChainEnd(c0: Code, n0: nat, whole: Form, c: Code, n: nat, jumps: seq<nat>, rest: Form,
      last: Form, sc: CScope, tail: bool)
    requires Chain(c0, n0, whole, c, n, jumps, rest, sc, tail)
    requires rest == last || rest == OrLast(last)
    ensures
      var done := c + CodeOf(last, sc, tail, |c|);
      && Patched(done, jumps, |done|) == c0 + CodeOf(whole, sc, tail, |c0|)
      && Max(n, sc.next + Depth(last)) == Max(n0, sc.next + Depth(whole))
      && (forall j <- jumps :: j < |done| && IsJump(done[j]))
  {
    hide CodeOf, Depth, Patched;
    if rest != last {
      OrLastSame(last, sc, tail, |c|);
    }
    var ll := CodeOf(last, sc, tail, |c|);
    var end := |c0| + |CodeOf(whole, sc, tail, |c0|)|;
    PatchedAppend(c, ll, jumps, end);
    JumpsKept(c, c + ll, jumps);
  }

  lemma {:induction false} OrLastSame(last: Form, sc: CScope, tail: bool, base: nat)
    ensures CodeOf(OrLast(last), sc, tail, base) == CodeOf(last, sc, tail, base) && Depth(OrLast(last)) == Depth(last)
  {
  }

  lemma {:induction false} ParseAndCases(es: seq<Value>)
    ensures es == [] ==> ParseAnd(es) == Some(Lit(Bool(true)))
    ensures es != [] ==> es[0..] == es
    ensures |es| == 1 ==> ParseAnd(es) == ParseExpr(es[0])
    ensures |es| > 1 ==> ParseAnd(es).Some? == (ParseExpr(es[0]).Some? && ParseAnd(es[1..]).Some?)
    ensures |es| > 1 && ParseAnd(es).Some? ==>
        ParseAnd(es).value == And(ParseExpr(es[0]).value, ParseAnd(es[1..]).value)
  {
  }

  lemma {:induction false} ParseOrCases(es: seq<Value>)
    ensures es == [] ==> ParseOr(es) == Some(Lit(Nil))
    ensures es != [] ==> es[0..] == es
    ensures |es| == 1 ==> ParseOr(es).Some? == ParseExpr(es[0]).Some?
    ensures |es| == 1 && ParseOr(es).Some? ==> ParseOr(es).value == OrLast(ParseExpr(es[0]).value)
    ensures |es| > 1 ==> ParseOr(es).Some? == (ParseExpr(es[0]).Some? && ParseOr(es[1..]).Some?)
    ensures |es| > 1 && ParseOr(es).Some? ==> ParseOr(es).value == Or(ParseExpr(es[0]).value, ParseOr(es[1..]).value)
  {
  }

  // `let`

  lemma {:induction false} NamesScopeSnoc(sc: CScope, bs: seq<Value>, b: Value)
    requires AllBindings(bs) && IsBinding(b)
    ensures AllBindings(bs + [b])
    ensures
      var s := NamesScope(sc, bs);
      NamesScope(sc, bs + [b]) == CScope(s.slots[Items(b)[0].name := s.next], s.next + 1)
    decreases |bs|
  {
    if bs == [] {
      assert bs + [b] == [b] && [b][1..] == [];
    } else {
      assert (bs + [b])[1..] == bs[1..] + [b];
      NamesScopeSnoc(CScope(sc.slots[Items(bs[0])[0].name := sc.next], sc.next + 1), bs[1..], b);
    }
  }

  lemma NamesScopeEmpty(sc: CScope)
    ensures NamesScope(sc, []) == sc
  {
  }

  lemma {:induction false} ParseLetCases(args: seq<Value>)
    ensures |args| < 2 || !IsProperList(args[0]) ==> ParseLet(args).None?
    ensures |args| >= 2 ==> SeqSize(args[1..]) < SeqSize(args)
    ensures |args| >= 2 && IsProperList(args[0]) ==>
              && SeqSize(Items(args[0])) < SeqSize(args)
              && ParseLet(args).Some? == (ParseBinds(Items(args[0])).Some? && ParseSequence(args[1..]).Some?)
    ensures ParseLet(args).Some? ==>
              ParseLet(args).value == Let(ParseBinds(Items(args[0])).value, ParseSequence(args[1..]).value)
  {
  }

  ghost predicate InitsLeft(c0: Code, n0: nat, whole: Binds, slot0: nat, c: Code, n: nat, rest: Binds, slot: nat,
      sc: CScope) {
    && c0 + BindsCode(whole, sc, slot0, |c0|) == c + BindsCode(rest, sc, slot, |c|)
    && Max(n0, sc.next + BindsDepth(whole)) == Max(n, sc.next + BindsDepth(rest))
  }

  lemma {:induction false} BindsEquation(bs: Binds, sc: CScope, slot: nat, base: nat)
    ensures bs.NoBinds? ==> BindsCode(bs, sc, slot, base) == [] && BindsDepth(bs) == 0
    ensures bs.Bind? ==>
      var ii := CodeOf(bs.init, sc, false, base);
      && BindsCode(bs, sc, slot, base) == ii + [StoreLocal(slot)] + BindsCode(bs.rest, sc, slot + 1, base + |ii| + 1)
      && BindsDepth(bs) == Max(Depth(bs.init), BindsDepth(bs.rest))
  {
    hide CodeOf, Depth;
  }

  lemma {:induction false} InitsStep(c0: Code, n0: nat, whole: Binds, slot0: nat, c: Code, n: nat, bs: Binds,
      slot: nat, sc: CScope)
    requires bs.Bind? && InitsLeft(c0, n0, whole, slot0, c, n, bs, slot, sc)
    ensures InitsLeft(c0, n0, whole, slot0,
                      c + CodeOf(bs.init, sc, false, |c|) + [StoreLocal(slot)], Max(n, sc.next + Depth(bs.init)),
                          bs.rest, slot + 1, sc)
  {
    hide CodeOf, BindsCode, Depth, BindsDepth;
    BindsEquation(bs, sc, slot, |c|);
    var ii := CodeOf(bs.init, sc, false, |c|);
    var rr := BindsCode(bs.rest, sc, slot + 1, |c| + |ii| + 1);
    assert c + (ii + [StoreLocal(slot)] + rr) == c + ii + [StoreLocal(slot)] + rr;
    assert |c + ii + [StoreLocal(slot)]| == |c| + |ii| + 1;
  }

  lemma {:induction false} InitsEnd(c0: Code, n0: nat, whole: Binds, slot0: nat, c: Code, n: nat, slot: nat, sc: CScope)
    requires InitsLeft(c0, n0, whole, slot0, c, n, NoBinds, slot, sc) && sc.next <= n
    ensures c == c0 + BindsCode(whole, sc, slot0, |c0|) && n == Max(n0, sc.next + BindsDepth(whole))
  {
    hide BindsCode, BindsDepth;
    BindsEquation(NoBinds, sc, slot, |c|);
    assert c + [] == c;
  }

  lemma {:induction false} ParseBindsCases(bs: seq<Value>)
    ensures bs == [] ==> ParseBinds(bs) == Some(NoBinds)
    ensures bs != [] && IsBinding(bs[0]) ==>
              ParseBinds(bs).Some? == (ParseExpr(Items(bs[0])[1]).Some? && ParseBinds(bs[1..]).Some?)
    ensures bs != [] && IsBinding(bs[0]) && ParseBinds(bs).Some? ==>
              ParseBinds(bs).value == Bind(Items(bs[0])[0].name, ParseExpr(Items(bs[0])[1]).value,
                  ParseBinds(bs[1..]).value)
    ensures bs != [] && IsBinding(bs[0]) ==> Size(Items(bs[0])[1]) < SeqSize(bs)
  {
    if bs != [] && IsBinding(bs[0]) {
      BindingSmaller(bs[0]);
    }
  }

  lemma {:induction false} LetEnd(c0: Code, n0: nat, f: Form, c: Code, sc: CScope, tail: bool)
    requires f.Let? && c == c0 + BindsCode(f.binds, sc, sc.next, |c0|)
    ensures c + CodeOf(f.body, BindScope(sc, f.binds), tail, |c|) == c0 + CodeOf(f, sc, tail, |c0|)
    ensures
      var n := Max(Max(n0, sc.next + BindCount(f.binds)), sc.next + BindsDepth(f.binds));
      Max(n, sc.next + BindCount(f.binds) + Depth(f.body)) == Max(n0, sc.next + Depth(f))
  {
    hide CodeOf, BindsCode, BindScope;
    EqLet(f, sc, tail, |c0|);
    var ii := BindsCode(f.binds, sc, sc.next, |c0|);
    var bb := CodeOf(f.body, BindScope(sc, f.binds), tail, |c0| + |ii|);
    assert c0 + (ii + bb) == c0 + ii + bb;
  }

  // calls

  ghost predicate ArgsLeft(c0: Code, n0: nat, whole: Args, c: Code, n: nat, rest: Args, sc: CScope) {
    && c0 + ArgsCode(whole, sc, |c0|) == c + ArgsCode(rest, sc, |c|)
    && Max(n0, sc.next + ArgsDepth(whole)) == Max(n, sc.next + ArgsDepth(rest))
  }

  lemma {:induction false} ArgsEquation(args: Args, sc: CScope, base: nat)
    ensures args.NoArgs? ==> ArgsCode(args, sc, base) == [] && ArgsDepth(args) == 0
    ensures args.Arg? ==>
      var hh := CodeOf(args.head, sc, false, base);
      && ArgsCode(args, sc, base) == hh + ArgsCode(args.rest, sc, base + |hh|)
      && ArgsDepth(args) == Max(Depth(args.head), ArgsDepth(args.rest))
  {
    hide CodeOf, Depth;
  }

  lemma {:induction false} ArgsStep(c0: Code, n0: nat, whole: Args, c: Code, n: nat, args: Args, sc: CScope)
    requires args.Arg? && ArgsLeft(c0, n0, whole, c, n, args, sc)
    ensures ArgsLeft(c0, n0, whole, c + CodeOf(args.head, sc, false, |c|), Max(n, sc.next + Depth(args.head)),
        args.rest, sc)
  {
    hide CodeOf, ArgsCode, Depth, ArgsDepth;
    ArgsEquation(args, sc, |c|);
    var hh := CodeOf(args.head, sc, false, |c|);
    var rr := ArgsCode(args.rest, sc, |c| + |hh|);
    assert c + (hh + rr) == c + hh + rr;
    assert |c + hh| == |c| + |hh|;
  }

  lemma {:induction false} ParseArgsCases(es: seq<Value>)
    ensures es == [] ==> ParseArgs(es) == Some(NoArgs)
    ensures es != [] ==> ParseArgs(es).Some? == (ParseExpr(es[0]).Some? && ParseArgs(es[1..]).Some?)
    ensures es != [] && ParseArgs(es).Some? ==>
        ParseArgs(es).value == Arg(ParseExpr(es[0]).value, ParseArgs(es[1..]).value)
  {
  }

  lemma {:induction false} ParseArgsCount(es: seq<Value>)
    requires ParseArgs(es).Some?
    ensures ArgCount(ParseArgs(es).value) == |es|
    decreases |es|
  {
    if es != [] {
      ParseArgsCount(es[1..]);
    }
  }

  lemma {:induction false} ArgsDone(c0: Code, n0: nat, whole: Args, c: Code, n: nat, sc: CScope)
    requires ArgsLeft(c0, n0, whole, c, n, NoArgs, sc) && sc.next <= n
    ensures c == c0 + ArgsCode(whole, sc, |c0|) && n == Max(n0, sc.next + ArgsDepth(whole))
  {
    hide ArgsCode, ArgsDepth;
    ArgsEquation(NoArgs, sc, |c|);
    assert c + [] == c;
  }

  lemma CallDepth(f: Form)
    requires f.Call?
    ensures Depth(f) == Max(Depth(f.fn), ArgsDepth(f.args))
  {
  }

  lemma {:induction false} CallEnd(c0: Code, n0: nat, f: Form, c1: Code, c: Code, n: nat, sc: CScope, tail: bool)
    requires f.Call? && sc.next <= n
    requires c1 == c0 + CodeOf(f.fn, sc, false, |c0|)
    requires ArgsLeft(c1, Max(n0, sc.next + Depth(f.fn)), f.args, c, n, NoArgs, sc)
    ensures c + [CallInstr(tail, ArgCount(f.args))] == c0 + CodeOf(f, sc, tail, |c0|)
    ensures n == Max(n0, sc.next + Depth(f))
  {
    hide CodeOf, ArgsCode, ArgsLeft, Depth, ArgsDepth, CallInstr, ArgCount;
    EqCall(f, sc, tail, |c0|);
    CallDepth(f);
    ArgsDone(c1, Max(n0, sc.next + Depth(f.fn)), f.args, c, n, sc);
    var ff := CodeOf(f.fn, sc, false, |c0|);
    var aa := ArgsCode(f.args, sc, |c0| + |ff|);
    var last := [CallInstr(tail, ArgCount(f.args))];
    assert c == c0 + ff + aa;
    assert c0 + ff + aa + last == c0 + (ff + aa + last);
  }
}
