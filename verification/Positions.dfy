/** Evaluator facts that hold for every expression: oracle refinement and tail position. */
module Positions {
  import opened Values
  import opened Forms
  import opened Machine
  import opened Evaluator

  // ----- changing the oracle -----

  /** `a` is cut short for the reason `h`, or `b` is the same result. */
  predicate Refines(h: Option<Halt>, a: Outcome, b: Outcome) {
    (h.Some? && a == Abort(h.value)) || a == b
  }

  ghost predicate OracleRefines(h: Option<Halt>, o: Oracle, p: Oracle) {
    && (forall w: World, env: nat, name: string :: o.lookup(w, env, name) == p.lookup(w, env, name))
    && (forall fn: Value, args: seq<Value>, w: World :: Refines(h, o.invoke(fn, args, w), p.invoke(fn, args, w)))
  }

  lemma LookUpRefines(h: Option<Halt>, o: Oracle, p: Oracle, s: Scope, name: string, w: World)
    requires OracleRefines(h, o, p)
    ensures LookUp(o, s, name, w) == LookUp(p, s, name, w)
  {
  }

  lemma {:induction false} EvalRefines(h: Option<Halt>, o: Oracle, p: Oracle, e: Value, s: Scope, tail: bool, w: World)
    requires OracleRefines(h, o, p)
    ensures Refines(h, Eval(o, e, s, tail, w), Eval(p, e, s, tail, w))
    decreases Size(e), 1
  {
    if e.Sym? {
      LookUpRefines(h, o, p, s, e.name, w);
    } else if e.Cons? && IsProperList(e.cdr) {
      assert Items(e) == [e.car] + Items(e.cdr);
      ListRefines(h, o, p, e.car, Items(e.cdr), s, tail, w);
    }
  }

  lemma {:induction false} ListRefines(h: Option<Halt>, o: Oracle, p: Oracle, head: Value, args: seq<Value>, s: Scope,
      tail: bool, w: World)
    requires OracleRefines(h, o, p)
    ensures Refines(h, EvalList(o, head, args, s, tail, w), EvalList(p, head, args, s, tail, w))
    decreases Size(head) + SeqSize(args), 3
  {
    hide *;
    ListCases(o, head, args, s, tail, w);
    ListCases(p, head, args, s, tail, w);
    if head == Sym("if") {
      IfRefines(h, o, p, args, s, tail, w);
    } else if head == Sym("let") {
      LetRefines(h, o, p, args, s, tail, w);
    } else if head == Sym("and") {
      AndRefines(h, o, p, args, s, tail, w);
    } else if head == Sym("or") {
      OrRefines(h, o, p, args, s, tail, w);
    } else if head == Sym("cond") {
      CondRefines(h, o, p, args, s, tail, w);
    } else if head == Sym("begin") {
      SequenceRefines(h, o, p, args, s, tail, w);
    } else if IsCallHead(head) {
      CallRefines(h, o, p, head, args, s, tail, w);
    } else {
      SameRefines(h, EvalList(o, head, args, s, tail, w));
    }
  }

  lemma SameRefines(h: Option<Halt>, a: Outcome)
    ensures Refines(h, a, a)
  {
  }

  predicate IsCallHead(head: Value) {
    !(head.Sym? && (Refused(head.name) || head.name in {"quote", "if", "let", "and", "or", "begin"}))
  }

  lemma {:induction false} ListCases(o: Oracle, head: Value, args: seq<Value>, s: Scope, tail: bool, w: World)
    ensures head == Sym("if") ==> EvalList(o, head, args, s, tail, w) == EvalIf(o, args, s, tail, w)
    ensures head == Sym("let") ==> EvalList(o, head, args, s, tail, w) == EvalLet(o, args, s, tail, w)
    ensures head == Sym("and") ==> EvalList(o, head, args, s, tail, w) == EvalAnd(o, args, s, tail, w)
    ensures head == Sym("or") ==> EvalList(o, head, args, s, tail, w) == EvalOr(o, args, s, tail, w)
    ensures head == Sym("cond") ==> EvalList(o, head, args, s, tail, w) == EvalCond(o, args, s, tail, w)
    ensures head == Sym("begin") ==> EvalList(o, head, args, s, tail, w) == EvalSequence(o, args, s, tail, w)
    ensures IsCallHead(head) ==> EvalList(o, head, args, s, tail, w) == EvalCall(o, head, args, s, tail, w)
    ensures !IsCallHead(head) && head !in {Sym("if"), Sym("let"), Sym("and"), Sym("or"), Sym("cond"), Sym("begin")} ==>
              EvalList(o, head, args, s, tail, w) == Rigid(head, args, w)
  {
  }

  /** `quote` and the forms that end in an error whatever the oracle and position. */
  function Rigid(head: Value, args: seq<Value>, w: World): Answer {
    if head == Sym("quote") then if |args| == 1 then Val(args[0], w) else Exn(BadForm("quote"), w)
    else if head == Sym("unquote") || head == Sym("unquote-splicing") then Exn(BadForm(head.name), w)
    else if head.Sym? then Exn(OutsideModel(head.name), w)
    else Exn(NotCallable, w)
  }

  lemma {:induction false} CallRefines(h: Option<Halt>, o: Oracle, p: Oracle, head: Value, args: seq<Value>, s: Scope,
      tail: bool, w: World)
    requires OracleRefines(h, o, p)
    ensures Refines(h, EvalCall(o, head, args, s, tail, w), EvalCall(p, head, args, s, tail, w))
    decreases Size(head) + SeqSize(args), 2
  {
    EvalRefines(h, o, p, head, s, false, w);
    var fn := Eval(o, head, s, false, w);
    if fn.Val? {
      ArgsRefine(h, o, p, args, s, fn.w);
    }
  }

  lemma {:induction false} ArgsRefine(h: Option<Halt>, o: Oracle, p: Oracle, args: seq<Value>, s: Scope, w: World)
    requires OracleRefines(h, o, p)
    ensures
      var a := EvalArgs(o, args, s, w);
      (h.Some? && a == Stopped(Abort(h.value))) || a == EvalArgs(p, args, s, w)
    decreases SeqSize(args), 0
  {
    if args != [] {
      EvalRefines(h, o, p, args[0], s, false, w);
      var first := Eval(o, args[0], s, false, w);
      if first.Val? {
        ArgsRefine(h, o, p, args[1..], s, first.w);
      }
    }
  }

  lemma {:induction false} IfRefines(h: Option<Halt>, o: Oracle, p: Oracle, args: seq<Value>, s: Scope, tail: bool,
      w: World)
    requires OracleRefines(h, o, p)
    ensures Refines(h, EvalIf(o, args, s, tail, w), EvalIf(p, args, s, tail, w))
    decreases SeqSize(args), 0
  {
    if |args| == 2 || |args| == 3 {
      ItemSmaller(args, 0);
      ItemSmaller(args, 1);
      EvalRefines(h, o, p, args[0], s, false, w);
      var test := Eval(o, args[0], s, false, w);
      if test.Val? {
        EvalRefines(h, o, p, args[1], s, tail, test.w);
        if |args| == 3 {
          ItemSmaller(args, 2);
          EvalRefines(h, o, p, args[2], s, tail, test.w);
        }
      }
    }
  }

  lemma {:induction false} SequenceRefines(h: Option<Halt>, o: Oracle, p: Oracle, es: seq<Value>, s: Scope,
      tail: bool, w: World)
    requires OracleRefines(h, o, p)
    ensures Refines(h, EvalSequence(o, es, s, tail, w), EvalSequence(p, es, s, tail, w))
    decreases SeqSize(es), 0
  {
    if |es| == 1 {
      EvalRefines(h, o, p, es[0], s, tail, w);
    } else if es != [] {
      EvalRefines(h, o, p, es[0], s, false, w);
      var first := Eval(o, es[0], s, false, w);
      if first.Val? {
        SequenceRefines(h, o, p, es[1..], s, tail, first.w);
      }
    }
  }

  lemma {:induction false} AndRefines(h: Option<Halt>, o: Oracle, p: Oracle, es: seq<Value>, s: Scope, tail: bool,
      w: World)
    requires OracleRefines(h, o, p)
    ensures Refines(h, EvalAnd(o, es, s, tail, w), EvalAnd(p, es, s, tail, w))
    decreases SeqSize(es), 0
  {
    if |es| == 1 {
      EvalRefines(h, o, p, es[0], s, tail, w);
    } else if es != [] {
      EvalRefines(h, o, p, es[0], s, false, w);
      var first := Eval(o, es[0], s, false, w);
      if first.Val? {
        AndRefines(h, o, p, es[1..], s, tail, first.w);
      }
    }
  }

  lemma {:induction false} OrRefines(h: Option<Halt>, o: Oracle, p: Oracle, es: seq<Value>, s: Scope, tail: bool,
      w: World)
    requires OracleRefines(h, o, p)
    ensures Refines(h, EvalOr(o, es, s, tail, w), EvalOr(p, es, s, tail, w))
    decreases SeqSize(es), 0
  {
    if |es| == 1 && tail {
      EvalRefines(h, o, p, es[0], s, true, w);
    } else if es != [] {
      EvalRefines(h, o, p, es[0], s, false, w);
      var first := Eval(o, es[0], s, false, w);
      if first.Val? && |es| > 1 {
        OrRefines(h, o, p, es[1..], s, tail, first.w);
      }
    }
  }

  lemma {:induction false} CondRefines(h: Option<Halt>, o: Oracle, p: Oracle, cs: seq<Value>, s: Scope, tail: bool,
      w: World)
    requires OracleRefines(h, o, p)
    ensures Refines(h, EvalCond(o, cs, s, tail, w), EvalCond(p, cs, s, tail, w))
    decreases SeqSize(cs), 0
  {
    if cs != [] && IsProperList(cs[0]) && Items(cs[0]) != [] {
      var clause := Items(cs[0]);
      assert SeqSize(clause) == 1 + Size(clause[0]) + SeqSize(clause[1..]);
      if clause[0] == Sym("else") {
        SequenceRefines(h, o, p, clause[1..], s, tail, w);
      } else {
        EvalRefines(h, o, p, clause[0], s, false, w);
        var test := Eval(o, clause[0], s, false, w);
        if test.Val? {
          CondRefines(h, o, p, cs[1..], s, tail, test.w);
          SequenceRefines(h, o, p, clause[1..], s, tail, test.w);
        }
      }
    }
  }

  lemma {:induction false} BindsRefine(h: Option<Halt>, o: Oracle, p: Oracle, bs: seq<Value>, s: Scope,
      acc: map<string, Value>, w: World)
    requires OracleRefines(h, o, p)
    ensures
      var a := EvalBinds(o, bs, s, acc, w);
      (h.Some? && a == Unbindable(Abort(h.value))) || a == EvalBinds(p, bs, s, acc, w)
    decreases SeqSize(bs), 0
  {
    if bs != [] && IsBinding(bs[0]) {
      BindingSmaller(bs[0]);
      EvalRefines(h, o, p, Items(bs[0])[1], s, false, w);
      var init := Eval(o, Items(bs[0])[1], s, false, w);
      if init.Val? {
        BindsRefine(h, o, p, bs[1..], s, acc[Items(bs[0])[0].name := init.v], init.w);
      }
    }
  }

  lemma {:induction false} LetRefines(h: Option<Halt>, o: Oracle, p: Oracle, args: seq<Value>, s: Scope, tail: bool,
      w: World)
    requires OracleRefines(h, o, p)
    ensures Refines(h, EvalLet(o, args, s, tail, w), EvalLet(p, args, s, tail, w))
    decreases SeqSize(args), 1
  {
    if |args| >= 2 && IsProperList(args[0]) {
      BindsRefine(h, o, p, Items(args[0]), s, map[], w);
      var got := EvalBinds(o, Items(args[0]), s, map[], w);
      if got.Bound? {
        SequenceRefines(h, o, p, args[1..], Frame(got.bindings, s), tail, got.w);
      }
    }
  }

  // ----- tail position -----

  /** Carrying out a call that was handed over. */
  function Finish(o: Oracle, r: Outcome): Answer {
    if r.Tail? then o.invoke(r.fn, r.args, r.w) else r
  }

  /** Same result, or #f in tail position where the other position gives nil. */
  predicate Blurred(tail: Outcome, plain: Outcome) {
    tail == plain || (tail.Val? && plain.Val? && tail.w == plain.w && tail.v == Bool(false) && plain.v == Nil)
  }

  /** Some `or` stands in one of the expression's own tail positions. */
  predicate TailOr(e: Value)
    decreases Size(e), 0
  {
    e.Cons? && IsProperList(e.cdr) && (
      var args := Items(e.cdr);
      if e.car == Sym("or") then args != []
      else if e.car == Sym("if") then
        (|args| >= 2 && (ItemSmaller(args, 1); TailOr(args[1])))
            || (|args| >= 3 && (ItemSmaller(args, 2); TailOr(args[2])))
      else if e.car == Sym("and") || e.car == Sym("begin") then LastTailOr(args)
      else if e.car == Sym("let") then args != [] && LastTailOr(args[1..])
      else if e.car == Sym("cond") then ClauseTailOr(args)
      else false)
  }

  predicate LastTailOr(es: seq<Value>)
    decreases SeqSize(es), 1
  {
    es != [] && (ItemSmaller(es, |es| - 1); TailOr(es[|es| - 1]))
  }

  predicate ClauseTailOr(cs: seq<Value>)
    decreases SeqSize(cs), 1
  {
    cs != [] && (
      (IsProperList(cs[0]) && Items(cs[0]) != [] && LastTailOr(Items(cs[0])[1..])) || ClauseTailOr(cs[1..]))
  }

  /** A result may depend on its position only through an `or`, and then only as #f against nil. */
  predicate PositionFree(free: bool, tail: Answer, plain: Outcome) {
    Blurred(tail, plain) && (free ==> tail == plain)
  }

  lemma {:induction false} TailPosition(o: Oracle, e: Value, s: Scope, w: World)
    ensures PositionFree(!TailOr(e), Finish(o, Eval(o, e, s, true, w)), Eval(o, e, s, false, w))
    decreases Size(e), 1
  {
    if e.Cons? && IsProperList(e.cdr) {
      assert Items(e) == [e.car] + Items(e.cdr);
      TailPositionList(o, e, s, w);
    } else if e.Sym? {
      NoTailFromLookUp(o, s, e.name, w);
    }
  }

  lemma NoTailFromLookUp(o: Oracle, s: Scope, name: string, w: World)
    ensures !LookUp(o, s, name, w).Tail?
  {
  }

  lemma {:induction false} TailPositionList(o: Oracle, e: Value, s: Scope, w: World)
    requires e.Cons? && IsProperList(e.cdr)
    ensures PositionFree(!TailOr(e), Finish(o, EvalList(o, e.car, Items(e.cdr), s, true, w)),
        EvalList(o, e.car, Items(e.cdr), s, false, w))
    decreases Size(e), 0
  {
    var head, args := e.car, Items(e.cdr);
    ListCases(o, head, args, s, true, w);
    ListCases(o, head, args, s, false, w);
    hide EvalList, EvalIf, EvalAnd, EvalOr, EvalSequence, EvalCond, EvalLet, EvalCall, IsCallHead;
    if head == Sym("if") {
      TailPositionIf(o, args, s, w);
    } else if head == Sym("let") {
      TailPositionLet(o, args, s, w);
    } else if head == Sym("and") {
      TailPositionAnd(o, args, s, w);
    } else if head == Sym("or") {
      TailPositionOr(o, args, s, w);
    } else if head == Sym("cond") {
      TailPositionCond(o, args, s, w);
    } else if head == Sym("begin") {
      TailPositionSequence(o, args, s, w);
    } else if IsCallHead(head) {
      TailPositionCall(o, head, args, s, w);
    }
  }

  lemma TailPositionCall(o: Oracle, head: Value, args: seq<Value>, s: Scope, w: World)
    ensures Finish(o, EvalCall(o, head, args, s, true, w)) == EvalCall(o, head, args, s, false, w)
  {
  }

  lemma {:induction false} TailPositionIf(o: Oracle, args: seq<Value>, s: Scope, w: World)
    ensures PositionFree(
              !(|args| >= 2 && TailOr(args[1])) && !(|args| >= 3 && TailOr(args[2])),
              Finish(o, EvalIf(o, args, s, true, w)), EvalIf(o, args, s, false, w))
    decreases SeqSize(args), 2
  {
    if |args| == 2 || |args| == 3 {
      ItemSmaller(args, 1);
      var test := Eval(o, args[0], s, false, w);
      if test.Val? {
        TailPosition(o, args[1], s, test.w);
        if |args| == 3 {
          ItemSmaller(args, 2);
          TailPosition(o, args[2], s, test.w);
        }
      }
    }
  }

  lemma {:induction false} TailPositionSequence(o: Oracle, es: seq<Value>, s: Scope, w: World)
    ensures PositionFree(!LastTailOr(es), Finish(o, EvalSequence(o, es, s, true, w)), EvalSequence(o, es, s, false, w))
    decreases SeqSize(es), 2
  {
    if |es| == 1 {
      TailPosition(o, es[0], s, w);
    } else if es != [] {
      var first := Eval(o, es[0], s, false, w);
      if first.Val? {
        assert es[1..][|es[1..]| - 1] == es[|es| - 1];
        TailPositionSequence(o, es[1..], s, first.w);
      }
    }
  }

  lemma {:induction false} TailPositionAnd(o: Oracle, es: seq<Value>, s: Scope, w: World)
    ensures PositionFree(!LastTailOr(es), Finish(o, EvalAnd(o, es, s, true, w)), EvalAnd(o, es, s, false, w))
    decreases SeqSize(es), 2
  {
    if |es| == 1 {
      TailPosition(o, es[0], s, w);
    } else if es != [] {
      var first := Eval(o, es[0], s, false, w);
      if first.Val? {
        assert es[1..][|es[1..]| - 1] == es[|es| - 1];
        TailPositionAnd(o, es[1..], s, first.w);
      }
    }
  }

  /** The `or` form itself: its plain value is its tail value with #f turned into nil. */
  lemma {:induction false} TailPositionOr(o: Oracle, es: seq<Value>, s: Scope, w: World)
    ensures
      var tail := Finish(o, EvalOr(o, es, s, true, w));
      EvalOr(o, es, s, false, w) == if tail.Val? && tail.v == Bool(false) then Val(Nil, tail.w) else tail
    decreases SeqSize(es), 2
  {
    if |es| == 1 {
      TailPosition(o, es[0], s, w);
    } else if es != [] {
      var first := Eval(o, es[0], s, false, w);
      if first.Val? {
        TailPositionOr(o, es[1..], s, first.w);
      }
    }
  }

  lemma {:induction false} TailPositionCond(o: Oracle, cs: seq<Value>, s: Scope, w: World)
    ensures PositionFree(!ClauseTailOr(cs), Finish(o, EvalCond(o, cs, s, true, w)), EvalCond(o, cs, s, false, w))
    decreases SeqSize(cs), 2
  {
    if cs != [] && IsProperList(cs[0]) && Items(cs[0]) != [] {
      var clause := Items(cs[0]);
      assert SeqSize(clause) == 1 + Size(clause[0]) + SeqSize(clause[1..]);
      if clause[0] == Sym("else") {
        TailPositionSequence(o, clause[1..], s, w);
      } else {
        var test := Eval(o, clause[0], s, false, w);
        if test.Val? {
          TailPositionCond(o, cs[1..], s, test.w);
          TailPositionSequence(o, clause[1..], s, test.w);
        }
      }
    }
  }

  lemma {:induction false} TailPositionLet(o: Oracle, args: seq<Value>, s: Scope, w: World)
    ensures PositionFree(!(args != [] && LastTailOr(args[1..])), Finish(o, EvalLet(o, args, s, true, w)),
        EvalLet(o, args, s, false, w))
    decreases SeqSize(args), 3
  {
    if |args| >= 2 && IsProperList(args[0]) {
      var got := EvalBinds(o, Items(args[0]), s, map[], w);
      if got.Bound? {
        TailPositionSequence(o, args[1..], Frame(got.bindings, s), got.w);
      }
    }
  }
}
