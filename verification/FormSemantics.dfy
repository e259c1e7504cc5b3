/** The evaluator restated on parsed forms, and its agreement with the evaluator on expressions. */
module FormSemantics {
  import opened Values
  import opened Forms
  import opened Machine
  import opened Evaluator

  function FormEval(o: Oracle, f: Form, s: Scope, tail: bool, w: World): (r: Outcome)
    ensures !tail ==> !r.Tail?
    decreases f
  {
    match f
    case Lit(v) => Val(v, w)
    case Ref(name) => LookUp(o, s, name, w)
    case If(c, t, e) =>
      var test := FormEval(o, c, s, false, w);
      if !test.Val? then test
      else if Truthy(test.v) then FormEval(o, t, s, tail, test.w)
      else FormEval(o, e, s, tail, test.w)
    case Then(a, b) =>
      var first := FormEval(o, a, s, false, w);
      if !first.Val? then first else FormEval(o, b, s, tail, first.w)
    case And(a, b) =>
      var first := FormEval(o, a, s, false, w);
      if !first.Val? || !Truthy(first.v) then first else FormEval(o, b, s, tail, first.w)
    case Or(a, b) =>
      var first := FormEval(o, a, s, false, w);
      if !first.Val? || Truthy(first.v) then first else FormEval(o, b, s, tail, first.w)
    case OrLast(e) =>
      var last := FormEval(o, e, s, tail, w);
      if !tail && last.Val? && !Truthy(last.v) then Val(Nil, last.w) else last
    case Let(bs, body) =>
      var got := FormBinds(o, bs, s, map[], w);
      if got.Unbindable? then got.stop else FormEval(o, body, Frame(got.bindings, s), tail, got.w)
    case Call(fn, args) =>
      var callee := FormEval(o, fn, s, false, w);
      if !callee.Val? then callee
      else
        var got := FormArgs(o, args, s, callee.w);
        if got.Stopped? then got.stop else Apply(o, callee.v, got.vals, tail, got.w)
  }

  function FormArgs(o: Oracle, args: Args, s: Scope, w: World): (r: Evaluated)
    ensures r.Stopped? ==> !r.stop.Val?
    decreases args
  {
    if args.NoArgs? then Evaluated([], w)
    else
      var first := FormEval(o, args.head, s, false, w);
      if !first.Val? then Stopped(first)
      else
        var more := FormArgs(o, args.rest, s, first.w);
        if more.Stopped? then more else Evaluated([first.v] + more.vals, more.w)
  }

  function FormBinds(o: Oracle, bs: Binds, s: Scope, acc: map<string, Value>, w: World): (r: Bound)
    ensures r.Unbindable? ==> !r.stop.Val?
    decreases bs
  {
    if bs.NoBinds? then Bound(acc, w)
    else
      var init := FormEval(o, bs.init, s, false, w);
      if !init.Val? then Unbindable(init) else FormBinds(o, bs.rest, s, acc[bs.name := init.v], init.w)
  }

  // ----- the evaluator on an accepted expression is the evaluator on its form -----

  lemma {:induction false} ExprAgrees(o: Oracle, e: Value, s: Scope, tail: bool, w: World)
    requires ParseExpr(e).Some?
    ensures Eval(o, e, s, tail, w) == FormEval(o, ParseExpr(e).value, s, tail, w)
    decreases Size(e), 1
  {
    if e.Cons? {
      assert Items(e) == [e.car] + Items(e.cdr);
      ListAgrees(o, e.car, Items(e.cdr), s, tail, w);
    }
  }

  lemma {:induction false} ListAgrees(o: Oracle, head: Value, args: seq<Value>, s: Scope, tail: bool, w: World)
    requires ParseList([head] + args).Some?
    ensures EvalList(o, head, args, s, tail, w) == FormEval(o, ParseList([head] + args).value, s, tail, w)
    decreases Size(head) + SeqSize(args), 3
  {
    var items := [head] + args;
    assert items[1..] == args;
    if head == Sym("if") {
      IfAgrees(o, args, s, tail, w);
    } else if head == Sym("begin") {
      SequenceAgrees(o, args, s, tail, w);
    } else if head == Sym("let") {
      LetAgrees(o, args, s, tail, w);
    } else if head == Sym("and") {
      AndAgrees(o, args, s, tail, w);
    } else if head == Sym("or") {
      OrAgrees(o, args, s, tail, w);
    } else if head != Sym("quote") {
      CallAgrees(o, head, args, s, tail, w);
    }
  }

  lemma {:induction false} CallAgrees(o: Oracle, head: Value, args: seq<Value>, s: Scope, tail: bool, w: World)
    requires ParseCall([head] + args).Some?
    ensures EvalCall(o, head, args, s, tail, w) == FormEval(o, ParseCall([head] + args).value, s, tail, w)
    decreases Size(head) + SeqSize(args), 2
  {
    assert ([head] + args)[1..] == args;
    ExprAgrees(o, head, s, false, w);
    var fn := Eval(o, head, s, false, w);
    if fn.Val? {
      ArgsAgree(o, args, s, fn.w);
    }
  }

  lemma {:induction false} ArgsAgree(o: Oracle, args: seq<Value>, s: Scope, w: World)
    requires ParseArgs(args).Some?
    ensures EvalArgs(o, args, s, w) == FormArgs(o, ParseArgs(args).value, s, w)
    decreases SeqSize(args), 0
  {
    if args != [] {
      ExprAgrees(o, args[0], s, false, w);
      var first := Eval(o, args[0], s, false, w);
      if first.Val? {
        ArgsAgree(o, args[1..], s, first.w);
      }
    }
  }

  lemma {:induction false} IfAgrees(o: Oracle, args: seq<Value>, s: Scope, tail: bool, w: World)
    requires ParseIf(args).Some?
    ensures EvalIf(o, args, s, tail, w) == FormEval(o, ParseIf(args).value, s, tail, w)
    decreases SeqSize(args), 0
  {
    ItemSmaller(args, 0);
    ItemSmaller(args, 1);
    ExprAgrees(o, args[0], s, false, w);
    var test := Eval(o, args[0], s, false, w);
    if test.Val? {
      ExprAgrees(o, args[1], s, tail, test.w);
      if |args| == 3 {
        ItemSmaller(args, 2);
        ExprAgrees(o, args[2], s, tail, test.w);
      }
    }
  }

  lemma {:induction false} SequenceAgrees(o: Oracle, es: seq<Value>, s: Scope, tail: bool, w: World)
    requires ParseSequence(es).Some?
    ensures EvalSequence(o, es, s, tail, w) == FormEval(o, ParseSequence(es).value, s, tail, w)
    decreases SeqSize(es), 0
  {
    if |es| == 1 {
      ExprAgrees(o, es[0], s, tail, w);
    } else if es != [] {
      ExprAgrees(o, es[0], s, false, w);
      var first := Eval(o, es[0], s, false, w);
      if first.Val? {
        SequenceAgrees(o, es[1..], s, tail, first.w);
      }
    }
  }

  lemma {:induction false} AndAgrees(o: Oracle, es: seq<Value>, s: Scope, tail: bool, w: World)
    requires ParseAnd(es).Some?
    ensures EvalAnd(o, es, s, tail, w) == FormEval(o, ParseAnd(es).value, s, tail, w)
    decreases SeqSize(es), 0
  {
    if |es| == 1 {
      ExprAgrees(o, es[0], s, tail, w);
    } else if es != [] {
      ExprAgrees(o, es[0], s, false, w);
      var first := Eval(o, es[0], s, false, w);
      if first.Val? {
        AndAgrees(o, es[1..], s, tail, first.w);
      }
    }
  }

  lemma {:induction false} OrAgrees(o: Oracle, es: seq<Value>, s: Scope, tail: bool, w: World)
    requires ParseOr(es).Some?
    ensures EvalOr(o, es, s, tail, w) == FormEval(o, ParseOr(es).value, s, tail, w)
    decreases SeqSize(es), 0
  {
    if |es| == 1 {
      ExprAgrees(o, es[0], s, tail, w);
    } else if es != [] {
      ExprAgrees(o, es[0], s, false, w);
      var first := Eval(o, es[0], s, false, w);
      if first.Val? {
        OrAgrees(o, es[1..], s, tail, first.w);
      }
    }
  }

  lemma {:induction false} BindsAgree(o: Oracle, bs: seq<Value>, s: Scope, acc: map<string, Value>, w: World)
    requires ParseBinds(bs).Some?
    ensures EvalBinds(o, bs, s, acc, w) == FormBinds(o, ParseBinds(bs).value, s, acc, w)
    decreases SeqSize(bs), 0
  {
    if bs != [] {
      BindingSmaller(bs[0]);
      ExprAgrees(o, Items(bs[0])[1], s, false, w);
      var init := Eval(o, Items(bs[0])[1], s, false, w);
      if init.Val? {
        BindsAgree(o, bs[1..], s, acc[Items(bs[0])[0].name := init.v], init.w);
      }
    }
  }

  lemma {:induction false} LetAgrees(o: Oracle, args: seq<Value>, s: Scope, tail: bool, w: World)
    requires ParseLet(args).Some?
    ensures EvalLet(o, args, s, tail, w) == FormEval(o, ParseLet(args).value, s, tail, w)
    decreases SeqSize(args), 1
  {
    BindsAgree(o, Items(args[0]), s, map[], w);
    var got := EvalBinds(o, Items(args[0]), s, map[], w);
    if got.Bound? {
      SequenceAgrees(o, args[1..], Frame(got.bindings, s), tail, got.w);
    }
  }
}
