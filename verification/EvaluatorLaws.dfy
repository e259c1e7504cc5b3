/** Laws of the forms that only the tree evaluator runs: `cond` in terms of other forms, and malformed expressions. */
module EvaluatorLaws {
  import opened Values
  import opened Forms
  import opened Machine
  import opened Evaluator

  function Form(head: string, args: seq<Value>): Value {
    ListOf([Sym(head)] + args)
  }

  lemma EvalForm(o: Oracle, head: string, args: seq<Value>, s: Scope, tail: bool, w: World)
    ensures Eval(o, Form(head, args), s, tail, w) == EvalList(o, Sym(head), args, s, tail, w)
  {
    hide EvalList;
    assert ([Sym(head)] + args)[1..] == args;
  }

  lemma CondForm(o: Oracle, clauses: seq<Value>, s: Scope, tail: bool, w: World)
    ensures Eval(o, Form("cond", clauses), s, tail, w) == EvalCond(o, clauses, s, tail, w)
  {
    hide Eval, EvalCond, Form;
    EvalForm(o, "cond", clauses, s, tail, w);
  }

  lemma BeginForm(o: Oracle, body: seq<Value>, s: Scope, tail: bool, w: World)
    ensures Eval(o, Form("begin", body), s, tail, w) == EvalSequence(o, body, s, tail, w)
  {
    hide Eval, EvalSequence, Form;
    EvalForm(o, "begin", body, s, tail, w);
  }

  lemma IfForm(o: Oracle, test: Value, yes: Value, no: Value, s: Scope, tail: bool, w: World)
    ensures
      var r := Eval(o, test, s, false, w);
      Eval(o, Form("if", [test, yes, no]), s, tail, w)
      == if !r.Val? then r else if Truthy(r.v) then Eval(o, yes, s, tail, r.w) else Eval(o, no, s, tail, r.w)
  {
    hide Eval, Form;
    EvalForm(o, "if", [test, yes, no], s, tail, w);
  }

  /** One clause of a `cond`. */
  lemma FirstClause(o: Oracle, clause: seq<Value>, rest: seq<Value>, s: Scope, tail: bool, w: World)
    requires clause != []
    ensures
      var r := EvalCond(o, [ListOf(clause)] + rest, s, tail, w);
      if clause[0] == Sym("else") then
        r == if rest == [] then EvalSequence(o, clause[1..], s, tail, w) else Exn(BadForm("cond"), w)
      else
        var test := Eval(o, clause[0], s, false, w);
        r == if !test.Val? then test
             else if !Truthy(test.v) then EvalCond(o, rest, s, tail, test.w)
             else if |clause| == 1 then test
             else EvalSequence(o, clause[1..], s, tail, test.w)
  {
    hide Eval, EvalSequence, ListOf;
    assert ([ListOf(clause)] + rest)[1..] == rest;
  }

  /** `(cond (test body ...) clause ...)` is `(if test (begin body ...) (cond clause ...))`. */
  lemma CondIsIf(o: Oracle, test: Value, body: seq<Value>, rest: seq<Value>, s: Scope, tail: bool, w: World)
    requires test != Sym("else") && body != []
    ensures Eval(o, Form("cond", [ListOf([test] + body)] + rest), s, tail, w)
         == Eval(o, Form("if", [test, Form("begin", body), Form("cond", rest)]), s, tail, w)
  {
    hide Eval, EvalSequence, EvalCond, Form, ListOf;
    CondForm(o, [ListOf([test] + body)] + rest, s, tail, w);
    FirstClause(o, [test] + body, rest, s, tail, w);
    assert ([test] + body)[1..] == body;
    IfForm(o, test, Form("begin", body), Form("cond", rest), s, tail, w);
    var r := Eval(o, test, s, false, w);
    if r.Val? {
      BeginForm(o, body, s, tail, r.w);
      CondForm(o, rest, s, tail, r.w);
    }
  }

  /** `(cond (else body ...))` is `(begin body ...)`; an `else` that is not last is an error. */
  lemma CondElse(o: Oracle, body: seq<Value>, rest: seq<Value>, s: Scope, tail: bool, w: World)
    ensures Eval(o, Form("cond", [ListOf([Sym("else")] + body)] + rest), s, tail, w)
         == if rest == [] then Eval(o, Form("begin", body), s, tail, w) else Exn(BadForm("cond"), w)
  {
    hide Eval, EvalSequence, EvalCond, Form, ListOf;
    CondForm(o, [ListOf([Sym("else")] + body)] + rest, s, tail, w);
    FirstClause(o, [Sym("else")] + body, rest, s, tail, w);
    assert ([Sym("else")] + body)[1..] == body;
    BeginForm(o, body, s, tail, w);
  }

  lemma OrPair(o: Oracle, a: Value, b: Value, s: Scope, w: World)
    ensures
      var first := Eval(o, a, s, false, w);
      EvalOr(o, [a, b], s, true, w) == if !first.Val? || Truthy(first.v) then first else Eval(o, b, s, true, first.w)
  {
    hide Eval;
    assert [a, b][1..] == [b];
    var first := Eval(o, a, s, false, w);
    if first.Val? {
      assert EvalOr(o, [b], s, true, first.w) == Eval(o, b, s, true, first.w);
    }
  }

  lemma NoClauses(o: Oracle, s: Scope, w: World)
    ensures EvalCond(o, [], s, true, w) == EvalCond(o, [], s, false, w) == Val(Nil, w)
  {
  }

  /** In tail position `(cond (test) clause ...)` is `(or test (cond clause ...))`; no clause at all gives nil. */
  lemma CondTestOnly(o: Oracle, test: Value, rest: seq<Value>, s: Scope, w: World)
    requires test != Sym("else")
    ensures Eval(o, Form("cond", [ListOf([test])] + rest), s, true, w)
         == Eval(o, Form("or", [test, Form("cond", rest)]), s, true, w)
    ensures Eval(o, Form("cond", []), s, true, w) == Eval(o, Form("cond", []), s, false, w) == Val(Nil, w)
  {
    hide Eval, EvalSequence, EvalOr, EvalCond, Form, ListOf;
    CondForm(o, [ListOf([test])] + rest, s, true, w);
    FirstClause(o, [test], rest, s, true, w);
    EvalForm(o, "or", [test, Form("cond", rest)], s, true, w);
    OrPair(o, test, Form("cond", rest), s, w);
    NoClauses(o, s, w);
    var r := Eval(o, test, s, false, w);
    if r.Val? {
      CondForm(o, rest, s, true, r.w);
    }
    CondForm(o, [], s, true, w);
    CondForm(o, [], s, false, w);
  }

  /** Malformed expressions are errors that name the form, before anything is evaluated. */
  lemma Malformed(o: Oracle, args: seq<Value>, s: Scope, tail: bool, w: World)
    ensures |args| != 1 ==> Eval(o, Form("quote", args), s, tail, w) == Exn(BadForm("quote"), w)
    ensures |args| < 2 || |args| > 3 ==> Eval(o, Form("if", args), s, tail, w) == Exn(BadForm("if"), w)
    ensures |args| < 2 || !IsProperList(args[0]) ==> Eval(o, Form("let", args), s, tail, w) == Exn(BadForm("let"), w)
    ensures Eval(o, Form("unquote", args), s, tail, w) == Exn(BadForm("unquote"), w)
    ensures Eval(o, Form("unquote-splicing", args), s, tail, w) == Exn(BadForm("unquote-splicing"), w)
    ensures args != [] && (!IsProperList(args[0]) || args[0] == Nil) ==>
      Eval(o, Form("cond", args), s, tail, w) == Exn(BadForm("cond"), w)
  {
    hide Eval, Form;
    EvalForm(o, "quote", args, s, tail, w);
    EvalForm(o, "if", args, s, tail, w);
    EvalForm(o, "let", args, s, tail, w);
    EvalForm(o, "unquote", args, s, tail, w);
    EvalForm(o, "unquote-splicing", args, s, tail, w);
    EvalForm(o, "cond", args, s, tail, w);
  }

  /** A quoted value and a constant stand for themselves, and forms with nothing in them have fixed values. */
  lemma Constants(o: Oracle, v: Value, s: Scope, tail: bool, w: World)
    ensures Eval(o, Form("quote", [v]), s, tail, w) == Val(v, w)
    ensures !v.Sym? && !v.Cons? ==> Eval(o, v, s, tail, w) == Val(v, w)
    ensures Eval(o, Form("begin", []), s, tail, w) == Eval(o, Form("or", []), s, tail, w) == Val(Nil, w)
    ensures Eval(o, Form("and", []), s, tail, w) == Val(Bool(true), w)
  {
    hide Form;
    EvalForm(o, "quote", [v], s, tail, w);
    EvalForm(o, "begin", [], s, tail, w);
    EvalForm(o, "or", [], s, tail, w);
    EvalForm(o, "and", [], s, tail, w);
  }

  const UNCOMPILED := ["cond", "define", "lambda", "quasiquote", "load", "bt", "defbt", "unquote", "unquote-splicing"]

  lemma AreRefused(i: nat)
    requires i < |UNCOMPILED|
    ensures Refused(UNCOMPILED[i]) && UNCOMPILED[i] !in {"quote", "if", "begin", "let", "and", "or"}
  {
  }

  /** The compiler gives up on a closure that uses one of these forms, whatever is in it. */
  lemma GivesUp(i: nat, args: seq<Value>)
    requires i < |UNCOMPILED|
    ensures ParseExpr(Form(UNCOMPILED[i], args)) == None
  {
    hide Refused;
    AreRefused(i);
    assert ([Sym(UNCOMPILED[i])] + args)[1..] == args;
  }
}
