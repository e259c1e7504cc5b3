/** Exactly how bytecode and evaluator differ where `Clean` does not hold. */
module Divergence {
  import opened Values
  import opened Forms
  import opened Bytecode
  import opened Machine
  import opened Simulation
  import opened Evaluator
  import opened FormSemantics
  import opened CompilerCorrectness

  /** An `or` form: some tested arguments and a last one. */
  predicate IsOr(f: Form) {
    f.OrLast? || (f.Or? && IsOr(f.rest))
  }

  /** An `or` whose arguments, taken one by one, are clean. */
  predicate CleanOrArgs(f: Form)
    requires IsOr(f)
  {
    if f.OrLast? then Clean(f.last, Exact) else Clean(f.first, Loose) && CleanOrArgs(f.rest)
  }

  /** The arguments of an `or`, evaluated in turn, are all falsy and the last one is #f. */
  predicate EndsInFalse(o: Oracle, f: Form, s: Scope, w: World)
    requires IsOr(f)
    decreases f
  {
    var first := FormEval(o, if f.OrLast? then f.last else f.first, s, false, w);
    if f.OrLast? then first.Val? && first.v == Bool(false)
    else first.Val? && !Truthy(first.v) && EndsInFalse(o, f.rest, s, first.w)
  }

  /**
    Outside tail position an `or` agrees with the evaluator if and only if its arguments do not end in #f; when they
    do, bytecode gets #f and the evaluator nil after the same outside calls.
   */
  lemma {:induction false} OrAgreesExactly(
    o: Oracle, f: Form, sc: CScope, l: seq<Value>, s: Scope, w: World)
    requires IsOr(f) && CleanOrArgs(f) && Fits(Depth(f), sc, l) && Matches(sc, l, s)
    ensures
      var bytecode := SlotEval(o, RootEnv(s), f, sc, false, l, w).r;
      var evaluator := FormEval(o, f, s, false, w);
      && (bytecode == evaluator <==> !EndsInFalse(o, f, s, w))
      && (EndsInFalse(o, f, s, w) ==>
            bytecode.Val? && bytecode.v == Bool(false) && evaluator == Val(Nil, bytecode.w))
    decreases f
  {
    var env := RootEnv(s);
    if f.OrLast? {
      SlotsAgree(o, f.last, sc, Exact, l, s, w);
    } else {
      SlotPair(o, env, f, sc, false, l, w);
      SlotsAgree(o, f.first, sc, Loose, l, s, w);
      var out := SlotEval(o, env, f.first, sc, false, l, w);
      if out.r.Val? {
        Locality(o, env, f.first, sc, false, l, w);
        MatchesKept(sc, l, out.locals, s, sc.next + Depth(f.first));
        OrAgreesExactly(o, f.rest, sc, out.locals, s, out.r.w);
      }
    }
  }

  /** In tail position there is nothing to check: an `or` there always agrees. */
  lemma {:induction false} TailOrAgrees(o: Oracle, f: Form, sc: CScope, l: seq<Value>, s: Scope, w: World)
    requires IsOr(f) && CleanTailOr(f) && Fits(Depth(f), sc, l) && Matches(sc, l, s)
    ensures SlotEval(o, RootEnv(s), f, sc, true, l, w).r == FormEval(o, f, s, true, w)
  {
    CleanTailOrIsClean(f);
    SlotsAgree(o, f, sc, TailUse, l, s, w);
  }

  predicate CleanTailOr(f: Form)
    requires IsOr(f)
  {
    if f.OrLast? then Clean(f.last, TailUse) else Clean(f.first, Loose) && CleanTailOr(f.rest)
  }

  lemma {:induction false} CleanTailOrIsClean(f: Form)
    requires IsOr(f) && CleanTailOr(f)
    ensures Clean(f, TailUse)
    decreases f
  {
    if f.Or? {
      CleanTailOrIsClean(f.rest);
    }
  }

  /** The k-th initialiser of a let. */
  function InitAt(bs: Binds, k: nat): Form
    requires k < BindCount(bs)
  {
    if k == 0 then bs.init else InitAt(bs.rest, k - 1)
  }

  /**
    A let's k-th binding still has its value when the body starts if no later initialiser needs more
    than k slots of its own.
   */
  lemma {:induction false} BindingSurvives(o: Oracle, env: nat, bs: Binds, sc: CScope, slot: nat, k: nat,
      l: seq<Value>, w: World)
    requires Fits(BindsDepth(bs), sc, l) && sc.next <= slot && slot + BindCount(bs) <= |l|
    requires k < BindCount(bs)
    requires forall j :: k < j < BindCount(bs) ==> sc.next + Depth(InitAt(bs, j)) <= slot + k
    ensures
      var got := SlotBinds(o, env, bs, sc, slot, l, w);
      got.GotArgs? ==> got.locals[slot + k] == got.vals[k]
    decreases bs
  {
    BindsUnfold(o, env, bs, sc, slot, 0, l, w);
    var out := SlotEval(o, env, bs.init, sc, false, l, w);
    if out.r.Val? {
      var l2 := out.locals[slot := out.r.v];
      if k > 0 {
        forall j | k - 1 < j < BindCount(bs.rest)
          ensures sc.next + Depth(InitAt(bs.rest, j)) <= slot + 1 + (k - 1)
        {
          assert InitAt(bs, j + 1) == InitAt(bs.rest, j);
        }
        BindingSurvives(o, env, bs.rest, sc, slot + 1, k - 1, l2, out.r.w);
      } else {
        forall j | 0 <= j < BindCount(bs.rest)
          ensures sc.next + Depth(InitAt(bs.rest, j)) <= slot
        {
          assert InitAt(bs, j + 1) == InitAt(bs.rest, j);
        }
        SlotKept(o, env, bs.rest, sc, slot + 1, slot, l2, out.r.w);
      }
    }
  }

  /** Initialisers that stay below slot `p` and are stored above it leave it alone. */
  lemma {:induction false} SlotKept(o: Oracle, env: nat, bs: Binds, sc: CScope, slot: nat, p: nat, l: seq<Value>,
      w: World)
    requires Fits(BindsDepth(bs), sc, l) && p < slot && slot + BindCount(bs) <= |l|
    requires forall j :: 0 <= j < BindCount(bs) ==> sc.next + Depth(InitAt(bs, j)) <= p
    ensures
      var got := SlotBinds(o, env, bs, sc, slot, l, w);
      got.GotArgs? ==> got.locals[p] == l[p]
    decreases bs
  {
    if bs.Bind? {
      BindsUnfold(o, env, bs, sc, slot, 0, l, w);
      Locality(o, env, bs.init, sc, false, l, w);
      var out := SlotEval(o, env, bs.init, sc, false, l, w);
      if out.r.Val? {
        assert InitAt(bs, 0) == bs.init;
        forall j | 0 <= j < BindCount(bs.rest)
          ensures sc.next + Depth(InitAt(bs.rest, j)) <= p
        {
          assert InitAt(bs, j + 1) == InitAt(bs.rest, j);
        }
        SlotKept(o, env, bs.rest, sc, slot + 1, p, out.locals[slot := out.r.v], out.r.w);
      }
    }
  }

  /** `((a x) (b (let ((c y)) c)))` */
  function ClashingBinds(x: Value, y: Value): Binds {
    Bind("a", Lit(x), LaterBind(y))
  }

  function LaterBind(y: Value): Binds {
    Bind("b", Let(Bind("c", Lit(y), NoBinds), Ref("c")), NoBinds)
  }

  /**
    The bound of BindingSurvives is tight.  In `(let ((a x) (b (let ((c y)) c))) a)` a later
    initialiser needs one slot too many, and bytecode loses the first binding.
   */
  lemma {:induction false} ClashingLetDiffers(o: Oracle, x: Value, y: Value, sc: CScope, tail: bool, l: seq<Value>,
      s: Scope, w: World)
    requires ScopeOk(sc) && sc.next + 2 <= |l|
    ensures
      var f := Let(ClashingBinds(x, y), Ref("a"));
      && Depth(f) == 2
      && SlotEval(o, RootEnv(s), f, sc, tail, l, w).r == Val(y, w)
      && FormEval(o, f, s, tail, w) == Val(x, w)
  {
    hide ClashingBinds, SlotBinds, BindScope, CodeOf, BindsCode, Depth, BindsDepth;
    var f := Let(ClashingBinds(x, y), Ref("a"));
    ClashingDepth(x, y);
    SlotLet(o, RootEnv(s), f, sc, tail, l, w);
    ClashingSlots(o, x, y, sc, l, s, w);
    ClashingScope(x, y, sc);
    assert f.binds == ClashingBinds(x, y) && f.body == Ref("a");
  }

  lemma {:induction false} ClashingDepth(x: Value, y: Value)
    ensures Depth(Let(ClashingBinds(x, y), Ref("a"))) == 2
    ensures BindsDepth(ClashingBinds(x, y)) == 1 && BindCount(ClashingBinds(x, y)) == 2
  {
    assert BindCount(Bind("c", Lit(y), NoBinds)) == 1 && BindsDepth(Bind("c", Lit(y), NoBinds)) == 0;
    assert BindCount(LaterBind(y)) == 1;
    assert BindsDepth(LaterBind(y)) == Depth(Let(Bind("c", Lit(y), NoBinds), Ref("c"))) == 1;
    assert BindsDepth(ClashingBinds(x, y)) == 1 && BindCount(ClashingBinds(x, y)) == 2;
  }

  lemma {:induction false} ClashingScope(x: Value, y: Value, sc: CScope)
    ensures
      var top := BindScope(sc, ClashingBinds(x, y));
      "a" in top.slots && top.slots["a"] == sc.next
  {
    var sc1 := CScope(sc.slots["a" := sc.next], sc.next + 1);
    assert BindScope(sc, ClashingBinds(x, y)) == BindScope(sc1, LaterBind(y));
    assert BindScope(sc1, LaterBind(y)) == CScope(sc1.slots["b" := sc.next + 1], sc.next + 2);
  }

  lemma {:induction false} ClashingSlots(o: Oracle, x: Value, y: Value, sc: CScope, l: seq<Value>, s: Scope, w: World)
    requires ScopeOk(sc) && sc.next + 2 <= |l|
    ensures BindsDepth(ClashingBinds(x, y)) == 1 && BindCount(ClashingBinds(x, y)) == 2
    ensures
      var got := SlotBinds(o, RootEnv(s), ClashingBinds(x, y), sc, sc.next, l, w);
      got.GotArgs? && got.w == w && got.locals[sc.next] == y
    ensures
      var fb := FormBinds(o, ClashingBinds(x, y), s, map[], w);
      fb.Bound? && fb.w == w && "a" in fb.bindings && fb.bindings["a"] == x
  {
    hide CodeOf, BindsCode, Depth;
    ClashingDepth(x, y);
    var env, n, l1 := RootEnv(s), sc.next, l[sc.next := x];
    LaterSlots(o, y, sc, l1, s, map["a" := x], w);
    BindsUnfold(o, env, ClashingBinds(x, y), sc, n, 0, l, w);
    assert SlotEval(o, env, Lit(x), sc, false, l, w) == SlotOut(Val(x, w), l);
    assert FormBinds(o, ClashingBinds(x, y), s, map[], w) == FormBinds(o, LaterBind(y), s, map[]["a" := x], w);
  }

  lemma {:induction false} LaterSlots(o: Oracle, y: Value, sc: CScope, l: seq<Value>, s: Scope,
      acc: map<string, Value>, w: World)
    requires ScopeOk(sc) && sc.next + 2 <= |l|
    ensures BindsDepth(LaterBind(y)) == 1 && BindCount(LaterBind(y)) == 1
    ensures
      var got := SlotBinds(o, RootEnv(s), LaterBind(y), sc, sc.next + 1, l, w);
      got.GotArgs? && got.w == w && got.locals[sc.next] == y
    ensures FormBinds(o, LaterBind(y), s, acc, w) == Bound(acc["b" := y], w)
  {
    hide CodeOf, BindsCode;
    ClashingDepth(y, y);
    LetOfLit(o, "c", y, sc, l, s, w);
    BindsUnfold(o, RootEnv(s), LaterBind(y), sc, sc.next + 1, 0, l, w);
  }

  /** `(let ((name v)) name)`, in both semantics. */
  lemma {:induction false} LetOfLit(o: Oracle, name: string, v: Value, sc: CScope, l: seq<Value>, s: Scope, w: World)
    requires ScopeOk(sc) && sc.next < |l|
    ensures
      var f := Let(Bind(name, Lit(v), NoBinds), Ref(name));
      && Depth(f) == 1
      && SlotEval(o, RootEnv(s), f, sc, false, l, w) == SlotOut(Val(v, w), l[sc.next := v])
      && FormEval(o, f, s, false, w) == Val(v, w)
  {
    var bs := Bind(name, Lit(v), NoBinds);
    BindsUnfold(o, RootEnv(s), bs, sc, sc.next, 0, l, w);
    assert BindScope(sc, bs) == CScope(sc.slots[name := sc.next], sc.next + 1);
    assert FormBinds(o, bs, s, map[], w) == Bound(map[name := v], w);
  }

  /** `(let ((a (or #f))) a)`: bytecode returns #f, the evaluator nil. */
  lemma {:induction false} FalseOrDiffers(o: Oracle, sc: CScope, tail: bool, l: seq<Value>, s: Scope, w: World)
    requires ScopeOk(sc) && sc.next + 1 <= |l|
    ensures
      var f := Let(Bind("a", OrLast(Lit(Bool(false))), NoBinds), Ref("a"));
      && Depth(f) == 1
      && SlotEval(o, RootEnv(s), f, sc, tail, l, w).r == Val(Bool(false), w)
      && FormEval(o, f, s, tail, w) == Val(Nil, w)
  {
    var bs := Bind("a", OrLast(Lit(Bool(false))), NoBinds);
    assert SlotBinds(o, RootEnv(s), bs, sc, sc.next, l, w) == GotArgs([Bool(false)] + [], l[sc.next := Bool(false)], w);
    assert BindScope(sc, bs) == BindScope(CScope(sc.slots["a" := sc.next], sc.next + 1), NoBinds);
    assert FormBinds(o, bs, s, map[], w) == Bound(map["a" := Nil], w);
  }

  // ----- the same as closure bodies, compiled and run -----

  function Quoted(v: Value): Value {
    ListOf([Sym("quote"), v])
  }

  function LetOf(bindings: seq<Value>, body: Value): Value {
    ListOf([Sym("let"), ListOf(bindings), body])
  }

  function BindingOf(name: string, init: Value): Value {
    ListOf([Sym(name), init])
  }

  /**
    The compiler accepts the body, its bytecode returns one value and the evaluator the other, asking nothing outside.
   */
  ghost predicate Answer(o: Oracle, params: seq<string>, body: seq<Value>, env: nat, args: seq<Value>, w: World,
      bytecode: Value, evaluator: Value)
    requires |params| == |args|
  {
    && CompileClosure(params, body).Some?
    && (var c := CompileClosure(params, body).value;
        CompiledRunnable(params, body);
        Run(o, env, c.code, Start(c, args, w)) == Returned(Val(bytecode, w)))
    && EvalBody(o, params, body, env, args, w) == Val(evaluator, w)
  }

  /** `(let ((a 'x) (b (let ((c 'y)) c))) a)` */
  function ClashingBody(x: Value, y: Value): seq<Value> {
    [LetOf([BindingOf("a", Quoted(x)), BindingOf("b", LetOf([BindingOf("c", Quoted(y))], Sym("c")))], Sym("a"))]
  }

  /** `(let ((a (or #f))) a)` */
  const FALSE_OR_BODY: seq<Value> := [LetOf([BindingOf("a", ListOf([Sym("or"), Bool(false)]))], Sym("a"))]

  lemma ListParses(items: seq<Value>)
    requires items != []
    ensures ParseExpr(ListOf(items)) == ParseList(items)
  {
  }

  lemma QuotedParses(v: Value)
    ensures ParseExpr(Quoted(v)) == Some(Lit(v))
  {
    ListParses([Sym("quote"), v]);
  }

  lemma BindingParts(name: string, init: Value)
    ensures IsBinding(BindingOf(name, init)) && Items(BindingOf(name, init)) == [Sym(name), init]
  {
  }

  /** A let of one name parses to a let form. */
  lemma LetParses(bindings: seq<Value>, name: string, bs: Binds)
    requires ParseBinds(bindings) == Some(bs)
    ensures ParseExpr(LetOf(bindings, Sym(name))) == Some(Let(bs, Ref(name)))
  {
    hide ParseBinds;
    var items := [Sym("let"), ListOf(bindings), Sym(name)];
    ListParses(items);
    assert items[1..] == [ListOf(bindings), Sym(name)];
    assert items[1..][1..] == [Sym(name)];
    assert ParseSequence([Sym(name)]) == ParseExpr(Sym(name));
    assert ParseList(items) == ParseLet(items[1..]);
  }

  lemma ConsBinds(name: string, init: Value, f: Form, rest: seq<Value>, bs: Binds)
    requires ParseExpr(init) == Some(f) && ParseBinds(rest) == Some(bs)
    ensures ParseBinds([BindingOf(name, init)] + rest) == Some(Bind(name, f, bs))
  {
    hide ParseExpr;
    BindingParts(name, init);
    assert ([BindingOf(name, init)] + rest)[1..] == rest;
  }

  lemma OneBind(name: string, init: Value, f: Form)
    requires ParseExpr(init) == Some(f)
    ensures ParseBinds([BindingOf(name, init)]) == Some(Bind(name, f, NoBinds))
  {
    hide ParseExpr;
    ConsBinds(name, init, f, [], NoBinds);
    assert [BindingOf(name, init)] + [] == [BindingOf(name, init)];
  }

  lemma ClashingBodyParses(x: Value, y: Value)
    ensures ParseSequence(ClashingBody(x, y)) == Some(Let(ClashingBinds(x, y), Ref("a")))
  {
    hide ParseExpr, ParseBinds, LetOf, BindingOf, Quoted;
    QuotedParses(x);
    QuotedParses(y);
    OneBind("c", Quoted(y), Lit(y));
    var inner := LetOf([BindingOf("c", Quoted(y))], Sym("c"));
    LetParses([BindingOf("c", Quoted(y))], "c", Bind("c", Lit(y), NoBinds));
    OneBind("b", inner, Let(Bind("c", Lit(y), NoBinds), Ref("c")));
    ConsBinds("a", Quoted(x), Lit(x), [BindingOf("b", inner)], LaterBind(y));
    var bindings := [BindingOf("a", Quoted(x)), BindingOf("b", inner)];
    assert bindings == [BindingOf("a", Quoted(x))] + [BindingOf("b", inner)];
    LetParses(bindings, "a", ClashingBinds(x, y));
  }

  /**
    The closure body `(let ((a 'x) (b (let ((c 'y)) c))) a)` is compiled, and for all values x and y its bytecode
    returns y where the evaluator returns x.
   */
  lemma {:induction false} ClashingBodyDiffers(
    o: Oracle, x: Value, y: Value, params: seq<string>, env: nat, args: seq<Value>, w: World)
    requires |params| == |args|
    ensures Answer(o, params, ClashingBody(x, y), env, args, w, y, x)
  {
    hide CodeOf, SlotEval, FormEval, Run, ParseSequence, EvalSequence, ParamFrame, ParamScope, Runnable, ClashingBody,
         ClashingBinds, Start;
    var body, s := ClashingBody(x, y), Frame(ParamFrame(params, args), Root(env));
    ClashingBodyParses(x, y);
    var c := CompileClosure(params, body).value;
    ClashingDepth(x, y);
    FrameBehaviour(o, params, body, env, args, w);
    ClashingLetDiffers(o, x, y, ParamScope(params), true, Start(c, args, w).locals, s, w);
    SequenceAgrees(o, body, s, true, w);
    assert RootEnv(s) == RootEnv(Root(env)) == env;
  }

  lemma FalseOrBodyParses()
    ensures ParseSequence(FALSE_OR_BODY) == Some(Let(Bind("a", OrLast(Lit(Bool(false))), NoBinds), Ref("a")))
  {
    hide ParseBinds, LetOf, BindingOf;
    var init := ListOf([Sym("or"), Bool(false)]);
    OrParses();
    OneBind("a", init, OrLast(Lit(Bool(false))));
    LetParses([BindingOf("a", init)], "a", Bind("a", OrLast(Lit(Bool(false))), NoBinds));
  }

  lemma OrParses()
    ensures ParseExpr(ListOf([Sym("or"), Bool(false)])) == Some(OrLast(Lit(Bool(false))))
  {
    var items := [Sym("or"), Bool(false)];
    ListParses(items);
    assert items[1..] == [Bool(false)];
  }

  /** The closure body `(let ((a (or #f))) a)` is compiled; its bytecode returns #f, the evaluator nil. */
  lemma {:induction false} FalseOrBodyDiffers(
    o: Oracle, params: seq<string>, env: nat, args: seq<Value>, w: World)
    requires |params| == |args|
    ensures Answer(o, params, FALSE_OR_BODY, env, args, w, Bool(false), Nil)
  {
    hide CodeOf, SlotEval, FormEval, Run, ParseSequence, EvalSequence, ParamFrame, ParamScope, Runnable, Start;
    var s := Frame(ParamFrame(params, args), Root(env));
    FalseOrBodyParses();
    var c := CompileClosure(params, FALSE_OR_BODY).value;
    FrameBehaviour(o, params, FALSE_OR_BODY, env, args, w);
    FalseOrDiffers(o, ParamScope(params), true, Start(c, args, w).locals, s, w);
    SequenceAgrees(o, FALSE_OR_BODY, s, true, w);
    assert RootEnv(s) == RootEnv(Root(env)) == env;
  }
}
