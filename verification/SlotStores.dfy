/**
  Which slots a frame stores to, in order.  Replaying the stores of a form gives its final locals, so a binding
  of a `let` survives its later initialisers exactly when the last thing they store over it, if anything, is its value.
 */
module SlotStores {
  import opened Values
  import opened Forms
  import opened Bytecode
  import opened Machine
  import opened Simulation
  import opened CompilerCorrectness

  datatype Store = Store(slot: nat, v: Value)

  /** The store instructions executed by a form, oldest first. */
  ghost function Stores(o: Oracle, env: nat, f: Form, sc: CScope, tail: bool, l: seq<Value>, w: World): seq<Store>
    requires Fits(Depth(f), sc, l)
    decreases f
  {
    match f
    case Lit(_) => []
    case Ref(_) => []
    case If(c, t, e) =>
      var out := SlotEval(o, env, c, sc, false, l, w);
      Stores(o, env, c, sc, false, l, w)
      + if !out.r.Val? then []
        else if Truthy(out.r.v) then Stores(o, env, t, sc, tail, out.locals, out.r.w)
        else Stores(o, env, e, sc, tail, out.locals, out.r.w)
    case Then(a, b) =>
      var out := SlotEval(o, env, a, sc, false, l, w);
      Stores(o, env, a, sc, false, l, w) + if out.r.Val? then Stores(o, env, b, sc, tail, out.locals, out.r.w) else []
    case And(a, b) =>
      var out := SlotEval(o, env, a, sc, false, l, w);
      Stores(o, env, a, sc, false, l, w)
      + if out.r.Val? && Truthy(out.r.v) then Stores(o, env, b, sc, tail, out.locals, out.r.w) else []
    case Or(a, b) =>
      var out := SlotEval(o, env, a, sc, false, l, w);
      Stores(o, env, a, sc, false, l, w)
      + if out.r.Val? && !Truthy(out.r.v) then Stores(o, env, b, sc, tail, out.locals, out.r.w) else []
    case OrLast(e) => Stores(o, env, e, sc, tail, l, w)
    case Let(bs, body) =>
      var got := SlotBinds(o, env, bs, sc, sc.next, l, w);
      BindScopeOk(sc, bs);
      BindStores(o, env, bs, sc, sc.next, l, w)
      + if got.GotArgs? then Stores(o, env, body, BindScope(sc, bs), tail, got.locals, got.w) else []
    case Call(fn, args) =>
      var out := SlotEval(o, env, fn, sc, false, l, w);
      Stores(o, env, fn, sc, false, l, w) + if out.r.Val? then ArgStores(o, env, args, sc, out.locals, out.r.w) else []
  }

  ghost function ArgStores(o: Oracle, env: nat, args: Args, sc: CScope, l: seq<Value>, w: World): seq<Store>
    requires Fits(ArgsDepth(args), sc, l)
    decreases args
  {
    if args.NoArgs? then []
    else
      var out := SlotEval(o, env, args.head, sc, false, l, w);
      Stores(o, env, args.head, sc, false, l, w)
      + if out.r.Val? then ArgStores(o, env, args.rest, sc, out.locals, out.r.w) else []
  }

  ghost function BindStores(o: Oracle, env: nat, bs: Binds, sc: CScope, slot: nat, l: seq<Value>, w: World): seq<Store>
    requires Fits(BindsDepth(bs), sc, l) && slot + BindCount(bs) <= |l|
    decreases bs
  {
    if bs.NoBinds? then []
    else
      var out := SlotEval(o, env, bs.init, sc, false, l, w);
      Stores(o, env, bs.init, sc, false, l, w)
      + if !out.r.Val? then []
        else [Store(slot, out.r.v)] + BindStores(o, env, bs.rest, sc, slot + 1, out.locals[slot := out.r.v], out.r.w)
  }

  // ----- replaying -----

  function Replay(l: seq<Value>, ss: seq<Store>): (k: seq<Value>)
    ensures |k| == |l|
    decreases |ss|
  {
    if ss == [] then l
    else if ss[0].slot < |l| then Replay(l[ss[0].slot := ss[0].v], ss[1..])
    else Replay(l, ss[1..])
  }

  lemma {:induction false} ReplayJoin(l: seq<Value>, a: seq<Store>, b: seq<Store>)
    ensures Replay(l, a + b) == Replay(Replay(l, a), b)
    decreases |a|
  {
    if a == [] {
      assert a + b == b;
    } else {
      assert (a + b)[1..] == a[1..] + b;
      ReplayJoin(if a[0].slot < |l| then l[a[0].slot := a[0].v] else l, a[1..], b);
    }
  }

  lemma ReplayOne(l: seq<Value>, slot: nat, v: Value, rest: seq<Store>)
    requires slot < |l|
    ensures Replay(l, [Store(slot, v)] + rest) == Replay(l[slot := v], rest)
  {
    assert ([Store(slot, v)] + rest)[1..] == rest;
  }

  /** The last value stored to a slot. */
  function LastTo(ss: seq<Store>, p: nat): Option<Value>
    decreases |ss|
  {
    if ss == [] then None
    else
      var later := LastTo(ss[1..], p);
      if later.Some? then later else if ss[0].slot == p then Some(ss[0].v) else None
  }

  lemma {:induction false} ReplayAt(l: seq<Value>, ss: seq<Store>, p: nat)
    requires p < |l|
    ensures Replay(l, ss)[p] == if LastTo(ss, p).Some? then LastTo(ss, p).value else l[p]
    decreases |ss|
  {
    if ss != [] {
      ReplayAt(if ss[0].slot < |l| then l[ss[0].slot := ss[0].v] else l, ss[1..], p);
    }
  }

  /** A form that ends with a value or a tail call leaves the locals its stores make. */
  lemma {:induction false} StoresMakeLocals(o: Oracle, env: nat, f: Form, sc: CScope, tail: bool, l: seq<Value>,
      w: World)
    requires Fits(Depth(f), sc, l)
    ensures
      var out := SlotEval(o, env, f, sc, tail, l, w);
      out.r.Val? || out.r.Tail? ==> out.locals == Replay(l, Stores(o, env, f, sc, tail, l, w))
    decreases f, 1
  {
    match f
    case Lit(_) =>
    case Ref(_) =>
    case If(c, t, e) => IfStores(o, env, f, sc, tail, l, w);
    case Then(a, b) => PairStores(o, env, f, sc, tail, l, w);
    case And(a, b) => PairStores(o, env, f, sc, tail, l, w);
    case Or(a, b) => PairStores(o, env, f, sc, tail, l, w);
    case OrLast(e) => StoresMakeLocals(o, env, e, sc, tail, l, w);
    case Let(bs, body) => LetStores(o, env, f, sc, tail, l, w);
    case Call(fn, args) => CallStores(o, env, f, sc, tail, l, w);
  }

  ghost predicate Made(o: Oracle, env: nat, f: Form, sc: CScope, tail: bool, l: seq<Value>, w: World)
    requires Fits(Depth(f), sc, l)
  {
    var out := SlotEval(o, env, f, sc, tail, l, w);
    out.r.Val? || out.r.Tail? ==> out.locals == Replay(l, Stores(o, env, f, sc, tail, l, w))
  }

  lemma {:induction false} IfStores(o: Oracle, env: nat, f: Form, sc: CScope, tail: bool, l: seq<Value>, w: World)
    requires f.If? && Fits(Depth(f), sc, l)
    ensures Made(o, env, f, sc, tail, l, w)
    decreases f, 0
  {
    StoresMakeLocals(o, env, f.test, sc, false, l, w);
    var out := SlotEval(o, env, f.test, sc, false, l, w);
    if out.r.Val? {
      var branch := if Truthy(out.r.v) then f.thn else f.els;
      StoresMakeLocals(o, env, branch, sc, tail, out.locals, out.r.w);
      ReplayJoin(l, Stores(o, env, f.test, sc, false, l, w), Stores(o, env, branch, sc, tail, out.locals, out.r.w));
    }
  }

  lemma {:induction false} PairStores(o: Oracle, env: nat, f: Form, sc: CScope, tail: bool, l: seq<Value>, w: World)
    requires (f.Then? || f.And? || f.Or?) && Fits(Depth(f), sc, l)
    ensures Made(o, env, f, sc, tail, l, w)
    decreases f, 0
  {
    StoresMakeLocals(o, env, f.first, sc, false, l, w);
    var out := SlotEval(o, env, f.first, sc, false, l, w);
    var ss := Stores(o, env, f.first, sc, false, l, w);
    assert ss + [] == ss;
    if out.r.Val? {
      StoresMakeLocals(o, env, f.rest, sc, tail, out.locals, out.r.w);
      ReplayJoin(l, ss, Stores(o, env, f.rest, sc, tail, out.locals, out.r.w));
    }
  }

  lemma {:induction false} LetStores(o: Oracle, env: nat, f: Form, sc: CScope, tail: bool, l: seq<Value>, w: World)
    requires f.Let? && Fits(Depth(f), sc, l)
    ensures Made(o, env, f, sc, tail, l, w)
    decreases f, 0
  {
    BindScopeOk(sc, f.binds);
    BindsMakeLocals(o, env, f.binds, sc, sc.next, l, w);
    var got := SlotBinds(o, env, f.binds, sc, sc.next, l, w);
    if got.GotArgs? {
      var inner := BindScope(sc, f.binds);
      StoresMakeLocals(o, env, f.body, inner, tail, got.locals, got.w);
      ReplayJoin(l, BindStores(o, env, f.binds, sc, sc.next, l, w),
          Stores(o, env, f.body, inner, tail, got.locals, got.w));
    }
  }

  lemma {:induction false} CallStores(o: Oracle, env: nat, f: Form, sc: CScope, tail: bool, l: seq<Value>, w: World)
    requires f.Call? && Fits(Depth(f), sc, l)
    ensures Made(o, env, f, sc, tail, l, w)
    decreases f, 0
  {
    StoresMakeLocals(o, env, f.fn, sc, false, l, w);
    var out := SlotEval(o, env, f.fn, sc, false, l, w);
    if out.r.Val? {
      ArgsMakeLocals(o, env, f.args, sc, out.locals, out.r.w);
      ReplayJoin(l, Stores(o, env, f.fn, sc, false, l, w), ArgStores(o, env, f.args, sc, out.locals, out.r.w));
    }
  }

  lemma {:induction false} ArgsMakeLocals(o: Oracle, env: nat, args: Args, sc: CScope, l: seq<Value>, w: World)
    requires Fits(ArgsDepth(args), sc, l)
    ensures
      var got := SlotEvalArgs(o, env, args, sc, l, w);
      got.GotArgs? ==> got.locals == Replay(l, ArgStores(o, env, args, sc, l, w))
    decreases args, 0
  {
    if args.Arg? {
      StoresMakeLocals(o, env, args.head, sc, false, l, w);
      var out := SlotEval(o, env, args.head, sc, false, l, w);
      if out.r.Val? {
        ArgsMakeLocals(o, env, args.rest, sc, out.locals, out.r.w);
        ReplayJoin(l, Stores(o, env, args.head, sc, false, l, w),
            ArgStores(o, env, args.rest, sc, out.locals, out.r.w));
      }
    }
  }

  lemma {:induction false} BindsMakeLocals(o: Oracle, env: nat, bs: Binds, sc: CScope, slot: nat, l: seq<Value>,
      w: World)
    requires Fits(BindsDepth(bs), sc, l) && slot + BindCount(bs) <= |l|
    ensures
      var got := SlotBinds(o, env, bs, sc, slot, l, w);
      got.GotArgs? ==> got.locals == Replay(l, BindStores(o, env, bs, sc, slot, l, w))
    decreases bs, 0
  {
    if bs.Bind? {
      StoresMakeLocals(o, env, bs.init, sc, false, l, w);
      var out := SlotEval(o, env, bs.init, sc, false, l, w);
      if out.r.Val? {
        var l2 := out.locals[slot := out.r.v];
        var rest := BindStores(o, env, bs.rest, sc, slot + 1, l2, out.r.w);
        BindsMakeLocals(o, env, bs.rest, sc, slot + 1, l2, out.r.w);
        ReplayJoin(l, Stores(o, env, bs.init, sc, false, l, w), [Store(slot, out.r.v)] + rest);
        ReplayOne(out.locals, slot, out.r.v, rest);
      }
    }
  }

  // ----- survival of a binding -----

  /** What the initialisers after the k-th store. */
  ghost function LaterStores(o: Oracle, env: nat, bs: Binds, sc: CScope, slot: nat, k: nat, l: seq<Value>,
      w: World): seq<Store>
    requires Fits(BindsDepth(bs), sc, l) && slot + BindCount(bs) <= |l| && k < BindCount(bs)
    decreases bs
  {
    var out := SlotEval(o, env, bs.init, sc, false, l, w);
    if !out.r.Val? then []
    else
      var l2 := out.locals[slot := out.r.v];
      if k == 0 then BindStores(o, env, bs.rest, sc, slot + 1, l2, out.r.w)
      else LaterStores(o, env, bs.rest, sc, slot + 1, k - 1, l2, out.r.w)
  }

  /**
    When the body of a `let` starts, the k-th binding has its value if and only if the later initialisers
    stored nothing over it, or last of all the same value.
   */
  lemma {:induction false} BindingSurvivesExactly(o: Oracle, env: nat, bs: Binds, sc: CScope, slot: nat, k: nat,
      l: seq<Value>, w: World)
    requires Fits(BindsDepth(bs), sc, l) && slot + BindCount(bs) <= |l| && k < BindCount(bs)
    ensures
      var got := SlotBinds(o, env, bs, sc, slot, l, w);
      got.GotArgs? ==>
        var last := LastTo(LaterStores(o, env, bs, sc, slot, k, l, w), slot + k);
        && (got.locals[slot + k] == got.vals[k] <==> last.None? || last.value == got.vals[k])
        && (last.Some? ==> got.locals[slot + k] == last.value)
    decreases bs
  {
    hide SlotEval, BindStores, Stores;
    BindsUnfold(o, env, bs, sc, slot, 0, l, w);
    var out := SlotEval(o, env, bs.init, sc, false, l, w);
    if out.r.Val? {
      var l2 := out.locals[slot := out.r.v];
      if k == 0 {
        BindsMakeLocals(o, env, bs.rest, sc, slot + 1, l2, out.r.w);
        ReplayAt(l2, BindStores(o, env, bs.rest, sc, slot + 1, l2, out.r.w), slot);
      } else {
        BindingSurvivesExactly(o, env, bs.rest, sc, slot + 1, k - 1, l2, out.r.w);
      }
    }
  }

  // ----- bodies to which the compiler's correctness applies -----

  /** No `let` in the form binds a name. */
  predicate BindsNothing(f: Form)
    decreases f
  {
    match f
    case Lit(_) => true
    case Ref(_) => true
    case If(c, t, e) => BindsNothing(c) && BindsNothing(t) && BindsNothing(e)
    case Then(a, b) => BindsNothing(a) && BindsNothing(b)
    case And(a, b) => BindsNothing(a) && BindsNothing(b)
    case Or(a, b) => BindsNothing(a) && BindsNothing(b)
    case OrLast(e) => BindsNothing(e)
    case Let(bs, body) => bs.NoBinds? && BindsNothing(body)
    case Call(fn, args) => BindsNothing(fn) && ArgsBindNothing(args)
  }

  predicate ArgsBindNothing(args: Args)
    decreases args
  {
    args.Arg? ==> BindsNothing(args.head) && ArgsBindNothing(args.rest)
  }

  /** No `or` outside tail position, and no binding `let` in a second or later initialiser. */
  predicate Plain(f: Form, tail: bool)
    decreases f
  {
    match f
    case Lit(_) => true
    case Ref(_) => true
    case If(c, t, e) => Plain(c, false) && Plain(t, tail) && Plain(e, tail)
    case Then(a, b) => Plain(a, false) && Plain(b, tail)
    case And(a, b) => Plain(a, false) && Plain(b, tail)
    case Or(a, b) => tail && Plain(a, false) && Plain(b, tail)
    case OrLast(e) => tail && Plain(e, tail)
    case Let(bs, body) => PlainBinds(bs, true) && Plain(body, tail)
    case Call(fn, args) => Plain(fn, false) && PlainArgs(args)
  }

  predicate PlainArgs(args: Args)
    decreases args
  {
    args.Arg? ==> Plain(args.head, false) && PlainArgs(args.rest)
  }

  predicate PlainBinds(bs: Binds, first: bool)
    decreases bs
  {
    bs.Bind? ==> Plain(bs.init, false) && (first || BindsNothing(bs.init)) && PlainBinds(bs.rest, false)
  }

  /** A form needs no slots of its own exactly when it binds nothing. */
  lemma {:induction false} DepthZeroExactly(f: Form)
    ensures Depth(f) == 0 <==> BindsNothing(f)
    decreases f
  {
    match f
    case Lit(_) =>
    case Ref(_) =>
    case If(c, t, e) => DepthZeroExactly(c); DepthZeroExactly(t); DepthZeroExactly(e);
    case Then(a, b) => DepthZeroExactly(a); DepthZeroExactly(b);
    case And(a, b) => DepthZeroExactly(a); DepthZeroExactly(b);
    case Or(a, b) => DepthZeroExactly(a); DepthZeroExactly(b);
    case OrLast(e) => DepthZeroExactly(e);
    case Let(bs, body) => DepthZeroExactly(body);
    case Call(fn, args) => DepthZeroExactly(fn); ArgsDepthZero(args);
  }

  lemma {:induction false} ArgsDepthZero(args: Args)
    ensures ArgsDepth(args) == 0 <==> ArgsBindNothing(args)
    decreases args
  {
    if args.Arg? {
      DepthZeroExactly(args.head);
      ArgsDepthZero(args.rest);
    }
  }

  /** Every plain form is clean, so compiled plain bodies are correct. */
  lemma {:induction false} PlainIsClean(f: Form, u: Use)
    requires Plain(f, u.TailUse?)
    ensures Clean(f, u)
    decreases f
  {
    match f
    case Lit(_) =>
    case Ref(_) =>
    case If(c, t, e) => PlainIsClean(c, Loose); PlainIsClean(t, u); PlainIsClean(e, u);
    case Then(a, b) => PlainIsClean(a, Loose); PlainIsClean(b, u);
    case And(a, b) => PlainIsClean(a, if u.Loose? then Loose else Exact); PlainIsClean(b, u);
    case Or(a, b) => PlainIsClean(a, Loose); PlainIsClean(b, u);
    case OrLast(e) => PlainIsClean(e, u);
    case Let(bs, body) => PlainBindsClean(bs, true); PlainIsClean(body, u);
    case Call(fn, args) => PlainIsClean(fn, Exact); PlainArgsClean(args);
  }

  lemma {:induction false} PlainArgsClean(args: Args)
    requires PlainArgs(args)
    ensures CleanArgs(args)
    decreases args
  {
    if args.Arg? {
      PlainIsClean(args.head, Exact);
      PlainArgsClean(args.rest);
    }
  }

  lemma {:induction false} PlainBindsClean(bs: Binds, first: bool)
    requires PlainBinds(bs, first)
    ensures CleanBinds(bs, first)
    decreases bs
  {
    if bs.Bind? {
      PlainIsClean(bs.init, Exact);
      DepthZeroExactly(bs.init);
      PlainBindsClean(bs.rest, false);
    }
  }
}
