/**
  The stack machine of src/compiled_eval.cpp and a structural account of what generated code does.

  What happens outside a frame - global lookup and calling a value - is an arbitrary oracle over the
  history of the run, so results hold for every program around the frame.
 */
module Machine {
  import opened Values
  import opened Forms
  import opened Bytecode

  datatype Error =
    | Unbound(name: string)
    | Arity(expected: nat, got: nat)
    | NotCallable
    | BadForm(form: string)
    | OutsideModel(form: string)
    | Raised(code: nat)
    | Internal(kind: FaultKind)

  /** What the rest of the runtime has been asked to do so far. */
  datatype Event = LookedUp(env: nat, name: string) | Applied(prim: nat, args: seq<Value>)

  type World = seq<Event>

  datatype Halt = OutOfFuel | Unclean

  /** Tail: the frame ended by handing a call over to its caller. */
  datatype Outcome =
    | Val(v: Value, w: World)
    | Exn(err: Error, w: World)
    | Abort(why: Halt)
    | Tail(fn: Value, args: seq<Value>, w: World)

  type Answer = r: Outcome | !r.Tail? witness Abort(OutOfFuel)

  datatype Oracle = Oracle(
    lookup: (World, nat, string) -> Option<Value>,
    invoke: (Value, seq<Value>, World) -> Answer)

  function Global(o: Oracle, env: nat, name: string, w: World): Answer {
    match o.lookup(w, env, name)
    case Some(v) => Val(v, w + [LookedUp(env, name)])
    case None => Exn(Unbound(name), w + [LookedUp(env, name)])
  }

  // ----- the machine -----

  datatype Vm = Vm(ip: nat, stack: seq<Value>, locals: seq<Value>, world: World)

  datatype FaultKind = StackUnderflow | InvalidSlot | FellOffEnd

  /** How one frame ends. `residue` is what a tail call leaves on the operand stack. */
  datatype FrameEnd =
    | Returned(r: Answer)
    | Reuse(fn: Value, args: seq<Value>, w: World, residue: seq<Value>)
    | Fault(kind: FaultKind)

  datatype Turn = Next(m: Vm) | Stop(end: FrameEnd)

  function Push(m: Vm, a: Answer): Turn {
    match a
    case Val(v, w) => Next(Vm(m.ip + 1, m.stack + [v], m.locals, w))
    case _ => Stop(Returned(a))
  }

  function Top(s: seq<Value>): Value
    requires s != []
  {
    s[|s| - 1]
  }

  function Drop(s: seq<Value>, n: nat): seq<Value>
    requires n <= |s|
  {
    s[..|s| - n]
  }

  /** One turn of the interpreter's switch. */
  function Step(o: Oracle, env: nat, i: Instr, m: Vm): Turn {
    match i
    case PushConst(v) => Push(m, Val(v, m.world))
    case LoadLocal(k) =>
      if k >= |m.locals| then Stop(Fault(InvalidSlot)) else Push(m, Val(m.locals[k], m.world))
    case LoadName(name) => Push(m, Global(o, env, name, m.world))
    case StoreLocal(k) =>
      if k >= |m.locals| then Stop(Fault(InvalidSlot))
      else if m.stack == [] then Stop(Fault(StackUnderflow))
      else Next(Vm(m.ip + 1, Drop(m.stack, 1), m.locals[k := Top(m.stack)], m.world))
    case Pop =>
      if m.stack == [] then Stop(Fault(StackUnderflow)) else Next(m.(ip := m.ip + 1, stack := Drop(m.stack, 1)))
    case Jump(t) => Next(m.(ip := t))
    case JumpIfFalse(t) =>
      if m.stack == [] then Stop(Fault(StackUnderflow))
      else Next(m.(ip := if Truthy(Top(m.stack)) then m.ip + 1 else t, stack := Drop(m.stack, 1)))
    case JumpIfFalseKeep(t) =>
      if m.stack == [] then Stop(Fault(StackUnderflow))
      else Next(m.(ip := if Truthy(Top(m.stack)) then m.ip + 1 else t))
    case JumpIfTruthyKeep(t) =>
      if m.stack == [] then Stop(Fault(StackUnderflow))
      else Next(m.(ip := if Truthy(Top(m.stack)) then t else m.ip + 1))
    case CallN(n) =>
      if |m.stack| < n + 1 then Stop(Fault(StackUnderflow))
      else Push(m.(stack := Drop(m.stack, n + 1)), o.invoke(Callee(m.stack, n), CallArgs(m.stack, n), m.world))
    case TailCallN(n) =>
      if |m.stack| < n + 1 then Stop(Fault(StackUnderflow))
      else Stop(Reuse(Callee(m.stack, n), CallArgs(m.stack, n), m.world, Drop(m.stack, n + 1)))
    case ReturnValue =>
      Stop(Returned(Val(if m.stack == [] then Nil else Top(m.stack), m.world)))
  }

  function CallArgs(s: seq<Value>, n: nat): seq<Value>
    requires n <= |s|
  {
    s[|s| - n..]
  }

  function Callee(s: seq<Value>, n: nat): Value
    requires n < |s|
  {
    s[|s| - n - 1]
  }

  lemma StepForward(o: Oracle, env: nat, code: Code, m: Vm)
    requires Runnable(code) && m.ip < |code|
    ensures
      var t := Step(o, env, code[m.ip], m);
      t.Next? ==> m.ip < t.m.ip <= |code|
  {
  }

  /** Running a frame from a given machine state; jumps go forward, so it ends within |code| turns. */
  function Run(o: Oracle, env: nat, code: Code, m: Vm): FrameEnd
    requires Runnable(code)
    decreases |code| - m.ip
  {
    if m.ip >= |code| then Fault(FellOffEnd)
    else
      var t := Step(o, env, code[m.ip], m);
      if t.Next? then Run(o, env, code, t.m) else t.end
  }

  /** The interpreter loop itself, with the number of turns it takes. */
  method RunFrame(o: Oracle, env: nat, code: Code, start: Vm) returns (end: FrameEnd, ghost turns: nat)
    requires Runnable(code)
    ensures end == Run(o, env, code, start)
    ensures start.ip <= |code| ==> turns <= |code| - start.ip
  {
    var m := start;
    turns := 0;
    while m.ip < |code|
      invariant Run(o, env, code, m) == Run(o, env, code, start)
      invariant start.ip <= m.ip
      invariant start.ip <= |code| ==> m.ip <= |code| && turns <= m.ip - start.ip
      decreases |code| - m.ip
    {
      var t := Step(o, env, code[m.ip], m);
      turns := turns + 1;
      if t.Stop? {
        end := t.end;
        return;
      }
      StepForward(o, env, code, m);
      m := t.m;
    }
    end := Fault(FellOffEnd);
  }

  // ----- what generated code computes, form by form -----

  predicate ScopeOk(sc: CScope) {
    forall name <- sc.slots :: sc.slots[name] < sc.next
  }

  predicate Fits(depth: nat, sc: CScope, locals: seq<Value>) {
    ScopeOk(sc) && sc.next + depth <= |locals|
  }

  lemma {:induction false} BindScopeOk(sc: CScope, bs: Binds)
    requires ScopeOk(sc)
    ensures ScopeOk(BindScope(sc, bs)) && BindScope(sc, bs).next == sc.next + BindCount(bs)
    decreases bs
  {
    if bs.Bind? {
      BindScopeOk(CScope(sc.slots[bs.name := sc.next], sc.next + 1), bs.rest);
    }
  }

  datatype SlotOut = SlotOut(r: Outcome, locals: seq<Value>)

  datatype SlotArgs = GotArgs(vals: seq<Value>, locals: seq<Value>, w: World) | NoGo(stop: Answer)

  /** Evaluation over a slot array instead of environments: no jumps, no operand stack. */
  function SlotEval(o: Oracle, env: nat, f: Form, sc: CScope, tail: bool, locals: seq<Value>, w: World): (out: SlotOut)
    requires Fits(Depth(f), sc, locals)
    ensures |out.locals| == |locals|
    ensures !tail ==> !out.r.Tail?
    decreases f
  {
    match f
    case Lit(v) => SlotOut(Val(v, w), locals)
    case Ref(name) =>
      SlotOut(if name in sc.slots then Val(locals[sc.slots[name]], w) else Global(o, env, name, w), locals)
    case If(c, t, e) =>
      var out := SlotEval(o, env, c, sc, false, locals, w);
      if !out.r.Val? then out
      else if Truthy(out.r.v) then SlotEval(o, env, t, sc, tail, out.locals, out.r.w)
      else SlotEval(o, env, e, sc, tail, out.locals, out.r.w)
    case Then(a, b) =>
      var out := SlotEval(o, env, a, sc, false, locals, w);
      if !out.r.Val? then out else SlotEval(o, env, b, sc, tail, out.locals, out.r.w)
    case And(a, b) =>
      var out := SlotEval(o, env, a, sc, false, locals, w);
      if !out.r.Val? || !Truthy(out.r.v) then out else SlotEval(o, env, b, sc, tail, out.locals, out.r.w)
    case Or(a, b) =>
      var out := SlotEval(o, env, a, sc, false, locals, w);
      if !out.r.Val? || Truthy(out.r.v) then out else SlotEval(o, env, b, sc, tail, out.locals, out.r.w)
    case OrLast(e) => SlotEval(o, env, e, sc, tail, locals, w)
    case Let(bs, body) =>
      var got := SlotBinds(o, env, bs, sc, sc.next, locals, w);
      BindScopeOk(sc, bs);
      if got.NoGo? then SlotOut(got.stop, locals)
      else SlotEval(o, env, body, BindScope(sc, bs), tail, got.locals, got.w)
    case Call(fn, args) =>
      var out := SlotEval(o, env, fn, sc, false, locals, w);
      if !out.r.Val? then out
      else
        var got := SlotEvalArgs(o, env, args, sc, out.locals, out.r.w);
        if got.NoGo? then SlotOut(got.stop, locals)
        else if tail then SlotOut(Tail(out.r.v, got.vals, got.w), got.locals)
        else SlotOut(o.invoke(out.r.v, got.vals, got.w), got.locals)
  }

  function SlotEvalArgs(o: Oracle, env: nat, args: Args, sc: CScope, locals: seq<Value>, w: World): (got: SlotArgs)
    requires Fits(ArgsDepth(args), sc, locals)
    ensures got.GotArgs? ==> |got.vals| == ArgCount(args) && |got.locals| == |locals|
    ensures got.NoGo? ==> !got.stop.Val?
    decreases args
  {
    if args.NoArgs? then GotArgs([], locals, w)
    else
      var out := SlotEval(o, env, args.head, sc, false, locals, w);
      if !out.r.Val? then NoGo(out.r)
      else
        var got := SlotEvalArgs(o, env, args.rest, sc, out.locals, out.r.w);
        if got.NoGo? then got else GotArgs([out.r.v] + got.vals, got.locals, got.w)
  }

  /** Initialisers run one after the other, each stored before the next one starts. */
  function SlotBinds(o: Oracle, env: nat, bs: Binds, sc: CScope, slot: nat, locals: seq<Value>,
      w: World): (got: SlotArgs)
    requires Fits(BindsDepth(bs), sc, locals) && slot + BindCount(bs) <= |locals|
    ensures got.GotArgs? ==> |got.vals| == BindCount(bs) && |got.locals| == |locals|
    ensures got.NoGo? ==> !got.stop.Val?
    decreases bs
  {
    if bs.NoBinds? then GotArgs([], locals, w)
    else
      var out := SlotEval(o, env, bs.init, sc, false, locals, w);
      if !out.r.Val? then NoGo(out.r)
      else
        var got := SlotBinds(o, env, bs.rest, sc, slot + 1, out.locals[slot := out.r.v], out.r.w);
        if got.NoGo? then got else GotArgs([out.r.v] + got.vals, got.locals, got.w)
  }
}
