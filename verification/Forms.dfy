/**
  The fragment of the language that the closure compiler accepts, as an abstract syntax.
  `ParseExpr` accepts exactly the expressions `compile_expr` accepts (see `Compiler.CompileExpr`).
  Sequences, `and` and `or` are right-nested pairs; `OrLast` is the last argument of an `or`.
 */
module Forms {
  import opened Values

  datatype Form =
    | Lit(v: Value)
    | Ref(name: string)
    | If(test: Form, thn: Form, els: Form)
    | Then(first: Form, rest: Form)
    | And(first: Form, rest: Form)
    | Or(first: Form, rest: Form)
    | OrLast(last: Form)
    | Let(binds: Binds, body: Form)
    | Call(fn: Form, args: Args)

  datatype Args = NoArgs | Arg(head: Form, rest: Args)

  datatype Binds = NoBinds | Bind(name: string, init: Form, rest: Binds)

  function ArgCount(a: Args): nat {
    if a.NoArgs? then 0 else 1 + ArgCount(a.rest)
  }

  function BindCount(b: Binds): nat {
    if b.NoBinds? then 0 else 1 + BindCount(b.rest)
  }

  function Max(a: nat, b: nat): nat {
    if a < b then b else a
  }

  /** How many local slots a form needs above its scope's next free slot. */
  function Depth(f: Form): nat {
    match f
    case Lit(_) => 0
    case Ref(_) => 0
    case If(c, t, e) => Max(Depth(c), Max(Depth(t), Depth(e)))
    case Then(a, b) => Max(Depth(a), Depth(b))
    case And(a, b) => Max(Depth(a), Depth(b))
    case Or(a, b) => Max(Depth(a), Depth(b))
    case OrLast(e) => Depth(e)
    case Let(bs, body) => Max(BindsDepth(bs), BindCount(bs) + Depth(body))
    case Call(fn, args) => Max(Depth(fn), ArgsDepth(args))
  }

  function ArgsDepth(a: Args): nat {
    if a.NoArgs? then 0 else Max(Depth(a.head), ArgsDepth(a.rest))
  }

  function BindsDepth(b: Binds): nat {
    if b.NoBinds? then 0 else Max(Depth(b.init), BindsDepth(b.rest))
  }

  /** Heads that make the compiler give up on the whole closure. */
  predicate Refused(name: string) {
    name in {"cond", "define", "lambda", "quasiquote", "load", "bt", "defbt", "unquote", "unquote-splicing"}
  }

  function ParseExpr(e: Value): Option<Form>
    decreases Size(e), 1
  {
    match e
    case Sym(name) => Some(Ref(name))
    case Cons(_, _) => if IsProperList(e) then ParseList(Items(e)) else None
    case _ => Some(Lit(e))
  }

  function ParseList(items: seq<Value>): Option<Form>
    decreases SeqSize(items), 2
  {
    if items == [] then None
    else
      var head, args := items[0], items[1..];
      if head == Sym("quote") then
        if |args| == 1 then Some(Lit(args[0])) else None
      else if head == Sym("if") then ParseIf(args)
      else if head == Sym("begin") then ParseSequence(args)
      else if head == Sym("let") then ParseLet(args)
      else if head == Sym("and") then ParseAnd(args)
      else if head == Sym("or") then ParseOr(args)
      else if head.Sym? && Refused(head.name) then None
      else ParseCall(items)
  }

  function ParseIf(args: seq<Value>): Option<Form>
    decreases SeqSize(args), 0
  {
    if |args| != 2 && |args| != 3 then None
    else
      ItemSmaller(args, 0); ItemSmaller(args, 1);
      var c, t := ParseExpr(args[0]), ParseExpr(args[1]);
      var e := if |args| == 3 then ItemSmaller(args, 2); ParseExpr(args[2]) else Some(Lit(Nil));
      if c.Some? && t.Some? && e.Some? then Some(If(c.value, t.value, e.value)) else None
  }

  function ParseSequence(es: seq<Value>): Option<Form>
    decreases SeqSize(es), 1
  {
    if es == [] then Some(Lit(Nil))
    else
      ItemSmaller(es, 0);
      var first := ParseExpr(es[0]);
      if |es| == 1 then first
      else
        var rest := ParseSequence(es[1..]);
        if first.Some? && rest.Some? then Some(Then(first.value, rest.value)) else None
  }

  function ParseAnd(es: seq<Value>): Option<Form>
    decreases SeqSize(es), 0
  {
    if es == [] then Some(Lit(Bool(true)))
    else
      ItemSmaller(es, 0);
      var first := ParseExpr(es[0]);
      if |es| == 1 then first
      else
        var rest := ParseAnd(es[1..]);
        if first.Some? && rest.Some? then Some(And(first.value, rest.value)) else None
  }

  function ParseOr(es: seq<Value>): Option<Form>
    decreases SeqSize(es), 0
  {
    if es == [] then Some(Lit(Nil))
    else
      ItemSmaller(es, 0);
      var first := ParseExpr(es[0]);
      if |es| == 1 then
        if first.Some? then Some(OrLast(first.value)) else None
      else
        var rest := ParseOr(es[1..]);
        if first.Some? && rest.Some? then Some(Or(first.value, rest.value)) else None
  }

  /** A binding `(name init)`. */
  predicate IsBinding(b: Value) {
    IsProperList(b) && |Items(b)| == 2 && Items(b)[0].Sym?
  }

  lemma BindingSmaller(b: Value)
    requires IsBinding(b)
    ensures Size(Items(b)[1]) < Size(b)
  {
    ItemSmaller(Items(b), 1);
  }

  function ParseBinds(bindings: seq<Value>): Option<Binds>
    decreases SeqSize(bindings), 0
  {
    if bindings == [] then Some(NoBinds)
    else if !IsBinding(bindings[0]) then None
    else
      BindingSmaller(bindings[0]);
      var init := ParseExpr(Items(bindings[0])[1]);
      var rest := ParseBinds(bindings[1..]);
      if init.Some? && rest.Some? then Some(Bind(Items(bindings[0])[0].name, init.value, rest.value)) else None
  }

  function ParseLet(args: seq<Value>): Option<Form>
    decreases SeqSize(args), 1
  {
    if |args| < 2 || !IsProperList(args[0]) then None
    else
      var bs := ParseBinds(Items(args[0]));
      var body := ParseSequence(args[1..]);
      if bs.Some? && body.Some? then Some(Let(bs.value, body.value)) else None
  }

  function ParseArgs(es: seq<Value>): Option<Args>
    decreases SeqSize(es), 0
  {
    if es == [] then Some(NoArgs)
    else
      ItemSmaller(es, 0);
      var head, rest := ParseExpr(es[0]), ParseArgs(es[1..]);
      if head.Some? && rest.Some? then Some(Arg(head.value, rest.value)) else None
  }

  function ParseCall(items: seq<Value>): Option<Form>
    requires items != []
    decreases SeqSize(items), 1
  {
    ItemSmaller(items, 0);
    var fn, args := ParseExpr(items[0]), ParseArgs(items[1..]);
    if fn.Some? && args.Some? then Some(Call(fn.value, args.value)) else None
  }
}
