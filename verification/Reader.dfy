/** The parser class of src/reader.cpp: a cursor over the text, advanced by every method. */
module Reader {
  import opened Values
  import opened ReaderSpec

  /** What was read before and what is read now, together. */
  ghost function After<T>(done: seq<T>, rest: Read<seq<T>>): Read<seq<T>> {
    if rest.Bad? then rest else Got(done + rest.v, rest.pos)
  }

  lemma AfterNone<T>(rest: Read<seq<T>>)
    ensures After([], rest) == rest
  {
    if rest.Got? {
      assert [] + rest.v == rest.v;
    }
  }

  lemma AfterMore<T>(done: seq<T>, x: T, rest: Read<seq<T>>)
    ensures After(done, After([x], rest)) == After(done + [x], rest)
    ensures After([x], rest) == if rest.Bad? then rest else Got([x] + rest.v, rest.pos)
  {
    if rest.Got? {
      assert done + ([x] + rest.v) == done + [x] + rest.v;
    }
  }

  lemma AfterLast<T>(done: seq<T>, pos: nat, why: Problem)
    ensures After(done, Got([], pos)) == Got(done, pos) && After(done, Bad(why)) == Bad(why)
  {
    assert done + [] == done;
  }

  lemma StringCases(s: string, p: nat)
    requires p <= |s|
    ensures
      var r := ReaderSpec.ReadString(s, p);
      if p == |s| then r == Bad(UnterminatedString)
      else if s[p] == '"' then r == Got("", p + 1)
      else if s[p] == '\\' then
        if p + 1 == |s| then r == Bad(UnterminatedEscape)
        else if Unescape(s[p + 1]).None? then r == Bad(UnknownEscape)
        else r == After([Unescape(s[p + 1]).value], ReaderSpec.ReadString(s, p + 2))
      else r == After([s[p]], ReaderSpec.ReadString(s, p + 1))
  {
  }

  class Parser {
    const source: string
    const floats: FloatReader
    var pos: nat

    constructor (source: string, floats: FloatReader)
      ensures this.source == source && this.floats == floats && pos == 0
    {
      this.source, this.floats, pos := source, floats, 0;
    }

    method SkipWsAndComments()
      requires pos <= |source|
      modifies this
      ensures pos == Skip(source, old(pos))
    {
      while pos < |source|
        invariant pos <= |source|
        invariant Skip(source, pos) == Skip(source, old(pos))
        decreases |source| - pos
      {
        var c := source[pos];
        if IsSpace(c) {
          pos := pos + 1;
        } else if c == ';' {
          ghost var start := pos;
          pos := pos + 1;
          while pos < |source| && source[pos] != '\n'
            invariant start < pos <= |source|
            invariant LineEnd(source, pos) == LineEnd(source, start + 1)
          {
            pos := pos + 1;
          }
        } else {
          break;
        }
      }
    }

    /** What a reading method leaves behind: the value and the cursor after it, or an error. */
    ghost predicate Did<T>(r: Read<T>, spec: Read<T>)
      reads this
    {
      r == spec && (r.Got? ==> pos == r.pos) && pos <= |source|
    }

    method ReadExpr() returns (r: Read<Value>)
      requires pos <= |source|
      modifies this
      ensures Did(r, ReaderSpec.ReadExpr(floats, source, old(pos)))
      decreases |source| - pos, 0
    {
      hide ReaderSpec.ReadExpr, ReadItems, ReaderSpec.ReadString, Skip, TokenEnd, Atom, ListOf;
      ExprCases(floats, source, pos);
      SkipWsAndComments();
      if pos == |source| {
        return Bad(UnexpectedEnd);
      }
      var c := source[pos];
      pos := pos + 1;
      if c == '(' {
        var items := ReadList();
        if items.Bad? {
          return Bad(items.why);
        }
        return Got(ListOf(items.v), items.pos);
      }
      if c == ')' {
        return Bad(UnexpectedClose);
      }
      if c == '\'' {
        var quoted := ReadExpr();
        return Wrapped("quote", quoted);
      }
      if c == '`' {
        var quoted := ReadExpr();
        return Wrapped("quasiquote", quoted);
      }
      if c == ',' {
        if pos == |source| {
          return Bad(EndAfterComma);
        }
        if source[pos] == '@' {
          pos := pos + 1;
          var splice := ReadExpr();
          return Wrapped("unquote-splicing", splice);
        }
        var unquoted := ReadExpr();
        return Wrapped("unquote", unquoted);
      }
      if c == '"' {
        var text := ReadString();
        if text.Bad? {
          return Bad(text.why);
        }
        return Got(Str(text.v), text.pos);
      }
      r := ReadAtom();
    }

    method ReadList() returns (r: Read<seq<Value>>)
      requires pos <= |source|
      modifies this
      ensures Did(r, ReadItems(floats, source, old(pos)))
      decreases |source| - pos, 1
    {
      hide ReaderSpec.ReadExpr, ReadItems, Skip, After;
      var items: seq<Value> := [];
      ghost var start := pos;
      AfterNone(ReadItems(floats, source, pos));
      while true
        invariant start <= pos <= |source|
        invariant ReadItems(floats, source, start) == After(items, ReadItems(floats, source, pos))
        decreases |source| - pos
      {
        ReadItemsCases(floats, source, pos);
        SkipWsAndComments();
        if pos == |source| {
          AfterLast(items, pos, UnterminatedList);
          return Bad(UnterminatedList);
        }
        if source[pos] == ')' {
          pos := pos + 1;
          AfterLast(items, pos, UnterminatedList);
          return Got(items, pos);
        }
        var item := ReadExpr();
        if item.Bad? {
          AfterLast(items, pos, item.why);
          return Bad(item.why);
        }
        AfterMore(items, item.v, ReadItems(floats, source, pos));
        items := items + [item.v];
      }
    }

    method ReadString() returns (r: Read<string>)
      requires pos <= |source|
      modifies this
      ensures Did(r, ReaderSpec.ReadString(source, old(pos)))
    {
      hide ReaderSpec.ReadString, After, Unescape;
      var out: string := [];
      ghost var start := pos;
      AfterNone(ReaderSpec.ReadString(source, pos));
      while true
        invariant start <= pos <= |source|
        invariant ReaderSpec.ReadString(source, start) == After(out, ReaderSpec.ReadString(source, pos))
        decreases |source| - pos
      {
        StringCases(source, pos);
        if pos == |source| {
          AfterLast(out, pos, UnterminatedString);
          return Bad(UnterminatedString);
        }
        var c := source[pos];
        pos := pos + 1;
        if c == '"' {
          AfterLast(out, pos, UnterminatedString);
          return Got(out, pos);
        }
        if c == '\\' {
          if pos == |source| {
            AfterLast(out, pos, UnterminatedEscape);
            return Bad(UnterminatedEscape);
          }
          var escaped := Unescape(source[pos]);
          pos := pos + 1;
          if escaped.None? {
            AfterLast(out, pos, UnknownEscape);
            return Bad(UnknownEscape);
          }
          c := escaped.value;
        }
        AfterMore(out, c, ReaderSpec.ReadString(source, pos));
        out := out + [c];
      }
    }

    /** The token whose first character stands just before the cursor. */
    method ReadAtom() returns (r: Read<Value>)
      requires 0 < pos <= |source|
      modifies this
      ensures
        var e := TokenEnd(source, old(pos));
        r == Got(Atom(floats, source[old(pos) - 1..e]), e) && pos == e
    {
      var start := pos;
      var token := [source[pos - 1]];
      while pos < |source| && !IsDelimiter(source[pos])
        invariant start <= pos <= |source|
        invariant TokenEnd(source, pos) == TokenEnd(source, start)
        invariant token == source[start - 1..pos]
      {
        token := token + [source[pos]];
        pos := pos + 1;
      }
      r := Got(Atom(floats, token), pos);
    }

    method ReadAllExpressions() returns (r: Read<seq<Value>>)
      requires pos <= |source|
      modifies this
      ensures Did(r, ReadAll(floats, source, old(pos)))
    {
      hide ReaderSpec.ReadExpr, ReadAll, Skip, After;
      var exprs: seq<Value> := [];
      ghost var start := pos;
      AfterNone(ReadAll(floats, source, pos));
      while true
        invariant start <= pos <= |source|
        invariant ReadAll(floats, source, start) == After(exprs, ReadAll(floats, source, pos))
        decreases |source| - pos
      {
        ReadAllCases(floats, source, pos);
        SkipWsAndComments();
        if pos == |source| {
          AfterLast(exprs, pos, UnexpectedEnd);
          return Got(exprs, pos);
        }
        var expr := ReadExpr();
        if expr.Bad? {
          AfterLast(exprs, pos, expr.why);
          return Bad(expr.why);
        }
        AfterMore(exprs, expr.v, ReadAll(floats, source, pos));
        exprs := exprs + [expr.v];
      }
    }
  }

  datatype One = Exactly(v: Value) | Nothing | Several | Failed(why: Problem)

  /** `read_one`: exactly one expression, or an error. */
  method ReadOne(floats: FloatReader, source: string) returns (r: One)
    ensures
      match ReadAll(floats, source, 0)
      case Bad(why) => r == Failed(why)
      case Got(exprs, _) =>
        && (r.Exactly? <==> |exprs| == 1) && (r.Exactly? ==> r.v == exprs[0])
        && (r.Nothing? <==> exprs == []) && (r.Several? <==> |exprs| > 1)
  {
    var p := new Parser(source, floats);
    var all := p.ReadAllExpressions();
    if all.Bad? {
      return Failed(all.why);
    }
    if all.v == [] {
      return Nothing;
    }
    if |all.v| != 1 {
      return Several;
    }
    return Exactly(all.v[0]);
  }
}
