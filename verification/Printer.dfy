/** src/printer.cpp: readable text of a value, and reading it back. */
module Printer {
  import opened Values
  import opened ReaderSpec

  /** `format_float` where the float is finite; None stands for the refusal to write the others. */
  type FloatWriter = nat -> Option<string>

  function EscapeChar(c: char): string {
    if c == '\\' then "\\\\"
    else if c == '"' then "\\\""
    else if c == '\n' then "\\n"
    else if c == '\t' then "\\t"
    else if c == '\r' then "\\r"
    else [c]
  }

  function Escaped(t: string): string {
    if t == [] then [] else EscapeChar(t[0]) + Escaped(t[1..])
  }

  function DigitChar(d: nat): (c: char)
    requires d < 10
    ensures IsDigit(c) && DigitValue(c) == d
  {
    ['0', '1', '2', '3', '4', '5', '6', '7', '8', '9'][d]
  }

  function NatText(n: nat): (t: string)
    ensures AllDigits(t) && t != []
  {
    if n < 10 then [DigitChar(n)] else NatText(n / 10) + [DigitChar(n % 10)]
  }

  function IntText(i: int): string {
    if i < 0 then "-" + NatText(-i) else NatText(i)
  }

  /** `write_value`: None where the source throws. */
  function Write(fw: FloatWriter, v: Value): Option<string>
    decreases v, 1
  {
    match v
    case Nil => Some("nil")
    case Bool(b) => Some(if b then "#t" else "#f")
    case Int(i) => Some(IntText(i))
    case Float(bits) => fw(bits)
    case Sym(name) => Some(name)
    case Str(text) => Some("\"" + Escaped(text) + "\"")
    case Cons(a, d) =>
      var first, rest := Write(fw, a), WriteTail(fw, d);
      if first.Some? && rest.Some? then Some("(" + first.value + rest.value + ")") else None
    case _ => None
  }

  /** What follows the first item inside the parentheses. */
  function WriteTail(fw: FloatWriter, v: Value): Option<string>
    decreases v, 2
  {
    match v
    case Nil => Some("")
    case Cons(a, d) =>
      var first, rest := Write(fw, a), WriteTail(fw, d);
      if first.Some? && rest.Some? then Some(" " + first.value + rest.value) else None
    case _ =>
      var last := Write(fw, v);
      if last.None? then None else Some(" . " + last.value)
  }

  // ----- the printing loops -----

  method EscapeString(input: string) returns (out: string)
    ensures out == Escaped(input)
  {
    out := [];
    var i := 0;
    assert input[0..] == input;
    while i < |input|
      invariant 0 <= i <= |input|
      invariant Escaped(input) == out + Escaped(input[i..])
    {
      assert input[i..][1..] == input[i + 1..];
      assert out + (EscapeChar(input[i]) + Escaped(input[i + 1..]))
          == out + EscapeChar(input[i]) + Escaped(input[i + 1..]);
      out := out + EscapeChar(input[i]);
      i := i + 1;
    }
    assert out + [] == out;
  }

  method PrintImpl(fw: FloatWriter, v: Value) returns (out: Option<string>)
    ensures out == Write(fw, v)
    decreases v, 1
  {
    match v {
      case Nil => out := Some("nil");
      case Bool(b) => out := Some(if b then "#t" else "#f");
      case Int(i) => out := Some(IntText(i));
      case Float(bits) => out := fw(bits);
      case Sym(name) => out := Some(name);
      case Str(text) =>
        var body := EscapeString(text);
        out := Some("\"" + body + "\"");
      case Cons(_, _) => out := AppendList(fw, v);
      case _ => out := None;
    }
  }

  /** `append_list`: walk the conses, then write a dotted tail if there is one. */
  method AppendList(fw: FloatWriter, list: Value) returns (out: Option<string>)
    requires list.Cons?
    ensures out == Write(fw, list)
    decreases list, 0
  {
    var first := PrintImpl(fw, list.car);
    if first.None? {
      return None;
    }
    var text := "(" + first.value;
    var cursor := list.cdr;
    ghost var whole, start := WriteTail(fw, list.cdr), text;
    while cursor.Cons?
      invariant cursor < list
      invariant whole.Some? == WriteTail(fw, cursor).Some?
      invariant whole.Some? ==> start + whole.value == text + WriteTail(fw, cursor).value
      decreases cursor
    {
      var item := PrintImpl(fw, cursor.car);
      if item.None? {
        return None;
      }
      if whole.Some? {
        Regroup(text, " ", item.value, WriteTail(fw, cursor.cdr).value);
      }
      text := text + " " + item.value;
      cursor := cursor.cdr;
    }
    if !cursor.Nil? {
      var tail := PrintImpl(fw, cursor);
      if tail.None? {
        return None;
      }
      assert text + (" . " + tail.value) == text + " . " + tail.value;
      text := text + " . " + tail.value;
    } else {
      assert text + "" == text;
    }
    assert whole.Some? && text == "(" + first.value + whole.value;
    out := Some(text + ")");
  }

  lemma Regroup(a: string, b: string, c: string, d: string)
    ensures a + (b + c + d) == a + b + c + d
  {
  }

  // ----- reading back -----

  /** Symbols the reader can produce: one token that is not read as anything else. */
  predicate ReadableSymbol(fl: FloatReader, name: string) {
    && name != [] && !IsPunctuation(name[0])
    && (forall i :: 0 < i < |name| ==> !IsDelimiter(name[i]))
    && Atom(fl, name) == Sym(name)
  }

  /** Nil, booleans, 64-bit integers, any strings, readable symbols and proper lists of these. */
  predicate Readable(fl: FloatReader, v: Value) {
    match v
    case Nil => true
    case Bool(_) => true
    case Int(i) => InInt64(i)
    case Str(_) => true
    case Sym(name) => ReadableSymbol(fl, name)
    case Cons(a, d) => Readable(fl, a) && (d.Nil? || d.Cons?) && Readable(fl, d)
    case _ => false
  }

  lemma {:induction false} ReadableIsProper(fl: FloatReader, v: Value)
    requires Readable(fl, v) && (v.Cons? || v.Nil?)
    ensures IsProperList(v) && ListOf(Items(v)) == v
    decreases v
  {
    if v.Cons? {
      ReadableIsProper(fl, v.cdr);
      assert Items(v) == [v.car] + Items(v.cdr);
    }
  }

  lemma {:induction false} ReadableIsWritten(fl: FloatReader, fw: FloatWriter, v: Value)
    requires Readable(fl, v)
    ensures Write(fw, v).Some? && |Write(fw, v).value| > 0
    ensures v.Cons? || v.Nil? ==> WriteTail(fw, v).Some?
    decreases v
  {
    if v.Cons? {
      ReadableIsWritten(fl, fw, v.car);
      ReadableIsWritten(fl, fw, v.cdr);
    }
  }

  /** `t` stands in `s` at p. */
  predicate Has(s: string, p: nat, t: string) {
    p + |t| <= |s| && s[p..p + |t|] == t
  }

  /** A token ending at e is not continued. */
  predicate Ends(s: string, e: nat) {
    e == |s| || (e < |s| && IsDelimiter(s[e]))
  }

  lemma HasSplit(s: string, p: nat, a: string, b: string)
    requires Has(s, p, a + b)
    ensures Has(s, p, a) && Has(s, p + |a|, b)
  {
    var all := s[p..p + |a + b|];
    assert a == all[..|a|] == s[p..p + |a|];
    assert b == all[|a|..] == s[p + |a|..p + |a| + |b|];
  }

  lemma HasFits(s: string, p: nat, t: string)
    requires Has(s, p, t)
    ensures p + |t| <= |s|
  {
  }

  lemma HasAt(s: string, p: nat, t: string, k: nat)
    requires Has(s, p, t) && k < |t|
    ensures s[p + k] == t[k]
  {
    assert s[p..p + |t|][k] == t[k];
  }

  lemma {:induction false} TokenIs(s: string, p: nat, e: nat)
    requires p <= e <= |s| && (forall i :: p <= i < e ==> !IsDelimiter(s[i])) && Ends(s, e)
    ensures TokenEnd(s, p) == e
    decreases e - p
  {
    if p < e {
      TokenIs(s, p + 1, e);
    }
  }

  predicate IsToken(t: string) {
    t != [] && !IsPunctuation(t[0]) && forall i :: 0 < i < |t| ==> !IsDelimiter(t[i])
  }

  /** A token in place is read as the atom it spells. */
  lemma {:induction false} AtomReads(fl: FloatReader, s: string, p: nat, t: string)
    requires Has(s, p, t) && Ends(s, p + |t|) && IsToken(t)
    ensures ReadExpr(fl, s, p) == Got(Atom(fl, t), p + |t|)
  {
    hide ReadExpr, ReadItems, ReadString, Atom, Skip, TokenEnd, ListOf, Wrapped;
    HasAt(s, p, t, 0);
    SkipNothing(s, p);
    forall i | p + 1 <= i < p + |t|
      ensures !IsDelimiter(s[i])
    {
      HasAt(s, p, t, i - p);
    }
    TokenIs(s, p + 1, p + |t|);
    ExprCases(fl, s, p);
  }

  // integers

  lemma {:induction false} NatTextReads(n: nat)
    ensures NatValue(NatText(n)) == n
    decreases n
  {
    if n >= 10 {
      NatTextReads(n / 10);
      var t := NatText(n);
      assert t[..|t| - 1] == NatText(n / 10);
    } else {
      assert NatText(n)[..0] == [];
    }
  }

  lemma DigitsAreToken(t: string)
    requires AllDigits(t) && t != []
    ensures IsToken(t) && IsToken("-" + t)
    ensures !MaybeFloat(t) && !MaybeFloat("-" + t)
    ensures t[0] != '-' && t[0] != '#' && t[0] != 'n'
  {
    assert forall c :: c in t ==> IsDigit(c);
    var u := "-" + t;
    assert forall i :: 0 < i < |u| ==> u[i] == t[i - 1];
  }

  lemma {:induction false} IntTextReads(fl: FloatReader, i: int)
    requires InInt64(i)
    ensures Atom(fl, IntText(i)) == Int(i) && IsToken(IntText(i))
  {
    hide NatText, NatValue, MaybeFloat, IsToken, IsDigit;
    var n: nat := if i < 0 then -i else i;
    var digits := NatText(n);
    NatTextReads(n);
    DigitsAreToken(digits);
    if i < 0 {
      assert ("-" + digits)[1..] == digits;
      assert IntOf("-" + digits) == Some(i);
    } else {
      assert IntOf(digits) == Some(i);
    }
  }

  // strings

  lemma {:induction false} EscapeReads(s: string, p: nat, text: string)
    requires Has(s, p, Escaped(text) + "\"")
    ensures ReadString(s, p) == Got(text, p + |Escaped(text)| + 1)
    decreases |text|
  {
    hide Has, EscapeChar;
    HasFits(s, p, Escaped(text) + "\"");
    if text == [] {
      HasAt(s, p, Escaped(text) + "\"", 0);
    } else {
      var head, tail := EscapeChar(text[0]), Escaped(text[1..]);
      assert Escaped(text) + "\"" == head + (tail + "\"");
      HasSplit(s, p, head, tail + "\"");
      EscapeReads(s, p + |head|, text[1..]);
      CharReads(s, p, text[0]);
      assert [text[0]] + text[1..] == text;
    }
  }

  lemma {:induction false} CharReads(s: string, p: nat, c: char)
    requires Has(s, p, EscapeChar(c)) && p + |EscapeChar(c)| <= |s|
    ensures
      var r := ReadString(s, p + |EscapeChar(c)|);
      ReadString(s, p) == if r.Bad? then r else Got([c] + r.v, r.pos)
  {
    var head := EscapeChar(c);
    HasAt(s, p, head, 0);
    if |head| == 2 {
      HasAt(s, p, head, 1);
    }
  }

  // everything

  /** A written value starts with a character that is neither skipped nor a closing parenthesis. */
  lemma {:induction false} WriteStarts(fl: FloatReader, fw: FloatWriter, v: Value)
    requires Readable(fl, v) && Write(fw, v).Some?
    ensures
      var t := Write(fw, v).value;
      t != [] && !IsSpace(t[0]) && t[0] != ';' && t[0] != ')'
  {
    if v.Int? {
      IntTextReads(fl, v.i);
    }
  }

  lemma {:induction false} TailStarts(fw: FloatWriter, d: Value)
    requires (d.Nil? || d.Cons?) && WriteTail(fw, d).Some?
    ensures IsDelimiter((WriteTail(fw, d).value + ")")[0])
  {
  }

  lemma {:induction false} SkipNothing(s: string, p: nat)
    requires p < |s| && !IsSpace(s[p]) && s[p] != ';'
    ensures Skip(s, p) == p
  {
  }

  /** Written text, where it stands, is read as the value it was written from. */
  lemma {:induction false} WriteReads(fl: FloatReader, fw: FloatWriter, v: Value, s: string, p: nat)
    requires Readable(fl, v) && Write(fw, v).Some?
    requires Has(s, p, Write(fw, v).value) && Ends(s, p + |Write(fw, v).value|)
    ensures ReadExpr(fl, s, p) == Got(v, p + |Write(fw, v).value|)
    decreases Size(v), 1
  {
    hide ReadExpr, Has, Ends, Readable, WriteTail, Escaped, IntText, Skip;
    ReadableAtoms(fl, v);
    match v
    case Nil => AtomReads(fl, s, p, "nil");
    case Bool(b) => AtomReads(fl, s, p, if b then "#t" else "#f");
    case Int(i) =>
      IntTextReads(fl, i);
      AtomReads(fl, s, p, IntText(i));
    case Sym(name) => AtomReads(fl, s, p, name);
    case Str(text) => StrReads(fl, text, s, p);
    case Cons(_, _) => ListReads(fl, fw, v, s, p);
  }

  lemma {:induction false} ReadableAtoms(fl: FloatReader, v: Value)
    requires Readable(fl, v)
    ensures v.Int? ==> InInt64(v.i)
    ensures v.Sym? ==> IsToken(v.name) && Atom(fl, v.name) == v
    ensures !v.Float? && !v.Prim? && !v.Closure? && !v.Handle?
    ensures IsToken("nil") && IsToken("#t") && IsToken("#f")
  {
  }

  lemma {:induction false} StrReads(fl: FloatReader, text: string, s: string, p: nat)
    requires Has(s, p, "\"" + Escaped(text) + "\"")
    ensures ReadExpr(fl, s, p) == Got(Str(text), p + |Escaped(text)| + 2)
  {
    hide ReadExpr, ReadString, Escaped, Has, Skip;
    var body := Escaped(text) + "\"";
    assert "\"" + Escaped(text) + "\"" == "\"" + body;
    HasSplit(s, p, "\"", body);
    HasAt(s, p, "\"", 0);
    EscapeReads(s, p + 1, text);
    SkipNothing(s, p);
    ExprCases(fl, s, p);
  }

  lemma {:induction false} ListReads(fl: FloatReader, fw: FloatWriter, v: Value, s: string, p: nat)
    requires v.Cons? && Readable(fl, v) && Write(fw, v).Some?
    requires Has(s, p, Write(fw, v).value) && Ends(s, p + |Write(fw, v).value|)
    ensures ReadExpr(fl, s, p) == Got(v, p + |Write(fw, v).value|)
    decreases Size(v), 0
  {
    hide ReadExpr, ReadItems, WriteTail, Skip, Readable, Items, ListOf, Has;
    var first, rest := Write(fw, v.car).value, WriteTail(fw, v.cdr).value;
    assert Write(fw, v).value == "(" + (first + (rest + ")"));
    HasSplit(s, p, "(", first + (rest + ")"));
    HasAt(s, p, "(", 0);
    SkipNothing(s, p);
    ExprCases(fl, s, p);
    ReadableParts(fl, v);
    FirstItemReads(fl, fw, v.car, v.cdr, s, p + 1);
    ReadableIsProper(fl, v);
    ItemsOfCons(v);
  }

  lemma ItemsOfCons(v: Value)
    requires v.Cons? && IsProperList(v)
    ensures IsProperList(v.cdr) && Items(v) == [v.car] + Items(v.cdr)
  {
  }

  lemma ReadableParts(fl: FloatReader, v: Value)
    requires v.Cons? && Readable(fl, v)
    ensures Readable(fl, v.car) && Readable(fl, v.cdr) && (v.cdr.Nil? || v.cdr.Cons?)
  {
  }

  /** An item at p and the items after it. */
  lemma {:induction false} FirstItemReads(fl: FloatReader, fw: FloatWriter, a: Value, d: Value, s: string, p: nat)
    requires Readable(fl, a) && Readable(fl, d) && (d.Nil? || d.Cons?)
    requires Write(fw, a).Some? && WriteTail(fw, d).Some?
    requires Has(s, p, Write(fw, a).value + (WriteTail(fw, d).value + ")"))
    ensures IsProperList(d)
    ensures ReadItems(fl, s, p) == Got([a] + Items(d), p + |Write(fw, a).value| + |WriteTail(fw, d).value| + 1)
    decreases Size(a) + Size(d), 2
  {
    hide Write, WriteTail, Readable, Has, ReadExpr, Skip;
    var first, rest := Write(fw, a).value, WriteTail(fw, d).value;
    HasSplit(s, p, first, rest + ")");
    WriteStarts(fl, fw, a);
    HasAt(s, p, first, 0);
    SkipNothing(s, p);
    TailStarts(fw, d);
    HasAt(s, p + |first|, rest + ")", 0);
    WriteReads(fl, fw, a, s, p);
    RestReads(fl, fw, d, s, p + |first|);
  }

  /** The text after the first item of a list: nothing, or a space and the next item. */
  lemma TailParts(fw: FloatWriter, d: Value)
    requires WriteTail(fw, d).Some?
    ensures d.Nil? ==> WriteTail(fw, d).value == ""
    ensures d.Cons? ==>
      && Write(fw, d.car).Some? && WriteTail(fw, d.cdr).Some?
      && WriteTail(fw, d).value == " " + Write(fw, d.car).value + WriteTail(fw, d.cdr).value
  {
  }

  lemma SpaceBeforeItems(fl: FloatReader, s: string, p: nat)
    requires p < |s| && s[p] == ' '
    ensures ReadItems(fl, s, p) == ReadItems(fl, s, p + 1)
  {
    hide ReadItems, ReadExpr;
    assert Skip(s, p) == Skip(s, p + 1);
    ReadItemsCases(fl, s, p);
    ReadItemsCases(fl, s, p + 1);
  }

  lemma {:induction false} RestReads(fl: FloatReader, fw: FloatWriter, d: Value, s: string, p: nat)
    requires Readable(fl, d) && (d.Nil? || d.Cons?) && WriteTail(fw, d).Some?
    requires Has(s, p, WriteTail(fw, d).value + ")")
    ensures IsProperList(d)
    ensures ReadItems(fl, s, p) == Got(Items(d), p + |WriteTail(fw, d).value| + 1)
    decreases Size(d), 3
  {
    hide ReadExpr, ReadItems, Has, Readable, Write, WriteTail, Skip;
    HasFits(s, p, WriteTail(fw, d).value + ")");
    HasAt(s, p, WriteTail(fw, d).value + ")", 0);
    TailParts(fw, d);
    if d.Cons? {
      ReadableParts(fl, d);
      var first, rest := Write(fw, d.car).value, WriteTail(fw, d.cdr).value;
      assert WriteTail(fw, d).value + ")" == " " + (first + (rest + ")"));
      HasSplit(s, p, " ", first + (rest + ")"));
      FirstItemReads(fl, fw, d.car, d.cdr, s, p + 1);
      SpaceBeforeItems(fl, s, p);
    } else {
      SkipNothing(s, p);
      ReadItemsCases(fl, s, p);
    }
  }

  /** Printing then reading is the identity. */
  lemma {:induction false} PrintThenRead(fl: FloatReader, fw: FloatWriter, v: Value)
    requires Readable(fl, v)
    ensures Write(fw, v).Some? && ReadAll(fl, Write(fw, v).value, 0) == Got([v], |Write(fw, v).value|)
  {
    ReadableIsWritten(fl, fw, v);
    var t := Write(fw, v).value;
    WriteReads(fl, fw, v, t, 0);
    WriteStarts(fl, fw, v);
    SkipNothing(t, 0);
    assert ReadAll(fl, t, |t|) == Got([], |t|);
    assert [v] + [] == [v];
  }

  // ----- the reader produces only what can be written and read again -----

  predicate FloatFree(v: Value) {
    match v
    case Float(_) => false
    case Cons(a, d) => FloatFree(a) && FloatFree(d)
    case _ => true
  }

  /** `strtod` takes none of the names the reader itself introduces for a number. */
  predicate QuotesAreNames(fl: FloatReader) {
    fl("quote") == fl("quasiquote") == fl("unquote") == fl("unquote-splicing") == None
  }

  predicate ReadableIfFloatFree(fl: FloatReader, v: Value) {
    FloatFree(v) ==> Readable(fl, v)
  }

  lemma {:induction false} ListIsReadable(fl: FloatReader, items: seq<Value>)
    requires forall i :: 0 <= i < |items| ==> ReadableIfFloatFree(fl, items[i])
    ensures ReadableIfFloatFree(fl, ListOf(items))
    decreases |items|
  {
    if items != [] {
      assert ReadableIfFloatFree(fl, items[0]);
      ListIsReadable(fl, items[1..]);
    }
  }

  predicate IsNameChar(c: char) {
    'a' <= c <= 'z' || c == '-'
  }

  /** A name of letters with an e in it, which `strtod` refuses, is a symbol. */
  lemma LettersAreReadable(fl: FloatReader, name: string)
    requires |name| > 3 && (forall i :: 0 <= i < |name| ==> IsNameChar(name[i])) && 'e' in name && fl(name) == None
    ensures ReadableSymbol(fl, name)
  {
    assert IsNameChar(name[0]);
    assert |"#t"| == |"#f"| == 2 && |"nil"| == 3;
  }

  lemma QuoteNames(fl: FloatReader, name: string)
    requires QuotesAreNames(fl) && name in {"quote", "quasiquote", "unquote", "unquote-splicing"}
    ensures ReadableSymbol(fl, name)
  {
    hide ReadableSymbol;
    assert "quote"[4] == 'e' && "quasiquote"[9] == 'e' && "unquote"[6] == 'e' && "unquote-splicing"[6] == 'e';
    LettersAreReadable(fl, name);
  }

  lemma WrappedIsReadable(fl: FloatReader, name: string, r: Read<Value>)
    requires QuotesAreNames(fl) && name in {"quote", "quasiquote", "unquote", "unquote-splicing"}
    requires r.Got? ==> ReadableIfFloatFree(fl, r.v)
    ensures Wrapped(name, r).Got? ==> ReadableIfFloatFree(fl, Wrapped(name, r).v)
  {
    hide ReadableSymbol;
    if r.Got? {
      QuoteNames(fl, name);
      ListIsReadable(fl, [Sym(name), r.v]);
    }
  }

  lemma {:induction false} TokenHasNoDelimiter(s: string, p: nat, i: nat)
    requires p <= |s| && p <= i < TokenEnd(s, p)
    ensures !IsDelimiter(s[i])
    decreases i - p
  {
    if i > p {
      TokenHasNoDelimiter(s, p + 1, i);
    }
  }

  lemma {:induction false} AtomIsReadable(fl: FloatReader, s: string, q: nat)
    requires q < |s| && !IsPunctuation(s[q])
    ensures ReadableIfFloatFree(fl, Atom(fl, s[q..TokenEnd(s, q + 1)]))
  {
    hide TokenEnd;
    var e := TokenEnd(s, q + 1);
    var t := s[q..e];
    forall i | 0 < i < |t|
      ensures !IsDelimiter(t[i])
    {
      TokenHasNoDelimiter(s, q + 1, q + i);
    }
  }

  lemma {:induction false} ReadIsReadable(fl: FloatReader, s: string, p: nat)
    requires p <= |s| && QuotesAreNames(fl)
    ensures
      var r := ReadExpr(fl, s, p);
      r.Got? ==> ReadableIfFloatFree(fl, r.v)
    decreases |s| - p, 0
  {
    hide ReadExpr, ReadItems, ReadString, Skip, TokenEnd, Atom, ListOf, Wrapped, ReadableIfFloatFree, QuotesAreNames;
    ExprCases(fl, s, p);
    var q := Skip(s, p);
    if q < |s| {
      if s[q] == '(' {
        ItemsAreReadable(fl, s, q + 1);
        var items := ReadItems(fl, s, q + 1);
        if items.Got? {
          ListIsReadable(fl, items.v);
        }
      } else if s[q] == '\'' {
        ReadIsReadable(fl, s, q + 1);
        WrappedIsReadable(fl, "quote", ReadExpr(fl, s, q + 1));
      } else if s[q] == '`' {
        ReadIsReadable(fl, s, q + 1);
        WrappedIsReadable(fl, "quasiquote", ReadExpr(fl, s, q + 1));
      } else if s[q] == ',' {
        if q + 1 < |s| {
          var at := if s[q + 1] == '@' then q + 2 else q + 1;
          ReadIsReadable(fl, s, at);
          WrappedIsReadable(fl, if s[q + 1] == '@' then "unquote-splicing" else "unquote", ReadExpr(fl, s, at));
        }
      } else if s[q] == '"' {
        StringIsReadable(fl, ReadString(s, q + 1));
      } else if s[q] != ')' {
        AtomIsReadable(fl, s, q);
      }
    }
  }

  lemma StringIsReadable(fl: FloatReader, r: Read<string>)
    ensures r.Got? ==> ReadableIfFloatFree(fl, Str(r.v))
  {
  }

  lemma {:induction false} ItemsAreReadable(fl: FloatReader, s: string, p: nat)
    requires p <= |s| && QuotesAreNames(fl)
    ensures
      var r := ReadItems(fl, s, p);
      r.Got? ==> forall i :: 0 <= i < |r.v| ==> ReadableIfFloatFree(fl, r.v[i])
    decreases |s| - p, 1
  {
    hide ReadItems, ReadExpr, Skip, ReadableIfFloatFree, QuotesAreNames;
    ReadItemsCases(fl, s, p);
    var q := Skip(s, p);
    if q < |s| && s[q] != ')' {
      ReadIsReadable(fl, s, q);
      var first := ReadExpr(fl, s, q);
      if first.Got? {
        ItemsAreReadable(fl, s, first.pos);
      }
    }
  }

  /** Every value of an accepted text that holds no float is readable. */
  lemma {:induction false} AllAreReadable(fl: FloatReader, s: string, p: nat)
    requires p <= |s| && QuotesAreNames(fl)
    ensures
      var r := ReadAll(fl, s, p);
      r.Got? ==> forall i :: 0 <= i < |r.v| ==> ReadableIfFloatFree(fl, r.v[i])
    decreases |s| - p
  {
    hide ReadAll, ReadExpr, Skip, ReadableIfFloatFree, QuotesAreNames;
    ReadAllCases(fl, s, p);
    var q := Skip(s, p);
    if q < |s| {
      ReadIsReadable(fl, s, q);
      var first := ReadExpr(fl, s, q);
      if first.Got? {
        AllAreReadable(fl, s, first.pos);
      }
    }
  }

  /** Read, write, read: every value read from any text that holds no float is written and read back unchanged. */
  lemma {:induction false} ReadWriteRead(fl: FloatReader, fw: FloatWriter, s: string, i: nat)
    requires QuotesAreNames(fl)
    requires ReadAll(fl, s, 0).Got? && i < |ReadAll(fl, s, 0).v| && FloatFree(ReadAll(fl, s, 0).v[i])
    ensures
      var v := ReadAll(fl, s, 0).v[i];
      Write(fw, v).Some? && ReadAll(fl, Write(fw, v).value, 0) == Got([v], |Write(fw, v).value|)
  {
    hide ReadAll, Write, Readable, FloatFree, QuotesAreNames;
    AllAreReadable(fl, s, 0);
    var v := ReadAll(fl, s, 0).v[i];
    assert ReadableIfFloatFree(fl, v);
    PrintThenRead(fl, fw, v);
  }
}
