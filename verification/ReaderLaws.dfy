/** What the characters of a program text mean to src/reader.cpp, said of texts and values alone. */
module ReaderLaws {
  import opened Values
  import opened ReaderSpec
  import opened Printer

  // ----- quote characters -----

  /** What stands after p is in the list `(name x)` that a quote character makes of an expression. */
  predicate Prefixes(fl: FloatReader, s: string, p: nat, skip: nat, name: string)
    requires p + skip <= |s|
  {
    match ReadExpr(fl, s, p + skip)
    case Got(v, e) => ReadExpr(fl, s, p) == Got(Cons(Sym(name), Cons(v, Nil)), e)
    case Bad(why) => ReadExpr(fl, s, p) == Bad(why)
  }

  /**
    Wherever it stands, a quote character and an expression read as the two-element list of the character's name
    and the expression, and a failure after it is the failure of the whole.
   */
  lemma QuotesMean(fl: FloatReader, s: string, p: nat)
    requires p < |s|
    ensures s[p] == '\'' ==> Prefixes(fl, s, p, 1, "quote")
    ensures s[p] == '`' ==> Prefixes(fl, s, p, 1, "quasiquote")
    ensures s[p] == ',' && p + 1 < |s| && s[p + 1] == '@' ==> Prefixes(fl, s, p, 2, "unquote-splicing")
    ensures s[p] == ',' && p + 1 < |s| && s[p + 1] != '@' ==> Prefixes(fl, s, p, 1, "unquote")
    ensures s[p] == ',' && p + 1 == |s| ==> ReadExpr(fl, s, p) == Bad(EndAfterComma)
  {
    hide ReadExpr, ReadItems, ReadString, TokenEnd, Atom, ListOf, Skip;
    if s[p] == '\'' || s[p] == '`' || s[p] == ',' {
      SkipNothing(s, p);
      ExprCases(fl, s, p);
      forall name: string, v: Value ensures ListOf([Sym(name), v]) == Cons(Sym(name), Cons(v, Nil)) {
        TwoItems(Sym(name), v);
      }
    }
  }

  lemma TwoItems(a: Value, b: Value)
    ensures ListOf([a, b]) == Cons(a, Cons(b, Nil))
  {
    assert [a, b][1..] == [b] && [b][1..] == [];
  }

  /** The prefix before the text of a readable value, read as a whole program. */
  lemma QuotedTextReads(fl: FloatReader, fw: FloatWriter, v: Value, prefix: string, name: string)
    requires Readable(fl, v) && Write(fw, v).Some?
    requires || (prefix == "'" && name == "quote") || (prefix == "`" && name == "quasiquote")
             || (prefix == "," && name == "unquote" && Write(fw, v).value[..1] != "@")
             || (prefix == ",@" && name == "unquote-splicing")
    ensures
      var text := prefix + Write(fw, v).value;
      ReadAll(fl, text, 0) == Got([Cons(Sym(name), Cons(v, Nil))], |text|)
  {
    hide ReadExpr, ReadAll, Write, Readable, Skip;
    var t, n := Write(fw, v).value, |prefix|;
    var text := prefix + t;
    WriteStarts(fl, fw, v);
    assert Has(text, n, t) && text[..n] == prefix && text[n] == t[0];
    assert t[..1] == [t[0]];
    WriteReads(fl, fw, v, text, n);
    assert text[0] == prefix[0] && (n == 2 ==> text[1] == prefix[1]);
    SkipNothing(text, 0);
    QuotesMean(fl, text, 0);
    ReadAllCases(fl, text, 0);
    NothingLeft(fl, text);
    assert [Cons(Sym(name), Cons(v, Nil))] + [] == [Cons(Sym(name), Cons(v, Nil))];
  }

  lemma NothingLeft(fl: FloatReader, s: string)
    ensures ReadAll(fl, s, |s|) == Got([], |s|)
  {
  }

  /** `'v`, `` `v ``, `,v` and `,@v` for every readable value v. */
  lemma QuotedValuesRead(fl: FloatReader, fw: FloatWriter, v: Value)
    requires Readable(fl, v)
    ensures Write(fw, v).Some?
    ensures
      var t := Write(fw, v).value;
      && ReadAll(fl, "'" + t, 0) == Got([Cons(Sym("quote"), Cons(v, Nil))], 1 + |t|)
      && ReadAll(fl, "`" + t, 0) == Got([Cons(Sym("quasiquote"), Cons(v, Nil))], 1 + |t|)
      && (t[..1] != "@" ==> ReadAll(fl, "," + t, 0) == Got([Cons(Sym("unquote"), Cons(v, Nil))], 1 + |t|))
      && ReadAll(fl, ",@" + t, 0) == Got([Cons(Sym("unquote-splicing"), Cons(v, Nil))], 2 + |t|)
  {
    hide ReadAll, Write, Readable;
    ReadableIsWritten(fl, fw, v);
    QuotedTextReads(fl, fw, v, "'", "quote");
    QuotedTextReads(fl, fw, v, "`", "quasiquote");
    if Write(fw, v).value[..1] != "@" {
      QuotedTextReads(fl, fw, v, ",", "unquote");
    }
    QuotedTextReads(fl, fw, v, ",@", "unquote-splicing");
  }

  // ----- blanks and comments -----

  /** Space, tab, newline, vertical tab, form feed and carriage return. */
  const BLANKS := [' ', '\t', '\n', '\U{0B}', '\U{0C}', '\r']

  /** A token ends before these. */
  predicate Breaks(c: char) {
    c in BLANKS || c == '(' || c == ')' || c == ';'
  }

  lemma BlanksAreSpace(c: char)
    ensures IsSpace(c) <==> c in BLANKS
    ensures IsDelimiter(c) <==> Breaks(c)
  {
    assert BLANKS[0] == ' ' && BLANKS[1] == '\t' && BLANKS[2] == '\n' && BLANKS[3] == '\U{0B}';
    assert BLANKS[4] == '\U{0C}' && BLANKS[5] == '\r';
  }

  /** From p and from q on, the reader sees the same. */
  predicate SameFrom(fl: FloatReader, s: string, p: nat, q: nat)
    requires p <= |s| && q <= |s|
  {
    && ReadExpr(fl, s, p) == ReadExpr(fl, s, q) && ReadItems(fl, s, p) == ReadItems(fl, s, q)
    && ReadAll(fl, s, p) == ReadAll(fl, s, q)
  }

  lemma SameSkip(fl: FloatReader, s: string, p: nat, q: nat)
    requires p <= |s| && q <= |s| && Skip(s, p) == Skip(s, q)
    ensures SameFrom(fl, s, p, q)
  {
    hide ReadExpr, ReadItems, ReadAll, Skip, Atom, ReadString, Wrapped, ListOf, TokenEnd;
    ExprCases(fl, s, p);
    ExprCases(fl, s, q);
    ReadItemsCases(fl, s, p);
    ReadItemsCases(fl, s, q);
    ReadAllCases(fl, s, p);
    ReadAllCases(fl, s, q);
  }

  /** A blank before an expression, an item or the rest of a program means nothing. */
  lemma BlankMeansNothing(fl: FloatReader, s: string, p: nat)
    requires p < |s| && s[p] in BLANKS
    ensures SameFrom(fl, s, p, p + 1)
  {
    hide ReadExpr, ReadItems, ReadAll, SameFrom;
    BlanksAreSpace(s[p]);
    SameSkip(fl, s, p, p + 1);
  }

  lemma {:induction false} LineEndIs(s: string, p: nat, q: nat)
    requires p <= q <= |s| && (forall i :: p <= i < q ==> s[i] != '\n') && (q < |s| ==> s[q] == '\n')
    ensures LineEnd(s, p) == q
    decreases q - p
  {
    if p < q {
      LineEndIs(s, p + 1, q);
    }
  }

  /** A semicolon and the rest of its line, whatever is in it, mean nothing. */
  lemma CommentMeansNothing(fl: FloatReader, s: string, p: nat, q: nat)
    requires p < q <= |s| && s[p] == ';'
    requires (forall i :: p <= i < q ==> s[i] != '\n') && (q < |s| ==> s[q] == '\n')
    ensures SameFrom(fl, s, p, q)
  {
    hide ReadExpr, ReadItems, ReadAll, SameFrom, LineEnd;
    LineEndIs(s, p + 1, q);
    SameSkip(fl, s, p, q);
  }

  // ----- words -----

  /** A token with a point or an exponent letter is a float if `strtod` takes it; others are never floats. */
  predicate SpeltNumberOrName(fl: FloatReader, t: string, v: Value) {
    if '.' in t || 'e' in t || 'E' in t then v == if fl(t) == None then Sym(t) else Float(fl(t).value)
    else v.Int? || v == Sym(t)
  }

  /**
    A run of characters that are no blanks, parentheses or semicolons, starting with no quote character and
    followed by one of the former or by the end of the text, is one token, and is read by its spelling.
   */
  lemma TokenReads(fl: FloatReader, s: string, p: nat, e: nat)
    requires p < e <= |s| && s[p] != '\'' && s[p] != '`' && s[p] != ',' && s[p] != '"'
    requires (forall i :: p <= i < e ==> !Breaks(s[i])) && (e < |s| ==> Breaks(s[e]))
    ensures
      var t, r := s[p..e], ReadExpr(fl, s, p);
      && r.Got? && r.pos == e
      && (t == "#t" ==> r.v == Bool(true)) && (t == "#f" ==> r.v == Bool(false)) && (t == "nil" ==> r.v == Nil)
      && (t !in ["#t", "#f", "nil"] ==> SpeltNumberOrName(fl, t, r.v))
  {
    hide ReadExpr, Atom, IsDelimiter, Breaks;
    forall c: char ensures IsDelimiter(c) <==> Breaks(c) {
      BlanksAreSpace(c);
    }
    var t := s[p..e];
    assert forall i :: 0 <= i < |t| ==> t[i] == s[p + i] && !IsDelimiter(t[i]);
    AtomReads(fl, s, p, t);
    WordsMean(fl, t);
  }

  lemma WordsMean(fl: FloatReader, t: string)
    ensures
      var v := Atom(fl, t);
      && (t == "#t" ==> v == Bool(true)) && (t == "#f" ==> v == Bool(false)) && (t == "nil" ==> v == Nil)
      && (t !in ["#t", "#f", "nil"] ==> SpeltNumberOrName(fl, t, v))
  {
    var words := ["#t", "#f", "nil"];
    assert words[0] == "#t" && words[1] == "#f" && words[2] == "nil";
  }

  const DIGITS := "0123456789"

  /** Numerals are decimal. */
  lemma DecimalMeans(t: string, k: nat)
    requires AllDigits(t) && k < 10
    ensures AllDigits(t + [DIGITS[k]]) && NatValue(t + [DIGITS[k]]) == 10 * NatValue(t) + k
  {
    var u := t + [DIGITS[k]];
    assert u[..|u| - 1] == t;
    assert DIGITS == ['0', '1', '2', '3', '4', '5', '6', '7', '8', '9'];
  }

  /** The decimal text of an integer is read as the integer if it fits 64 bits, and as a symbol otherwise. */
  lemma IntegersRead(fl: FloatReader, i: int)
    ensures Atom(fl, IntText(i))
            == if -0x8000_0000_0000_0000 <= i <= 0x7fff_ffff_ffff_ffff then Int(i) else Sym(IntText(i))
  {
    if InInt64(i) {
      IntTextReads(fl, i);
    } else {
      TooWide(fl, i);
    }
  }

  lemma TooWide(fl: FloatReader, i: int)
    requires !InInt64(i)
    ensures Atom(fl, IntText(i)) == Sym(IntText(i))
  {
    hide NatText, NatValue, MaybeFloat, IsToken, IsDigit;
    var n: nat := if i < 0 then -i else i;
    NatTextReads(n);
    DigitsAreToken(NatText(n));
    if i < 0 {
      assert ("-" + NatText(n))[1..] == NatText(n);
    }
    assert IntOf(IntText(i)) == None;
  }

  /** The escape letters, and what they stand for in a string. */
  const ESCAPES := [('n', '\n'), ('t', '\t'), ('r', '\r'), ('"', '"'), ('\\', '\\')]

  /** An escape in a string literal stands for its character; any other letter after a backslash is refused. */
  lemma EscapesMean(s: string, p: nat)
    requires p + 1 < |s| && s[p] == '\\'
    ensures forall k :: 0 <= k < |ESCAPES| && s[p + 1] == ESCAPES[k].0 ==>
              match ReadString(s, p + 2)
              case Got(text, e) => ReadString(s, p) == Got([ESCAPES[k].1] + text, e)
              case Bad(why) => ReadString(s, p) == Bad(why)
    ensures (forall k :: 0 <= k < |ESCAPES| ==> s[p + 1] != ESCAPES[k].0) ==> ReadString(s, p) == Bad(UnknownEscape)
  {
    assert ESCAPES[0].0 == 'n' && ESCAPES[1].0 == 't' && ESCAPES[2].0 == 'r' && ESCAPES[3].0 == '"';
    assert ESCAPES[4].0 == '\\';
  }

  // ----- which values survive printing and reading -----

  /** A value without floats is printed and read back unchanged exactly when it is readable. */
  lemma RoundTripExactly(fl: FloatReader, fw: FloatWriter, v: Value)
    requires QuotesAreNames(fl) && FloatFree(v)
    ensures Readable(fl, v) <==>
            Write(fw, v).Some? && ReadAll(fl, Write(fw, v).value, 0) == Got([v], |Write(fw, v).value|)
  {
    hide ReadAll, Write, Readable, FloatFree, QuotesAreNames;
    if Readable(fl, v) {
      PrintThenRead(fl, fw, v);
    } else if Write(fw, v).Some? {
      AllAreReadable(fl, Write(fw, v).value, 0);
      var r := ReadAll(fl, Write(fw, v).value, 0);
      assert r.Got? && |r.v| == 1 ==> ReadableIfFloatFree(fl, r.v[0]);
    }
  }

  /** No part of the value is a function, a handle or a float that cannot be written. */
  predicate Writable(fw: FloatWriter, v: Value) {
    match v
    case Cons(a, d) => Writable(fw, a) && Writable(fw, d)
    case Float(bits) => fw(bits) != None
    case _ => v.Nil? || v.Bool? || v.Int? || v.Str? || v.Sym?
  }

  lemma {:induction false} WrittenExactly(fw: FloatWriter, v: Value)
    ensures Write(fw, v).Some? <==> Writable(fw, v)
    ensures WriteTail(fw, v).Some? <==> Writable(fw, v)
    decreases v
  {
    if v.Cons? {
      WrittenExactly(fw, v.car);
      WrittenExactly(fw, v.cdr);
    }
  }

  // ----- dotted lists -----

  /** The value with every dotted tail turned into two more items, a dot and the tail. */
  function Undotted(v: Value): Value
    decreases v, 0
  {
    if v.Cons? then Cons(Undotted(v.car), UndottedTail(v.cdr)) else v
  }

  function UndottedTail(v: Value): Value
    decreases v, 1
  {
    match v
    case Nil => Nil
    case Cons(a, d) => Cons(Undotted(a), UndottedTail(d))
    case _ => Cons(Sym("."), Cons(v, Nil))
  }

  /** Printing does not tell a dotted list from the list with a dot in it. */
  lemma {:induction false} DottedText(fw: FloatWriter, v: Value)
    ensures Write(fw, v) == Write(fw, Undotted(v))
    ensures WriteTail(fw, v) == WriteTail(fw, UndottedTail(v))
    decreases v
  {
    if v.Cons? {
      DottedText(fw, v.car);
      DottedText(fw, v.cdr);
    } else if !v.Nil? {
      DotTail(fw, v);
    }
  }

  lemma DotTail(fw: FloatWriter, v: Value)
    requires !v.Cons? && !v.Nil?
    ensures WriteTail(fw, v) == WriteTail(fw, Cons(Sym("."), Cons(v, Nil)))
  {
    var last := Cons(v, Nil);
    assert WriteTail(fw, Nil) == Some("");
    if Write(fw, v).Some? {
      var t := Write(fw, v).value;
      assert WriteTail(fw, last) == Some(" " + t + "");
      assert " " + "." + (" " + t + "") == " . " + t;
    }
  }

  /** A dotted list is read back as the list with a dot in it. */
  lemma DottedReads(fl: FloatReader, fw: FloatWriter, v: Value)
    requires Readable(fl, Undotted(v))
    ensures Write(fw, v).Some? && ReadAll(fl, Write(fw, v).value, 0) == Got([Undotted(v)], |Write(fw, v).value|)
  {
    hide Write, ReadAll, Readable;
    DottedText(fw, v);
    PrintThenRead(fl, fw, Undotted(v));
  }
}
