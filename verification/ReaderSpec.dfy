/** The grammar of src/reader.cpp as functions of the text and a position. */
module ReaderSpec {
  import opened Values

  /** `isspace` in the C locale. */
  predicate IsSpace(c: char) {
    c == ' ' || c == '\t' || c == '\n' || c == '\U{0B}' || c == '\U{0C}' || c == '\r'
  }

  predicate IsDelimiter(c: char) {
    IsSpace(c) || c == '(' || c == ')' || c == ';'
  }

  /** Characters that do not start an atom. */
  predicate IsPunctuation(c: char) {
    IsDelimiter(c) || c == '\'' || c == '`' || c == ',' || c == '"'
  }

  datatype Problem =
    | UnexpectedEnd | UnexpectedClose | EndAfterComma
    | UnterminatedList | UnterminatedString | UnterminatedEscape | UnknownEscape

  /** The errors flagged as incomplete input: those met at the end of the text. */
  predicate Incomplete(p: Problem) {
    !p.UnexpectedClose? && !p.UnknownEscape?
  }

  datatype Read<+T> = Got(v: T, pos: nat) | Bad(why: Problem)

  /** `strtod` on a whole token, left arbitrary. */
  type FloatReader = string -> Option<nat>

  // ----- skipping -----

  function LineEnd(s: string, p: nat): (q: nat)
    requires p <= |s|
    ensures p <= q <= |s|
    decreases |s| - p
  {
    if p == |s| || s[p] == '\n' then p else LineEnd(s, p + 1)
  }

  function Skip(s: string, p: nat): (q: nat)
    requires p <= |s|
    ensures p <= q <= |s|
    ensures q < |s| ==> !IsSpace(s[q]) && s[q] != ';'
    decreases |s| - p
  {
    if p == |s| then p
    else if IsSpace(s[p]) then Skip(s, p + 1)
    else if s[p] == ';' then Skip(s, LineEnd(s, p + 1))
    else p
  }

  // ----- atoms -----

  function TokenEnd(s: string, p: nat): (q: nat)
    requires p <= |s|
    ensures p <= q <= |s|
    decreases |s| - p
  {
    if p == |s| || IsDelimiter(s[p]) then p else TokenEnd(s, p + 1)
  }

  predicate IsDigit(c: char) {
    '0' <= c <= '9'
  }

  function DigitValue(c: char): (d: nat)
    requires IsDigit(c)
    ensures d < 10
  {
    c as int - '0' as int
  }

  predicate AllDigits(t: string) {
    forall i :: 0 <= i < |t| ==> IsDigit(t[i])
  }

  function NatValue(t: string): nat
    requires AllDigits(t)
  {
    if t == [] then 0 else 10 * NatValue(t[..|t| - 1]) + DigitValue(t[|t| - 1])
  }

  const INT64_MIN: int := -0x8000_0000_0000_0000
  const INT64_MAX: int := 0x7fff_ffff_ffff_ffff

  predicate InInt64(i: int) {
    INT64_MIN <= i <= INT64_MAX
  }

  /** `std::from_chars` on the whole token: an optional minus sign and digits, within 64 bits. */
  function IntOf(t: string): Option<int> {
    var negative := t != [] && t[0] == '-';
    var digits := if negative then t[1..] else t;
    if digits == [] || !AllDigits(digits) then None
    else
      var i: int := if negative then -(NatValue(digits) as int) else NatValue(digits);
      if InInt64(i) then Some(i) else None
  }

  predicate MaybeFloat(t: string) {
    '.' in t || 'e' in t || 'E' in t
  }

  function Atom(fl: FloatReader, t: string): Value {
    if t == "#t" then Bool(true)
    else if t == "#f" then Bool(false)
    else if t == "nil" then Nil
    else if !MaybeFloat(t) then
      match IntOf(t)
      case Some(i) => Int(i)
      case None => Sym(t)
    else
      match fl(t)
      case Some(bits) => Float(bits)
      case None => Sym(t)
  }

  // ----- strings -----

  function Unescape(c: char): Option<char> {
    if c == 'n' then Some('\n')
    else if c == 't' then Some('\t')
    else if c == 'r' then Some('\r')
    else if c == '"' then Some('"')
    else if c == '\\' then Some('\\')
    else None
  }

  /** The rest of a string literal from p on, after its opening quote. */
  function ReadString(s: string, p: nat): (r: Read<string>)
    requires p <= |s|
    ensures r.Got? ==> p < r.pos <= |s|
    decreases |s| - p
  {
    if p == |s| then Bad(UnterminatedString)
    else if s[p] == '"' then Got("", p + 1)
    else if s[p] == '\\' then
      if p + 1 == |s| then Bad(UnterminatedEscape)
      else if Unescape(s[p + 1]).None? then Bad(UnknownEscape)
      else
        var r := ReadString(s, p + 2);
        if r.Bad? then r else Got([Unescape(s[p + 1]).value] + r.v, r.pos)
    else
      var r := ReadString(s, p + 1);
      if r.Bad? then r else Got([s[p]] + r.v, r.pos)
  }

  // ----- expressions -----

  function Wrapped(head: string, r: Read<Value>): Read<Value> {
    if r.Bad? then r else Got(ListOf([Sym(head), r.v]), r.pos)
  }

  function ReadExpr(fl: FloatReader, s: string, p: nat): (r: Read<Value>)
    requires p <= |s|
    ensures r.Got? ==> p < r.pos <= |s|
    decreases |s| - p, 0
  {
    var q := Skip(s, p);
    if q == |s| then Bad(UnexpectedEnd)
    else if s[q] == '(' then
      var r := ReadItems(fl, s, q + 1);
      if r.Bad? then Bad(r.why) else Got(ListOf(r.v), r.pos)
    else if s[q] == ')' then Bad(UnexpectedClose)
    else if s[q] == '\'' then Wrapped("quote", ReadExpr(fl, s, q + 1))
    else if s[q] == '`' then Wrapped("quasiquote", ReadExpr(fl, s, q + 1))
    else if s[q] == ',' then
      if q + 1 == |s| then Bad(EndAfterComma)
      else if s[q + 1] == '@' then Wrapped("unquote-splicing", ReadExpr(fl, s, q + 2))
      else Wrapped("unquote", ReadExpr(fl, s, q + 1))
    else if s[q] == '"' then
      var r := ReadString(s, q + 1);
      if r.Bad? then Bad(r.why) else Got(Str(r.v), r.pos)
    else
      var e := TokenEnd(s, q + 1);
      Got(Atom(fl, s[q..e]), e)
  }

  /** The items of a list up to and with its closing parenthesis. */
  function ReadItems(fl: FloatReader, s: string, p: nat): (r: Read<seq<Value>>)
    requires p <= |s|
    ensures r.Got? ==> p < r.pos <= |s|
    decreases |s| - p, 1
  {
    var q := Skip(s, p);
    if q == |s| then Bad(UnterminatedList)
    else if s[q] == ')' then Got([], q + 1)
    else
      var first := ReadExpr(fl, s, q);
      if first.Bad? then Bad(first.why)
      else
        var rest := ReadItems(fl, s, first.pos);
        if rest.Bad? then rest else Got([first.v] + rest.v, rest.pos)
  }

  /** `read_all`: every expression of the text. */
  function ReadAll(fl: FloatReader, s: string, p: nat): (r: Read<seq<Value>>)
    requires p <= |s|
    decreases |s| - p
  {
    var q := Skip(s, p);
    if q == |s| then Got([], q)
    else
      var first := ReadExpr(fl, s, q);
      if first.Bad? then Bad(first.why)
      else
        var rest := ReadAll(fl, s, first.pos);
        if rest.Bad? then rest else Got([first.v] + rest.v, rest.pos)
  }

  /** One level of `ReadExpr`, by the first character of the expression. */
  lemma {:induction false} ExprCases(fl: FloatReader, s: string, p: nat)
    requires p <= |s|
    ensures
      var q := Skip(s, p);
      var r := ReadExpr(fl, s, p);
      if q == |s| then r == Bad(UnexpectedEnd)
      else if s[q] == '(' then
        var items := ReadItems(fl, s, q + 1);
        r == if items.Bad? then Bad(items.why) else Got(ListOf(items.v), items.pos)
      else if s[q] == ')' then r == Bad(UnexpectedClose)
      else if s[q] == '\'' then r == Wrapped("quote", ReadExpr(fl, s, q + 1))
      else if s[q] == '`' then r == Wrapped("quasiquote", ReadExpr(fl, s, q + 1))
      else if s[q] == ',' then
        if q + 1 == |s| then r == Bad(EndAfterComma)
        else if s[q + 1] == '@' then r == Wrapped("unquote-splicing", ReadExpr(fl, s, q + 2))
        else r == Wrapped("unquote", ReadExpr(fl, s, q + 1))
      else if s[q] == '"' then
        var text := ReadString(s, q + 1);
        r == if text.Bad? then Bad(text.why) else Got(Str(text.v), text.pos)
      else
        var e := TokenEnd(s, q + 1);
        r == Got(Atom(fl, s[q..e]), e)
  {
  }

  lemma ReadItemsCases(fl: FloatReader, s: string, p: nat)
    requires p <= |s|
    ensures
      var q, r := Skip(s, p), ReadItems(fl, s, p);
      if q == |s| then r == Bad(UnterminatedList)
      else if s[q] == ')' then r == Got([], q + 1)
      else
        var first := ReadExpr(fl, s, q);
        if first.Bad? then r == Bad(first.why)
        else
          var rest := ReadItems(fl, s, first.pos);
          r == if rest.Bad? then rest else Got([first.v] + rest.v, rest.pos)
  {
  }

  lemma ReadAllCases(fl: FloatReader, s: string, p: nat)
    requires p <= |s|
    ensures
      var q, r := Skip(s, p), ReadAll(fl, s, p);
      if q == |s| then r == Got([], q)
      else
        var first := ReadExpr(fl, s, q);
        if first.Bad? then r == Bad(first.why)
        else
          var rest := ReadAll(fl, s, first.pos);
          r == if rest.Bad? then rest else Got([first.v] + rest.v, rest.pos)
  {
  }
}
