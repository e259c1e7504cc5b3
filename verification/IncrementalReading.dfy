/**
  Reading input piece by piece, as the REPL does: a text is kept while the reader calls it
  incomplete and thrown away otherwise.  The flag is exact.
 */
module IncrementalReading {
  import opened Values
  import opened ReaderSpec

  /** A continuation that cannot lengthen a token ending at the end of the text. */
  predicate Separates(t: string) {
    t == [] || IsDelimiter(t[0])
  }

  // ----- results that more text cannot change -----

  lemma {:induction false} LineEndStable(s: string, t: string, p: nat)
    requires p <= |s|
    ensures LineEnd(s, p) < |s| ==> LineEnd(s + t, p) == LineEnd(s, p)
    ensures LineEnd(s, p) == |s| ==> LineEnd(s + t, p) == LineEnd(s + t, |s|)
    decreases |s| - p
  {
    if p < |s| && s[p] != '\n' {
      LineEndStable(s, t, p + 1);
    }
  }

  lemma {:induction false} SkipStable(s: string, t: string, p: nat)
    requires p <= |s| && Skip(s, p) < |s|
    ensures Skip(s + t, p) == Skip(s, p)
    decreases |s| - p
  {
    if IsSpace(s[p]) {
      SkipStable(s, t, p + 1);
    } else if s[p] == ';' {
      LineEndStable(s, t, p + 1);
      SkipStable(s, t, LineEnd(s, p + 1));
    }
  }

  lemma {:induction false} TokenStable(s: string, t: string, p: nat)
    requires p <= |s| && (TokenEnd(s, p) < |s| || Separates(t))
    ensures TokenEnd(s + t, p) == TokenEnd(s, p)
    decreases |s| - p
  {
    if p < |s| && !IsDelimiter(s[p]) {
      TokenStable(s, t, p + 1);
    }
  }

  lemma {:induction false} StringStable(s: string, t: string, p: nat)
    requires p <= |s|
    ensures
      var r := ReadString(s, p);
      r.Got? || !Incomplete(r.why) ==> ReadString(s + t, p) == r
    decreases |s| - p
  {
    if p < |s| && s[p] != '"' {
      if s[p] == '\\' {
        if p + 1 < |s| {
          StringStable(s, t, p + 2);
        }
      } else {
        StringStable(s, t, p + 1);
      }
    }
  }

  /** A finished result, or a rejection for good, does not depend on what follows. */
  predicate Settled<T>(r: Read<T>, s: string, t: string) {
    (r.Got? && (r.pos < |s| || Separates(t))) || (r.Bad? && !Incomplete(r.why))
  }

  lemma {:induction false} ExprStable(fl: FloatReader, s: string, t: string, p: nat)
    requires p <= |s| && Settled(ReadExpr(fl, s, p), s, t)
    ensures ReadExpr(fl, s + t, p) == ReadExpr(fl, s, p)
    decreases |s| - p, 0
  {
    hide ReadExpr, ReadItems, ReadString, Skip, TokenEnd, Atom, ListOf;
    ExprCases(fl, s, p);
    var q := Skip(s, p);
    SkipStable(s, t, p);
    ExprCases(fl, s + t, p);
    assert (s + t)[q] == s[q];
    if s[q] == '(' {
      ItemsStable(fl, s, t, q + 1);
    } else if s[q] == '\'' || s[q] == '`' {
      ExprStable(fl, s, t, q + 1);
    } else if s[q] == ',' {
      assert (s + t)[q + 1] == s[q + 1];
      ExprStable(fl, s, t, if s[q + 1] == '@' then q + 2 else q + 1);
    } else if s[q] == '"' {
      StringStable(s, t, q + 1);
    } else if s[q] != ')' {
      TokenStable(s, t, q + 1);
      var e := TokenEnd(s, q + 1);
      assert (s + t)[q..e] == s[q..e];
    }
  }

  lemma {:induction false} ItemsStable(fl: FloatReader, s: string, t: string, p: nat)
    requires p <= |s|
    requires var r := ReadItems(fl, s, p); r.Got? || !Incomplete(r.why)
    ensures ReadItems(fl, s + t, p) == ReadItems(fl, s, p)
    decreases |s| - p, 1
  {
    var q := Skip(s, p);
    SkipStable(s, t, p);
    assert (s + t)[q] == s[q];
    if s[q] != ')' {
      var first := ReadExpr(fl, s, q);
      if first.Got? {
        ItemsNeedMore(fl, s, first.pos);
        ExprStable(fl, s, t, q);
        ItemsStable(fl, s, t, first.pos);
      } else {
        ExprStable(fl, s, t, q);
      }
    }
  }

  /** At the end of the text a list is still open. */
  lemma ItemsNeedMore(fl: FloatReader, s: string, p: nat)
    requires p <= |s|
    ensures p == |s| ==> ReadItems(fl, s, p) == Bad(UnterminatedList)
  {
  }

  lemma {:induction false} AllStable(fl: FloatReader, s: string, t: string, p: nat)
    requires p <= |s|
    requires var r := ReadAll(fl, s, p); r.Bad? && !Incomplete(r.why)
    ensures ReadAll(fl, s + t, p) == ReadAll(fl, s, p)
    decreases |s| - p
  {
    var q := Skip(s, p);
    SkipStable(s, t, p);
    var first := ReadExpr(fl, s, q);
    if first.Got? {
      AllNeedsText(fl, s, first.pos);
      ExprStable(fl, s, t, q);
      AllStable(fl, s, t, first.pos);
    } else {
      ExprStable(fl, s, t, q);
    }
  }

  lemma AllNeedsText(fl: FloatReader, s: string, p: nat)
    requires p <= |s|
    ensures p == |s| ==> ReadAll(fl, s, p).Got?
  {
  }

  // ----- completing what is incomplete -----

  /** After the end of the text, a new line ends any comment and is then skipped. */
  lemma {:induction false} SkipPastEnd(s: string, t: string, p: nat)
    requires p <= |s| && Skip(s, p) == |s|
    requires t != [] && t[0] == '\n'
    ensures Skip(s + t, p) == Skip(s + t, |s| + 1)
    decreases |s| - p
  {
    if p == |s| {
      assert (s + t)[p] == '\n';
    } else if IsSpace(s[p]) {
      SkipPastEnd(s, t, p + 1);
    } else {
      LineEndStable(s, t, p + 1);
      if LineEnd(s, p + 1) < |s| {
        SkipPastEnd(s, t, LineEnd(s, p + 1));
      } else {
        assert LineEnd(s + t, |s|) == |s|;
        assert Skip(s + t, |s|) == Skip(s + t, |s| + 1);
      }
    }
  }

  /** A continuation that makes the rest of a string literal readable up to its own end. */
  lemma {:induction false} CompleteString(s: string, p: nat) returns (t: string)
    requires p <= |s|
    requires var r := ReadString(s, p); r.Bad? && Incomplete(r.why)
    ensures var r := ReadString(s + t, p); r.Got? && r.pos == |s + t|
    decreases |s| - p
  {
    if p == |s| {
      t := "\"";
      assert (s + t)[p] == '"';
    } else if s[p] == '\\' {
      if p + 1 == |s| {
        t := "n\"";
        assert (s + t)[p + 1] == 'n' && (s + t)[p + 2] == '"';
      } else {
        t := CompleteString(s, p + 2);
      }
    } else {
      t := CompleteString(s, p + 1);
    }
  }

  lemma {:induction false} ReadLetter(fl: FloatReader, u: string, k: nat)
    requires k + 2 == |u| && u[k] == '\n' && u[k + 1] == 'a'
    ensures ReadExpr(fl, u, k + 1) == Got(Sym("a"), |u|)
    ensures Skip(u, k + 1) == k + 1
  {
    assert u[k + 1..k + 2] == "a";
    assert TokenEnd(u, k + 2) == k + 2;
    assert IntOf("a") == None by {
      assert !IsDigit("a"[0]);
    }
  }

  /** A continuation that makes an unfinished expression readable up to its own end. */
  lemma {:induction false} CompleteExpr(fl: FloatReader, s: string, p: nat) returns (t: string)
    requires p <= |s|
    requires var r := ReadExpr(fl, s, p); r.Bad? && Incomplete(r.why)
    ensures var r := ReadExpr(fl, s + t, p); r.Got? && r.pos == |s + t|
    ensures p == |s| ==> t != [] && t[0] == '\n'
    decreases |s| - p, 1
  {
    hide ReadExpr, ReadItems, ReadString, Skip, TokenEnd, Atom, ListOf;
    ExprCases(fl, s, p);
    var q := Skip(s, p);
    if q == |s| {
      t := "\na";
      SkipPastEnd(s, t, p);
      ReadLetter(fl, s + t, |s|);
      SkipThenRead(fl, s + t, p, |s| + 1);
    } else {
      if s[q] == '(' {
        t := CompleteItems(fl, s, q + 1);
      } else if s[q] == '\'' || s[q] == '`' {
        t := CompleteExpr(fl, s, q + 1);
      } else if s[q] == ',' {
        t := CompleteComma(fl, s, q);
      } else {
        t := CompleteString(s, q + 1);
      }
      SkipStable(s, t, p);
      assert (s + t)[q] == s[q];
      ExprCases(fl, s + t, p);
    }
  }

  /** Reading starts where skipping ends. */
  lemma {:induction false} SkipThenRead(fl: FloatReader, u: string, p: nat, q: nat)
    requires p <= |u| && q <= |u| && Skip(u, p) == Skip(u, q)
    ensures ReadExpr(fl, u, p).Got? <==> ReadExpr(fl, u, q).Got?
    ensures ReadExpr(fl, u, p) == ReadExpr(fl, u, q)
  {
    hide ReadExpr, ReadItems, ReadString, Skip, TokenEnd, Atom, ListOf;
    ExprCases(fl, u, p);
    ExprCases(fl, u, q);
  }

  lemma {:induction false} CompleteComma(fl: FloatReader, s: string, q: nat) returns (t: string)
    requires q < |s| && s[q] == ','
    requires q + 1 < |s| ==>
      var r := ReadExpr(fl, s, if s[q + 1] == '@' then q + 2 else q + 1);
      r.Bad? && Incomplete(r.why)
    ensures q + 1 < |s + t|
    ensures var r := ReadExpr(fl, s + t, if (s + t)[q + 1] == '@' then q + 2 else q + 1); r.Got? && r.pos == |s + t|
    decreases |s| - q, 0
  {
    hide ReadExpr, Skip;
    if q + 1 == |s| {
      t := "\na";
      SkipNewline(s + t, |s|);
      ReadLetter(fl, s + t, |s|);
      SkipThenRead(fl, s + t, q + 1, q + 2);
    } else {
      t := CompleteExpr(fl, s, if s[q + 1] == '@' then q + 2 else q + 1);
      assert (s + t)[q + 1] == s[q + 1];
    }
  }

  lemma SkipNewline(u: string, k: nat)
    requires k < |u| && u[k] == '\n'
    ensures Skip(u, k) == Skip(u, k + 1)
  {
  }

  lemma {:induction false} CompleteItems(fl: FloatReader, s: string, p: nat) returns (t: string)
    requires p <= |s|
    requires var r := ReadItems(fl, s, p); r.Bad? && Incomplete(r.why)
    ensures var r := ReadItems(fl, s + t, p); r.Got? && r.pos == |s + t|
    ensures p == |s| ==> t != [] && t[0] == '\n'
    decreases |s| - p, 2
  {
    var q := Skip(s, p);
    if q == |s| {
      t := "\n)";
      SkipPastEnd(s, t, p);
      assert (s + t)[|s| + 1] == ')';
    } else {
      var first := ReadExpr(fl, s, q);
      if first.Got? {
        t := CompleteItems(fl, s, first.pos);
        SkipStable(s, t, p);
        ExprStable(fl, s, t, q);
        assert (s + t)[q] == s[q];
      } else {
        var t1 := CompleteExpr(fl, s, q);
        t := t1 + "\n)";
        SkipStable(s, t, p);
        var u := s + t1;
        assert s + t == u + "\n)";
        ExprStable(fl, u, "\n)", q);
        assert (s + t)[q] == s[q];
        SkipPastEnd(u, "\n)", |u|);
        assert (u + "\n)")[|u| + 1] == ')';
      }
    }
  }

  lemma {:induction false} CompleteAll(fl: FloatReader, s: string, p: nat) returns (t: string)
    requires p <= |s|
    requires var r := ReadAll(fl, s, p); r.Bad? && Incomplete(r.why)
    ensures ReadAll(fl, s + t, p).Got?
    ensures p < |s|
    decreases |s| - p
  {
    var q := Skip(s, p);
    var first := ReadExpr(fl, s, q);
    if first.Got? {
      AllNeedsText(fl, s, first.pos);
      t := CompleteAll(fl, s, first.pos);
      SkipStable(s, t, p);
      ExprStable(fl, s, t, q);
    } else {
      t := CompleteExpr(fl, s, q);
      SkipStable(s, t, p);
      AllNeedsText(fl, s + t, |s + t|);
    }
  }

  // ----- the flag -----

  predicate Accepted(fl: FloatReader, s: string) {
    ReadAll(fl, s, 0).Got?
  }

  predicate RejectedForGood(fl: FloatReader, s: string) {
    ReadAll(fl, s, 0).Bad? && !Incomplete(ReadAll(fl, s, 0).why)
  }

  predicate RejectedIncomplete(fl: FloatReader, s: string) {
    ReadAll(fl, s, 0).Bad? && Incomplete(ReadAll(fl, s, 0).why)
  }

  /** A text rejected for good stays rejected, with the same error, however it goes on. */
  lemma {:induction false} RejectionIsFinal(fl: FloatReader, s: string, t: string)
    requires RejectedForGood(fl, s)
    ensures RejectedForGood(fl, s + t) && ReadAll(fl, s + t, 0) == ReadAll(fl, s, 0)
  {
    AllStable(fl, s, t, 0);
  }

  /** A text is flagged incomplete exactly when it is rejected and some continuation is accepted. */
  lemma {:induction false} IncompleteExactly(fl: FloatReader, s: string)
    ensures RejectedIncomplete(fl, s) <==> !Accepted(fl, s) && exists t: string :: Accepted(fl, s + t)
  {
    if RejectedIncomplete(fl, s) {
      var t := CompleteAll(fl, s, 0);
      assert Accepted(fl, s + t);
    }
    if RejectedForGood(fl, s) {
      forall t: string
        ensures !Accepted(fl, s + t)
      {
        RejectionIsFinal(fl, s, t);
      }
    }
  }

  /** Every beginning of an acceptable text is accepted or asked to be continued. */
  lemma {:induction false} PrefixesAreKept(fl: FloatReader, s: string, t: string)
    requires Accepted(fl, s + t)
    ensures Accepted(fl, s) || RejectedIncomplete(fl, s)
  {
    if RejectedForGood(fl, s) {
      RejectionIsFinal(fl, s, t);
    }
  }
}
