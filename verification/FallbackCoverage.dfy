/**
  The static fallback-coverage analysis of tools/validate_generated_bt_fragment.py, against a statement in
  terms of paths from the root of the fragment.
 */
module FallbackCoverage {

  /** A fragment as its reader delivers it; floats and integers play no part in the analysis. */
  datatype Expr = Form(items: seq<Expr>) | Symbol(name: string) | Text(text: string) | Number

  const COMPOSITES: set<string> :=
    {"seq", "sel", "mem-seq", "mem-sel", "async-seq", "reactive-seq", "reactive-sel"}
  const LONG_RUNNING: set<string> := {"plan-action", "vla-request", "vla-wait"}
  const FALLBACK_ACTIONS: set<string> := {"stop", "safe-stop", "always-success"}

  /** The node's name; no node type is named by the empty string, which stands for the source's None. */
  function Name(e: Expr): string {
    if e.Form? && e.items != [] && e.items[0].Symbol? then e.items[0].name else ""
  }

  // ----- the analysis -----

  predicate ContainsLongRunning(e: Expr) {
    && e.Form? && e.items != []
    && (Name(e) in LONG_RUNNING || exists i :: 1 <= i < |e.items| && ContainsLongRunning(e.items[i]))
  }

  predicate IsFallbackLeaf(e: Expr) {
    || Name(e) in {"succeed", "fail"}
    || (Name(e) == "act" && |e.items| >= 2
        && match e.items[1]
           case Symbol(callback) => callback in FALLBACK_ACTIONS
           case Text(callback) => callback in FALLBACK_ACTIONS
           case _ => false)
  }

  predicate IsFallbackBranch(e: Expr) {
    && e.Form? && e.items != []
    && (IsFallbackLeaf(e)
        || (Name(e) in COMPOSITES && exists i :: 1 <= i < |e.items| && IsFallbackBranch(e.items[i])))
  }

  // ----- paths -----

  /** Where a path of child positions leads; positions count from one, after the node's name. */
  predicate Leads(e: Expr, path: seq<nat>)
    decreases |path|
  {
    path == [] || (e.Form? && 1 <= path[0] < |e.items| && Leads(e.items[path[0]], path[1..]))
  }

  function At(e: Expr, path: seq<nat>): Expr
    requires Leads(e, path)
    decreases |path|
  {
    if path == [] then e else At(e.items[path[0]], path[1..])
  }

  predicate Is(e: Expr, name: string) {
    e.Form? && e.items != [] && e.items[0] == Symbol(name)
  }

  /** A node that may take many ticks. */
  predicate TakesLong(e: Expr) {
    Is(e, "plan-action") || Is(e, "vla-request") || Is(e, "vla-wait")
  }

  /** A selector under which a later child can take over; mem-sel is not one. */
  predicate Chooses(e: Expr) {
    Is(e, "sel") || Is(e, "reactive-sel")
  }

  predicate Combines(e: Expr) {
    || Is(e, "seq") || Is(e, "sel") || Is(e, "mem-seq") || Is(e, "mem-sel")
    || Is(e, "async-seq") || Is(e, "reactive-seq") || Is(e, "reactive-sel")
  }

  /** The action's callback is named so, by a symbol or a string. */
  predicate Calls(e: Expr, callback: string) {
    Is(e, "act") && |e.items| >= 2 && (e.items[1] == Symbol(callback) || e.items[1] == Text(callback))
  }

  predicate IsSafe(e: Expr) {
    Is(e, "succeed") || Is(e, "fail") || Calls(e, "stop") || Calls(e, "safe-stop") || Calls(e, "always-success")
  }

  /** The path leads to a safe leaf, through composites only. */
  predicate SafeBelow(e: Expr, path: seq<nat>)
    requires Leads(e, path)
    decreases |path|
  {
    if path == [] then IsSafe(e) else Combines(e) && SafeBelow(e.items[path[0]], path[1..])
  }

  ghost predicate HasSafety(e: Expr) {
    exists path: seq<nat> :: Leads(e, path) && SafeBelow(e, path)
  }

  /** A later sibling of child i has a safe leaf. */
  ghost predicate FallbackAfter(e: Expr, i: nat) {
    e.Form? && exists j :: i < j < |e.items| && HasSafety(e.items[j])
  }

  lemma {:induction false} PrefixLeads(e: Expr, path: seq<nat>, k: nat)
    requires Leads(e, path) && k <= |path|
    ensures Leads(e, path[..k])
    decreases |path|
  {
    if k > 0 {
      PrefixLeads(e.items[path[0]], path[1..], k - 1);
      assert path[..k][1..] == path[1..][..k - 1];
    }
  }

  /** Some ancestor on the path is a selector with a fallback branch after the branch the path takes. */
  ghost predicate Guarded(e: Expr, path: seq<nat>)
    requires Leads(e, path)
  {
    exists k :: 0 <= k < |path| && GuardedAt(e, path, k)
  }

  ghost predicate GuardedAt(e: Expr, path: seq<nat>, k: nat)
    requires Leads(e, path) && k < |path|
  {
    PrefixLeads(e, path, k);
    Chooses(At(e, path[..k])) && FallbackAfter(At(e, path[..k]), path[k])
  }

  /** Every long-running node of the fragment is guarded. */
  ghost predicate Covered(e: Expr) {
    forall path: seq<nat> :: Leads(e, path) && TakesLong(At(e, path)) ==> Guarded(e, path)
  }

  // ----- one level at a time -----

  lemma {:induction false} GuardedStep(e: Expr, path: seq<nat>)
    requires path != [] && Leads(e, path)
    ensures Guarded(e, path)
            <==> (Chooses(e) && FallbackAfter(e, path[0])) || Guarded(e.items[path[0]], path[1..])
  {
    hide Chooses, FallbackAfter;
    var child, rest := e.items[path[0]], path[1..];
    assert GuardedAt(e, path, 0) <==> Chooses(e) && FallbackAfter(e, path[0]);
    forall k: nat | k < |rest|
      ensures GuardedAt(e, path, k + 1) == GuardedAt(child, rest, k)
    {
      PrefixLeads(e, path, k + 1);
      PrefixLeads(child, rest, k);
      assert path[..k + 1][1..] == rest[..k];
    }
    if k :| 0 <= k < |path| && GuardedAt(e, path, k) {
      assert k > 0 ==> GuardedAt(child, rest, k - 1);
    }
    if k :| 0 <= k < |rest| && GuardedAt(child, rest, k) {
      assert GuardedAt(e, path, k + 1);
    }
  }

  lemma RootIsUnguarded(e: Expr)
    ensures !Guarded(e, [])
  {
  }

  /** A child needs no guard of its own below a selector with a later fallback. */
  ghost predicate ChildCovered(e: Expr, i: nat)
    requires e.Form? && i < |e.items|
  {
    (Chooses(e) && FallbackAfter(e, i)) || Covered(e.items[i])
  }

  lemma {:induction false} CoveredStep(e: Expr)
    ensures Covered(e)
            <==> !TakesLong(e) && (e.Form? ==> forall i :: 1 <= i < |e.items| ==> ChildCovered(e, i))
  {
    hide Chooses, FallbackAfter, Guarded;
    if Covered(e) {
      assert Leads(e, []) && At(e, []) == e;
      RootIsUnguarded(e);
      if e.Form? {
        forall i | 1 <= i < |e.items|
          ensures ChildCovered(e, i)
        {
          if !(Chooses(e) && FallbackAfter(e, i)) {
            ChildIsCovered(e, i);
          }
        }
      }
    }
    if !TakesLong(e) && (e.Form? ==> forall i :: 1 <= i < |e.items| ==> ChildCovered(e, i)) {
      forall path: seq<nat> | Leads(e, path) && TakesLong(At(e, path))
        ensures Guarded(e, path)
      {
        assert path != [];
        assert ChildCovered(e, path[0]);
        GuardedStep(e, path);
      }
    }
  }

  lemma {:induction false} ChildIsCovered(e: Expr, i: nat)
    requires Covered(e) && e.Form? && 1 <= i < |e.items| && !(Chooses(e) && FallbackAfter(e, i))
    ensures Covered(e.items[i])
  {
    hide Chooses, FallbackAfter, Guarded;
    var child := e.items[i];
    forall path: seq<nat> | Leads(child, path) && TakesLong(At(child, path))
      ensures Guarded(child, path)
    {
      var whole := [i] + path;
      assert whole[1..] == path;
      assert Leads(e, whole) && At(e, whole) == At(child, path);
      GuardedStep(e, whole);
    }
  }

  // ----- the analysis is exact -----

  /** `long_running_has_fallback`: true exactly when every long-running node is guarded. */
  method LongRunningHasFallback(e: Expr, covered: bool) returns (ok: bool)
    ensures ok <==> covered || Covered(e)
    decreases e
  {
    hide Covered, IsFallbackBranch, HasSafety, Leads, TakesLong, Chooses;
    CoveredStep(e);
    NamesAgree(e);
    if !e.Form? || e.items == [] {
      return true;
    }
    if Name(e) in LONG_RUNNING && !covered {
      return false;
    }
    var i := 1;
    while i < |e.items|
      invariant 1 <= i <= |e.items|
      invariant covered || forall j :: 1 <= j < i ==> ChildCovered(e, j)
    {
      var childCovered := covered;
      if Name(e) == "sel" || Name(e) == "reactive-sel" {
        BranchesHaveLeaves(e, i);
        childCovered := covered || exists j :: i < j < |e.items| && IsFallbackBranch(e.items[j]);
      }
      var childOk := LongRunningHasFallback(e.items[i], childCovered);
      if !childOk {
        assert !ChildCovered(e, i);
        return false;
      }
      i := i + 1;
    }
    return true;
  }

  /** What the fragment check rejects. */
  method MissingFallback(e: Expr) returns (rejected: bool)
    ensures rejected
            <==> exists path: seq<nat> ::
                   Leads(e, path) && TakesLong(At(e, path)) && !Guarded(e, path)
  {
    hide Guarded, ContainsLongRunning;
    var ok := LongRunningHasFallback(e, false);
    rejected := ContainsLongRunning(e) && !ok;
    if !ok {
      ghost var path: seq<nat> :| Leads(e, path) && TakesLong(At(e, path)) && !Guarded(e, path);
      ContainsExactly(e, path);
    }
  }

  lemma {:induction false} ContainsExactly(e: Expr, path: seq<nat>)
    requires Leads(e, path) && TakesLong(At(e, path))
    ensures ContainsLongRunning(e)
    decreases |path|
  {
    if path != [] {
      ContainsExactly(e.items[path[0]], path[1..]);
    }
  }

  // ----- the analysis' vocabulary -----

  /** The sets of names the analysis goes by hold the names that matter. */
  lemma NamesAgree(e: Expr)
    ensures Name(e) in LONG_RUNNING <==> TakesLong(e)
    ensures Name(e) == "sel" || Name(e) == "reactive-sel" <==> Chooses(e)
    ensures Name(e) in COMPOSITES <==> Combines(e)
  {
  }

  lemma LeavesAgree(e: Expr)
    ensures IsFallbackLeaf(e) <==> IsSafe(e)
  {
  }

  /** A fallback branch is one with a safe leaf below composites only. */
  lemma {:induction false} BranchHasLeaf(e: Expr)
    ensures IsFallbackBranch(e) <==> HasSafety(e)
    decreases e
  {
    hide IsFallbackLeaf, IsSafe, Combines;
    LeavesAgree(e);
    NamesAgree(e);
    if IsFallbackBranch(e) && !IsFallbackLeaf(e) {
      var i :| 1 <= i < |e.items| && IsFallbackBranch(e.items[i]);
      BranchHasLeaf(e.items[i]);
      var rest: seq<nat> :| Leads(e.items[i], rest) && SafeBelow(e.items[i], rest);
      var path: seq<nat> := [i] + rest;
      assert path[1..] == rest;
      assert Leads(e, path) && SafeBelow(e, path);
    } else if IsFallbackBranch(e) {
      assert Leads(e, []) && SafeBelow(e, []);
    }
    if path: seq<nat> :| Leads(e, path) && SafeBelow(e, path) {
      LeafMakesBranch(e, path);
    }
  }

  lemma {:induction false} LeafMakesBranch(e: Expr, path: seq<nat>)
    requires Leads(e, path) && SafeBelow(e, path)
    ensures IsFallbackBranch(e)
    decreases |path|
  {
    hide IsFallbackLeaf, Combines;
    LeavesAgree(e);
    NamesAgree(e);
    if path != [] {
      LeafMakesBranch(e.items[path[0]], path[1..]);
    }
  }

  lemma BranchesHaveLeaves(e: Expr, i: nat)
    requires e.Form?
    ensures FallbackAfter(e, i) <==> exists j :: i < j < |e.items| && IsFallbackBranch(e.items[j])
  {
    hide IsFallbackBranch, HasSafety;
    forall j | i < j < |e.items| ensures IsFallbackBranch(e.items[j]) <==> HasSafety(e.items[j]) {
      BranchHasLeaf(e.items[j]);
    }
  }
}
