/** Which findings `validate_trace` reports, event by event, on any log, well formed or not. */
module TraceDiagnosis {
  import opened Values
  import opened TraceEvents
  import opened TraceValidator

  // ----- the story told by the first n events -----

  predicate NumberUsed(es: Log, n: nat, x: int)
    requires n <= |es|
  {
    exists i: nat :: i < n && es[i].seqNo == Some(x)
  }

  /** The latest sequence number before n is x or more. */
  predicate NotAbove(es: Log, n: nat, x: int)
    requires n <= |es|
  {
    exists i: nat :: i < n && es[i].seqNo.Some? && x <= es[i].seqNo.value && forall k :: i < k < n ==> es[k].seqNo.None?
  }

  /** Tick t has begun, and since then neither has another begun nor has it ended. */
  predicate InTick(es: Log, n: nat, t: TickId)
    requires n <= |es|
  {
    exists b: nat :: b < n && PendingFrom(es, b, n) && es[b].tick == Some(t)
  }

  predicate InAnyTick(es: Log, n: nat)
    requires n <= |es|
  {
    exists b: nat :: b < n && PendingFrom(es, b, n)
  }

  /** An end of tick t came while t was pending. */
  predicate Completed(es: Log, n: nat, t: TickId)
    requires n <= |es|
  {
    exists e: nat :: e < n && es[e].kind.TickEnd? && es[e].tick == Some(t) && InTick(es, e, t)
  }

  predicate SameExitBefore(es: Log, n: nat)
    requires n < |es|
  {
    exists i: nat :: i < n && IsTerminalExit(es[i]) && es[i].tick == es[n].tick && es[i].node == es[n].node
  }

  /** The job's latest submit or cancel request is a request, and numbered. */
  predicate RequestOnRecord(es: Log, n: nat, job: string)
    requires n <= |es|
  {
    exists r: nat :: r < n && IsRequest(es[r], job) && es[r].seqNo.Some?
      && forall k :: r < k < n ==> !IsSubmit(es[k], job) && !IsRequest(es[k], job)
  }

  /** The job's latest submit is numbered. */
  predicate SubmitOnRecord(es: Log, n: nat, job: string)
    requires n <= |es|
  {
    exists s: nat :: s < n && IsSubmit(es[s], job) && es[s].seqNo.Some?
      && forall k :: s < k < n ==> !IsSubmit(es[k], job)
  }

  // ----- the findings at event n -----

  function When(b: bool, c: Code): seq<Code> {
    if b then [c] else []
  }

  function SeqFindings(es: Log, n: nat): seq<Code>
    requires n < |es|
  {
    match es[n].seqNo
    case None => [MissingSeq]
    case Some(x) => When(NumberUsed(es, n, x), DuplicateSeq) + When(NotAbove(es, n, x), NonMonotonicSeq)
  }

  function TickFindings(es: Log, n: nat): seq<Code>
    requires n < |es|
  {
    match es[n].tick
    case None => When(es[n].kind.TickBegin? || es[n].kind.TickEnd?, MissingTickId)
    case Some(t) =>
      if es[n].kind.TickBegin? then
        When(InTick(es, n, t), DuplicateTickBegin)
        + When(InAnyTick(es, n) && !InTick(es, n, t), OverlappingTicks)
        + When(Completed(es, n, t), DuplicateTickId)
      else if InTick(es, n, t) then []
      else if es[n].kind.TickEnd? && !InAnyTick(es, n) then
        [if Completed(es, n, t) then DuplicateTickEnd else MissingTickBegin]
      else [OutsideDelimiters]
  }

  function JobFindings(es: Log, n: nat): seq<Code>
    requires n < |es|
  {
    match es[n].job
    case None => []
    case Some(job) =>
      When(es[n].kind.CancelAcknowledged? && !RequestOnRecord(es, n, job), AckWithoutRequest)
      + When(IsTerminal(es[n]) && !SubmitOnRecord(es, n, job), TerminalWithoutSubmit)
  }

  function Findings(es: Log, n: nat): seq<Code>
    requires n < |es|
  {
    SeqFindings(es, n) + TickFindings(es, n)
    + When(IsTerminalExit(es[n]) && SameExitBefore(es, n), DuplicateTerminalExit)
    + JobFindings(es, n)
  }

  function FindingsBefore(es: Log, n: nat): seq<Code>
    requires n <= |es|
  {
    if n == 0 then [] else FindingsBefore(es, n - 1) + Findings(es, n - 1)
  }

  // ----- what the state knows on any log -----

  ghost predicate SeqTells(s: SeqState, es: Log, n: nat)
    requires n <= |es|
  {
    && (forall x: int :: x in s.seen <==> NumberUsed(es, n, x))
    && (forall x: int :: s.last.Some? && x <= s.last.value <==> NotAbove(es, n, x))
  }

  lemma NumberUsedNext(es: Log, n: nat, x: int)
    requires n < |es|
    ensures NumberUsed(es, n + 1, x) <==> es[n].seqNo == Some(x) || NumberUsed(es, n, x)
  {
  }

  lemma NotAboveNext(es: Log, n: nat, x: int)
    requires n < |es|
    ensures NotAbove(es, n + 1, x) <==> if es[n].seqNo.Some? then x <= es[n].seqNo.value else NotAbove(es, n, x)
  {
    if es[n].seqNo.None? {
      if NotAbove(es, n + 1, x) {
        var i: nat :| i < n + 1 && es[i].seqNo.Some? && x <= es[i].seqNo.value
          && forall k :: i < k < n + 1 ==> es[k].seqNo.None?;
        assert i < n && forall k :: i < k < n ==> es[k].seqNo.None?;
      }
      if NotAbove(es, n, x) {
        var i: nat :| i < n && es[i].seqNo.Some? && x <= es[i].seqNo.value
          && forall k :: i < k < n ==> es[k].seqNo.None?;
        assert forall k :: i < k < n + 1 ==> es[k].seqNo.None?;
      }
    }
  }

  lemma SeqToldNext(s: SeqState, es: Log, n: nat)
    requires n < |es| && SeqTells(s, es, n)
    ensures CheckSeq(s, es[n]).1 == SeqFindings(es, n)
    ensures SeqTells(CheckSeq(s, es[n]).0, es, n + 1)
  {
    hide NumberUsed, NotAbove;
    var s2, m := CheckSeq(s, es[n]).0, n + 1;
    forall x: int
      ensures x in s2.seen <==> NumberUsed(es, m, x)
      ensures s2.last.Some? && x <= s2.last.value <==> NotAbove(es, m, x)
    {
      NumberUsedNext(es, n, x);
      NotAboveNext(es, n, x);
    }
  }

  ghost predicate TickTells(s: TickState, es: Log, n: nat)
    requires n <= |es|
  {
    && (forall t: TickId :: s.open == Some(t) <==> InTick(es, n, t))
    && (forall t: TickId :: t in s.completed <==> Completed(es, n, t))
  }

  lemma AnyIsSome(es: Log, n: nat)
    requires n <= |es|
    ensures InAnyTick(es, n) <==> exists t: TickId :: InTick(es, n, t)
  {
    if InAnyTick(es, n) {
      var b: nat :| b < n && PendingFrom(es, b, n);
      assert InTick(es, n, es[b].tick.value);
    }
  }

  lemma InTickNext(es: Log, n: nat, t: TickId)
    requires n < |es|
    ensures InTick(es, n + 1, t) <==>
            if es[n].kind.TickBegin? && es[n].tick.Some? then es[n].tick == Some(t)
            else InTick(es, n, t) && !(es[n].kind.TickEnd? && es[n].tick == Some(t))
  {
    var m := n + 1;
    if es[n].kind.TickBegin? && es[n].tick.Some? {
      assert PendingFrom(es, n, m);
    } else {
      if InTick(es, n, t) {
        var b: nat :| b < n && PendingFrom(es, b, n) && es[b].tick == Some(t);
        StillPending(es, b, n);
      }
      if InTick(es, m, t) {
        var b: nat :| b < m && PendingFrom(es, b, m) && es[b].tick == Some(t);
        PendingBack(es, b, m);
      }
    }
  }

  lemma CompletedNext(es: Log, n: nat, t: TickId)
    requires n < |es|
    ensures Completed(es, n + 1, t) <==>
            Completed(es, n, t) || (es[n].kind.TickEnd? && es[n].tick == Some(t) && InTick(es, n, t))
  {
    hide InTick;
  }

  lemma TickToldNext(s: TickState, es: Log, n: nat)
    requires n < |es| && TickTells(s, es, n)
    ensures CheckTick(s, es[n]).1 == TickFindings(es, n)
    ensures TickTells(CheckTick(s, es[n]).0, es, n + 1)
  {
    hide InTick, InAnyTick, Completed;
    AnyIsSome(es, n);
    assert InAnyTick(es, n) <==> s.open.Some? by {
      if s.open.Some? {
        assert InTick(es, n, s.open.value);
      }
    }
    var s2, m := CheckTick(s, es[n]).0, n + 1;
    forall t: TickId
      ensures s2.open == Some(t) <==> InTick(es, m, t)
      ensures t in s2.completed <==> Completed(es, m, t)
    {
      InTickNext(es, n, t);
      CompletedNext(es, n, t);
    }
  }

  lemma ExitTold(s: multiset<(TickId, int)>, es: Log, n: nat)
    requires n < |es| && ExitKnows(s, es, n)
    ensures CheckExit(s, es[n]).1 == When(IsTerminalExit(es[n]) && SameExitBefore(es, n), DuplicateTerminalExit)
    ensures ExitKnows(CheckExit(s, es[n]).0, es, n + 1)
  {
    hide CheckExit, IsTerminalExit;
    ExitStep(s, es, n);
    ExitCodes(s, es[n]);
  }

  lemma ExitCodes(s: multiset<(TickId, int)>, e: Event)
    ensures CheckExit(s, e).1 == [] || CheckExit(s, e).1 == [DuplicateTerminalExit]
  {
  }

  predicate JobTells(s: AsyncState, es: Log, n: nat, job: string)
    requires n <= |es|
  {
    && (JobOf(s, job).requestSeq.Some? <==> RequestOnRecord(es, n, job))
    && (JobOf(s, job).submitSeq.Some? <==> SubmitOnRecord(es, n, job))
  }

  lemma RequestOnRecordNext(es: Log, n: nat, job: string)
    requires n < |es|
    ensures RequestOnRecord(es, n + 1, job) <==>
            if IsRequest(es[n], job) then es[n].seqNo.Some?
            else RequestOnRecord(es, n, job) && !IsSubmit(es[n], job)
  {
    var m := n + 1;
    if RequestOnRecord(es, m, job) {
      var r: nat :| r < m && IsRequest(es[r], job) && es[r].seqNo.Some?
        && forall k :: r < k < m ==> !IsSubmit(es[k], job) && !IsRequest(es[k], job);
      assert r == n || forall k :: r < k < n ==> !IsSubmit(es[k], job) && !IsRequest(es[k], job);
    }
    if RequestOnRecord(es, n, job) && !IsSubmit(es[n], job) && !IsRequest(es[n], job) {
      var r: nat :| r < n && IsRequest(es[r], job) && es[r].seqNo.Some?
        && forall k :: r < k < n ==> !IsSubmit(es[k], job) && !IsRequest(es[k], job);
      assert forall k :: r < k < m ==> !IsSubmit(es[k], job) && !IsRequest(es[k], job);
    }
  }

  lemma SubmitOnRecordNext(es: Log, n: nat, job: string)
    requires n < |es|
    ensures SubmitOnRecord(es, n + 1, job) <==>
            if IsSubmit(es[n], job) then es[n].seqNo.Some? else SubmitOnRecord(es, n, job)
  {
    var m := n + 1;
    if SubmitOnRecord(es, m, job) {
      var r: nat :| r < m && IsSubmit(es[r], job) && es[r].seqNo.Some?
        && forall k :: r < k < m ==> !IsSubmit(es[k], job);
      assert r == n || forall k :: r < k < n ==> !IsSubmit(es[k], job);
    }
    if SubmitOnRecord(es, n, job) && !IsSubmit(es[n], job) {
      var r: nat :| r < n && IsSubmit(es[r], job) && es[r].seqNo.Some?
        && forall k :: r < k < n ==> !IsSubmit(es[k], job);
      assert forall k :: r < k < m ==> !IsSubmit(es[k], job);
    }
  }

  /** The state the asynchronous check leaves; tick delimiters skip it. */
  function AfterAsync(s: AsyncState, e: Event): AsyncState {
    if IsDelimiter(e) then s else CheckAsync(s, e).0
  }

  lemma JobToldNext(s: AsyncState, es: Log, n: nat, job: string)
    requires n < |es| && JobTells(s, es, n, job)
    ensures JobTells(AfterAsync(s, es[n]), es, n + 1, job)
  {
    hide RequestOnRecord, SubmitOnRecord, EndsJob;
    RequestOnRecordNext(es, n, job);
    SubmitOnRecordNext(es, n, job);
  }

  lemma JobTold(s: AsyncState, es: Log, n: nat)
    requires n < |es| && (es[n].job.Some? ==> JobTells(s, es, n, es[n].job.value))
    ensures JobFindings(es, n) == if IsDelimiter(es[n]) then [] else CheckAsync(s, es[n]).1
  {
    hide RequestOnRecord, SubmitOnRecord, EndsJob;
    EndsAreTerminal(es[n]);
  }

  ghost predicate Tells(s: State, es: Log, n: nat)
    requires n <= |es|
  {
    && SeqTells(s.sq, es, n) && TickTells(s.tk, es, n) && ExitKnows(s.ex, es, n)
    && forall job: string :: JobTells(s.job, es, n, job)
  }

  lemma StepTells(s: State, es: Log, n: nat)
    requires n < |es| && Tells(s, es, n)
    ensures Step(s, es[n]).codes == s.codes + Findings(es, n) && Tells(Step(s, es[n]), es, n + 1)
  {
    hide SeqTells, TickTells, ExitKnows, JobTells, CheckSeq, CheckTick, CheckExit, CheckAsync;
    hide SeqFindings, TickFindings, JobFindings, IsTerminalExit, SameExitBefore;
    SeqToldNext(s.sq, es, n);
    TickToldNext(s.tk, es, n);
    ExitTold(s.ex, es, n);
    DelimiterExits(s.ex, es, n);
    JobTold(s.job, es, n);
    var after, m := AfterAsync(s.job, es[n]), n + 1;
    forall job: string ensures JobTells(after, es, m, job) {
      JobToldNext(s.job, es, n, job);
    }
  }

  lemma StartTells(es: Log)
    ensures Tells(INIT, es, 0)
  {
  }

  /** On every log the pass has reported exactly the findings of the events so far, in their order. */
  lemma {:induction false} PassReports(es: Log, n: nat)
    requires n <= |es|
    ensures Run(es, n).codes == FindingsBefore(es, n) && Tells(Run(es, n), es, n)
    decreases n
  {
    hide Tells, Step, Findings;
    if n == 0 {
      StartTells(es);
    } else {
      PassReports(es, n - 1);
      StepTells(Run(es, n - 1), es, n - 1);
    }
  }

  // ----- the findings after the pass -----

  /** Tick t ended. */
  predicate EndOf(es: Log, e: nat, t: TickId) {
    e < |es| && es[e].kind.TickEnd? && es[e].tick == Some(t)
  }

  predicate DeadlineIn(es: Log, t: TickId) {
    exists i: nat :: i < |es| && es[i].kind.DeadlineExceeded? && es[i].tick == Some(t)
  }

  predicate Unmeasured(e: Event) {
    e.budgetMs == None || e.elapsedMs == None
  }

  /** Once the pass has nothing to report, the budget findings are those of the ticks they are about. */
  lemma BudgetReports(es: Log, t: TickId)
    requires Good(es, |es|)
    ensures
      var tk := Run(es, |es|).tk;
      && (t in TicksWith(tk, MissingDeadline) <==>
            !DeadlineIn(es, t) && exists e: nat :: EndOf(es, e, t) && KnownOver(es[e]))
      && (t in TicksWith(tk, BudgetNotEvaluable) <==>
            !DeadlineIn(es, t) && exists e: nat :: EndOf(es, e, t) && Unmeasured(es[e]))
  {
    hide Run, Good, SeqKnows, ExitKnows, AsyncKnows, HasDeadline;
    RunKnows(es, |es|);
    var tk := Run(es, |es|).tk;
    assert KnowsTick(tk, es, |es|, t);
    forall e: nat | EndOf(es, e, t) ensures t in tk.records && tk.records[t].end == Some(es[e]) {
      assert EndRecorded(tk, es[e]);
    }
    if t in tk.records {
      HasDeadlineIs(tk, es, t);
      if tk.records[t].end.Some? {
        var e: nat :| e < |es| && es[e] == tk.records[t].end.value;
        assert EndOf(es, e, t);
      }
    }
  }

  lemma {:induction false} CancelsReport(tk: TickState, ps: seq<Snapshot>)
    ensures (CancelReport(tk, ps) == [] <==> CancelsPass(tk, ps))
            && (CancelReport(tk, ps) != [] <==> MissingCancelAfterDeadline in CancelReport(tk, ps))
            && forall c: Code :: c in CancelReport(tk, ps) ==> c == MissingCancelAfterDeadline
    decreases |ps|
  {
    hide CancelCodes;
    if ps != [] {
      var front, last := ps[..|ps| - 1], ps[|ps| - 1];
      CancelsReport(tk, front);
      OnlyCancels(tk, last);
      assert forall k :: 0 <= k < |front| ==> ps[k] == front[k];
      assert CancelsPass(tk, ps) <==> CancelsPass(tk, front) && CancelCodes(tk, last) == [];
    }
  }

  lemma OnlyCancels(tk: TickState, p: Snapshot)
    ensures CancelCodes(tk, p) == [] || CancelCodes(tk, p) == [MissingCancelAfterDeadline]
  {
  }

  /** The pass reports none of the later findings. */
  lemma {:induction false} PassKinds(es: Log, n: nat)
    requires n <= |es|
    ensures NoneLate(FindingsBefore(es, n))
    decreases n
  {
    hide Findings;
    if n > 0 {
      PassKinds(es, n - 1);
      FindingKinds(es, n - 1);
      NoneLateConcat(FindingsBefore(es, n - 1), Findings(es, n - 1));
    }
  }

  predicate Late(c: Code) {
    c.MissingDeadline? || c.BudgetNotEvaluable? || c.MissingCancelAfterDeadline? || c.MissingTickEnd?
  }

  predicate NoneLate(cs: seq<Code>) {
    forall i :: 0 <= i < |cs| ==> !Late(cs[i])
  }

  lemma NoneLateConcat(a: seq<Code>, b: seq<Code>)
    requires NoneLate(a) && NoneLate(b)
    ensures NoneLate(a + b)
  {
  }

  lemma FindingKinds(es: Log, n: nat)
    requires n < |es|
    ensures NoneLate(Findings(es, n))
  {
    hide NumberUsed, NotAbove, InTick, InAnyTick, Completed, SameExitBefore, RequestOnRecord, SubmitOnRecord;
    hide IsTerminal, IsTerminalExit;
    var a, b, d := SeqFindings(es, n), TickFindings(es, n), JobFindings(es, n);
    var c := When(IsTerminalExit(es[n]) && SameExitBefore(es, n), DuplicateTerminalExit);
    assert NoneLate(a) && NoneLate(b) && NoneLate(c) && NoneLate(d);
    NoneLateConcat(a, b);
    NoneLateConcat(a + b, c);
    NoneLateConcat(a + b + c, d);
  }

  lemma InOverruns(tk: TickState, codes: seq<Code>, c: Code)
    requires OverrunReport(tk, codes)
    ensures c in codes <==> exists t: TickId :: t in TicksWith(tk, c)
    ensures c in codes ==> c == MissingDeadline || c == BudgetNotEvaluable
  {
    hide HasDeadline;
    assert c in codes <==> c in multiset(codes);
    assert |TicksWith(tk, c)| > 0 <==> TicksWith(tk, c) != {};
    assert TicksWith(tk, c) != {} <==> exists t: TickId :: t in TicksWith(tk, c);
  }

  lemma BudgetFindings(es: Log)
    requires Good(es, |es|)
    ensures (exists t: TickId :: t in TicksWith(Run(es, |es|).tk, MissingDeadline)) <==> !OverrunsReported(es)
  {
    hide Run, TicksWith, Good, Unmeasured, KnownOver;
    var tk := Run(es, |es|).tk;
    if !OverrunsReported(es) {
      var e: nat :| e < |es| && !OverrunReported(es, e);
      GoodEnds(es, e);
      assert EndOf(es, e, es[e].tick.value);
      BudgetReports(es, es[e].tick.value);
      assert es[e].tick.value in TicksWith(tk, MissingDeadline);
    }
    if t: TickId :| t in TicksWith(tk, MissingDeadline) {
      BudgetReports(es, t);
      var e: nat :| EndOf(es, e, t) && KnownOver(es[e]);
      assert !OverrunReported(es, e);
    }
  }

  lemma UnmeasuredFindings(es: Log)
    requires Good(es, |es|)
    ensures (exists t: TickId :: t in TicksWith(Run(es, |es|).tk, BudgetNotEvaluable)) <==>
            exists t: TickId, e: nat :: EndOf(es, e, t) && Unmeasured(es[e]) && !DeadlineIn(es, t)
  {
    hide Run, TicksWith, Good, Unmeasured, KnownOver, DeadlineIn;
    var tk := Run(es, |es|).tk;
    if t: TickId, e: nat :| EndOf(es, e, t) && Unmeasured(es[e]) && !DeadlineIn(es, t) {
      BudgetReports(es, t);
      assert t in TicksWith(tk, BudgetNotEvaluable);
    }
    if t: TickId :| t in TicksWith(tk, BudgetNotEvaluable) {
      BudgetReports(es, t);
      var e: nat :| EndOf(es, e, t) && Unmeasured(es[e]);
    }
  }

  lemma GoodEnds(es: Log, e: nat)
    requires Good(es, |es|) && e < |es| && es[e].kind.TickEnd?
    ensures es[e].tick.Some?
  {
    assert GoodAt(es, e);
  }

  /**
    The diagnosis of every log: each event's findings are reported in order, and an open tail is; and when every
    event is good, over-budget ticks without a deadline, ticks that were not measured and jobs left uncancelled at a
    deadline are reported exactly when there are any.
   */
  lemma Diagnosis(es: Log, tolerateOpenTail: bool, codes: seq<Code>)
    requires Reports(es, tolerateOpenTail, codes)
    ensures FindingsBefore(es, |es|) + When(EndsInsideTick(es) && !tolerateOpenTail, MissingTickEnd) <= codes
    ensures Good(es, |es|) ==>
              && (MissingDeadline in codes <==> !OverrunsReported(es))
              && (MissingCancelAfterDeadline in codes <==> !DeadlinesCancel(es))
              && (BudgetNotEvaluable in codes <==>
                    exists t: TickId, e: nat :: EndOf(es, e, t) && Unmeasured(es[e]) && !DeadlineIn(es, t))
  {
    hide Run, Good, FindingsBefore, EndsInsideTick, Tells, TicksWith, OverrunsReported, DeadlinesCancel;
    hide CancelReport, CancelsPass, DeadlineIn, Unmeasured, OverrunReport, EndOf, AsyncKnows, KnownOver;
    PassReports(es, |es|);
    PassKinds(es, |es|);
    var st := Run(es, |es|);
    var tail := When(EndsInsideTick(es) && !tolerateOpenTail, MissingTickEnd);
    var overruns: seq<Code> :| OverrunReport(st.tk, overruns)
      && codes == st.codes + tail + overruns + CancelReport(st.tk, st.job.snapshots);
    CancelsReport(st.tk, st.job.snapshots);
    TailKind(tail, EndsInsideTick(es) && !tolerateOpenTail);
    if Good(es, |es|) {
      CancelFindings(es);
      BudgetFindings(es);
      UnmeasuredFindings(es);
      InOverruns(st.tk, overruns, MissingDeadline);
      InOverruns(st.tk, overruns, BudgetNotEvaluable);
      InOverruns(st.tk, overruns, MissingCancelAfterDeadline);
      forall c: Code | Late(c) && c != MissingTickEnd
        ensures c in codes <==> c in overruns || c in CancelReport(st.tk, st.job.snapshots)
      {
        InFour(c, st.codes, tail, overruns, CancelReport(st.tk, st.job.snapshots));
      }
    }
  }

  lemma TailKind(tail: seq<Code>, b: bool)
    requires tail == When(b, MissingTickEnd)
    ensures forall c: Code :: c in tail ==> c == MissingTickEnd
  {
  }

  lemma InFour(c: Code, a: seq<Code>, b: seq<Code>, d: seq<Code>, e: seq<Code>)
    requires c !in b && NoneLate(a) && Late(c)
    ensures c in a + b + d + e <==> c in d || c in e
  {
  }

  lemma CancelFindings(es: Log)
    requires Good(es, |es|)
    ensures CancelsPass(Run(es, |es|).tk, Run(es, |es|).job.snapshots) <==> DeadlinesCancel(es)
  {
    hide Run, Good, CancelsPass, DeadlinesCancel, TickKnows, AsyncKnows, SeqKnows, ExitKnows, SeqsIncrease;
    hide TicksBracketed, ExitsUnique, AsyncSound;
    RunKnows(es, |es|);
    GoodIsSpec(es);
    CancelsDecide(Run(es, |es|).tk, Run(es, |es|).job, es);
  }
}
