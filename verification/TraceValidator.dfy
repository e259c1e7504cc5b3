/**
  `validate_trace` of tools/trace_validator.py: one pass over the events with four independent pieces
  of state, then two passes over what the first one recorded.
 */
module TraceValidator {
  import opened Values
  import opened TraceEvents

  datatype Code =
    | MissingSeq | DuplicateSeq | NonMonotonicSeq
    | MissingTickId | DuplicateTickBegin | OverlappingTicks | DuplicateTickId
    | DuplicateTickEnd | MissingTickBegin | OutsideDelimiters | MissingTickEnd
    | DuplicateTerminalExit
    | AckWithoutRequest | TerminalWithoutSubmit
    | BudgetNotEvaluable | MissingDeadline | MissingCancelAfterDeadline

  /** Every code is an error except the note that a budget could not be checked. */
  predicate IsError(c: Code) {
    !c.BudgetNotEvaluable?
  }

  predicate NoErrors(cs: seq<Code>) {
    forall i :: 0 <= i < |cs| ==> !IsError(cs[i])
  }

  // ----- sequence numbers -----

  datatype SeqState = SeqState(seen: set<int>, last: Option<int>)

  function CheckSeq(s: SeqState, e: Event): (SeqState, seq<Code>) {
    if e.seqNo.None? then (s, [MissingSeq])
    else
      var n := e.seqNo.value;
      (SeqState(s.seen + {n}, Some(n)),
       (if n in s.seen then [DuplicateSeq] else [])
       + (if s.last.Some? && n <= s.last.value then [NonMonotonicSeq] else []))
  }

  // ----- ticks -----

  datatype Record = Record(end: Option<Event>, events: seq<Event>)

  datatype TickState = TickState(open: Option<TickId>, completed: set<TickId>, records: map<TickId, Record>)

  function OnTickBegin(s: TickState, e: Event): (TickState, seq<Code>) {
    if e.tick.None? then (s, [MissingTickId])
    else
      var t := e.tick.value;
      (TickState(Some(t), s.completed, s.records[t := Record(None, [e])]),
       (if s.open.Some? then [if s.open.value == t then DuplicateTickBegin else OverlappingTicks] else [])
       + (if t in s.completed then [DuplicateTickId] else []))
  }

  function OnTickEnd(s: TickState, e: Event): (TickState, seq<Code>) {
    if e.tick.None? then (s, [MissingTickId])
    else
      var t := e.tick.value;
      if s.open.None? then (s, [if t in s.completed then DuplicateTickEnd else MissingTickBegin])
      else if s.open.value != t then (s, [OutsideDelimiters])
      else
        (TickState(None, s.completed + {t},
                   if t in s.records then s.records[t := Record(Some(e), s.records[t].events + [e])] else s.records),
         [])
  }

  function OnTicked(s: TickState, e: Event): (TickState, seq<Code>) {
    if e.tick.None? then (s, [])
    else
      var t := e.tick.value;
      if s.open.None? || s.open.value != t then (s, [OutsideDelimiters])
      else if t in s.records then
        (s.(records := s.records[t := s.records[t].(events := s.records[t].events + [e])]), [])
      else (s, [])
  }

  function CheckTick(s: TickState, e: Event): (TickState, seq<Code>) {
    if e.kind.TickBegin? then OnTickBegin(s, e)
    else if e.kind.TickEnd? then OnTickEnd(s, e)
    else OnTicked(s, e)
  }

  // ----- terminal node exits -----

  const TERMINAL_NODE_STATUSES := {"success", "failure"}

  predicate EndsNode(e: Event) {
    && e.kind.NodeExit? && e.tick.Some? && e.node.Some?
    && e.status.Some? && e.status.value in TERMINAL_NODE_STATUSES
  }

  function CheckExit(s: multiset<(TickId, int)>, e: Event): (multiset<(TickId, int)>, seq<Code>) {
    if !EndsNode(e) then (s, [])
    else
      var key := (e.tick.value, e.node.value);
      (s + multiset{key}, if s[key] + 1 > 1 then [DuplicateTerminalExit] else [])
  }

  // ----- asynchronous jobs -----

  const TERMINAL_VLA_STATUSES := {"done", "cancelled", "error", "timeout"}

  predicate EndsJob(e: Event) {
    && e.job.Some?
    && (if e.kind.VlaPoll? then e.status.Some? && e.status.value in TERMINAL_VLA_STATUSES
        else e.kind.VlaResult? || e.kind.CompletionDropped?)
  }

  datatype JobState = JobState(submitSeq: Option<int>, requestSeq: Option<int>)

  datatype Snapshot = Snapshot(tick: TickId, seqNo: Option<int>, active: set<string>)

  datatype AsyncState = AsyncState(active: set<string>, jobs: map<string, JobState>, snapshots: seq<Snapshot>)

  function JobOf(s: AsyncState, job: string): JobState {
    if job in s.jobs then s.jobs[job] else JobState(None, None)
  }

  function CheckAsync(s: AsyncState, e: Event): (AsyncState, seq<Code>) {
    if e.kind.VlaSubmit? && e.job.Some? then
      (s.(active := s.active + {e.job.value}, jobs := s.jobs[e.job.value := JobState(e.seqNo, None)]), [])
    else if e.kind.DeadlineExceeded? && e.tick.Some? then
      (s.(snapshots := s.snapshots + [Snapshot(e.tick.value, e.seqNo, s.active)]), [])
    else if e.kind.CancelRequested? && e.job.Some? then
      (s.(jobs := s.jobs[e.job.value := JobOf(s, e.job.value).(requestSeq := e.seqNo)]), [])
    else if e.kind.CancelAcknowledged? && e.job.Some? then
      var j := JobOf(s, e.job.value);
      (s.(active := if e.accepted == Some(true) then s.active - {e.job.value} else s.active,
          jobs := s.jobs[e.job.value := j]),
       if j.requestSeq.None? then [AckWithoutRequest] else [])
    else if EndsJob(e) then
      var j := JobOf(s, e.job.value);
      (s.(active := s.active - {e.job.value}, jobs := s.jobs[e.job.value := j]),
       if j.submitSeq.None? then [TerminalWithoutSubmit] else [])
    else (s, [])
  }

  // ----- the pass -----

  datatype State = State(sq: SeqState, tk: TickState, ex: multiset<(TickId, int)>, job: AsyncState, codes: seq<Code>)

  const INIT := State(SeqState({}, None), TickState(None, {}, map[]), multiset{}, AsyncState({}, map[], []), [])

  function Step(s: State, e: Event): State {
    var (sq, c1) := CheckSeq(s.sq, e);
    var (tk, c2) := CheckTick(s.tk, e);
    if e.kind.TickBegin? || e.kind.TickEnd? then State(sq, tk, s.ex, s.job, s.codes + c1 + c2)
    else
      var (ex, c3) := CheckExit(s.ex, e);
      var (job, c4) := CheckAsync(s.job, e);
      State(sq, tk, ex, job, s.codes + c1 + c2 + c3 + c4)
  }

  /** The state after the first n events. */
  function Run(es: Log, n: nat): State
    requires n <= |es|
  {
    if n == 0 then INIT else Step(Run(es, n - 1), es[n - 1])
  }

  // ----- each check against its part of the specification -----

  /** The validator's status sets hold what the specification calls the end of a node's run and of a job. */
  lemma EndsAreTerminal(e: Event)
    ensures EndsNode(e) <==> IsTerminalExit(e)
    ensures EndsJob(e) <==> IsTerminal(e)
  {
  }

  predicate SeqOkAt(es: Log, n: nat)
    requires n < |es|
  {
    es[n].seqNo.Some? && forall i :: 0 <= i < n ==> es[i].seqNo.Some? && es[i].seqNo.value < es[n].seqNo.value
  }

  predicate SeqsOk(es: Log, n: nat)
    requires n <= |es|
  {
    forall i :: 0 <= i < n ==> SeqOkAt(es, i)
  }

  predicate SeqKnows(s: SeqState, es: Log, n: nat)
    requires n <= |es|
  {
    && (forall i :: 0 <= i < n ==> es[i].seqNo.Some? && es[i].seqNo.value in s.seen)
    && (forall x <- s.seen :: s.last.Some? && x <= s.last.value)
    && (s.last.Some? ==> n > 0 && es[n - 1].seqNo == s.last)
    && (s.last.None? ==> n == 0)
  }

  lemma {:induction false} SeqStep(s: SeqState, es: Log, n: nat)
    requires n < |es| && SeqKnows(s, es, n) && SeqsOk(es, n)
    ensures CheckSeq(s, es[n]).1 == [] <==> SeqOkAt(es, n)
    ensures SeqOkAt(es, n) ==> SeqKnows(CheckSeq(s, es[n]).0, es, n + 1)
  {
    if n > 0 && es[n].seqNo.Some? && s.last.Some? && s.last.value < es[n].seqNo.value {
      forall i | 0 <= i < n
        ensures es[i].seqNo.value < es[n].seqNo.value
      {
        assert es[i].seqNo.value in s.seen;
      }
    }
    if n > 0 && SeqOkAt(es, n) {
      assert es[n - 1].seqNo.value < es[n].seqNo.value;
    }
  }

  // ticks

  /** A tick's events seen so far: those carrying its number. */
  function WithTick(es: Log, n: nat, t: TickId): seq<Event>
    requires n <= |es|
  {
    if n == 0 then []
    else WithTick(es, n - 1, t) + (if es[n - 1].tick == Some(t) then [es[n - 1]] else [])
  }

  predicate Begun(es: Log, n: nat, t: TickId)
    requires n <= |es|
  {
    exists b: nat :: b < n && es[b].kind.TickBegin? && es[b].tick == Some(t)
  }

  predicate OpenNow(es: Log, n: nat, t: TickId)
    requires n <= |es|
  {
    exists b: nat :: b < n && Opens(es, b, n) && es[b].tick == Some(t)
  }

  predicate TicksOk(es: Log, n: nat)
    requires n <= |es|
  {
    forall i: nat :: i < n ==> PlacedWell(es, i)
  }

  /** An event that ended a tick is the end its record holds. */
  predicate EndRecorded(s: TickState, e: Event) {
    e.kind.TickEnd? ==> e.tick.Some? && e.tick.value in s.records && s.records[e.tick.value].end == Some(e)
  }

  predicate Ended(es: Log, n: nat, t: TickId, end: Event)
    requires n <= |es|
  {
    end.kind.TickEnd? && end.tick == Some(t) && exists e: nat :: e < n && es[e] == end
  }

  predicate KnowsTick(s: TickState, es: Log, n: nat, t: TickId)
    requires n <= |es|
  {
    && (s.open == Some(t) <==> OpenNow(es, n, t))
    && (t in s.records <==> Begun(es, n, t))
    && (t in s.completed <==> Begun(es, n, t) && !OpenNow(es, n, t))
    && (t in s.records ==>
          && s.records[t].events == WithTick(es, n, t)
          && (s.records[t].end.Some? <==> t in s.completed)
          && (s.records[t].end.Some? ==> Ended(es, n, t, s.records[t].end.value)))
    && (!Begun(es, n, t) ==> WithTick(es, n, t) == [])
  }

  /** While all is well, the state is the story so far. */
  ghost predicate TickKnows(s: TickState, es: Log, n: nat)
    requires n <= |es|
  {
    && (forall t: TickId :: KnowsTick(s, es, n, t))
    && (forall i :: 0 <= i < n ==> EndRecorded(s, es[i]))
  }

  lemma BegunNext(es: Log, n: nat, t: TickId)
    requires n < |es|
    ensures Begun(es, n + 1, t) <==> Begun(es, n, t) || (es[n].kind.TickBegin? && es[n].tick == Some(t))
  {
  }

  lemma OpenNext(es: Log, n: nat, t: TickId)
    requires n < |es|
    ensures !IsDelimiter(es[n]) ==> (OpenNow(es, n + 1, t) <==> OpenNow(es, n, t))
    ensures es[n].kind.TickEnd? ==> !OpenNow(es, n + 1, t)
    ensures es[n].kind.TickBegin? ==> (OpenNow(es, n + 1, t) <==> es[n].tick == Some(t))
  {
    if es[n].kind.TickBegin? && es[n].tick == Some(t) {
      assert Opens(es, n, n + 1);
    }
    if !IsDelimiter(es[n]) {
      if OpenNow(es, n, t) {
        var b: nat :| b < n && Opens(es, b, n) && es[b].tick == Some(t);
        assert Opens(es, b, n + 1);
      }
      if OpenNow(es, n + 1, t) {
        var b: nat :| b < n + 1 && Opens(es, b, n + 1) && es[b].tick == Some(t);
        assert Opens(es, b, n);
      }
    }
  }

  lemma OpenIsBegun(es: Log, n: nat, t: TickId)
    requires n <= |es| && OpenNow(es, n, t)
    ensures Begun(es, n, t)
  {
  }

  lemma {:induction false} WithTickNext(es: Log, n: nat, t: TickId)
    requires n < |es|
    ensures es[n].tick != Some(t) ==> WithTick(es, n + 1, t) == WithTick(es, n, t)
    ensures es[n].tick == Some(t) ==> WithTick(es, n + 1, t) == WithTick(es, n, t) + [es[n]]
  {
  }

  /** No begun tick lacks a number while all is well, so no open tick is missed by OpenNow. */
  lemma OpenHasTick(es: Log, n: nat, b: nat)
    requires n <= |es| && TicksOk(es, n) && b < n && Opens(es, b, n)
    ensures es[b].tick.Some? && OpenNow(es, n, es[b].tick.value)
  {
    assert PlacedWell(es, b);
  }

  lemma {:induction false} OwnTickOpenNow(es: Log, n: nat)
    requires n < |es| && es[n].tick.Some?
    ensures OwnTickOpen(es, n) <==> OpenNow(es, n, es[n].tick.value)
  {
  }

  lemma OpenIsSeen(s: TickState, es: Log, n: nat, b: nat)
    requires n <= |es| && TickKnows(s, es, n) && TicksOk(es, n) && b < n && Opens(es, b, n)
    ensures s.open == es[b].tick && s.open.Some?
  {
    OpenHasTick(es, n, b);
    assert KnowsTick(s, es, n, es[b].tick.value);
  }

  lemma {:induction false} BeginVerdict(s: TickState, es: Log, n: nat)
    requires n < |es| && TickKnows(s, es, n) && TicksOk(es, n) && es[n].kind.TickBegin?
    ensures OnTickBegin(s, es[n]).1 == [] <==> PlacedWell(es, n)
  {
    if es[n].tick.Some? {
      var t := es[n].tick.value;
      assert KnowsTick(s, es, n, t);
      if s.open.None? {
        forall b: nat | b < n
          ensures !Opens(es, b, n)
        {
          if Opens(es, b, n) {
            OpenIsSeen(s, es, n, b);
          }
        }
      } else {
        assert KnowsTick(s, es, n, s.open.value);
      }
    }
  }

  lemma {:induction false} EndedNext(es: Log, n: nat, t: TickId, end: Event)
    requires n < |es|
    ensures Ended(es, n, t, end) ==> Ended(es, n + 1, t, end)
    ensures es[n].kind.TickEnd? && es[n].tick == Some(t) ==> Ended(es, n + 1, t, es[n])
  {
  }

  lemma {:induction false} BeginKnows(s: TickState, es: Log, n: nat, t: TickId)
    requires n < |es| && KnowsTick(s, es, n, t) && es[n].kind.TickBegin? && BeginsWell(es, n)
    requires !OpenNow(es, n, t) && !Begun(es, n, es[n].tick.value)
    ensures KnowsTick(OnTickBegin(s, es[n]).0, es, n + 1, t)
  {
    hide OpenNow, Begun, WithTick, Ended, BeginsWell;
    BegunNext(es, n, t);
    OpenNext(es, n, t);
    WithTickNext(es, n, t);
    if t in s.records && s.records[t].end.Some? {
      EndedNext(es, n, t, s.records[t].end.value);
    }
  }

  lemma {:induction false} EndKnows(s: TickState, es: Log, n: nat, t: TickId)
    requires n < |es| && KnowsTick(s, es, n, t) && es[n].kind.TickEnd? && es[n].tick == s.open && s.open.Some?
    requires OpenNow(es, n, t) ==> Begun(es, n, t)
    ensures KnowsTick(OnTickEnd(s, es[n]).0, es, n + 1, t)
  {
    hide OpenNow, Begun, WithTick, Ended;
    BegunNext(es, n, t);
    OpenNext(es, n, t);
    WithTickNext(es, n, t);
    EndedNext(es, n, t, es[n]);
    if t in s.records && s.records[t].end.Some? {
      EndedNext(es, n, t, s.records[t].end.value);
    }
  }

  lemma {:induction false} TickedKnows(s: TickState, es: Log, n: nat, t: TickId)
    requires n < |es| && KnowsTick(s, es, n, t) && !IsDelimiter(es[n])
    requires es[n].tick.Some? ==> es[n].tick == s.open
    requires OpenNow(es, n, t) ==> Begun(es, n, t)
    ensures KnowsTick(OnTicked(s, es[n]).0, es, n + 1, t)
  {
    hide OpenNow, Begun, WithTick, Ended;
    BegunNext(es, n, t);
    OpenNext(es, n, t);
    WithTickNext(es, n, t);
    if t in s.records && s.records[t].end.Some? {
      EndedNext(es, n, t, s.records[t].end.value);
    }
  }

  lemma {:induction false} NotBegun(es: Log, n: nat)
    requires n < |es| && BeginsWell(es, n)
    ensures !Begun(es, n, es[n].tick.value) && forall t: TickId :: !OpenNow(es, n, t)
  {
  }

  lemma {:induction false} TickStep(s: TickState, es: Log, n: nat)
    requires n < |es| && TickKnows(s, es, n) && TicksOk(es, n)
    ensures CheckTick(s, es[n]).1 == [] <==> PlacedWell(es, n)
    ensures PlacedWell(es, n) ==> TickKnows(CheckTick(s, es[n]).0, es, n + 1)
  {
    hide OpenNow, Begun, WithTick, Ended, KnowsTick, BeginsWell;
    var s2, m := CheckTick(s, es[n]).0, n + 1;
    if es[n].kind.TickBegin? {
      BeginVerdict(s, es, n);
      if PlacedWell(es, n) {
        NotBegun(es, n);
        forall t: TickId ensures KnowsTick(s2, es, m, t) {
          assert KnowsTick(s, es, n, t);
          BeginKnows(s, es, n, t);
        }
        EndsKept(s, s2, es, n);
      }
    } else {
      if es[n].tick.Some? {
        OwnTickOpenNow(es, n);
        OpenIsKnown(s, es, n, es[n].tick.value);
      }
      if PlacedWell(es, n) {
        forall t: TickId ensures KnowsTick(s2, es, m, t) {
          assert KnowsTick(s, es, n, t);
          if OpenNow(es, n, t) {
            OpenIsBegun(es, n, t);
          }
          if es[n].kind.TickEnd? {
            EndKnows(s, es, n, t);
          } else {
            TickedKnows(s, es, n, t);
          }
        }
        EndsKept(s, s2, es, n);
      }
    }
  }

  lemma OpenIsKnown(s: TickState, es: Log, n: nat, t: TickId)
    requires n <= |es| && TickKnows(s, es, n)
    ensures OpenNow(es, n, t) <==> s.open == Some(t)
  {
    assert KnowsTick(s, es, n, t);
  }

  /** The ends already recorded stay, because an ended tick is neither begun nor ended again. */
  lemma {:induction false} EndsKept(s: TickState, s2: TickState, es: Log, n: nat)
    requires n < |es| && TickKnows(s, es, n) && s2 == CheckTick(s, es[n]).0 && PlacedWell(es, n)
    ensures forall i :: 0 <= i < n + 1 ==> EndRecorded(s2, es[i])
  {
    hide WithTick;
    if es[n].kind.TickBegin? {
      NotBegun(es, n);
      assert KnowsTick(s, es, n, es[n].tick.value);
    } else if es[n].tick.Some? {
      OwnTickOpenNow(es, n);
      OpenIsBegun(es, n, es[n].tick.value);
      assert KnowsTick(s, es, n, es[n].tick.value);
    }
    forall i | 0 <= i < n + 1
      ensures EndRecorded(s2, es[i])
    {
      if i < n {
        assert EndRecorded(s, es[i]);
      }
    }
  }

  // exits

  predicate ExitOkAt(es: Log, n: nat)
    requires n < |es|
  {
    forall i :: 0 <= i < n && IsTerminalExit(es[i]) && IsTerminalExit(es[n]) ==>
      !(es[i].tick == es[n].tick && es[i].node == es[n].node)
  }

  predicate SameExit(e: Event, key: (TickId, int)) {
    IsTerminalExit(e) && (e.tick.value, e.node.value) == key
  }

  ghost predicate ExitKnows(s: multiset<(TickId, int)>, es: Log, n: nat)
    requires n <= |es|
  {
    forall key: (TickId, int) :: key in s <==> exists i :: 0 <= i < n && SameExit(es[i], key)
  }

  lemma {:induction false} ExitStep(s: multiset<(TickId, int)>, es: Log, n: nat)
    requires n < |es| && ExitKnows(s, es, n)
    ensures CheckExit(s, es[n]).1 == [] <==> ExitOkAt(es, n)
    ensures ExitKnows(CheckExit(s, es[n]).0, es, n + 1)
  {
    hide EndsNode;
    EndsAreTerminal(es[n]);
    if IsTerminalExit(es[n]) {
      var mine := (es[n].tick.value, es[n].node.value);
      assert SameExit(es[n], mine);
      if mine !in s {
        forall i | 0 <= i < n && IsTerminalExit(es[i])
          ensures !(es[i].tick == es[n].tick && es[i].node == es[n].node)
        {
          assert !SameExit(es[i], mine);
        }
      }
    }
    var s2 := CheckExit(s, es[n]).0;
    forall key: (TickId, int)
      ensures key in s2 <==> exists i :: 0 <= i < n + 1 && SameExit(es[i], key)
    {
      if key in s2 && key in s {
        var i :| 0 <= i < n && SameExit(es[i], key);
      }
    }
  }

  // jobs

  ghost predicate KnowsJob(s: AsyncState, es: Log, n: nat, job: string)
    requires n <= |es|
  {
    && (job in s.active <==> ActiveAt(es, n, job))
    && (JobOf(s, job).requestSeq.Some? <==> RequestedBefore(es, n, job))
    && (JobOf(s, job).submitSeq.Some? <==> SubmittedBefore(es, n, job))
  }

  /** The active jobs recorded with the deadline event at d. */
  ghost predicate SnapshotOf(p: Snapshot, es: Log, d: nat)
    requires d < |es|
  {
    && es[d].kind.DeadlineExceeded? && es[d].tick == Some(p.tick) && es[d].seqNo == p.seqNo
    && forall job: string :: job in p.active <==> ActiveAt(es, d, job)
  }

  ghost predicate Snapped(s: AsyncState, es: Log, d: nat)
    requires d < |es|
  {
    es[d].kind.DeadlineExceeded? && es[d].tick.Some? ==>
      exists k :: 0 <= k < |s.snapshots| && SnapshotOf(s.snapshots[k], es, d)
  }

  ghost predicate Taken(p: Snapshot, es: Log, n: nat)
    requires n <= |es|
  {
    exists d: nat :: d < n && SnapshotOf(p, es, d)
  }

  ghost predicate AsyncKnows(s: AsyncState, es: Log, n: nat)
    requires n <= |es|
  {
    && (forall job: string :: KnowsJob(s, es, n, job))
    && (forall d: nat :: d < n ==> Snapped(s, es, d))
    && (forall k :: 0 <= k < |s.snapshots| ==> Taken(s.snapshots[k], es, n))
  }

  lemma ActiveNext(es: Log, n: nat, job: string)
    requires n < |es|
    ensures ActiveAt(es, n + 1, job) <==> IsSubmit(es[n], job) || (ActiveAt(es, n, job) && !Releases(es[n], job))
  {
    if ActiveAt(es, n, job) && !Releases(es[n], job) {
      var s: nat :| s < n && IsSubmit(es[s], job) && forall k :: s < k < n ==> !Releases(es[k], job);
      assert forall k :: s < k < n + 1 ==> !Releases(es[k], job);
    }
    if ActiveAt(es, n + 1, job) && !IsSubmit(es[n], job) {
      var s: nat :| s < n + 1 && IsSubmit(es[s], job) && forall k :: s < k < n + 1 ==> !Releases(es[k], job);
      assert s < n && forall k :: s < k < n ==> !Releases(es[k], job);
    }
  }

  lemma RequestedNext(es: Log, n: nat, job: string)
    requires n < |es|
    ensures RequestedBefore(es, n + 1, job)
            <==> IsRequest(es[n], job) || (RequestedBefore(es, n, job) && !IsSubmit(es[n], job))
  {
    if RequestedBefore(es, n, job) && !IsSubmit(es[n], job) {
      var r: nat :| r < n && IsRequest(es[r], job) && forall k :: r < k < n ==> !IsSubmit(es[k], job);
      assert forall k :: r < k < n + 1 ==> !IsSubmit(es[k], job);
    }
    if RequestedBefore(es, n + 1, job) && !IsRequest(es[n], job) {
      var r: nat :| r < n + 1 && IsRequest(es[r], job) && forall k :: r < k < n + 1 ==> !IsSubmit(es[k], job);
      assert r < n && forall k :: r < k < n ==> !IsSubmit(es[k], job);
    }
  }

  lemma SubmittedNext(es: Log, n: nat, job: string)
    requires n < |es|
    ensures SubmittedBefore(es, n + 1, job) <==> IsSubmit(es[n], job) || SubmittedBefore(es, n, job)
  {
  }

  lemma {:induction false} JobStep(s: AsyncState, es: Log, n: nat, job: string)
    requires n < |es| && es[n].seqNo.Some? && KnowsJob(s, es, n, job) && !IsDelimiter(es[n])
    ensures KnowsJob(CheckAsync(s, es[n]).0, es, n + 1, job)
  {
    hide ActiveAt, RequestedBefore, SubmittedBefore, EndsJob;
    EndsAreTerminal(es[n]);
    ActiveNext(es, n, job);
    RequestedNext(es, n, job);
    SubmittedNext(es, n, job);
  }

  lemma {:induction false} JobSkip(s: AsyncState, es: Log, n: nat, job: string)
    requires n < |es| && KnowsJob(s, es, n, job) && IsDelimiter(es[n])
    ensures KnowsJob(s, es, n + 1, job)
  {
    hide ActiveAt, RequestedBefore, SubmittedBefore;
    ActiveNext(es, n, job);
    RequestedNext(es, n, job);
    SubmittedNext(es, n, job);
  }

  lemma {:induction false} SnapshotsNext(s: AsyncState, es: Log, n: nat)
    requires n < |es| && AsyncKnows(s, es, n)
    ensures
      var s2 := if IsDelimiter(es[n]) then s else CheckAsync(s, es[n]).0;
      && (forall d: nat :: d < n + 1 ==> Snapped(s2, es, d))
      && (forall k :: 0 <= k < |s2.snapshots| ==> Taken(s2.snapshots[k], es, n + 1))
  {
    hide ActiveAt, RequestedBefore, SubmittedBefore;
    var s2 := if IsDelimiter(es[n]) then s else CheckAsync(s, es[n]).0;
    if es[n].kind.DeadlineExceeded? && es[n].tick.Some? {
      var p := Snapshot(es[n].tick.value, es[n].seqNo, s.active);
      assert SnapshotOf(p, es, n) by {
        forall job: string
          ensures job in p.active <==> ActiveAt(es, n, job)
        {
          assert KnowsJob(s, es, n, job);
        }
      }
      assert s2.snapshots == s.snapshots + [p];
      assert s2.snapshots[|s.snapshots|] == p;
    } else {
      assert s2.snapshots == s.snapshots;
    }
    forall d: nat | d < n + 1
      ensures Snapped(s2, es, d)
    {
      if d < n {
        assert Snapped(s, es, d);
        if es[d].kind.DeadlineExceeded? && es[d].tick.Some? {
          var k :| 0 <= k < |s.snapshots| && SnapshotOf(s.snapshots[k], es, d);
          assert s2.snapshots[k] == s.snapshots[k];
        }
      }
    }
    forall k | 0 <= k < |s2.snapshots|
      ensures Taken(s2.snapshots[k], es, n + 1)
    {
      if k < |s.snapshots| {
        assert Taken(s.snapshots[k], es, n);
      }
    }
  }

  lemma {:induction false} AsyncStep(s: AsyncState, es: Log, n: nat)
    requires n < |es| && AsyncKnows(s, es, n)
    requires es[n].seqNo.Some?
    ensures !IsDelimiter(es[n]) ==> (CheckAsync(s, es[n]).1 == [] <==> AsyncOrdered(es, n))
    ensures IsDelimiter(es[n]) ==> AsyncOrdered(es, n)
    ensures AsyncKnows(if IsDelimiter(es[n]) then s else CheckAsync(s, es[n]).0, es, n + 1)
  {
    hide ActiveAt, RequestedBefore, SubmittedBefore, Snapped, Taken, EndsJob;
    EndsAreTerminal(es[n]);
    var s2, m := if IsDelimiter(es[n]) then s else CheckAsync(s, es[n]).0, n + 1;
    if es[n].job.Some? {
      assert KnowsJob(s, es, n, es[n].job.value);
    }
    forall job: string
      ensures KnowsJob(s2, es, m, job)
    {
      assert KnowsJob(s, es, n, job);
      if IsDelimiter(es[n]) {
        JobSkip(s, es, n, job);
      } else {
        JobStep(s, es, n, job);
      }
    }
    SnapshotsNext(s, es, n);
  }

  // ----- the whole pass -----

  predicate GoodAt(es: Log, i: nat)
    requires i < |es|
  {
    SeqOkAt(es, i) && PlacedWell(es, i) && ExitOkAt(es, i) && AsyncOrdered(es, i)
  }

  predicate Good(es: Log, n: nat)
    requires n <= |es|
  {
    forall i: nat :: i < n ==> GoodAt(es, i)
  }

  ghost predicate Knows(s: State, es: Log, n: nat)
    requires n <= |es|
  {
    SeqKnows(s.sq, es, n) && TickKnows(s.tk, es, n) && ExitKnows(s.ex, es, n) && AsyncKnows(s.job, es, n)
  }

  predicate AllErrors(cs: seq<Code>) {
    forall i :: 0 <= i < |cs| ==> IsError(cs[i])
  }

  lemma NoErrorsConcat(a: seq<Code>, b: seq<Code>)
    ensures NoErrors(a + b) <==> NoErrors(a) && NoErrors(b)
    ensures AllErrors(b) ==> (NoErrors(a + b) <==> NoErrors(a) && b == [])
  {
    if b != [] {
      assert (a + b)[|a|] == b[0];
    }
    assert b == [] ==> a + b == a;
    if NoErrors(a + b) {
      forall i | 0 <= i < |b|
        ensures !IsError(b[i])
      {
        assert (a + b)[|a| + i] == b[i];
      }
      forall i | 0 <= i < |a|
        ensures !IsError(a[i])
      {
        assert (a + b)[i] == a[i];
      }
    }
  }

  lemma ChecksReportErrors(s: State, e: Event)
    ensures AllErrors(CheckSeq(s.sq, e).1) && AllErrors(CheckTick(s.tk, e).1)
    ensures AllErrors(CheckExit(s.ex, e).1) && AllErrors(CheckAsync(s.job, e).1)
  {
  }

  /** A step adds no error exactly when none of its checks reports anything. */
  lemma {:induction false} StepCodes(s: State, e: Event)
    ensures NoErrors(Step(s, e).codes) <==>
              && NoErrors(s.codes)
              && CheckSeq(s.sq, e).1 == [] && CheckTick(s.tk, e).1 == []
              && (IsDelimiter(e) || (CheckExit(s.ex, e).1 == [] && CheckAsync(s.job, e).1 == []))
  {
    hide CheckSeq, CheckTick, CheckExit, CheckAsync, NoErrors, AllErrors;
    ChecksReportErrors(s, e);
    var c1, c2, c3, c4 := CheckSeq(s.sq, e).1, CheckTick(s.tk, e).1, CheckExit(s.ex, e).1, CheckAsync(s.job, e).1;
    NoErrorsConcat(s.codes, c1);
    NoErrorsConcat(s.codes + c1, c2);
    NoErrorsConcat(s.codes + c1 + c2, c3);
    NoErrorsConcat(s.codes + c1 + c2 + c3, c4);
  }

  lemma {:induction false} StartKnows(es: Log)
    ensures Knows(INIT, es, 0) && NoErrors(INIT.codes)
  {
    assert forall t: TickId :: KnowsTick(INIT.tk, es, 0, t);
    assert forall job: string :: KnowsJob(INIT.job, es, 0, job);
  }

  /**
    The one-pass state machine: no error so far exactly when the log so far is good, and then the state tells its
    story.
   */
  lemma {:induction false} RunKnows(es: Log, n: nat)
    requires n <= |es|
    ensures NoErrors(Run(es, n).codes) <==> Good(es, n)
    ensures Good(es, n) ==> Knows(Run(es, n), es, n)
    decreases n
  {
    hide Step, NoErrors, Knows, GoodAt;
    if n == 0 {
      StartKnows(es);
    } else {
      RunKnows(es, n - 1);
      StepKnows(Run(es, n - 1), es, n - 1);
    }
  }

  lemma {:induction false} StepKnows(s: State, es: Log, n: nat)
    requires n < |es|
    requires NoErrors(s.codes) <==> Good(es, n)
    requires Good(es, n) ==> Knows(s, es, n)
    ensures NoErrors(Step(s, es[n]).codes) <==> Good(es, n + 1)
    ensures Good(es, n + 1) ==> Knows(Step(s, es[n]), es, n + 1)
  {
    hide CheckSeq, CheckTick, CheckExit, CheckAsync, NoErrors, SeqKnows, TickKnows, ExitKnows, AsyncKnows,
         SeqOkAt, PlacedWell, ExitOkAt, AsyncOrdered;
    StepCodes(s, es[n]);
    GoodNext(es, n);
    if Good(es, n) {
      GoodParts(es, n);
      SeqStep(s.sq, es, n);
      TickStep(s.tk, es, n);
      DelimiterExits(s.ex, es, n);
      ExitStep(s.ex, es, n);
      if SeqOkAt(es, n) {
        SeqPresent(es, n);
        AsyncStep(s.job, es, n);
      }
    }
  }

  lemma SeqPresent(es: Log, n: nat)
    requires n < |es| && SeqOkAt(es, n)
    ensures es[n].seqNo.Some?
  {
  }

  lemma GoodNext(es: Log, n: nat)
    requires n < |es|
    ensures Good(es, n + 1) <==> Good(es, n) && GoodAt(es, n)
  {
  }

  lemma GoodParts(es: Log, n: nat)
    requires n <= |es| && Good(es, n)
    ensures SeqsOk(es, n) && TicksOk(es, n)
  {
    forall i: nat | i < n
      ensures SeqOkAt(es, i) && PlacedWell(es, i)
    {
      assert GoodAt(es, i);
    }
  }

  lemma DelimiterExits(s: multiset<(TickId, int)>, es: Log, n: nat)
    requires n < |es|
    ensures IsDelimiter(es[n]) ==> CheckExit(s, es[n]) == (s, [])
  {
  }

  lemma {:induction false} GoodIsSpec(es: Log)
    ensures Good(es, |es|) <==> SeqsIncrease(es) && TicksBracketed(es) && ExitsUnique(es) && AsyncSound(es)
  {
    if Good(es, |es|) {
      forall i: nat | i < |es|
        ensures SeqOkAt(es, i) && PlacedWell(es, i) && ExitOkAt(es, i) && AsyncOrdered(es, i)
      {
        assert GoodAt(es, i);
      }
      forall i: nat, j: nat | i < j < |es|
        ensures es[i].seqNo.Some? && es[j].seqNo.Some? && es[i].seqNo.value < es[j].seqNo.value
        ensures IsTerminalExit(es[i]) && IsTerminalExit(es[j]) ==>
            !(es[i].tick == es[j].tick && es[i].node == es[j].node)
      {
        assert SeqOkAt(es, j) && ExitOkAt(es, j);
      }
      forall i: nat | i < |es|
        ensures es[i].seqNo.Some?
      {
        assert SeqOkAt(es, i);
      }
      assert SeqsIncrease(es);
      assert TicksBracketed(es);
      assert ExitsUnique(es);
      assert AsyncSound(es);
    }
    if SeqsIncrease(es) && TicksBracketed(es) && ExitsUnique(es) && AsyncSound(es) {
      forall i: nat | i < |es|
        ensures GoodAt(es, i)
      {
        assert PlacedWell(es, i) && AsyncOrdered(es, i);
      }
    }
  }

  // ----- after the pass -----

  predicate HasDeadline(r: Record) {
    exists i :: 0 <= i < |r.events| && r.events[i].kind.DeadlineExceeded?
  }

  function OverrunCodes(r: Record): seq<Code> {
    if r.end.None? then []
    else if r.end.value.budgetMs.None? || r.end.value.elapsedMs.None? then
      if HasDeadline(r) then [] else [BudgetNotEvaluable]
    else if r.end.value.elapsedMs.value > r.end.value.budgetMs.value && !HasDeadline(r) then [MissingDeadline]
    else []
  }

  function CancelsAfter(events: seq<Event>, seqNo: Option<int>): set<string> {
    set e | e in events && e.kind.CancelRequested? && e.seqNo.Some? && seqNo.Some? && e.seqNo.value > seqNo.value
        && e.job.Some? :: e.job.value
  }

  /** A snapshot's over_budget: unless both times are known and the elapsed one is not above the budget. */
  predicate MayBeOver(end: Event) {
    end.budgetMs.None? || end.elapsedMs.None? || end.elapsedMs.value > end.budgetMs.value
  }

  function CancelCodes(tk: TickState, p: Snapshot): seq<Code> {
    if p.tick !in tk.completed || p.tick !in tk.records then []
    else
      var r := tk.records[p.tick];
      if r.end.None? || !MayBeOver(r.end.value) || p.active == {} then []
      else if p.active - CancelsAfter(r.events, p.seqNo) != {} then [MissingCancelAfterDeadline]
      else []
  }

  lemma {:induction false} WithTickHas(es: Log, n: nat, t: TickId, e: Event)
    requires n <= |es|
    ensures e in WithTick(es, n, t) <==> e.tick == Some(t) && exists i: nat :: i < n && es[i] == e
    decreases n
  {
    if n > 0 {
      WithTickHas(es, n - 1, t, e);
    }
  }

  ghost predicate OverrunsPass(tk: TickState) {
    forall t: TickId :: t in tk.completed && t in tk.records ==> NoErrors(OverrunCodes(tk.records[t]))
  }

  lemma {:induction false} HasDeadlineIs(tk: TickState, es: Log, t: TickId)
    requires KnowsTick(tk, es, |es|, t) && t in tk.records
    ensures HasDeadline(tk.records[t])
            <==> exists i: nat :: i < |es| && es[i].kind.DeadlineExceeded? && es[i].tick == Some(t)
  {
    var r := tk.records[t];
    if HasDeadline(r) {
      var i :| 0 <= i < |r.events| && r.events[i].kind.DeadlineExceeded?;
      WithTickHas(es, |es|, t, r.events[i]);
    }
    if i: nat :| i < |es| && es[i].kind.DeadlineExceeded? && es[i].tick == Some(t) {
      WithTickHas(es, |es|, t, es[i]);
    }
  }

  lemma {:induction false} OverrunsDecide(tk: TickState, es: Log)
    requires TickKnows(tk, es, |es|)
    ensures OverrunsPass(tk) <==> OverrunsReported(es)
  {
    if OverrunsPass(tk) {
      forall e: nat | e < |es|
        ensures OverrunReported(es, e)
      {
        if es[e].kind.TickEnd? && KnownOver(es[e]) {
          assert EndRecorded(tk, es[e]);
          var t := es[e].tick.value;
          assert KnowsTick(tk, es, |es|, t);
          HasDeadlineIs(tk, es, t);
          var cs := OverrunCodes(tk.records[t]);
          assert |cs| > 0 ==> IsError(cs[0]);
        }
      }
    }
    if OverrunsReported(es) {
      forall t: TickId | t in tk.completed && t in tk.records
        ensures NoErrors(OverrunCodes(tk.records[t]))
      {
        assert KnowsTick(tk, es, |es|, t);
        HasDeadlineIs(tk, es, t);
        var e: nat :| e < |es| && es[e] == tk.records[t].end.value;
        assert OverrunReported(es, e);
      }
    }
  }

  ghost predicate CancelsPass(tk: TickState, ps: seq<Snapshot>) {
    forall k :: 0 <= k < |ps| ==> CancelCodes(tk, ps[k]) == []
  }

  lemma {:induction false} CancelsAfterIs(tk: TickState, es: Log, p: Snapshot, d: nat, job: string)
    requires SeqsIncrease(es) && d < |es| && SnapshotOf(p, es, d)
    requires KnowsTick(tk, es, |es|, p.tick) && p.tick in tk.records
    ensures job in CancelsAfter(tk.records[p.tick].events, p.seqNo) <==> CancelledLater(es, d, job)
  {
    var events := tk.records[p.tick].events;
    if job in CancelsAfter(events, p.seqNo) {
      var e :| e in events && IsRequest(e, job) && e.seqNo.Some? && e.seqNo.value > p.seqNo.value;
      WithTickHas(es, |es|, p.tick, e);
      var i: nat :| i < |es| && es[i] == e;
      assert i > d;
    }
    if CancelledLater(es, d, job) {
      var i: nat :| d < i < |es| && IsRequest(es[i], job) && es[i].tick == es[d].tick;
      WithTickHas(es, |es|, p.tick, es[i]);
    }
  }

  /** One snapshot passes exactly when every job it lists is cancelled later in a tick that needs it. */
  lemma {:induction false} SnapshotDecides(tk: TickState, es: Log, p: Snapshot, d: nat)
    requires SeqsIncrease(es) && TickKnows(tk, es, |es|) && d < |es| && SnapshotOf(p, es, d)
    ensures CancelCodes(tk, p) == [] <==> forall e: nat :: e < |es| ==> DeadlineCancels(es, d, e)
  {
    assert KnowsTick(tk, es, |es|, p.tick);
    if p.tick in tk.completed && p.tick in tk.records && !KnownWithin(tk.records[p.tick].end.value) {
      var r := tk.records[p.tick];
      var end: nat :| end < |es| && es[end] == r.end.value;
      if CancelCodes(tk, p) == [] {
        forall job: string | ActiveAt(es, d, job)
          ensures CancelledLater(es, d, job)
        {
          assert job in p.active && job !in p.active - CancelsAfter(r.events, p.seqNo);
          CancelsAfterIs(tk, es, p, d, job);
        }
      } else {
        var job :| job in p.active - CancelsAfter(r.events, p.seqNo);
        CancelsAfterIs(tk, es, p, d, job);
        assert ActiveAt(es, d, job) && !CancelledLater(es, d, job);
        assert !DeadlineCancels(es, d, end);
      }
    } else {
      forall e: nat | e < |es|
        ensures DeadlineCancels(es, d, e)
      {
        assert EndRecorded(tk, es[e]);
      }
    }
  }

  lemma {:induction false} CancelsDecide(tk: TickState, job: AsyncState, es: Log)
    requires SeqsIncrease(es) && TickKnows(tk, es, |es|) && AsyncKnows(job, es, |es|)
    ensures CancelsPass(tk, job.snapshots) <==> DeadlinesCancel(es)
  {
    if CancelsPass(tk, job.snapshots) {
      forall d: nat, e: nat | d < |es| && e < |es|
        ensures DeadlineCancels(es, d, e)
      {
        if es[d].kind.DeadlineExceeded? && es[d].tick.Some? {
          assert Snapped(job, es, d);
          var k :| 0 <= k < |job.snapshots| && SnapshotOf(job.snapshots[k], es, d);
          SnapshotDecides(tk, es, job.snapshots[k], d);
        }
      }
    }
    if DeadlinesCancel(es) {
      forall k | 0 <= k < |job.snapshots|
        ensures CancelCodes(tk, job.snapshots[k]) == []
      {
        assert Taken(job.snapshots[k], es, |es|);
        var d: nat :| d < |es| && SnapshotOf(job.snapshots[k], es, d);
        SnapshotDecides(tk, es, job.snapshots[k], d);
      }
    }
  }

  lemma {:induction false} ClosedDecides(tk: TickState, es: Log)
    requires TickKnows(tk, es, |es|) && TicksOk(es, |es|)
    ensures tk.open.None? <==> TicksClosed(es)
  {
    if tk.open.Some? {
      assert KnowsTick(tk, es, |es|, tk.open.value);
    } else if b: nat :| b < |es| && Opens(es, b, |es|) {
      OpenIsSeen(tk, es, |es|, b);
    }
  }

  /** On every log the state holds the tick that is still pending, if any. */
  lemma {:induction false} OpenIsPending(es: Log, n: nat)
    requires n <= |es|
    ensures
      var open := Run(es, n).tk.open;
      if open.Some? then exists b: nat :: b < n && PendingFrom(es, b, n) && es[b].tick == open
      else forall b: nat :: b < n ==> !PendingFrom(es, b, n)
    decreases n
  {
    hide Step;
    if n > 0 {
      OpenIsPending(es, n - 1);
      StepOpen(Run(es, n - 1), es[n - 1]);
      var e, open := es[n - 1], Run(es, n - 1).tk.open;
      if e.kind.TickBegin? && e.tick.Some? {
        assert PendingFrom(es, n - 1, n);
      } else if open.Some? {
        var b: nat :| b < n - 1 && PendingFrom(es, b, n - 1) && es[b].tick == open;
        StillPending(es, b, n - 1);
      } else {
        forall b: nat | b < n
          ensures !PendingFrom(es, b, n)
        {
          PendingBack(es, b, n);
        }
      }
    }
  }

  lemma StepOpen(s: State, e: Event)
    ensures Step(s, e).tk.open
            == if e.kind.TickBegin? && e.tick.Some? then e.tick
               else if e.kind.TickEnd? && e.tick.Some? && s.tk.open == e.tick then None
               else s.tk.open
  {
    hide CheckSeq, CheckExit, CheckAsync;
  }

  lemma PendingBack(es: Log, b: nat, n: nat)
    requires 0 < n <= |es|
    ensures PendingFrom(es, b, n) ==> b == n - 1 || PendingFrom(es, b, n - 1)
  {
  }

  lemma StillPending(es: Log, b: nat, n: nat)
    requires n < |es| && PendingFrom(es, b, n) && !(es[n].kind.TickBegin? && es[n].tick.Some?)
    ensures var m := n + 1; PendingFrom(es, b, m) <==> !(es[n].kind.TickEnd? && es[n].tick == es[b].tick)
    ensures var m := n + 1; forall c: nat :: c < m && c != b ==> !PendingFrom(es, c, m)
  {
  }

  lemma OpenDecides(es: Log)
    ensures Run(es, |es|).tk.open.Some? <==> EndsInsideTick(es)
  {
    hide Run;
    OpenIsPending(es, |es|);
  }

  // ----- the validator -----

  /** The completed ticks whose budget check reports this. */
  function TicksWith(tk: TickState, c: Code): set<TickId> {
    set t | t in tk.completed && t in tk.records && OverrunCodes(tk.records[t]) == [c]
  }

  /** One finding for every completed tick that has one, in any order. */
  predicate OverrunReport(tk: TickState, codes: seq<Code>) {
    forall c: Code :: multiset(codes)[c] == |TicksWith(tk, c)|
  }

  /** One finding for every snapshot that has one, in the order of the deadlines. */
  function CancelReport(tk: TickState, ps: seq<Snapshot>): seq<Code> {
    if ps == [] then [] else CancelReport(tk, ps[..|ps| - 1]) + CancelCodes(tk, ps[|ps| - 1])
  }

  /** What is reported: the pass, an open tail, the budget checks and the cancellations, in this order. */
  ghost predicate Reports(es: Log, tolerateOpenTail: bool, codes: seq<Code>) {
    var st := Run(es, |es|);
    exists overruns: seq<Code> :: OverrunReport(st.tk, overruns)
      && codes == st.codes + (if EndsInsideTick(es) && !tolerateOpenTail then [MissingTickEnd] else [])
                  + overruns + CancelReport(st.tk, st.job.snapshots)
  }

  datatype Report = Report(passed: bool, truncated: bool, codes: seq<Code>)

  /** The validator passes a log exactly when it is well formed. */
  method ValidateTrace(es: Log, tolerateOpenTail: bool) returns (r: Report)
    ensures r.passed <==> WellFormed(es, tolerateOpenTail)
    ensures r.passed <==> NoErrors(r.codes)
    ensures r.truncated <==> tolerateOpenTail && EndsInsideTick(es)
    ensures Reports(es, tolerateOpenTail, r.codes)
  {
    hide Step, NoErrors, OverrunCodes, CancelCodes, WellFormed, Good, Knows, EndsInsideTick;
    hide CancelReport, OverrunReport;
    var st := INIT;
    var i := 0;
    while i < |es|
      invariant 0 <= i <= |es|
      invariant st == Run(es, i)
    {
      st := Step(st, es[i]);
      i := i + 1;
    }
    OpenDecides(es);
    var codes := st.codes;
    var truncated := false;
    if st.tk.open.Some? {
      if tolerateOpenTail {
        truncated := true;
      } else {
        codes := codes + [MissingTickEnd];
      }
    }
    var overruns := CheckOverruns(st.tk);
    var cancels := CheckCancels(st.tk, st.job.snapshots);
    Verdict(es, tolerateOpenTail, st, overruns, cancels);
    assert st.codes + [] == st.codes;
    codes := codes + overruns + cancels;
    var failed := AnyError(codes);
    r := Report(!failed, truncated, codes);
  }

  method AnyError(codes: seq<Code>) returns (found: bool)
    ensures found == !NoErrors(codes)
  {
    for i := 0 to |codes|
      invariant forall k :: 0 <= k < i ==> !IsError(codes[k])
    {
      if IsError(codes[i]) {
        return true;
      }
    }
    return false;
  }

  /** The pass over completed ticks; their order does not matter to the verdict. */
  method CheckOverruns(tk: TickState) returns (codes: seq<Code>)
    ensures NoErrors(codes) <==> OverrunsPass(tk)
    ensures OverrunReport(tk, codes)
  {
    hide OverrunCodes, OverrunReport;
    codes := [];
    var todo := tk.completed;
    NothingReported(tk);
    while todo != {}
      invariant todo <= tk.completed
      invariant NoErrors(codes) <==>
                  forall t: TickId :: t in tk.completed - todo && t in tk.records ==>
                      NoErrors(OverrunCodes(tk.records[t]))
      invariant OverrunReport(tk.(completed := tk.completed - todo), codes)
      decreases |todo|
    {
      var t: TickId :| t in todo;
      ghost var before := todo;
      todo := todo - {t};
      assert forall u: TickId :: u in tk.completed - todo <==> u in tk.completed - before || u == t;
      ReportNext(tk, before, t, codes);
      if t in tk.records {
        NoErrorsConcat(codes, OverrunCodes(tk.records[t]));
        codes := codes + OverrunCodes(tk.records[t]);
      }
    }
    assert tk.completed - todo == tk.completed;
    assert tk.(completed := tk.completed - todo) == tk;
  }

  lemma NothingReported(tk: TickState)
    ensures OverrunReport(tk.(completed := tk.completed - tk.completed), [])
  {
    forall c: Code ensures |TicksWith(tk.(completed := tk.completed - tk.completed), c)| == 0 {
      assert TicksWith(tk.(completed := tk.completed - tk.completed), c) == {};
    }
  }

  lemma OneCode(r: Record)
    ensures OverrunCodes(r) == [] || (|OverrunCodes(r)| == 1 && OverrunCodes(r) == [OverrunCodes(r)[0]])
  {
  }

  lemma ReportNext(tk: TickState, todo: set<TickId>, t: TickId, codes: seq<Code>)
    requires t in todo && todo <= tk.completed && OverrunReport(tk.(completed := tk.completed - todo), codes)
    ensures OverrunReport(tk.(completed := tk.completed - (todo - {t})),
                          if t in tk.records then codes + OverrunCodes(tk.records[t]) else codes)
  {
    hide OverrunCodes;
    var was, now := tk.(completed := tk.completed - todo), tk.(completed := tk.completed - (todo - {t}));
    var more := if t in tk.records then OverrunCodes(tk.records[t]) else [];
    if t in tk.records {
      OneCode(tk.records[t]);
    }
    forall c: Code ensures multiset(codes + more)[c] == |TicksWith(now, c)| {
      assert multiset(codes)[c] == |TicksWith(was, c)| && t !in TicksWith(was, c);
      assert TicksWith(now, c) == if more == [c] then TicksWith(was, c) + {t} else TicksWith(was, c);
    }
    assert codes + [] == codes;
  }

  method CheckCancels(tk: TickState, ps: seq<Snapshot>) returns (codes: seq<Code>)
    ensures NoErrors(codes) <==> CancelsPass(tk, ps)
    ensures codes == CancelReport(tk, ps)
  {
    hide CancelCodes;
    codes := [];
    var k := 0;
    while k < |ps|
      invariant 0 <= k <= |ps|
      invariant NoErrors(codes) <==> forall j :: 0 <= j < k ==> CancelCodes(tk, ps[j]) == []
      invariant codes == CancelReport(tk, ps[..k])
    {
      assert ps[..k + 1][..k] == ps[..k];
      CancelCodesAreErrors(tk, ps[k]);
      NoErrorsConcat(codes, CancelCodes(tk, ps[k]));
      codes := codes + CancelCodes(tk, ps[k]);
      k := k + 1;
    }
    assert ps[..k] == ps;
  }

  lemma CancelCodesAreErrors(tk: TickState, p: Snapshot)
    ensures AllErrors(CancelCodes(tk, p))
  {
  }

  lemma {:induction false} Verdict(es: Log, tolerateOpenTail: bool, st: State, overruns: seq<Code>, cancels: seq<Code>)
    requires st == Run(es, |es|)
    requires NoErrors(overruns) <==> OverrunsPass(st.tk)
    requires NoErrors(cancels) <==> CancelsPass(st.tk, st.job.snapshots)
    ensures
      var tail := if st.tk.open.Some? && !tolerateOpenTail then st.codes + [MissingTickEnd] else st.codes;
      NoErrors(tail + overruns + cancels) <==> WellFormed(es, tolerateOpenTail)
  {
    hide Run, Step, SeqsIncrease, TicksBracketed, TicksClosed, ExitsUnique, AsyncSound, OverrunsReported,
         DeadlinesCancel,
         OverrunsPass, CancelsPass, Good, TickKnows, AsyncKnows, SeqKnows, ExitKnows, NoErrors, AllErrors;
    var tail := if st.tk.open.Some? && !tolerateOpenTail then st.codes + [MissingTickEnd] else st.codes;
    NoErrorsConcat(tail, overruns);
    NoErrorsConcat(tail + overruns, cancels);
    NoErrorsConcat(st.codes, [MissingTickEnd]);
    MissingTickEndIsError();
    RunKnows(es, |es|);
    GoodIsSpec(es);
    if Good(es, |es|) {
      GoodParts(es, |es|);
      ClosedDecides(st.tk, es);
      OverrunsDecide(st.tk, es);
      CancelsDecide(st.tk, st.job, es);
    }
  }

  lemma MissingTickEndIsError()
    ensures AllErrors([MissingTickEnd])
  {
  }
}
