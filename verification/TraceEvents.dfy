/** Events of a canonical log, and what a well-formed log is. */
module TraceEvents {
  import opened Values

  datatype Kind =
    | TickBegin
    | TickEnd
    | NodeExit
    | VlaSubmit
    | DeadlineExceeded
    | CancelRequested
    | CancelAcknowledged
    | VlaPoll
    | VlaResult
    | CompletionDropped
    | OtherKind

  /** A tick number; only its identity matters to the validator. */
  datatype TickId = TickId(number: int)

  /** The fields of a log line the validator looks at, each absent when missing or of another type. */
  datatype Event = Event(
    kind: Kind, seqNo: Option<int>, tick: Option<TickId>, node: Option<int>, status: Option<string>,
    job: Option<string>, accepted: Option<bool>, budgetMs: Option<real>, elapsedMs: Option<real>)

  type Log = seq<Event>

  predicate IsDelimiter(e: Event) {
    e.kind.TickBegin? || e.kind.TickEnd?
  }

  predicate IsTerminalExit(e: Event) {
    && e.kind.NodeExit? && e.tick.Some? && e.node.Some?
    && (e.status == Some("success") || e.status == Some("failure"))
  }

  predicate IsTerminalPoll(e: Event) {
    && e.kind.VlaPoll?
    && e.status in {Some("done"), Some("cancelled"), Some("error"), Some("timeout")}
  }

  /** Events after which a job is over. */
  predicate IsTerminal(e: Event) {
    e.job.Some? && (IsTerminalPoll(e) || e.kind.VlaResult? || e.kind.CompletionDropped?)
  }

  predicate IsSubmit(e: Event, job: string) {
    e.kind.VlaSubmit? && e.job == Some(job)
  }

  predicate IsRequest(e: Event, job: string) {
    e.kind.CancelRequested? && e.job == Some(job)
  }

  /** Events that end a job's being active: its end, or an accepted cancellation. */
  predicate Releases(e: Event, job: string) {
    e.job == Some(job) && (IsTerminal(e) || (e.kind.CancelAcknowledged? && e.accepted == Some(true)))
  }

  predicate KnownOver(end: Event) {
    end.budgetMs.Some? && end.elapsedMs.Some? && end.elapsedMs.value > end.budgetMs.value
  }

  predicate KnownWithin(end: Event) {
    end.budgetMs.Some? && end.elapsedMs.Some? && end.elapsedMs.value <= end.budgetMs.value
  }

  // ----- the specification -----

  /** Sequence numbers are present and strictly increasing. */
  predicate SeqsIncrease(es: Log) {
    && (forall i :: 0 <= i < |es| ==> es[i].seqNo.Some?)
    && (forall i, j :: 0 <= i < j < |es| ==> es[i].seqNo.value < es[j].seqNo.value)
  }

  /** The tick begun at b is still open just before i. */
  predicate Opens(es: Log, b: nat, i: nat)
    requires i <= |es|
  {
    && b < i && es[b].kind.TickBegin?
    && forall k :: b < k < i ==> !IsDelimiter(es[k])
  }

  predicate OwnTickOpen(es: Log, i: nat)
    requires i < |es|
  {
    es[i].tick.Some? && exists b: nat :: b < i && Opens(es, b, i) && es[b].tick == es[i].tick
  }

  /** A tick begins with none open and under a number no earlier tick had. */
  predicate BeginsWell(es: Log, i: nat)
    requires i < |es|
  {
    && es[i].tick.Some?
    && (forall b: nat :: b < i ==> !Opens(es, b, i))
    && (forall b: nat :: b < i && es[b].kind.TickBegin? ==> es[b].tick != es[i].tick)
  }

  predicate PlacedWell(es: Log, i: nat)
    requires i < |es|
  {
    if es[i].kind.TickBegin? then BeginsWell(es, i)
    else if es[i].kind.TickEnd? then OwnTickOpen(es, i)
    else es[i].tick.Some? ==> OwnTickOpen(es, i)
  }

  /** Tick brackets are disjoint and distinctly numbered, and every ticked event lies in its own bracket. */
  predicate TicksBracketed(es: Log) {
    forall i: nat :: i < |es| ==> PlacedWell(es, i)
  }

  predicate TicksClosed(es: Log) {
    forall b: nat :: b < |es| ==> !Opens(es, b, |es|)
  }

  /** In any log, well formed or not: the tick begun at b is the last begun before n, and has had no end since. */
  predicate PendingFrom(es: Log, b: nat, n: nat)
    requires n <= |es|
  {
    && b < n && es[b].kind.TickBegin? && es[b].tick.Some?
    && forall k :: b < k < n ==>
         !(es[k].kind.TickBegin? && es[k].tick.Some?) && !(es[k].kind.TickEnd? && es[k].tick == es[b].tick)
  }

  predicate EndsInsideTick(es: Log) {
    exists b: nat :: b < |es| && PendingFrom(es, b, |es|)
  }

  predicate ExitsUnique(es: Log) {
    forall i, j :: 0 <= i < j < |es| && IsTerminalExit(es[i]) && IsTerminalExit(es[j]) ==>
      !(es[i].tick == es[j].tick && es[i].node == es[j].node)
  }

  /** A cancel request for the job since its latest submit before i. */
  predicate RequestedBefore(es: Log, i: nat, job: string)
    requires i <= |es|
  {
    exists r: nat :: r < i && IsRequest(es[r], job) && forall k :: r < k < i ==> !IsSubmit(es[k], job)
  }

  predicate SubmittedBefore(es: Log, i: nat, job: string)
    requires i <= |es|
  {
    exists s: nat :: s < i && IsSubmit(es[s], job)
  }

  predicate AsyncOrdered(es: Log, i: nat)
    requires i < |es|
  {
    && (es[i].kind.CancelAcknowledged? && es[i].job.Some? ==> RequestedBefore(es, i, es[i].job.value))
    && (IsTerminal(es[i]) ==> SubmittedBefore(es, i, es[i].job.value))
  }

  predicate AsyncSound(es: Log) {
    forall i: nat :: i < |es| ==> AsyncOrdered(es, i)
  }

  /** The job was submitted and neither ended nor had a cancellation accepted before i. */
  predicate ActiveAt(es: Log, i: nat, job: string)
    requires i <= |es|
  {
    exists s: nat :: s < i && IsSubmit(es[s], job) && forall k :: s < k < i ==> !Releases(es[k], job)
  }

  predicate OverrunReported(es: Log, e: nat)
    requires e < |es|
  {
    es[e].kind.TickEnd? && KnownOver(es[e]) ==>
      exists i: nat :: i < |es| && es[i].kind.DeadlineExceeded? && es[i].tick == es[e].tick
  }

  /** A tick that measurably ran over budget has a deadline event. */
  predicate OverrunsReported(es: Log) {
    forall e: nat :: e < |es| ==> OverrunReported(es, e)
  }

  predicate CancelledLater(es: Log, d: nat, job: string)
    requires d < |es|
  {
    exists i: nat :: d < i < |es| && IsRequest(es[i], job) && es[i].tick == es[d].tick
  }

  ghost predicate DeadlineCancels(es: Log, d: nat, e: nat)
    requires d < |es| && e < |es|
  {
    es[d].kind.DeadlineExceeded? && es[d].tick.Some? && es[e].kind.TickEnd? && es[e].tick == es[d].tick
        && !KnownWithin(es[e]) ==>
      forall job: string :: ActiveAt(es, d, job) ==> CancelledLater(es, d, job)
  }

  /** Jobs active at a deadline of a completed tick not known to be within budget are then cancelled in that tick. */
  ghost predicate DeadlinesCancel(es: Log) {
    forall d: nat, e: nat :: d < |es| && e < |es| ==> DeadlineCancels(es, d, e)
  }

  /** What the validator accepts. */
  ghost predicate WellFormed(es: Log, tolerateOpenTail: bool) {
    && SeqsIncrease(es)
    && TicksBracketed(es)
    && (tolerateOpenTail || TicksClosed(es))
    && ExitsUnique(es)
    && AsyncSound(es)
    && OverrunsReported(es)
    && DeadlinesCancel(es)
  }
}
