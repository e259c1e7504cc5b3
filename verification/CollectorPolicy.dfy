/**
  The bookkeeping of src/gc.cpp: counters, threshold, policy and tick depth, as a state machine.
  `live` in an operation is the number of nodes that survive if the operation collects.
 */
module CollectorPolicy {

  datatype Policy = DefaultPolicy | BetweenTicks | Manual | FailOnTickGc

  datatype Reason = Threshold | Requested | Forced | BetweenTicksReason

  /** A lifecycle event; `after` and `freed` are zero in a begin event. */
  datatype Lifecycle = Lifecycle(begin: bool, id: nat, reason: Reason, policy: Policy, forced: bool, inTick: bool,
                                 before: nat, after: nat, freed: nat)

  datatype Control = Control(
    current: nat, total: nat, liveAfterLast: nat, threshold: nat,
    requested: bool, reason: Reason, policy: Policy, depth: nat,
    collections: nat, freedTotal: nat, forcedCount: nat)

  const MIN_THRESHOLD: nat := 256

  const INITIAL := Control(0, 0, 0, MIN_THRESHOLD, false, Requested, DefaultPolicy, 0, 0, 0, 0)

  datatype Op =
    | Link
    | Request
    | MaybeCollect(live: nat)
    | Collect(live: nat)
    | EnterTick
    | ExitTick(live: nat)
    | SetPolicy(policy: Policy)

  /** What an operation does: the new state, the events it emits, and whether it throws. */
  datatype Effect = Effect(c: Control, events: seq<Lifecycle>, throws: bool)

  function InTick(c: Control): bool {
    c.depth > 0
  }

  function Linked(c: Control): Control {
    var d := c.(current := c.current + 1, total := c.total + 1);
    if d.current > d.threshold then d.(requested := true, reason := Threshold) else d
  }

  function NextThreshold(live: nat): nat {
    if live * 2 > MIN_THRESHOLD then live * 2 else MIN_THRESHOLD
  }

  /** `collect_impl` with `sweep` inside it. */
  function Collected(c: Control, reason: Reason, forced: bool, live: nat): Effect
    requires live <= c.current
  {
    var id := c.collections + 1;
    var freed := c.current - live;
    Effect(
      c.(current := live, liveAfterLast := live, threshold := NextThreshold(live),
         requested := false, reason := Requested, collections := id,
         freedTotal := c.freedTotal + freed, forcedCount := c.forcedCount + if forced then 1 else 0),
      [Lifecycle(true, id, reason, c.policy, forced, InTick(c), c.current, 0, 0),
       Lifecycle(false, id, reason, c.policy, forced, InTick(c), c.current, live, freed)],
      false)
  }

  predicate Fits(c: Control, op: Op) {
    (op.MaybeCollect? || op.Collect? || op.ExitTick?) ==> op.live <= c.current
  }

  function Do(c: Control, op: Op): Effect
    requires Fits(c, op)
  {
    match op
    case Link => Effect(Linked(c), [], false)
    case Request => Effect(c.(requested := true, reason := Requested), [], false)
    case MaybeCollect(live) =>
      if !c.requested || c.policy.Manual? || (c.policy.BetweenTicks? && InTick(c)) then Effect(c, [], false)
      else if c.policy.FailOnTickGc? && InTick(c) then Effect(c, [], true)
      else Collected(c, if c.policy.BetweenTicks? then BetweenTicksReason else c.reason, false, live)
    case Collect(live) =>
      if c.policy.FailOnTickGc? && InTick(c) then Effect(c, [], true)
      else Collected(c, Forced, true, live)
    case EnterTick => Effect(c.(depth := c.depth + 1), [], false)
    case ExitTick(live) =>
      var d := if c.depth > 0 then c.(depth := c.depth - 1) else c;
      if d.depth == 0 && d.requested && d.policy.BetweenTicks? then Collected(d, BetweenTicksReason, false, live)
      else Effect(d, [], false)
    case SetPolicy(p) => Effect(c.(policy := p), [], false)
  }

  // ----- runs -----

  /** Everything a run leaves behind: the state, the events, and what each collection cost. */
  datatype History = History(c: Control, log: seq<Lifecycle>, allocatedAtLast: nat, thresholdVisits: nat)

  const START := History(INITIAL, [], 0, 0)

  predicate Possible(ops: seq<Op>, h: History)
    decreases |ops|
  {
    ops != [] ==> Fits(h.c, ops[0]) && Possible(ops[1..], After(h, ops[0]))
  }

  /** A collection visits every node that was in the list. */
  function After(h: History, op: Op): History
    requires Fits(h.c, op)
  {
    var e := Do(h.c, op);
    if e.events == [] then h.(c := e.c)
    else History(e.c, h.log + e.events, e.c.total,
                 h.thresholdVisits + if e.events[0].reason.Threshold? then e.events[0].before else 0)
  }

  function RunOps(ops: seq<Op>, h: History): History
    requires Possible(ops, h)
    decreases |ops|
  {
    if ops == [] then h else RunOps(ops[1..], After(h, ops[0]))
  }

  /** Begin and end events pair up with consecutive ids and agree about the collection they belong to. */
  predicate Paired(log: seq<Lifecycle>, n: nat) {
    && |log| == 2 * n
    && forall k :: 0 <= k < n ==> PairAt(log, k)
  }

  predicate PairAt(log: seq<Lifecycle>, k: nat)
    requires 2 * k + 1 < |log|
  {
    var b, e := log[2 * k], log[2 * k + 1];
    && b.begin && !e.begin
    && b.id == e.id == k + 1
    && b.reason == e.reason && b.policy == e.policy && b.forced == e.forced && b.inTick == e.inTick
    && b.before == e.before == e.after + e.freed
  }

  /** What the policies promise about one collection. */
  predicate PolicyKept(e: Lifecycle) {
    && (e.policy.FailOnTickGc? ==> !e.inTick)
    && (e.policy.Manual? ==> e.forced)
    && (e.inTick ==> e.forced || e.policy.DefaultPolicy?)
    && (e.reason.Forced? <==> e.forced)
  }

  function FreedIn(log: seq<Lifecycle>): nat {
    if log == [] then 0 else log[|log| - 1].freed + FreedIn(log[..|log| - 1])
  }

  function ForcedIn(log: seq<Lifecycle>): nat {
    if log == [] then 0
    else (if log[|log| - 1].forced && !log[|log| - 1].begin then 1 else 0) + ForcedIn(log[..|log| - 1])
  }

  predicate Accounts(h: History) {
    && h.c.total == h.c.current + h.c.freedTotal
    && h.c.freedTotal == FreedIn(h.log)
    && h.c.forcedCount == ForcedIn(h.log)
  }

  /** Between collections the list only grows, and a pending threshold request means it outgrew the threshold. */
  predicate Paced(h: History) {
    && h.allocatedAtLast <= h.c.total
    && h.c.current == h.c.liveAfterLast + (h.c.total - h.allocatedAtLast)
    && h.c.threshold == NextThreshold(h.c.liveAfterLast)
    && (h.c.requested && h.c.reason.Threshold? ==> h.c.current > h.c.threshold)
    && h.thresholdVisits <= 2 * h.allocatedAtLast
    && (h.c.reason.Threshold? || h.c.reason.Requested?)
  }

  ghost predicate Inv(h: History) {
    && Paired(h.log, h.c.collections)
    && (forall i :: 0 <= i < |h.log| ==> PolicyKept(h.log[i]))
    && Accounts(h)
    && Paced(h)
  }

  lemma PairedExtend(log: seq<Lifecycle>, n: nat, b: Lifecycle, e: Lifecycle)
    requires Paired(log, n)
    requires b.begin && !e.begin && b.id == e.id == n + 1
    requires b.reason == e.reason && b.policy == e.policy && b.forced == e.forced && b.inTick == e.inTick
    requires b.before == e.before == e.after + e.freed
    ensures Paired(log + [b, e], n + 1)
  {
    var l := log + [b, e];
    forall k | 0 <= k < n + 1
      ensures PairAt(l, k)
    {
      if k < n {
        assert PairAt(log, k);
      }
    }
  }

  lemma CountsExtend(log: seq<Lifecycle>, b: Lifecycle, e: Lifecycle)
    ensures FreedIn(log + [b, e]) == FreedIn(log) + b.freed + e.freed
    ensures ForcedIn(log + [b, e])
         == ForcedIn(log) + (if b.forced && !b.begin then 1 else 0) + (if e.forced && !e.begin then 1 else 0)
  {
    var l := log + [b, e];
    assert l[..|l| - 1] == log + [b];
    assert (log + [b])[..|log|] == log;
  }

  lemma {:induction false} CollectedKeeps(h: History, c: Control, reason: Reason, forced: bool, live: nat)
    requires Inv(h) && live <= c.current
    requires c == h.c.(depth := c.depth)
    requires PolicyKept(Lifecycle(true, 0, reason, c.policy, forced, InTick(c), 0, 0, 0))
    requires reason.Threshold? ==> h.c.requested && h.c.reason.Threshold?
    ensures
      var e := Collected(c, reason, forced, live);
      Inv(History(e.c, h.log + e.events, e.c.total, h.thresholdVisits + if reason.Threshold? then c.current else 0))
  {
    var e := Collected(c, reason, forced, live);
    PairedExtend(h.log, h.c.collections, e.events[0], e.events[1]);
    CountsExtend(h.log, e.events[0], e.events[1]);
    assert e.events == [e.events[0], e.events[1]];
  }

  /** Operations that do not collect leave the log alone. */
  lemma {:induction false} QuietKeeps(h: History, op: Op)
    requires Inv(h) && Fits(h.c, op) && Do(h.c, op).events == []
    ensures Inv(After(h, op))
  {
  }

  lemma {:induction false} StepKeeps(h: History, op: Op)
    requires Inv(h) && Fits(h.c, op)
    ensures Inv(After(h, op))
  {
    if Do(h.c, op).events == [] {
      QuietKeeps(h, op);
    } else {
      CollectingKeeps(h, op);
    }
  }

  lemma {:induction false} CollectingKeeps(h: History, op: Op)
    requires Inv(h) && Fits(h.c, op) && Do(h.c, op).events != []
    ensures Inv(After(h, op))
  {
    hide Paired, Accounts;
    match op
    case MaybeCollect(live) =>
      CollectedKeeps(h, h.c, if h.c.policy.BetweenTicks? then BetweenTicksReason else h.c.reason, false, live);
    case Collect(live) =>
      CollectedKeeps(h, h.c, Forced, true, live);
    case ExitTick(live) =>
      CollectedKeeps(h, h.c.(depth := 0), BetweenTicksReason, false, live);
  }

  /** The invariant holds after every run, whatever operations it is made of. */
  lemma {:induction false} EveryRun(ops: seq<Op>, h: History)
    requires Inv(h) && Possible(ops, h)
    ensures Inv(RunOps(ops, h))
    decreases |ops|
  {
    if ops != [] {
      StepKeeps(h, ops[0]);
      EveryRun(ops[1..], After(h, ops[0]));
    }
  }

  lemma EmptyLog(log: seq<Lifecycle>)
    requires log == []
    ensures FreedIn(log) == 0 && ForcedIn(log) == 0
  {
  }

  lemma EmptyIsPaired(log: seq<Lifecycle>)
    requires log == []
    ensures Paired(log, 0) && forall i :: 0 <= i < |log| ==> PolicyKept(log[i])
  {
  }

  lemma StartIsSound()
    ensures Inv(START)
  {
    hide Paired, PolicyKept, Accounts, Paced;
    EmptyIsPaired(START.log);
    StartBalances();
    StartIsPaced();
  }

  lemma StartBalances()
    ensures Accounts(START)
  {
    hide FreedIn, ForcedIn;
    EmptyLog(START.log);
  }

  lemma StartIsPaced()
    ensures Paced(START)
  {
  }

  /** Every run from the start: accounts balance, events pair up, every collection kept its policy. */
  lemma {:induction false} RunsAreSound(ops: seq<Op>)
    requires Possible(ops, START)
    ensures
      var h := RunOps(ops, START);
      && Paired(h.log, h.c.collections)
      && (forall i :: 0 <= i < |h.log| ==> PolicyKept(h.log[i]))
      && Accounts(h)
  {
    hide RunOps, Possible, FreedIn, ForcedIn;
    StartIsSound();
    EveryRun(ops, START);
  }

  /**
    Amortised cost: a collection for the threshold visits fewer than twice the nodes allocated since
    the one before it, and all of them together at most twice everything allocated.
   */
  lemma {:induction false} ThresholdIsAmortised(ops: seq<Op>, op: Op)
    requires Possible(ops, START) && Fits(RunOps(ops, START).c, op)
    ensures
      var h := RunOps(ops, START);
      var e := Do(h.c, op);
      && h.thresholdVisits <= 2 * h.c.total
      && (e.events != [] && e.events[0].reason.Threshold? ==>
            e.events[0].before < 2 * (h.c.total - h.allocatedAtLast))
  {
    hide *;
    StartIsSound();
    EveryRun(ops, START);
    NextIsCheap(RunOps(ops, START), op);
  }

  lemma {:induction false} NextIsCheap(h: History, op: Op)
    requires Inv(h) && Fits(h.c, op)
    ensures
      var e := Do(h.c, op);
      && h.thresholdVisits <= 2 * h.c.total
      && (e.events != [] && e.events[0].reason.Threshold? ==>
            e.events[0].before < 2 * (h.c.total - h.allocatedAtLast))
  {
  }

  /** An operation throws exactly when it would have had to collect inside a tick that forbids it. */
  lemma ThrowsExactly(c: Control, op: Op)
    requires Fits(c, op)
    ensures Do(c, op).throws
        <==> c.policy.FailOnTickGc? && InTick(c) && (op.Collect? || (op.MaybeCollect? && c.requested))
    ensures Do(c, op).throws ==> Do(c, op).c == c && Do(c, op).events == []
  {
  }

  /** The operations of a run that do not throw. */
  function Performed(ops: seq<Op>, h: History): seq<Op>
    requires Possible(ops, h)
    decreases |ops|
  {
    if ops == [] then []
    else
      var rest := Performed(ops[1..], After(h, ops[0]));
      if Do(h.c, ops[0]).throws then rest else [ops[0]] + rest
  }

  /** Refused operations leave nothing behind: a run is the run of its other operations. */
  lemma {:induction false} RefusalsChangeNothing(ops: seq<Op>, h: History)
    requires Possible(ops, h)
    ensures Possible(Performed(ops, h), h) && RunOps(Performed(ops, h), h) == RunOps(ops, h)
    decreases |ops|
  {
    hide Do;
    if ops != [] {
      ThrowsExactly(h.c, ops[0]);
      var next := After(h, ops[0]);
      RefusalsChangeNothing(ops[1..], next);
      var rest := Performed(ops[1..], next);
      if Do(h.c, ops[0]).throws {
        assert next == h;
      } else {
        assert ([ops[0]] + rest)[1..] == rest;
      }
    }
  }

  // ----- requests are served -----

  /** When an operation collects, and for what reason, in terms of policy, tick depth and pending request only. */
  lemma CollectsExactly(c: Control, op: Op)
    requires Fits(c, op)
    ensures Do(c, op).events != []
        <==> match op
             case MaybeCollect(_) =>
               c.requested && (c.policy == DefaultPolicy || (c.policy != Manual && c.depth == 0))
             case Collect(_) => c.policy != FailOnTickGc || c.depth == 0
             case ExitTick(_) => c.requested && c.policy == BetweenTicks && c.depth <= 1
             case _ => false
    ensures Do(c, op).events != [] ==>
      Do(c, op).events[0].reason
      == if op.Collect? then Forced else if c.policy == BetweenTicks then BetweenTicksReason else c.reason
  {
  }

  /** A request, or outgrowing the threshold, leaves a request pending; only a collection takes it back. */
  lemma PendingExactly(c: Control, op: Op)
    requires Fits(c, op)
    ensures
      var d := Do(c, op).c;
      d.requested
      <==> op.Request? || (op.Link? && c.current >= c.threshold) || (c.requested && Do(c, op).events == [])
  {
  }

  /** The tick depth goes up by one and down by one, but not below zero. */
  lemma DepthExactly(c: Control, op: Op)
    requires Fits(c, op)
    ensures Do(c, op).c.depth
            == if op.EnterTick? then c.depth + 1 else if op.ExitTick? && c.depth > 0 then c.depth - 1 else c.depth
    ensures Do(c, op).c.policy == if op.SetPolicy? then op.policy else c.policy
  {
  }

  /** After a poll that does not throw, a request is pending only where the policy puts it off. */
  lemma PollServes(c: Control, live: nat)
    requires Fits(c, MaybeCollect(live)) && !Do(c, MaybeCollect(live)).throws
    ensures Do(c, MaybeCollect(live)).c.requested ==> c.policy == Manual || (c.policy == BetweenTicks && c.depth > 0)
  {
  }

  /** Under between-ticks nothing is pending once the outermost tick is left. */
  lemma ExitServes(c: Control, live: nat)
    requires Fits(c, ExitTick(live)) && c.policy == BetweenTicks && c.depth <= 1
    ensures !Do(c, ExitTick(live)).c.requested && Do(c, ExitTick(live)).c.depth == 0
  {
  }

  /** Every link is polled at once, and the policy stays the default. */
  predicate Polled(ops: seq<Op>) {
    forall i: nat :: i < |ops| ==> PolledAt(ops, i)
  }

  predicate PolledAt(ops: seq<Op>, i: nat)
    requires i < |ops|
  {
    && (ops[i].Link? ==> i + 1 < |ops| && ops[i + 1].MaybeCollect?)
    && (ops[i].SetPolicy? ==> ops[i].policy == DefaultPolicy)
  }

  function Larger(a: nat, b: nat): nat {
    if a > b then a else b
  }

  predicate Bounded(c: Control) {
    c.policy == DefaultPolicy && c.current <= Larger(256, 2 * c.liveAfterLast) == c.threshold
  }

  /**
    Under the default policy, when every link is polled at once, the list never outgrows 256 nodes or twice the
    survivors of the last collection, and nothing is pending after a poll.
   */
  lemma {:induction false} HeapStaysBounded(ops: seq<Op>, h: History)
    requires Possible(ops, h) && Polled(ops) && Bounded(h.c)
    ensures
      var c := RunOps(ops, h).c;
      && Bounded(c) && c.current <= Larger(256, 2 * c.liveAfterLast)
      && (ops != [] && ops[|ops| - 1].MaybeCollect? ==> !c.requested)
    decreases |ops|
  {
    if ops != [] {
      assert PolledAt(ops, 0);
      var h1 := After(h, ops[0]);
      if ops[0].Link? {
        var h2 := After(h1, ops[1]);
        LinkThenPoll(h, ops[1]);
        PolledRest(ops, 2);
        assert ops[1..][1..] == ops[2..];
        HeapStaysBounded(ops[2..], h2);
      } else {
        OtherOps(h, ops[0]);
        PolledRest(ops, 1);
        HeapStaysBounded(ops[1..], h1);
      }
    }
  }

  lemma PolledRest(ops: seq<Op>, n: nat)
    requires Polled(ops) && n <= |ops|
    ensures Polled(ops[n..])
  {
    var rest := ops[n..];
    forall i: nat | i < |rest|
      ensures PolledAt(rest, i)
    {
      assert PolledAt(ops, n + i);
    }
  }

  lemma LinkThenPoll(h: History, poll: Op)
    requires Bounded(h.c) && poll.MaybeCollect? && Fits(After(h, Link).c, poll)
    ensures
      var d := After(After(h, Link), poll).c;
      Bounded(d) && !d.requested
  {
  }

  lemma OtherOps(h: History, op: Op)
    requires Bounded(h.c) && Fits(h.c, op) && !op.Link? && (op.SetPolicy? ==> op.policy == DefaultPolicy)
    ensures Bounded(After(h, op).c) && (op.MaybeCollect? ==> !After(h, op).c.requested)
  {
  }

  /** From the start. */
  lemma PolledHeapsStaySmall(ops: seq<Op>)
    requires Possible(ops, START) && Polled(ops)
    ensures
      var c := RunOps(ops, START).c;
      c.current <= Larger(256, 2 * c.liveAfterLast) && (ops != [] && ops[|ops| - 1].MaybeCollect? ==> !c.requested)
  {
    hide RunOps, Possible, Polled;
    HeapStaysBounded(ops, START);
  }
}
