/**
  How a run of `env.run-loop` ends and what each of its ticks leaves in the trace, told from the settings and from
  what each tick meets, branch by branch.
 */
module RunLoopLaws {
  import opened Values
  import opened RunLoopSpec
  import opened RunLoopProperties

  // ----- what a tick meets -----

  predicate Throws(t: Tick) {
    t.observeThrows || t.onTickThrows || t.actThrows || t.stepThrows || t.recordThrows || t.predicateThrows
  }

  /** on_tick gives an action, and in time. */
  predicate InTimeAction(t: Tick) {
    t.candidate != None && !t.late
  }

  /** An earlier tick of the episode had an action in time. */
  ghost predicate HadGood(script: Script, at: Place) {
    exists j: nat :: j < at.step && InTimeAction(script.tick(Place(at.episode, j)))
  }

  /** Nothing throws, and there is an action to send. */
  ghost predicate Fine(cfg: Config, script: Script, at: Place) {
    !Throws(script.tick(at)) && (InTimeAction(script.tick(at)) || cfg.safe != None || HadGood(script, at))
  }

  ghost predicate Stopped(cfg: Config, script: Script, at: Place) {
    Fine(cfg, script, at) && !script.tick(at).canContinue
  }

  ghost predicate Succeeds(cfg: Config, script: Script, at: Place) {
    Fine(cfg, script, at) && script.tick(at).canContinue && cfg.stopOnSuccess && script.tick(at).success
  }

  /** The tick neither fails nor stops nor succeeds where success stops a run. */
  ghost predicate GoesOn(cfg: Config, script: Script, at: Place) {
    Fine(cfg, script, at) && script.tick(at).canContinue && !(cfg.stopOnSuccess && script.tick(at).success)
  }

  /** The observer or the success predicate throws once the step is made. */
  predicate ThrowsAfterStep(t: Tick) {
    && !t.observeThrows && !t.onTickThrows && !t.actThrows && !t.stepThrows
    && (t.recordThrows || t.predicateThrows)
  }

  predicate ResetsUpTo(cfg: Config, script: Script, n: nat) {
    cfg.supportsReset ==> forall e: nat :: e < n ==> !script.resetThrows(e)
  }

  /** The run makes this tick: it is allowed at all, every reset so far works and every earlier tick goes on. */
  ghost predicate Made(cfg: Config, script: Script, at: Place) {
    && (cfg.episodeMax <= 1 || cfg.supportsReset)
    && at.episode < cfg.episodeMax && at.step < cfg.stepMax
    && ResetsUpTo(cfg, script, at.episode + 1) && AllGoOn(cfg, script, at)
  }

  ghost predicate AllGoOn(cfg: Config, script: Script, at: Place) {
    forall p: Place :: p.step < cfg.stepMax && Earlier(p, at) ==> GoesOn(cfg, script, p)
  }

  // ----- the last good action -----

  /** The first k ticks of the episode do not throw. */
  predicate Quiet(script: Script, e: nat, k: nat) {
    forall j: nat :: j < k ==> !Throws(script.tick(Place(e, j)))
  }

  /** The last good action is that of the latest tick that had one in time, and there is none if no tick had. */
  lemma {:induction false} GoodIsLatest(script: Script, e: nat, k: nat)
    requires Quiet(script, e, k)
    ensures GoodAt(script, e, k) == None <==> !HadGood(script, Place(e, k))
    ensures forall j: nat ::
              && j < k && InTimeAction(script.tick(Place(e, j)))
              && (forall m: nat :: j < m < k ==> !InTimeAction(script.tick(Place(e, m))))
              ==> GoodAt(script, e, k) == script.tick(Place(e, j)).candidate
  {
    if k > 0 {
      GoodIsLatest(script, e, k - 1);
      var t := script.tick(Place(e, k - 1));
      assert !Throws(t);
      assert GoodAt(script, e, k) == GoodAfter(t, GoodAt(script, e, k - 1));
      if InTimeAction(t) {
        assert HadGood(script, Place(e, k));
      } else {
        assert forall j: nat :: j < k && InTimeAction(script.tick(Place(e, j))) ==> j < k - 1;
      }
    }
  }

  /** Whether and how a tick ends the run, told from its fields. */
  lemma FateOnFields(cfg: Config, script: Script, at: Place)
    requires Quiet(script, at.episode, at.step)
    ensures FateAt(cfg, script, at.episode, at.step)
            == if !Fine(cfg, script, at) then Some(Errored)
               else if Stopped(cfg, script, at) then Some(StoppedByBackend)
               else if Succeeds(cfg, script, at) then Some(Succeeded)
               else None
    ensures GoesOn(cfg, script, at) <==> FateAt(cfg, script, at.episode, at.step) == None
    ensures EscapesAt(cfg, script, at) <==> !Fine(cfg, script, at) && script.tick(at).rescueRecordThrows
  {
    hide GoodAt, HadGood, Quiet;
    assert Place(at.episode, at.step) == at;
    GoodIsLatest(script, at.episode, at.step);
  }

  /** A tick that does not end the run does not throw. */
  lemma GoingOnIsQuiet(cfg: Config, script: Script, at: Place)
    requires Clear(cfg, script, at) && at.step <= cfg.stepMax
    ensures Quiet(script, at.episode, at.step)
  {
    hide GoodAt;
    forall j: nat | j < at.step ensures !Throws(script.tick(Place(at.episode, j))) {
      var p := Place(at.episode, j);
      assert Earlier(p, at);
      assert FateAt(cfg, script, p.episode, p.step).None?;
    }
  }

  lemma AllQuiet(cfg: Config, script: Script, at: Place)
    requires AllGoOn(cfg, script, at) && at.step <= cfg.stepMax
    ensures Quiet(script, at.episode, at.step)
  {
    hide HadGood;
    forall j: nat | j < at.step ensures !Throws(script.tick(Place(at.episode, j))) {
      assert Earlier(Place(at.episode, j), at);
    }
  }

  lemma ClearOnFields(cfg: Config, script: Script, at: Place)
    ensures Clear(cfg, script, at) <==> AllGoOn(cfg, script, at)
  {
    hide FateAt, GoesOn, Quiet;
    forall p: Place | p.step < cfg.stepMax && Earlier(p, at) && (Clear(cfg, script, at) || AllGoOn(cfg, script, at))
      ensures GoesOn(cfg, script, p) <==> FateAt(cfg, script, p.episode, p.step).None?
    {
      assert forall q: Place :: Earlier(q, p) ==> Earlier(q, at);
      if Clear(cfg, script, at) {
        GoingOnIsQuiet(cfg, script, p);
      } else {
        AllQuiet(cfg, script, p);
      }
      FateOnFields(cfg, script, p);
    }
  }

  lemma ResetsOnFields(cfg: Config, script: Script, n: nat)
    ensures ResetsWork(cfg, script, n) <==> ResetsUpTo(cfg, script, n)
  {
    assert forall e: nat :: ResetFails(cfg, script, e) <==> cfg.supportsReset && script.resetThrows(e);
  }

  // ----- how a run ends -----

  /** The run makes this tick and no tick after it. */
  ghost predicate LastTick(cfg: Config, script: Script, at: Place) {
    Made(cfg, script, at) && !GoesOn(cfg, script, at)
  }

  lemma LastTickIsExit(cfg: Config, script: Script, at: Place)
    ensures LastTick(cfg, script, at) <==> RunExit(cfg, script) == AtTick(at)
  {
    hide RunExit, FateAt, Clear, AllGoOn, GoesOn, ResetsWork, ResetsUpTo, Quiet;
    ExitExactly(cfg, script, AtTick(at));
    ClearOnFields(cfg, script, at);
    ResetsOnFields(cfg, script, at.episode + 1);
    if Clear(cfg, script, at) && at.step < cfg.stepMax {
      GoingOnIsQuiet(cfg, script, at);
      FateOnFields(cfg, script, at);
    }
  }

  /** Every reset works up to episode e and every tick of the earlier ones goes on; then the reset throws. */
  ghost predicate ResetEnds(cfg: Config, script: Script, e: nat) {
    && (cfg.episodeMax <= 1 || cfg.supportsReset) && e < cfg.episodeMax
    && cfg.supportsReset && script.resetThrows(e) && ResetsUpTo(cfg, script, e) && AllGoOn(cfg, script, Place(e, 0))
  }

  ghost predicate RunsThrough(cfg: Config, script: Script) {
    && (cfg.episodeMax <= 1 || cfg.supportsReset)
    && ResetsUpTo(cfg, script, cfg.episodeMax) && AllGoOn(cfg, script, Place(cfg.episodeMax, 0))
  }

  lemma OtherExits(cfg: Config, script: Script, e: nat)
    ensures ResetEnds(cfg, script, e) <==> RunExit(cfg, script) == AtReset(e)
    ensures RunsThrough(cfg, script) <==> RunExit(cfg, script) == AtEnd
    ensures !(cfg.episodeMax <= 1 || cfg.supportsReset) <==> RunExit(cfg, script) == Refused
  {
    hide RunExit, Clear, AllGoOn, ResetsWork, ResetsUpTo;
    ExitExactly(cfg, script, AtReset(e));
    ExitExactly(cfg, script, AtEnd);
    ExitExactly(cfg, script, Refused);
    ClearOnFields(cfg, script, Place(e, 0));
    ClearOnFields(cfg, script, Place(cfg.episodeMax, 0));
    ResetsOnFields(cfg, script, e);
    ResetsOnFields(cfg, script, cfg.episodeMax);
  }

  /** What a run returns whose last tick is this one. */
  lemma LastTickDecides(cfg: Config, script: Script, at: Place)
    requires LastTick(cfg, script, at)
    ensures
      var r, t := RunResult(cfg, script), script.tick(at);
      && (r == Threw <==> !Fine(cfg, script, at) && t.rescueRecordThrows)
      && (r.Returned? ==>
            && r.status == (if !Fine(cfg, script, at) then Errored
                            else if !t.canContinue then StoppedByBackend else Succeeded)
            && r.episodes == at.episode + 1
            && r.steps == at.episode * cfg.stepMax + at.step + 1 + SecondCount(cfg, script, at))
  {
    hide RunExit, BodyTrace, Fallbacks, Overruns, GoodAt, HadGood, AllGoOn, FateAt, EscapesAt, Quiet;
    LastTickIsExit(cfg, script, at);
    AllQuiet(cfg, script, at);
    FateOnFields(cfg, script, at);
    SlipOnFields(cfg, script, at);
  }

  /** A tick that had an action to send and whose callbacks threw after the step is counted a second time. */
  ghost function SecondCount(cfg: Config, script: Script, at: Place): nat {
    var t := script.tick(at);
    if ThrowsAfterStep(t) && (InTimeAction(t) || cfg.safe != None || HadGood(script, at)) then 1 else 0
  }

  lemma SlipOnFields(cfg: Config, script: Script, at: Place)
    requires Quiet(script, at.episode, at.step)
    ensures StepsThrough(cfg, script, at)
            == at.episode * cfg.stepMax + at.step + 1 + SecondCount(cfg, script, at)
  {
    hide GoodAt, HadGood, Quiet;
    assert Place(at.episode, at.step) == at;
    GoodIsLatest(script, at.episode, at.step);
  }

  /**
    How a run ends, on the fields of its ticks: it succeeds exactly when its last tick fails nowhere, can continue
    and succeeds under stop_on_success; the backend stops it exactly when its last tick fails nowhere and cannot
    continue; it ends in an error exactly when its last tick throws or has nothing to send; it runs through exactly
    when every tick goes on.  It throws exactly when a reset does, or the record of a failing tick.
   */
  lemma RunsEnd(cfg: Config, script: Script)
    ensures
      var r := RunResult(cfg, script);
      && (r.Returned? && r.status == Succeeded <==>
            exists at: Place :: Made(cfg, script, at) && Succeeds(cfg, script, at))
      && (r.Returned? && r.status == StoppedByBackend <==>
            exists at: Place :: Made(cfg, script, at) && Stopped(cfg, script, at))
      && (r.Returned? && r.status == Errored <==>
            exists at: Place :: Made(cfg, script, at) && !Fine(cfg, script, at) && !script.tick(at).rescueRecordThrows)
      && (r.Threw? <==>
            || (exists e: nat :: ResetEnds(cfg, script, e))
            || (exists at: Place ::
                  Made(cfg, script, at) && !Fine(cfg, script, at) && script.tick(at).rescueRecordThrows))
      && (r.Returned? && r.status == EpisodesDone <==> RunsThrough(cfg, script))
      && (r.Returned? && r.status == Unsupported <==> cfg.episodeMax > 1 && !cfg.supportsReset)
  {
    hide RunExit, BodyTrace, Fallbacks, Overruns, FateAt, EscapesAt, StepsThrough;
    hide Made, Fine, ResetEnds, RunsThrough, RunResult;
    var x := RunExit(cfg, script);
    forall at: Place | Made(cfg, script, at) && !GoesOn(cfg, script, at) ensures x == AtTick(at) {
      LastTickIsExit(cfg, script, at);
    }
    forall e: nat ensures ResetEnds(cfg, script, e) <==> x == AtReset(e) {
      OtherExits(cfg, script, e);
    }
    OtherExits(cfg, script, 0);
    if x.AtTick? {
      LastTickIsExit(cfg, script, x.at);
      LastTickDecides(cfg, script, x.at);
    } else {
      OtherResults(cfg, script);
    }
  }

  lemma OtherResults(cfg: Config, script: Script)
    requires !RunExit(cfg, script).AtTick?
    ensures
      var r := RunResult(cfg, script);
      match RunExit(cfg, script)
      case AtReset(_) => r.Threw?
      case AtEnd => r.Returned? && r.status == EpisodesDone
      case _ => r.Returned? && r.status == Unsupported
  {
    hide RunExit, BodyTrace, Fallbacks, Overruns, FateAt, EscapesAt, StepsThrough;
  }

  // ----- the events of a tick -----

  /** The events of a tick, in the order of the loop's body and of its catch block. */
  function TickEvents(cfg: Config, t: Tick, at: Place, n: nat, good: Option<Action>): Trace {
    if t.observeThrows then RecoveryEvents(cfg, t, at, n, false, good)
    else if t.onTickThrows then [TickBegin(n)] + RecoveryEvents(cfg, t, at, n, false, good)
    else
      [TickBegin(n), Proposed(at, t.candidate, !t.late)]
      + if InTimeAction(t) then ActEvents(cfg, t, at, n, t.candidate.value, if t.actThrows then good else t.candidate)
        else if good != None then [FallbackUsed(n)] + ActEvents(cfg, t, at, n, good.value, good)
        else if cfg.safe != None then [FallbackUsed(n)] + ActEvents(cfg, t, at, n, cfg.safe.value, good)
        else RecoveryEvents(cfg, t, at, n, t.late, good)
  }

  /** From the action to the end of the tick; `good` is what a recovery falls back on. */
  function ActEvents(cfg: Config, t: Tick, at: Place, n: nat, action: Action, good: Option<Action>): Trace {
    if t.actThrows then [Acted(at, action, false, false)] + RecoveryEvents(cfg, t, at, n, t.late, good)
    else if t.stepThrows then [Acted(at, action, true, false)] + RecoveryEvents(cfg, t, at, n, t.late, good)
    else if t.recordThrows || t.predicateThrows then
      [Acted(at, action, true, false), CallbackRaised(at)] + RecoveryEvents(cfg, t, at, n + 1, t.late, good)
    else if !t.canContinue then [Acted(at, action, true, false), TickEnd(n, t.late, TickStopped)]
    else if cfg.stopOnSuccess && t.success then [Acted(at, action, true, false), TickEnd(n, t.late, TickOk)]
    else [Acted(at, action, true, false), TickEnd(n, t.late, TickRunning)]
  }

  function RecoveryEvents(cfg: Config, t: Tick, at: Place, n: nat, late: bool, good: Option<Action>): Trace {
    var safety := if good != None then good else cfg.safe;
    (if safety == None then []
     else if t.rescueActThrows then [Acted(at, safety.value, false, true), FallbackFailed(n)]
     else if t.rescueStepThrows then [Acted(at, safety.value, true, true), FallbackFailed(n)]
     else [Acted(at, safety.value, true, true)])
    + (if t.rescueRecordThrows then []
       else if safety == None then [TickEnd(n, late, TickError), ActionInvalid(n), ErrorEvent]
       else [TickEnd(n, late, TickError), ActionInvalid(n), FallbackUsed(n), ErrorEvent])
  }

  lemma RescuingShape(tr: Trace, cfg: Config, t: Tick, at: Place, good: Option<Action>)
    requires Fails(cfg, t, good)
    ensures
      var safety := Fallback(cfg, GoodAfter(t, good));
      Rescuing(tr, cfg, t, at, good)
      == tr + if safety.None? then [] else [Acted(at, safety.value, !t.rescueActThrows, true)]
  {
    hide Fails, GoodAfter;
    assert tr + [] == tr;
  }

  lemma ReportShape(tr: Trace, id: nat, late: bool, rescued: bool)
    ensures Report(tr, id, late, rescued)
            == tr + if rescued then [TickEnd(id, late, TickError), ActionInvalid(id), FallbackUsed(id), ErrorEvent]
                    else [TickEnd(id, late, TickError), ActionInvalid(id), ErrorEvent]
  {
  }

  lemma ReportingShape(tr: Trace, cfg: Config, t: Tick, id: nat, good: Option<Action>)
    requires Fails(cfg, t, good)
    ensures
      var n, late, rescued := LastId(cfg, t, id, good), Reaches(t) && t.late, Rescues(cfg, t, good);
      Reporting(tr, cfg, t, id, good)
      == tr + (if rescued && (t.rescueActThrows || t.rescueStepThrows) then [FallbackFailed(n)] else [])
         + (if t.rescueRecordThrows then []
            else if rescued then [TickEnd(n, late, TickError), ActionInvalid(n), FallbackUsed(n), ErrorEvent]
            else [TickEnd(n, late, TickError), ActionInvalid(n), ErrorEvent])
  {
    hide Fails, Rescues, LastId, Report;
    var n, rescued := LastId(cfg, t, id, good), Rescues(cfg, t, good);
    var failed := Say(tr, rescued && (t.rescueActThrows || t.rescueStepThrows), FallbackFailed(n));
    ReportShape(failed, n, Reaches(t) && t.late, rescued);
    assert forall s: Trace :: s + [] == s;
  }

  lemma RecoveryShape(tr: Trace, cfg: Config, t: Tick, at: Place, id: nat, good: Option<Action>)
    requires Fails(cfg, t, good)
    ensures Reporting(Rescuing(tr, cfg, t, at, good), cfg, t, id, good)
            == tr + RecoveryEvents(cfg, t, at, LastId(cfg, t, id, good), Reaches(t) && t.late, GoodAfter(t, good))
  {
    hide Fails, Slips, LastId, GoodAfter, Reporting, Rescuing;
    RescuingShape(tr, cfg, t, at, good);
    ReportingShape(Rescuing(tr, cfg, t, at, good), cfg, t, id, good);
  }

  lemma NoRecovery(tr: Trace, cfg: Config, t: Tick, at: Place, id: nat, good: Option<Action>)
    requires !Fails(cfg, t, good)
    ensures Reporting(Rescuing(tr, cfg, t, at, good), cfg, t, id, good) == tr
  {
    hide Fails;
  }

  /** The events of a tick up to its action. */
  function OpeningEvents(cfg: Config, t: Tick, at: Place, n: nat, good: Option<Action>): Trace {
    if t.observeThrows then []
    else if t.onTickThrows then [TickBegin(n)]
    else if !InTimeAction(t) && (good != None || cfg.safe != None) then
      [TickBegin(n), Proposed(at, t.candidate, !t.late), FallbackUsed(n)]
    else [TickBegin(n), Proposed(at, t.candidate, !t.late)]
  }

  lemma OpeningShape(tr: Trace, cfg: Config, t: Tick, at: Place, id: nat, good: Option<Action>)
    ensures Opening(tr, cfg, t, at, id, good) == tr + OpeningEvents(cfg, t, at, id, good)
  {
    assert tr + [] == tr;
  }

  lemma SentEvents(cfg: Config, t: Tick, at: Place, id: nat, good: Option<Action>)
    requires Sends(cfg, t, good)
    ensures TickEvents(cfg, t, at, id, good)
            == OpeningEvents(cfg, t, at, id, good)
               + ActEvents(cfg, t, at, id, Choice(cfg, t, good).value, GoodAfter(t, good))
  {
    hide RecoveryEvents, ActEvents;
  }

  lemma UnsentEvents(cfg: Config, t: Tick, at: Place, id: nat, good: Option<Action>)
    requires !Sends(cfg, t, good)
    ensures Fails(cfg, t, good) && LastId(cfg, t, id, good) == id && GoodAfter(t, good) == good
    ensures TickEvents(cfg, t, at, id, good)
            == OpeningEvents(cfg, t, at, id, good)
               + RecoveryEvents(cfg, t, at, id, Reaches(t) && t.late, good)
  {
    hide RecoveryEvents, ActEvents;
  }

  /** From the action on. */
  lemma ActShape(tr: Trace, cfg: Config, t: Tick, at: Place, id: nat, good: Option<Action>)
    requires Sends(cfg, t, good)
    ensures Reporting(Rescuing(Settling(Sending(tr, cfg, t, at, good), cfg, t, at, id, good), cfg, t, at, good),
                      cfg, t, id, good)
            == tr + ActEvents(cfg, t, at, id, Choice(cfg, t, good).value, GoodAfter(t, good))
  {
    hide RecoveryEvents, Reporting, Rescuing, GoodAfter;
    var settled := Settling(Sending(tr, cfg, t, at, good), cfg, t, at, id, good);
    if Fails(cfg, t, good) {
      RecoveryShape(settled, cfg, t, at, id, good);
    } else {
      NoRecovery(settled, cfg, t, at, id, good);
    }
  }

  /** Whatever a tick meets, its events are those of the branches it takes. */
  lemma TickShape(tr: Trace, cfg: Config, t: Tick, at: Place, id: nat, good: Option<Action>)
    ensures TickTrace(tr, cfg, t, at, id, good) == tr + TickEvents(cfg, t, at, id, good)
  {
    hide RecoveryEvents, ActEvents, OpeningEvents, TickEvents, Reporting, Rescuing, Opening, Fails, GoodAfter, Reaches;
    var begun, start := Opening(tr, cfg, t, at, id, good), OpeningEvents(cfg, t, at, id, good);
    OpeningShape(tr, cfg, t, at, id, good);
    if Sends(cfg, t, good) {
      ActShape(begun, cfg, t, at, id, good);
      SentEvents(cfg, t, at, id, good);
      Associates(tr, start, ActEvents(cfg, t, at, id, Choice(cfg, t, good).value, GoodAfter(t, good)));
    } else {
      UnsentEvents(cfg, t, at, id, good);
      NothingSent(begun, cfg, t, at, id, good);
      RecoveryShape(begun, cfg, t, at, id, good);
      Associates(tr, start, RecoveryEvents(cfg, t, at, id, Reaches(t) && t.late, good));
    }
  }

  lemma Associates(a: Trace, b: Trace, c: Trace)
    ensures a + b + c == a + (b + c)
  {
  }

  lemma NothingSent(tr: Trace, cfg: Config, t: Tick, at: Place, id: nat, good: Option<Action>)
    requires !Sends(cfg, t, good)
    ensures Settling(Sending(tr, cfg, t, at, good), cfg, t, at, id, good) == tr
  {
  }
}
