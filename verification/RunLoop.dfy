/**
  `env.run-loop` of src/env_builtins.cpp as it runs: nested episode and tick loops with fallback selection,
  exception recovery and counters.  The loop is proved to leave exactly the trace and the result of RunLoopSpec;
  RunLoopProperties proves what those promise.
 */
module RunLoop {
  import opened Values
  import opened RunLoopSpec
  import opened RunLoopProperties

  class Loop {
    const cfg: Config
    var steps: nat
    var episodeSteps: nat
    var episodes: nat
    var fallbacks: nat
    var overruns: nat
    var good: Option<Action>
    var trace: Trace

    constructor (cfg: Config)
      ensures this.cfg == cfg && trace == [] && steps == episodes == fallbacks == overruns == 0
    {
      this.cfg := cfg;
      steps, episodeSteps, episodes, fallbacks, overruns, good, trace := 0, 0, 0, 0, 0, None, [];
    }

    /** Counters against the trace, with a fallback or an overrun whose event is still to come. */
    ghost predicate Counted(fallbackDue: nat, overrunDue: nat)
      reads this`fallbacks, this`overruns, this`trace
    {
      fallbacks == Fallbacks(trace) + fallbackDue && overruns == Overruns(trace) + overrunDue
    }

    method Emit(e: Ev)
      modifies this`trace
      ensures trace == old(trace) + [e]
      ensures Fallbacks(trace) == Fallbacks(old(trace)) + if e.FallbackUsed? then 1 else 0
      ensures Overruns(trace) == Overruns(old(trace)) + if e.TickEnd? && e.overrun then 1 else 0
    {
      hide Fallbacks, Overruns;
      CountsSnoc(trace, e);
      trace := trace + [e];
    }

    /** Pick the action of this tick and send it; false when there is none to send or sending throws. */
    method ChooseAndAct(t: Tick, at: Place) returns (acted: bool)
      requires Reaches(t) && Counted(0, if t.late then 1 else 0)
      modifies this`fallbacks, this`good, this`trace
      ensures acted <==> Sends(cfg, t, old(good)) && !t.actThrows
      ensures good == GoodAfter(t, old(good)) && Counted(0, if t.late then 1 else 0)
      ensures
        var announced := Say(old(trace), Sends(cfg, t, old(good)) && !Usable(t), FallbackUsed(steps + 1));
        trace == Sending(announced, cfg, t, at, old(good))
    {
      hide Fallbacks, Overruns;
      var chosen, fromOnTick := t.candidate, true;
      if t.late || t.candidate.None? {
        chosen, fromOnTick := if good.Some? then good else cfg.safe, false;
        if chosen.None? {
          return false;
        }
        fallbacks := fallbacks + 1;
        Emit(FallbackUsed(steps + 1));
      }
      Emit(Acted(at, chosen.value, !t.actThrows, false));
      if t.actThrows {
        return false;
      }
      if fromOnTick {
        good := chosen;
      }
      return true;
    }

    /** The end of a tick whose action the backend has accepted. */
    method StepAndRecord(t: Tick, at: Place) returns (threw: bool)
      requires Counted(0, if t.late then 1 else 0)
      modifies this`steps, this`episodeSteps, this`trace
      ensures threw == (t.stepThrows || t.recordThrows || t.predicateThrows)
      ensures steps == old(steps) + (if t.stepThrows then 0 else 1)
      ensures episodeSteps - old(episodeSteps) == steps - old(steps)
      ensures
        var raised := Say(old(trace), !t.stepThrows && threw, CallbackRaised(at));
        trace == Say(raised, !threw, TickEnd(old(steps) + 1, t.late, TickStatusOf(cfg, t)))
      ensures Counted(0, if threw && t.late then 1 else 0)
    {
      hide Fallbacks, Overruns;
      if t.stepThrows {
        return true;
      }
      steps := steps + 1;
      episodeSteps := episodeSteps + 1;
      if t.recordThrows || t.predicateThrows {
        Emit(CallbackRaised(at));
        return true;
      }
      var status := TickRunning;
      if !t.canContinue {
        status := TickStopped;
      } else if cfg.stopOnSuccess && t.success {
        status := TickOk;
      }
      Emit(TickEnd(steps, t.late, status));
      return false;
    }

    /** The guarded part of a tick.  `late` tells whether an overrun was counted. */
    method Attempt(t: Tick, at: Place) returns (threw: bool, late: bool)
      requires Counted(0, 0)
      modifies this`steps, this`episodeSteps, this`fallbacks, this`overruns, this`good, this`trace
      ensures threw == Fails(cfg, t, old(good)) && late == (Reaches(t) && t.late)
      ensures good == GoodAfter(t, old(good))
      ensures steps == old(steps) + (if !threw || Slips(cfg, t, old(good)) then 1 else 0)
      ensures episodeSteps - old(episodeSteps) == steps - old(steps)
      ensures
        var sent := Sending(Opening(old(trace), cfg, t, at, old(steps) + 1, old(good)), cfg, t, at, old(good));
        trace == Settling(sent, cfg, t, at, old(steps) + 1, old(good))
      ensures Counted(0, if threw && late then 1 else 0)
    {
      hide Fallbacks, Overruns;
      threw, late := true, false;
      if t.observeThrows {
        return;
      }
      Emit(TickBegin(steps + 1));
      if t.onTickThrows {
        return;
      }
      Emit(Proposed(at, t.candidate, !t.late));
      late := t.late;
      if late {
        overruns := overruns + 1;
      }
      var acted := ChooseAndAct(t, at);
      if acted {
        threw := StepAndRecord(t, at);
      }
    }

    /** The best-effort fallback action of the recovery; `before` is the last good action at the tick's start. */
    method Rescue(t: Tick, at: Place, ghost before: Option<Action>) returns (sent: bool)
      requires Fails(cfg, t, before) && good == GoodAfter(t, before)
      modifies this`fallbacks, this`trace
      ensures sent == Rescues(cfg, t, before) && fallbacks == old(fallbacks) + if sent then 1 else 0
      ensures
        var rescued := Rescuing(old(trace), cfg, t, at, before);
        trace == Say(rescued, sent && (t.rescueActThrows || t.rescueStepThrows), FallbackFailed(steps + 1))
      ensures Fallbacks(trace) == Fallbacks(old(trace)) && Overruns(trace) == Overruns(old(trace))
    {
      hide Fallbacks, Overruns, Fails;
      var safety := if good.Some? then good else cfg.safe;
      if safety.None? {
        return false;
      }
      fallbacks := fallbacks + 1;
      Emit(Acted(at, safety.value, !t.rescueActThrows, true));
      if t.rescueActThrows || t.rescueStepThrows {
        Emit(FallbackFailed(steps + 1));
      }
      return true;
    }

    /** The events that report a failed tick. */
    method EmitReport(sent: bool, late: bool)
      requires Counted(if sent then 1 else 0, if late then 1 else 0)
      modifies this`trace
      ensures trace == Report(old(trace), steps, late, sent)
      ensures Counted(0, 0)
    {
      hide Fallbacks, Overruns;
      Emit(TickEnd(steps, late, TickError));
      Emit(ActionInvalid(steps));
      if sent {
        Emit(FallbackUsed(steps));
      }
      Emit(ErrorEvent);
    }

    /** Recovery from a throwing tick, unless record emission throws again. */
    method Recover(t: Tick, at: Place, late: bool, ghost before: Option<Action>, ghost id: nat) returns (escaped: bool)
      requires Fails(cfg, t, before) && good == GoodAfter(t, before) && late == (Reaches(t) && t.late)
      requires steps + 1 == LastId(cfg, t, id, before) && Counted(0, if late then 1 else 0)
      modifies this`steps, this`episodeSteps, this`fallbacks, this`trace
      ensures escaped == t.rescueRecordThrows && steps == old(steps) + 1 && episodeSteps == old(episodeSteps) + 1
      ensures trace == Reporting(Rescuing(old(trace), cfg, t, at, before), cfg, t, id, before)
      ensures !escaped ==> Counted(0, 0)
    {
      hide Fallbacks, Overruns, Fails, Rescuing, Rescues, Report;
      var sent := Rescue(t, at, before);
      steps := steps + 1;
      episodeSteps := episodeSteps + 1;
      if t.rescueRecordThrows {
        return true;
      }
      EmitReport(sent, late);
      return false;
    }

    /** One tick with its recovery: exactly its events, its fate, and no other change. */
    method OneTick(t: Tick, at: Place) returns (end: Option<Status>, escaped: bool)
      requires Counted(0, 0)
      modifies this`steps, this`episodeSteps, this`fallbacks, this`overruns, this`good, this`trace
      ensures trace == TickTrace(old(trace), cfg, t, at, old(steps) + 1, old(good))
      ensures end == Fate(cfg, t, old(good)) && escaped == Escapes(cfg, t, old(good))
      ensures good == GoodAfter(t, old(good)) && steps == LastId(cfg, t, old(steps) + 1, old(good))
      ensures episodeSteps - old(episodeSteps) == steps - old(steps)
      ensures !escaped ==> Counted(0, 0)
    {
      hide Fallbacks, Overruns, Fails, Slips, Opening, Sending, Settling, Rescuing, Reporting;
      ghost var before, id := good, steps + 1;
      SlipsFail(cfg, t, good);
      var threw, late := Attempt(t, at);
      if threw {
        escaped := Recover(t, at, late, before, id);
        return Some(Errored), escaped;
      }
      NothingToReport(trace, cfg, t, at, id, before);
      if !t.canContinue {
        return Some(StoppedByBackend), false;
      }
      if cfg.stopOnSuccess && t.success {
        return Some(Succeeded), false;
      }
      return None, false;
    }

    /** The counters when a run has come to tick (e, k). */
    ghost predicate Arrived(e: nat, k: nat)
      reads this
    {
      Counted(0, 0) && steps == StepsBefore(cfg, e, k) && episodes == e
    }

    /** The trace and the counters are those of the run's result; only its last event is missing. */
    ghost predicate Complete(script: Script, status: Status)
      reads this
    {
      && trace == BodyTrace(cfg, script)
      && RunResult(cfg, script) == Returned(status, episodes, steps, fallbacks, overruns)
    }

    /** One episode, up to its end or to the end of the run. */
    method OneEpisode(script: Script, e: nat) returns (end: Option<Status>, escaped: bool)
      requires e < cfg.episodeMax && Arrived(e, 0) && trace == EpisodesTrace(cfg, script, e)
      requires RunExit(cfg, script) == ExitFrom(cfg, script, e, 0)
      modifies this
      ensures escaped ==> trace == BodyTrace(cfg, script) && RunResult(cfg, script) == Threw
      ensures !escaped && end.Some? ==> Complete(script, end.value)
      ensures !escaped && end.None? ==> Arrived(e + 1, 0) && trace == EpisodesTrace(cfg, script, e + 1)
      ensures !escaped && end.None? ==> RunExit(cfg, script) == ExitFrom(cfg, script, e + 1, 0)
    {
      hide Fallbacks, Overruns, TickTrace, Fate, Escapes, GoodAfter, RunExit, LastId, ExitFrom, BodyTrace, RunResult,
           StepsBefore, TraceTo, EpisodesTrace, GoodAt, LastEpisodeEnd;
      Unfold(cfg, script, e, 0);
      good, episodeSteps := None, 0;
      if cfg.supportsReset && script.resetThrows(e) {
        ExitsAtReset(cfg, script, e);
        Emit(ErrorEvent);
        return None, true;
      }
      Emit(EpisodeBegin(e + 1));
      var k := 0;
      while k < cfg.stepMax
        invariant 0 <= k <= cfg.stepMax
        invariant Arrived(e, k) && episodeSteps == k && good == GoodAt(script, e, k)
        invariant trace == TraceTo(cfg, script, e, k)
        invariant RunExit(cfg, script) == ExitFrom(cfg, script, e, k)
      {
        Unfold(cfg, script, e, k);
        FateKeepsCount(cfg, script, e, k);
        GoesOn(cfg, script, e, k);
        if FateAt(cfg, script, e, k).Some? {
          ExitsAtTick(cfg, script, e, k);
        }
        end, escaped := OneTick(script.tick(Place(e, k)), Place(e, k));
        if escaped {
          return;
        }
        if end.Some? {
          episodes := e + 1;
          Emit(EpisodeEnd(e + 1, episodeSteps));
          return;
        }
        k := k + 1;
      }
      NextEpisode(cfg, script, e);
      episodes := episodes + 1;
      Emit(EpisodeEnd(e + 1, episodeSteps));
      return None, false;
    }

    /** The whole run leaves exactly the specified trace and result, and with them all that is promised of them. */
    method Run(script: Script) returns (r: Result)
      requires trace == [] && steps == episodes == fallbacks == overruns == 0
      modifies this
      ensures trace == RunTrace(cfg, script)
      ensures r == RunResult(cfg, script)
      ensures AllOk(trace, cfg, script) && Orderly(trace)
      ensures r.Returned? ==> Closed(trace, r) && Conserved(trace, r, cfg, SlipsAtEnd(cfg, script))
    {
      hide Fallbacks, Overruns, BodyTrace, RunResult, ExitFrom, TraceTo, AllOk, Orderly, Closed, Conserved, SlipsAtEnd;
      RunPromises(cfg, script);
      StartsCounted();
      var status := EpisodesDone;
      if cfg.episodeMax > 1 && !cfg.supportsReset {
        Emit(ErrorEvent);
        status := Unsupported;
        RefusedRun(script);
      } else {
        var e := 0;
        var done := false;
        while e < cfg.episodeMax && !done
          invariant 0 <= e <= cfg.episodeMax
          invariant !done ==> Arrived(e, 0) && trace == EpisodesTrace(cfg, script, e) && status == EpisodesDone
          invariant !done ==> RunExit(cfg, script) == ExitFrom(cfg, script, e, 0)
          invariant done ==> Complete(script, status)
          decreases cfg.episodeMax - e, !done
        {
          var end, escaped := OneEpisode(script, e);
          if escaped {
            return Threw;
          }
          if end.Some? {
            status, done := end.value, true;
          } else {
            e := e + 1;
          }
        }
        if !done {
          FinishedRun(script);
        }
      }
      r := Returned(status, episodes, steps, fallbacks, overruns);
      Emit(RunEnd(status, episodes, steps, fallbacks, overruns));
    }

    lemma StartsCounted()
      requires trace == [] && steps == episodes == fallbacks == overruns == 0
      ensures Arrived(0, 0)
    {
    }

    lemma RefusedRun(script: Script)
      requires cfg.episodeMax > 1 && !cfg.supportsReset
      requires trace == [ErrorEvent] && steps == episodes == 0 && Counted(0, 0)
      ensures Complete(script, Unsupported)
    {
    }

    lemma FinishedRun(script: Script)
      requires Arrived(cfg.episodeMax, 0) && trace == EpisodesTrace(cfg, script, cfg.episodeMax)
      requires RunExit(cfg, script) == ExitFrom(cfg, script, cfg.episodeMax, 0)
      ensures Complete(script, EpisodesDone)
    {
    }
  }

  /** One level of the trace and of the last good action. */
  lemma Unfold(cfg: Config, script: Script, e: nat, k: nat)
    ensures TraceTo(cfg, script, e, 0) == EpisodesTrace(cfg, script, e) + [EpisodeBegin(e + 1)]
    ensures TraceTo(cfg, script, e, k + 1) == AddTick(TraceTo(cfg, script, e, k), cfg, script, e, k)
    ensures EpisodesTrace(cfg, script, e + 1) == TraceTo(cfg, script, e, cfg.stepMax) + [EpisodeEnd(e + 1, cfg.stepMax)]
    ensures GoodAt(script, e, 0) == None
    ensures GoodAt(script, e, k + 1) == GoodAfter(script.tick(Place(e, k)), GoodAt(script, e, k))
  {
  }

  lemma SlipsFail(cfg: Config, t: Tick, good: Option<Action>)
    ensures Slips(cfg, t, good) ==> Fails(cfg, t, good)
  {
  }

  lemma NothingToReport(tr: Trace, cfg: Config, t: Tick, at: Place, id: nat, good: Option<Action>)
    requires !Fails(cfg, t, good)
    ensures Reporting(Rescuing(tr, cfg, t, at, good), cfg, t, id, good) == tr
  {
  }

  /** A tick that does not end the run counts one step. */
  lemma FateKeepsCount(cfg: Config, script: Script, e: nat, k: nat)
    ensures
      var at, here := Place(e, k), StepsBefore(cfg, e, k);
      && StepsBefore(cfg, e, k + 1) == here + 1 <= StepsThrough(cfg, script, at)
      && (FateAt(cfg, script, e, k).None? ==> StepsThrough(cfg, script, at) == here + 1)
      && LastEpisodeEnd(cfg, script, at) == EpisodeEnd(e + 1, StepsThrough(cfg, script, at) - here + k)
  {
  }

  lemma NextEpisode(cfg: Config, script: Script, e: nat)
    requires e < cfg.episodeMax && !ResetFails(cfg, script, e)
    ensures StepsBefore(cfg, e, cfg.stepMax) == StepsBefore(cfg, e + 1, 0)
    ensures ExitFrom(cfg, script, e, cfg.stepMax) == ExitFrom(cfg, script, e + 1, 0)
  {
  }

  lemma ExitsAtReset(cfg: Config, script: Script, e: nat)
    requires e < cfg.episodeMax && ResetFails(cfg, script, e)
    requires RunExit(cfg, script) == ExitFrom(cfg, script, e, 0)
    ensures BodyTrace(cfg, script) == EpisodesTrace(cfg, script, e) + [ErrorEvent] && RunResult(cfg, script) == Threw
  {
    hide EpisodesTrace, Fallbacks, Overruns, RunExit;
  }

  lemma GoesOn(cfg: Config, script: Script, e: nat, k: nat)
    requires e < cfg.episodeMax && k < cfg.stepMax && !ResetFails(cfg, script, e)
    ensures FateAt(cfg, script, e, k).None? ==> ExitFrom(cfg, script, e, k) == ExitFrom(cfg, script, e, k + 1)
    ensures FateAt(cfg, script, e, k).None? ==> !EscapesAt(cfg, script, Place(e, k))
  {
    hide FateAt, EscapesAt;
    EscapesEnd(cfg, script, e, k);
  }

  lemma ExitsAtTick(cfg: Config, script: Script, e: nat, k: nat)
    requires e < cfg.episodeMax && k < cfg.stepMax && !ResetFails(cfg, script, e)
    requires RunExit(cfg, script) == ExitFrom(cfg, script, e, k) && FateAt(cfg, script, e, k).Some?
    ensures
      var at, tr := Place(e, k), AddTick(TraceTo(cfg, script, e, k), cfg, script, e, k);
      if EscapesAt(cfg, script, at) then BodyTrace(cfg, script) == tr && RunResult(cfg, script) == Threw
      else
        var steps := StepsThrough(cfg, script, at);
        var body := tr + [LastEpisodeEnd(cfg, script, at)];
        && BodyTrace(cfg, script) == body
        && RunResult(cfg, script) == Counting(FateAt(cfg, script, e, k).value, e + 1, steps, body)
  {
    hide TraceTo, AddTick, Fallbacks, Overruns, FateAt, EscapesAt, LastId, RunExit;
  }
}
