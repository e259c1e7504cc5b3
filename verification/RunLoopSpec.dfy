/**
  What a run of `env.run-loop` (src/env_builtins.cpp) does, as a function of its configuration and of a script
  that says how the backend, on_tick, the clock, the observer and the success predicate behave at each tick.
  A trace holds the loop's own events, what on_tick proposed, every action sent to the backend and every failure
  of the observer or the success predicate after a step.
 */
module RunLoopSpec {
  import opened Values

  /** An action map; only its identity matters. */
  datatype Action = Action(id: nat)

  datatype Config = Config(
    episodeMax: nat, stepMax: nat, supportsReset: bool, stopOnSuccess: bool, safe: Option<Action>)

  datatype TickStatus = TickRunning | TickStopped | TickOk | TickError

  datatype Status = Unsupported | StoppedByBackend | Succeeded | Errored | EpisodesDone

  /** A tick: its episode and its step within the episode, both from zero. */
  datatype Place = Place(episode: nat, step: nat)

  datatype Ev =
    | EpisodeBegin(episode: nat)
    | EpisodeEnd(episode: nat, episodeSteps: nat)
    | TickBegin(id: nat)
    | TickEnd(id: nat, overrun: bool, tickStatus: TickStatus)
    | FallbackUsed(id: nat)
    | FallbackFailed(id: nat)
    | ActionInvalid(id: nat)
    | ErrorEvent
    | RunEnd(status: Status, episodes: nat, steps: nat, fallbacks: nat, overruns: nat)
    | Proposed(at: Place, candidate: Option<Action>, onTime: bool)
    | Acted(at: Place, action: Action, accepted: bool, rescue: bool)
    | CallbackRaised(at: Place)

  /** How the world behaves at one tick.  `Throws` fields name the calls that throw. */
  datatype Tick = Tick(
    observeThrows: bool, onTickThrows: bool, candidate: Option<Action>, late: bool,
    actThrows: bool, stepThrows: bool, canContinue: bool,
    recordThrows: bool, predicateThrows: bool, success: bool,
    rescueActThrows: bool, rescueStepThrows: bool, rescueRecordThrows: bool)

  datatype Script = Script(tick: Place -> Tick, resetThrows: nat -> bool)

  type Trace = seq<Ev>

  datatype Result = Returned(status: Status, episodes: nat, steps: nat, fallbacks: nat, overruns: nat) | Threw

  // ----- one tick -----

  /** on_tick gave an action in time. */
  predicate Usable(t: Tick) {
    t.candidate.Some? && !t.late
  }

  /** on_tick returned. */
  predicate Reaches(t: Tick) {
    !t.observeThrows && !t.onTickThrows
  }

  function Fallback(cfg: Config, good: Option<Action>): Option<Action> {
    if good.Some? then good else cfg.safe
  }

  function Choice(cfg: Config, t: Tick, good: Option<Action>): Option<Action> {
    if Usable(t) then t.candidate else Fallback(cfg, good)
  }

  predicate Sends(cfg: Config, t: Tick, good: Option<Action>) {
    Reaches(t) && Choice(cfg, t, good).Some?
  }

  /** Something throws, or there is no action to send. */
  predicate Fails(cfg: Config, t: Tick, good: Option<Action>) {
    || t.observeThrows || t.onTickThrows || t.actThrows || t.stepThrows || t.recordThrows || t.predicateThrows
    || (!Usable(t) && good.None? && cfg.safe.None?)
  }

  /** The step was made, and then the observer or the success predicate threw. */
  predicate Slips(cfg: Config, t: Tick, good: Option<Action>) {
    Sends(cfg, t, good) && !t.actThrows && !t.stepThrows && (t.recordThrows || t.predicateThrows)
  }

  /** The last good action once the tick has sent its action. */
  function GoodAfter(t: Tick, good: Option<Action>): Option<Action> {
    if Reaches(t) && Usable(t) && !t.actThrows then t.candidate else good
  }

  predicate Rescues(cfg: Config, t: Tick, good: Option<Action>) {
    Fails(cfg, t, good) && Fallback(cfg, GoodAfter(t, good)).Some?
  }

  /** The recovery itself throws, and with it the whole run. */
  predicate Escapes(cfg: Config, t: Tick, good: Option<Action>) {
    Fails(cfg, t, good) && t.rescueRecordThrows
  }

  function StatusOf(cfg: Config, t: Tick): Option<Status> {
    if !t.canContinue then Some(StoppedByBackend)
    else if cfg.stopOnSuccess && t.success then Some(Succeeded)
    else None
  }

  /** How a tick ends the run, if it does. */
  function Fate(cfg: Config, t: Tick, good: Option<Action>): Option<Status> {
    if Fails(cfg, t, good) then Some(Errored) else StatusOf(cfg, t)
  }

  function TickStatusOf(cfg: Config, t: Tick): TickStatus {
    match StatusOf(cfg, t)
    case None => TickRunning
    case Some(StoppedByBackend) => TickStopped
    case Some(_) => TickOk
  }

  // Each part of a tick adds its events to a trace, every event with the condition under which it occurs.

  function Say(tr: Trace, b: bool, e: Ev): Trace {
    if b then tr + [e] else tr
  }

  function Opening(tr: Trace, cfg: Config, t: Tick, at: Place, id: nat, good: Option<Action>): Trace {
    var begun := Say(tr, !t.observeThrows, TickBegin(id));
    var proposed := Say(begun, Reaches(t), Proposed(at, t.candidate, !t.late));
    Say(proposed, Sends(cfg, t, good) && !Usable(t), FallbackUsed(id))
  }

  function Sending(tr: Trace, cfg: Config, t: Tick, at: Place, good: Option<Action>): Trace {
    if Sends(cfg, t, good) then tr + [Acted(at, Choice(cfg, t, good).value, !t.actThrows, false)] else tr
  }

  function Settling(tr: Trace, cfg: Config, t: Tick, at: Place, id: nat, good: Option<Action>): Trace {
    var raised := Say(tr, Slips(cfg, t, good), CallbackRaised(at));
    Say(raised, !Fails(cfg, t, good), TickEnd(id, t.late, TickStatusOf(cfg, t)))
  }

  function Rescuing(tr: Trace, cfg: Config, t: Tick, at: Place, good: Option<Action>): Trace {
    if Rescues(cfg, t, good) then
      tr + [Acted(at, Fallback(cfg, GoodAfter(t, good)).value, !t.rescueActThrows, true)]
    else tr
  }

  /** A slip counts its tick twice, so the recovery reports it under the next number. */
  function LastId(cfg: Config, t: Tick, id: nat, good: Option<Action>): nat {
    if Slips(cfg, t, good) then id + 1 else id
  }

  function Reporting(tr: Trace, cfg: Config, t: Tick, id: nat, good: Option<Action>): Trace {
    var last := LastId(cfg, t, id, good);
    var failed := Say(tr, Rescues(cfg, t, good) && (t.rescueActThrows || t.rescueStepThrows), FallbackFailed(last));
    if Fails(cfg, t, good) && !t.rescueRecordThrows then
      Report(failed, last, Reaches(t) && t.late, Rescues(cfg, t, good))
    else failed
  }

  function Report(tr: Trace, id: nat, late: bool, rescued: bool): Trace {
    Say(tr + [TickEnd(id, late, TickError)] + [ActionInvalid(id)], rescued, FallbackUsed(id)) + [ErrorEvent]
  }

  /** A trace with the events of one more tick. */
  function TickTrace(tr: Trace, cfg: Config, t: Tick, at: Place, id: nat, good: Option<Action>): Trace {
    var sent := Sending(Opening(tr, cfg, t, at, id, good), cfg, t, at, good);
    var rescued := Rescuing(Settling(sent, cfg, t, at, id, good), cfg, t, at, good);
    Reporting(rescued, cfg, t, id, good)
  }

  // ----- a whole run -----

  /** The last good action before a tick; every episode starts without one. */
  function GoodAt(script: Script, e: nat, k: nat): Option<Action> {
    if k == 0 then None else GoodAfter(script.tick(Place(e, k - 1)), GoodAt(script, e, k - 1))
  }

  function FateAt(cfg: Config, script: Script, e: nat, k: nat): Option<Status> {
    Fate(cfg, script.tick(Place(e, k)), GoodAt(script, e, k))
  }

  function StepsBefore(cfg: Config, e: nat, k: nat): nat {
    e * cfg.stepMax + k
  }

  function AddTick(tr: Trace, cfg: Config, script: Script, e: nat, k: nat): Trace {
    TickTrace(tr, cfg, script.tick(Place(e, k)), Place(e, k), StepsBefore(cfg, e, k) + 1, GoodAt(script, e, k))
  }

  /** The events of e whole episodes. */
  function EpisodesTrace(cfg: Config, script: Script, e: nat): Trace
    decreases e, 0, 0
  {
    if e == 0 then [] else TraceTo(cfg, script, e - 1, cfg.stepMax) + [EpisodeEnd(e, cfg.stepMax)]
  }

  /** The events before tick (e, k). */
  function TraceTo(cfg: Config, script: Script, e: nat, k: nat): Trace
    decreases e, 1, k
  {
    if k == 0 then EpisodesTrace(cfg, script, e) + [EpisodeBegin(e + 1)]
    else AddTick(TraceTo(cfg, script, e, k - 1), cfg, script, e, k - 1)
  }

  datatype Exit = Refused | AtReset(episode: nat) | AtTick(at: Place) | AtEnd

  predicate ResetFails(cfg: Config, script: Script, e: nat) {
    cfg.supportsReset && script.resetThrows(e)
  }

  /** Where a run that has come to (e, k) ends. */
  function ExitFrom(cfg: Config, script: Script, e: nat, k: nat): Exit
    requires e <= cfg.episodeMax && k <= cfg.stepMax
    decreases cfg.episodeMax - e, cfg.stepMax - k
  {
    if e == cfg.episodeMax then AtEnd
    else if k == 0 && ResetFails(cfg, script, e) then AtReset(e)
    else if k == cfg.stepMax then ExitFrom(cfg, script, e + 1, 0)
    else if FateAt(cfg, script, e, k).Some? then AtTick(Place(e, k))
    else ExitFrom(cfg, script, e, k + 1)
  }

  function RunExit(cfg: Config, script: Script): Exit {
    if cfg.episodeMax > 1 && !cfg.supportsReset then Refused else ExitFrom(cfg, script, 0, 0)
  }

  predicate EscapesAt(cfg: Config, script: Script, at: Place) {
    Escapes(cfg, script.tick(at), GoodAt(script, at.episode, at.step))
  }

  /** The number of steps counted when the run ends at this tick. */
  function StepsThrough(cfg: Config, script: Script, at: Place): nat {
    LastId(cfg, script.tick(at), StepsBefore(cfg, at.episode, at.step) + 1, GoodAt(script, at.episode, at.step))
  }

  function LastEpisodeEnd(cfg: Config, script: Script, at: Place): Ev {
    EpisodeEnd(at.episode + 1, StepsThrough(cfg, script, at) - at.episode * cfg.stepMax)
  }

  /** Everything but the run_end. */
  function BodyTrace(cfg: Config, script: Script): Trace {
    match RunExit(cfg, script)
    case Refused => [ErrorEvent]
    case AtReset(e) => EpisodesTrace(cfg, script, e) + [ErrorEvent]
    case AtEnd => EpisodesTrace(cfg, script, cfg.episodeMax)
    case AtTick(at) =>
      var tr := AddTick(TraceTo(cfg, script, at.episode, at.step), cfg, script, at.episode, at.step);
      if EscapesAt(cfg, script, at) then tr
      else tr + [LastEpisodeEnd(cfg, script, at)]
  }

  function Fallbacks(tr: Trace): nat {
    if tr == [] then 0 else Fallbacks(tr[..|tr| - 1]) + if tr[|tr| - 1].FallbackUsed? then 1 else 0
  }

  function Overruns(tr: Trace): nat {
    if tr == [] then 0
    else Overruns(tr[..|tr| - 1]) + if tr[|tr| - 1].TickEnd? && tr[|tr| - 1].overrun then 1 else 0
  }

  /** The counters a run returns are the numbers of its events. */
  function Counting(status: Status, episodes: nat, steps: nat, tr: Trace): Result {
    Returned(status, episodes, steps, Fallbacks(tr), Overruns(tr))
  }

  function RunResult(cfg: Config, script: Script): Result {
    var tr := BodyTrace(cfg, script);
    match RunExit(cfg, script)
    case Refused => Counting(Unsupported, 0, 0, tr)
    case AtReset(_) => Threw
    case AtEnd => Counting(EpisodesDone, cfg.episodeMax, cfg.episodeMax * cfg.stepMax, tr)
    case AtTick(at) =>
      var fate := FateAt(cfg, script, at.episode, at.step);
      if EscapesAt(cfg, script, at) || fate.None? then Threw
      else Counting(fate.value, at.episode + 1, StepsThrough(cfg, script, at), tr)
  }

  function RunTrace(cfg: Config, script: Script): Trace {
    BodyTrace(cfg, script) + Ending(RunResult(cfg, script))
  }

  /** A run that returns repeats its result as its last event. */
  function Ending(r: Result): Trace {
    if r.Returned? then [RunEnd(r.status, r.episodes, r.steps, r.fallbacks, r.overruns)] else []
  }
}
