/** What every run of `env.run-loop` promises, whatever the backend and the callbacks do. */
module RunLoopProperties {
  import opened Values
  import opened RunLoopSpec

  // ----- where a run ends -----

  predicate Earlier(a: Place, b: Place) {
    a.episode < b.episode || (a.episode == b.episode && a.step < b.step)
  }

  /** No tick before this one ends the run. */
  ghost predicate Clear(cfg: Config, script: Script, at: Place) {
    forall p: Place :: p.step < cfg.stepMax && Earlier(p, at) ==> FateAt(cfg, script, p.episode, p.step).None?
  }

  /** The first n resets work. */
  predicate ResetsWork(cfg: Config, script: Script, n: nat) {
    forall e: nat :: e < n ==> !ResetFails(cfg, script, e)
  }

  predicate Allowed(cfg: Config) {
    cfg.episodeMax <= 1 || cfg.supportsReset
  }

  ghost predicate EndsAt(cfg: Config, script: Script, x: Exit) {
    match x
    case Refused => !Allowed(cfg)
    case AtReset(e) =>
      Allowed(cfg) && e < cfg.episodeMax && ResetFails(cfg, script, e) && ResetsWork(cfg, script, e)
      && Clear(cfg, script, Place(e, 0))
    case AtTick(at) =>
      Allowed(cfg) && at.episode < cfg.episodeMax && at.step < cfg.stepMax
      && FateAt(cfg, script, at.episode, at.step).Some?
      && ResetsWork(cfg, script, at.episode + 1) && Clear(cfg, script, at)
    case AtEnd =>
      Allowed(cfg) && ResetsWork(cfg, script, cfg.episodeMax) && Clear(cfg, script, Place(cfg.episodeMax, 0))
  }

  lemma {:induction false} ExitFromEnds(cfg: Config, script: Script, e: nat, k: nat)
    requires Allowed(cfg) && e <= cfg.episodeMax && k <= cfg.stepMax && Clear(cfg, script, Place(e, k))
    requires ResetsWork(cfg, script, if k == 0 then e else e + 1) && (e == cfg.episodeMax ==> k == 0)
    ensures EndsAt(cfg, script, ExitFrom(cfg, script, e, k))
    decreases cfg.episodeMax - e, cfg.stepMax - k
  {
    hide FateAt, ResetFails;
    if e < cfg.episodeMax && !(k == 0 && ResetFails(cfg, script, e)) {
      if k == cfg.stepMax {
        assert forall p: Place :: p.step < cfg.stepMax && Earlier(p, Place(e + 1, 0)) ==> Earlier(p, Place(e, k));
        ExitFromEnds(cfg, script, e + 1, 0);
      } else if FateAt(cfg, script, e, k).None? {
        assert forall p: Place :: Earlier(p, Place(e, k + 1)) ==> Earlier(p, Place(e, k)) || p == Place(e, k);
        ExitFromEnds(cfg, script, e, k + 1);
      }
    }
  }

  /** At most one exit is the first. */
  lemma EndsOnce(cfg: Config, script: Script, x: Exit, y: Exit)
    requires EndsAt(cfg, script, x) && EndsAt(cfg, script, y)
    ensures x == y
  {
    hide FateAt, ResetFails;
    match x
    case Refused =>
    case AtReset(_) =>
    case AtEnd =>
    case AtTick(p) =>
      if y.AtTick? {
        assert Earlier(p, y.at) || Earlier(y.at, p) || p == y.at;
      }
  }

  /**
    A run ends at the first tick that fails, is told to stop or succeeds, at the first reset that throws before
    it, or after all its episodes; and nowhere else.
   */
  lemma ExitExactly(cfg: Config, script: Script, x: Exit)
    ensures RunExit(cfg, script) == x <==> EndsAt(cfg, script, x)
  {
    hide FateAt, ResetFails, ExitFrom;
    if Allowed(cfg) {
      ExitFromEnds(cfg, script, 0, 0);
    }
    if EndsAt(cfg, script, x) {
      EndsOnce(cfg, script, x, RunExit(cfg, script));
    }
  }

  // ----- counting events -----

  lemma {:induction false} CountsSnoc(tr: Trace, e: Ev)
    ensures Fallbacks(tr + [e]) == Fallbacks(tr) + if e.FallbackUsed? then 1 else 0
    ensures Overruns(tr + [e]) == Overruns(tr) + if e.TickEnd? && e.overrun then 1 else 0
  {
    assert (tr + [e])[..|tr|] == tr;
  }

  datatype Tally = Tally(endIds: seq<nat>, halts: seq<TickStatus>, raises: nat, begins: nat, ends: nat)

  function Add(y: Tally, e: Ev): Tally {
    match e
    case TickEnd(id, _, status) =>
      y.(endIds := y.endIds + [id], halts := if status == TickRunning then y.halts else y.halts + [status])
    case CallbackRaised(_) => y.(raises := y.raises + 1)
    case EpisodeBegin(_) => y.(begins := y.begins + 1)
    case EpisodeEnd(_, _) => y.(ends := y.ends + 1)
    case _ => y
  }

  /** The tick_end ids in order, the tick statuses other than running, raised callbacks, episode begins and ends. */
  function TallyOf(tr: Trace): Tally {
    if tr == [] then Tally([], [], 0, 0, 0) else Add(TallyOf(tr[..|tr| - 1]), tr[|tr| - 1])
  }

  lemma {:induction false} TallySnoc(tr: Trace, e: Ev)
    ensures TallyOf(tr + [e]) == Add(TallyOf(tr), e)
  {
    assert (tr + [e])[..|tr|] == tr;
  }

  lemma TallySay(tr: Trace, b: bool, e: Ev)
    ensures TallyOf(Say(tr, b, e)) == if b then Add(TallyOf(tr), e) else TallyOf(tr)
  {
    hide TallyOf;
    TallySnoc(tr, e);
  }

  lemma OpeningTally(tr: Trace, cfg: Config, t: Tick, at: Place, id: nat, good: Option<Action>)
    ensures TallyOf(Opening(tr, cfg, t, at, id, good)) == TallyOf(tr)
  {
    hide TallyOf, Say;
    var begun := Say(tr, !t.observeThrows, TickBegin(id));
    var proposed := Say(begun, Reaches(t), Proposed(at, t.candidate, !t.late));
    TallySay(tr, !t.observeThrows, TickBegin(id));
    TallySay(begun, Reaches(t), Proposed(at, t.candidate, !t.late));
    TallySay(proposed, Sends(cfg, t, good) && !Usable(t), FallbackUsed(id));
  }

  lemma SendingTally(tr: Trace, cfg: Config, t: Tick, at: Place, good: Option<Action>)
    ensures TallyOf(Sending(tr, cfg, t, at, good)) == TallyOf(tr)
    ensures TallyOf(Rescuing(tr, cfg, t, at, good)) == TallyOf(tr)
  {
    hide TallyOf, Fails;
    if Sends(cfg, t, good) {
      TallySnoc(tr, Acted(at, Choice(cfg, t, good).value, !t.actThrows, false));
    }
    if Rescues(cfg, t, good) {
      TallySnoc(tr, Acted(at, Fallback(cfg, GoodAfter(t, good)).value, !t.rescueActThrows, true));
    }
  }

  lemma SettlingTally(tr: Trace, cfg: Config, t: Tick, at: Place, id: nat, good: Option<Action>)
    ensures
      var raised := if Slips(cfg, t, good) then Add(TallyOf(tr), CallbackRaised(at)) else TallyOf(tr);
      TallyOf(Settling(tr, cfg, t, at, id, good))
      == if Fails(cfg, t, good) then raised else Add(raised, TickEnd(id, t.late, TickStatusOf(cfg, t)))
  {
    hide TallyOf, Say, Fails, Slips, TickStatusOf;
    TallySay(tr, Slips(cfg, t, good), CallbackRaised(at));
    var raised := Say(tr, Slips(cfg, t, good), CallbackRaised(at));
    TallySay(raised, !Fails(cfg, t, good), TickEnd(id, t.late, TickStatusOf(cfg, t)));
  }

  lemma ReportTally(tr: Trace, id: nat, late: bool, rescued: bool)
    ensures TallyOf(Report(tr, id, late, rescued)) == Add(TallyOf(tr), TickEnd(id, late, TickError))
  {
    hide TallyOf, Say;
    var ended := tr + [TickEnd(id, late, TickError)];
    var invalid := ended + [ActionInvalid(id)];
    TallySnoc(tr, TickEnd(id, late, TickError));
    TallySnoc(ended, ActionInvalid(id));
    TallySay(invalid, rescued, FallbackUsed(id));
    TallySnoc(Say(invalid, rescued, FallbackUsed(id)), ErrorEvent);
  }

  lemma ReportingTally(tr: Trace, cfg: Config, t: Tick, id: nat, good: Option<Action>)
    ensures TallyOf(Reporting(tr, cfg, t, id, good))
            == if Fails(cfg, t, good) && !t.rescueRecordThrows
               then Add(TallyOf(tr), TickEnd(LastId(cfg, t, id, good), Reaches(t) && t.late, TickError))
               else TallyOf(tr)
  {
    hide TallyOf, Say, Report, Fails, Rescues, LastId;
    var last := LastId(cfg, t, id, good);
    var b := Rescues(cfg, t, good) && (t.rescueActThrows || t.rescueStepThrows);
    TallySay(tr, b, FallbackFailed(last));
    ReportTally(Say(tr, b, FallbackFailed(last)), last, Reaches(t) && t.late, Rescues(cfg, t, good));
  }

  /** What one tick adds: a tick_end, unless it escapes, and a raised callback if it slips. */
  lemma TickTally(tr: Trace, cfg: Config, t: Tick, at: Place, id: nat, good: Option<Action>)
    ensures
      var y := TallyOf(tr);
      var raised := if Slips(cfg, t, good) then y.(raises := y.raises + 1) else y;
      TallyOf(TickTrace(tr, cfg, t, at, id, good))
      == if Escapes(cfg, t, good) then raised
         else
           var fate := Fate(cfg, t, good);
           raised.(endIds := y.endIds + [LastId(cfg, t, id, good)],
                   halts := y.halts + if fate.None? then [] else [HaltOf(fate.value)])
  {
    hide TallyOf, Opening, Sending, Settling, Rescuing, Reporting;
    var begun := Opening(tr, cfg, t, at, id, good);
    var sent := Sending(begun, cfg, t, at, good);
    var settled := Settling(sent, cfg, t, at, id, good);
    OpeningTally(tr, cfg, t, at, id, good);
    SendingTally(begun, cfg, t, at, good);
    SettlingTally(sent, cfg, t, at, id, good);
    SendingTally(settled, cfg, t, at, good);
    ReportingTally(Rescuing(settled, cfg, t, at, good), cfg, t, id, good);
    assert TallyOf(tr).halts + [] == TallyOf(tr).halts;
  }

  function HaltOf(status: Status): TickStatus {
    match status
    case StoppedByBackend => TickStopped
    case Succeeded => TickOk
    case _ => TickError
  }

  function OneTo(n: nat): (s: seq<nat>)
    ensures |s| == n && forall i :: 0 <= i < n ==> s[i] == i + 1
  {
    seq(n, (i: nat) => i + 1)
  }

  lemma {:induction false} EpisodesTally(cfg: Config, script: Script, e: nat)
    requires Clear(cfg, script, Place(e, 0))
    ensures TallyOf(EpisodesTrace(cfg, script, e)) == Tally(OneTo(StepsBefore(cfg, e, 0)), [], 0, e, e)
    decreases e, 0, 0
  {
    hide TallyOf, FateAt;
    if e == 0 {
      NoTally();
    } else {
      assert forall p: Place :: p.step < cfg.stepMax && Earlier(p, Place(e - 1, cfg.stepMax)) ==>
          Earlier(p, Place(e, 0));
      TraceTally(cfg, script, e - 1, cfg.stepMax);
      TallySnoc(TraceTo(cfg, script, e - 1, cfg.stepMax), EpisodeEnd(e, cfg.stepMax));
      assert StepsBefore(cfg, e - 1, cfg.stepMax) == StepsBefore(cfg, e, 0);
    }
  }

  lemma NoTally()
    ensures TallyOf([]) == Tally([], [], 0, 0, 0)
  {
  }

  /** Before tick (e, k) the tick_ends are numbered from 1, one per step, and one episode is open. */
  lemma {:induction false} TraceTally(cfg: Config, script: Script, e: nat, k: nat)
    requires Clear(cfg, script, Place(e, k)) && k <= cfg.stepMax
    ensures TallyOf(TraceTo(cfg, script, e, k)) == Tally(OneTo(StepsBefore(cfg, e, k)), [], 0, e + 1, e)
    decreases e, 1, k
  {
    hide TallyOf, TickTrace, FateAt;
    if k == 0 {
      EpisodesTally(cfg, script, e);
      TallySnoc(EpisodesTrace(cfg, script, e), EpisodeBegin(e + 1));
    } else {
      assert Earlier(Place(e, k - 1), Place(e, k));
      TraceTally(cfg, script, e, k - 1);
      AddTickTally(TraceTo(cfg, script, e, k - 1), cfg, script, e, k - 1);
    }
  }

  lemma AddTickTally(tr: Trace, cfg: Config, script: Script, e: nat, k: nat)
    requires TallyOf(tr) == Tally(OneTo(StepsBefore(cfg, e, k)), [], 0, e + 1, e)
    ensures
      var at, here := Place(e, k), StepsBefore(cfg, e, k);
      var raises := StepsThrough(cfg, script, at) - here - 1;
      var fate := FateAt(cfg, script, e, k);
      && (fate.None? ==> TallyOf(AddTick(tr, cfg, script, e, k)) == Tally(OneTo(here + 1), [], 0, e + 1, e))
      && (fate.Some? && !EscapesAt(cfg, script, at) ==>
            TallyOf(AddTick(tr, cfg, script, e, k))
            == Tally(OneTo(here) + [here + 1 + raises], [HaltOf(fate.value)], raises, e + 1, e))
  {
    hide TallyOf, TickTrace;
    TickTally(tr, cfg, script.tick(Place(e, k)), Place(e, k), StepsBefore(cfg, e, k) + 1, GoodAt(script, e, k));
    assert OneTo(StepsBefore(cfg, e, k)) + [StepsBefore(cfg, e, k) + 1] == OneTo(StepsBefore(cfg, e, k) + 1);
  }

  // ----- every event is in its place and every action justified -----

  predicate HasPlace(e: Ev) {
    e.Proposed? || e.Acted? || e.CallbackRaised?
  }

  /** The backend accepted the action on_tick proposed in time. */
  predicate Accepts(script: Script, e: Ev) {
    && e.Acted? && e.accepted && !e.rescue
    && script.tick(e.at).candidate == Some(e.action) && !script.tick(e.at).late
  }

  /** In the episode, `a` is the latest on_tick action the backend accepted. */
  ghost predicate LatestGood(tr: Trace, script: Script, episode: nat, a: Action) {
    exists j: nat :: j < |tr| && Accepts(script, tr[j]) && tr[j].at.episode == episode && tr[j].action == a
      && forall m: nat :: j < m < |tr| && Accepts(script, tr[m]) ==> tr[m].at.episode != episode
  }

  /** The backend has accepted no on_tick action in the episode. */
  predicate NoGood(tr: Trace, script: Script, episode: nat) {
    forall j: nat :: j < |tr| && Accepts(script, tr[j]) ==> tr[j].at.episode != episode
  }

  /** Where an action sent to the backend after `tr` may come from. */
  ghost predicate Justified(tr: Trace, e: Ev, cfg: Config, script: Script)
    requires e.Acted?
  {
    || (!e.rescue && script.tick(e.at).candidate == Some(e.action) && !script.tick(e.at).late)
    || LatestGood(tr, script, e.at.episode, e.action)
    || (cfg.safe == Some(e.action) && NoGood(tr, script, e.at.episode))
  }

  /** After `tr`, as many episodes have begun and as many ticks have ended as at the start of this tick. */
  predicate Here(tr: Trace, cfg: Config, at: Place) {
    TallyOf(tr).begins == at.episode + 1 && |TallyOf(tr).endIds| == StepsBefore(cfg, at.episode, at.step)
  }

  /** Something in the tick throws, or there is nothing to send: no candidate in time, no good and no safe action. */
  predicate Broken(tr: Trace, cfg: Config, script: Script, at: Place) {
    var t := script.tick(at);
    || t.observeThrows || t.onTickThrows || t.actThrows || t.stepThrows || t.recordThrows || t.predicateThrows
    || ((t.candidate == None || t.late) && cfg.safe == None && NoGood(tr, script, at.episode))
  }

  /** What the end of a tick says is true of its tick. */
  predicate TickTold(tr: Trace, e: Ev, cfg: Config, script: Script, at: Place)
    requires e.TickEnd?
  {
    var t := script.tick(at);
    && Here(tr, cfg, at) && at.step < cfg.stepMax
    && e.id == |TallyOf(tr).endIds| + 1 + TallyOf(tr).raises
    && e.overrun == (t.late && !t.observeThrows && !t.onTickThrows)
    && e.tickStatus == (if Broken(tr, cfg, script, at) then TickError
                        else if !t.canContinue then TickStopped
                        else if cfg.stopOnSuccess && t.success then TickOk
                        else TickRunning)
  }

  /** The event really is of the tick it names, and what it says of the callback and the backend is true. */
  ghost predicate PlacedOk(tr: Trace, e: Ev, cfg: Config, script: Script) {
    HasPlace(e) ==>
      var t := script.tick(e.at);
      && Here(tr, cfg, e.at)
      && (e.Proposed? ==>
            && !t.observeThrows && !t.onTickThrows && e.candidate == t.candidate && e.onTime == !t.late
            && forall j :: 0 <= j < |tr| && tr[j].Proposed? ==> tr[j].at != e.at)
      && (e.Acted? ==> e.accepted == !(if e.rescue then t.rescueActThrows else t.actThrows))
      && (e.Acted? ==> Justified(tr, e, cfg, script))
      && (e.Acted? && e.rescue ==> FateAt(cfg, script, e.at.episode, e.at.step) == Some(Errored))
      && (e.CallbackRaised? ==>
            && !t.observeThrows && !t.onTickThrows && !t.actThrows && !t.stepThrows
            && (t.recordThrows || t.predicateThrows))
  }

  /** Episodes are numbered from one and count their steps; the end of a tick tells the truth about it. */
  ghost predicate OwnOk(tr: Trace, e: Ev, cfg: Config, script: Script) {
    var y := TallyOf(tr);
    match e
    case EpisodeBegin(n) => n == y.begins + 1
    case EpisodeEnd(n, steps) => n == y.begins && n > 0 && steps + (n - 1) * cfg.stepMax == |y.endIds| + y.raises
    case TickEnd(_, _, _) => exists at: Place :: TickTold(tr, e, cfg, script, at)
    case _ => true
  }

  ghost predicate EventOk(tr: Trace, e: Ev, cfg: Config, script: Script) {
    PlacedOk(tr, e, cfg, script) && OwnOk(tr, e, cfg, script)
  }

  /** Every event is in order after those before it. */
  ghost predicate AllOk(tr: Trace, cfg: Config, script: Script) {
    tr == [] || (AllOk(tr[..|tr| - 1], cfg, script) && EventOk(tr[..|tr| - 1], tr[|tr| - 1], cfg, script))
  }

  /** The loop's last good action, as the trace shows it. */
  function GoodOf(tr: Trace, script: Script, episode: nat): Option<Action> {
    if tr == [] then None
    else
      var e := tr[|tr| - 1];
      if Accepts(script, e) && e.at.episode == episode then Some(e.action)
      else GoodOf(tr[..|tr| - 1], script, episode)
  }

  lemma {:induction false} GoodOfMeans(tr: Trace, script: Script, episode: nat)
    ensures
      var good := GoodOf(tr, script, episode);
      if good.Some? then LatestGood(tr, script, episode, good.value) else NoGood(tr, script, episode)
  {
    hide LatestGood, NoGood, Accepts;
    if tr == [] {
      NoneAccepted(script, episode);
    } else {
      var front, e := tr[..|tr| - 1], tr[|tr| - 1];
      assert tr == front + [e];
      GoodOfMeans(front, script, episode);
      GoodExtends(front, e, script, episode);
    }
  }

  lemma NoneAccepted(script: Script, episode: nat)
    ensures NoGood([], script, episode)
  {
  }

  lemma GoodExtends(tr: Trace, e: Ev, script: Script, episode: nat)
    ensures Accepts(script, e) && e.at.episode == episode ==> LatestGood(tr + [e], script, episode, e.action)
    ensures !(Accepts(script, e) && e.at.episode == episode) ==>
      (forall a: Action :: LatestGood(tr, script, episode, a) ==> LatestGood(tr + [e], script, episode, a))
      && (NoGood(tr, script, episode) ==> NoGood(tr + [e], script, episode))
  {
    var u := tr + [e];
    assert u[|tr|] == e;
    forall a: Action | LatestGood(tr, script, episode, a) && !(Accepts(script, e) && e.at.episode == episode)
      ensures LatestGood(u, script, episode, a)
    {
      var j: nat :| j < |tr| && Accepts(script, tr[j]) && tr[j].at.episode == episode && tr[j].action == a
        && forall m: nat :: j < m < |tr| && Accepts(script, tr[m]) ==> tr[m].at.episode != episode;
      assert u[j] == tr[j];
    }
  }

  predicate NoRunEnd(tr: Trace) {
    forall i :: 0 <= i < |tr| ==> !tr[i].RunEnd?
  }

  /** Episodes begun and not ended. */
  function OpenEpisodes(tr: Trace): int {
    TallyOf(tr).begins - TallyOf(tr).ends
  }

  /** Episodes never overlap and never end without having begun. */
  predicate EpisodesAlternate(tr: Trace) {
    0 <= OpenEpisodes(tr) <= 1 && (tr == [] || EpisodesAlternate(tr[..|tr| - 1]))
  }

  predicate NotAfter(tr: Trace, at: Place) {
    forall j :: 0 <= j < |tr| && HasPlace(tr[j]) ==> tr[j].at == at || Earlier(tr[j].at, at)
  }

  predicate AllBefore(tr: Trace, at: Place) {
    forall j :: 0 <= j < |tr| && HasPlace(tr[j]) ==> Earlier(tr[j].at, at)
  }

  ghost predicate Sound(tr: Trace, cfg: Config, script: Script, at: Place, good: Option<Action>) {
    && AllOk(tr, cfg, script) && GoodOf(tr, script, at.episode) == good
    && NoRunEnd(tr) && NotAfter(tr, at) && EpisodesAlternate(tr)
  }

  lemma {:induction false} AllOkSnoc(tr: Trace, e: Ev, cfg: Config, script: Script)
    requires AllOk(tr, cfg, script) && EventOk(tr, e, cfg, script)
    ensures AllOk(tr + [e], cfg, script)
  {
    hide EventOk;
    assert (tr + [e])[..|tr|] == tr;
  }

  lemma {:induction false} AlternateSnoc(tr: Trace, e: Ev)
    requires EpisodesAlternate(tr) && 0 <= OpenEpisodes(tr + [e]) <= 1
    ensures EpisodesAlternate(tr + [e])
  {
    hide TallyOf;
    assert (tr + [e])[..|tr|] == tr;
  }

  lemma AlternateWhole(tr: Trace)
    requires EpisodesAlternate(tr)
    ensures 0 <= OpenEpisodes(tr) <= 1
  {
  }

  lemma {:induction false} GoodSnoc(tr: Trace, e: Ev, script: Script, episode: nat)
    requires HasPlace(e) ==> e.at.episode == episode
    ensures GoodOf(tr + [e], script, episode) == if Accepts(script, e) then Some(e.action)
        else GoodOf(tr, script, episode)
  {
    assert (tr + [e])[..|tr|] == tr;
  }

  predicate Bracket(e: Ev) {
    e.EpisodeBegin? || e.EpisodeEnd? || e.RunEnd?
  }

  /** One more event of the tick keeps the trace sound. */
  lemma {:induction false} SoundSnoc(tr: Trace, e: Ev, cfg: Config, script: Script, at: Place, good: Option<Action>)
    requires Sound(tr, cfg, script, at, good) && EventOk(tr, e, cfg, script)
    requires !Bracket(e) && (HasPlace(e) ==> e.at == at)
    ensures Sound(tr + [e], cfg, script, at, if Accepts(script, e) then Some(e.action) else good)
  {
    hide AllOk, EventOk, GoodOf, Accepts, EpisodesAlternate, TallyOf;
    AllOkSnoc(tr, e, cfg, script);
    GoodSnoc(tr, e, script, at.episode);
    AlternateWhole(tr);
    TallySnoc(tr, e);
    AlternateSnoc(tr, e);
  }

  predicate Quiet(e: Ev) {
    !Bracket(e) && !HasPlace(e)
  }

  lemma SoundSay(tr: Trace, b: bool, e: Ev, cfg: Config, script: Script, at: Place, good: Option<Action>)
    requires Sound(tr, cfg, script, at, good) && (b ==> Quiet(e) && OwnOk(tr, e, cfg, script))
    ensures Sound(Say(tr, b, e), cfg, script, at, good)
  {
    hide Sound;
    if b {
      SoundSnoc(tr, e, cfg, script, at, good);
    }
  }

  // ----- one tick keeps the trace sound -----

  lemma OpeningSound(tr: Trace, cfg: Config, script: Script, at: Place, id: nat, good: Option<Action>)
    requires Sound(tr, cfg, script, at, good) && Here(tr, cfg, at) && AllBefore(tr, at)
    ensures Sound(Opening(tr, cfg, script.tick(at), at, id, good), cfg, script, at, good)
  {
    hide Sound, TallyOf, Justified;
    var t := script.tick(at);
    var begun := Say(tr, !t.observeThrows, TickBegin(id));
    var offer := Proposed(at, t.candidate, !t.late);
    SoundSay(tr, !t.observeThrows, TickBegin(id), cfg, script, at, good);
    TallySay(tr, !t.observeThrows, TickBegin(id));
    if Reaches(t) {
      assert EventOk(begun, offer, cfg, script);
      SoundSnoc(begun, offer, cfg, script, at, good);
    }
    SoundSay(Say(begun, Reaches(t), offer), Sends(cfg, t, good) && !Usable(t), FallbackUsed(id), cfg, script, at, good);
  }

  lemma SendingSound(tr: Trace, cfg: Config, script: Script, at: Place, good: Option<Action>)
    requires Sound(tr, cfg, script, at, good) && Here(tr, cfg, at)
    ensures Sound(Sending(tr, cfg, script.tick(at), at, good), cfg, script, at, GoodAfter(script.tick(at), good))
  {
    hide TallyOf, LatestGood, NoGood, AllOk, EpisodesAlternate, GoodOf;
    GoodOfMeans(tr, script, at.episode);
    var t := script.tick(at);
    if Sends(cfg, t, good) {
      var sent := Acted(at, Choice(cfg, t, good).value, !t.actThrows, false);
      assert EventOk(tr, sent, cfg, script);
      SoundSnoc(tr, sent, cfg, script, at, good);
    }
  }

  lemma SlipsOnFields(cfg: Config, t: Tick, good: Option<Action>)
    ensures Slips(cfg, t, good) ==>
      && !t.observeThrows && !t.onTickThrows && !t.actThrows && !t.stepThrows && (t.recordThrows || t.predicateThrows)
    ensures Slips(cfg, t, good) ==> Fails(cfg, t, good)
    ensures !Fails(cfg, t, good) ==> !t.observeThrows && !t.onTickThrows
  {
  }

  lemma StatusOnFields(cfg: Config, t: Tick)
    ensures TickStatusOf(cfg, t)
            == if !t.canContinue then TickStopped else if cfg.stopOnSuccess && t.success then TickOk else TickRunning
  {
  }

  lemma BrokenIsFailing(tr: Trace, cfg: Config, script: Script, at: Place, good: Option<Action>)
    requires good == GoodAfter(script.tick(at), GoodAt(script, at.episode, at.step))
    requires Sound(tr, cfg, script, at, good)
    ensures Broken(tr, cfg, script, at) <==> Fails(cfg, script.tick(at), GoodAt(script, at.episode, at.step))
  {
    hide AllOk, EpisodesAlternate, GoodOf, GoodAt, NotAfter, NoRunEnd, Accepts;
    GoodOfMeans(tr, script, at.episode);
    if good.Some? {
      GoodIsSome(tr, script, at.episode, good.value);
    }
  }

  lemma GoodIsSome(tr: Trace, script: Script, episode: nat, a: Action)
    requires LatestGood(tr, script, episode, a)
    ensures !NoGood(tr, script, episode)
  {
  }

  lemma SettlingSound(tr: Trace, cfg: Config, script: Script, at: Place, id: nat, good: Option<Action>)
    requires good == GoodAfter(script.tick(at), GoodAt(script, at.episode, at.step))
    requires Sound(tr, cfg, script, at, good) && Here(tr, cfg, at) && at.step < cfg.stepMax
    requires TallyOf(tr).raises == 0 && id == |TallyOf(tr).endIds| + 1
    ensures
      var before := GoodAt(script, at.episode, at.step);
      Sound(Settling(tr, cfg, script.tick(at), at, id, before), cfg, script, at, good)
  {
    hide Sound, TallyOf, Slips, Fails, TickStatusOf, GoodAt, Broken, Here;
    var t, before := script.tick(at), GoodAt(script, at.episode, at.step);
    var slips := Slips(cfg, t, before);
    SlipsOnFields(cfg, t, before);
    if slips {
      SoundSnoc(tr, CallbackRaised(at), cfg, script, at, good);
    }
    BrokenIsFailing(tr, cfg, script, at, good);
    if !Fails(cfg, t, before) {
      StatusOnFields(cfg, t);
      assert TickTold(tr, TickEnd(id, t.late, TickStatusOf(cfg, t)), cfg, script, at);
    }
    SoundSay(Say(tr, slips, CallbackRaised(at)), !Fails(cfg, t, before),
             TickEnd(id, t.late, TickStatusOf(cfg, t)), cfg, script, at, good);
  }

  lemma RescuingSound(tr: Trace, cfg: Config, script: Script, at: Place, good: Option<Action>)
    requires good == GoodAfter(script.tick(at), GoodAt(script, at.episode, at.step))
    requires Sound(tr, cfg, script, at, good)
    requires Fails(cfg, script.tick(at), GoodAt(script, at.episode, at.step)) ==> Here(tr, cfg, at)
    ensures
      var before := GoodAt(script, at.episode, at.step);
      Sound(Rescuing(tr, cfg, script.tick(at), at, before), cfg, script, at, good)
  {
    hide TallyOf, LatestGood, NoGood, AllOk, EpisodesAlternate, GoodOf, Fails, GoodAt, GoodAfter;
    GoodOfMeans(tr, script, at.episode);
    var t, before := script.tick(at), GoodAt(script, at.episode, at.step);
    if Rescues(cfg, t, before) {
      var sent := Acted(at, Fallback(cfg, good).value, !t.rescueActThrows, true);
      assert EventOk(tr, sent, cfg, script);
      SoundSnoc(tr, sent, cfg, script, at, good);
    }
  }

  lemma ReportSound(tr: Trace, n: nat, late: bool, rescued: bool, cfg: Config, script: Script, at: Place,
      good: Option<Action>)
    requires Sound(tr, cfg, script, at, good)
    requires TickTold(tr, TickEnd(n, late, TickError), cfg, script, at)
    ensures Sound(Report(tr, n, late, rescued), cfg, script, at, good)
  {
    hide Sound, TickTold;
    var ended := tr + [TickEnd(n, late, TickError)];
    SoundSnoc(tr, TickEnd(n, late, TickError), cfg, script, at, good);
    SoundSnoc(ended, ActionInvalid(n), cfg, script, at, good);
    SoundSay(ended + [ActionInvalid(n)], rescued, FallbackUsed(n), cfg, script, at, good);
    SoundSnoc(Say(ended + [ActionInvalid(n)], rescued, FallbackUsed(n)), ErrorEvent, cfg, script, at, good);
  }

  lemma ReportingSound(tr: Trace, cfg: Config, script: Script, id: nat, at: Place, good: Option<Action>)
    requires good == GoodAfter(script.tick(at), GoodAt(script, at.episode, at.step))
    requires Sound(tr, cfg, script, at, good) && at.step < cfg.stepMax
    requires
      var t, before := script.tick(at), GoodAt(script, at.episode, at.step);
      Fails(cfg, t, before) ==>
        && Here(tr, cfg, at)
        && LastId(cfg, t, id, before) == |TallyOf(tr).endIds| + 1 + TallyOf(tr).raises
    ensures
      var before := GoodAt(script, at.episode, at.step);
      Sound(Reporting(tr, cfg, script.tick(at), id, before), cfg, script, at, good)
  {
    hide Sound, Report, Fails, Rescues, LastId, TallyOf, GoodAt, GoodAfter, Broken;
    var t, before := script.tick(at), GoodAt(script, at.episode, at.step);
    var last := LastId(cfg, t, id, before);
    var b := Rescues(cfg, t, before) && (t.rescueActThrows || t.rescueStepThrows);
    var failed := Say(tr, b, FallbackFailed(last));
    SoundSay(tr, b, FallbackFailed(last), cfg, script, at, good);
    TallySay(tr, b, FallbackFailed(last));
    if Fails(cfg, t, before) {
      BrokenIsFailing(failed, cfg, script, at, good);
      assert TickTold(failed, TickEnd(last, Reaches(t) && t.late, TickError), cfg, script, at);
      ReportSound(failed, last, Reaches(t) && t.late, Rescues(cfg, t, before), cfg, script, at, good);
    }
  }

  lemma TickSound(tr: Trace, cfg: Config, script: Script, at: Place)
    requires Sound(tr, cfg, script, at, GoodAt(script, at.episode, at.step)) && Here(tr, cfg, at) && AllBefore(tr, at)
    requires TallyOf(tr).raises == 0 && at.step < cfg.stepMax
    ensures Sound(AddTick(tr, cfg, script, at.episode, at.step), cfg, script, at,
                  GoodAt(script, at.episode, at.step + 1))
  {
    hide Sound, Opening, Sending, Settling, Rescuing, Reporting, TallyOf, Fails, Slips;
    var t, before := script.tick(at), GoodAt(script, at.episode, at.step);
    var id := StepsBefore(cfg, at.episode, at.step) + 1;
    var good := GoodAfter(t, before);
    var begun := Opening(tr, cfg, t, at, id, before);
    var sent := Sending(begun, cfg, t, at, before);
    var settled := Settling(sent, cfg, t, at, id, before);
    OpeningSound(tr, cfg, script, at, id, before);
    OpeningTally(tr, cfg, t, at, id, before);
    SendingSound(begun, cfg, script, at, before);
    SendingTally(begun, cfg, t, at, before);
    SettlingSound(sent, cfg, script, at, id, good);
    SettlingTally(sent, cfg, t, at, id, before);
    RescuingSound(settled, cfg, script, at, good);
    SendingTally(settled, cfg, t, at, before);
    ReportingSound(Rescuing(settled, cfg, t, at, before), cfg, script, id, at, good);
  }

  // ----- whole runs are sound -----

  lemma {:induction false} EpisodesSound(cfg: Config, script: Script, e: nat)
    requires Clear(cfg, script, Place(e, 0))
    ensures
      var tr := EpisodesTrace(cfg, script, e);
      AllOk(tr, cfg, script) && NoRunEnd(tr) && EpisodesAlternate(tr) && AllBefore(tr, Place(e, 0))
    decreases e, 0, 0
  {
    hide AllOk, TallyOf, FateAt, TraceTo;
    if e == 0 {
      NothingYet(cfg, script);
    } else {
      assert forall p: Place :: p.step < cfg.stepMax && Earlier(p, Place(e - 1, cfg.stepMax)) ==>
          Earlier(p, Place(e, 0));
      var tr := TraceTo(cfg, script, e - 1, cfg.stepMax);
      TraceSound(cfg, script, e - 1, cfg.stepMax);
      TraceTally(cfg, script, e - 1, cfg.stepMax);
      BracketSound(tr, EpisodeEnd(e, cfg.stepMax), cfg, script);
    }
  }

  lemma NothingYet(cfg: Config, script: Script)
    ensures AllOk([], cfg, script) && EpisodesAlternate([])
  {
    hide TallyOf;
    NoTally();
  }

  /** An event between ticks. */
  lemma {:induction false} BracketSound(tr: Trace, e: Ev, cfg: Config, script: Script)
    requires AllOk(tr, cfg, script) && EpisodesAlternate(tr) && !HasPlace(e) && OwnOk(tr, e, cfg, script)
    requires 0 <= Add(TallyOf(tr), e).begins - Add(TallyOf(tr), e).ends <= 1
    ensures AllOk(tr + [e], cfg, script) && EpisodesAlternate(tr + [e])
  {
    hide AllOk, EpisodesAlternate, TallyOf;
    AllOkSnoc(tr, e, cfg, script);
    TallySnoc(tr, e);
    AlternateSnoc(tr, e);
  }

  lemma {:induction false} TraceSound(cfg: Config, script: Script, e: nat, k: nat)
    requires Clear(cfg, script, Place(e, k)) && k <= cfg.stepMax
    ensures Sound(TraceTo(cfg, script, e, k), cfg, script, Place(e, k), GoodAt(script, e, k))
    ensures AllBefore(TraceTo(cfg, script, e, k), Place(e, k))
    decreases e, 1, k
  {
    hide AllOk, TallyOf, FateAt, AddTick, GoodAfter, EpisodesAlternate, GoodOf;
    if k == 0 {
      var tr := EpisodesTrace(cfg, script, e);
      EpisodesSound(cfg, script, e);
      EpisodesTally(cfg, script, e);
      BracketSound(tr, EpisodeBegin(e + 1), cfg, script);
      FreshEpisode(tr, script, e);
      BeginKeeps(tr, script, e);
    } else {
      var tr := TraceTo(cfg, script, e, k - 1);
      TraceSound(cfg, script, e, k - 1);
      TraceTally(cfg, script, e, k - 1);
      TickSound(tr, cfg, script, Place(e, k - 1));
      NextTick(AddTick(tr, cfg, script, e, k - 1), e, k);
    }
  }

  lemma {:induction false} FreshEpisode(tr: Trace, script: Script, e: nat)
    requires AllBefore(tr, Place(e, 0))
    ensures GoodOf(tr, script, e) == None
  {
    if tr != [] {
      FreshEpisode(tr[..|tr| - 1], script, e);
    }
  }

  lemma BeginKeeps(tr: Trace, script: Script, e: nat)
    requires AllBefore(tr, Place(e, 0)) && NoRunEnd(tr)
    ensures GoodOf(tr + [EpisodeBegin(e + 1)], script, e) == GoodOf(tr, script, e)
    ensures AllBefore(tr + [EpisodeBegin(e + 1)], Place(e, 0)) && NoRunEnd(tr + [EpisodeBegin(e + 1)])
  {
    hide GoodOf;
    GoodSnoc(tr, EpisodeBegin(e + 1), script, e);
  }

  lemma NextTick(tr: Trace, e: nat, k: nat)
    requires k > 0 && NotAfter(tr, Place(e, k - 1))
    ensures AllBefore(tr, Place(e, k)) && NotAfter(tr, Place(e, k))
  {
  }

  lemma SoundTrace(tr: Trace, cfg: Config, script: Script, at: Place, good: Option<Action>)
    requires Sound(tr, cfg, script, at, good)
    ensures AllOk(tr, cfg, script) && NoRunEnd(tr) && EpisodesAlternate(tr)
  {
  }

  /** The run up to and with its last tick, and the end of its episode. */
  lemma LastTickSound(cfg: Config, script: Script, at: Place)
    requires Clear(cfg, script, at) && at.step < cfg.stepMax && FateAt(cfg, script, at.episode, at.step).Some?
    ensures
      var tr := AddTick(TraceTo(cfg, script, at.episode, at.step), cfg, script, at.episode, at.step);
      var body := if EscapesAt(cfg, script, at) then tr else tr + [LastEpisodeEnd(cfg, script, at)];
      AllOk(body, cfg, script) && NoRunEnd(body) && EpisodesAlternate(body)
  {
    hide AllOk, EpisodesAlternate, TallyOf, TraceTo, AddTick, FateAt, Clear, EscapesAt, Sound, AllBefore, Here, GoodAt,
         LastEpisodeEnd, StepsThrough;
    var before, good := TraceTo(cfg, script, at.episode, at.step), GoodAt(script, at.episode, at.step + 1);
    var tr := AddTick(before, cfg, script, at.episode, at.step);
    TraceSound(cfg, script, at.episode, at.step);
    TraceTally(cfg, script, at.episode, at.step);
    HereAt(before, cfg, at);
    TickSound(before, cfg, script, at);
    SoundTrace(tr, cfg, script, at, good);
    if !EscapesAt(cfg, script, at) {
      AddTickTally(before, cfg, script, at.episode, at.step);
      LastEpisodeEnds(tr, cfg, script, at);
      BracketSound(tr, LastEpisodeEnd(cfg, script, at), cfg, script);
    }
  }

  lemma LastEpisodeEnds(tr: Trace, cfg: Config, script: Script, at: Place)
    requires TallyOf(tr).begins == at.episode + 1
    requires |TallyOf(tr).endIds| + TallyOf(tr).raises == StepsThrough(cfg, script, at)
    ensures LastEpisodeEnd(cfg, script, at).EpisodeEnd? && OwnOk(tr, LastEpisodeEnd(cfg, script, at), cfg, script)
  {
    hide TallyOf, StepsThrough;
  }

  lemma HereAt(tr: Trace, cfg: Config, at: Place)
    requires TallyOf(tr) == Tally(OneTo(StepsBefore(cfg, at.episode, at.step)), [], 0, at.episode + 1, at.episode)
    ensures Here(tr, cfg, at) && TallyOf(tr).raises == 0
  {
  }

  lemma BodySound(cfg: Config, script: Script)
    ensures
      var tr := BodyTrace(cfg, script);
      AllOk(tr, cfg, script) && NoRunEnd(tr) && EpisodesAlternate(tr)
  {
    hide AllOk, EpisodesAlternate, TallyOf, TraceTo, AddTick, FateAt, EpisodesTrace, Clear, ExitFrom, LastEpisodeEnd;
    var x := RunExit(cfg, script);
    ExitExactly(cfg, script, x);
    match x
    case Refused => RefusalSound(cfg, script);
    case AtReset(e) => ResetSound(cfg, script, e);
    case AtEnd => EpisodesSound(cfg, script, cfg.episodeMax);
    case AtTick(at) => LastTickSound(cfg, script, at);
  }

  lemma RefusalSound(cfg: Config, script: Script)
    ensures AllOk([ErrorEvent], cfg, script) && EpisodesAlternate([ErrorEvent])
  {
    hide AllOk, EpisodesAlternate, TallyOf;
    NothingYet(cfg, script);
    NoTally();
    BracketSound([], ErrorEvent, cfg, script);
    assert [] + [ErrorEvent] == [ErrorEvent];
  }

  lemma ResetSound(cfg: Config, script: Script, e: nat)
    requires Clear(cfg, script, Place(e, 0))
    ensures
      var tr := EpisodesTrace(cfg, script, e) + [ErrorEvent];
      AllOk(tr, cfg, script) && NoRunEnd(tr) && EpisodesAlternate(tr)
  {
    hide AllOk, EpisodesAlternate, TallyOf, EpisodesTrace, Clear;
    EpisodesSound(cfg, script, e);
    EpisodesTally(cfg, script, e);
    BracketSound(EpisodesTrace(cfg, script, e), ErrorEvent, cfg, script);
  }

  /**
    On every run, whether it returns or throws: each proposal in the trace is its tick's, made once; each action
    sent is this tick's on-time proposal, the latest proposal the backend accepted in the same episode, or the safe
    action when there is none; each acceptance is the backend's; and each event belongs to the tick it names.
   */
  lemma ActionsAreJustified(cfg: Config, script: Script)
    ensures AllOk(RunTrace(cfg, script), cfg, script)
    ensures
      var tr := RunTrace(cfg, script);
      forall i :: 0 <= i < |tr| ==> EventOk(tr[..i], tr[i], cfg, script)
  {
    hide AllOk, BodyTrace, RunResult, TallyOf, EpisodesAlternate, EventOk;
    var tr, r := BodyTrace(cfg, script), RunResult(cfg, script);
    BodySound(cfg, script);
    if r.Returned? {
      RunEndOk(tr, Ending(r)[0], cfg, script);
      AllOkSnoc(tr, Ending(r)[0], cfg, script);
    } else {
      assert tr + [] == tr;
    }
    forall i | 0 <= i < |RunTrace(cfg, script)|
      ensures EventOk(RunTrace(cfg, script)[..i], RunTrace(cfg, script)[i], cfg, script)
    {
      AllOkAt(RunTrace(cfg, script), i, cfg, script);
    }
  }

  lemma RunEndOk(tr: Trace, e: Ev, cfg: Config, script: Script)
    requires e.RunEnd?
    ensures EventOk(tr, e, cfg, script)
  {
  }

  lemma {:induction false} AllOkAt(tr: Trace, i: nat, cfg: Config, script: Script)
    requires AllOk(tr, cfg, script) && i < |tr|
    ensures EventOk(tr[..i], tr[i], cfg, script)
  {
    hide EventOk;
    if i < |tr| - 1 {
      AllOkAt(tr[..|tr| - 1], i, cfg, script);
      assert tr[..|tr| - 1][..i] == tr[..i];
    }
  }

  // ----- which events follow which -----

  /**
    An action proposed in time is the one sent next, any other proposal leads to a fallback or to an error, and
    a tick that ends without error has just had an action accepted.
   */
  predicate Follows(a: Ev, b: Ev) {
    match a
    case Proposed(at, Some(candidate), true) => b.Acted? && b.action == candidate && b.at == at && !b.rescue
    case Proposed(_, _, _) => b.FallbackUsed? || (b.TickEnd? && b.tickStatus == TickError)
    case FallbackUsed(_) => b.Acted? || b.ErrorEvent?
    case _ => b.TickEnd? && b.tickStatus != TickError ==> a.Acted? && a.accepted
  }

  predicate Orderly(tr: Trace) {
    forall i :: 0 < i < |tr| ==> Follows(tr[i - 1], tr[i])
  }

  predicate MayFollow(tr: Trace, e: Ev) {
    tr != [] ==> Follows(tr[|tr| - 1], e)
  }

  lemma OrderlySnoc(tr: Trace, e: Ev)
    requires Orderly(tr) && MayFollow(tr, e)
    ensures Orderly(tr + [e]) && Last(tr + [e]) == Some(e)
  {
  }

  function Last(tr: Trace): Option<Ev> {
    if tr == [] then None else Some(tr[|tr| - 1])
  }

  /** No proposal and no announced fallback is left waiting. */
  predicate Settled(tr: Trace) {
    tr != [] ==> !tr[|tr| - 1].Proposed? && !tr[|tr| - 1].FallbackUsed?
  }

  lemma OrderlySay(tr: Trace, b: bool, e: Ev)
    requires Orderly(tr) && (b ==> MayFollow(tr, e))
    ensures Orderly(Say(tr, b, e)) && Last(Say(tr, b, e)) == if b then Some(e) else Last(tr)
  {
  }

  lemma AttemptOrderly(tr: Trace, cfg: Config, t: Tick, at: Place, id: nat, good: Option<Action>)
    requires Orderly(tr) && Settled(tr)
    ensures
      var sent := Sending(Opening(tr, cfg, t, at, id, good), cfg, t, at, good);
      var settled := Settling(sent, cfg, t, at, id, good);
      && Orderly(settled)
      && (Settled(settled) || (Fails(cfg, t, good) && !Rescues(cfg, t, good) && Last(settled).Some?
                               && Last(settled).value.Proposed? && !InTime(Last(settled).value)))
  {
    hide Orderly;
    var begun := Say(tr, !t.observeThrows, TickBegin(id));
    var proposed := Say(begun, Reaches(t), Proposed(at, t.candidate, !t.late));
    var announced := Say(proposed, Sends(cfg, t, good) && !Usable(t), FallbackUsed(id));
    OrderlySay(tr, !t.observeThrows, TickBegin(id));
    OrderlySay(begun, Reaches(t), Proposed(at, t.candidate, !t.late));
    OrderlySay(proposed, Sends(cfg, t, good) && !Usable(t), FallbackUsed(id));
    if Sends(cfg, t, good) {
      var act := Acted(at, Choice(cfg, t, good).value, !t.actThrows, false);
      OrderlySnoc(announced, act);
      OrderlySay(announced + [act], Slips(cfg, t, good), CallbackRaised(at));
      OrderlySay(Say(announced + [act], Slips(cfg, t, good), CallbackRaised(at)), !Fails(cfg, t, good),
                 TickEnd(id, t.late, TickStatusOf(cfg, t)));
    }
  }

  lemma RecoveryOrderly(tr: Trace, cfg: Config, t: Tick, at: Place, id: nat, good: Option<Action>)
    requires Orderly(tr)
    requires Settled(tr) || (Fails(cfg, t, good) && !Rescues(cfg, t, good) && Last(tr).Some?
                             && Last(tr).value.Proposed? && !InTime(Last(tr).value))
    ensures
      var end := Reporting(Rescuing(tr, cfg, t, at, good), cfg, t, id, good);
      Orderly(end) && (Settled(end) || Escapes(cfg, t, good))
  {
    hide Orderly, Fails, LastId, GoodAfter;
    var last := LastId(cfg, t, id, good);
    var rescued := Rescuing(tr, cfg, t, at, good);
    if Rescues(cfg, t, good) {
      OrderlySnoc(tr, Acted(at, Fallback(cfg, GoodAfter(t, good)).value, !t.rescueActThrows, true));
    }
    var b := Rescues(cfg, t, good) && (t.rescueActThrows || t.rescueStepThrows);
    OrderlySay(rescued, b, FallbackFailed(last));
    if Fails(cfg, t, good) && !t.rescueRecordThrows {
      var failed := Say(rescued, b, FallbackFailed(last));
      ReportOrderly(failed, last, Reaches(t) && t.late, Rescues(cfg, t, good));
    }
  }

  predicate InTime(e: Ev) {
    e.Proposed? && e.candidate.Some? && e.onTime
  }

  lemma ReportOrderly(tr: Trace, n: nat, late: bool, rescued: bool)
    requires Orderly(tr) && (Settled(tr) || (Last(tr).Some? && Last(tr).value.Proposed? && !InTime(Last(tr).value)))
    ensures Orderly(Report(tr, n, late, rescued)) && Settled(Report(tr, n, late, rescued))
  {
    hide Orderly;
    var ended := tr + [TickEnd(n, late, TickError)];
    OrderlySnoc(tr, TickEnd(n, late, TickError));
    OrderlySnoc(ended, ActionInvalid(n));
    OrderlySay(ended + [ActionInvalid(n)], rescued, FallbackUsed(n));
    OrderlySnoc(Say(ended + [ActionInvalid(n)], rescued, FallbackUsed(n)), ErrorEvent);
  }

  lemma TickOrderly(tr: Trace, cfg: Config, script: Script, e: nat, k: nat)
    requires Orderly(tr) && Settled(tr)
    ensures Orderly(AddTick(tr, cfg, script, e, k))
    ensures Settled(AddTick(tr, cfg, script, e, k)) || EscapesAt(cfg, script, Place(e, k))
  {
    hide Orderly, Settled, Opening, Sending, Settling, Rescuing, Reporting, Fails, Rescues, Usable;
    var t, at, id, good := script.tick(Place(e, k)), Place(e, k), StepsBefore(cfg, e, k) + 1, GoodAt(script, e, k);
    AttemptOrderly(tr, cfg, t, at, id, good);
    var sent := Sending(Opening(tr, cfg, t, at, id, good), cfg, t, at, good);
    RecoveryOrderly(Settling(sent, cfg, t, at, id, good), cfg, t, at, id, good);
  }

  lemma {:induction false} EpisodesOrderly(cfg: Config, script: Script, e: nat)
    requires Clear(cfg, script, Place(e, 0))
    ensures Orderly(EpisodesTrace(cfg, script, e)) && Settled(EpisodesTrace(cfg, script, e))
    decreases e, 0, 0
  {
    hide Orderly, FateAt;
    if e == 0 {
      assert Orderly([]) by { NoOrder(); }
    } else {
      assert forall p: Place :: p.step < cfg.stepMax && Earlier(p, Place(e - 1, cfg.stepMax)) ==>
          Earlier(p, Place(e, 0));
      TraceOrderly(cfg, script, e - 1, cfg.stepMax);
      OrderlySnoc(TraceTo(cfg, script, e - 1, cfg.stepMax), EpisodeEnd(e, cfg.stepMax));
    }
  }

  lemma EscapesEnd(cfg: Config, script: Script, e: nat, k: nat)
    ensures EscapesAt(cfg, script, Place(e, k)) ==> FateAt(cfg, script, e, k).Some?
  {
  }

  lemma NoOrder()
    ensures Orderly([])
  {
  }

  lemma {:induction false} TraceOrderly(cfg: Config, script: Script, e: nat, k: nat)
    requires Clear(cfg, script, Place(e, k)) && k <= cfg.stepMax
    ensures Orderly(TraceTo(cfg, script, e, k)) && Settled(TraceTo(cfg, script, e, k))
    decreases e, 1, k
  {
    hide Orderly, AddTick, FateAt, EscapesAt;
    if k == 0 {
      EpisodesOrderly(cfg, script, e);
      OrderlySnoc(EpisodesTrace(cfg, script, e), EpisodeBegin(e + 1));
    } else {
      assert Earlier(Place(e, k - 1), Place(e, k));
      TraceOrderly(cfg, script, e, k - 1);
      TickOrderly(TraceTo(cfg, script, e, k - 1), cfg, script, e, k - 1);
      EscapesEnd(cfg, script, e, k - 1);
    }
  }

  /** On every run, proposals are acted upon and ticks end as `Follows` says. */
  lemma RunsAreOrderly(cfg: Config, script: Script)
    ensures Orderly(RunTrace(cfg, script))
  {
    hide Orderly, TraceTo, AddTick, FateAt, EscapesAt, EpisodesTrace, Clear, StepsThrough, Fallbacks, Overruns;
    var x := RunExit(cfg, script);
    ExitExactly(cfg, script, x);
    match x
    case Refused =>
      NoOrder();
      OrderlySnoc([], ErrorEvent);
      assert [] + [ErrorEvent] == [ErrorEvent];
      OrderlySnoc([ErrorEvent], Ending(RunResult(cfg, script))[0]);
    case AtReset(e) =>
      EpisodesOrderly(cfg, script, e);
      OrderlySnoc(EpisodesTrace(cfg, script, e), ErrorEvent);
      assert BodyTrace(cfg, script) + [] == BodyTrace(cfg, script);
    case AtEnd =>
      EpisodesOrderly(cfg, script, cfg.episodeMax);
      OrderlySnoc(BodyTrace(cfg, script), Ending(RunResult(cfg, script))[0]);
    case AtTick(at) => LastTickOrderly(cfg, script, at);
  }

  lemma LastTickOrderly(cfg: Config, script: Script, at: Place)
    requires RunExit(cfg, script) == AtTick(at) && Clear(cfg, script, at) && at.step < cfg.stepMax
    ensures Orderly(RunTrace(cfg, script))
  {
    hide Orderly, TraceTo, AddTick, FateAt, EscapesAt, Clear, StepsThrough, Fallbacks, Overruns, RunExit;
    var before := TraceTo(cfg, script, at.episode, at.step);
    var tr := AddTick(before, cfg, script, at.episode, at.step);
    TraceOrderly(cfg, script, at.episode, at.step);
    TickOrderly(before, cfg, script, at.episode, at.step);
    var body, r := BodyTrace(cfg, script), RunResult(cfg, script);
    assert body + [] == body;
    if !EscapesAt(cfg, script, at) {
      OrderlySnoc(tr, LastEpisodeEnd(cfg, script, at));
      if r.Returned? {
        OrderlySnoc(body, Ending(r)[0]);
      }
    }
  }

  // ----- what a run that returns leaves behind -----

  /**
    Begin and end events of episodes alternate and balance, there is exactly one run_end and it is last, it repeats
    the result, and the counters are the numbers of fallback_used events and of tick_ends flagged overrun.
   */
  predicate Closed(tr: Trace, r: Result)
    requires r.Returned?
  {
    && tr != [] && tr[|tr| - 1] == RunEnd(r.status, r.episodes, r.steps, r.fallbacks, r.overruns)
    && NoRunEnd(tr[..|tr| - 1]) && EpisodesAlternate(tr)
    && TallyOf(tr).begins == TallyOf(tr).ends == r.episodes
    && r.fallbacks == Fallbacks(tr) && r.overruns == Overruns(tr)
  }

  lemma ReturnedRunsAreClosed(cfg: Config, script: Script)
    requires RunResult(cfg, script).Returned?
    ensures Closed(RunTrace(cfg, script), RunResult(cfg, script))
  {
    hide TallyOf, BodyTrace, RunResult, EpisodesAlternate, Fallbacks, Overruns;
    var body, r := BodyTrace(cfg, script), RunResult(cfg, script);
    var last := Ending(r)[0];
    BodySound(cfg, script);
    RunTally(cfg, script);
    AlternateWhole(body);
    TallySnoc(body, last);
    AlternateSnoc(body, last);
    assert (body + [last])[..|body|] == body;
    ResultCounts(cfg, script);
    CountsSnoc(body, last);
  }

  lemma ResultCounts(cfg: Config, script: Script)
    requires RunResult(cfg, script).Returned?
    ensures
      var r, body := RunResult(cfg, script), BodyTrace(cfg, script);
      r.fallbacks == Fallbacks(body) && r.overruns == Overruns(body)
  {
    hide BodyTrace, Fallbacks, Overruns, RunExit;
  }

  lemma RunTally(cfg: Config, script: Script)
    requires RunResult(cfg, script).Returned?
    ensures
      var r, y := RunResult(cfg, script), TallyOf(BodyTrace(cfg, script));
      && y.begins == y.ends == r.episodes && y.halts == HaltsOf(r.status)
      && (RunExit(cfg, script).AtTick? ==>
            var at := RunExit(cfg, script).at;
            && y.raises == StepsThrough(cfg, script, at) - StepsBefore(cfg, at.episode, at.step) - 1
            && y.endIds == OneTo(StepsBefore(cfg, at.episode, at.step)) + [r.steps])
      && (!RunExit(cfg, script).AtTick? ==> y.raises == 0 && y.endIds == OneTo(r.steps))
  {
    hide TallyOf, TraceTo, AddTick, FateAt, EscapesAt, EpisodesTrace, Clear, StepsThrough, Fallbacks, Overruns;
    var x := RunExit(cfg, script);
    ExitExactly(cfg, script, x);
    match x
    case Refused =>
      NoTally();
      TallySnoc([], ErrorEvent);
      assert [] + [ErrorEvent] == [ErrorEvent];
    case AtEnd => EpisodesTally(cfg, script, cfg.episodeMax);
    case AtTick(at) =>
      var before := TraceTo(cfg, script, at.episode, at.step);
      var tr := AddTick(before, cfg, script, at.episode, at.step);
      TraceTally(cfg, script, at.episode, at.step);
      AddTickTally(before, cfg, script, at.episode, at.step);
      FateIsHalt(cfg, script, at);
      TallySnoc(tr, LastEpisodeEnd(cfg, script, at));
  }

  /** The statuses other than running that a run with this result shows: only its last tick's. */
  function HaltsOf(status: Status): seq<TickStatus> {
    match status
    case StoppedByBackend => [TickStopped]
    case Succeeded => [TickOk]
    case Errored => [TickError]
    case _ => []
  }

  lemma FateIsHalt(cfg: Config, script: Script, at: Place)
    ensures
      var fate := FateAt(cfg, script, at.episode, at.step);
      fate.Some? ==> HaltsOf(fate.value) == [HaltOf(fate.value)]
  {
  }

  /** The tick at which the run ends made its step before the observer or the success predicate threw. */
  predicate SlipsAtEnd(cfg: Config, script: Script) {
    var x := RunExit(cfg, script);
    x.AtTick? && Slips(cfg, script.tick(x.at), GoodAt(script, x.at.episode, x.at.step))
  }

  /**
    One step per tick, and tick_ends numbered 1..steps if and only if the last tick does not slip; a tick that
    slips is counted twice and leaves one number out.  Only the last tick may have another status than running.
   */
  predicate Conserved(tr: Trace, r: Result, cfg: Config, slips: bool)
    requires r.Returned?
  {
    var y := TallyOf(tr);
    && (y.endIds == OneTo(r.steps) <==> !slips)
    && y.raises == (if slips then 1 else 0)
    && |y.endIds| == r.steps - y.raises <= cfg.episodeMax * cfg.stepMax
    && y.halts == HaltsOf(r.status)
  }

  lemma StepsAreTicks(cfg: Config, script: Script)
    requires RunResult(cfg, script).Returned?
    ensures Conserved(RunTrace(cfg, script), RunResult(cfg, script), cfg, SlipsAtEnd(cfg, script))
  {
    hide TallyOf, BodyTrace, RunResult, FateAt, Slips, Clear, GoodAt;
    var body, r, x := BodyTrace(cfg, script), RunResult(cfg, script), RunExit(cfg, script);
    RunTally(cfg, script);
    TallySnoc(body, Ending(r)[0]);
    ExitExactly(cfg, script, x);
    ResultSteps(cfg, script);
    if x.AtTick? {
      var n := StepsBefore(cfg, x.at.episode, x.at.step);
      Multiples(x.at.episode, cfg.episodeMax, cfg.stepMax);
      if !SlipsAtEnd(cfg, script) {
        assert OneTo(n) + [n + 1] == OneTo(n + 1);
      }
    }
  }

  lemma Multiples(i: nat, n: nat, m: nat)
    requires i < n
    ensures i * m + m <= n * m
  {
    assert n * m == (i + 1) * m + (n - i - 1) * m;
  }

  lemma ResultSteps(cfg: Config, script: Script)
    requires RunResult(cfg, script).Returned?
    ensures
      var r, x := RunResult(cfg, script), RunExit(cfg, script);
      match x
      case Refused => r.status == Unsupported && r.steps == r.episodes == 0
      case AtReset(_) => false
      case AtEnd => r.status == EpisodesDone && r.episodes == cfg.episodeMax && r.steps == cfg.episodeMax * cfg.stepMax
      case AtTick(at) =>
        && Some(r.status) == FateAt(cfg, script, at.episode, at.step) && r.episodes == at.episode + 1
        && r.steps == StepsThrough(cfg, script, at)
  {
    hide BodyTrace, RunExit, FateAt, EscapesAt, StepsThrough, Fallbacks, Overruns;
  }

  /**
    Why a run ends as it does.  It throws exactly when a reset throws, or the record emission of a recovery, before
    anything else ends it.  It returns an error exactly when its last tick fails, is stopped or succeeds exactly
    when its last tick does and does not fail, and runs to its end exactly when no tick fails, stops or succeeds.
   */
  lemma ResultExactly(cfg: Config, script: Script)
    ensures
      var r, x := RunResult(cfg, script), RunExit(cfg, script);
      && (r.Threw? <==> x.AtReset? || (x.AtTick? && EscapesAt(cfg, script, x.at)))
      && (forall at: Place :: r.Returned? && x == AtTick(at) ==>
            && Some(r.status) == FateAt(cfg, script, at.episode, at.step)
            && r.episodes == at.episode + 1
            && r.steps - (if SlipsAtEnd(cfg, script) then 1 else 0) == StepsBefore(cfg, at.episode, at.step) + 1)
      && (r.Returned? && r.status == EpisodesDone <==> EndsAt(cfg, script, AtEnd))
      && (r.Returned? && r.status == Unsupported <==> !Allowed(cfg))
      && (r.Returned? && r.status == EpisodesDone ==>
            r.episodes == cfg.episodeMax && r.steps == cfg.episodeMax * cfg.stepMax)
  {
    hide BodyTrace, FateAt, EscapesAt, Slips, Fallbacks, Overruns, Clear, GoodAt, ResetsWork;
    var x := RunExit(cfg, script);
    ExitExactly(cfg, script, x);
    ExitExactly(cfg, script, AtEnd);
    ExitExactly(cfg, script, Refused);
    if RunResult(cfg, script).Returned? {
      ResultSteps(cfg, script);
    }
    if x.AtTick? {
      FateIsTick(cfg, script, x.at);
    }
  }

  lemma FateIsTick(cfg: Config, script: Script, at: Place)
    ensures
      var fate := FateAt(cfg, script, at.episode, at.step);
      fate.Some? ==> fate.value in {StoppedByBackend, Succeeded, Errored}
  {
  }

  /** A failing last tick sends the good or the safe action whenever there is one. */
  lemma RecoverySends(cfg: Config, script: Script, at: Place)
    requires RunExit(cfg, script) == AtTick(at) && FateAt(cfg, script, at.episode, at.step) == Some(Errored)
    ensures
      var t := script.tick(at);
      var safety := Fallback(cfg, GoodAt(script, at.episode, at.step + 1));
      safety.Some? ==> Acted(at, safety.value, !t.rescueActThrows, true) in RunTrace(cfg, script)
  {
    hide Opening, Sending, Settling, Reporting, TraceTo, Fallbacks, Overruns, RunExit, Slips;
    var t, good, id := script.tick(at), GoodAt(script, at.episode, at.step), StepsBefore(cfg, at.episode, at.step) + 1;
    var safety := Fallback(cfg, GoodAfter(t, good));
    if safety.Some? {
      var act := Acted(at, safety.value, !t.rescueActThrows, true);
      var sent := Sending(Opening(TraceTo(cfg, script, at.episode, at.step), cfg, t, at, id, good), cfg, t, at, good);
      var rescued := Rescuing(Settling(sent, cfg, t, at, id, good), cfg, t, at, good);
      assert act in rescued;
      ReportingKeeps(rescued, cfg, t, id, good, act);
    }
  }

  lemma ReportingKeeps(tr: Trace, cfg: Config, t: Tick, id: nat, good: Option<Action>, e: Ev)
    requires e in tr
    ensures e in Reporting(tr, cfg, t, id, good)
  {
  }

  /**
    Such runs exist: when the observer throws after the very first step and nothing else goes wrong, one tick is
    made, two steps are counted, and the only tick_end has number 2.
   */
  lemma SlipCountsTwice(cfg: Config, script: Script)
    requires cfg.episodeMax > 0 && cfg.stepMax > 0 && Allowed(cfg) && !ResetFails(cfg, script, 0)
    requires Slips(cfg, script.tick(Place(0, 0)), None) && !script.tick(Place(0, 0)).rescueRecordThrows
    ensures
      var r := RunResult(cfg, script);
      && r.Returned? && r.status == Errored && r.episodes == 1 && r.steps == 2
      && TallyOf(RunTrace(cfg, script)).endIds == [2]
  {
    hide TallyOf, TraceTo, AddTick, Fallbacks, Overruns, BodyTrace;
    assert RunExit(cfg, script) == AtTick(Place(0, 0));
    RunTally(cfg, script);
    TallySnoc(BodyTrace(cfg, script), Ending(RunResult(cfg, script))[0]);
    assert OneTo(0) + [2] == [2];
  }

  /** Everything promised of every run. */
  lemma RunPromises(cfg: Config, script: Script)
    ensures
      var tr, r := RunTrace(cfg, script), RunResult(cfg, script);
      && AllOk(tr, cfg, script) && Orderly(tr)
      && (r.Returned? ==> Closed(tr, r) && Conserved(tr, r, cfg, SlipsAtEnd(cfg, script)))
  {
    hide *;
    ActionsAreJustified(cfg, script);
    RunsAreOrderly(cfg, script);
    if RunResult(cfg, script).Returned? {
      ReturnedRunsAreClosed(cfg, script);
      StepsAreTicks(cfg, script);
    }
  }
}
