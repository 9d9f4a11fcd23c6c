/**
 The latest-request-wins protocol of `evidence-radar.js`.  Every load takes the next generation number, fetches for
 the horizon selected at that moment, and may repaint the panel only if no later load has started since.
 */
module EvidenceRadar {
  import opened Common

  datatype Horizon = All | Intraday | Swing | Position | Commodity

  /** What a fetch comes back with: a radar payload, the 503 that means "not ready", or an error. */
  datatype Response = Radar(payload: int) | NotReady | Error(message: string)

  /** A load between its `await` and its settlement. */
  datatype Request = Request(generation: nat, horizon: Horizon)

  /** What the panel shows: `shownFor` is the horizon read when the boards were drawn. */
  datatype Panel = Untouched | Painted(generation: nat, fetchedFor: Horizon, shownFor: Horizon, response: Response)

  /** `settled` records, for the statements only, how each finished request ended. */
  datatype State = State(
    requestGeneration: nat,
    currentHorizon: Horizon,
    inFlight: set<Request>,
    activeTab: Option<Horizon>,
    panel: Panel,
    settled: map<nat, (Horizon, Response)>)

  datatype Event = Load | Click(horizon: Horizon) | Settle(request: Request, response: Response)

  /** The tabs appear with the first board; a request settles once. */
  predicate Enabled(s: State, e: Event) {
    match e
    case Load => true
    case Click(_) => s.activeTab.Some?
    case Settle(request, _) => request in s.inFlight
  }

  function StartLoad(s: State): State {
    var generation := s.requestGeneration + 1;
    s.(requestGeneration := generation, inFlight := s.inFlight + {Request(generation, s.currentHorizon)})
  }

  function Paint(s: State, request: Request, response: Response): State {
    s.(
      panel := Painted(request.generation, request.horizon, s.currentHorizon, response),
      activeTab := if response.Radar? && s.activeTab.None? then Some(s.currentHorizon) else s.activeTab)
  }

  function Finish(s: State, request: Request, response: Response): State {
    var t := s.(
      inFlight := s.inFlight - {request},
      settled := s.settled[request.generation := (request.horizon, response)]);
    if request.generation != s.requestGeneration then t else Paint(t, request, response)
  }

  /** One event; an event that cannot happen changes nothing. */
  function Step(s: State, e: Event): State {
    if !Enabled(s, e) then s
    else
      match e
      case Load => StartLoad(s)
      case Click(horizon) => StartLoad(s.(currentHorizon := horizon, activeTab := Some(horizon)))
      case Settle(request, response) => Finish(s, request, response)
  }

  const BLANK := State(0, All, {}, None, Untouched, map[])

  /** The script loads once as it starts. */
  function Run(events: seq<Event>): State {
    if events == [] then StartLoad(BLANK)
    else Step(Run(events[..|events| - 1]), events[|events| - 1])
  }

  // ---------- the script's variables and handlers ----------

  class Script {
    var requestGeneration: nat
    var currentHorizon: Horizon
    ghost var inFlight: set<Request>
    var activeTab: Option<Horizon>
    var panel: Panel
    ghost var settled: map<nat, (Horizon, Response)>

    ghost function Value(): State
      reads this
    {
      State(requestGeneration, currentHorizon, inFlight, activeTab, panel, settled)
    }

    constructor ()
      ensures Value() == Run([])
    {
      requestGeneration, currentHorizon := 0, All;
      inFlight, activeTab, panel, settled := {}, None, Untouched, map[];
      new;
      BeginLoad();
    }

    /** `load` up to its `await`. */
    method BeginLoad()
      modifies this
      ensures Value() == Step(old(Value()), Load)
    {
      requestGeneration := requestGeneration + 1;
      inFlight := inFlight + {Request(requestGeneration, currentHorizon)};
    }

    method ClickTab(horizon: Horizon)
      requires activeTab.Some?
      modifies this
      ensures Value() == Step(old(Value()), Click(horizon))
    {
      currentHorizon := horizon;
      activeTab := Some(horizon);
      BeginLoad();
    }

    /** `load` after its `await`. */
    method EndLoad(request: Request, response: Response)
      requires request in inFlight
      modifies this
      ensures Value() == Step(old(Value()), Settle(request, response))
    {
      inFlight := inFlight - {request};
      settled := settled[request.generation := (request.horizon, response)];
      if request.generation != requestGeneration {
        return;
      }
      if response.Radar? && activeTab.None? {
        activeTab := Some(currentHorizon);
      }
      panel := Painted(request.generation, request.horizon, currentHorizon, response);
    }
  }

  // ---------- the invariant ----------

  /** Every generation so far belongs to exactly one request, which is in flight or settled. */
  ghost predicate Accounted(s: State) {
    && (forall r :: r in s.inFlight ==> 1 <= r.generation <= s.requestGeneration && r.generation !in s.settled)
    && (forall r, q :: r in s.inFlight && q in s.inFlight && r.generation == q.generation ==> r == q)
    && (forall g :: g in s.settled ==> 1 <= g <= s.requestGeneration)
    && forall g :: 1 <= g <= s.requestGeneration && g !in s.settled ==> exists r :: r in s.inFlight && r.generation == g
  }

  /** The newest request was made for the selected horizon; the tab row, once there, shows that horizon. */
  ghost predicate NewestIsForSelection(s: State) {
    && (forall r :: r in s.inFlight && r.generation == s.requestGeneration ==> r.horizon == s.currentHorizon)
    && (s.requestGeneration in s.settled ==> s.settled[s.requestGeneration].0 == s.currentHorizon)
    && (s.activeTab.Some? ==> s.activeTab.value == s.currentHorizon)
  }

  /** The panel shows a settled request, drawn for the horizon it was fetched for; the newest one if it settled. */
  ghost predicate PanelIsHonest(s: State) {
    && (s.panel.Painted? ==>
          s.panel.generation in s.settled
          && s.settled[s.panel.generation] == (s.panel.fetchedFor, s.panel.response)
          && s.panel.shownFor == s.panel.fetchedFor)
    && (s.requestGeneration in s.settled ==> s.panel.Painted? && s.panel.generation == s.requestGeneration)
  }

  ghost predicate Invariant(s: State) {
    1 <= s.requestGeneration && Accounted(s) && NewestIsForSelection(s) && PanelIsHonest(s)
  }

  lemma {:induction false} StartLoadKeepsInvariant(s: State)
    requires Accounted(s) && PanelIsHonest(s.(requestGeneration := s.requestGeneration + 1))
    requires s.activeTab.Some? ==> s.activeTab.value == s.currentHorizon
    ensures Invariant(StartLoad(s))
  {
    var t := StartLoad(s);
    forall g | 1 <= g <= t.requestGeneration && g !in t.settled
      ensures exists r :: r in t.inFlight && r.generation == g
    {
      if g == t.requestGeneration {
        assert Request(g, s.currentHorizon) in t.inFlight;
      } else {
        var r :| r in s.inFlight && r.generation == g;
        assert r in t.inFlight;
      }
    }
  }

  lemma {:induction false} NextGenerationUnsettled(s: State)
    requires Invariant(s)
    ensures PanelIsHonest(s.(requestGeneration := s.requestGeneration + 1))
  {
  }

  lemma {:induction false} FinishKeepsInvariant(s: State, request: Request, response: Response)
    requires Invariant(s) && request in s.inFlight
    ensures Invariant(Finish(s, request, response))
  {
    var t := Finish(s, request, response);
    forall g | 1 <= g <= t.requestGeneration && g !in t.settled
      ensures exists r :: r in t.inFlight && r.generation == g
    {
      var r :| r in s.inFlight && r.generation == g;
      assert r in t.inFlight;
    }
  }

  lemma {:induction false} StepKeepsInvariant(s: State, e: Event)
    requires Invariant(s)
    ensures Invariant(Step(s, e))
  {
    if Enabled(s, e) {
      match e
      case Load =>
        NextGenerationUnsettled(s);
        StartLoadKeepsInvariant(s);
      case Click(horizon) =>
        NextGenerationUnsettled(s);
        StartLoadKeepsInvariant(s.(currentHorizon := horizon, activeTab := Some(horizon)));
      case Settle(request, response) =>
        FinishKeepsInvariant(s, request, response);
    }
  }

  /** The invariant holds after every interleaving of loads, clicks and settlements. */
  lemma {:induction false} RunKeepsInvariant(events: seq<Event>)
    ensures Invariant(Run(events))
  {
    if events == [] {
      StartLoadKeepsInvariant(BLANK);
    } else {
      RunKeepsInvariant(events[..|events| - 1]);
      StepKeepsInvariant(Run(events[..|events| - 1]), events[|events| - 1]);
    }
  }

  // ---------- the promises ----------

  function PaintedGeneration(s: State): nat {
    if s.panel.Painted? then s.panel.generation else 0
  }

  lemma {:induction false} StepNeverGoesBack(s: State, e: Event)
    requires Invariant(s)
    ensures PaintedGeneration(s) <= PaintedGeneration(Step(s, e))
  {
  }

  /** The generation on the panel never decreases, whatever happens next. */
  lemma {:induction false} PaintedNeverDecreases(events: seq<Event>, more: seq<Event>)
    ensures PaintedGeneration(Run(events)) <= PaintedGeneration(Run(events + more))
  {
    if more == [] {
      assert events + more == events;
    } else {
      var front := more[..|more| - 1];
      assert (events + more)[..|events + more| - 1] == events + front;
      PaintedNeverDecreases(events, front);
      RunKeepsInvariant(events + front);
      StepNeverGoesBack(Run(events + front), more[|more| - 1]);
    }
  }

  /**
   A repaint is always by the newest request, for the horizon that is selected at that moment, and draws the
   boards of the horizon that was fetched.
   */
  lemma {:induction false} RepaintIsCurrent(events: seq<Event>, e: Event)
    ensures var s, t := Run(events), Run(events + [e]);
      t.panel != s.panel ==>
        && t.panel.Painted?
        && t.panel.generation == t.requestGeneration
        && t.panel.fetchedFor == t.currentHorizon == t.panel.shownFor
  {
    assert (events + [e])[..|events|] == events;
    RunKeepsInvariant(events);
    RunKeepsInvariant(events + [e]);
  }

  /** The settlement of a request that is no longer the newest leaves the page as it is. */
  lemma {:induction false} StaleSettlementIsInvisible(events: seq<Event>, request: Request, response: Response)
    requires request.generation != Run(events).requestGeneration
    ensures var s, t := Run(events), Run(events + [Settle(request, response)]);
      t == s.(inFlight := t.inFlight, settled := t.settled)
  {
    assert (events + [Settle(request, response)])[..|events|] == events;
  }

  /** Once nothing is in flight the panel shows how the newest load ended, for the selected horizon. */
  lemma {:induction false} QuiescentShowsNewest(events: seq<Event>)
    requires Run(events).inFlight == {}
    ensures var s := Run(events);
      && s.requestGeneration in s.settled
      && s.panel == Painted(s.requestGeneration, s.currentHorizon, s.currentHorizon, s.settled[s.requestGeneration].1)
  {
    RunKeepsInvariant(events);
  }

  /** How the older requests settled, and in which order, leaves no trace on a quiescent panel. */
  lemma {:induction false} QuiescentPanelIsDetermined(events: seq<Event>, others: seq<Event>)
    requires Run(events).inFlight == {} && Run(others).inFlight == {}
    requires Run(events).requestGeneration == Run(others).requestGeneration
    requires Run(events).requestGeneration in Run(events).settled
             && Run(others).requestGeneration in Run(others).settled
    requires Run(events).settled[Run(events).requestGeneration] == Run(others).settled[Run(others).requestGeneration]
    ensures Run(events).panel == Run(others).panel
    ensures Run(events).currentHorizon == Run(others).currentHorizon
  {
    RunKeepsInvariant(events);
    RunKeepsInvariant(others);
    QuiescentShowsNewest(events);
    QuiescentShowsNewest(others);
  }

  /** While a newer request is in flight, settling it as the newest does paint it: nothing is lost. */
  lemma {:induction false} NewestIsPainted(events: seq<Event>, request: Request, response: Response)
    requires request in Run(events).inFlight && request.generation == Run(events).requestGeneration
    ensures var t := Run(events + [Settle(request, response)]);
      t.panel == Painted(t.requestGeneration, t.currentHorizon, t.currentHorizon, response)
  {
    assert (events + [Settle(request, response)])[..|events|] == events;
    RunKeepsInvariant(events);
  }

  // ---------- the selection ----------

  lemma {:induction false} RunSnoc(events: seq<Event>, e: Event)
    ensures Run(events + [e]) == Step(Run(events), e)
  {
    assert (events + [e])[..|events|] == events;
  }

  /** `t` is `s` after one more load for the selected horizon: a new newest request, and nothing on the page yet. */
  ghost predicate LoadsOnce(s: State, t: State) {
    && t.requestGeneration == s.requestGeneration + 1
    && t.inFlight == s.inFlight + {Request(t.requestGeneration, t.currentHorizon)}
    && t.panel == s.panel && t.settled == s.settled
  }

  /** A click on a tab that is there selects its horizon, marks the tab and loads that horizon. */
  lemma {:induction false} ClickSelects(events: seq<Event>, horizon: Horizon)
    requires Run(events).activeTab.Some?
    ensures var s, t := Run(events), Run(events + [Click(horizon)]);
      t.currentHorizon == horizon && t.activeTab == Some(horizon) && LoadsOnce(s, t)
  {
    RunSnoc(events, Click(horizon));
  }

  /** A reload keeps the selection and loads it again. */
  lemma {:induction false} LoadKeepsSelection(events: seq<Event>)
    ensures var s, t := Run(events), Run(events + [Load]);
      t.currentHorizon == s.currentHorizon && t.activeTab == s.activeTab && LoadsOnce(s, t)
  {
    RunSnoc(events, Load);
  }

  /** A settlement keeps the selection and starts nothing; only its own request leaves the air. */
  lemma {:induction false} SettleKeepsSelection(events: seq<Event>, request: Request, response: Response)
    ensures var s, t := Run(events), Run(events + [Settle(request, response)]);
      && t.currentHorizon == s.currentHorizon && t.requestGeneration == s.requestGeneration
      && t.inFlight == s.inFlight - {request}
      && (s.activeTab.Some? ==> t.activeTab == s.activeTab)
  {
    RunSnoc(events, Settle(request, response));
  }

  /** The panel shows a radar payload. */
  predicate ShowsRadar(s: State) {
    s.panel.Painted? && s.panel.response.Radar?
  }

  /** At some point of the run the panel showed a radar payload. */
  ghost predicate RadarShown(events: seq<Event>) {
    exists n :: 0 <= n <= |events| && ShowsRadar(Run(events[..n]))
  }

  lemma {:induction false} RadarShownSnoc(events: seq<Event>, e: Event)
    ensures RadarShown(events + [e]) <==> RadarShown(events) || ShowsRadar(Run(events + [e]))
  {
    var all := events + [e];
    assert all[..|all|] == all;
    if RadarShown(events) {
      var n :| 0 <= n <= |events| && ShowsRadar(Run(events[..n]));
      assert all[..n] == events[..n];
    }
    if RadarShown(all) {
      var n :| 0 <= n <= |all| && ShowsRadar(Run(all[..n]));
      if n <= |events| {
        assert all[..n] == events[..n];
      }
    }
  }

  lemma {:induction false} TabsStep(s: State, e: Event)
    requires ShowsRadar(s) ==> s.activeTab.Some?
    ensures Step(s, e).activeTab.Some? <==> s.activeTab.Some? || ShowsRadar(Step(s, e))
  {
  }

  /** The tabs are there exactly once a radar payload has been painted. */
  lemma {:induction false} TabsThereExactly(events: seq<Event>)
    ensures Run(events).activeTab.Some? <==> RadarShown(events)
    ensures ShowsRadar(Run(events)) ==> Run(events).activeTab.Some?
  {
    if events == [] {
      assert events[..0] == [];
    } else {
      var front, e := events[..|events| - 1], events[|events| - 1];
      assert events == front + [e];
      TabsThereExactly(front);
      RunSnoc(front, e);
      TabsStep(Run(front), e);
      RadarShownSnoc(front, e);
    }
  }

  /** Event `k` is a click on a tab that is there. */
  ghost predicate Clicks(events: seq<Event>, k: int) {
    0 <= k < |events| && events[k].Click? && RadarShown(events[..k])
  }

  /** The horizon of the last click on a tab that is there; `All` if there is none. */
  ghost predicate LastChosen(events: seq<Event>, horizon: Horizon) {
    || (horizon == All && forall k :: !Clicks(events, k))
    || exists k :: Clicks(events, k) && events[k].horizon == horizon && forall j :: k < j ==> !Clicks(events, j)
  }

  lemma {:induction false} ClicksSnoc(events: seq<Event>, e: Event, k: int)
    ensures Clicks(events + [e], k) <==>
              Clicks(events, k) || (k == |events| && e.Click? && RadarShown(events))
  {
    var all := events + [e];
    if 0 <= k <= |events| {
      assert all[..k] == events[..k];
      assert events[..|events|] == events;
    }
  }

  lemma {:induction false} ChosenSnoc(events: seq<Event>, e: Event, horizon: Horizon)
    requires LastChosen(events, horizon)
    ensures LastChosen(events + [e], if e.Click? && RadarShown(events) then e.horizon else horizon)
  {
    var all := events + [e];
    forall k ensures Clicks(all, k) <==> Clicks(events, k) || (k == |events| && e.Click? && RadarShown(events)) {
      ClicksSnoc(events, e, k);
    }
    if e.Click? && RadarShown(events) {
      assert Clicks(all, |events|) && all[|events|] == e;
    } else if exists k :: Clicks(events, k) {
      var k :| Clicks(events, k) && events[k].horizon == horizon && forall j :: k < j ==> !Clicks(events, j);
      assert Clicks(all, k) && all[k] == events[k];
    }
  }

  /** After any run the selected horizon is that of the last click on a tab that was there, or `All`. */
  lemma {:induction false} SelectionIsLastChosen(events: seq<Event>)
    ensures LastChosen(events, Run(events).currentHorizon)
  {
    if events == [] {
      assert forall k :: !Clicks(events, k);
    } else {
      var front, e := events[..|events| - 1], events[|events| - 1];
      assert events == front + [e];
      SelectionIsLastChosen(front);
      TabsThereExactly(front);
      RunSnoc(front, e);
      ChosenSnoc(front, e, Run(front).currentHorizon);
    }
  }

  /** Once nothing is in flight, the panel shows the newest load of the horizon that was chosen last. */
  lemma {:induction false} QuiescentPanelIsLastChosen(events: seq<Event>)
    requires Run(events).inFlight == {}
    ensures Run(events).panel.Painted?
    ensures LastChosen(events, Run(events).panel.fetchedFor) && LastChosen(events, Run(events).panel.shownFor)
  {
    QuiescentShowsNewest(events);
    SelectionIsLastChosen(events);
  }

  /** Every load counts: the newest generation is one more than the number of reloads and clicks. */
  lemma {:induction false} GenerationsAreLoads(events: seq<Event>)
    ensures Run(events).requestGeneration == 1 + Loads(events)
  {
    if events != [] {
      GenerationsAreLoads(events[..|events| - 1]);
      TabsThereExactly(events[..|events| - 1]);
    }
  }

  ghost function Loads(events: seq<Event>): nat {
    if events == [] then 0
    else
      var n := |events| - 1;
      Loads(events[..n]) + if events[n].Load? || Clicks(events, n) then 1 else 0
  }
}
