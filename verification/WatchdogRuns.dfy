/**
  All watchers at once: each backend has its own poll loop, and the catalog
  updates they begin race with each other and with routes under read-copy-update.
*/
module WatchdogRuns {
  import opened Common
  import opened Catalog
  import CatalogRuns
  import opened Watchdog

  /**
    One watcher: the polls it is done with, the ids it remembers, and the poll
    whose update it is still installing. That update's task bears the backend's
    index, since a watcher installs one update at a time.
  */
  datatype Loop = Loop(done: seq<Poll>, lastIds: Option<seq<string>>, installing: Option<Poll>)

  datatype State = State(sys: CatalogRuns.State, loops: seq<Loop>)

  datatype Event =
    | Polled(backend: nat, poll: Poll)         // skip it, or load a snapshot for its update
    | Swap(backend: nat)                       // compare-and-swap: install, or reload and retry
    | Route(event: CatalogRuns.Event)          // a route looks up its entry or takes its place

  ghost predicate Init(rules: seq<Rules>, entries: seq<Entries>, s: State) {
    && |rules| == |entries| == |s.loops|
    && CatalogRuns.Init(s.sys, entries)
    && forall b :: 0 <= b < |s.loops| ==> s.loops[b] == Loop([], None, None)
  }

  function UpdateFor(rules: Rules, b: nat, poll: Poll): CatalogRuns.Update {
    CatalogRuns.Update(b, Advertised(rules, Reported(poll)))
  }

  ghost predicate Enabled(rules: seq<Rules>, s: State, e: Event) {
    match e
    case Polled(b, poll) =>
      && b < |s.loops| == |rules| && s.loops[b].installing.None?
      && (!Skips(s.loops[b].lastIds, poll) ==>
            CatalogRuns.Enabled(s.sys, CatalogRuns.Begin(b, UpdateFor(rules[b], b, poll))))
    case Swap(b) =>
      b < |s.loops| == |rules| && s.loops[b].installing.Some? && CatalogRuns.Enabled(s.sys, CatalogRuns.Swap(b))
    case Route(event) => (event.Look? || event.Take?) && CatalogRuns.Enabled(s.sys, event)
  }

  ghost function Apply(rules: seq<Rules>, s: State, e: Event): State
    requires Enabled(rules, s, e)
  {
    match e
    case Polled(b, poll) =>
      var loop := s.loops[b];
      if Skips(loop.lastIds, poll) then s.(loops := s.loops[b := loop.(done := loop.done + [poll])])
      else
        State(CatalogRuns.Apply(s.sys, CatalogRuns.Begin(b, UpdateFor(rules[b], b, poll))),
              s.loops[b := loop.(installing := Some(poll))])
    case Swap(b) =>
      var loop, sys := s.loops[b], CatalogRuns.Apply(s.sys, CatalogRuns.Swap(b));
      if b in sys.tasks then s.(sys := sys)
      else
        var poll := loop.installing.value;
        State(sys, s.loops[b := Loop(loop.done + [poll], Some(IdList(Reported(poll))), None)])
    case Route(event) => s.(sys := CatalogRuns.Apply(s.sys, event))
  }

  ghost predicate Valid(rules: seq<Rules>, s: State, es: seq<Event>)
    decreases |es|
  {
    es == [] || (Enabled(rules, s, es[0]) && Valid(rules, Apply(rules, s, es[0]), es[1..]))
  }

  ghost function Exec(rules: seq<Rules>, s: State, es: seq<Event>): State
    requires Valid(rules, s, es)
    decreases |es|
  {
    if es == [] then s else Exec(rules, Apply(rules, s, es[0]), es[1..])
  }

  // ----- What every interleaving keeps -----

  /** A watcher's backend and memory are what its own polls made them, as if it ran alone. */
  ghost predicate LoopExact(rules: seq<Rules>, entries: seq<Entries>, s: State, b: nat)
    requires b < |rules| == |entries| == |s.loops| == |s.sys.catalog.entries|
  {
    var loop := s.loops[b];
    && (s.sys.catalog.entries[b], loop.lastIds) == Watched(rules[b], entries[b], loop.done)
    && (loop.installing.Some? <==> b in s.sys.tasks)
    && (loop.installing.Some? ==>
          && !Skips(loop.lastIds, loop.installing.value)
          && s.sys.tasks[b].update == UpdateFor(rules[b], b, loop.installing.value))
  }

  ghost predicate Inv(rules: seq<Rules>, entries: seq<Entries>, s: State) {
    && |rules| == |entries| == |s.loops| == |s.sys.catalog.entries|
    && CatalogRuns.Inv(s.sys, entries)
    && forall b :: 0 <= b < |rules| ==> LoopExact(rules, entries, s, b)
  }

  lemma WatchedSkip(rules: Rules, initial: Entries, polls: seq<Poll>, poll: Poll)
    ensures var (es, ids) := Watched(rules, initial, polls);
            Watched(rules, initial, polls + [poll])
              == if Skips(ids, poll) then (es, ids)
                 else (Advertised(rules, Reported(poll)), Some(IdList(Reported(poll))))
  {
    assert (polls + [poll])[..|polls|] == polls;
  }

  lemma PolledInv(rules: seq<Rules>, entries: seq<Entries>, s: State, e: Event)
    requires Inv(rules, entries, s) && Enabled(rules, s, e) && e.Polled?
    ensures Inv(rules, entries, Apply(rules, s, e))
  {
    var s', k := Apply(rules, s, e), e.backend;
    WatchedSkip(rules[k], entries[k], s.loops[k].done, e.poll);
    if !Skips(s.loops[k].lastIds, e.poll) {
      CatalogRuns.InvStep(s.sys, entries, CatalogRuns.Begin(k, UpdateFor(rules[k], k, e.poll)));
    }
    forall b | 0 <= b < |rules| ensures LoopExact(rules, entries, s', b) {
      assert LoopExact(rules, entries, s, b);
    }
  }

  /** A swap installs its own update and nothing else, or nothing at all. */
  lemma SwapInstalls(sys: CatalogRuns.State, entries: seq<Entries>, k: nat)
    requires CatalogRuns.Inv(sys, entries) && CatalogRuns.Enabled(sys, CatalogRuns.Swap(k))
    ensures var after := CatalogRuns.Apply(sys, CatalogRuns.Swap(k));
            var update := sys.tasks[k].update;
            && CatalogRuns.Inv(after, entries)
            && (if k in after.tasks then after.catalog == sys.catalog && after.tasks[k].update == update
                else update.backend < |sys.catalog.entries|
                     && after.catalog.entries == sys.catalog.entries[update.backend := update.entries])
            && after.tasks - {k} == sys.tasks - {k}
  {
    CatalogRuns.InvStep(sys, entries, CatalogRuns.Swap(k));
  }

  lemma SwapInv(rules: seq<Rules>, entries: seq<Entries>, s: State, e: Event)
    requires Inv(rules, entries, s) && Enabled(rules, s, e) && e.Swap?
    ensures Inv(rules, entries, Apply(rules, s, e))
  {
    var s', k := Apply(rules, s, e), e.backend;
    assert LoopExact(rules, entries, s, k);
    SwapInstalls(s.sys, entries, k);
    WatchedSkip(rules[k], entries[k], s.loops[k].done, s.loops[k].installing.value);
    forall b | 0 <= b < |rules| ensures LoopExact(rules, entries, s', b) {
      assert LoopExact(rules, entries, s, b);
      if b != k {
        OtherTask(s.sys.tasks, s'.sys.tasks, k, b);
      }
    }
  }

  lemma OtherTask<V>(m: map<nat, V>, m': map<nat, V>, k: nat, b: nat)
    requires m - {k} == m' - {k} && b != k
    ensures b in m <==> b in m'
    ensures b in m ==> m[b] == m'[b]
  {
    assert b in m <==> b in m - {k};
    assert b in m' <==> b in m' - {k};
    if b in m {
      assert (m - {k})[b] == m[b] && (m' - {k})[b] == m'[b];
    }
  }

  lemma StepInv(rules: seq<Rules>, entries: seq<Entries>, s: State, e: Event)
    requires Inv(rules, entries, s) && Enabled(rules, s, e)
    ensures Inv(rules, entries, Apply(rules, s, e))
  {
    match e
    case Polled(_, _) => PolledInv(rules, entries, s, e);
    case Swap(_) => SwapInv(rules, entries, s, e);
    case Route(event) =>
      CatalogRuns.InvStep(s.sys, entries, event);
      forall b | 0 <= b < |rules| ensures LoopExact(rules, entries, Apply(rules, s, e), b) {
        assert LoopExact(rules, entries, s, b);
      }
  }

  lemma {:induction false} RunInv(rules: seq<Rules>, entries: seq<Entries>, s: State, es: seq<Event>)
    requires Inv(rules, entries, s) && Valid(rules, s, es)
    ensures Inv(rules, entries, Exec(rules, s, es))
    decreases |es|
  {
    if es != [] {
      StepInv(rules, entries, s, es[0]);
      RunInv(rules, entries, Apply(rules, s, es[0]), es[1..]);
    }
  }

  lemma InitInv(rules: seq<Rules>, entries: seq<Entries>, s: State)
    requires Init(rules, entries, s)
    ensures Inv(rules, entries, s)
  {
    CatalogRuns.InvRun(s.sys, entries, []);
  }

  /**
    Poll skipping is invisible to routing under every interleaving: whatever the
    other watchers install and the routes do meanwhile, each backend advertises the
    ids, in order, that a loop of its own which never skips would have left after
    the polls it is done with; and the entries are exactly those it would have alone.
  */
  lemma SkippingRefinesTogether(rules: seq<Rules>, entries: seq<Entries>, s0: State, es: seq<Event>, b: nat)
    requires Init(rules, entries, s0) && Valid(rules, s0, es) && b < |rules|
    ensures var s := Exec(rules, s0, es);
            && b < |s.loops| == |s.sys.catalog.entries|
            && s.sys.catalog.entries[b] == Watched(rules[b], entries[b], s.loops[b].done).0
            && IdList(s.sys.catalog.entries[b]) == IdList(Unskipped(rules[b], entries[b], s.loops[b].done))
            && CatalogRuns.RoutingExact(s.sys.catalog)
  {
    InitInv(rules, entries, s0);
    RunInv(rules, entries, s0, es);
    var s := Exec(rules, s0, es);
    assert LoopExact(rules, entries, s, b);
    SkippingRefines(rules[b], entries[b], s.loops[b].done);
  }

  /** What a backend last said it serves: its last poll, or its static configuration before the first. */
  function LastReport(listed: Entries, polls: seq<Poll>): Entries {
    if polls == [] then listed
    else match polls[|polls| - 1]
      case Some(es) => es
      case None => []
  }

  /**
    Who a model is routed to, in every interleaving: a backend is a candidate exactly
    when its last report has the model, and its list, if it has one, has it too.
  */
  lemma CandidateExactly(rules: seq<Rules>, listed: seq<Entries>, entries: seq<Entries>, s0: State,
                         es: seq<Event>, b: nat, model: string)
    requires Init(rules, entries, s0) && Valid(rules, s0, es) && b < |rules| == |listed|
    requires forall i :: 0 <= i < |rules| ==> entries[i] == Advertised(rules[i], listed[i])
    ensures var s := Exec(rules, s0, es);
            && b < |s.loops|
            && ((model in s.sys.catalog.routing && b in s.sys.catalog.routing[model].candidates) <==>
                  && (exists e :: e in LastReport(listed[b], s.loops[b].done) && e.id == model)
                  && (rules[b].filter.Some? ==> model in rules[b].filter.value))
  {
    SkippingRefinesTogether(rules, entries, s0, es, b);
    var s := Exec(rules, s0, es);
    var c, polls := s.sys.catalog, s.loops[b].done;
    SkippingRefines(rules[b], entries[b], polls);
    AdvertisedIds(rules[b], LastReport(listed[b], polls));
    assert model in Ids(c.entries[b]) <==>
             model in Ids(LastReport(listed[b], polls)) && (rules[b].filter.Some? ==> model in rules[b].filter.value);
    CatalogRuns.RoutedTo(c, b, model);
  }
}
