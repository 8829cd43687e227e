/**
  Concurrent use of the catalog: watchdog tasks install updates by
  read-copy-update (load a snapshot, build the next catalog, swap it in if the
  snapshot is still current, else start over from the newer one), while routes
  load a routing entry and then bump its shared cursor.
*/
module CatalogRuns {
  import opened Common
  import opened Catalog
  import opened RoundRobin

  datatype Update = Update(backend: nat, entries: Entries)

  /** An update that has loaded a snapshot. `base` identifies the snapshot, as its pointer does. */
  datatype Task = Task(update: Update, base: nat, snapshot: Catalog)

  /** A prefix-less round-robin route that has loaded its routing entry. */
  datatype Pending = Pending(model: string, entry: RoutingEntry)

  /** `version` counts swaps; `log` holds the updates in commit order. */
  datatype State = State(
    catalog: Catalog,
    version: nat,
    tasks: map<nat, Task>,
    log: seq<Update>,
    cursors: map<Cursor, nat>,
    routes: map<nat, Pending>)

  datatype Event =
    | Begin(task: nat, update: Update)
    | Swap(task: nat)                    // compare-and-swap: install, or reload and retry
    | Look(route: nat, model: string)    // load the entry
    | Take(route: nat)                   // fetch_add on its cursor

  function Install(c: Catalog, u: Update, version: nat): Catalog
    requires u.backend < |c.entries|
  {
    var entries := c.entries[u.backend := u.entries];
    Catalog(entries, RoutingOf(entries, c.routing, version))
  }

  function CursorValue(s: State, c: Cursor): nat {
    if c in s.cursors then s.cursors[c] else 0
  }

  ghost predicate Init(s: State, entries: seq<Entries>) {
    s == State(Catalog(entries, RoutingOf(entries, map[], 0)), 0, map[], [], map[], map[])
  }

  ghost predicate Enabled(s: State, e: Event) {
    match e
    case Begin(t, u) => t !in s.tasks && u.backend < |s.catalog.entries|
    case Swap(t) => t in s.tasks && s.tasks[t].update.backend < |s.tasks[t].snapshot.entries|
    case Look(r, m) => r !in s.routes && m in s.catalog.routing && |s.catalog.routing[m].candidates| > 1
    case Take(r) => r in s.routes
  }

  ghost function Apply(s: State, e: Event): State
    requires Enabled(s, e)
  {
    match e
    case Begin(t, u) => s.(tasks := s.tasks[t := Task(u, s.version, s.catalog)])
    case Swap(t) =>
      var task := s.tasks[t];
      if task.base == s.version then
        s.(catalog := Install(task.snapshot, task.update, s.version + 1),
           version := s.version + 1,
           tasks := s.tasks - {t},
           log := s.log + [task.update])
      else
        s.(tasks := s.tasks[t := Task(task.update, s.version, s.catalog)])
    case Look(r, m) => s.(routes := s.routes[r := Pending(m, s.catalog.routing[m])])
    case Take(r) =>
      var c := s.routes[r].entry.rotation;
      s.(routes := s.routes - {r}, cursors := s.cursors[c := Bump(CursorValue(s, c), U32)])
  }

  ghost predicate Valid(s: State, es: seq<Event>)
    decreases |es|
  {
    es == [] || (Enabled(s, es[0]) && Valid(Apply(s, es[0]), es[1..]))
  }

  ghost function Exec(s: State, es: seq<Event>): State
    requires Valid(s, es)
    decreases |es|
  {
    if es == [] then s else Exec(Apply(s, es[0]), es[1..])
  }

  // --------------------------------------------------------- no lost updates

  /** The reference: the updates applied one at a time, in order. */
  function Replay(entries: seq<Entries>, log: seq<Update>): (r: seq<Entries>)
    requires forall i :: 0 <= i < |log| ==> log[i].backend < |entries|
    ensures |r| == |entries|
  {
    if log == [] then entries
    else
      var u := log[|log| - 1];
      Replay(entries, log[..|log| - 1])[u.backend := u.entries]
  }

  /** Each model is routed to exactly its backends, through its own counter. */
  ghost predicate RoutingExact(c: Catalog) {
    && c.routing.Keys == Models(c.entries)
    && forall m :: m in c.routing ==>
         c.routing[m].candidates == Candidates(c.entries, m) && c.routing[m].rotation.model == m
  }

  ghost predicate LogFits(log: seq<Update>, n: nat) {
    forall i :: 0 <= i < |log| ==> log[i].backend < n
  }

  ghost predicate Inv(s: State, entries: seq<Entries>) {
    && LogFits(s.log, |entries|)
    && s.catalog.entries == Replay(entries, s.log)
    && RoutingExact(s.catalog)
    && s.version == |s.log|
    && (forall t :: t in s.tasks ==>
          && s.tasks[t].base <= s.version
          && s.tasks[t].update.backend < |entries| == |s.tasks[t].snapshot.entries|
          && (s.tasks[t].base == s.version ==> s.tasks[t].snapshot == s.catalog))
    && (forall r :: r in s.routes ==> s.routes[r].entry.rotation.model == s.routes[r].model)
    && (forall c :: c in s.cursors ==> s.cursors[c] < U32)
  }

  lemma InstallExact(c: Catalog, u: Update, version: nat)
    requires RoutingExact(c) && u.backend < |c.entries|
    ensures RoutingExact(Install(c, u, version))
    ensures forall m :: m in c.routing && m in Install(c, u, version).routing ==>
              Install(c, u, version).routing[m].rotation == c.routing[m].rotation
  {
  }

  lemma RoutedTo(c: Catalog, b: nat, model: string)
    requires RoutingExact(c) && b < |c.entries|
    ensures (model in c.routing && b in c.routing[model].candidates) <==> model in Ids(c.entries[b])
  {
    CandidatesExact(c.entries, model);
    ModelsAre(c.entries, model);
  }

  lemma InvStep(s: State, entries: seq<Entries>, e: Event)
    requires Inv(s, entries) && Enabled(s, e)
    ensures Inv(Apply(s, e), entries)
  {
    if e.Swap? && s.tasks[e.task].base == s.version {
      var u := s.tasks[e.task].update;
      assert (s.log + [u])[..|s.log|] == s.log;
      InstallExact(s.catalog, u, s.version + 1);
    }
  }

  lemma {:induction false} InvRun(s: State, entries: seq<Entries>, es: seq<Event>)
    requires Inv(s, entries) && Valid(s, es)
    ensures Inv(Exec(s, es), entries)
    decreases |es|
  {
    if es != [] {
      InvStep(s, entries, es[0]);
      InvRun(Apply(s, es[0]), entries, es[1..]);
    }
  }

  /**
    The catalog after any interleaving is the updates applied one at a time in
    commit order; every commit is in the log exactly once; and the installed
    routing index is exact.
  */
  lemma CatalogIsReplay(s0: State, entries: seq<Entries>, es: seq<Event>)
    requires Init(s0, entries) && Valid(s0, es)
    ensures var s := Exec(s0, es);
            && LogFits(s.log, |entries|)
            && s.catalog.entries == Replay(entries, s.log)
            && |s.log| == s.version
            && RoutingExact(s.catalog)
  {
    InvRun(s0, entries, es);
  }

  /** Position of the last update of backend `b` in the log. */
  ghost predicate LastUpdate(log: seq<Update>, b: nat, i: nat) {
    && i < |log|
    && log[i].backend == b
    && forall j :: i < j < |log| ==> log[j].backend != b
  }

  lemma {:induction false} ReplayKeepsLast(entries: seq<Entries>, log: seq<Update>, b: nat)
    requires LogFits(log, |entries|) && b < |entries|
    ensures forall i :: 0 <= i < |log| && LastUpdate(log, b, i) ==> Replay(entries, log)[b] == log[i].entries
    ensures (forall i :: 0 <= i < |log| ==> log[i].backend != b) ==> Replay(entries, log)[b] == entries[b]
  {
    if log != [] {
      var before := log[..|log| - 1];
      ReplayKeepsLast(entries, before, b);
      forall i | 0 <= i < |log| && LastUpdate(log, b, i)
        ensures Replay(entries, log)[b] == log[i].entries
      {
        if i < |log| - 1 {
          assert LastUpdate(before, b, i);
        }
      }
    }
  }

  /** No lost update: a backend serves what its own last commit said, whoever committed since. */
  lemma NoLostUpdate(s0: State, entries: seq<Entries>, es: seq<Event>, b: nat)
    requires Init(s0, entries) && Valid(s0, es) && b < |entries|
    ensures var s := Exec(s0, es);
            && |s.catalog.entries| == |entries|
            && (forall i :: 0 <= i < |s.log| && LastUpdate(s.log, b, i) ==> s.catalog.entries[b] == s.log[i].entries)
            && ((forall i :: 0 <= i < |s.log| ==> s.log[i].backend != b) ==> s.catalog.entries[b] == entries[b])
  {
    InvRun(s0, entries, es);
    ReplayKeepsLast(entries, Exec(s0, es).log, b);
  }

  /** The updates begun in a run, in order. */
  ghost function Begun(es: seq<Event>): seq<Update> {
    if es == [] then [] else (if es[0].Begin? then [es[0].update] else []) + Begun(es[1..])
  }

  ghost function Carries(u: Update): Task -> bool {
    (t: Task) => t.update == u
  }

  /** How often `u` is committed or still being retried. */
  ghost function Alive(s: State, u: Update): nat {
    multiset(s.log)[u] + Count(s.tasks, Carries(u))
  }

  lemma LogAppend(log: seq<Update>, v: Update, u: Update)
    ensures multiset(log + [v])[u] == multiset(log)[u] + Bit(v == u)
  {
  }

  lemma BeginAlive(s: State, e: Event, u: Update)
    requires Enabled(s, e) && e.Begin?
    ensures Alive(Apply(s, e), u) == Alive(s, u) + Bit(e.update == u)
  {
    CountUpdate(s.tasks, e.task, Task(e.update, s.version, s.catalog), Carries(u));
  }

  lemma SwapAlive(s: State, e: Event, u: Update)
    requires Enabled(s, e) && e.Swap?
    ensures Alive(Apply(s, e), u) == Alive(s, u)
  {
    var task := s.tasks[e.task];
    if task.base == s.version {
      LogAppend(s.log, task.update, u);
      CountRemove(s.tasks, e.task, Carries(u));
    } else {
      CountUpdate(s.tasks, e.task, Task(task.update, s.version, s.catalog), Carries(u));
    }
  }

  lemma {:induction false} RunAlive(s: State, es: seq<Event>, u: Update)
    requires Valid(s, es)
    ensures Alive(Exec(s, es), u) == Alive(s, u) + multiset(Begun(es))[u]
    decreases |es|
  {
    if es != [] {
      var e := es[0];
      RunAlive(Apply(s, e), es[1..], u);
      if e.Begin? {
        BeginAlive(s, e, u);
        assert Begun(es) == [e.update] + Begun(es[1..]);
      } else if e.Swap? {
        SwapAlive(s, e, u);
        assert Begun(es) == Begun(es[1..]);
      } else {
        assert Begun(es) == Begun(es[1..]);
      }
    }
  }

  /**
    No update vanishes and none is made up: each one is committed or still being
    retried exactly as often as it was begun, so once no task is left the commit
    log is a permutation of the updates begun.
  */
  lemma NoUpdateVanishes(s0: State, entries: seq<Entries>, es: seq<Event>)
    requires Init(s0, entries) && Valid(s0, es)
    ensures var s := Exec(s0, es);
            && (forall u :: multiset(s.log)[u] + Count(s.tasks, Carries(u)) == multiset(Begun(es))[u])
            && (s.tasks == map[] ==> multiset(s.log) == multiset(Begun(es)))
  {
    var s := Exec(s0, es);
    forall u ensures multiset(s.log)[u] + Count(s.tasks, Carries(u)) == multiset(Begun(es))[u] {
      RunAlive(s0, es, u);
      assert Matching(s0.tasks, Carries(u)) == {};
    }
    if s.tasks == map[] {
      forall u ensures multiset(s.log)[u] == multiset(Begun(es))[u] {
        assert Matching(s.tasks, Carries(u)) == {};
      }
    }
  }

  /** In every reachable catalog a model is routable exactly when it is listed. */
  lemma ReachableRoutable(s0: State, entries: seq<Entries>, es: seq<Event>, model: string)
    requires Init(s0, entries) && Valid(s0, es)
    ensures var c := Exec(s0, es).catalog;
            && (model in c.routing <==> model in Ids(Listing(c.entries)))
            && (model in c.routing ==> c.routing[model].candidates == Candidates(c.entries, model) != [])
  {
    InvRun(s0, entries, es);
    var c := Exec(s0, es).catalog;
    RoutableIffListed(c.entries, map[], 0, model);
  }

  // ------------------------------------------------------ round-robin balance

  /** The step is a route that takes its place on the cursor. */
  ghost predicate Draws(s: State, e: Event, cursor: Cursor)
    requires Enabled(s, e)
  {
    e.Take? && s.routes[e.route].entry.rotation == cursor
  }

  /** The route tries `backend` first: that is the candidate the cursor points at. */
  ghost predicate DrawsFirst(s: State, e: Event, cursor: Cursor, backend: nat)
    requires Enabled(s, e)
  {
    && Draws(s, e, cursor)
    && var candidates := s.routes[e.route].entry.candidates;
       candidates != [] && candidates[CursorValue(s, cursor) % |candidates|] == backend
  }

  ghost function Routes(s: State, es: seq<Event>, cursor: Cursor): nat
    requires Valid(s, es)
    decreases |es|
  {
    if es == [] then 0
    else (if Draws(s, es[0], cursor) then 1 else 0) + Routes(Apply(s, es[0]), es[1..], cursor)
  }

  ghost function RoutesFirstTo(s: State, es: seq<Event>, cursor: Cursor, backend: nat): nat
    requires Valid(s, es)
    decreases |es|
  {
    if es == [] then 0
    else
      (if DrawsFirst(s, es[0], cursor, backend) then 1 else 0)
      + RoutesFirstTo(Apply(s, es[0]), es[1..], cursor, backend)
  }

  /** All routes counted have the same candidates. */
  ghost predicate SameList(s: State, es: seq<Event>, cursor: Cursor, candidates: seq<nat>)
    requires Valid(s, es)
    decreases |es|
  {
    es == [] ||
    (&& (Draws(s, es[0], cursor) ==> s.routes[es[0].route].entry.candidates == candidates)
     && SameList(Apply(s, es[0]), es[1..], cursor, candidates))
  }

  lemma DistinctPositions(candidates: seq<nat>, i: nat, p: nat)
    requires forall i, j :: 0 <= i < j < |candidates| ==> candidates[i] < candidates[j]
    requires i < |candidates| && p < |candidates|
    ensures candidates[i] == candidates[p] <==> i == p
  {
  }

  /** One event moves the cursor exactly when a route draws on it. */
  lemma CursorStep(s: State, e: Event, cursor: Cursor)
    requires Enabled(s, e)
    ensures CursorValue(Apply(s, e), cursor)
         == if Draws(s, e, cursor) then Bump(CursorValue(s, cursor), U32) else CursorValue(s, cursor)
  {
  }

  /** First choices follow the shared cursor, through refreshes and everything else that interleaves. */
  lemma {:induction false} RoutesFollowCursor(s: State, es: seq<Event>, cursor: Cursor, candidates: seq<nat>, p: nat)
    requires Valid(s, es) && SameList(s, es, cursor, candidates)
    requires forall i, j :: 0 <= i < j < |candidates| ==> candidates[i] < candidates[j]
    requires p < |candidates|
    ensures RoutesFirstTo(s, es, cursor, candidates[p])
         == CursorHits(CursorValue(s, cursor), Routes(s, es, cursor), U32, |candidates|, p)
    decreases |es|
  {
    if es != [] {
      var s' := Apply(s, es[0]);
      CursorStep(s, es[0], cursor);
      RoutesFollowCursor(s', es[1..], cursor, candidates, p);
      DistinctPositions(candidates, CursorValue(s, cursor) % |candidates|, p);
    }
  }

  /** The model keeps the same candidates in every catalog installed along the run. */
  ghost predicate Steady(s: State, es: seq<Event>, model: string, candidates: seq<nat>)
    requires Valid(s, es)
    decreases |es|
  {
    && model in s.catalog.routing
    && s.catalog.routing[model].candidates == candidates
    && (es == [] || Steady(Apply(s, es[0]), es[1..], model, candidates))
  }

  /** Refreshes that keep a model's candidates keep its routing entry, cursor included. */
  lemma SteadyStep(s: State, entries: seq<Entries>, e: Event, model: string)
    requires Inv(s, entries) && Enabled(s, e)
    requires model in s.catalog.routing && model in Apply(s, e).catalog.routing
    requires Apply(s, e).catalog.routing[model].candidates == s.catalog.routing[model].candidates
    ensures Apply(s, e).catalog.routing[model] == s.catalog.routing[model]
  {
    if e.Swap? && s.tasks[e.task].base == s.version {
      InstallExact(s.catalog, s.tasks[e.task].update, s.version + 1);
    }
  }

  /** No route under way holds this cursor with candidates from an earlier catalog. */
  ghost predicate NoneStale(s: State, entry: RoutingEntry) {
    forall r :: r in s.routes && s.routes[r].entry.rotation == entry.rotation ==> s.routes[r].entry == entry
  }

  lemma NoneStaleStep(s: State, entries: seq<Entries>, e: Event, model: string)
    requires Inv(s, entries) && Enabled(s, e)
    requires model in s.catalog.routing && NoneStale(s, s.catalog.routing[model])
    ensures NoneStale(Apply(s, e), s.catalog.routing[model])
  {
  }

  /** With no such route at the start, steady candidates alone make all routes counted alike. */
  lemma {:induction false} SteadyIsSame(s: State, entries: seq<Entries>, es: seq<Event>, model: string)
    requires Inv(s, entries) && Valid(s, es) && model in s.catalog.routing
    requires Steady(s, es, model, s.catalog.routing[model].candidates)
    requires NoneStale(s, s.catalog.routing[model])
    ensures var entry := s.catalog.routing[model];
            SameList(s, es, entry.rotation, entry.candidates)
    decreases |es|
  {
    if es != [] {
      var s' := Apply(s, es[0]);
      SteadyStep(s, entries, es[0], model);
      NoneStaleStep(s, entries, es[0], model);
      InvStep(s, entries, es[0]);
      SteadyIsSame(s', entries, es[1..], model);
    }
  }

  lemma {:induction false} SteadyEntry(s: State, entries: seq<Entries>, es: seq<Event>, model: string)
    requires Inv(s, entries) && Valid(s, es) && model in s.catalog.routing
    requires Steady(s, es, model, s.catalog.routing[model].candidates)
    ensures model in Exec(s, es).catalog.routing
    ensures Exec(s, es).catalog.routing[model] == s.catalog.routing[model]
    decreases |es|
  {
    if es != [] {
      SteadyStep(s, entries, es[0], model);
      InvStep(s, entries, es[0]);
      SteadyEntry(Apply(s, es[0]), entries, es[1..], model);
    }
  }

  lemma EntrySorted(s: State, entries: seq<Entries>, model: string)
    requires Inv(s, entries) && model in s.catalog.routing
    ensures var candidates := s.catalog.routing[model].candidates;
            forall i, j :: 0 <= i < j < |candidates| ==> candidates[i] < candidates[j]
    ensures CursorValue(s, s.catalog.routing[model].rotation) < U32
  {
    CandidatesExact(s.catalog.entries, model);
  }

  /**
    Round-robin balance across refreshes: from any reachable state, while a model
    keeps its candidates, any routes with these candidates try each of them first
    an even share of the time, whatever refreshes and other routes interleave, as
    long as the cursor does not wrap or its wrap divides evenly. A route that is
    still under way from an earlier catalog may be there: only if it draws on the
    cursor meanwhile must its candidates be the same.
  */
  lemma RoundRobinBalance(s0: State, entries: seq<Entries>, warmup: seq<Event>, es: seq<Event>,
                          model: string, backend: nat)
    requires Init(s0, entries) && Valid(s0, warmup) && Valid(Exec(s0, warmup), es)
    requires model in Exec(s0, warmup).catalog.routing
    requires var s := Exec(s0, warmup);
             var entry := s.catalog.routing[model];
             && backend in entry.candidates
             && Steady(s, es, model, entry.candidates)
             && SameList(s, es, entry.rotation, entry.candidates)
             && (CursorValue(s, entry.rotation) + Routes(s, es, entry.rotation) <= U32
                 || U32 % |entry.candidates| == 0)
    ensures var s := Exec(s0, warmup);
            var entry := s.catalog.routing[model];
            && Balanced(RoutesFirstTo(s, es, entry.rotation, backend), Routes(s, es, entry.rotation),
                        |entry.candidates|)
            && model in Exec(s, es).catalog.routing && Exec(s, es).catalog.routing[model] == entry
  {
    InvRun(s0, entries, warmup);
    var s := Exec(s0, warmup);
    var entry := s.catalog.routing[model];
    SteadyEntry(s, entries, es, model);
    EntrySorted(s, entries, model);
    var p :| 0 <= p < |entry.candidates| && entry.candidates[p] == backend;
    RoutesFollowCursor(s, es, entry.rotation, entry.candidates, p);
    CursorBalanced(CursorValue(s, entry.rotation), Routes(s, es, entry.rotation), U32, |entry.candidates|, p);
  }
}
