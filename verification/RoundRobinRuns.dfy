/**
  Round-robin balance over whole runs, through the wrap of the 32-bit cursor:
  exactly when it holds, and a run of the catalog that goes wrong otherwise.
*/
module RoundRobinRuns {
  import opened Catalog
  import opened RoundRobin
  import opened CatalogRuns

  /** `k` prefix-less routes of the model, one after the other. */
  ghost function Rounds(model: string, k: nat): seq<Event> {
    if k == 0 then [] else [Look(0, model), Take(0)] + Rounds(model, k - 1)
  }

  /** The state after one such route. */
  ghost function AfterRound(s: State, entry: RoutingEntry): State {
    s.(cursors := s.cursors[entry.rotation := Bump(CursorValue(s, entry.rotation), U32)])
  }

  ghost predicate Ready(s: State, model: string) {
    0 !in s.routes && model in s.catalog.routing && |s.catalog.routing[model].candidates| > 1
  }

  lemma OneRound(s: State, model: string)
    requires Ready(s, model)
    ensures Enabled(s, Look(0, model)) && Enabled(Apply(s, Look(0, model)), Take(0))
    ensures Apply(Apply(s, Look(0, model)), Take(0)) == AfterRound(s, s.catalog.routing[model])
  {
    var looked := Apply(s, Look(0, model));
    assert looked.routes - {0} == s.routes;
  }

  lemma PeelRound(model: string, k: nat)
    requires k > 0
    ensures var es := Rounds(model, k);
            && |es| >= 2 && es[0] == Look(0, model) && es[1..][0] == Take(0) && es[1..][1..] == Rounds(model, k - 1)
  {
  }

  /** Where the cursor stands after `k` routes. */
  ghost function Advance(v: nat, k: nat): nat
    decreases k
  {
    if k == 0 then v else Advance(Bump(v, U32), k - 1)
  }

  lemma {:induction false} AdvanceAdds(v: nat, k: nat)
    requires v + k < U32
    ensures Advance(v, k) == v + k
    decreases k
  {
    if k > 0 {
      AdvanceAdds(v + 1, k - 1);
    }
  }

  lemma {:induction false} RoundsRun(s: State, model: string, k: nat)
    requires Ready(s, model)
    ensures Valid(s, Rounds(model, k))
    ensures var end, cursor := Exec(s, Rounds(model, k)), s.catalog.routing[model].rotation;
            && end.catalog == s.catalog && end.routes == s.routes
            && CursorValue(end, cursor) == Advance(CursorValue(s, cursor), k)
    decreases k
  {
    if k > 0 {
      OneRound(s, model);
      PeelRound(model, k);
      RoundsRun(AfterRound(s, s.catalog.routing[model]), model, k - 1);
    }
  }

  lemma {:induction false} RoundsCount(s: State, model: string, k: nat)
    requires Ready(s, model) && Valid(s, Rounds(model, k))
    ensures var entry := s.catalog.routing[model];
            && Routes(s, Rounds(model, k), entry.rotation) == k
            && SameList(s, Rounds(model, k), entry.rotation, entry.candidates)
            && Steady(s, Rounds(model, k), model, entry.candidates)
    decreases k
  {
    if k > 0 {
      var entry := s.catalog.routing[model];
      OneRound(s, model);
      PeelRound(model, k);
      RoundsCount(AfterRound(s, entry), model, k - 1);
      RoundCounts(s, model, Rounds(model, k));
    }
  }

  /** What the first route of a run contributes. */
  lemma RoundCounts(s: State, model: string, es: seq<Event>)
    requires Ready(s, model) && Valid(s, es) && |es| >= 2 && es[0] == Look(0, model) && es[1..][0] == Take(0)
    ensures var entry := s.catalog.routing[model];
            var next, rest := AfterRound(s, entry), es[1..][1..];
            && Valid(next, rest)
            && Routes(s, es, entry.rotation) == 1 + Routes(next, rest, entry.rotation)
            && (SameList(next, rest, entry.rotation, entry.candidates) ==>
                  SameList(s, es, entry.rotation, entry.candidates))
            && (Steady(next, rest, model, entry.candidates) ==> Steady(s, es, model, entry.candidates))
  {
    OneRound(s, model);
    var entry, looked := s.catalog.routing[model], Apply(s, Look(0, model));
    assert Routes(s, es, entry.rotation) == Routes(looked, es[1..], entry.rotation);
    assert Draws(looked, Take(0), entry.rotation);
  }

  /** Routes of the model with these candidates are balanced in every run from every state reached. */
  ghost predicate AlwaysBalanced(s0: State, model: string, candidates: seq<nat>) {
    forall warmup, es, backend ::
      BalanceCase(s0, warmup, es, model, candidates, backend) ==>
        var s := Exec(s0, warmup);
        var cursor := s.catalog.routing[model].rotation;
        Balanced(RoutesFirstTo(s, es, cursor, backend), Routes(s, es, cursor), |candidates|)
  }

  ghost predicate BalanceCase(s0: State, warmup: seq<Event>, es: seq<Event>, model: string, candidates: seq<nat>,
                              backend: nat)
  {
    && Valid(s0, warmup) && Valid(Exec(s0, warmup), es) && backend in candidates
    && model in Exec(s0, warmup).catalog.routing
    && Steady(Exec(s0, warmup), es, model, candidates)
    && SameList(Exec(s0, warmup), es, Exec(s0, warmup).catalog.routing[model].rotation, candidates)
  }

  lemma InitReady(s0: State, entries: seq<Entries>, model: string)
    requires Init(s0, entries) && model in s0.catalog.routing && |s0.catalog.routing[model].candidates| > 1
    ensures Ready(s0, model) && CursorValue(s0, s0.catalog.routing[model].rotation) == 0
  {
  }

  /** A few routes over an uneven wrap: the first candidate gets one too many. */
  lemma OverTheWrap(s: State, model: string, v: nat, k: nat)
    requires Ready(s, model) && CursorValue(s, s.catalog.routing[model].rotation) == v
    requires var candidates := s.catalog.routing[model].candidates;
             && (forall i, j :: 0 <= i < j < |candidates| ==> candidates[i] < candidates[j])
             && !Balanced(CursorHits(v, k, U32, |candidates|, 0), k, |candidates|)
    ensures var entry, es := s.catalog.routing[model], Rounds(model, k);
            && Valid(s, es)
            && Steady(s, es, model, entry.candidates) && SameList(s, es, entry.rotation, entry.candidates)
            && !Balanced(RoutesFirstTo(s, es, entry.rotation, entry.candidates[0]), Routes(s, es, entry.rotation),
                         |entry.candidates|)
  {
    var entry := s.catalog.routing[model];
    RoundsRun(s, model, k);
    RoundsCount(s, model, k);
    RoutesFollowCursor(s, Rounds(model, k), entry.rotation, entry.candidates, 0);
  }

  /** Routes from the start that bring the cursor to `v`. */
  lemma WarmUp(s0: State, entries: seq<Entries>, model: string, v: nat)
    requires Init(s0, entries) && model in s0.catalog.routing && |s0.catalog.routing[model].candidates| > 1
    requires v < U32
    ensures Valid(s0, Rounds(model, v))
    ensures var s := Exec(s0, Rounds(model, v));
            && Ready(s, model) && s.catalog == s0.catalog
            && CursorValue(s, s0.catalog.routing[model].rotation) == v
    ensures var candidates := s0.catalog.routing[model].candidates;
            forall i, j :: 0 <= i < j < |candidates| ==> candidates[i] < candidates[j]
  {
    InitReady(s0, entries, model);
    RoundsRun(s0, model, v);
    AdvanceAdds(0, v);
    InvRun(s0, entries, []);
    EntrySorted(s0, entries, model);
  }

  /** The run that goes wrong: up to an uneven wrap, then over it. */
  lemma UnevenRun(s0: State, entries: seq<Entries>, model: string)
    requires Init(s0, entries) && model in s0.catalog.routing && |s0.catalog.routing[model].candidates| > 1
    requires U32 % |s0.catalog.routing[model].candidates| != 0
    ensures !AlwaysBalanced(s0, model, s0.catalog.routing[model].candidates)
  {
    var candidates := s0.catalog.routing[model].candidates;
    var r := U32 % |candidates|;
    var warmup, es := Rounds(model, U32 - r), Rounds(model, r + 1);
    WarmUp(s0, entries, model, U32 - r);
    UnevenWrap(U32, |candidates|);
    OverTheWrap(Exec(s0, warmup), model, U32 - r, r + 1);
    assert BalanceCase(s0, warmup, es, model, candidates, candidates[0]);
  }

  /**
    Round-robin balance, exactly: for a model with several candidates, all runs
    share its routes evenly among them, whatever interleaves and however often the
    32-bit cursor wraps, if and only if the number of candidates divides 2^32.
  */
  lemma RoundRobinExactly(s0: State, entries: seq<Entries>, model: string)
    requires Init(s0, entries) && model in s0.catalog.routing && |s0.catalog.routing[model].candidates| > 1
    ensures var candidates := s0.catalog.routing[model].candidates;
            AlwaysBalanced(s0, model, candidates) <==> U32 % |candidates| == 0
  {
    var candidates := s0.catalog.routing[model].candidates;
    if U32 % |candidates| == 0 {
      forall warmup, es, backend | BalanceCase(s0, warmup, es, model, candidates, backend)
        ensures var s := Exec(s0, warmup);
                var cursor := s.catalog.routing[model].rotation;
                Balanced(RoutesFirstTo(s, es, cursor, backend), Routes(s, es, cursor), |candidates|)
      {
        RoundRobinBalance(s0, entries, warmup, es, model, backend);
      }
    } else {
      UnevenRun(s0, entries, model);
    }
  }
}
