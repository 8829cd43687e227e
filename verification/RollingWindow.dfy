/**
  The grant deques are an exact rolling window: popping stale fronts leaves, for
  every user, precisely the admissions of the whole past that are newer than the
  cutoff, so admission compares true window counts.
*/
module RollingWindow {
  import opened FairQueue
  import opened ProxySystem

  /** The timestamps newer than `cutoff`, wherever they stand. */
  ghost function Newer(ts: seq<Instant>, cutoff: Instant): seq<Instant> {
    if ts == [] then []
    else
      var rest := Newer(ts[..|ts| - 1], cutoff);
      if ts[|ts| - 1] > cutoff then rest + [ts[|ts| - 1]] else rest
  }

  /** Every admission ever granted to `user`, oldest first. */
  ghost function HistoryOf(history: seq<Grant>, user: User): seq<Instant> {
    if history == [] then []
    else
      var rest := HistoryOf(history[..|history| - 1], user);
      var g := history[|history| - 1];
      if g.user == user then rest + [g.at] else rest
  }

  lemma {:induction false} NewerAll(ts: seq<Instant>, cutoff: Instant)
    requires forall i :: 0 <= i < |ts| ==> ts[i] > cutoff
    ensures Newer(ts, cutoff) == ts
  {
    if ts != [] {
      NewerAll(ts[..|ts| - 1], cutoff);
    }
  }

  lemma {:induction false} NewerSkips(x: Instant, ts: seq<Instant>, cutoff: Instant)
    requires x <= cutoff
    ensures Newer([x] + ts, cutoff) == Newer(ts, cutoff)
  {
    if ts != [] {
      NewerSkips(x, ts[..|ts| - 1], cutoff);
      assert ([x] + ts)[..|ts|] == [x] + ts[..|ts| - 1];
    }
  }

  /** On a sorted deque, popping only from the front is filtering. */
  lemma {:induction false} PoppingIsFiltering(ts: seq<Instant>, cutoff: Instant)
    requires Ascending(ts)
    ensures DropOld(ts, cutoff) == Newer(ts, cutoff)
  {
    if ts != [] && ts[0] <= cutoff {
      PoppingIsFiltering(ts[1..], cutoff);
      NewerSkips(ts[0], ts[1..], cutoff);
      assert [ts[0]] + ts[1..] == ts;
    } else {
      NewerAll(ts, cutoff);
    }
  }

  lemma {:induction false} NewerTwice(ts: seq<Instant>, early: Instant, late: Instant)
    requires early <= late
    ensures Newer(Newer(ts, early), late) == Newer(ts, late)
  {
    if ts != [] {
      NewerTwice(ts[..|ts| - 1], early, late);
    }
  }

  lemma {:induction false} DropOldSuffix(ts: seq<Instant>, cutoff: Instant)
    ensures |DropOld(ts, cutoff)| <= |ts|
    ensures DropOld(ts, cutoff) == ts[|ts| - |DropOld(ts, cutoff)|..]
  {
    if ts != [] && ts[0] <= cutoff {
      DropOldSuffix(ts[1..], cutoff);
    }
  }

  // -------------------------------------------------------------- invariant

  ghost predicate DequesSorted(g: Grants, clock: Instant) {
    && (forall u :: u in g ==> g[u] != [])
    && (forall u :: Ascending(GrantsOf(g, u)))
    && (forall u, i :: 0 <= i < |GrantsOf(g, u)| ==> GrantsOf(g, u)[i] <= clock)
  }

  /** From the current cutoff on, the deques and the full history show the same window. */
  ghost predicate SameWindow(cfg: Config, g: Grants, history: seq<Grant>, clock: Instant) {
    && (forall u, cutoff :: cutoff >= clock - cfg.window && cutoff >= cfg.earliest ==>
          Newer(GrantsOf(g, u), cutoff) == Newer(HistoryOf(history, u), cutoff))
    && (Cutoff(cfg, clock).None? ==> forall u :: GrantsOf(g, u) == HistoryOf(history, u))
  }

  ghost predicate WindowInv(c: Setup, s: State) {
    && DequesSorted(s.queue.grants, s.clock)
    && SameWindow(c.cfg, s.queue.grants, s.history, s.clock)
    && (!c.cfg.enabled ==> s.queue.grants == map[] && s.history == [])
  }

  lemma PruneOf(cfg: Config, g: Grants, now: Instant, u: User)
    ensures GrantsOf(Prune(cfg, g, now), u)
         == if Cutoff(cfg, now).None? then GrantsOf(g, u) else DropOld(GrantsOf(g, u), Cutoff(cfg, now).value)
  {
  }

  lemma PruneSorted(cfg: Config, g: Grants, clock: Instant, now: Instant)
    requires clock <= now && DequesSorted(g, clock)
    ensures DequesSorted(Prune(cfg, g, now), now)
  {
    var g' := Prune(cfg, g, now);
    forall u
      ensures Ascending(GrantsOf(g', u))
      ensures forall i :: 0 <= i < |GrantsOf(g', u)| ==> GrantsOf(g', u)[i] <= now
    {
      PruneOf(cfg, g, now, u);
      if Cutoff(cfg, now).Some? {
        DropOldSuffix(GrantsOf(g, u), Cutoff(cfg, now).value);
      }
    }
  }

  lemma PruneKeeps(cfg: Config, g: Grants, history: seq<Grant>, clock: Instant, now: Instant)
    requires clock <= now
    requires DequesSorted(g, clock) && SameWindow(cfg, g, history, clock)
    ensures DequesSorted(Prune(cfg, g, now), now)
    ensures SameWindow(cfg, Prune(cfg, g, now), history, now)
  {
    var g' := Prune(cfg, g, now);
    PruneSorted(cfg, g, clock, now);
    forall u, cutoff | cutoff >= now - cfg.window && cutoff >= cfg.earliest
      ensures Newer(GrantsOf(g', u), cutoff) == Newer(HistoryOf(history, u), cutoff)
    {
      PruneOf(cfg, g, now, u);
      if Cutoff(cfg, now).Some? {
        PoppingIsFiltering(GrantsOf(g, u), Cutoff(cfg, now).value);
        NewerTwice(GrantsOf(g, u), Cutoff(cfg, now).value, cutoff);
      }
    }
  }

  lemma NewerAppend(ts: seq<Instant>, x: Instant, cutoff: Instant)
    ensures Newer(ts + [x], cutoff) == Newer(ts, cutoff) + if x > cutoff then [x] else []
  {
    assert (ts + [x])[..|ts|] == ts;
  }

  lemma HistoryAppend(history: seq<Grant>, user: User, now: Instant, u: User)
    ensures HistoryOf(history + [Grant(user, now)], u) == HistoryOf(history, u) + if u == user then [now] else []
  {
    assert (history + [Grant(user, now)])[..|history|] == history;
  }

  lemma RecordSorted(g: Grants, user: User, now: Instant)
    requires DequesSorted(g, now)
    ensures DequesSorted(Record(g, user, now), now)
  {
    var g' := Record(g, user, now);
    forall u
      ensures Ascending(GrantsOf(g', u))
      ensures forall i :: 0 <= i < |GrantsOf(g', u)| ==> GrantsOf(g', u)[i] <= now
    {
      assert GrantsOf(g', u) == if u == user then GrantsOf(g, u) + [now] else GrantsOf(g, u);
    }
  }

  lemma RecordWindow(cfg: Config, g: Grants, history: seq<Grant>, user: User, now: Instant)
    requires SameWindow(cfg, g, history, now)
    ensures SameWindow(cfg, Record(g, user, now), history + [Grant(user, now)], now)
  {
    var g', h' := Record(g, user, now), history + [Grant(user, now)];
    forall u
      ensures Cutoff(cfg, now).None? ==> GrantsOf(g', u) == HistoryOf(h', u)
      ensures forall cutoff :: cutoff >= now - cfg.window && cutoff >= cfg.earliest ==>
                Newer(GrantsOf(g', u), cutoff) == Newer(HistoryOf(h', u), cutoff)
    {
      HistoryAppend(history, user, now, u);
      if u == user {
        forall cutoff | cutoff >= now - cfg.window && cutoff >= cfg.earliest
          ensures Newer(GrantsOf(g', u), cutoff) == Newer(HistoryOf(h', u), cutoff)
        {
          NewerAppend(GrantsOf(g, u), now, cutoff);
          NewerAppend(HistoryOf(history, u), now, cutoff);
        }
      } else {
        assert GrantsOf(g', u) == GrantsOf(g, u);
      }
    }
  }

  lemma LaterClock(cfg: Config, g: Grants, history: seq<Grant>, clock: Instant, now: Instant)
    requires clock <= now && DequesSorted(g, clock) && SameWindow(cfg, g, history, clock)
    ensures DequesSorted(g, now) && SameWindow(cfg, g, history, now)
  {
  }

  lemma WindowStep(c: Setup, s: State, e: Event)
    requires WindowInv(c, s) && Enabled(c, s, e)
    ensures WindowInv(c, Apply(c, s, e))
  {
    var s', g := Apply(c, s, e), s.queue.grants;
    LaterClock(c.cfg, g, s.history, s.clock, s'.clock);
    if c.cfg.enabled && (e.Admit? || (e.Arrive? && FastPath(c.cfg, s.queue))) {
      PruneKeeps(c.cfg, g, s.history, s.clock, e.now);
      var user := if e.Arrive? then e.user else s.queue.waiters[Pick(c.cfg, s.queue, e.now)].user;
      RecordSorted(Prune(c.cfg, g, e.now), user, e.now);
      RecordWindow(c.cfg, Prune(c.cfg, g, e.now), s.history, user, e.now);
    }
  }

  lemma {:induction false} WindowRun(c: Setup, s: State, es: seq<Event>)
    requires WindowInv(c, s) && Valid(c, s, es)
    ensures WindowInv(c, Exec(c, s, es))
    decreases |es|
  {
    if es != [] {
      WindowStep(c, s, es[0]);
      WindowRun(c, Apply(c, s, es[0]), es[1..]);
    }
  }

  /** The admissions of `u` that count at `now`: those newer than the window, or all of them when
      that instant cannot be represented. */
  ghost function Served(c: Setup, s: State, now: Instant, u: User): seq<Instant> {
    if now - c.cfg.window >= c.cfg.earliest then Newer(HistoryOf(s.history, u), now - c.cfg.window)
    else HistoryOf(s.history, u)
  }

  /** What `Served` is made of: each admission of the user exactly as often as it happened. */
  lemma {:induction false} ServedIs(c: Setup, s: State, now: Instant, u: User, t: Instant)
    ensures multiset(Served(c, s, now, u))[t]
         == if now - c.cfg.window >= c.cfg.earliest && t <= now - c.cfg.window then 0
            else multiset(s.history)[Grant(u, t)]
  {
    HistoryIs(s.history, u, t);
    NewerIs(HistoryOf(s.history, u), now - c.cfg.window, t);
  }

  lemma {:induction false} HistoryIs(history: seq<Grant>, u: User, t: Instant)
    ensures multiset(HistoryOf(history, u))[t] == multiset(history)[Grant(u, t)]
  {
    if history != [] {
      var before, last := history[..|history| - 1], history[|history| - 1];
      HistoryIs(before, u, t);
      assert history == before + [last];
    }
  }

  lemma {:induction false} NewerIs(ts: seq<Instant>, cutoff: Instant, t: Instant)
    ensures multiset(Newer(ts, cutoff))[t] == if t <= cutoff then 0 else multiset(ts)[t]
  {
    if ts != [] {
      var before, last := ts[..|ts| - 1], ts[|ts| - 1];
      NewerIs(before, cutoff, t);
      assert ts == before + [last];
    }
  }

  lemma ReachableWindow(c: Setup, s: State)
    requires Reachable(c, s)
    ensures WindowInv(c, s)
  {
    var s0, es :| Init(c, s0) && Valid(c, s0, es) && s == Exec(c, s0, es);
    WindowRun(c, s0, es);
  }

  lemma PrunedKnown(cfg: Config, g: Grants, now: Instant, u: User)
    requires u in g ==> g[u] != []
    ensures u in Prune(cfg, g, now) <==> GrantsOf(Prune(cfg, g, now), u) != []
  {
  }

  /** What the invariant says about one cutoff. */
  lemma WindowAt(cfg: Config, g: Grants, history: seq<Grant>, clock: Instant, now: Instant, u: User)
    requires SameWindow(cfg, g, history, clock) && clock <= now
    ensures if now - cfg.window >= cfg.earliest
            then Newer(GrantsOf(g, u), now - cfg.window) == Newer(HistoryOf(history, u), now - cfg.window)
            else GrantsOf(g, u) == HistoryOf(history, u)
  {
    if now - cfg.window >= cfg.earliest {
      var cutoff := now - cfg.window;
      assert cutoff >= clock - cfg.window && cutoff >= cfg.earliest;
    } else {
      assert Cutoff(cfg, clock).None?;
    }
  }

  lemma WindowReached(c: Setup, s: State, now: Instant, u: User)
    requires Reachable(c, s) && c.cfg.enabled && s.clock <= now
    ensures var g := GrantsOf(s.queue.grants, u);
            if now - c.cfg.window >= c.cfg.earliest
            then Newer(g, now - c.cfg.window) == Newer(HistoryOf(s.history, u), now - c.cfg.window)
            else g == HistoryOf(s.history, u)
  {
    ReachableWindow(c, s);
    WindowAt(c.cfg, s.queue.grants, s.history, s.clock, now, u);
  }

  lemma PrunedIs(cfg: Config, g: Grants, now: Instant, u: User)
    requires Ascending(GrantsOf(g, u))
    ensures GrantsOf(Prune(cfg, g, now), u)
         == if now - cfg.window >= cfg.earliest then Newer(GrantsOf(g, u), now - cfg.window) else GrantsOf(g, u)
  {
    PruneOf(cfg, g, now, u);
    if now - cfg.window >= cfg.earliest {
      PoppingIsFiltering(GrantsOf(g, u), now - cfg.window);
    }
  }

  /**
    Rolling-window exactness: in every reachable state, pruning at any later
    instant leaves each user exactly the admissions of the entire run that are
    newer than the window allows, and knows exactly the users that have one; an
    instant the platform cannot represent keeps the whole history.
  */
  lemma WindowExact(c: Setup, s: State, now: Instant, u: User)
    requires Reachable(c, s) && c.cfg.enabled && s.clock <= now
    ensures var pruned := Prune(c.cfg, s.queue.grants, now);
            && GrantsOf(pruned, u) == Served(c, s, now, u)
            && (u in pruned <==> Served(c, s, now, u) != [])
  {
    WindowReached(c, s, now, u);
    DequesStaySorted(c, s, u);
    PrunedIs(c.cfg, s.queue.grants, now, u);
    PrunedKnown(c.cfg, s.queue.grants, now, u);
  }

  /** The grant deque of every user is time-sorted in every reachable state. */
  lemma DequesStaySorted(c: Setup, s: State, u: User)
    requires Reachable(c, s)
    ensures Ascending(GrantsOf(s.queue.grants, u))
    ensures u in s.queue.grants ==> s.queue.grants[u] != []
    ensures !c.cfg.enabled ==> s.queue.grants == map[]
  {
    ReachableWindow(c, s);
  }
}
