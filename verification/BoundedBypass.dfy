/**
  Fairness over whole runs: how often later arrivals can be admitted ahead of a
  request that is already waiting.
*/
module BoundedBypass {
  import opened Common
  import opened FairQueue
  import opened ProxySystem
  import opened ProxyInvariants
  import opened RollingWindow

  // ------------------------------------------------- what is counted along a run

  /** The step admits a waiter of `v` that arrived after sequence number `n`. */
  ghost predicate AdmitsLater(c: Setup, s: State, e: Event, v: User, n: nat)
    requires Enabled(c, s, e)
  {
    && e.Admit?
    && var w := Admittee(c, s, e.now);
       w.Some? && w.value.user == v && w.value.sequence > n
  }

  /** What `f` counts at each event of a run, added up. */
  ghost function Tally(c: Setup, s: State, es: seq<Event>, f: (State, Event) -> nat): nat
    requires Valid(c, s, es)
    decreases |es|
  {
    if es == [] then 0 else f(s, es[0]) + Tally(c, Apply(c, s, es[0]), es[1..], f)
  }

  ghost function LaterStep(c: Setup, v: User, n: nat): (State, Event) -> nat {
    (s: State, e: Event) => if Enabled(c, s, e) && AdmitsLater(c, s, e, v, n) then 1 else 0
  }

  /** How often a waiter of `v` that arrived after sequence number `n` is admitted in the run. */
  ghost function LaterAdmissions(c: Setup, s: State, es: seq<Event>, v: User, n: nat): nat
    requires Valid(c, s, es)
  {
    Tally(c, s, es, LaterStep(c, v, n))
  }

  /** Grants of `u` that are in the window at `now`, pruned or not. */
  ghost function Recent(cfg: Config, grants: Grants, now: Instant, u: User): nat {
    Usage(Prune(cfg, grants, now), u)
  }

  /** How many of `v`'s grants leave the window in this step. */
  ghost function Expiring(c: Setup, s: State, e: Event, v: User): nat
    requires Enabled(c, s, e)
  {
    var now := Apply(c, s, e).clock;
    RecentShrinks(c.cfg, s.queue.grants, s.clock, now, v);
    Recent(c.cfg, s.queue.grants, s.clock, v) - Recent(c.cfg, s.queue.grants, now, v)
  }

  ghost function ExpiringStep(c: Setup, v: User): (State, Event) -> nat {
    (s: State, e: Event) => if Enabled(c, s, e) then Expiring(c, s, e, v) else 0
  }

  /** How many of `v`'s grants leave the window during the run. */
  ghost function Expirations(c: Setup, s: State, es: seq<Event>, v: User): nat
    requires Valid(c, s, es)
  {
    Tally(c, s, es, ExpiringStep(c, v))
  }

  /** Waiters of the same user that arrived before `w`. */
  ghost function Earlier(ws: seq<Waiter>, w: Waiter): set<Waiter> {
    set x | x in ws && x.user == w.user && x.sequence < w.sequence
  }

  /** How far `v` lags behind: `w`'s user's grants, had and to come before `w`, against `v`'s. */
  ghost function Lag(cfg: Config, q: Queue, now: Instant, w: Waiter, v: User): int {
    Recent(cfg, q.grants, now, w.user) + |Earlier(q.waiters, w)| - Recent(cfg, q.grants, now, v)
  }

  // ------------------------------------------------------------- the window

  lemma {:induction false} DropMore(ts: seq<Instant>, early: Instant, late: Instant)
    requires early <= late
    ensures |DropOld(ts, late)| <= |DropOld(ts, early)| <= |ts|
  {
    if ts != [] && ts[0] <= early {
      DropMore(ts[1..], early, late);
    } else {
      DropOldSuffix(ts, late);
    }
  }

  lemma {:induction false} DropTwice(ts: seq<Instant>, cutoff: Instant)
    ensures DropOld(DropOld(ts, cutoff), cutoff) == DropOld(ts, cutoff)
  {
    if ts != [] && ts[0] <= cutoff {
      DropTwice(ts[1..], cutoff);
    }
  }

  lemma RecentShrinks(cfg: Config, g: Grants, early: Instant, late: Instant, u: User)
    requires early <= late
    ensures Recent(cfg, g, late, u) <= Recent(cfg, g, early, u)
  {
    PruneOf(cfg, g, early, u);
    PruneOf(cfg, g, late, u);
    if Cutoff(cfg, late).Some? {
      var cutoff := Cutoff(cfg, late).value;
      DropMore(GrantsOf(g, u), if Cutoff(cfg, early).Some? then Cutoff(cfg, early).value else cutoff, cutoff);
    }
  }

  /** Pruning at an instant does not change what is in the window then. */
  lemma RecentPruned(cfg: Config, g: Grants, now: Instant, u: User)
    ensures Recent(cfg, Prune(cfg, g, now), now, u) == Recent(cfg, g, now, u)
  {
    PruneOf(cfg, g, now, u);
    PruneOf(cfg, Prune(cfg, g, now), now, u);
    if Cutoff(cfg, now).Some? {
      DropTwice(GrantsOf(g, u), Cutoff(cfg, now).value);
    }
  }

  /** A fresh grant is in the window, unless the window is so short that nothing ever is. */
  lemma RecentRecorded(cfg: Config, g: Grants, user: User, now: Instant, u: User)
    ensures var p := Prune(cfg, g, now);
            var gain := Recent(cfg, Record(p, user, now), now, u) - Recent(cfg, g, now, u);
            && 0 <= gain <= Bit(user == u)
            && (user == u && (Cutoff(cfg, now).Some? ==> Cutoff(cfg, now).value < now) ==> gain == 1)
  {
    var p := Prune(cfg, g, now);
    RecentPruned(cfg, g, now, u);
    PruneOf(cfg, g, now, u);
    PruneOf(cfg, Record(p, user, now), now, u);
    if user == u && Cutoff(cfg, now).Some? {
      var cutoff := Cutoff(cfg, now).value;
      DropTwice(GrantsOf(g, u), cutoff);
      KeepsFresh(GrantsOf(p, u), cutoff, now);
    }
  }

  /** Appending to a deque that has nothing to drop. */
  lemma KeepsFresh(ts: seq<Instant>, cutoff: Instant, now: Instant)
    requires DropOld(ts, cutoff) == ts
    ensures |ts| <= |DropOld(ts + [now], cutoff)| <= |ts| + 1
    ensures cutoff < now ==> DropOld(ts + [now], cutoff) == ts + [now]
  {
    if ts == [] {
      assert ts + [now] == [now];
      assert [now][1..] == [];
    } else {
      HeadStays(ts, cutoff);
      assert (ts + [now])[0] == ts[0];
    }
  }

  lemma HeadStays(ts: seq<Instant>, cutoff: Instant)
    requires ts != [] && DropOld(ts, cutoff) == ts
    ensures ts[0] > cutoff
  {
    if ts[0] <= cutoff {
      DropOldSuffix(ts[1..], cutoff);
      assert false;
    }
  }

  /** Whoever has a grant in the window shows that the window is not empty by nature. */
  lemma {:induction false} RecentMeansWindow(cfg: Config, g: Grants, clock: Instant, now: Instant, u: User)
    requires DequesSorted(g, clock) && clock <= now && Recent(cfg, g, now, u) > 0
    ensures Cutoff(cfg, now).Some? ==> Cutoff(cfg, now).value < now
  {
    PruneOf(cfg, g, now, u);
    if Cutoff(cfg, now).Some? {
      var cutoff := Cutoff(cfg, now).value;
      DropTwice(GrantsOf(g, u), cutoff);
      HeadStays(DropOld(GrantsOf(g, u), cutoff), cutoff);
      DropOldSuffix(GrantsOf(g, u), cutoff);
    }
  }

  // ------------------------------------------------------------------ one step

  /** With fairness on, the picked waiter has the least usage, and is first among equals. */
  lemma PickedIsLeast(cfg: Config, q: Queue, now: Instant, w: Waiter)
    requires cfg.enabled && w in q.waiters
    ensures !Precedes(Prune(cfg, q.grants, now), w, q.waiters[Pick(cfg, q, now)])
  {
    var i :| 0 <= i < |q.waiters| && q.waiters[i] == w;
  }

  lemma SameTicket(q: Queue, w: Waiter, x: Waiter)
    requires Ordered(q) && w in q.waiters && x in q.waiters && w.sequence == x.sequence
    ensures w == x
  {
    var i :| 0 <= i < |q.waiters| && q.waiters[i] == w;
    var j :| 0 <= j < |q.waiters| && q.waiters[j] == x;
  }

  lemma EarlierRemove(q: Queue, i: nat, w: Waiter)
    requires Ordered(q) && i < |q.waiters|
    ensures var x := q.waiters[i];
            |Earlier(RemoveAt(q.waiters, i), w)|
              == |Earlier(q.waiters, w)| - Bit(x.user == w.user && x.sequence < w.sequence)
  {
    var x := q.waiters[i];
    RemoveAtMembers(q, i);
    assert x in q.waiters;
    assert Earlier(RemoveAt(q.waiters, i), w) == Earlier(q.waiters, w) - {x};
  }

  /** A waiter that stays behind when another of its user is picked arrived after it. */
  lemma PickedEarlier(cfg: Config, q: Queue, now: Instant, w: Waiter)
    requires Ordered(q) && q.waiters != [] && cfg.enabled && w in q.waiters
    requires w in RemoveAt(q.waiters, Pick(cfg, q, now))
    ensures var x := q.waiters[Pick(cfg, q, now)];
            x.user == w.user ==> x.sequence < w.sequence
  {
    var x := q.waiters[Pick(cfg, q, now)];
    PickedIsLeast(cfg, q, now, w);
    RemoveAtMembers(q, Pick(cfg, q, now));
    if w.sequence == x.sequence {
      assert x in q.waiters;
      SameTicket(q, w, x);
      assert false;
    }
  }

  /** What an admission turn does to a user's grants in the window. */
  lemma RecentAfter(cfg: Config, q: Queue, now: Instant, u: User)
    requires WillAdmit(cfg, q) && HasChannels(q) && cfg.enabled
    ensures var x := q.waiters[Pick(cfg, q, now)];
            var gain := Recent(cfg, AdmitOne(cfg, q, now).grants, now, u) - Recent(cfg, q.grants, now, u);
            && 0 <= gain <= Bit(q.slots[x.ready] != Closed && x.user == u)
            && (q.slots[x.ready] != Closed && x.user == u ==>
                  (Cutoff(cfg, now).Some? ==> Cutoff(cfg, now).value < now) ==> gain == 1)
  {
    var x := q.waiters[Pick(cfg, q, now)];
    RecentPruned(cfg, q.grants, now, u);
    RecentRecorded(cfg, q.grants, x.user, now, u);
  }

  /** The arithmetic of one turn: usages before, in the window at the turn, and after it. */
  lemma LagAdds(u0: int, u1: int, u2: int, v0: int, v1: int, v2: int, e0: int, e2: int,
                later: bool, mine: bool)
    requires u1 <= u0 && v1 <= v0 && u1 <= u2 && v1 <= v2
    requires if mine then u2 <= u1 + 1 && e2 == e0 - 1 else u2 == u1 && e2 <= e0
    requires later ==> !mine && v1 < u1 && v2 == v1 + 1 && e2 >= 0
    ensures var before, after, expired := u0 + e0 - v0, u2 + e2 - v2, v0 - v1;
            if later then 0 <= after <= before + expired - 1 else after <= before + expired
  {
  }

  /** An admission turn moves the lag by at most what it admits and what expires. */
  lemma AdmitLag(cfg: Config, q: Queue, clock: Instant, now: Instant, w: Waiter, v: User)
    requires Ordered(q) && WillAdmit(cfg, q) && HasChannels(q) && cfg.enabled && v != w.user
    requires DequesSorted(q.grants, clock) && clock <= now
    requires w in q.waiters && w in AdmitOne(cfg, q, now).waiters
    ensures var x := q.waiters[Pick(cfg, q, now)];
            var before, after := Lag(cfg, q, clock, w, v), Lag(cfg, AdmitOne(cfg, q, now), now, w, v);
            var expired := Recent(cfg, q.grants, clock, v) - Recent(cfg, q.grants, now, v);
            if q.slots[x.ready] != Closed && x.user == v && x.sequence > w.sequence
            then 0 <= after <= before + expired - 1
            else after <= before + expired
  {
    var q' := AdmitOne(cfg, q, now);
    var x, u := q.waiters[Pick(cfg, q, now)], w.user;
    var later := q.slots[x.ready] != Closed && x.user == v && x.sequence > w.sequence;
    PickedIsLeast(cfg, q, now, w);
    PickedEarlier(cfg, q, now, w);
    EarlierRemove(q, Pick(cfg, q, now), w);
    RecentShrinks(cfg, q.grants, clock, now, u);
    RecentShrinks(cfg, q.grants, clock, now, v);
    RecentAfter(cfg, q, now, u);
    RecentAfter(cfg, q, now, v);
    if later {
      RecentMeansWindow(cfg, q.grants, clock, now, u);
    }
    LagAdds(Recent(cfg, q.grants, clock, u), Recent(cfg, q.grants, now, u), Recent(cfg, q'.grants, now, u),
            Recent(cfg, q.grants, clock, v), Recent(cfg, q.grants, now, v), Recent(cfg, q'.grants, now, v),
            |Earlier(q.waiters, w)|, |Earlier(q'.waiters, w)|, later, x.user == u);
  }

  /** Losing waiters, or gaining one with a later ticket, never widens the lag. */
  lemma OtherLag(cfg: Config, q: Queue, q': Queue, clock: Instant, now: Instant, w: Waiter, v: User)
    requires q'.grants == q.grants && clock <= now
    requires forall x :: x in q'.waiters ==> x in q.waiters || x.sequence > w.sequence
    ensures Lag(cfg, q', now, w, v)
         <= Lag(cfg, q, clock, w, v) + Recent(cfg, q.grants, clock, v) - Recent(cfg, q.grants, now, v)
  {
    SubsetSize(Earlier(q'.waiters, w), Earlier(q.waiters, w));
    RecentShrinks(cfg, q.grants, clock, now, w.user);
  }

  lemma JoinsLast(q: Queue, user: User, channel: nat)
    requires Ordered(q)
    ensures var q' := Enqueue(q, user, channel);
            && Ordered(q') && q'.nextSequence == q.nextSequence + 1
            && forall x :: x in q'.waiters ==> x in q.waiters || x.sequence == q.nextSequence
  {
  }

  lemma ListUntouched(c: Setup, s: State, e: Event)
    requires Enabled(c, s, e) && !e.Admit? && !e.Forget? && (e.Arrive? ==> FastPath(c.cfg, s.queue))
    ensures var q' := Apply(c, s, e).queue;
            q'.waiters == s.queue.waiters && q'.nextSequence == s.queue.nextSequence
  {
  }

  /** Who can be in the waiter list after a step. */
  lemma Arrivals(c: Setup, s: State, e: Event)
    requires Ordered(s.queue) && Enabled(c, s, e)
    ensures Ordered(Apply(c, s, e).queue)
    ensures Apply(c, s, e).queue.nextSequence >= s.queue.nextSequence
    ensures forall x :: x in Apply(c, s, e).queue.waiters ==>
              x in s.queue.waiters || x.sequence == s.queue.nextSequence
  {
    if e.Admit? {
      RemoveAtMembers(s.queue, Pick(c.cfg, s.queue, e.now));
    } else if e.Forget? {
      var i := Position(s.queue.waiters, s.requests[e.request].sequence);
      if i < |s.queue.waiters| {
        RemoveAtMembers(s.queue, i);
      }
    } else if e.Arrive? && !FastPath(c.cfg, s.queue) {
      JoinsLast(s.queue, e.user, e.request);
    } else {
      ListUntouched(c, s, e);
    }
  }

  lemma GrantsUntouched(c: Setup, s: State, e: Event)
    requires Enabled(c, s, e) && !e.Admit? && s.queue.waiters != []
    ensures Apply(c, s, e).queue.grants == s.queue.grants
  {
  }

  lemma TicketIssued(q: Queue, w: Waiter)
    requires Ordered(q) && w in q.waiters
    ensures w.sequence < q.nextSequence
  {
    var i :| 0 <= i < |q.waiters| && q.waiters[i] == w;
  }

  lemma ClockMoves(c: Setup, s: State, e: Event)
    requires Enabled(c, s, e)
    ensures s.clock <= Apply(c, s, e).clock
    ensures e.Admit? ==> Apply(c, s, e).clock == e.now && Apply(c, s, e).queue == AdmitOne(c.cfg, s.queue, e.now)
  {
  }

  lemma LagStep(c: Setup, s: State, e: Event, w: Waiter, v: User)
    requires Ordered(s.queue) && DequesSorted(s.queue.grants, s.clock)
    requires Enabled(c, s, e) && c.cfg.enabled && v != w.user
    requires w in s.queue.waiters && w in Apply(c, s, e).queue.waiters
    ensures var s' := Apply(c, s, e);
            var before, after := Lag(c.cfg, s.queue, s.clock, w, v), Lag(c.cfg, s'.queue, s'.clock, w, v);
            if AdmitsLater(c, s, e, v, w.sequence)
            then 0 <= after <= before + Expiring(c, s, e, v) - 1
            else after <= before + Expiring(c, s, e, v)
  {
    ClockMoves(c, s, e);
    if e.Admit? {
      AdmitLag(c.cfg, s.queue, s.clock, e.now, w, v);
    } else {
      Arrivals(c, s, e);
      GrantsUntouched(c, s, e);
      TicketIssued(s.queue, w);
      OtherLag(c.cfg, s.queue, Apply(c, s, e).queue, s.clock, Apply(c, s, e).clock, w, v);
    }
  }

  // --------------------------------------------------------------- whole runs

  /** A waiter that has left the list never comes back under its sequence number. */
  lemma {:induction false} NeverReturns(c: Setup, s: State, es: seq<Event>, w: Waiter)
    requires Ordered(s.queue) && Valid(c, s, es)
    requires w !in s.queue.waiters && w.sequence < s.queue.nextSequence
    ensures w !in Exec(c, s, es).queue.waiters
    decreases |es|
  {
    if es != [] {
      var s' := Apply(c, s, es[0]);
      Arrivals(c, s, es[0]);
      NeverReturns(c, s', es[1..], w);
    }
  }

  lemma StillWaiting(c: Setup, s: State, es: seq<Event>, w: Waiter)
    requires Ordered(s.queue) && Valid(c, s, es) && es != []
    requires w in s.queue.waiters && w in Exec(c, s, es).queue.waiters
    ensures Ordered(Apply(c, s, es[0]).queue) && w in Apply(c, s, es[0]).queue.waiters
  {
    var s' := Apply(c, s, es[0]);
    Arrivals(c, s, es[0]);
    if w !in s'.queue.waiters {
      TicketIssued(s.queue, w);
      NeverReturns(c, s', es[1..], w);
      assert false;
    }
  }

  /**
    Fairness of one turn, in terms of the run so far: the waiter it takes out has
    the fewest admissions that count, and among those with as few the earliest
    ticket; the others stay, and an open channel makes it an admission.
  */
  lemma AdmitsLeastServed(c: Setup, s: State, now: nat) returns (x: Waiter)
    requires Reachable(c, s) && c.cfg.enabled && Enabled(c, s, Admit(now))
    ensures x in s.queue.waiters && x.ready in s.queue.slots
    ensures forall w :: w in s.queue.waiters ==>
              var a, b := |Served(c, s, now, x.user)|, |Served(c, s, now, w.user)|;
              a < b || (a == b && x.sequence <= w.sequence)
    ensures var after := Apply(c, s, Admit(now));
            && (forall w :: w in after.queue.waiters <==> w in s.queue.waiters && w != x)
            && after.history == (if s.queue.slots[x.ready] == Closed then s.history
                                 else s.history + [Grant(x.user, now)])
  {
    x := s.queue.waiters[Pick(c.cfg, s.queue, now)];
    forall w | w in s.queue.waiters
      ensures var a, b := |Served(c, s, now, x.user)|, |Served(c, s, now, w.user)|;
              a < b || (a == b && x.sequence <= w.sequence)
    {
      PickedIsLeastServed(c, s, now, w);
    }
    AdmitTakes(c, s, now);
    LeavesOthers(c, s, Pick(c.cfg, s.queue, now));
  }

  lemma PickedIsLeastServed(c: Setup, s: State, now: nat, w: Waiter)
    requires Reachable(c, s) && c.cfg.enabled && s.clock <= now && w in s.queue.waiters
    ensures var x := s.queue.waiters[Pick(c.cfg, s.queue, now)];
            var a, b := |Served(c, s, now, x.user)|, |Served(c, s, now, w.user)|;
            a < b || (a == b && x.sequence <= w.sequence)
  {
    WindowExact(c, s, now, s.queue.waiters[Pick(c.cfg, s.queue, now)].user);
    WindowExact(c, s, now, w.user);
    PickedIsLeast(c.cfg, s.queue, now, w);
  }

  /** What one turn does to the list and to the history. */
  lemma AdmitTakes(c: Setup, s: State, now: nat)
    requires c.cfg.enabled && Enabled(c, s, Admit(now))
    ensures var i, after := Pick(c.cfg, s.queue, now), Apply(c, s, Admit(now));
            var x := s.queue.waiters[i];
            && x.ready in s.queue.slots
            && after.queue.waiters == RemoveAt(s.queue.waiters, i)
            && after.history == (if s.queue.slots[x.ready] == Closed then s.history
                                 else s.history + [Grant(x.user, now)])
  {
  }

  lemma LeavesOthers(c: Setup, s: State, i: nat)
    requires Reachable(c, s) && i < |s.queue.waiters|
    ensures forall w :: w in RemoveAt(s.queue.waiters, i) <==> w in s.queue.waiters && w != s.queue.waiters[i]
  {
    ReachableInv(c, s);
    RemoveAtMembers(s.queue, i);
  }

  // ----- A potential argument, for any counts along any run -----

  /** One event: each count of `later` is paid by the lag, which only `expiring` can raise. */
  ghost predicate Paid(later: nat, expiring: nat, lag: int, lag': int) {
    if later == 0 then lag' <= lag + expiring else later == 1 && 0 <= lag' <= lag + expiring - 1
  }

  ghost predicate AllPaid(c: Setup, s: State, es: seq<Event>, later: (State, Event) -> nat,
                          expiring: (State, Event) -> nat, lag: State -> int)
    requires Valid(c, s, es)
    decreases |es|
  {
    es == [] ||
    (var s' := Apply(c, s, es[0]);
     Paid(later(s, es[0]), expiring(s, es[0]), lag(s), lag(s')) && AllPaid(c, s', es[1..], later, expiring, lag))
  }

  lemma PaidAdds(later: nat, expiring: nat, lag: int, lag': int, laters: nat, expirings: nat)
    requires Paid(later, expiring, lag, lag') && laters <= Max(0, lag' + expirings)
    ensures later + laters <= Max(0, lag + (expiring + expirings))
  {
  }

  /** The first event of a run in which all is paid. */
  lemma PaidHead(c: Setup, s: State, es: seq<Event>, later: (State, Event) -> nat,
                 expiring: (State, Event) -> nat, lag: State -> int)
    requires Valid(c, s, es) && es != [] && AllPaid(c, s, es, later, expiring, lag)
    ensures Enabled(c, s, es[0]) && Valid(c, Apply(c, s, es[0]), es[1..])
    ensures Paid(later(s, es[0]), expiring(s, es[0]), lag(s), lag(Apply(c, s, es[0])))
    ensures AllPaid(c, Apply(c, s, es[0]), es[1..], later, expiring, lag)
    ensures Tally(c, s, es, later) == later(s, es[0]) + Tally(c, Apply(c, s, es[0]), es[1..], later)
    ensures Tally(c, s, es, expiring) == expiring(s, es[0]) + Tally(c, Apply(c, s, es[0]), es[1..], expiring)
  {
  }

  lemma {:induction false} PaidInAll(c: Setup, s: State, es: seq<Event>, later: (State, Event) -> nat,
                                     expiring: (State, Event) -> nat, lag: State -> int)
    requires Valid(c, s, es) && AllPaid(c, s, es, later, expiring, lag)
    ensures Tally(c, s, es, later) <= Max(0, lag(s) + Tally(c, s, es, expiring))
    decreases |es|
  {
    if es != [] {
      var s', rest := Apply(c, s, es[0]), es[1..];
      PaidHead(c, s, es, later, expiring, lag);
      PaidInAll(c, s', rest, later, expiring, lag);
      PaidAdds(later(s, es[0]), expiring(s, es[0]), lag(s), lag(s'),
               Tally(c, s', rest, later), Tally(c, s', rest, expiring));
    }
  }

  lemma SortedStep(c: Setup, s: State, e: Event)
    requires DequesSorted(s.queue.grants, s.clock) && Enabled(c, s, e) && s.queue.waiters != []
    ensures DequesSorted(Apply(c, s, e).queue.grants, Apply(c, s, e).clock)
  {
    ClockMoves(c, s, e);
    if e.Admit? {
      if c.cfg.enabled {
        PruneSorted(c.cfg, s.queue.grants, s.clock, e.now);
        RecordSorted(Prune(c.cfg, s.queue.grants, e.now), s.queue.waiters[Pick(c.cfg, s.queue, e.now)].user, e.now);
      }
    } else {
      GrantsUntouched(c, s, e);
    }
  }

  /** `w` is in line, in a queue whose tickets and deques are in order. */
  ghost predicate InLine(s: State, w: Waiter) {
    Ordered(s.queue) && DequesSorted(s.queue.grants, s.clock) && w in s.queue.waiters
  }

  lemma InLineStep(c: Setup, s: State, es: seq<Event>, w: Waiter)
    requires InLine(s, w) && Valid(c, s, es) && es != [] && w in Exec(c, s, es).queue.waiters
    ensures InLine(Apply(c, s, es[0]), w)
  {
    StillWaiting(c, s, es, w);
    SortedStep(c, s, es[0]);
  }

  ghost function LagOf(c: Setup, w: Waiter, v: User): State -> int {
    (s: State) => Lag(c.cfg, s.queue, s.clock, w, v)
  }

  lemma StepPaid(c: Setup, s: State, e: Event, w: Waiter, v: User)
    requires InLine(s, w) && Enabled(c, s, e) && InLine(Apply(c, s, e), w) && c.cfg.enabled && v != w.user
    ensures Paid(LaterStep(c, v, w.sequence)(s, e), ExpiringStep(c, v)(s, e),
                 LagOf(c, w, v)(s), LagOf(c, w, v)(Apply(c, s, e)))
  {
    LagStep(c, s, e, w, v);
  }

  lemma {:induction false} BypassPaid(c: Setup, s: State, es: seq<Event>, w: Waiter, v: User)
    requires InLine(s, w) && Valid(c, s, es) && c.cfg.enabled && v != w.user
    requires w in Exec(c, s, es).queue.waiters
    ensures AllPaid(c, s, es, LaterStep(c, v, w.sequence), ExpiringStep(c, v), LagOf(c, w, v))
    decreases |es|
  {
    if es != [] {
      InLineStep(c, s, es, w);
      StepPaid(c, s, es[0], w, v);
      BypassPaid(c, Apply(c, s, es[0]), es[1..], w, v);
    }
  }

  /**
    Bounded bypass. While `w` waits, the later arrivals of another user `v` that
    are admitted ahead of it number at most what `w`'s user was ahead of `v` by
    (its grants in the window, plus its own earlier waiters, less `v`'s grants in
    the window) plus the grants of `v` that leave the window meanwhile.
  */
  lemma BypassBound(c: Setup, s: State, es: seq<Event>, w: Waiter, v: User)
    requires InLine(s, w) && Valid(c, s, es) && c.cfg.enabled && v != w.user
    requires w in Exec(c, s, es).queue.waiters
    ensures LaterAdmissions(c, s, es, v, w.sequence)
         <= Max(0, Lag(c.cfg, s.queue, s.clock, w, v) + Expirations(c, s, es, v))
  {
    BypassPaid(c, s, es, w, v);
    PaidMeansBound(c, s, es, w, v);
  }

  lemma PaidMeansBound(c: Setup, s: State, es: seq<Event>, w: Waiter, v: User)
    requires Valid(c, s, es)
    requires AllPaid(c, s, es, LaterStep(c, v, w.sequence), ExpiringStep(c, v), LagOf(c, w, v))
    ensures LaterAdmissions(c, s, es, v, w.sequence)
         <= Max(0, Lag(c.cfg, s.queue, s.clock, w, v) + Expirations(c, s, es, v))
  {
    PaidFrom(c, s, es, LaterStep(c, v, w.sequence), ExpiringStep(c, v), LagOf(c, w, v),
             Lag(c.cfg, s.queue, s.clock, w, v));
  }

  lemma PaidFrom(c: Setup, s: State, es: seq<Event>, later: (State, Event) -> nat,
                 expiring: (State, Event) -> nat, lag: State -> int, start: int)
    requires Valid(c, s, es) && AllPaid(c, s, es, later, expiring, lag) && lag(s) == start
    ensures Tally(c, s, es, later) <= Max(0, start + Tally(c, s, es, expiring))
  {
    PaidInAll(c, s, es, later, expiring, lag);
  }

  lemma NotOvertaken(c: Setup, s: State, e: Event, w: Waiter, v: User)
    requires Ordered(s.queue) && Enabled(c, s, e) && (v == w.user || !c.cfg.enabled)
    requires w in s.queue.waiters
    ensures !AdmitsLater(c, s, e, v, w.sequence)
  {
    if e.Admit? {
      var i :| 0 <= i < |s.queue.waiters| && s.queue.waiters[i] == w;
      if c.cfg.enabled {
        PickedIsLeast(c.cfg, s.queue, e.now, w);
      }
    }
  }

  /** Nobody later from the same user, and with fairness off nobody later at all, is admitted first. */
  lemma {:induction false} NoOvertaking(c: Setup, s: State, es: seq<Event>, w: Waiter, v: User)
    requires Ordered(s.queue) && Valid(c, s, es) && (v == w.user || !c.cfg.enabled)
    requires w in s.queue.waiters && w in Exec(c, s, es).queue.waiters
    ensures LaterAdmissions(c, s, es, v, w.sequence) == 0
    decreases |es|
  {
    if es != [] {
      StillWaiting(c, s, es, w);
      NoOvertaking(c, Apply(c, s, es[0]), es[1..], w, v);
      NotOvertaken(c, s, es[0], w, v);
    }
  }

  /** The newest waiter has everyone of its user before it. */
  lemma EarlierThanNewest(q: Queue, w: Waiter)
    requires Ordered(q) && w.sequence == q.nextSequence
    ensures Earlier(q.waiters + [w], w) == set x | x in q.waiters && x.user == w.user
  {
    forall x | x in q.waiters
      ensures x.sequence < w.sequence
    {
      TicketIssued(q, x);
    }
  }

  lemma ReachableOrder(c: Setup, s: State)
    requires Reachable(c, s)
    ensures Ordered(s.queue) && WindowInv(c, s)
  {
    ReachableInv(c, s);
    ReachableWindow(c, s);
  }

  lemma SortedStepArrive(c: Setup, s: State, r: nat, user: User, now: nat)
    requires WindowInv(c, s) && Enabled(c, s, Arrive(r, user, now))
    ensures var s' := Apply(c, s, Arrive(r, user, now)); DequesSorted(s'.queue.grants, s'.clock)
  {
    WindowStep(c, s, Arrive(r, user, now));
  }

  lemma JustArrived(c: Setup, s: State, r: nat, user: User, now: nat)
    requires Reachable(c, s) && Enabled(c, s, Arrive(r, user, now)) && !FastPath(c.cfg, s.queue)
    ensures var q, s' := s.queue, Apply(c, s, Arrive(r, user, now));
            var w := Waiter(user, q.nextSequence, r);
            && InLine(s', w)
            && forall v :: Lag(c.cfg, s'.queue, s'.clock, w, v)
                 == Recent(c.cfg, q.grants, now, user) + |set x | x in q.waiters && x.user == user|
                    - Recent(c.cfg, q.grants, now, v)
  {
    ReachableOrder(c, s);
    SortedStepArrive(c, s, r, user, now);
    Arrivals(c, s, Arrive(r, user, now));
    EarlierThanNewest(s.queue, Waiter(user, s.queue.nextSequence, r));
  }

  lemma BypassWithin(c: Setup, s: State, es: seq<Event>, w: Waiter, v: User, lag: int)
    requires InLine(s, w) && Valid(c, s, es) && c.cfg.enabled && v != w.user
    requires w in Exec(c, s, es).queue.waiters
    requires Lag(c.cfg, s.queue, s.clock, w, v) == lag
    ensures LaterAdmissions(c, s, es, v, w.sequence) <= Max(0, lag) + Expirations(c, s, es, v)
  {
    BypassBound(c, s, es, w, v);
  }

  /**
    The bound as seen by a request that has just joined the queue in a reachable
    state. Only grants in the window at that moment count, whether or not the
    queue has pruned the others yet.
  */
  lemma BypassFromArrival(c: Setup, s: State, r: nat, user: User, now: nat, es: seq<Event>, v: User)
    requires Reachable(c, s) && c.cfg.enabled && v != user
    requires Enabled(c, s, Arrive(r, user, now)) && !FastPath(c.cfg, s.queue)
    requires Valid(c, Apply(c, s, Arrive(r, user, now)), es)
    requires Waiter(user, s.queue.nextSequence, r)
             in Exec(c, Apply(c, s, Arrive(r, user, now)), es).queue.waiters
    ensures var s' := Apply(c, s, Arrive(r, user, now));
            var window := Prune(c.cfg, s.queue.grants, now);
            var ahead := Usage(window, user) + |set x | x in s.queue.waiters && x.user == user|;
            LaterAdmissions(c, s', es, v, s.queue.nextSequence)
              <= Max(0, ahead - Usage(window, v)) + Expirations(c, s', es, v)
  {
    JustArrived(c, s, r, user, now);
    var w := Waiter(user, s.queue.nextSequence, r);
    var s' := Apply(c, s, Arrive(r, user, now));
    BypassWithin(c, s', es, w, v, Lag(c.cfg, s'.queue, s'.clock, w, v));
  }
}
