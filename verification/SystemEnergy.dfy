/**
  Energy accounting inside the whole proxy: whatever the requests do, each
  backend's meter is what its own guards' lifetimes make it.
*/
module SystemEnergy {
  import opened Common
  import opened ProxySystem
  import opened ProxyInvariants
  import E = EnergyMeter

  /** Requests that hold a meter guard of backend `b`. */
  ghost function Metering(s: State, b: nat): set<nat> {
    Matching(s.requests, MeterOn(b))
  }

  /** One backend's guard events so far, numbered as they begin, and who holds which guard. */
  datatype Guards = Guards(trace: seq<E.Event>, owner: map<nat, nat>, next: nat)

  ghost predicate Begins(c: Setup, s: State, e: Event, b: nat)
    requires Enabled(c, s, e)
  {
    e.BeginMeter? && s.requests[e.request].candidates[s.requests[e.request].pos] == b
  }

  ghost predicate Drops(c: Setup, s: State, e: Event, b: nat)
    requires Enabled(c, s, e)
  {
    e.DropMeter? && s.requests[e.request].candidates[s.requests[e.request].pos] == b
  }

  /** Request `r` takes the next guard. */
  ghost function Taken(t: Guards, r: nat, now: nat): Guards {
    Guards(t.trace + [E.Began(t.next, now)], t.owner[r := t.next], t.next + 1)
  }

  /** Request `r` drops its guard. */
  ghost function Let(t: Guards, r: nat, now: nat): Guards {
    if r in t.owner then Guards(t.trace + [E.Dropped(t.owner[r], now)], t.owner - {r}, t.next) else t
  }

  ghost function Follow(c: Setup, s: State, e: Event, b: nat, t: Guards): Guards
    requires Enabled(c, s, e)
  {
    if Begins(c, s, e, b) then Taken(t, e.request, e.now)
    else if Drops(c, s, e, b) then Let(t, e.request, e.now)
    else t
  }

  /** The guard events of backend `b` along a run. */
  ghost function FollowAll(c: Setup, s: State, es: seq<Event>, b: nat, t: Guards): Guards
    requires Valid(c, s, es)
    decreases |es|
  {
    if es == [] then t else FollowAll(c, Apply(c, s, es[0]), es[1..], b, Follow(c, s, es[0], b, t))
  }

  const NO_GUARDS := Guards([], map[], 0)

  ghost predicate Numbered(t: Guards) {
    && (forall i :: 0 <= i < |t.trace| ==> t.trace[i].guard < t.next)
    && (forall r :: r in t.owner ==> t.owner[r] in E.Alive(t.trace))
    && (forall r, q :: r in t.owner && q in t.owner && t.owner[r] == t.owner[q] ==> r == q)
  }

  /** The trace explains the meter. */
  ghost predicate Explains(t: Guards, holders: set<nat>, m: E.Meter, watts: real, clock: nat) {
    && E.Legal(t.trace)
    && Numbered(t)
    && t.owner.Keys == holders
    && m == E.Run(t.trace, watts)
    && E.Horizon(t.trace) <= clock
  }

  // ----- What one event does to one backend -----

  lemma QuietStep(c: Setup, s: State, e: Event, b: nat)
    requires Enabled(c, s, e) && b < |s.meters| && !Begins(c, s, e, b) && !Drops(c, s, e, b)
    ensures b < |Apply(c, s, e).meters| && Apply(c, s, e).meters[b] == s.meters[b]
    ensures Metering(Apply(c, s, e), b) == Metering(s, b)
    ensures s.clock <= Apply(c, s, e).clock
  {
    if AtQueue(e) {
      QueueKeepsBackends(c, s, e, b);
    } else {
      assert Apply(c, s, e).requests.Keys == s.requests.Keys;
      assert Metering(Apply(c, s, e), b) == Metering(s, b);
    }
  }

  lemma BeginStep(c: Setup, s: State, e: Event, b: nat)
    requires Enabled(c, s, e) && b < |s.meters| && Begins(c, s, e, b)
    ensures b < |Apply(c, s, e).meters| && Apply(c, s, e).meters[b] == E.Begin(s.meters[b], e.now)
    ensures e.request !in Metering(s, b) && Metering(Apply(c, s, e), b) == Metering(s, b) + {e.request}
    ensures s.clock <= e.now == Apply(c, s, e).clock
  {
  }

  lemma DropStep(c: Setup, s: State, e: Event, b: nat)
    requires Enabled(c, s, e) && b < |s.meters| && Drops(c, s, e, b)
    ensures s.meters[b].active > 0 && (s.meters[b].busySince.Some? ==> s.meters[b].busySince.value <= e.now)
    ensures b < |Apply(c, s, e).meters| && b < |c.watts|
    ensures Apply(c, s, e).meters[b] == E.Drop(s.meters[b], c.watts[b], e.now)
    ensures e.request in Metering(s, b) && Metering(Apply(c, s, e), b) == Metering(s, b) - {e.request}
    ensures s.clock <= e.now == Apply(c, s, e).clock
  {
  }

  // ----- What one event does to the trace -----

  /** Numbers stay apart: what a begun guard does to the numbering, given who is alive. */
  lemma NumberedBegin(t: Guards, r: nat, now: nat)
    requires Numbered(t) && r !in t.owner
    requires E.Alive(t.trace + [E.Began(t.next, now)]) == E.Alive(t.trace) + {t.next}
    ensures t.next !in E.Alive(t.trace)
    ensures Numbered(Taken(t, r, now))
  {
    E.AliveBegan(t.trace);
  }

  lemma NumberedDrop(t: Guards, r: nat, now: nat)
    requires Numbered(t) && r in t.owner
    requires E.Alive(t.trace + [E.Dropped(t.owner[r], now)]) == E.Alive(t.trace) - {t.owner[r]}
    ensures Numbered(Let(t, r, now))
  {
    E.AliveBegan(t.trace);
    assert t.owner[r] in E.Alive(t.trace);
  }

  lemma ExplainBegin(t: Guards, holders: set<nat>, m: E.Meter, watts: real, clock: nat, r: nat, now: nat)
    requires Explains(t, holders, m, watts, clock) && r !in holders && clock <= now
    ensures Explains(Taken(t, r, now), holders + {r}, E.Begin(m, now), watts, now)
  {
    E.TraceBegan(t.trace, t.next, now, watts);
    NumberedBegin(t, r, now);
  }

  lemma ExplainDrop(t: Guards, holders: set<nat>, m: E.Meter, watts: real, clock: nat, r: nat, now: nat)
    requires Explains(t, holders, m, watts, clock) && r in holders && clock <= now
    ensures r in t.owner && m.active > 0 && m.busySince.Some? && m.busySince.value <= now
    ensures Explains(Let(t, r, now), holders - {r}, E.Drop(m, watts, now), watts, now)
  {
    E.TraceDropped(t.trace, t.owner[r], now, watts);
    NumberedDrop(t, r, now);
  }

  /** The trace explains the meter of backend `b` in this state. */
  ghost predicate Accounts(c: Setup, s: State, b: nat, t: Guards) {
    && b < |s.meters| == |c.watts|
    && Explains(t, Metering(s, b), s.meters[b], c.watts[b], s.clock)
  }

  lemma FollowStep(c: Setup, s: State, e: Event, b: nat, t: Guards)
    requires Accounts(c, s, b, t) && Enabled(c, s, e)
    ensures Accounts(c, Apply(c, s, e), b, Follow(c, s, e, b, t))
  {
    if Begins(c, s, e, b) {
      BeginStep(c, s, e, b);
      ExplainBegin(t, Metering(s, b), s.meters[b], c.watts[b], s.clock, e.request, e.now);
    } else if Drops(c, s, e, b) {
      DropStep(c, s, e, b);
      ExplainDrop(t, Metering(s, b), s.meters[b], c.watts[b], s.clock, e.request, e.now);
    } else {
      QuietStep(c, s, e, b);
    }
  }

  lemma {:induction false} FollowRun(c: Setup, s: State, es: seq<Event>, b: nat, t: Guards)
    requires Valid(c, s, es) && Accounts(c, s, b, t)
    ensures Accounts(c, Exec(c, s, es), b, FollowAll(c, s, es, b, t))
    decreases |es|
  {
    if es != [] {
      FollowStep(c, s, es[0], b, t);
      FollowRun(c, Apply(c, s, es[0]), es[1..], b, Follow(c, s, es[0], b, t));
    }
  }

  /**
   * In every run of the proxy, with any cancellations and failovers, the energy a backend has
   * reported plus its running interval is the measure of the union of its requests' meter
   * lifetimes, and once no request meters it, the reported energy alone is.
   */
  lemma SystemEnergyIsUnion(c: Setup, s0: State, es: seq<Event>, b: nat)
    requires ValidSetup(c) && Init(c, s0) && Valid(c, s0, es) && b < |c.watts| && c.watts[b] > 0.0
    ensures var s, trace := Exec(c, s0, es), FollowAll(c, s0, es, b, NO_GUARDS).trace;
            && E.Legal(trace) && b < |s.meters|
            && |E.Alive(trace)| == s.meters[b].active
            && E.Elapsed(s.meters[b].emitted)
               + (if s.meters[b].busySince.Some? then E.Horizon(trace) - s.meters[b].busySince.value else 0)
               == |E.Union(trace)|
            && (Metering(s, b) == {} ==> E.Elapsed(s.meters[b].emitted) == |E.Union(trace)|)
  {
    assert Metering(s0, b) == {};
    FollowRun(c, s0, es, b, NO_GUARDS);
    var s, trace := Exec(c, s0, es), FollowAll(c, s0, es, b, NO_GUARDS).trace;
    E.EnergyIsUnion(trace, c.watts[b]);
    ReachableInv(c, s);
    assert MeterExact(s, b);
  }
}
