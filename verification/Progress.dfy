/**
  Every run without new arrivals is finite: a measure of the state goes down
  with each event, so the proxy drains, whoever cancels and whatever fails.
*/
module Progress {
  import opened Common
  import opened ProxySystem
  import opened ProxyInvariants
  import opened ResourceChain
  import opened Router
  import EnergyMeter

  // ------------------------------------------------------ adding up a map

  ghost function Weigh<V>(m: map<nat, V>, weight: V -> nat): nat
    decreases |m|
  {
    if m == map[] then 0
    else
      var k :| k in m;
      assert |m - {k}| < |m| by {
        assert (m - {k}).Keys == m.Keys - {k};
      }
      weight(m[k]) + Weigh(m - {k}, weight)
  }

  /** Any entry can be taken out first. */
  lemma {:induction false} WeighOut<V>(m: map<nat, V>, weight: V -> nat, k: nat)
    requires k in m
    ensures Weigh(m, weight) == weight(m[k]) + Weigh(m - {k}, weight)
    decreases |m|
  {
    var j :| j in m && Weigh(m, weight) == weight(m[j]) + Weigh(m - {j}, weight);
    if j != k {
      assert (m - {j}).Keys == m.Keys - {j} && (m - {k}).Keys == m.Keys - {k};
      WeighOut(m - {j}, weight, k);
      WeighOut(m - {k}, weight, j);
      assert (m - {j}) - {k} == (m - {k}) - {j};
    }
  }

  lemma WeighUpdate<V>(m: map<nat, V>, weight: V -> nat, k: nat, v: V)
    requires k in m
    ensures Weigh(m[k := v], weight) == Weigh(m, weight) - weight(m[k]) + weight(v)
  {
    WeighOut(m, weight, k);
    WeighOut(m[k := v], weight, k);
    assert m[k := v] - {k} == m - {k};
  }

  // ------------------------------------------------------------ the measure

  /**
    How many steps a request in this phase can still cause, when a route has at
    most `most` candidates. Giving a slot back counts twice: it also starts the
    admission loop.
  */
  ghost function Rank(most: nat): Phase -> nat {
    (p: Phase) =>
      match p
      case Waiting(_) => 5 * most + 4
      case HandBack(_) => 3
      case Cancelled(_) => 1
      case Admitted => 5 * most + 3
      case Trying(candidates, pos) => 5 * Left(candidates, pos) + 2
      case Loaded(candidates, pos) => 5 * Left(candidates, pos) + 1
      case Sending(candidates, pos) => 5 * Left(candidates, pos)
      case Streaming(candidates, pos) => 5 * Left(candidates, pos) - 1
      case MeterDropped(candidates, pos, _) => 5 * Left(candidates, pos) - 2
      case Leaving => 2
  }

  /** Candidates not yet given up on; one at least for a request at its backend. */
  ghost function Left(candidates: seq<nat>, pos: nat): (n: nat)
    ensures n >= 1
  {
    if pos < |candidates| then |candidates| - pos else 1
  }

  ghost function Measure(s: State, most: nat): nat {
    Weigh(s.requests, Rank(most)) + |s.queue.waiters| + Bit(s.admitting)
  }

  /** The event is no arrival, and routes to at most `most` candidates. */
  ghost predicate Internal(e: Event, most: nat) {
    !e.Arrive? && (e.Route? ==> |e.candidates| <= most)
  }

  /** A request that moves on, and stays or leaves, at the given cost. */
  lemma MoveDown(s: State, s': State, r: nat, most: nat)
    requires r in s.requests
    requires s'.requests == if r in s'.requests then s.requests[r := s'.requests[r]] else s.requests - {r}
    ensures Weigh(s'.requests, Rank(most))
         == Weigh(s.requests, Rank(most)) - Rank(most)(s.requests[r])
            + if r in s'.requests then Rank(most)(s'.requests[r]) else 0
  {
    if r in s'.requests {
      WeighUpdate(s.requests, Rank(most), r, s'.requests[r]);
    } else {
      WeighOut(s.requests, Rank(most), r);
    }
  }

  /** What a step does to the request it is about: the phase moves down the ranks. */
  lemma RankDrops(c: Setup, s: State, e: Event, most: nat)
    requires PhasesSound(c, s) && Enabled(c, s, e) && Internal(e, most) && !e.Admit? && !e.Unlock?
    ensures var s', r := Apply(c, s, e), e.request;
            && r in s.requests
            && s'.requests == (if r in s'.requests then s.requests[r := s'.requests[r]] else s.requests - {r})
            && (if r in s'.requests then Rank(most)(s'.requests[r]) else 0) + Bit(e.Release?)
               < Rank(most)(s.requests[r])
  {
    assert OnBackend(c, s.requests[e.request]);
  }

  lemma QueueShrinks(c: Setup, s: State, e: Event)
    requires Enabled(c, s, e) && !e.Arrive?
    ensures var s' := Apply(c, s, e);
            && |s'.queue.waiters| <= |s.queue.waiters| - Bit(e.Admit?)
            && Bit(s'.admitting) <= Bit(s.admitting) + Bit(e.Release?) - Bit(e.Unlock?)
  {
  }

  lemma MeasureDrops(c: Setup, s: State, e: Event, most: nat)
    requires PhasesSound(c, s) && Enabled(c, s, e) && Internal(e, most)
    ensures Measure(Apply(c, s, e), most) < Measure(s, most)
  {
    QueueShrinks(c, s, e);
    if e.Admit? || e.Unlock? {
      assert Apply(c, s, e).requests == s.requests;
    } else {
      RankDrops(c, s, e, most);
      MoveDown(s, Apply(c, s, e), e.request, most);
    }
  }

  // ------------------------------------------------------------------- runs

  ghost predicate AllInternal(es: seq<Event>, most: nat) {
    forall i :: 0 <= i < |es| ==> Internal(es[i], most)
  }

  /** A run without arrivals is no longer than the measure of its first state. */
  lemma {:induction false} RunsEnd(c: Setup, s: State, es: seq<Event>, most: nat)
    requires PhasesSound(c, s) && Valid(c, s, es) && AllInternal(es, most)
    ensures |es| + Measure(Exec(c, s, es), most) <= Measure(s, most)
    decreases |es|
  {
    if es != [] {
      MeasureDrops(c, s, es[0], most);
      PhasesStep(c, s, es[0]);
      RunsEnd(c, Apply(c, s, es[0]), es[1..], most);
    }
  }

  ghost function Members(s: seq<nat>): set<nat> {
    set b | b in s
  }

  lemma {:induction false} MembersSize(s: seq<nat>)
    requires Distinct(s)
    ensures |Members(s)| == |s|
  {
    if s != [] {
      var before, last := s[..|s| - 1], s[|s| - 1];
      MembersSize(before);
      assert s == before + [last];
      assert Members(s) == Members(before) + {last};
    }
  }

  /** Routes list each backend at most once, so they are no longer than there are backends. */
  lemma DistinctFits(candidates: seq<nat>, n: nat)
    requires Distinct(candidates) && forall i :: 0 <= i < |candidates| ==> candidates[i] < n
    ensures |candidates| <= n
  {
    MembersSize(candidates);
    SubsetSize(Members(candidates), EnergyMeter.Ticks(0, n));
  }

  ghost predicate DistinctRoutes(es: seq<Event>) {
    forall e :: e in es && e.Route? ==> Distinct(e.candidates)
  }

  lemma {:induction false} RoutesFit(c: Setup, s: State, es: seq<Event>)
    requires Valid(c, s, es) && DistinctRoutes(es) && forall e :: e in es ==> !e.Arrive?
    ensures AllInternal(es, |c.watts|)
    decreases |es|
  {
    if es != [] {
      assert es == [es[0]] + es[1..];
      assert es[0] in es;
      RoutesFit(c, Apply(c, s, es[0]), es[1..]);
      if es[0].Route? {
        DistinctFits(es[0].candidates, |c.watts|);
      }
    }
  }

  lemma {:induction false} ExecReachable(c: Setup, s: State, es: seq<Event>)
    requires Reachable(c, s) && Valid(c, s, es)
    ensures Reachable(c, Exec(c, s, es))
  {
    var s0, before :| Init(c, s0) && Valid(c, s0, before) && s == Exec(c, s0, before);
    ExecAppend(c, s0, before, es);
  }

  /** Nothing but an arrival can happen next. */
  ghost predicate AtRest(c: Setup, s: State) {
    forall e :: Enabled(c, s, e) ==> e.Arrive?
  }

  /**
    The proxy drains. From any reachable state, a run without arrivals and with
    duplicate-free routes has at most `Measure` events; and when it cannot be
    continued, no request is left and every counter is back at rest.
  */
  lemma Drains(c: Setup, s: State, es: seq<Event>)
    requires Reachable(c, s) && Valid(c, s, es) && DistinctRoutes(es) && forall e :: e in es ==> !e.Arrive?
    ensures |es| <= Measure(s, |c.watts|)
    ensures var end := Exec(c, s, es);
            AtRest(c, end) ==>
              && end.requests == map[] && end.queue.inFlight == 0 && end.queue.waiters == []
              && |end.load| == |end.meters|
              && forall b :: 0 <= b < |end.load| ==> end.load[b] == 0 && end.meters[b].active == 0
  {
    ReachableInv(c, s);
    RoutesFit(c, s, es);
    RunsEnd(c, s, es, |c.watts|);
    var end := Exec(c, s, es);
    ExecReachable(c, s, es);
    if AtRest(c, end) {
      if end.requests != map[] {
        var e := NoDeadlock(c, end);
        assert false;
      }
      NothingLeaks(c, end);
    }
  }
}
