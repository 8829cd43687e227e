/** The candidate loop of the proxy handler (crates/twl-server/src/proxy/mod.rs). */
module Failover {
  import opened Common
  import opened Router
  import opened RoundRobin
  import Registry
  import FairQueue
  import E = EnergyMeter

  /** How one attempt ends. Only a connect failure is known not to have reached the upstream. */
  datatype Outcome = Responded | ConnectFailure | OtherFailure

  datatype Result = Chosen(backend: nat) | Unavailable

  /** Number of leading candidates that refuse the connection. */
  function Refusals(candidates: seq<nat>, outcome: nat -> Outcome): (k: nat)
    ensures k <= |candidates|
    ensures forall i :: 0 <= i < k ==> outcome(candidates[i]) == ConnectFailure
    ensures k < |candidates| ==> outcome(candidates[k]) != ConnectFailure
  {
    if candidates == [] || outcome(candidates[0]) != ConnectFailure then 0
    else 1 + Refusals(candidates[1..], outcome)
  }

  lemma RefusalsIs(candidates: seq<nat>, outcome: nat -> Outcome, k: nat)
    requires k <= |candidates| && forall i :: 0 <= i < k ==> outcome(candidates[i]) == ConnectFailure
    requires k < |candidates| ==> outcome(candidates[k]) != ConnectFailure
    ensures Refusals(candidates, outcome) == k
  {
  }

  // ------------------------------------------------------------ guards

  /** The meter is in order at `now`: its running interval has begun. */
  ghost predicate Timely(meter: E.EnergyMeter, now: int)
    reads meter
  {
    now >= 0 && meter.Valid() && (meter.busySince.Some? ==> meter.busySince.value <= now)
  }

  /** One meter per backend. */
  ghost predicate Metered(meters: seq<E.EnergyMeter>, now: int)
    reads meters
  {
    && now >= 0
    && (forall i, j :: 0 <= i < j < |meters| ==> meters[i] != meters[j])
    && (forall b :: 0 <= b < |meters| ==> Timely(meters[b], now))
  }

  lemma BumpInjective(a: nat, b: nat)
    requires a < U32 && b < U32 && Bump(a, U32) == Bump(b, U32)
    ensures a == b
  {
  }

  /**
    One attempt takes the load guard, then the meter guard. A response keeps both;
    any failure drops the meter, then the load, and leaves the load counter as it
    was and the meter with nothing but the interval of the attempt.
  */
  method Attempt(registry: Registry.BackendRegistry, meter: E.EnergyMeter, clock: FairQueue.Clock, b: nat,
                 outcome: Outcome)
    returns (responded: bool, ghost began: nat, ghost ended: nat)
    requires registry.Valid() && b < |registry.inflight| && Timely(meter, clock.time)
    modifies registry`inflight, meter, clock
    ensures registry.Valid() && Timely(meter, clock.time)
    ensures old(clock.time) <= began <= ended <= clock.time
    ensures responded == (outcome == Responded)
    ensures registry.inflight == if responded then old(registry.inflight)[b := Bump(old(registry.inflight)[b], U32)]
                                 else old(registry.inflight)
    ensures meter.View() == if responded then E.Begin(old(meter.View()), began)
                            else E.Drop(E.Begin(old(meter.View()), began), meter.watts, ended)
    ensures meter.activeCount == old(meter.activeCount) + if responded then 1 else 0
  {
    registry.BeginLoad(b);
    var now := clock.Now();
    began, ended := now, now;
    meter.BeginGuard(now);
    responded := outcome == Responded;
    if !responded {
      now := clock.Now();
      ended := now;
      meter.DropGuard(now);
      registry.DropLoad(b);
      BumpInjective(registry.inflight[b], old(registry.inflight)[b]);
      assert registry.inflight == old(registry.inflight);
    }
  }

  /** The same attempt among all the backends: no other counter and no other meter moves. */
  method AttemptOn(registry: Registry.BackendRegistry, meters: seq<E.EnergyMeter>, clock: FairQueue.Clock, b: nat,
                   outcome: Outcome)
    returns (responded: bool)
    requires registry.Valid() && b < |meters| == |registry.inflight| && Metered(meters, clock.time)
    modifies registry`inflight, meters, clock
    ensures registry.Valid() && Metered(meters, clock.time)
    ensures responded == (outcome == Responded)
    ensures registry.inflight == if responded then old(registry.inflight)[b := Bump(old(registry.inflight)[b], U32)]
                                 else old(registry.inflight)
    ensures forall i :: 0 <= i < |meters| ==>
              meters[i].activeCount == old(meters[i].activeCount) + if responded && i == b then 1 else 0
  {
    ghost var began, ended;
    responded, began, ended := Attempt(registry, meters[b], clock, b, outcome);
  }

  /** The counters a finished loop leaves behind: one more on the chosen backend, or none. */
  function Held(counts: seq<nat>, result: Result): seq<nat>
    requires result.Chosen? ==> result.backend < |counts|
  {
    if result.Chosen? then counts[result.backend := Bump(counts[result.backend], U32)] else counts
  }

  /** What the loop makes of the candidates: the first that is not refused decides. */
  ghost predicate Tried(candidates: seq<nat>, outcome: nat -> Outcome, attempts: seq<nat>, result: Result) {
    var k := Refusals(candidates, outcome);
    && attempts == (if k < |candidates| then candidates[..k + 1] else candidates)
    && result == (if k < |candidates| && outcome(candidates[k]) == Responded
                  then Chosen(candidates[k]) else Unavailable)
  }

  /**
    Tries the candidates in order. A refused connection moves on to the next
    one; any other failure ends the request. The response kept is that of the
    first candidate that accepted the connection.
  */
  method TryCandidates(registry: Registry.BackendRegistry, meters: seq<E.EnergyMeter>, clock: FairQueue.Clock,
                       candidates: seq<nat>, outcome: nat -> Outcome)
    returns (result: Result, attempts: seq<nat>)
    requires registry.Valid() && |meters| == |registry.inflight| && Metered(meters, clock.time)
    requires candidates != [] && forall i :: 0 <= i < |candidates| ==> candidates[i] < |registry.inflight|
    modifies registry`inflight, meters, clock
    ensures registry.Valid() && Metered(meters, clock.time)
    ensures Tried(candidates, outcome, attempts, result)
    ensures result.Chosen? ==> result.backend < |old(registry.inflight)|
    ensures registry.inflight == Held(old(registry.inflight), result)
    ensures registry.inflight == if result.Chosen?
                                 then old(registry.inflight)[result.backend :=
                                        (old(registry.inflight)[result.backend] + 1) % U32]
                                 else old(registry.inflight)
    ensures forall b :: 0 <= b < |meters| ==>
              meters[b].activeCount == old(meters[b].activeCount) + Bit(result == Chosen(b))
  {
    var chosen: Option<nat> := None;
    attempts := [];
    var pos := 0;
    while pos < |candidates|
      invariant pos < |candidates| && chosen.None? && registry.Valid() && Metered(meters, clock.time)
      invariant attempts == candidates[..pos]
      invariant forall i :: 0 <= i < pos ==> outcome(candidates[i]) == ConnectFailure
      invariant registry.inflight == old(registry.inflight)
      invariant forall b :: 0 <= b < |meters| ==> meters[b].activeCount == old(meters[b].activeCount)
    {
      var b := candidates[pos];
      attempts := attempts + [b];
      var responded := AttemptOn(registry, meters, clock, b, outcome(b));
      if responded {
        chosen := Some(b);
        RefusalsIs(candidates, outcome, pos);
        break;
      }
      if outcome(b) != ConnectFailure || pos + 1 == |candidates| {
        RefusalsIs(candidates, outcome, if outcome(b) == ConnectFailure then pos + 1 else pos);
        return Unavailable, attempts;
      }
      pos := pos + 1;
    }
    // The loop either returned or captured a response.
    result := Chosen(chosen.value);
  }

  /**
    What the attempts look like, for a duplicate-free order: they are a prefix of
    it, every attempt but the last was refused, so at most one attempt can have
    been executed upstream, and a response is kept exactly when the last attempt
    gave one. Nothing is kept after refusals only if all candidates refused.
  */
  lemma AttemptsAreSafe(candidates: seq<nat>, outcome: nat -> Outcome, attempts: seq<nat>, result: Result)
    requires candidates != [] && Distinct(candidates) && Tried(candidates, outcome, attempts, result)
    ensures attempts != [] && attempts <= candidates && Distinct(attempts)
    ensures forall i :: 0 <= i < |attempts| - 1 ==> outcome(attempts[i]) == ConnectFailure
    ensures var last := attempts[|attempts| - 1];
            && result == (if outcome(last) == Responded then Chosen(last) else Unavailable)
            && (outcome(last) == ConnectFailure <==> forall b :: b in candidates ==> outcome(b) == ConnectFailure)
  {
    var k := Refusals(candidates, outcome);
    if k < |candidates| {
      assert candidates[k] in candidates;
      assert attempts[|attempts| - 1] == candidates[k];
    } else {
      assert forall b :: b in candidates ==> outcome(b) == ConnectFailure;
    }
  }

  /** Counting the first attempt keeps its backend within the bound that routing used. */
  lemma FirstAttemptFits(load: seq<nat>, factor: real, candidates: seq<nat>, order: seq<nat>,
                         outcome: nat -> Outcome, attempts: seq<nat>, result: Result)
    requires Registry.FirstFits(load, factor, candidates, order) && Tried(order, outcome, attempts, result)
    ensures attempts != [] && attempts[0] == order[0] < |load|
    ensures var bound := Bound(factor, Loads(load, candidates), |candidates|);
            && Bump(load[attempts[0]], U32) <= bound
            && (result == Chosen(attempts[0]) ==> Held(load, result)[attempts[0]] <= bound)
  {
  }

  /** The order in which a request for `model` tries the backends. */
  method PickRoute(registry: Registry.BackendRegistry, model: string, prefix: Option<nat>)
    returns (route: Registry.Route)
    requires registry.Valid() && registry.factor >= 1.0 && (prefix.Some? ==> registry.LoadsFit(Some(model)))
    modifies registry`cursors
    ensures registry.Valid()
    ensures route.Ok? <==> model in registry.catalog.routing || registry.mode == Registry.FlatPassthrough
    ensures route.Ok? ==>
              && route.order != [] && Distinct(route.order)
              && forall i :: 0 <= i < |route.order| ==> route.order[i] < |registry.inflight|
    ensures model in registry.catalog.routing ==>
              && multiset(route.order) == multiset(registry.catalog.routing[model].candidates)
              && (|registry.catalog.routing[model].candidates| > 1 && prefix.Some? ==>
                    Registry.FirstFits(registry.inflight, registry.factor,
                                       registry.catalog.routing[model].candidates, route.order))
  {
    route := registry.RouteCandidates(Some(model), prefix);
  }

  /**
    Routing and failover together, from an admitted request to the response it
    keeps: the candidates are tried in a duplicate-free order of exactly the
    model's backends, and only a kept response leaves its guards on the counters
    that routing reads. With a prefix and a choice, the first backend tried stays
    within the load bound with this request counted.
  */
  method Serve(registry: Registry.BackendRegistry, meters: seq<E.EnergyMeter>, clock: FairQueue.Clock,
               model: string, prefix: Option<nat>, outcome: nat -> Outcome)
    returns (route: Registry.Route, result: Result, attempts: seq<nat>)
    requires registry.Valid() && registry.factor >= 1.0 && (prefix.Some? ==> registry.LoadsFit(Some(model)))
    requires |meters| == |registry.inflight| && Metered(meters, clock.time)
    modifies registry`cursors, registry`inflight, meters, clock
    ensures registry.Valid() && Metered(meters, clock.time)
    ensures route.Ok? <==> model in registry.catalog.routing || registry.mode == Registry.FlatPassthrough
    ensures !route.Ok? ==> attempts == [] && result == Unavailable
    ensures route.Ok? ==> route.order != [] && Distinct(route.order) && Tried(route.order, outcome, attempts, result)
    ensures model in registry.catalog.routing ==>
              route.Ok? && multiset(route.order) == multiset(registry.catalog.routing[model].candidates)
    ensures result.Chosen? ==> result.backend < |old(registry.inflight)|
    ensures registry.inflight == Held(old(registry.inflight), result)
    ensures forall b :: 0 <= b < |meters| ==>
              meters[b].activeCount == old(meters[b].activeCount) + Bit(result == Chosen(b))
    ensures model in registry.catalog.routing && |registry.catalog.routing[model].candidates| > 1 && prefix.Some? ==>
              Registry.FirstFits(old(registry.inflight), registry.factor,
                                 registry.catalog.routing[model].candidates, route.order)
  {
    route := PickRoute(registry, model, prefix);
    if !route.Ok? {
      return route, Unavailable, [];
    }
    result, attempts := TryCandidates(registry, meters, clock, route.order, outcome);
  }
}
