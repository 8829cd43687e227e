/**
  Guarantees of the whole proxy in every reachable state: the resource chain,
  queue safety and work conservation, no underflow, no leak, no deadlock.
*/
module ResourceChain {
  import opened Common
  import opened FairQueue
  import opened ProxySystem
  import opened ProxyInvariants

  /** Requests holding load on one of the first `n` backends. */
  ghost function LoadBelow(n: nat): Phase -> bool {
    (p: Phase) =>
      (p.Loaded? || p.Sending? || p.Streaming? || p.MeterDropped?)
      && p.pos < |p.candidates| && p.candidates[p.pos] < n
  }

  lemma {:induction false} LoadSum(c: Setup, s: State, n: nat)
    requires BackendsCounted(c, s) && n <= |s.load|
    ensures Sum(s.load[..n]) == Count(s.requests, LoadBelow(n))
  {
    if n == 0 {
      assert Matching(s.requests, LoadBelow(0)) == {};
    } else {
      LoadSum(c, s, n - 1);
      SumAppend(s.load[..n - 1], [s.load[n - 1]]);
      assert s.load[..n] == s.load[..n - 1] + [s.load[n - 1]];
      assert LoadExact(s, n - 1);
      CountSplit(s.requests, LoadBelow(n - 1), LoadOn(n - 1), LoadBelow(n));
    }
  }

  /**
    The resource chain: in every reachable state no backend meters more requests
    than it has in flight, and all in-flight requests together hold no more than
    the admission slots, of which there are never more than the capacity.
  */
  lemma ResourceChain(c: Setup, s: State)
    requires Reachable(c, s)
    ensures |s.load| == |s.meters| == |c.watts|
    ensures forall b :: 0 <= b < |s.load| ==> s.meters[b].active <= s.load[b]
    ensures Sum(s.load) <= s.queue.inFlight <= c.cfg.capacity
  {
    ReachableInv(c, s);
    forall b | 0 <= b < |s.load|
      ensures s.meters[b].active <= s.load[b]
    {
      assert LoadExact(s, b) && MeterExact(s, b);
      CountMonotone(s.requests, MeterOn(b), LoadOn(b));
    }
    LoadSum(c, s, |s.load|);
    assert s.load[..|s.load|] == s.load;
    CountMonotone(s.requests, LoadBelow(|s.load|), HoldsSlot);
  }

  /**
    Queue safety and work conservation: the permit count is the number of armed
    guards, and while the mutex is free nobody waits unless every permit is out.
  */
  lemma QueueSafety(c: Setup, s: State)
    requires Reachable(c, s)
    ensures s.queue.inFlight == Count(s.queue.slots, IsDelivered) + Count(s.requests, HoldsSlot)
    ensures s.queue.inFlight <= c.cfg.capacity
    ensures !s.admitting && s.queue.waiters != [] ==> s.queue.inFlight == c.cfg.capacity
  {
    ReachableInv(c, s);
  }

  lemma CountPositive<K, V>(m: map<K, V>, k: K, p: V -> bool)
    requires k in m && p(m[k])
    ensures Count(m, p) > 0
  {
    assert k in Matching(m, p);
  }

  /**
    No counter underflows and no sender dies early: whoever is about to drop a
    guard finds it counted, an admission turn finds every channel it needs, and a
    task on an empty channel is still registered with its own sequence number.
  */
  lemma DropsAreCounted(c: Setup, s: State, r: nat)
    requires Reachable(c, s) && r in s.requests
    ensures HasChannels(s.queue)
    ensures var p := s.requests[r];
            && (HoldsSlot(p) ==> s.queue.inFlight > 0)
            && (p.Sending? || p.Streaming? || p.MeterDropped? ==>
                  p.pos < |p.candidates| && p.candidates[p.pos] < |s.load| && s.load[p.candidates[p.pos]] > 0)
            && (p.Sending? || p.Streaming? ==>
                  && p.candidates[p.pos] < |s.meters|
                  && var m := s.meters[p.candidates[p.pos]];
                     m.active > 0 && m.busySince.Some? && m.busySince.value <= s.clock)
            && (p.Waiting? ==> r in s.queue.slots && s.queue.slots[r] != Closed)
            && (p.Waiting? && s.queue.slots[r] == Empty ==>
                  exists w :: w in s.queue.waiters && w.ready == r && w.sequence == p.sequence)
  {
    ReachableInv(c, s);
    var p := s.requests[r];
    assert OnBackend(c, p);
    if HoldsSlot(p) {
      CountPositive(s.requests, r, HoldsSlot);
    }
    if p.Sending? || p.Streaming? || p.MeterDropped? {
      var b := p.candidates[p.pos];
      assert LoadExact(s, b) && MeterExact(s, b);
      CountPositive(s.requests, r, LoadOn(b));
      if !p.MeterDropped? {
        CountPositive(s.requests, r, MeterOn(b));
      }
    }
  }

  /** Nothing leaks: when the last request is gone every counter is back at rest. */
  lemma NothingLeaks(c: Setup, s: State)
    requires Reachable(c, s) && s.requests == map[]
    ensures s.queue.inFlight == 0 && s.queue.waiters == [] && s.queue.slots == map[]
    ensures |s.load| == |s.meters| == |c.watts|
    ensures forall b :: 0 <= b < |s.load| ==> s.load[b] == 0 && s.meters[b].active == 0
  {
    ReachableInv(c, s);
    if s.queue.waiters != [] {
      var w := First(s.queue.waiters);
      assert false;
    }
    assert Matching(s.requests, HoldsSlot) == {};
    assert s.queue.slots.Keys == {};
    assert Matching(s.queue.slots, IsDelivered) == {};
    forall b | 0 <= b < |s.load|
      ensures s.load[b] == 0 && s.meters[b].active == 0
    {
      assert LoadExact(s, b) && MeterExact(s, b);
      assert Matching(s.requests, LoadOn(b)) == {} && Matching(s.requests, MeterOn(b)) == {};
    }
  }

  /** The next thing a request that is not just waiting can do by itself. */
  ghost function NextMove(c: Setup, s: State, r: nat): Event
    requires r in s.requests
  {
    match s.requests[r]
    case Waiting(_) => Receive(r)
    case HandBack(_) => Release(r)
    case Cancelled(_) => Forget(r)
    case Admitted => Release(r)
    case Trying(_, _) => BeginLoad(r)
    case Loaded(_, _) => BeginMeter(r, s.clock)
    case Sending(_, _) => Respond(r)
    case Streaming(_, _) => DropMeter(r, false, s.clock)
    case MeterDropped(_, _, _) => DropLoad(r)
    case Leaving => Release(r)
  }

  /** Steps that take the queue's mutex, and so wait while the admission loop holds it. */
  ghost predicate TakesMutex(e: Event) {
    e.Arrive? || e.Forget? || e.Release?
  }

  lemma FreeMove(c: Setup, s: State, r: nat)
    requires Reachable(c, s) && r in s.requests && !TakesMutex(NextMove(c, s, r))
    requires s.requests[r].Waiting? ==> r in s.queue.slots && s.queue.slots[r] == Delivered
    ensures Enabled(c, s, NextMove(c, s, r))
  {
    ReachableInv(c, s);
    DropsAreCounted(c, s, r);
    assert OnBackend(c, s.requests[r]);
    assert Guard(c, s, NextMove(c, s, r));
  }

  lemma LockedMove(c: Setup, s: State, r: nat)
    requires Reachable(c, s) && r in s.requests && TakesMutex(NextMove(c, s, r))
    ensures Enabled(c, s, NextMove(c, s, r)) <==> !s.admitting
  {
    DropsAreCounted(c, s, r);
    assert Guard(c, s, NextMove(c, s, r)) <==> !s.admitting;
  }

  /** A request that is not just waiting can take its next step, unless that has to wait for the mutex. */
  lemma MoveEnabled(c: Setup, s: State, r: nat)
    requires Reachable(c, s) && r in s.requests
    requires s.requests[r].Waiting? ==> r in s.queue.slots && s.queue.slots[r] == Delivered
    ensures Enabled(c, s, NextMove(c, s, r)) <==> !(s.admitting && TakesMutex(NextMove(c, s, r)))
  {
    if TakesMutex(NextMove(c, s, r)) {
      LockedMove(c, s, r);
    } else {
      FreeMove(c, s, r);
    }
  }

  /** No deadlock: while any request exists, some step other than a new arrival is possible. */
  lemma NoDeadlock(c: Setup, s: State) returns (e: Event)
    requires Reachable(c, s) && s.requests != map[]
    ensures !e.Arrive? && Enabled(c, s, e)
  {
    ReachableInv(c, s);
    var r :| r in s.requests;
    if s.admitting {
      DropsAreCounted(c, s, r);
      e := if WillAdmit(c.cfg, s.queue) then Admit(s.clock) else Unlock;
    } else {
      DropsAreCounted(c, s, r);
      if s.requests[r].Waiting? && s.queue.slots[r] == Empty {
        r := SlotOwner(c, s);
      }
      MoveEnabled(c, s, r);
      e := NextMove(c, s, r);
    }
  }

  /** When every permit is out, some task holds one or finds one in its channel. */
  lemma SlotOwner(c: Setup, s: State) returns (r: nat)
    requires Inv(c, s) && s.queue.inFlight > 0
    ensures r in s.requests
    ensures s.requests[r].Waiting? ==> r in s.queue.slots && s.queue.slots[r] == Delivered
    ensures !s.requests[r].Waiting? ==> HoldsSlot(s.requests[r])
  {
    if Count(s.requests, HoldsSlot) > 0 {
      r :| r in Matching(s.requests, HoldsSlot);
    } else {
      r :| r in Matching(s.queue.slots, IsDelivered);
    }
  }

  /** The events of the admission loop under the mutex: one turn per clock reading, then unlocking. */
  ghost function Turns(ticks: seq<nat>): seq<Event> {
    if ticks == [] then [Unlock] else [Admit(ticks[0])] + Turns(ticks[1..])
  }

  lemma {:induction false} AdmissionIsRun(c: Setup, s: State, ticks: seq<nat>, after: Queue)
    requires s.admitting && Admits(c.cfg, s.queue, ticks, after) && !WillAdmit(c.cfg, after)
    requires forall i :: 0 <= i < |ticks| ==> s.clock <= ticks[i]
    requires Ascending(ticks)
    ensures var es := Turns(ticks);
            Valid(c, s, es) && Exec(c, s, es).queue == after && !Exec(c, s, es).admitting
    decreases |ticks|
  {
    if ticks == [] {
      ExecCons(c, s, Unlock, []);
      assert [Unlock] + [] == [Unlock];
    } else {
      AdmissionIsRun(c, Apply(c, s, Admit(ticks[0])), ticks[1..], after);
      ExecCons(c, s, Admit(ticks[0]), Turns(ticks[1..]));
    }
  }

  lemma ReleaseStarts(c: Setup, s: State, r: nat)
    requires Enabled(c, s, Release(r))
    ensures s.queue.inFlight > 0
    ensures var s' := Apply(c, s, Release(r));
            && s'.queue == s.queue.(inFlight := s.queue.inFlight - 1)
            && s'.admitting && s'.clock == s.clock
  {
  }

  /**
    The class and the transition system agree: what the `Release` method does to
    the queue in one call is a run of the system, from dropping the slot through
    one admission turn per clock reading to unlocking.
  */
  lemma ReleaseIsRun(c: Setup, s: State, r: nat, ticks: seq<nat>, after: Queue)
    requires Enabled(c, s, Release(r))
    requires Admits(c.cfg, s.queue.(inFlight := s.queue.inFlight - 1), ticks, after) && !WillAdmit(c.cfg, after)
    requires Ascending(ticks) && forall i :: 0 <= i < |ticks| ==> s.clock <= ticks[i]
    ensures var es := [Release(r)] + Turns(ticks);
            && Valid(c, s, es)
            && Exec(c, s, es).queue == after && !Exec(c, s, es).admitting
  {
    var s' := Apply(c, s, Release(r));
    ReleaseStarts(c, s, r);
    AdmissionIsRun(c, s', ticks, after);
    ExecCons(c, s, Release(r), Turns(ticks));
  }
}
