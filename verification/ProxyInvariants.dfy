/**
  What every step of the proxy keeps: the links between tasks, channels and the
  waiter list, and the exactness of every counter.
*/
module ProxyInvariants {
  import opened Common
  import opened FairQueue
  import opened ProxySystem

  /** `in_flight` counts the armed guards: those in a channel and those held by a task. */
  ghost predicate SlotsCounted(s: State) {
    s.queue.inFlight == Count(s.queue.slots, IsDelivered) + Count(s.requests, HoldsSlot)
  }

  ghost predicate LoadExact(s: State, b: nat) {
    b < |s.load| && s.load[b] == Count(s.requests, LoadOn(b))
  }

  ghost predicate MeterExact(s: State, b: nat) {
    && b < |s.meters|
    && s.meters[b].active == Count(s.requests, MeterOn(b))
    && (s.meters[b].busySince.Some? <==> s.meters[b].active > 0)
    && (s.meters[b].busySince.Some? ==> s.meters[b].busySince.value <= s.clock)
  }

  /** Each backend's counters count the requests holding its guards. */
  ghost predicate BackendsCounted(c: Setup, s: State) {
    && |s.load| == |s.meters| == |c.watts|
    && forall b :: 0 <= b < |c.watts| ==> LoadExact(s, b) && MeterExact(s, b)
  }

  ghost predicate PhasesSound(c: Setup, s: State) {
    forall r :: r in s.requests ==> OnBackend(c, s.requests[r])
  }

  /** Never over capacity, and nobody waits beside a free slot while the mutex is free. */
  ghost predicate WorkConserving(c: Setup, s: State) {
    && s.queue.inFlight <= c.cfg.capacity
    && (!s.admitting && s.queue.waiters != [] ==> s.queue.inFlight == c.cfg.capacity)
  }

  /** Arrival order is sequence order. */
  ghost predicate Ordered(q: Queue) {
    && (forall i :: 0 <= i < |q.waiters| ==> q.waiters[i].sequence < q.nextSequence)
    && (forall i, j :: 0 <= i < j < |q.waiters| ==> q.waiters[i].sequence < q.waiters[j].sequence)
  }

  /** Every registered waiter belongs to a task that has not dropped its registration. */
  ghost predicate WaitersOwned(s: State) {
    forall w :: w in s.queue.waiters ==>
      && w.ready in s.queue.slots
      && s.queue.slots[w.ready] != Delivered
      && w.ready in s.requests
      && (s.requests[w.ready] == Waiting(w.sequence) || s.requests[w.ready] == Cancelled(w.sequence))
  }

  /** A channel lives exactly as long as its task may still look at it. */
  ghost predicate ChannelsOwned(s: State) {
    && s.queue.slots.Keys <= s.requests.Keys
    && forall r :: r in s.requests ==>
      && (HasTicket(s.requests[r]) <==> r in s.queue.slots)
      && (HasTicket(s.requests[r]) ==>
            && s.requests[r].sequence < s.queue.nextSequence
            && (s.requests[r].Waiting? <==> s.queue.slots[r] != Closed))
  }

  ghost predicate TicketsDistinct(s: State) {
    forall r, t ::
      (r in s.requests && t in s.requests && r != t && HasTicket(s.requests[r]) && HasTicket(s.requests[t])) ==>
        s.requests[r].sequence != s.requests[t].sequence
  }

  /** A task waiting on an empty channel still has its sender in the waiter list. */
  ghost predicate SendersAlive(s: State) {
    forall r :: r in s.requests && s.requests[r].Waiting? && r in s.queue.slots && s.queue.slots[r] == Empty ==>
      exists w :: w in s.queue.waiters && w.ready == r
  }

  ghost predicate Linked(s: State) {
    && Ordered(s.queue)
    && WaitersOwned(s)
    && ChannelsOwned(s)
    && TicketsDistinct(s)
    && SendersAlive(s)
  }

  ghost predicate Inv(c: Setup, s: State) {
    && Linked(s)
    && SlotsCounted(s)
    && BackendsCounted(c, s)
    && PhasesSound(c, s)
    && WorkConserving(c, s)
  }

  lemma InitInv(c: Setup, s: State)
    requires ValidSetup(c) && Init(c, s)
    ensures Inv(c, s)
  {
    forall b | 0 <= b < |s.load|
      ensures LoadExact(s, b) && MeterExact(s, b)
    {
      assert Matching(s.requests, LoadOn(b)) == {};
      assert Matching(s.requests, MeterOn(b)) == {};
    }
    assert Matching(s.queue.slots, IsDelivered) == {};
    assert Matching(s.requests, HoldsSlot) == {};
  }

  predicate AtQueue(e: Event) {
    e.Arrive? || e.Receive? || e.Close? || e.Forget? || e.Release? || e.Admit? || e.Unlock?
  }

  /** Steps that touch the queue. */
  lemma SlotsAtQueue(c: Setup, s: State, e: Event)
    requires Linked(s) && SlotsCounted(s) && Enabled(c, s, e) && AtQueue(e)
    ensures SlotsCounted(Apply(c, s, e))
  {
    var s' := Apply(c, s, e);
    match e
    case Arrive(r, _, _) =>
      CountUpdate(s.requests, r, s'.requests[r], HoldsSlot);
      if !FastPath(c.cfg, s.queue) {
        CountUpdate(s.queue.slots, r, Empty, IsDelivered);
      }
    case Receive(r) =>
      CountUpdate(s.requests, r, Admitted, HoldsSlot);
      CountRemove(s.queue.slots, r, IsDelivered);
    case Close(r) =>
      CountUpdate(s.requests, r, s'.requests[r], HoldsSlot);
      CountUpdate(s.queue.slots, r, Closed, IsDelivered);
    case Forget(r) =>
      CountRemove(s.requests, r, HoldsSlot);
      CountRemove(s.queue.slots, r, IsDelivered);
    case Release(r) =>
      if s.requests[r].HandBack? {
        CountUpdate(s.requests, r, s'.requests[r], HoldsSlot);
      } else {
        CountRemove(s.requests, r, HoldsSlot);
      }
    case Admit(now) =>
      var w := s.queue.waiters[Pick(c.cfg, s.queue, now)];
      CountUpdate(s.queue.slots, w.ready, Delivered, IsDelivered);
    case _ =>
  }

  lemma SlotsStep(c: Setup, s: State, e: Event)
    requires Linked(s) && SlotsCounted(s) && Enabled(c, s, e)
    ensures SlotsCounted(Apply(c, s, e))
  {
    if AtQueue(e) {
      SlotsAtQueue(c, s, e);
    } else {
      CountUpdate(s.requests, e.request, Apply(c, s, e).requests[e.request], HoldsSlot);
    }
  }

  /** Moving one request changes a backend's counts only by that request's own contribution. */
  lemma BackendMove(c: Setup, s: State, s': State, r: nat, b: nat)
    requires LoadExact(s, b) && MeterExact(s, b)
    requires s'.requests == if r in s'.requests then s.requests[r := s'.requests[r]] else s.requests - {r}
    ensures Count(s'.requests, LoadOn(b)) == s.load[b]
              - Bit(r in s.requests && LoadOn(b)(s.requests[r]))
              + Bit(r in s'.requests && LoadOn(b)(s'.requests[r]))
    ensures Count(s'.requests, MeterOn(b)) == s.meters[b].active
              - Bit(r in s.requests && MeterOn(b)(s.requests[r]))
              + Bit(r in s'.requests && MeterOn(b)(s'.requests[r]))
  {
    if r in s'.requests {
      CountUpdate(s.requests, r, s'.requests[r], LoadOn(b));
      CountUpdate(s.requests, r, s'.requests[r], MeterOn(b));
    } else {
      CountRemove(s.requests, r, LoadOn(b));
      CountRemove(s.requests, r, MeterOn(b));
    }
  }

  /** Steps at the queue touch no backend: whoever moves there holds no backend guard. */
  lemma QueueKeepsBackends(c: Setup, s: State, e: Event, b: nat)
    requires Enabled(c, s, e) && AtQueue(e)
    ensures var s' := Apply(c, s, e);
            && s'.load == s.load && s'.meters == s.meters && s.clock <= s'.clock
            && Matching(s'.requests, LoadOn(b)) == Matching(s.requests, LoadOn(b))
            && Matching(s'.requests, MeterOn(b)) == Matching(s.requests, MeterOn(b))
  {
    if !e.Admit? && !e.Unlock? {
      var was, now, r := s.requests, Apply(c, s, e).requests, e.request;
      assert was - {r} == now - {r};
      SameMatching(was, now, r, LoadOn(b));
      SameMatching(was, now, r, MeterOn(b));
    }
  }

  lemma LoadStep(c: Setup, s: State, e: Event, b: nat)
    requires LoadExact(s, b) && MeterExact(s, b) && Enabled(c, s, e)
    ensures LoadExact(Apply(c, s, e), b)
  {
    if AtQueue(e) {
      QueueKeepsBackends(c, s, e, b);
    } else {
      BackendMove(c, s, Apply(c, s, e), e.request, b);
    }
  }

  lemma MeterStep(c: Setup, s: State, e: Event, b: nat)
    requires LoadExact(s, b) && MeterExact(s, b) && Enabled(c, s, e)
    ensures MeterExact(Apply(c, s, e), b)
  {
    if AtQueue(e) {
      QueueKeepsBackends(c, s, e, b);
    } else {
      BackendMove(c, s, Apply(c, s, e), e.request, b);
    }
  }

  lemma BackendsStep(c: Setup, s: State, e: Event)
    requires BackendsCounted(c, s) && Enabled(c, s, e)
    ensures BackendsCounted(c, Apply(c, s, e))
  {
    forall b: nat | b < |c.watts|
      ensures LoadExact(Apply(c, s, e), b) && MeterExact(Apply(c, s, e), b)
    {
      LoadStep(c, s, e, b);
      MeterStep(c, s, e, b);
    }
  }

  lemma PhasesStep(c: Setup, s: State, e: Event)
    requires PhasesSound(c, s) && Enabled(c, s, e)
    ensures PhasesSound(c, Apply(c, s, e))
  {
  }

  lemma ConservingStep(c: Setup, s: State, e: Event)
    requires WorkConserving(c, s) && Enabled(c, s, e)
    ensures WorkConserving(c, Apply(c, s, e))
  {
  }

  // ---------------------------------------- tasks, channels and the waiter list

  /** Taking one element out keeps all the others, in order. */
  lemma RemoveAtElements<T>(s: seq<T>, i: nat)
    requires i < |s|
    ensures forall k :: 0 <= k < |s| - 1 ==> RemoveAt(s, i)[k] == s[if k < i then k else k + 1]
    ensures forall j :: 0 <= j < |s| && j != i ==> s[j] == RemoveAt(s, i)[if j < i then j else j - 1]
  {
  }

  /** Requests without a ticket come, move and go without touching the waiter list. */
  lemma LinkedQuiet(s: State, s': State, r: nat)
    requires Linked(s)
    requires s'.queue.waiters == s.queue.waiters && s'.queue.slots == s.queue.slots
    requires s'.queue.nextSequence == s.queue.nextSequence
    requires r !in s.queue.slots
    requires r in s'.requests ==> !HasTicket(s'.requests[r]) && s'.requests == s.requests[r := s'.requests[r]]
    requires r !in s'.requests ==> s'.requests == s.requests - {r}
    ensures Linked(s')
  {
  }

  lemma LinkedEnqueue(c: Setup, s: State, e: Event)
    requires Linked(s) && Enabled(c, s, e) && e.Arrive? && !FastPath(c.cfg, s.queue)
    ensures Linked(Apply(c, s, e))
  {
    LinkedJoin(s, Apply(c, s, e), e.request, e.user);
  }

  /** Request `r` of `user` joins the waiter list with a channel of its own. */
  ghost predicate Joins(s: State, s': State, r: nat, user: User) {
    && r !in s.requests && r !in s.queue.slots
    && s'.queue == Enqueue(s.queue, user, r)
    && s'.requests == s.requests[r := Waiting(s.queue.nextSequence)]
  }

  lemma JoinMembers(s: State, s': State, r: nat, user: User)
    requires Joins(s, s', r, user)
    ensures forall w :: w in s'.queue.waiters <==> w in s.queue.waiters || w == Waiter(user, s.queue.nextSequence, r)
  {
    var w := Waiter(user, s.queue.nextSequence, r);
    assert s'.queue.waiters == s.queue.waiters + [w];
    assert w in s'.queue.waiters;
  }

  lemma JoinOrdered(s: State, s': State, r: nat, user: User)
    requires Ordered(s.queue) && Joins(s, s', r, user)
    ensures Ordered(s'.queue)
  {
  }

  lemma JoinOwned(s: State, s': State, r: nat, user: User)
    requires WaitersOwned(s) && Joins(s, s', r, user)
    ensures WaitersOwned(s')
  {
    JoinMembers(s, s', r, user);
  }

  lemma JoinChannels(s: State, s': State, r: nat, user: User)
    requires ChannelsOwned(s) && TicketsDistinct(s) && Joins(s, s', r, user)
    ensures ChannelsOwned(s') && TicketsDistinct(s')
  {
  }

  lemma JoinSenders(s: State, s': State, r: nat, user: User)
    requires SendersAlive(s) && Joins(s, s', r, user)
    ensures SendersAlive(s')
  {
    JoinMembers(s, s', r, user);
    assert Waiter(user, s.queue.nextSequence, r) in s'.queue.waiters;
  }

  lemma LinkedJoin(s: State, s': State, r: nat, user: User)
    requires Linked(s) && Joins(s, s', r, user)
    ensures Linked(s')
  {
    JoinOrdered(s, s', r, user);
    JoinOwned(s, s', r, user);
    JoinChannels(s, s', r, user);
    JoinSenders(s, s', r, user);
  }

  lemma LinkedReceive(c: Setup, s: State, e: Event)
    requires Linked(s) && Enabled(c, s, e) && e.Receive?
    ensures Linked(Apply(c, s, e))
  {
  }

  /** A task stops listening, or gives back the guard it found in its channel. */
  lemma LinkedClose(s: State, s': State, r: nat)
    requires Linked(s) && r in s.requests && (s.requests[r].Waiting? || s.requests[r].HandBack?)
    requires s'.queue.waiters == s.queue.waiters && s'.queue.nextSequence == s.queue.nextSequence
    requires s'.queue.slots == s.queue.slots[r := Closed]
    requires var seqno := s.requests[r].sequence;
             || s'.requests == s.requests[r := Cancelled(seqno)]
             || (s.queue.slots[r] == Delivered && s'.requests == s.requests[r := HandBack(seqno)])
    ensures Linked(s')
  {
  }

  lemma RemoveAtMembers(q: Queue, i: nat)
    requires Ordered(q) && i < |q.waiters|
    ensures forall w :: w in RemoveAt(q.waiters, i) <==> w in q.waiters && w != q.waiters[i]
    ensures Ordered(q.(waiters := RemoveAt(q.waiters, i)))
  {
    RemoveAtElements(q.waiters, i);
  }

  /** A waiter leaves the list because it was handed a guard or because its receiver is closed. */
  lemma LinkedRemoval(s: State, s': State, i: nat)
    requires Linked(s) && i < |s.queue.waiters|
    requires s'.queue.waiters == RemoveAt(s.queue.waiters, i)
    requires s'.queue.nextSequence == s.queue.nextSequence && s'.requests == s.requests
    requires var w := s.queue.waiters[i];
             s'.queue.slots == if s.queue.slots[w.ready] == Closed then s.queue.slots
                               else s.queue.slots[w.ready := Delivered]
    ensures Linked(s')
  {
    RemoveAtMembers(s.queue, i);
    var w := s.queue.waiters[i];
    assert w in s.queue.waiters;
    forall v | v in s'.queue.waiters
      ensures v.ready != w.ready
    {
      assert v != w && v in s.queue.waiters;
    }
  }

  /** A cancelled task without a waiter disappears together with its channel. */
  lemma LinkedGone(s: State, s': State, r: nat)
    requires Linked(s) && r in s.requests && s.requests[r].Cancelled?
    requires forall w :: w in s.queue.waiters ==> w.ready != r
    requires s'.queue.waiters == s.queue.waiters && s'.queue.nextSequence == s.queue.nextSequence
    requires s'.queue.slots == s.queue.slots - {r} && s'.requests == s.requests - {r}
    ensures Linked(s')
  {
  }

  lemma LinkedForget(c: Setup, s: State, e: Event)
    requires Linked(s) && Enabled(c, s, e) && e.Forget?
    ensures Linked(Apply(c, s, e))
  {
    var ws := s.queue.waiters;
    var r := e.request;
    var i := Position(ws, s.requests[r].sequence);
    var mid := s;
    if i < |ws| {
      mid := s.(queue := s.queue.(waiters := RemoveAt(ws, i)));
      assert ws[i] in ws;
      LinkedRemoval(s, mid, i);
      RemoveAtMembers(s.queue, i);
    }
    forall w | w in mid.queue.waiters
      ensures w.ready != r
    {
      assert w in ws;
    }
    LinkedGone(mid, Apply(c, s, e), r);
  }

  lemma LinkedAdmit(c: Setup, s: State, e: Event)
    requires Linked(s) && Enabled(c, s, e) && e.Admit?
    ensures Linked(Apply(c, s, e))
  {
    LinkedRemoval(s, Apply(c, s, e), Pick(c.cfg, s.queue, e.now));
  }

  lemma LinkedStep(c: Setup, s: State, e: Event)
    requires Linked(s) && Enabled(c, s, e)
    ensures Linked(Apply(c, s, e))
  {
    if e.Arrive? && !FastPath(c.cfg, s.queue) {
      LinkedEnqueue(c, s, e);
    } else if e.Receive? {
      LinkedReceive(c, s, e);
    } else if e.Close? || (e.Release? && s.requests[e.request].HandBack?) {
      LinkedClose(s, Apply(c, s, e), e.request);
    } else if e.Forget? {
      LinkedForget(c, s, e);
    } else if e.Admit? {
      LinkedAdmit(c, s, e);
    } else if !e.Unlock? {
      LinkedQuiet(s, Apply(c, s, e), e.request);
    }
  }

  // ----------------------------------------------------------------- runs

  lemma InvStep(c: Setup, s: State, e: Event)
    requires Inv(c, s) && Enabled(c, s, e)
    ensures Inv(c, Apply(c, s, e))
  {
    LinkedStep(c, s, e);
    SlotsStep(c, s, e);
    BackendsStep(c, s, e);
    PhasesStep(c, s, e);
    ConservingStep(c, s, e);
  }

  lemma {:induction false} RunInv(c: Setup, s: State, es: seq<Event>)
    requires Inv(c, s) && Valid(c, s, es)
    ensures Inv(c, Exec(c, s, es))
    decreases |es|
  {
    if es != [] {
      InvStep(c, s, es[0]);
      RunInv(c, Apply(c, s, es[0]), es[1..]);
    }
  }

  lemma ReachableInv(c: Setup, s: State)
    requires Reachable(c, s)
    ensures Inv(c, s)
  {
    var s0, es :| Init(c, s0) && Valid(c, s0, es) && s == Exec(c, s0, es);
    InitInv(c, s0);
    RunInv(c, s0, es);
  }

  // ------------------------------------------------------ putting runs together

  lemma ExecCons(c: Setup, s: State, e: Event, es: seq<Event>)
    requires Enabled(c, s, e) && Valid(c, Apply(c, s, e), es)
    ensures Valid(c, s, [e] + es) && Exec(c, s, [e] + es) == Exec(c, Apply(c, s, e), es)
  {
    assert ([e] + es)[0] == e && ([e] + es)[1..] == es;
  }

  lemma ExecHead(c: Setup, s: State, es: seq<Event>)
    requires Valid(c, s, es) && es != []
    ensures Enabled(c, s, es[0]) && Valid(c, Apply(c, s, es[0]), es[1..])
    ensures Exec(c, s, es) == Exec(c, Apply(c, s, es[0]), es[1..])
    ensures es == [es[0]] + es[1..]
  {
  }

  lemma ConsAppend<T>(e: T, es: seq<T>, more: seq<T>)
    ensures [e] + es + more == [e] + (es + more)
  {
  }

  lemma {:induction false} ExecAppend(c: Setup, s: State, es: seq<Event>, more: seq<Event>)
    requires Valid(c, s, es) && Valid(c, Exec(c, s, es), more)
    ensures Valid(c, s, es + more) && Exec(c, s, es + more) == Exec(c, Exec(c, s, es), more)
    decreases |es|
  {
    if es == [] {
      assert es + more == more;
    } else {
      ExecHead(c, s, es);
      ExecAppend(c, Apply(c, s, es[0]), es[1..], more);
      ExecCons(c, s, es[0], es[1..] + more);
      ConsAppend(es[0], es[1..], more);
    }
  }
}
