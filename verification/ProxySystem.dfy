/**
  The proxy as one transition system: any number of requests share the
  admission queue, the per-backend load counters and the per-backend energy
  meters (fair_queue.rs, proxy/mod.rs, proxy/stream.rs, twl-backends).

  A step is one mutex-held region, one atomic counter update, or one turn of
  the admission loop while its mutex is held (`admitting`). Closing a oneshot
  receiver takes no mutex, so it may fall between two turns of that loop. A
  request may be cancelled at every await and then lets go of what it holds in
  the order the code drops it: meter, load, slot.
*/
module ProxySystem {
  import opened Common
  import opened FairQueue
  import opened EnergyMeter

  /** Where a request stands. `candidates[pos]` is the backend of the current attempt. */
  datatype Phase =
    | Waiting(sequence: nat)    // awaiting its oneshot receiver
    | HandBack(sequence: nat)   // receiver closed with a guard inside; guard not yet released
    | Cancelled(sequence: nat)  // receiver closed; registration not yet dropped
    | Admitted                  // holds the slot; reads the body and routes
    | Trying(candidates: seq<nat>, pos: nat)                     // next: begin_load
    | Loaded(candidates: seq<nat>, pos: nat)                     // next: meter.begin
    | Sending(candidates: seq<nat>, pos: nat)                    // awaits the upstream response
    | Streaming(candidates: seq<nat>, pos: nat)                  // guards moved into the response body
    | MeterDropped(candidates: seq<nat>, pos: nat, retry: bool)  // next: drop the load guard
    | Leaving                                                    // next: drop the slot

  datatype Grant = Grant(user: User, at: Instant)

  /** `history` records every admission ever granted; the program keeps only a window of it. */
  datatype State = State(
    queue: Queue,
    admitting: bool,
    requests: map<nat, Phase>,
    load: seq<nat>,
    meters: seq<Meter>,
    clock: nat,
    history: seq<Grant>)

  datatype Setup = Setup(cfg: Config, watts: seq<real>)

  datatype Event =
    | Arrive(request: nat, user: User, now: nat)  // first mutex-held region of `acquire`
    | Receive(request: nat)                       // the awaited receiver yields a guard
    | Close(request: nat)                         // the waiting task is dropped: receiver first
    | Forget(request: nat)                        // then its registration
    | Route(request: nat, candidates: seq<nat>)
    | BeginLoad(request: nat)
    | BeginMeter(request: nat, now: nat)
    | Respond(request: nat)
    | DropMeter(request: nat, retry: bool, now: nat)  // connect failure with a next candidate, or the end
    | DropLoad(request: nat)
    | Release(request: nat)                       // slot dropped: take the mutex, give the permit back
    | Admit(now: nat)                             // one turn of the admission loop
    | Unlock                                      // the loop is done

  ghost predicate ValidSetup(c: Setup) {
    c.cfg.capacity > 0
  }

  ghost predicate Init(c: Setup, s: State) {
    && s.queue == Queue(0, 0, map[], [], map[])
    && !s.admitting
    && s.requests == map[]
    && |s.load| == |s.meters| == |c.watts|
    && (forall b :: 0 <= b < |s.load| ==> s.load[b] == 0 && s.meters[b] == IDLE)
    && s.history == []
  }

  ghost predicate ValidRoute(c: Setup, candidates: seq<nat>) {
    && candidates != []
    && forall i :: 0 <= i < |candidates| ==> candidates[i] < |c.watts|
  }

  /** A request whose phase names an attempt has a backend. */
  ghost predicate OnBackend(c: Setup, p: Phase) {
    (p.Trying? || p.Loaded? || p.Sending? || p.Streaming? || p.MeterDropped?) ==>
      && ValidRoute(c, p.candidates)
      && p.pos < |p.candidates|
      && (p.MeterDropped? && p.retry ==> p.pos + 1 < |p.candidates|)
  }

  predicate HasTicket(p: Phase) {
    p.Waiting? || p.HandBack? || p.Cancelled?
  }

  /** Does a request in this phase own an armed admission guard outside the channel? */
  predicate HoldsSlot(p: Phase) {
    !p.Waiting? && !p.Cancelled?
  }

  function LoadOn(b: nat): Phase -> bool {
    (p: Phase) =>
      (p.Loaded? || p.Sending? || p.Streaming? || p.MeterDropped?)
      && p.pos < |p.candidates| && p.candidates[p.pos] == b
  }

  function MeterOn(b: nat): Phase -> bool {
    (p: Phase) => (p.Sending? || p.Streaming?) && p.pos < |p.candidates| && p.candidates[p.pos] == b
  }

  predicate IsDelivered(slot: Slot) {
    slot == Delivered
  }

  // ------------------------------------------------------------------ steps

  ghost predicate At(s: State, r: nat) {
    r in s.requests
  }

  ghost predicate Enabled(c: Setup, s: State, e: Event) {
    e in Possible(c, s)
  }

  /**
    The events that can happen next. A set, so that a proof that only passes
    `Enabled` on does not take the guard of every kind of event apart.
  */
  ghost function Possible(c: Setup, s: State): iset<Event> {
    iset e: Event | Guard(c, s, e)
  }

  ghost predicate Guard(c: Setup, s: State, e: Event) {
    match e
    case Arrive(r, _, now) => !s.admitting && r !in s.requests && r !in s.queue.slots && s.clock <= now
    case Receive(r) => At(s, r) && s.requests[r].Waiting? && r in s.queue.slots && s.queue.slots[r] == Delivered
    case Close(r) => At(s, r) && s.requests[r].Waiting? && r in s.queue.slots
    case Forget(r) => !s.admitting && At(s, r) && s.requests[r].Cancelled?
    case Route(r, candidates) => At(s, r) && s.requests[r].Admitted? && ValidRoute(c, candidates)
    case BeginLoad(r) =>
      && At(s, r) && s.requests[r].Trying? && OnBackend(c, s.requests[r])
      && |s.load| == |c.watts|
    case BeginMeter(r, now) =>
      && At(s, r) && s.requests[r].Loaded? && OnBackend(c, s.requests[r])
      && |s.meters| == |c.watts| && s.clock <= now
    case Respond(r) => At(s, r) && s.requests[r].Sending?
    case DropMeter(r, retry, now) =>
      && At(s, r) && (s.requests[r].Sending? || (s.requests[r].Streaming? && !retry))
      && OnBackend(c, s.requests[r])
      && |s.meters| == |c.watts| && s.clock <= now
      && (retry ==> s.requests[r].pos + 1 < |s.requests[r].candidates|)
      && var m := s.meters[s.requests[r].candidates[s.requests[r].pos]];
      && m.active > 0
      && (m.busySince.Some? ==> m.busySince.value <= now)
    case DropLoad(r) =>
      && At(s, r) && s.requests[r].MeterDropped? && OnBackend(c, s.requests[r])
      && |s.load| == |c.watts|
      && s.load[s.requests[r].candidates[s.requests[r].pos]] > 0
    case Release(r) =>
      && !s.admitting && At(s, r)
      && (s.requests[r].Admitted? || s.requests[r].Leaving? || s.requests[r].HandBack?)
      && s.queue.inFlight > 0
    case Admit(now) => s.admitting && s.clock <= now && WillAdmit(c.cfg, s.queue) && HasChannels(s.queue)
    case Unlock => s.admitting && !WillAdmit(c.cfg, s.queue)
  }

  /** The waiter that an admission turn at `now` would take, if its receiver is still open. */
  ghost function Admittee(c: Setup, s: State, now: Instant): Option<Waiter>
    requires WillAdmit(c.cfg, s.queue) && HasChannels(s.queue)
  {
    var w := s.queue.waiters[Pick(c.cfg, s.queue, now)];
    if s.queue.slots[w.ready] == Closed then None else Some(w)
  }

  ghost function Log(c: Setup, s: State, user: User, now: Instant): seq<Grant> {
    if c.cfg.enabled then s.history + [Grant(user, now)] else s.history
  }

  ghost function Apply(c: Setup, s: State, e: Event): State
    requires Enabled(c, s, e)
  {
    match e
    case Arrive(r, user, now) =>
      if FastPath(c.cfg, s.queue) then
        s.(queue := TakeSlot(c.cfg, s.queue, user, now),
           requests := s.requests[r := Admitted],
           clock := now,
           history := Log(c, s, user, now))
      else
        s.(queue := Enqueue(s.queue, user, r),
           requests := s.requests[r := Waiting(s.queue.nextSequence)],
           clock := now)
    case Receive(r) =>
      s.(queue := s.queue.(slots := s.queue.slots - {r}), requests := s.requests[r := Admitted])
    case Close(r) =>
      var next := if s.queue.slots[r] == Delivered then HandBack(s.requests[r].sequence)
                  else Cancelled(s.requests[r].sequence);
      s.(queue := s.queue.(slots := s.queue.slots[r := Closed]), requests := s.requests[r := next])
    case Forget(r) =>
      s.(queue := Deregister(s.queue, s.requests[r].sequence, r), requests := s.requests - {r})
    case Route(r, candidates) =>
      s.(requests := s.requests[r := Trying(candidates, 0)])
    case BeginLoad(r) =>
      var p := s.requests[r];
      var b := p.candidates[p.pos];
      s.(requests := s.requests[r := Loaded(p.candidates, p.pos)], load := s.load[b := s.load[b] + 1])
    case BeginMeter(r, now) =>
      var p := s.requests[r];
      var b := p.candidates[p.pos];
      s.(requests := s.requests[r := Sending(p.candidates, p.pos)],
         meters := s.meters[b := Begin(s.meters[b], now)], clock := now)
    case Respond(r) =>
      var p := s.requests[r];
      s.(requests := s.requests[r := Streaming(p.candidates, p.pos)])
    case DropMeter(r, retry, now) =>
      var p := s.requests[r];
      var b := p.candidates[p.pos];
      s.(requests := s.requests[r := MeterDropped(p.candidates, p.pos, retry)],
         meters := s.meters[b := Drop(s.meters[b], c.watts[b], now)], clock := now)
    case DropLoad(r) =>
      var p := s.requests[r];
      var b := p.candidates[p.pos];
      s.(requests := s.requests[r := if p.retry then Trying(p.candidates, p.pos + 1) else Leaving],
         load := s.load[b := s.load[b] - 1])
    case Release(r) =>
      s.(queue := s.queue.(inFlight := s.queue.inFlight - 1), admitting := true,
         requests := if s.requests[r].HandBack? then s.requests[r := Cancelled(s.requests[r].sequence)]
                     else s.requests - {r})
    case Admit(now) =>
      s.(queue := AdmitOne(c.cfg, s.queue, now), clock := now,
         history := match Admittee(c, s, now) case None => s.history case Some(w) => Log(c, s, w.user, now))
    case Unlock =>
      s.(admitting := false)
  }

  // ------------------------------------------------------------------- runs

  ghost predicate Valid(c: Setup, s: State, es: seq<Event>)
    decreases |es|
  {
    es == [] || (Enabled(c, s, es[0]) && Valid(c, Apply(c, s, es[0]), es[1..]))
  }

  ghost function Exec(c: Setup, s: State, es: seq<Event>): State
    requires Valid(c, s, es)
    decreases |es|
  {
    if es == [] then s else Exec(c, Apply(c, s, es[0]), es[1..])
  }

  /** `s` is reached from an initial state by some interleaving. */
  ghost predicate Reachable(c: Setup, s: State) {
    && ValidSetup(c)
    && exists s0, es :: Init(c, s0) && Valid(c, s0, es) && s == Exec(c, s0, es)
  }
}
