/**
  The rolling-window fair admission queue (crates/twl-server/src/fair_queue.rs).

  `Queue` is the state behind the mutex together with the state of the oneshot
  channels that hand guards to waiting tasks. The functions are the effect of
  one mutex-held region (or of one turn of the admission loop); the class runs
  the same regions step by step and is proved to have exactly that effect.
*/
module FairQueue {
  import opened Common

  type Instant = int

  /** Admission identity; all anonymous traffic is one user. */
  datatype User = Anonymous | Account(id: int)

  /** `ready` names the oneshot channel whose sending half the waiter owns. */
  datatype Waiter = Waiter(user: User, sequence: nat, ready: nat)

  datatype Slot = Empty | Delivered | Closed

  type Grants = map<User, seq<Instant>>

  /** `earliest` is the smallest instant the platform can represent. */
  datatype Config = Config(capacity: nat, enabled: bool, window: nat, earliest: Instant)

  datatype Queue = Queue(
    inFlight: nat,
    nextSequence: nat,
    grants: Grants,
    waiters: seq<Waiter>,
    slots: map<nat, Slot>)

  // ---------------------------------------------------------------- window

  /** `Instant::checked_sub`. */
  function Cutoff(cfg: Config, now: Instant): Option<Instant> {
    if now - cfg.window < cfg.earliest then None else Some(now - cfg.window)
  }

  /** Pops from the front while the oldest grant is not newer than the cutoff. */
  function DropOld(ts: seq<Instant>, cutoff: Instant): seq<Instant> {
    if ts != [] && ts[0] <= cutoff then DropOld(ts[1..], cutoff) else ts
  }

  function Prune(cfg: Config, grants: Grants, now: Instant): Grants {
    match Cutoff(cfg, now)
    case None => grants
    case Some(cutoff) =>
      map u | u in grants && DropOld(grants[u], cutoff) != [] :: DropOld(grants[u], cutoff)
  }

  /** Deques that become empty leave the map, which nobody can tell. */
  lemma PruneByUser(cfg: Config, grants: Grants, now: Instant)
    ensures now - cfg.window < cfg.earliest ==> Prune(cfg, grants, now) == grants
    ensures now - cfg.window >= cfg.earliest ==>
              forall u :: GrantsOf(Prune(cfg, grants, now), u) == DropOld(GrantsOf(grants, u), now - cfg.window)
  {
  }

  function GrantsOf(grants: Grants, user: User): seq<Instant> {
    if user in grants then grants[user] else []
  }

  function Usage(grants: Grants, user: User): nat {
    |GrantsOf(grants, user)|
  }

  function Record(grants: Grants, user: User, now: Instant): Grants {
    grants[user := GrantsOf(grants, user) + [now]]
  }

  // ------------------------------------------------------------- selection

  /** The admission key: fewer grants first, then earlier arrival. */
  predicate Precedes(grants: Grants, a: Waiter, b: Waiter) {
    || Usage(grants, a.user) < Usage(grants, b.user)
    || (Usage(grants, a.user) == Usage(grants, b.user) && a.sequence < b.sequence)
  }

  /** Index of the first waiter with the smallest admission key. */
  function Best(grants: Grants, ws: seq<Waiter>): (i: nat)
    requires ws != []
    ensures i < |ws|
    ensures forall j :: 0 <= j < |ws| ==> !Precedes(grants, ws[j], ws[i])
    ensures forall j :: 0 <= j < i ==> Precedes(grants, ws[i], ws[j])
  {
    if |ws| == 1 then 0
    else
      var last := |ws| - 1;
      var i := Best(grants, ws[..last]);
      assert forall j :: 0 <= j < last ==> ws[..last][j] == ws[j];
      if Precedes(grants, ws[last], ws[i]) then last else i
  }

  /** Looking at one more waiter. */
  lemma BestNext(grants: Grants, ws: seq<Waiter>, i: nat)
    requires 0 < i < |ws|
    ensures var best := Best(grants, ws[..i]);
            Best(grants, ws[..i + 1]) == if Precedes(grants, ws[i], ws[best]) then i else best
  {
    assert ws[..i + 1][..i] == ws[..i];
  }

  function RemoveAt<T>(s: seq<T>, i: nat): seq<T>
    requires i < |s|
  {
    s[..i] + s[i + 1..]
  }

  // ------------------------------------------------------ mutex-held regions

  predicate WillAdmit(cfg: Config, q: Queue) {
    q.inFlight < cfg.capacity && q.waiters != []
  }

  predicate HasChannels(q: Queue) {
    forall i :: 0 <= i < |q.waiters| ==> q.waiters[i].ready in q.slots
  }

  /** The grant history the selection looks at, and the index it picks. */
  function Seen(cfg: Config, q: Queue, now: Instant): Grants {
    if cfg.enabled then Prune(cfg, q.grants, now) else q.grants
  }

  function Pick(cfg: Config, q: Queue, now: Instant): (i: nat)
    requires q.waiters != []
    ensures i < |q.waiters|
  {
    if cfg.enabled then Best(Seen(cfg, q, now), q.waiters) else 0
  }

  /** One turn of the admission loop: pick a waiter and try to hand it a guard. */
  function AdmitOne(cfg: Config, q: Queue, now: Instant): (r: Queue)
    requires WillAdmit(cfg, q) && HasChannels(q)
    ensures |r.waiters| == |q.waiters| - 1 && HasChannels(r)
  {
    var i := Pick(cfg, q, now);
    var w := q.waiters[i];
    var grants := Seen(cfg, q, now);
    if q.slots[w.ready] == Closed then
      q.(waiters := RemoveAt(q.waiters, i), grants := grants)
    else
      q.(inFlight := q.inFlight + 1,
         waiters := RemoveAt(q.waiters, i),
         grants := if cfg.enabled then Record(grants, w.user, now) else grants,
         slots := q.slots[w.ready := Delivered])
  }

  predicate FastPath(cfg: Config, q: Queue) {
    q.inFlight < cfg.capacity && q.waiters == []
  }

  /** `acquire` when a slot is free and nobody waits. */
  function TakeSlot(cfg: Config, q: Queue, user: User, now: Instant): Queue {
    q.(inFlight := q.inFlight + 1,
       grants := if cfg.enabled then Record(Prune(cfg, q.grants, now), user, now) else q.grants)
  }

  /** `acquire` otherwise: register a waiter owning the sender of `channel`. */
  function Enqueue(q: Queue, user: User, channel: nat): Queue {
    q.(nextSequence := q.nextSequence + 1,
       waiters := q.waiters + [Waiter(user, q.nextSequence, channel)],
       slots := q.slots[channel := Empty])
  }

  /** Index of the waiter registered under `sequence`, or the length when there is none. */
  function Position(ws: seq<Waiter>, sequence: nat): (i: nat)
    ensures i <= |ws|
    ensures i < |ws| ==> ws[i].sequence == sequence
    ensures forall j :: 0 <= j < i ==> ws[j].sequence != sequence
  {
    if ws == [] || ws[0].sequence == sequence then 0 else 1 + Position(ws[1..], sequence)
  }

  /** `WaiterRegistration::drop`, which also ends the life of the channel. */
  function Deregister(q: Queue, sequence: nat, channel: nat): Queue {
    var i := Position(q.waiters, sequence);
    q.(waiters := if i < |q.waiters| then RemoveAt(q.waiters, i) else q.waiters,
       slots := q.slots - {channel})
  }

  /** `after` is reached from `before` by one admission turn per clock reading. */
  ghost predicate Admits(cfg: Config, before: Queue, ticks: seq<Instant>, after: Queue)
    decreases |ticks|
  {
    if ticks == [] then before == after
    else
      && WillAdmit(cfg, before)
      && HasChannels(before)
      && Admits(cfg, AdmitOne(cfg, before, ticks[0]), ticks[1..], after)
  }

  lemma {:induction false} AdmitsExtend(cfg: Config, a: Queue, ticks: seq<Instant>, b: Queue, now: Instant)
    requires Admits(cfg, a, ticks, b)
    requires WillAdmit(cfg, b) && HasChannels(b)
    ensures Admits(cfg, a, ticks + [now], AdmitOne(cfg, b, now))
    decreases |ticks|
  {
    if ticks == [] {
      assert ([now])[1..] == [];
    } else {
      AdmitsExtend(cfg, AdmitOne(cfg, a, ticks[0]), ticks[1..], b, now);
      assert (ticks + [now])[1..] == ticks[1..] + [now];
    }
  }

  ghost predicate Ascending(ts: seq<Instant>) {
    forall i, j :: 0 <= i < j < |ts| ==> ts[i] <= ts[j]
  }

  /** `ticks` are successive readings of a clock that went from `from` to `upto`. */
  ghost predicate Readings(from: Instant, ticks: seq<Instant>, upto: Instant) {
    && from <= upto
    && Ascending(ticks)
    && forall i :: 0 <= i < |ticks| ==> from <= ticks[i] <= upto
  }

  /** A monotonic clock: readings never go backwards. */
  class Clock {
    var time: Instant

    method Now() returns (t: Instant)
      modifies this
      ensures t == time && time >= old(time)
    {
      var elapsed :| elapsed >= 0;
      time := time + elapsed;
      t := time;
    }
  }

  /** The queue as the program runs it. */
  class FairQueue {
    const cfg: Config
    var inFlight: nat
    var nextSequence: nat
    var grants: Grants
    var waiters: seq<Waiter>
    var slots: map<nat, Slot>

    ghost function View(): Queue
      reads this
    {
      Queue(inFlight, nextSequence, grants, waiters, slots)
    }

    constructor (capacity: nat, enabled: bool, window: nat, earliest: Instant)
      requires capacity > 0
      ensures cfg == Config(capacity, enabled, window, earliest)
      ensures View() == Queue(0, 0, map[], [], map[])
    {
      cfg := Config(capacity, enabled, window, earliest);
      inFlight, nextSequence, grants, waiters, slots := 0, 0, map[], [], map[];
    }

    /** Visits every deque, popping its stale front; empty deques leave the map. */
    method PruneGrants(now: Instant)
      modifies this`grants
      ensures grants == Prune(cfg, old(grants), now)
      ensures now - cfg.window < cfg.earliest ==> grants == old(grants)
      ensures now - cfg.window >= cfg.earliest ==>
                forall u :: GrantsOf(grants, u) == DropOld(GrantsOf(old(grants), u), now - cfg.window)
    {
      PruneByUser(cfg, grants, now);
      if now - cfg.window < cfg.earliest {
        return;
      }
      var cutoff := now - cfg.window;
      var pending := grants.Keys;
      while pending != {}
        invariant pending <= old(grants).Keys
        invariant grants.Keys <= old(grants).Keys
        invariant forall u :: u in pending ==> u in grants && grants[u] == old(grants)[u]
        invariant forall u :: u in old(grants) && u !in pending ==>
          (u in grants <==> DropOld(old(grants)[u], cutoff) != [])
          && (u in grants ==> grants[u] == DropOld(old(grants)[u], cutoff))
        decreases |pending|
      {
        var u :| u in pending;
        var deque := grants[u];
        while deque != [] && deque[0] <= cutoff
          invariant DropOld(deque, cutoff) == DropOld(old(grants)[u], cutoff)
          decreases |deque|
        {
          deque := deque[1..];
        }
        grants := if deque == [] then grants - {u} else grants[u := deque];
        pending := pending - {u};
      }
    }

    method RecordGrant(user: User, now: Instant)
      modifies this`grants
      ensures grants == Record(Prune(cfg, old(grants), now), user, now)
      ensures GrantsOf(grants, user)
           == (if now - cfg.window < cfg.earliest then GrantsOf(old(grants), user)
               else DropOld(GrantsOf(old(grants), user), now - cfg.window)) + [now]
    {
      PruneGrants(now);
      grants := grants[user := GrantsOf(grants, user) + [now]];
    }

    /** `min_by_key` over (usage, sequence): the first minimum. */
    method SelectWaiter() returns (selected: nat)
      requires waiters != []
      ensures selected == Best(grants, waiters)
    {
      selected := 0;
      for i := 1 to |waiters|
        invariant selected < i
        invariant selected == Best(grants, waiters[..i])
      {
        BestNext(grants, waiters, i);
        if Precedes(grants, waiters[i], waiters[selected]) {
          selected := i;
        }
      }
      assert waiters[..|waiters|] == waiters;
    }

    /** Forgets what is too old, then selects; without fairness, the first in line. */
    method ChooseNext(now: Instant) returns (selected: nat)
      requires waiters != []
      modifies this`grants
      ensures grants == Seen(cfg, old(View()), now) && selected == Pick(cfg, old(View()), now)
    {
      selected := 0;
      if cfg.enabled {
        PruneGrants(now);
        selected := SelectWaiter();
      }
    }

    /** One turn: select, take out of the list, try to send the guard, undo on a dead receiver. */
    method AdmitNext(now: Instant)
      requires WillAdmit(cfg, View()) && HasChannels(View())
      modifies this`inFlight, this`grants, this`waiters, this`slots
      ensures View() == AdmitOne(cfg, old(View()), now)
    {
      var selected := ChooseNext(now);
      var w := waiters[selected];
      waiters := waiters[..selected] + waiters[selected + 1..];
      inFlight := inFlight + 1;
      if slots[w.ready] == Closed {
        inFlight := inFlight - 1;
      } else {
        slots := slots[w.ready := Delivered];
        if cfg.enabled {
          grants := grants[w.user := GrantsOf(grants, w.user) + [now]];
        }
      }
    }

    /** Hands out free slots until the queue is full or nobody waits. */
    method AdmitWaiters(clock: Clock) returns (ghost ticks: seq<Instant>)
      requires HasChannels(View())
      modifies this`inFlight, this`grants, this`waiters, this`slots, clock
      ensures Admits(cfg, old(View()), ticks, View())
      ensures !WillAdmit(cfg, View()) && HasChannels(View())
      ensures Readings(old(clock.time), ticks, clock.time)
    {
      ticks := [];
      while inFlight < cfg.capacity && waiters != []
        invariant HasChannels(View())
        invariant Admits(cfg, old(View()), ticks, View())
        invariant Readings(old(clock.time), ticks, clock.time)
        decreases |waiters|
      {
        var now := clock.Now();
        ghost var before := View();
        AdmitNext(now);
        AdmitsExtend(cfg, old(View()), ticks, before, now);
        ticks := ticks + [now];
      }
    }

    /** The first half of `acquire`; `admitted` is false when the caller must await the channel. */
    method Acquire(user: User, channel: nat, clock: Clock) returns (admitted: bool)
      modifies this, clock
      ensures admitted <==> FastPath(cfg, old(View()))
      ensures admitted ==> View() == TakeSlot(cfg, old(View()), user, clock.time)
      ensures !admitted ==> View() == Enqueue(old(View()), user, channel)
      ensures admitted <==> old(inFlight) < cfg.capacity && old(waiters) == []
      ensures admitted ==> inFlight == old(inFlight) + 1 && waiters == [] && slots == old(slots)
      ensures admitted && cfg.enabled ==>
                var kept := if clock.time - cfg.window < cfg.earliest then GrantsOf(old(grants), user)
                            else DropOld(GrantsOf(old(grants), user), clock.time - cfg.window);
                GrantsOf(grants, user) == kept + [clock.time]
      ensures !admitted ==>
                && waiters == old(waiters) + [Waiter(user, old(nextSequence), channel)]
                && nextSequence == old(nextSequence) + 1
                && inFlight == old(inFlight) && grants == old(grants) && slots == old(slots)[channel := Empty]
      ensures clock.time >= old(clock.time)
    {
      if inFlight < cfg.capacity && waiters == [] {
        inFlight := inFlight + 1;
        if cfg.enabled {
          var now := clock.Now();
          RecordGrant(user, now);
        }
        return true;
      }
      waiters := waiters + [Waiter(user, nextSequence, channel)];
      slots := slots[channel := Empty];
      nextSequence := nextSequence + 1;
      return false;
    }

    method Release(clock: Clock) returns (ghost ticks: seq<Instant>)
      requires inFlight > 0 && HasChannels(View())
      modifies this, clock
      ensures Admits(cfg, old(View()).(inFlight := old(inFlight) - 1), ticks, View())
      ensures !WillAdmit(cfg, View())
      ensures Readings(old(clock.time), ticks, clock.time)
    {
      inFlight := inFlight - 1;
      ticks := AdmitWaiters(clock);
    }

    /** Removes a cancelled waiter; its channel dies with it. */
    method DropRegistration(sequence: nat, channel: nat)
      modifies this`waiters, this`slots
      ensures View() == Deregister(old(View()), sequence, channel)
    {
      var i := 0;
      while i < |waiters| && waiters[i].sequence != sequence
        invariant i <= |waiters| && waiters == old(waiters)
        invariant Position(waiters, sequence) == i + Position(waiters[i..], sequence)
      {
        assert waiters[i..][1..] == waiters[i + 1..];
        i := i + 1;
      }
      if i < |waiters| {
        waiters := waiters[..i] + waiters[i + 1..];
      }
      slots := slots - {channel};
    }
  }
}
