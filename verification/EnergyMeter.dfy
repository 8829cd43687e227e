/**
  GPU energy metering (crates/twl-backends/src/energy.rs): one record per busy
  interval, however many requests overlap in it.

  The reference is the union of the guards' own lifetimes, read off the trace of
  begin and drop events without any counter.
*/
module EnergyMeter {
  import opened Common

  /** Meter state behind the mutex, and the elapsed times handed to the sink so far. */
  datatype Meter = Meter(active: nat, busySince: Option<nat>, emitted: seq<nat>)

  const IDLE := Meter(0, None, [])

  function Begin(m: Meter, now: nat): Meter {
    m.(active := m.active + 1, busySince := if m.active == 0 then Some(now) else m.busySince)
  }

  function Drop(m: Meter, watts: real, now: nat): Meter
    requires m.active > 0
    requires m.busySince.Some? ==> m.busySince.value <= now
  {
    if m.active > 1 then m.(active := m.active - 1)
    else
      Meter(0, None,
        if m.busySince.Some? && watts > 0.0 then m.emitted + [now - m.busySince.value] else m.emitted)
  }

  class EnergyMeter {
    const watts: real
    var activeCount: nat
    var busySince: Option<nat>
    /** What the sink has received: elapsed time and power. */
    var sink: seq<(nat, real)>

    ghost function View(): Meter
      reads this
    {
      Meter(activeCount, busySince, seq(|sink|, i requires 0 <= i < |sink| reads this => sink[i].0))
    }

    ghost predicate Valid()
      reads this
    {
      && (activeCount > 0 <==> busySince.Some?)
      && forall i :: 0 <= i < |sink| ==> sink[i].1 == watts
    }

    constructor (watts: real)
      ensures this.watts == watts && Valid() && View() == IDLE
    {
      this.watts := watts;
      activeCount, busySince, sink := 0, None, [];
    }

    method BeginGuard(now: nat)
      requires Valid()
      modifies this
      ensures Valid() && View() == Begin(old(View()), now)
    {
      if activeCount == 0 {
        busySince := Some(now);
      }
      activeCount := activeCount + 1;
    }

    method DropGuard(now: nat)
      requires Valid() && activeCount > 0 && busySince.value <= now
      modifies this
      ensures Valid() && View() == Drop(old(View()), watts, now)
    {
      activeCount := activeCount - 1;
      if activeCount == 0 {
        var since := busySince.value;
        busySince := None;
        if watts > 0.0 {
          sink := sink + [(now - since, watts)];
        }
      }
    }
  }

  // ------------------------------------------------------------------ traces

  datatype Event = Began(guard: nat, at: nat) | Dropped(guard: nat, at: nat)

  /** Guards alive after the trace. */
  ghost function Alive(trace: seq<Event>): set<nat> {
    if trace == [] then {}
    else
      var before := Alive(trace[..|trace| - 1]);
      match trace[|trace| - 1]
      case Began(g, _) => before + {g}
      case Dropped(g, _) => before - {g}
  }

  ghost function Horizon(trace: seq<Event>): nat {
    if trace == [] then 0 else trace[|trace| - 1].at
  }

  /** Guards begin once, drop once after they began, and time does not run backwards. */
  ghost predicate Legal(trace: seq<Event>) {
    trace == [] ||
    var before, e := trace[..|trace| - 1], trace[|trace| - 1];
    && Legal(before)
    && Horizon(before) <= e.at
    && (e.Began? ==> forall i :: 0 <= i < |before| ==> before[i].guard != e.guard)
    && (e.Dropped? ==> e.guard in Alive(before))
  }

  /** The meter after the trace. */
  ghost function Run(trace: seq<Event>, watts: real): (m: Meter)
    requires Legal(trace)
    ensures m.active == |Alive(trace)|
    ensures m.busySince.Some? <==> m.active > 0
    ensures m.busySince.Some? ==> m.busySince.value <= Horizon(trace)
  {
    if trace == [] then IDLE
    else
      var before, e := trace[..|trace| - 1], trace[|trace| - 1];
      AliveBegan(before);
      var m := Run(before, watts);
      if e.Began? then Begin(m, e.at)
      else
        assert |Alive(before)| > 0;
        Drop(m, watts, e.at)
  }

  lemma {:induction false} AliveBegan(trace: seq<Event>)
    ensures forall g :: g in Alive(trace) ==> exists i :: 0 <= i < |trace| && trace[i].guard == g
  {
    if trace != [] {
      var n := |trace| - 1;
      AliveBegan(trace[..n]);
      forall g | g in Alive(trace)
        ensures exists i :: 0 <= i < |trace| && trace[i].guard == g
      {
        if g in Alive(trace[..n]) {
          var i :| 0 <= i < n && trace[..n][i].guard == g;
          assert trace[i].guard == g;
        } else {
          assert trace[n].guard == g;
        }
      }
    }
  }

  /** A trace with one more guard. */
  lemma TraceBegan(trace: seq<Event>, g: nat, at: nat, watts: real)
    requires Legal(trace) && Horizon(trace) <= at
    requires forall i :: 0 <= i < |trace| ==> trace[i].guard != g
    ensures var grown := trace + [Began(g, at)];
            && Legal(grown) && Horizon(grown) == at
            && Alive(grown) == Alive(trace) + {g}
            && Run(grown, watts) == Begin(Run(trace, watts), at)
  {
    var grown := trace + [Began(g, at)];
    assert grown[..|grown| - 1] == trace && grown[|grown| - 1] == Began(g, at);
  }

  /** A trace with one guard fewer. */
  lemma TraceDropped(trace: seq<Event>, g: nat, at: nat, watts: real)
    requires Legal(trace) && Horizon(trace) <= at && g in Alive(trace)
    ensures var m := Run(trace, watts); m.active > 0 && m.busySince.Some? && m.busySince.value <= at
    ensures var grown := trace + [Dropped(g, at)];
            && Legal(grown) && Horizon(grown) == at
            && Alive(grown) == Alive(trace) - {g}
            && Run(grown, watts) == Drop(Run(trace, watts), watts, at)
  {
    var grown := trace + [Dropped(g, at)];
    assert grown[..|grown| - 1] == trace && grown[|grown| - 1] == Dropped(g, at);
    assert |Alive(trace)| > 0;
  }

  // ------------------------------------------------- the union of lifetimes

  /** Instant `t` falls in the life of the guard begun at position `i`. */
  ghost predicate Spans(trace: seq<Event>, i: nat, t: nat)
    requires i < |trace|
  {
    && trace[i].Began?
    && trace[i].at <= t
    && forall j :: i < j < |trace| && trace[j] == Dropped(trace[i].guard, trace[j].at) ==> t < trace[j].at
  }

  ghost predicate Busy(trace: seq<Event>, t: nat) {
    exists i :: 0 <= i < |trace| && Spans(trace, i, t)
  }

  /** The union of all guard lifetimes, up to the last event. */
  ghost function Union(trace: seq<Event>): set<nat> {
    set t | 0 <= t < Horizon(trace) && Busy(trace, t)
  }

  /** Between two events the union holds everything or nothing, as some guard is alive or none is. */
  lemma {:induction false} BusyBetween(trace: seq<Event>, t: nat)
    requires Legal(trace) && t >= Horizon(trace)
    ensures Busy(trace, t) <==> Alive(trace) != {}
  {
    if trace != [] {
      LastTime(trace);
    }
    if Busy(trace, t) {
      var i :| 0 <= i < |trace| && Spans(trace, i, t);
      assert forall j :: i < j < |trace| ==> trace[j] != Dropped(trace[i].guard, trace[j].at);
      StaysAlive(trace, i);
    }
    if Alive(trace) != {} {
      var g :| g in Alive(trace);
      var i := BeganAt(trace, g);
      assert Spans(trace, i, t);
    }
  }

  lemma {:induction false} LastTime(trace: seq<Event>)
    requires Legal(trace)
    ensures forall i :: 0 <= i < |trace| ==> trace[i].at <= Horizon(trace)
  {
    if trace != [] {
      LastTime(trace[..|trace| - 1]);
    }
  }

  lemma {:induction false} StaysAlive(trace: seq<Event>, i: nat)
    requires Legal(trace) && i < |trace| && trace[i].Began?
    requires forall j :: i < j < |trace| ==> trace[j] != Dropped(trace[i].guard, trace[j].at)
    ensures trace[i].guard in Alive(trace)
  {
    var n := |trace| - 1;
    if i < n {
      StaysAlive(trace[..n], i);
      assert trace[n] != Dropped(trace[i].guard, trace[n].at);
    }
  }

  lemma {:induction false} BeganAt(trace: seq<Event>, g: nat) returns (i: nat)
    requires Legal(trace) && g in Alive(trace)
    ensures i < |trace| && trace[i].Began? && trace[i].guard == g
    ensures forall j :: i < j < |trace| ==> trace[j].guard != g
  {
    var n := |trace| - 1;
    if trace[n].Began? && trace[n].guard == g {
      i := n;
    } else {
      i := BeganAt(trace[..n], g);
      assert trace[n].guard != g;
    }
  }

  /** The last event does not change what was busy before it. */
  lemma BusyLast(trace: seq<Event>, t: nat)
    requires trace != [] && Legal(trace) && t < Horizon(trace)
    ensures Busy(trace, t) <==> Busy(trace[..|trace| - 1], t)
  {
    var n := |trace| - 1;
    var before := trace[..n];
    if Busy(trace, t) {
      var i :| 0 <= i < |trace| && Spans(trace, i, t);
      assert i < n;
      assert Spans(before, i, t);
    }
    if Busy(before, t) {
      var i :| 0 <= i < |before| && Spans(before, i, t);
      assert Spans(trace, i, t);
    }
  }

  /** The instants from `lo` up to `hi`, of which there are `hi - lo`. */
  ghost function Ticks(lo: nat, hi: nat): (s: set<nat>)
    requires lo <= hi
    ensures |s| == hi - lo
    ensures forall t :: t in s <==> lo <= t < hi
    decreases hi
  {
    if lo == hi then {} else Ticks(lo, hi - 1) + {hi - 1}
  }

  /** How much one more event adds to the union. */
  lemma UnionGrows(trace: seq<Event>)
    requires trace != [] && Legal(trace)
    ensures var before := trace[..|trace| - 1];
            |Union(trace)| == |Union(before)|
              + if Alive(before) != {} then Horizon(trace) - Horizon(before) else 0
  {
    var before := trace[..|trace| - 1];
    var lo, hi := Horizon(before), Horizon(trace);
    var added: set<nat> := if Alive(before) != {} then Ticks(lo, hi) else {};
    forall t: nat
      ensures t in Union(trace) <==> t in Union(before) || t in added
    {
      if t < hi {
        BusyLast(trace, t);
        if t >= lo {
          BusyBetween(before, t);
        }
      }
    }
    assert Union(trace) == Union(before) + added;
  }

  function Elapsed(ts: seq<nat>): nat {
    if ts == [] then 0 else Elapsed(ts[..|ts| - 1]) + ts[|ts| - 1]
  }

  /** At every moment the records emitted so far plus the running interval measure the union. */
  lemma {:induction false} EnergyIsUnion(trace: seq<Event>, watts: real)
    requires Legal(trace) && watts > 0.0
    ensures var m := Run(trace, watts);
            Elapsed(m.emitted) + (if m.active > 0 then Horizon(trace) - m.busySince.value else 0)
              == |Union(trace)|
  {
    if trace == [] {
      assert Union(trace) == {};
    } else {
      var before := trace[..|trace| - 1];
      EnergyIsUnion(before, watts);
      UnionGrows(trace);
      var m := Run(before, watts);
      assert m.active == 0 <==> Alive(before) == {};
    }
  }

  /** Once every guard is gone, the emitted times add up to the measure of the union. */
  lemma EnergyWhenIdle(trace: seq<Event>, watts: real)
    requires Legal(trace) && Alive(trace) == {} && watts > 0.0
    ensures Elapsed(Run(trace, watts).emitted) == |Union(trace)|
  {
    EnergyIsUnion(trace, watts);
  }

  // --------------------------------------------------------- busy stretches

  /** `idle[k]` says that no guard is alive before event `k`. */
  ghost function IdleBefore(trace: seq<Event>): (idle: seq<bool>)
    ensures |idle| == |trace| + 1
  {
    seq(|trace| + 1, k requires 0 <= k <= |trace| => Alive(trace[..k]) == {})
  }

  /** Events `i` to `j` lead from idle to idle with some guard alive all the way between. */
  ghost predicate Stretch(idle: seq<bool>, i: nat, j: nat) {
    && i < j < |idle| - 1
    && idle[i]
    && idle[j + 1]
    && forall k :: i < k <= j ==> !idle[k]
  }

  /** The records are, in order, the lengths of all the stretches that end before event `n`. */
  ghost predicate RecordsMatch(idle: seq<bool>, trace: seq<Event>, n: nat, emitted: seq<nat>,
                               stretches: seq<(nat, nat)>)
    requires |idle| == |trace| + 1
  {
    && |stretches| == |emitted|
    && (forall k :: 0 <= k < |stretches| ==>
          && Stretch(idle, stretches[k].0, stretches[k].1)
          && stretches[k].1 < n
          && emitted[k] == trace[stretches[k].1].at - trace[stretches[k].0].at)
    && (forall k :: 0 <= k < |stretches| - 1 ==> stretches[k].1 < stretches[k + 1].0)
    && (forall i: nat, j: nat :: j < n && Stretch(idle, i, j) ==> (i, j) in stretches)
  }

  /** What event `n` does to the meter, in terms of who is alive around it. */
  ghost predicate MeterStep(idle: seq<bool>, at: nat, n: nat, before: Meter, after: Meter)
    requires n < |idle| - 1
  {
    if idle[n + 1] then
      && !idle[n]
      && before.busySince.Some?
      && before.busySince.value <= at
      && after.emitted == before.emitted + [at - before.busySince.value]
    else
      && after.emitted == before.emitted
      && after.busySince == if idle[n] then Some(at) else before.busySince
  }

  lemma StepOfRun(trace: seq<Event>, n: nat, watts: real)
    requires n < |trace| && Legal(trace[..n]) && Legal(trace[..n + 1]) && watts > 0.0
    ensures MeterStep(IdleBefore(trace), trace[n].at, n, Run(trace[..n], watts), Run(trace[..n + 1], watts))
  {
    assert trace[..n + 1][..n] == trace[..n];
  }

  lemma {:induction false} LegalPrefix(trace: seq<Event>, n: nat)
    requires Legal(trace) && n <= |trace|
    ensures Legal(trace[..n])
  {
    if n < |trace| {
      LegalPrefix(trace[..|trace| - 1], n);
      assert trace[..|trace| - 1][..n] == trace[..n];
    } else {
      assert trace[..n] == trace;
    }
  }

  /** Walks the meter through the trace, collecting a stretch whenever it falls idle. */
  lemma {:induction false} CollectStretches(idle: seq<bool>, trace: seq<Event>, ms: seq<Meter>, n: nat)
    returns (stretches: seq<(nat, nat)>, start: nat)
    requires n < |idle| == |trace| + 1 == |ms|
    requires idle[0] && ms[0].emitted == []
    requires forall k :: 0 <= k < |trace| ==> MeterStep(idle, trace[k].at, k, ms[k], ms[k + 1])
    ensures RecordsMatch(idle, trace, n, ms[n].emitted, stretches)
    ensures !idle[n] ==>
              && start < n
              && idle[start]
              && (forall k :: start < k <= n ==> !idle[k])
              && ms[n].busySince == Some(trace[start].at)
  {
    if n == 0 {
      stretches, start := [], 0;
    } else {
      stretches, start := CollectStretches(idle, trace, ms, n - 1);
      assert MeterStep(idle, trace[n - 1].at, n - 1, ms[n - 1], ms[n]);
      if idle[n] {
        assert Stretch(idle, start, n - 1);
        stretches := stretches + [(start, n - 1)];
      } else if idle[n - 1] {
        start := n - 1;
      }
    }
  }

  /** One record per busy stretch: the records are exactly the lengths of the stretches, in order. */
  lemma OneRecordPerStretch(trace: seq<Event>, watts: real) returns (stretches: seq<(nat, nat)>)
    requires Legal(trace) && watts > 0.0
    ensures RecordsMatch(IdleBefore(trace), trace, |trace|, Run(trace, watts).emitted, stretches)
  {
    forall k | 0 <= k <= |trace| ensures Legal(trace[..k]) {
      LegalPrefix(trace, k);
    }
    var ms := seq(|trace| + 1, k requires 0 <= k <= |trace| => Run(trace[..k], watts));
    forall k | 0 <= k < |trace|
      ensures MeterStep(IdleBefore(trace), trace[k].at, k, ms[k], ms[k + 1])
    {
      StepOfRun(trace, k, watts);
    }
    assert trace[..|trace|] == trace;
    var start;
    stretches, start := CollectStretches(IdleBefore(trace), trace, ms, |trace|);
  }

  /** A meter configured with zero watts never reports anything. */
  lemma {:induction false} ZeroWattsIsSilent(trace: seq<Event>, watts: real)
    requires Legal(trace) && watts <= 0.0
    ensures Run(trace, watts).emitted == []
  {
    if trace != [] {
      ZeroWattsIsSilent(trace[..|trace| - 1], watts);
    }
  }
}
