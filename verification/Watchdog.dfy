/**
  The model watchdog's poll loop (crates/twl-server/src/watchdog.rs), which skips
  the catalog update when a poll reports the ids it reported last time.
*/
module Watchdog {
  import opened Common
  import opened Json
  import opened Catalog
  import opened CatalogRuns
  import opened Registry

  /** One poll: the reported entries, or nothing when the backend cannot be reached. */
  type Poll = Option<Entries>

  function IdList(es: Entries): seq<string> {
    seq(|es|, i requires 0 <= i < |es| => es[i].id)
  }

  /** What a poll says the backend serves; an outage says nothing. */
  function Reported(poll: Poll): Entries {
    if poll.Some? then poll.value else []
  }

  predicate Skips(lastIds: Option<seq<string>>, poll: Poll) {
    lastIds == Some(IdList(Reported(poll)))
  }

  /** The backend's entries and the remembered ids after the polls, with skipping. */
  function Watched(rules: Rules, initial: Entries, polls: seq<Poll>): (Entries, Option<seq<string>>) {
    if polls == [] then (initial, None)
    else
      var (entries, lastIds) := Watched(rules, initial, polls[..|polls| - 1]);
      var poll := polls[|polls| - 1];
      if Skips(lastIds, poll) then (entries, lastIds)
      else (Advertised(rules, Reported(poll)), Some(IdList(Reported(poll))))
  }

  /** The reference loop: update on every poll. */
  function Unskipped(rules: Rules, initial: Entries, polls: seq<Poll>): Entries {
    if polls == [] then initial else Advertised(rules, Reported(polls[|polls| - 1]))
  }

  class Watcher {
    const registry: BackendRegistry
    const idx: nat
    var lastIds: Option<seq<string>>

    constructor (registry: BackendRegistry, idx: nat)
      ensures this.registry == registry && this.idx == idx && lastIds == None
    {
      this.registry, this.idx, lastIds := registry, idx, None;
    }

    /** One turn of the loop. */
    method Turn(poll: Poll)
      requires registry.Valid() && idx < |registry.rules|
      modifies this, registry`catalog, registry`version
      ensures registry.Valid()
      ensures lastIds == Some(IdList(Reported(poll)))
      ensures Skips(old(lastIds), poll) ==>
                registry.catalog == old(registry.catalog) && registry.version == old(registry.version)
      ensures !Skips(old(lastIds), poll) ==>
                registry.catalog == Install(old(registry.catalog),
                  Update(idx, Advertised(registry.rules[idx], Reported(poll))), registry.version)
    {
      match poll
      case Some(entries) =>
        var ids := IdList(entries);
        if lastIds != Some(ids) {
          registry.SetBackendModels(idx, entries);
          lastIds := Some(ids);
        }
      case None =>
        assert IdList([]) == [];
        if !(lastIds.Some? && lastIds.value == []) {
          registry.SetBackendModels(idx, []);
          lastIds := Some([]);
        }
    }

    /** Any number of polls. */
    method Loop(polls: seq<Poll>)
      requires registry.Valid() && idx < |registry.rules| && lastIds == None
      modifies this, registry`catalog, registry`version
      ensures registry.Valid()
      ensures (registry.catalog.entries[idx], lastIds)
           == Watched(registry.rules[idx], old(registry.catalog).entries[idx], polls)
      ensures forall b :: 0 <= b < |registry.rules| && b != idx ==>
                registry.catalog.entries[b] == old(registry.catalog).entries[b]
    {
      for i := 0 to |polls|
        invariant registry.Valid()
        invariant (registry.catalog.entries[idx], lastIds)
               == Watched(registry.rules[idx], old(registry.catalog).entries[idx], polls[..i])
        invariant forall b :: 0 <= b < |registry.rules| && b != idx ==>
                    registry.catalog.entries[b] == old(registry.catalog).entries[b]
      {
        assert polls[..i + 1][..i] == polls[..i];
        Turn(polls[i]);
      }
      assert polls[..|polls|] == polls;
    }
  }

  // --------------------------------------------------------------- refinement

  lemma {:induction false} SameIdsSelect(rules: Rules, a: Entries, b: Entries)
    requires IdList(a) == IdList(b)
    ensures IdList(Select(rules, a)) == IdList(Select(rules, b))
  {
    assert |a| == |IdList(a)| == |b|;
    if a != [] {
      var n := |a| - 1;
      assert IdList(a)[n] == a[n].id && IdList(b)[n] == b[n].id;
      assert IdList(a[..n]) == IdList(a)[..n] && IdList(b[..n]) == IdList(b)[..n];
      SameIdsSelect(rules, a[..n], b[..n]);
      IdListAppend(Select(rules, a[..n]), Override(rules, a[n]));
      IdListAppend(Select(rules, b[..n]), Override(rules, b[n]));
    }
  }

  lemma IdListAppend(es: Entries, e: Entry)
    ensures IdList(es + [e]) == IdList(es) + [e.id]
  {
  }

  lemma SameIdsSet(a: Entries, b: Entries)
    requires IdList(a) == IdList(b)
    ensures Ids(a) == Ids(b)
  {
    assert |a| == |IdList(a)| == |b|;
    assert forall i :: 0 <= i < |a| ==> a[i].id == IdList(a)[i] == b[i].id;
    forall id ensures id in Ids(a) <==> id in Ids(b) {
      if id in Ids(a) {
        var i :| 0 <= i < |a| && a[i].id == id;
        assert b[i] in b;
      }
      if id in Ids(b) {
        var i :| 0 <= i < |b| && b[i].id == id;
        assert a[i] in a;
      }
    }
  }

  lemma {:induction false} SameIdsDedup(a: Entries, b: Entries)
    requires IdList(a) == IdList(b)
    ensures IdList(Dedup(a)) == IdList(Dedup(b))
  {
    assert |a| == |IdList(a)| == |b|;
    if a != [] {
      var n := |a| - 1;
      assert IdList(a)[n] == a[n].id && IdList(b)[n] == b[n].id;
      assert IdList(a[..n]) == IdList(a)[..n] && IdList(b[..n]) == IdList(b)[..n];
      SameIdsDedup(a[..n], b[..n]);
      SameIdsSet(a[..n], b[..n]);
      IdListAppend(Dedup(a[..n]), a[n]);
      IdListAppend(Dedup(b[..n]), b[n]);
    }
  }

  lemma SameIdsAdvertised(rules: Rules, a: Entries, b: Entries)
    requires IdList(a) == IdList(b)
    ensures IdList(Advertised(rules, a)) == IdList(Advertised(rules, b))
  {
    SameIdsSelect(rules, a, b);
    SameIdsDedup(Select(rules, a), Select(rules, b));
  }

  lemma {:induction false} RemembersLast(rules: Rules, initial: Entries, polls: seq<Poll>)
    ensures Watched(rules, initial, polls).1
         == if polls == [] then None else Some(IdList(Reported(polls[|polls| - 1])))
  {
    if polls != [] {
      RemembersLast(rules, initial, polls[..|polls| - 1]);
    }
  }

  /** Polls `j` to the end all report the same ids, and poll `j - 1` did not. */
  ghost predicate RunStart(polls: seq<Poll>, j: nat) {
    && j < |polls|
    && (forall i :: j <= i < |polls| ==> IdList(Reported(polls[i])) == IdList(Reported(polls[j])))
    && (j > 0 ==> IdList(Reported(polls[j - 1])) != IdList(Reported(polls[j])))
  }

  /** Exactly what skipping leaves: the entries of the first poll of the current run of equal id lists. */
  lemma {:induction false} WatchedIsRunStart(rules: Rules, initial: Entries, polls: seq<Poll>) returns (j: nat)
    requires polls != []
    ensures RunStart(polls, j)
    ensures Watched(rules, initial, polls).0 == Advertised(rules, Reported(polls[j]))
  {
    var n := |polls| - 1;
    RemembersLast(rules, initial, polls[..n]);
    if n > 0 && IdList(Reported(polls[n - 1])) == IdList(Reported(polls[n])) {
      j := WatchedIsRunStart(rules, initial, polls[..n]);
      assert polls[..n][n - 1] == polls[n - 1];
      assert forall i :: 0 <= i < n ==> polls[..n][i] == polls[i];
    } else {
      j := n;
    }
  }

  /**
    Poll skipping is invisible to routing: after every poll the loop that skips
    advertises the same ids, in the same order, as the loop that never skips.
  */
  lemma SkippingRefines(rules: Rules, initial: Entries, polls: seq<Poll>)
    ensures IdList(Watched(rules, initial, polls).0) == IdList(Unskipped(rules, initial, polls))
    ensures Ids(Watched(rules, initial, polls).0) == Ids(Unskipped(rules, initial, polls))
  {
    if polls != [] {
      var j := WatchedIsRunStart(rules, initial, polls);
      SameIdsAdvertised(rules, Reported(polls[j]), Reported(polls[|polls| - 1]));
    }
    SameIdsSet(Watched(rules, initial, polls).0, Unskipped(rules, initial, polls));
  }

  /** After `n` polls the skipping loop advertises the very entries the reference does. */
  ghost predicate FreshAfter(rules: Rules, initial: Entries, polls: seq<Poll>, n: nat)
    requires n <= |polls|
  {
    Watched(rules, initial, polls[..n]).0 == Unskipped(rules, initial, polls[..n])
  }

  ghost predicate AlwaysFresh(rules: Rules, initial: Entries, polls: seq<Poll>) {
    forall n: nat :: n <= |polls| ==> FreshAfter(rules, initial, polls, n)
  }

  /** A poll that repeats the ids of the one before also repeats what is advertised beside them. */
  ghost predicate Repeats(rules: Rules, before: Poll, poll: Poll) {
    IdList(Reported(before)) == IdList(Reported(poll)) ==>
      Advertised(rules, Reported(before)) == Advertised(rules, Reported(poll))
  }

  ghost predicate AllRepeat(rules: Rules, polls: seq<Poll>) {
    forall i :: 0 < i < |polls| ==> Repeats(rules, polls[i - 1], polls[i])
  }

  /** One more poll on a loop that is fresh so far: it stays so unless it skips a change. */
  lemma FreshNext(rules: Rules, initial: Entries, polls: seq<Poll>, n: nat)
    requires n < |polls| && FreshAfter(rules, initial, polls, n)
    ensures FreshAfter(rules, initial, polls, n + 1) <==> (n > 0 ==> Repeats(rules, polls[n - 1], polls[n]))
  {
    RemembersLast(rules, initial, polls[..n]);
    assert polls[..n + 1][..n] == polls[..n];
  }

  lemma {:induction false} FreshWhile(rules: Rules, initial: Entries, polls: seq<Poll>, n: nat)
    requires n <= |polls| && AllRepeat(rules, polls)
    ensures FreshAfter(rules, initial, polls, n)
  {
    if n > 0 {
      FreshWhile(rules, initial, polls, n - 1);
      FreshNext(rules, initial, polls, n - 1);
    }
  }

  /**
    Exactly when the metadata beside the ids is fresh: after every poll the
    skipping loop advertises the same entries as the loop that never skips, if
    and only if polls that repeat the ids repeat the rest as well.
  */
  lemma MetadataFreshExactly(rules: Rules, initial: Entries, polls: seq<Poll>)
    ensures AlwaysFresh(rules, initial, polls) <==> AllRepeat(rules, polls)
  {
    if AllRepeat(rules, polls) {
      forall n: nat | n <= |polls| ensures FreshAfter(rules, initial, polls, n) {
        FreshWhile(rules, initial, polls, n);
      }
    }
    if AlwaysFresh(rules, initial, polls) {
      forall i | 0 < i < |polls| ensures Repeats(rules, polls[i - 1], polls[i]) {
        assert FreshAfter(rules, initial, polls, i + 1);
        FreshNext(rules, initial, polls, i);
      }
    }
  }

  /** A polled model as the provider normalizes it, with the context length the backend reports. */
  function PolledEntry(id: string, owner: string, contextLength: int): Entry {
    Entry(id, Object([
      Field("context_length", Number(contextLength)),
      Field("id", String(id)), Field("object", String("model")), Field("owned_by", String(owner))]))
  }

  /**
    The condition can fail: a backend restarted with another context length
    between two polls keeps being listed with the old one.
  */
  lemma MetadataGoesStale(initial: Entries, id: string, owner: string, was: int, now: int)
    requires was != now
    ensures var rules := Rules(None, map[]);
            var polls: seq<Poll> := [Some([PolledEntry(id, owner, was)]), Some([PolledEntry(id, owner, now)])];
            && Watched(rules, initial, polls).0 == [PolledEntry(id, owner, was)]
            && Unskipped(rules, initial, polls) == [PolledEntry(id, owner, now)]
            && !AlwaysFresh(rules, initial, polls)
  {
    var rules := Rules(None, map[]);
    var a, b := PolledEntry(id, owner, was), PolledEntry(id, owner, now);
    assert IdList([a]) == [id] == IdList([b]);
    TwoPolls(rules, initial, Some([a]), Some([b]));
    OneEntry(rules, a);
    OneEntry(rules, b);
    assert a.raw.fields[0] != b.raw.fields[0];
    var polls: seq<Poll> := [Some([a]), Some([b])];
    assert polls[..2] == polls;
    assert !FreshAfter(rules, initial, polls, 2);
  }

  /** Of two polls with the same ids the second is skipped. */
  lemma TwoPolls(rules: Rules, initial: Entries, first: Poll, second: Poll)
    requires IdList(Reported(first)) == IdList(Reported(second))
    ensures Watched(rules, initial, [first, second]).0 == Advertised(rules, Reported(first))
    ensures Unskipped(rules, initial, [first, second]) == Advertised(rules, Reported(second))
  {
    assert [first, second][..1] == [first] && [first][..0] == [];
    assert Watched(rules, initial, [first])
        == (Advertised(rules, Reported(first)), Some(IdList(Reported(first))));
  }

  lemma OneEntry(rules: Rules, e: Entry)
    requires rules == Rules(None, map[])
    ensures Advertised(rules, [e]) == [e]
  {
    var none: Entries := [];
    assert [e][..0] == none && Select(rules, none) == none && Dedup(none) == none;
    assert Ids(none) == {};
    assert Select(rules, [e]) == none + [e] == [e];
    assert Dedup([e]) == none + [e];
  }
}
