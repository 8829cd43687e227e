/**
  The model catalog and the routing index derived from it
  (crates/twl-backends/src/lib.rs).
*/
module Catalog {
  import opened Common
  import opened Json

  datatype Entry = Entry(id: string, raw: Json)
  type Entries = seq<Entry>

  /** Identity of a shared round-robin counter: the model, and the catalog version that created it. */
  datatype Cursor = Cursor(model: string, born: nat)

  datatype RoutingEntry = RoutingEntry(candidates: seq<nat>, rotation: Cursor)
  type Routing = map<string, RoutingEntry>

  datatype Catalog = Catalog(entries: seq<Entries>, routing: Routing)

  /** What a backend's configuration says about its models. */
  datatype Rules = Rules(filter: Option<set<string>>, types: map<string, string>)

  // ----------------------------------------------------------------- entries

  predicate Allowed(filter: Option<set<string>>, id: string) {
    filter.None? || id in filter.value
  }

  function Override(rules: Rules, e: Entry): Entry {
    if e.id in rules.types && e.raw.Object?
    then e.(raw := Object(SetField(e.raw.fields, "type", String(rules.types[e.id]))))
    else e
  }

  /** A configured type wins over the reported one; everything else the backend reported stays. */
  lemma OverrideExact(rules: Rules, e: Entry, key: string)
    requires e.raw.Object?
    ensures Override(rules, e).id == e.id
    ensures Get(Override(rules, e).raw, key)
         == if key == "type" && e.id in rules.types then Some(String(rules.types[e.id])) else Get(e.raw, key)
  {
    if e.id in rules.types {
      LookupSet(e.raw.fields, "type", String(rules.types[e.id]), key);
    }
  }

  function Select(rules: Rules, es: Entries): Entries {
    if es == [] then []
    else
      var rest, e := Select(rules, es[..|es| - 1]), es[|es| - 1];
      if Allowed(rules.filter, e.id) then rest + [Override(rules, e)] else rest
  }

  function Ids(es: Entries): (ids: set<string>) {
    set e | e in es :: e.id
  }

  /** First entry per id, in order. */
  function Dedup(es: Entries): Entries {
    if es == [] then []
    else
      var rest, e := es[..|es| - 1], es[|es| - 1];
      if e.id in Ids(rest) then Dedup(rest) else Dedup(rest) + [e]
  }

  /** A backend's advertised entries: filtered, overridden, deduplicated. */
  function Advertised(rules: Rules, es: Entries): Entries {
    Dedup(Select(rules, es))
  }

  lemma {:induction false} DedupIds(es: Entries)
    ensures Ids(Dedup(es)) == Ids(es)
    ensures forall i, j :: 0 <= i < j < |Dedup(es)| ==> Dedup(es)[i].id != Dedup(es)[j].id
  {
    if es != [] {
      var rest, e := es[..|es| - 1], es[|es| - 1];
      assert es == rest + [e];
      DedupIds(rest);
      assert Ids(es) == Ids(rest) + {e.id};
      if e.id !in Ids(rest) {
        assert Ids(Dedup(es)) == Ids(Dedup(rest)) + {e.id} by {
          assert forall x :: x in Dedup(rest) ==> x in Dedup(es);
          assert e in Dedup(es);
        }
        forall i | 0 <= i < |Dedup(rest)|
          ensures Dedup(rest)[i].id != e.id
        {
          assert Dedup(rest)[i] in Dedup(rest);
        }
      }
    }
  }

  lemma IdsSnoc(es: Entries, e: Entry)
    ensures Ids(es + [e]) == Ids(es) + {e.id}
  {
    assert forall x :: x in es ==> x in es + [e];
    assert e in es + [e];
  }

  lemma DedupSnoc(es: Entries, e: Entry)
    ensures Dedup(es + [e]) == if e.id in Ids(es) then Dedup(es) else Dedup(es) + [e]
    ensures Ids(es + [e]) == Ids(es) + {e.id}
  {
    assert (es + [e])[..|es|] == es;
    IdsSnoc(es, e);
  }

  /** Only the ids on the list are selected, where there is a list. */
  lemma {:induction false} SelectIds(rules: Rules, es: Entries)
    ensures forall id :: id in Ids(Select(rules, es)) <==>
              id in Ids(es) && (rules.filter.Some? ==> id in rules.filter.value)
  {
    if es != [] {
      var rest, e := es[..|es| - 1], es[|es| - 1];
      assert es == rest + [e];
      SelectIds(rules, rest);
      IdsSnoc(rest, e);
      if Allowed(rules.filter, e.id) {
        IdsSnoc(Select(rules, rest), Override(rules, e));
      }
    }
  }

  /** A backend advertises exactly the ids it reported that are on its list, each once. */
  lemma AdvertisedIds(rules: Rules, es: Entries)
    ensures forall id :: id in Ids(Advertised(rules, es)) <==>
              id in Ids(es) && (rules.filter.Some? ==> id in rules.filter.value)
    ensures forall i, j :: 0 <= i < j < |Advertised(rules, es)| ==>
              Advertised(rules, es)[i].id != Advertised(rules, es)[j].id
  {
    SelectIds(rules, es);
    DedupIds(Select(rules, es));
  }

  /** Report `i` is the first with its id, and the configuration lets that id through. */
  ghost predicate Chosen(rules: Rules, es: Entries, i: nat)
    requires i < |es|
  {
    && (rules.filter.Some? ==> es[i].id in rules.filter.value)
    && forall k :: 0 <= k < i ==> es[k].id != es[i].id
  }

  lemma ChosenLast(rules: Rules, es: Entries, e: Entry)
    ensures Chosen(rules, es + [e], |es|) <==> Allowed(rules.filter, e.id) && e.id !in Ids(es)
  {
    if e.id in Ids(es) {
      var x :| x in es && x.id == e.id;
      var k :| 0 <= k < |es| && es[k] == x;
      assert (es + [e])[k].id == e.id;
    } else {
      assert forall k :: 0 <= k < |es| ==> (es + [e])[k] in es;
    }
  }

  lemma ChosenBefore(rules: Rules, es: Entries, e: Entry, i: nat)
    requires i < |es|
    ensures Chosen(rules, es + [e], i) <==> Chosen(rules, es, i)
  {
    assert forall k :: 0 <= k <= i ==> (es + [e])[k] == es[k];
  }

  lemma AdvertisedSnoc(rules: Rules, es: Entries, e: Entry)
    ensures Advertised(rules, es + [e])
         == if Allowed(rules.filter, e.id) && e.id !in Ids(es) then Advertised(rules, es) + [Override(rules, e)]
            else Advertised(rules, es)
  {
    assert (es + [e])[..|es|] == es;
    SelectIds(rules, es);
    if Allowed(rules.filter, e.id) {
      DedupSnoc(Select(rules, es), Override(rules, e));
    }
  }

  /** The positions `at` of the reports that `kept` takes over, with the configured type. */
  ghost predicate TakenFrom(rules: Rules, es: Entries, at: seq<nat>, kept: Entries) {
    && |at| == |kept|
    && (forall j :: 0 <= j < |at| ==> at[j] < |es| && kept[j] == Override(rules, es[at[j]]))
    && forall j, k :: 0 <= j < k < |at| ==> at[j] < at[k]
  }

  lemma TakenSnoc(rules: Rules, es: Entries, e: Entry, at: seq<nat>, kept: Entries)
    requires TakenFrom(rules, es, at, kept)
    ensures TakenFrom(rules, es + [e], at, kept)
    ensures TakenFrom(rules, es + [e], at + [|es|], kept + [Override(rules, e)])
  {
  }

  /**
    Which reports a backend advertises, at which place: the first with each id that
    is let through, in the order they came, with the configured type.
  */
  lemma {:induction false} AdvertisedExact(rules: Rules, es: Entries) returns (at: seq<nat>)
    ensures TakenFrom(rules, es, at, Advertised(rules, es))
    ensures forall i :: 0 <= i < |es| ==> (i in at <==> Chosen(rules, es, i))
  {
    at := [];
    if es != [] {
      var rest, e := es[..|es| - 1], es[|es| - 1];
      var before := AdvertisedExact(rules, rest);
      assert es == rest + [e];
      ChosenLast(rules, rest, e);
      AdvertisedSnoc(rules, rest, e);
      TakenSnoc(rules, rest, e, before, Advertised(rules, rest));
      at := if Chosen(rules, es, |rest|) then before + [|rest|] else before;
      forall i | 0 <= i < |rest| ensures i in before <==> Chosen(rules, es, i) {
        ChosenBefore(rules, rest, e, i);
      }
    }
  }

  /** The loop over the entries with its set of ids already seen. */
  method Deduplicate(entries: Entries) returns (kept: Entries)
    ensures kept == Dedup(entries)
  {
    var seen: set<string> := {};
    kept := [];
    for i := 0 to |entries|
      invariant seen == Ids(entries[..i]) && kept == Dedup(entries[..i])
    {
      assert entries[..i + 1] == entries[..i] + [entries[i]];
      if entries[i].id !in seen {
        kept := kept + [entries[i]];
      }
      seen := seen + {entries[i].id};
    }
    assert entries[..|entries|] == entries;
  }

  // ----------------------------------------------------------------- routing

  /** The backends that list `model`, in index order. */
  function Candidates(entries: seq<Entries>, model: string): seq<nat> {
    if entries == [] then []
    else
      var n := |entries| - 1;
      var rest := Candidates(entries[..n], model);
      if model in Ids(entries[n]) then rest + [n] else rest
  }

  lemma {:induction false} CandidatesExact(entries: seq<Entries>, model: string)
    ensures forall b :: b in Candidates(entries, model) <==> 0 <= b < |entries| && model in Ids(entries[b])
    ensures forall i, j :: 0 <= i < j < |Candidates(entries, model)| ==>
              Candidates(entries, model)[i] < Candidates(entries, model)[j]
  {
    if entries != [] {
      var n := |entries| - 1;
      CandidatesExact(entries[..n], model);
      var rest := Candidates(entries[..n], model);
      assert forall i :: 0 <= i < |rest| ==> rest[i] in rest;
      assert forall b :: 0 <= b < n ==> entries[..n][b] == entries[b];
    }
  }

  function Models(entries: seq<Entries>): set<string> {
    set b, e | 0 <= b < |entries| && e in entries[b] :: e.id
  }

  /** The counter a model gets: the previous one if the model was routed, a fresh one otherwise. */
  function RotationFor(previous: Routing, version: nat, model: string): Cursor {
    if model in previous then previous[model].rotation else Cursor(model, version)
  }

  function RoutingOf(entries: seq<Entries>, previous: Routing, version: nat): Routing {
    map m | m in Models(entries) :: RoutingEntry(Candidates(entries, m), RotationFor(previous, version, m))
  }

  lemma CandidatesSnoc(before: seq<Entries>, es: Entries, model: string)
    ensures Candidates(before + [es], model)
         == if model in Ids(es) then Candidates(before, model) + [|before|] else Candidates(before, model)
  {
    assert (before + [es])[..|before|] == before;
  }

  /** What one more entry of the last backend does to the candidates of a model. */
  lemma CandidatesExtend(before: seq<Entries>, es: Entries, e: Entry, model: string)
    ensures Candidates(before + [es + [e]], model)
         == if model == e.id && model !in Ids(es)
            then Candidates(before + [es], model) + [|before|]
            else Candidates(before + [es], model)
  {
    CandidatesSnoc(before, es, model);
    CandidatesSnoc(before, es + [e], model);
    IdsSnoc(es, e);
  }

  /** The last backend is the last candidate exactly when it has the model. */
  lemma LastCandidate(before: seq<Entries>, es: Entries, model: string)
    ensures var c := Candidates(before + [es], model);
            c != [] ==> (c[|c| - 1] == |before| <==> model in Ids(es))
  {
    CandidatesSnoc(before, es, model);
    CandidatesExact(before, model);
    var c := Candidates(before, model);
    if c != [] {
      assert c[|c| - 1] in c;
    }
  }

  lemma ModelsHaveCandidates(entries: seq<Entries>, model: string)
    ensures model in Models(entries) <==> Candidates(entries, model) != []
  {
    ModelsAre(entries, model);
    CandidatesExact(entries, model);
    if Candidates(entries, model) != [] {
      var b := First(Candidates(entries, model));
      assert model in Ids(entries[b]);
    }
  }

  lemma ModelsAre(entries: seq<Entries>, model: string)
    ensures model in Models(entries) <==> exists b :: 0 <= b < |entries| && model in Ids(entries[b])
  {
    if model in Models(entries) {
      var b, e :| 0 <= b < |entries| && e in entries[b] && e.id == model;
      assert model in Ids(entries[b]);
    }
    if b :| 0 <= b < |entries| && model in Ids(entries[b]) {
      var e :| e in entries[b] && e.id == model;
      assert e.id in Models(entries);
    }
  }

  lemma ModelsExtend(before: seq<Entries>, es: Entries, e: Entry)
    ensures Models(before + [es + [e]]) == Models(before + [es]) + {e.id}
  {
    var grown: seq<Entries>, was: seq<Entries> := before + [es + [e]], before + [es];
    assert grown[|before|] == es + [e] && was[|before|] == es;
    assert forall b :: 0 <= b < |before| ==> grown[b] == was[b];
    assert e in grown[|before|];
    forall m | m in Models(was) ensures m in Models(grown) {
      var b, x :| 0 <= b < |was| && x in was[b] && x.id == m;
      assert x in grown[b];
    }
    forall m | m in Models(grown) ensures m in Models(was) + {e.id} {
      var b, x :| 0 <= b < |grown| && x in grown[b] && x.id == m;
      assert x in was[b] || x == e;
    }
  }

  /** One entry of backend `b`: a new candidate list, a longer one, or a repeat of the last candidate. */
  method RouteEntry(routing: Routing, b: nat, e: Entry, previous: Routing, version: nat,
                    ghost before: seq<Entries>, ghost es: Entries) returns (grown: Routing)
    requires b == |before| && routing == RoutingOf(before + [es], previous, version)
    ensures grown == RoutingOf(before + [es + [e]], previous, version)
  {
    RoutingExtend(before, es, e, previous, version);
    LastCandidate(before, es, e.id);
    ModelsHaveCandidates(before + [es], e.id);
    if e.id !in routing {
      var rotation := if e.id in previous then previous[e.id].rotation else Cursor(e.id, version);
      grown := routing[e.id := RoutingEntry([b], rotation)];
    } else {
      var candidates := routing[e.id].candidates;
      if candidates[|candidates| - 1] != b {
        grown := routing[e.id := routing[e.id].(candidates := candidates + [b])];
      } else {
        grown := routing;
      }
    }
  }

  /**
    Fills the routing index in one pass over the entries. A backend that repeats
    a model can only repeat the candidate that was pushed last.
  */
  method BuildRouting(entries: seq<Entries>, previous: Routing, version: nat) returns (routing: Routing)
    ensures routing == RoutingOf(entries, previous, version)
  {
    routing := map[];
    assert Models(entries[..0]) == {};
    for b := 0 to |entries|
      invariant routing == RoutingOf(entries[..b], previous, version)
    {
      NoEntriesYet(entries[..b], previous, version);
      for i := 0 to |entries[b]|
        invariant routing == RoutingOf(entries[..b] + [entries[b][..i]], previous, version)
      {
        routing := RouteEntry(routing, b, entries[b][i], previous, version, entries[..b], entries[b][..i]);
        assert entries[b][..i + 1] == entries[b][..i] + [entries[b][i]];
      }
      assert entries[..b] + [entries[b]] == entries[..b + 1];
      assert entries[b][..|entries[b]|] == entries[b];
    }
    assert entries[..|entries|] == entries;
  }

  lemma NoEntriesYet(before: seq<Entries>, previous: Routing, version: nat)
    ensures RoutingOf(before + [[]], previous, version) == RoutingOf(before, previous, version)
  {
    var more := before + [[]];
    assert more[..|before|] == before;
    forall m ensures m in Models(more) <==> m in Models(before) {
      ModelsAre(more, m);
      ModelsAre(before, m);
      assert forall b :: 0 <= b < |before| ==> more[b] == before[b];
      assert Ids(more[|before|]) == {};
    }
  }

  /** The candidates of the entry's own model. */
  lemma OwnCandidates(before: seq<Entries>, es: Entries, e: Entry)
    ensures var c := Candidates(before + [es], e.id);
            Candidates(before + [es + [e]], e.id)
              == if e.id !in Models(before + [es]) then [|before|]
                 else if e.id in Ids(es) then c
                 else c + [|before|]
  {
    CandidatesExtend(before, es, e, e.id);
    ModelsHaveCandidates(before + [es], e.id);
    CandidatesSnoc(before, es, e.id);
  }

  lemma RoutingExtend(before: seq<Entries>, es: Entries, e: Entry, previous: Routing, version: nat)
    ensures var r, r' := RoutingOf(before + [es], previous, version), RoutingOf(before + [es + [e]], previous, version);
            r' == r[e.id := RoutingEntry(
                      if e.id !in r then [|before|]
                      else if e.id in Ids(es) then r[e.id].candidates
                      else r[e.id].candidates + [|before|],
                      RotationFor(previous, version, e.id))]
  {
    var was, grown := before + [es], before + [es + [e]];
    OwnCandidates(before, es, e);
    ModelsExtend(before, es, e);
    forall m | m in Models(was) && m != e.id
      ensures Candidates(grown, m) == Candidates(was, m)
    {
      OtherCandidates(before, es, e, m);
    }
    RoutingChange(was, grown, e.id, previous, version);
  }

  /** The index changes only where the candidates do. */
  lemma RoutingChange(was: seq<Entries>, grown: seq<Entries>, id: string, previous: Routing, version: nat)
    requires Models(grown) == Models(was) + {id}
    requires forall m :: m in Models(was) && m != id ==> Candidates(grown, m) == Candidates(was, m)
    ensures RoutingOf(grown, previous, version)
         == RoutingOf(was, previous, version)[
              id := RoutingEntry(Candidates(grown, id), RotationFor(previous, version, id))]
  {
    assert RoutingOf(grown, previous, version).Keys == RoutingOf(was, previous, version).Keys + {id};
  }

  lemma OtherCandidates(before: seq<Entries>, es: Entries, e: Entry, model: string)
    requires model != e.id
    ensures Candidates(before + [es + [e]], model) == Candidates(before + [es], model)
  {
    CandidatesExtend(before, es, e, model);
  }

  // ------------------------------------------------------------------ listing

  function Flatten(entries: seq<Entries>): Entries {
    if entries == [] then [] else Flatten(entries[..|entries| - 1]) + entries[|entries| - 1]
  }

  lemma {:induction false} FlattenIds(entries: seq<Entries>)
    ensures Ids(Flatten(entries)) == Models(entries)
  {
    if entries != [] {
      var n := |entries| - 1;
      FlattenIds(entries[..n]);
      forall m ensures m in Ids(Flatten(entries)) <==> m in Models(entries) {
        ModelsAre(entries, m);
        ModelsAre(entries[..n], m);
        assert forall b :: 0 <= b < n ==> entries[..n][b] == entries[b];
        assert m in Ids(Flatten(entries)) <==> m in Ids(Flatten(entries[..n])) || m in Ids(entries[n]);
      }
    }
  }

  /** `/v1/models`: the first entry of every model, in backend precedence order. */
  function Listing(entries: seq<Entries>): Entries {
    Dedup(Flatten(entries))
  }

  lemma {:induction false} DedupOver(a: Entries, b: Entries, e: Entry)
    ensures e in Dedup(a + b) <==> e in Dedup(a) || (e in Dedup(b) && e.id !in Ids(a))
    ensures Ids(a + b) == Ids(a) + Ids(b)
  {
    if b == [] {
      assert a + b == a;
    } else {
      var rest, x := b[..|b| - 1], b[|b| - 1];
      DedupOver(a, rest, e);
      assert b == rest + [x] && a + b == (a + rest) + [x];
      DedupSnoc(a + rest, x);
      DedupSnoc(rest, x);
    }
  }

  /** Backend `b` is the first that has the model of entry `e`, which is its first with that model. */
  ghost predicate FirstWith(entries: seq<Entries>, b: nat, e: Entry) {
    && b < |entries| && e in Dedup(entries[b])
    && forall a :: 0 <= a < b ==> e.id !in Ids(entries[a])
  }

  lemma FirstWithSnoc(before: seq<Entries>, es: Entries, e: Entry, b: nat)
    ensures FirstWith(before + [es], b, e) <==>
              FirstWith(before, b, e) || (b == |before| && e in Dedup(es) && e.id !in Models(before))
  {
    ModelsAre(before, e.id);
    assert forall a :: 0 <= a < |before| ==> (before + [es])[a] == before[a];
  }

  lemma ListingSnoc(before: seq<Entries>, es: Entries, e: Entry)
    ensures e in Listing(before + [es]) <==>
              e in Listing(before) || (e in Dedup(es) && e.id !in Models(before))
  {
    assert (before + [es])[..|before|] == before;
    DedupOver(Flatten(before), es, e);
    FlattenIds(before);
  }

  /** The listed entry of a model is the first one of the first backend that has the model. */
  lemma {:induction false} ListingPrecedence(entries: seq<Entries>, e: Entry)
    ensures e in Listing(entries) <==> exists b :: FirstWith(entries, b, e)
  {
    if entries == [] {
      assert Flatten(entries) == [];
    } else {
      var before, es := entries[..|entries| - 1], entries[|entries| - 1];
      ListingPrecedence(before, e);
      assert entries == before + [es];
      ListingSnoc(before, es, e);
      FirstWithSnoc(before, es, e, |before|);
      if b :| FirstWith(before, b, e) {
        FirstWithSnoc(before, es, e, b);
      }
      if b :| FirstWith(entries, b, e) {
        FirstWithSnoc(before, es, e, b);
      }
    }
  }

  /** In Catalog mode a model is routable exactly when it is listed, and to exactly its backends. */
  lemma RoutableIffListed(entries: seq<Entries>, previous: Routing, version: nat, model: string)
    ensures var routing := RoutingOf(entries, previous, version);
            && (model in routing <==> model in Ids(Listing(entries)))
            && (model in routing ==>
                  && routing[model].candidates != []
                  && (forall i, j :: 0 <= i < j < |routing[model].candidates| ==>
                        routing[model].candidates[i] < routing[model].candidates[j])
                  && (forall b :: b in routing[model].candidates <==>
                        0 <= b < |entries| && model in Ids(entries[b])))
  {
    FlattenIds(entries);
    DedupIds(Flatten(entries));
    CandidatesExact(entries, model);
    ModelsAre(entries, model);
    if model in Models(entries) {
      var b :| 0 <= b < |entries| && model in Ids(entries[b]);
      assert b in Candidates(entries, model);
    }
  }
}
