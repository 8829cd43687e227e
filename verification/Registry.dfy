/** The backend registry as the program runs it (crates/twl-backends/src/lib.rs). */
module Registry {
  import opened Common
  import opened Json
  import opened Catalog
  import opened RoundRobin
  import opened CatalogRuns
  import opened Router

  datatype Mode = FlatPassthrough | CatalogMode
  datatype Strategy = Rotation | LeastLoaded

  datatype Route = Ok(order: seq<nat>) | MissingModel | UnknownModel(name: string)

  function StaticEntry(provider: string, id: string): Entry {
    Entry(id, Object([
      Field("id", String(id)), Field("object", String("model")), Field("owned_by", String(provider))]))
  }

  /** A configured model looks like one a provider reports. */
  lemma StaticEntryIs(provider: string, id: string)
    ensures var e := StaticEntry(provider, id);
            && e.id == id && Get(e.raw, "id") == Some(String(id))
            && Get(e.raw, "object") == Some(String("model")) && Get(e.raw, "owned_by") == Some(String(provider))
  {
    var fields := StaticEntry(provider, id).raw.fields;
    LookupHit(fields, 0, "id");
    LookupHit(fields, 1, "object");
    LookupHit(fields, 2, "owned_by");
  }

  function StaticEntries(provider: string, ids: seq<string>): Entries {
    seq(|ids|, i requires 0 <= i < |ids| => StaticEntry(provider, ids[i]))
  }

  /** A backend without polling serves the configured models that are on its list. */
  lemma StaticIds(rules: Rules, provider: string, ids: seq<string>)
    ensures forall m :: m in Ids(Advertised(rules, StaticEntries(provider, ids))) <==>
              m in ids && (rules.filter.Some? ==> m in rules.filter.value)
  {
    var es := StaticEntries(provider, ids);
    AdvertisedIds(rules, es);
    forall m ensures m in Ids(es) <==> m in ids {
      if m in ids {
        var i :| 0 <= i < |ids| && ids[i] == m;
        assert es[i].id == m;
      }
    }
  }

  /** Every routed model has candidates, in index order and within range. */
  ghost predicate RoutesInRange(c: Catalog) {
    forall m :: m in c.routing ==> Increasing(c.routing[m].candidates, |c.entries|)
  }

  ghost predicate Increasing(s: seq<nat>, n: nat) {
    && s != []
    && (forall i :: 0 <= i < |s| ==> s[i] < n)
    && (forall i, j :: 0 <= i < j < |s| ==> s[i] < s[j])
  }

  lemma ExactInRange(c: Catalog)
    requires RoutingExact(c)
    ensures RoutesInRange(c)
  {
    forall m | m in c.routing
      ensures Increasing(c.routing[m].candidates, |c.entries|)
    {
      RoutableIffListed(c.entries, map[], 0, m);
      var candidates := c.routing[m].candidates;
      assert forall i :: 0 <= i < |candidates| ==> candidates[i] in candidates;
    }
  }

  lemma InstallInRange(c: Catalog, u: Update, version: nat)
    requires RoutingExact(c) && u.backend < |c.entries|
    ensures RoutingExact(Install(c, u, version)) && RoutesInRange(Install(c, u, version))
  {
    InstallExact(c, u, version);
    ExactInRange(Install(c, u, version));
  }

  /** The first backend of the order stays within the load bound with one more request. */
  ghost predicate FirstFits(load: seq<nat>, factor: real, candidates: seq<nat>, order: seq<nat>) {
    && candidates != [] && (forall i :: 0 <= i < |candidates| ==> candidates[i] < |load|)
    && order != [] && order[0] < |load|
    && load[order[0]] + 1 <= Bound(factor, Loads(load, candidates), |candidates|)
  }

  /** No backend comes before one with less load, nor before a lower-numbered one with as much. */
  ghost predicate LeastFirst(load: seq<nat>, order: seq<nat>) {
    && (forall i :: 0 <= i < |order| ==> order[i] < |load|)
    && forall i, j :: 0 <= i < j < |order| ==>
         load[order[i]] < load[order[j]] || (load[order[i]] == load[order[j]] && order[i] < order[j])
  }

  /**
    The order for a prompt prefix, by the score that this prefix gives each backend:
    whoever scores higher than the first choice carries too much load, and the rest
    follow by falling score.
  */
  ghost predicate ByScore(score: (nat, nat) -> int, hash: nat, load: seq<nat>, factor: real, candidates: seq<nat>,
                          order: seq<nat>)
  {
    && candidates != [] && (forall i :: 0 <= i < |candidates| ==> candidates[i] < |load|)
    && order != []
    && (forall b :: b in candidates && score(hash, b) > score(hash, order[0]) ==>
          b < |load| && load[b] >= Bound(factor, Loads(load, candidates), |candidates|))
    && forall i, j :: 1 <= i < j < |order| ==> score(hash, order[i]) >= score(hash, order[j])
  }

  /** Scores of one prompt prefix. */
  function ScoresOf(score: (nat, nat) -> int, hash: nat): Score {
    (b: nat) => score(hash, b)
  }

  lemma ScoredOrder(score: (nat, nat) -> int, hash: nat, candidates: seq<nat>, load: seq<nat>, factor: real)
    requires |candidates| > 1 && factor >= 1.0
    requires forall i :: 0 <= i < |candidates| ==> candidates[i] < |load|
    requires forall i, j :: 0 <= i < j < |candidates| ==> candidates[i] < candidates[j]
    requires Loads(load, candidates) < U32
    ensures ByScore(score, hash, load, factor, candidates,
                    PrefixOrder(ScoresOf(score, hash), candidates, load, factor))
  {
    PrefixOrderByScore(ScoresOf(score, hash), candidates, load, factor);
  }

  lemma LoadOrder(key: nat -> int, load: seq<nat>, candidates: seq<nat>)
    requires forall i :: 0 <= i < |candidates| ==> candidates[i] < |load|
    requires forall i, j :: 0 <= i < j < |candidates| ==> candidates[i] < candidates[j]
    requires forall b :: 0 <= b < |load| ==> key(b) == load[b]
    ensures LeastFirst(load, SortBy(key, candidates))
  {
    SortIsStable(key, candidates);
    var order := SortBy(key, candidates);
    forall i | 0 <= i < |order| ensures order[i] < |load| && key(order[i]) == load[order[i]] {
      assert order[i] in order;
    }
  }

  class BackendRegistry {
    const rules: seq<Rules>
    const mode: Mode
    const strategy: Strategy
    const factor: real
    /** Rendezvous score of a prompt-prefix hash for a backend. */
    const score: (nat, nat) -> int
    var catalog: Catalog
    var version: nat
    var cursors: map<Cursor, nat>
    var inflight: seq<nat>

    ghost predicate Valid()
      reads this
    {
      && |catalog.entries| == |inflight| == |rules| > 0
      && (mode == FlatPassthrough ==> |rules| == 1)
      && RoutingExact(catalog)
      && RoutesInRange(catalog)
      && forall b :: 0 <= b < |inflight| ==> inflight[b] < U32
    }

    constructor (rules: seq<Rules>, providers: seq<string>, models: seq<seq<string>>, mode: Mode,
                 strategy: Strategy, factor: real, score: (nat, nat) -> int)
      requires |rules| == |providers| == |models| > 0
      requires mode == FlatPassthrough ==> |rules| == 1
      ensures Valid() && this.rules == rules && this.mode == mode
      ensures this.strategy == strategy && this.factor == factor && this.score == score
      ensures catalog.entries == seq(|rules|, i requires 0 <= i < |rules| =>
                Advertised(rules[i], StaticEntries(providers[i], models[i])))
      ensures forall i, m :: 0 <= i < |rules| ==>
                (m in Ids(catalog.entries[i]) <==>
                   m in models[i] && (rules[i].filter.Some? ==> m in rules[i].filter.value))
      ensures inflight == seq(|rules|, i => 0) && cursors == map[] && version == 0
    {
      this.rules, this.mode, this.strategy, this.factor, this.score := rules, mode, strategy, factor, score;
      var entries: seq<Entries> := [];
      for i := 0 to |rules|
        invariant |entries| == i
        invariant forall j :: 0 <= j < i ==> entries[j] == Advertised(rules[j], StaticEntries(providers[j], models[j]))
        invariant forall j, m :: 0 <= j < i ==>
                    (m in Ids(entries[j]) <==>
                       m in models[j] && (rules[j].filter.Some? ==> m in rules[j].filter.value))
      {
        StaticIds(rules[i], providers[i], models[i]);
        var kept := Deduplicate(Select(rules[i], StaticEntries(providers[i], models[i])));
        entries := entries + [kept];
      }
      var routing := BuildRouting(entries, map[], 0);
      ExactInRange(Catalog(entries, routing));
      catalog := Catalog(entries, routing);
      version, cursors, inflight := 0, map[], seq(|rules|, i => 0);
    }

    /** One backend's entries replaced, and the index rebuilt over all of them. */
    method Rebuild(idx: nat, kept: Entries, born: nat) returns (next: Catalog)
      requires idx < |catalog.entries| && RoutingExact(catalog)
      ensures next == Install(catalog, Update(idx, kept), born)
      ensures RoutingExact(next) && RoutesInRange(next)
    {
      var entries := catalog.entries[idx := kept];
      var routing := BuildRouting(entries, catalog.routing, born);
      next := Catalog(entries, routing);
      InstallInRange(catalog, Update(idx, kept), born);
    }

    /** Replaces one backend's entries and rebuilds the index, keeping the counters of models that stay. */
    method SetBackendModels(idx: nat, reported: Entries)
      requires Valid() && idx < |rules|
      modifies this`catalog, this`version
      ensures Valid() && version == old(version) + 1
      ensures catalog == Install(old(catalog), Update(idx, Advertised(rules[idx], reported)), version)
      ensures forall m :: m in Ids(catalog.entries[idx]) <==>
                m in Ids(reported) && (rules[idx].filter.Some? ==> m in rules[idx].filter.value)
    {
      var kept := Deduplicate(Select(rules[idx], reported));
      AdvertisedIds(rules[idx], reported);
      version := version + 1;
      catalog := Rebuild(idx, kept, version);
    }

    /** Counts one more request on a backend, as the atomic counter does. */
    method BeginLoad(idx: nat)
      requires Valid() && idx < |inflight|
      modifies this`inflight
      ensures Valid() && inflight == old(inflight)[idx := Bump(old(inflight)[idx], U32)]
    {
      inflight := inflight[idx := Bump(inflight[idx], U32)];
    }

    /** Undoes exactly one `BeginLoad`, also across the wrap. */
    method DropLoad(idx: nat)
      requires Valid() && idx < |inflight|
      modifies this`inflight
      ensures Valid() && |inflight| == |old(inflight)|
      ensures Bump(inflight[idx], U32) == old(inflight)[idx]
      ensures forall b :: 0 <= b < |inflight| && b != idx ==> inflight[b] == old(inflight)[b]
    {
      inflight := inflight[idx := if inflight[idx] == 0 then U32 - 1 else inflight[idx] - 1];
    }

    /** The load on the model's backends adds up within a u32, as the sum in the code must. */
    ghost predicate LoadsFit(model: Option<string>)
      requires Valid()
      reads this
    {
      model.Some? && model.value in catalog.routing ==>
        Loads(inflight, catalog.routing[model.value].candidates) < U32
    }

    function ScoreFor(hash: nat): (s: Score)
      ensures forall b :: s(b) == score(hash, b)
    {
      ScoresOf(score, hash)
    }

    function LoadOf(): (key: nat -> int)
      reads this
      ensures forall b :: 0 <= b < |inflight| ==> key(b) == inflight[b]
    {
      var load := inflight;
      (b: nat) => if b < |load| then load[b] else 0
    }

    method TotalLoad(candidates: seq<nat>) returns (total: nat)
      requires forall i :: 0 <= i < |candidates| ==> candidates[i] < |inflight|
      ensures total == Loads(inflight, candidates)
    {
      total := 0;
      for i := 0 to |candidates|
        invariant total == Loads(inflight, candidates[..i])
      {
        assert candidates[..i + 1][..i] == candidates[..i];
        total := total + inflight[candidates[i]];
      }
      assert candidates[..|candidates|] == candidates;
    }

    /** The first backend of the order that is below the bound, falling back on the primary. */
    method SpillTarget(ranked: seq<nat>, bound: nat) returns (chosen: nat)
      requires ranked != [] && forall i :: 0 <= i < |ranked| ==> ranked[i] < |inflight|
      ensures var i := FirstUnder(ranked, inflight, bound);
              chosen == if i < |ranked| then ranked[i] else ranked[0]
    {
      for i := 0 to |ranked|
        invariant FirstUnder(ranked, inflight, bound) == i + FirstUnder(ranked[i..], inflight, bound)
      {
        assert ranked[i..][1..] == ranked[i + 1..];
        if inflight[ranked[i]] < bound {
          return ranked[i];
        }
      }
      return ranked[0];
    }

    /** Rendezvous order with the first backend below the bound moved to the front. */
    method OrderByPrefix(candidates: seq<nat>, hash: nat) returns (order: seq<nat>)
      requires candidates != [] && forall i :: 0 <= i < |candidates| ==> candidates[i] < |inflight|
      ensures order == PrefixOrder(ScoreFor(hash), candidates, inflight, factor)
    {
      var ranked := Ranked(ScoreFor(hash), candidates);
      RankedSize(ScoreFor(hash), candidates);
      assert forall i :: 0 <= i < |ranked| ==> ranked[i] in ranked;
      var total := TotalLoad(candidates);
      var bound := Bound(factor, total, |candidates|);
      var chosen := ranked[0];
      if inflight[chosen] >= bound {
        chosen := SpillTarget(ranked, bound);
      }
      order := MoveToFront(ranked, chosen);
    }

    /** Prefix-less placement by the configured strategy. */
    method StrategyPlacement(entry: RoutingEntry) returns (order: seq<nat>)
      requires Increasing(entry.candidates, |inflight|)
      modifies this`cursors
      ensures multiset(order) == multiset(entry.candidates)
      ensures strategy == LeastLoaded ==>
                order == SortBy(LoadOf(), entry.candidates) && LeastFirst(inflight, order) && cursors == old(cursors)
      ensures strategy == Rotation ==>
                var at := if entry.rotation in old(cursors) then old(cursors)[entry.rotation] else 0;
                && order == Rotate(entry.candidates, at % |entry.candidates|)
                && cursors == old(cursors)[entry.rotation := Bump(at, U32)]
    {
      var candidates := entry.candidates;
      if strategy == Rotation {
        var at := if entry.rotation in cursors then cursors[entry.rotation] else 0;
        cursors := cursors[entry.rotation := Bump(at, U32)];
        RotatePermutes(candidates, at % |candidates|);
        order := Rotate(candidates, at % |candidates|);
      } else {
        SortCorrect(LoadOf(), candidates);
        LoadOrder(LoadOf(), inflight, candidates);
        order := SortBy(LoadOf(), candidates);
      }
    }

    /** The order of one routing entry's candidates: by prefix where there is one, else by strategy. */
    method OrderedCandidates(entry: RoutingEntry, prefix: Option<nat>) returns (order: seq<nat>)
      requires Increasing(entry.candidates, |inflight|) && factor >= 1.0
      requires |entry.candidates| > 1 && prefix.Some? ==> Loads(inflight, entry.candidates) < U32
      modifies this`cursors
      ensures multiset(order) == multiset(entry.candidates)
      ensures |entry.candidates| > 1 && prefix.Some? ==>
                && order == PrefixOrder(ScoreFor(prefix.value), entry.candidates, inflight, factor)
                && FirstFits(inflight, factor, entry.candidates, order)
                && ByScore(score, prefix.value, inflight, factor, entry.candidates, order)
      ensures |entry.candidates| > 1 && prefix.None? && strategy == LeastLoaded ==>
                order == SortBy(LoadOf(), entry.candidates) && LeastFirst(inflight, order)
      ensures if |entry.candidates| > 1 && prefix.None? && strategy == Rotation then
                var at := if entry.rotation in old(cursors) then old(cursors)[entry.rotation] else 0;
                && order == Rotate(entry.candidates, at % |entry.candidates|)
                && cursors == old(cursors)[entry.rotation := Bump(at, U32)]
              else cursors == old(cursors)
    {
      order := entry.candidates;
      if |order| > 1 {
        if prefix.Some? {
          PrefixOrderCorrect(ScoreFor(prefix.value), entry.candidates, inflight, factor);
          ScoredOrder(score, prefix.value, entry.candidates, inflight, factor);
          order := OrderByPrefix(entry.candidates, prefix.value);
        } else {
          order := StrategyPlacement(entry);
        }
      }
    }

    /** Where a request for `model` may go, best first. */
    method RouteCandidates(model: Option<string>, prefix: Option<nat>) returns (route: Route)
      requires Valid() && factor >= 1.0 && (prefix.Some? ==> LoadsFit(model))
      modifies this`cursors
      ensures route.Ok? ==> route.order != [] && Distinct(route.order)
      ensures route.Ok? ==> forall i :: 0 <= i < |route.order| ==> route.order[i] < |rules|
      ensures model.None? ==> route == MissingModel
      ensures model.Some? && model.value !in catalog.routing ==>
                route == if mode == FlatPassthrough then Ok([0]) else UnknownModel(model.value)
      ensures model.Some? && model.value in catalog.routing ==>
                var candidates := catalog.routing[model.value].candidates;
                && route.Ok?
                && multiset(route.order) == multiset(candidates)
                && (|candidates| > 1 && prefix.Some? ==>
                      && route.order == PrefixOrder(ScoreFor(prefix.value), candidates, inflight, factor)
                      && FirstFits(inflight, factor, candidates, route.order)
                      && (forall b :: b in candidates && score(prefix.value, b) > score(prefix.value, route.order[0])
                            ==> && b < |inflight|
                                && inflight[b] >= Bound(factor, Loads(inflight, candidates), |candidates|))
                      && forall i, j :: 1 <= i < j < |route.order| ==>
                           score(prefix.value, route.order[i]) >= score(prefix.value, route.order[j]))
                && (|candidates| > 1 && prefix.None? && strategy == LeastLoaded ==>
                      && route.order == SortBy(LoadOf(), candidates)
                      && forall i, j :: 0 <= i < j < |route.order| ==>
                           var x, y := route.order[i], route.order[j];
                           inflight[x] < inflight[y] || (inflight[x] == inflight[y] && x < y))
                && (|candidates| > 1 && prefix.None? && strategy == Rotation ==>
                      var cursor := catalog.routing[model.value].rotation;
                      var at := if cursor in old(cursors) then old(cursors)[cursor] else 0;
                      && route.order == Rotate(candidates, at % |candidates|)
                      && cursors == old(cursors)[cursor := Bump(at, U32)])
      ensures cursors != old(cursors) ==>
                && model.Some? && model.value in catalog.routing && prefix.None? && strategy == Rotation
                && |catalog.routing[model.value].candidates| > 1
    {
      if model.None? {
        return MissingModel;
      }
      if model.value !in catalog.routing {
        return if mode == FlatPassthrough then Ok([0]) else UnknownModel(model.value);
      }
      var entry := catalog.routing[model.value];
      var order := OrderedCandidates(entry, prefix);
      PermutationFacts(entry.candidates, order);
      return Ok(order);
    }

    /** The raw model objects of `/v1/models`. */
    method ModelEntries() returns (raws: seq<Json>)
      ensures |raws| == |Listing(catalog.entries)|
      ensures forall i :: 0 <= i < |raws| ==> raws[i] == Listing(catalog.entries)[i].raw
    {
      var seen: set<string> := {};
      var kept: Entries := [];
      for b := 0 to |catalog.entries|
        invariant seen == Ids(Flatten(catalog.entries[..b])) && kept == Dedup(Flatten(catalog.entries[..b]))
      {
        seen, kept := KeepUnseen(Flatten(catalog.entries[..b]), catalog.entries[b], seen, kept);
        assert catalog.entries[..b + 1][..b] == catalog.entries[..b];
      }
      assert catalog.entries[..|catalog.entries|] == catalog.entries;
      raws := seq(|kept|, i requires 0 <= i < |kept| => kept[i].raw);
    }
  }

  ghost predicate Unrepeated(es: Entries, seen: set<string>, kept: Entries) {
    seen == Ids(es) && kept == Dedup(es)
  }

  /** One more entry of the listing, kept when its id was not seen. */
  method KeepOne(ghost before: Entries, e: Entry, seen: set<string>, kept: Entries)
    returns (seen': set<string>, kept': Entries)
    requires Unrepeated(before, seen, kept)
    ensures Unrepeated(before + [e], seen', kept')
  {
    DedupSnoc(before, e);
    seen', kept' := seen + {e.id}, if e.id in seen then kept else kept + [e];
  }

  lemma OneMore<T>(before: seq<T>, es: seq<T>, i: nat)
    requires i < |es|
    ensures before + es[..i] + [es[i]] == before + es[..i + 1]
  {
  }

  /** One backend's share of the listing. */
  method KeepUnseen(ghost before: Entries, es: Entries, seen: set<string>, kept: Entries)
    returns (seen': set<string>, kept': Entries)
    requires Unrepeated(before, seen, kept)
    ensures Unrepeated(before + es, seen', kept')
  {
    seen', kept' := seen, kept;
    assert before + es[..0] == before;
    for i := 0 to |es|
      invariant Unrepeated(before + es[..i], seen', kept')
    {
      seen', kept' := KeepOne(before + es[..i], es[i], seen', kept');
      OneMore(before, es, i);
    }
    assert es[..|es|] == es;
  }

  /** `chosen` first, then the others in their order. */
  method MoveToFront(ranked: seq<nat>, chosen: nat) returns (order: seq<nat>)
    ensures order == [chosen] + Keep(ranked, Except(chosen))
  {
    order := [chosen];
    for i := 0 to |ranked|
      invariant order == [chosen] + Keep(ranked[..i], Except(chosen))
    {
      KeepAppend(ranked[..i], ranked[i], Except(chosen));
      assert ranked[..i + 1] == ranked[..i] + [ranked[i]];
      if ranked[i] != chosen {
        order := order + [ranked[i]];
      }
    }
    assert ranked[..|ranked|] == ranked;
  }

  lemma PermutationFacts(candidates: seq<nat>, order: seq<nat>)
    requires candidates != [] && multiset(order) == multiset(candidates)
    requires forall i, j :: 0 <= i < j < |candidates| ==> candidates[i] < candidates[j]
    ensures order != [] && Distinct(order)
    ensures forall i :: 0 <= i < |order| ==> order[i] in candidates
  {
    SameMembers(candidates, order, 0);
    DistinctPermutation(candidates, order);
    forall i | 0 <= i < |order|
      ensures order[i] in candidates
    {
      SameMembers(candidates, order, order[i]);
    }
  }
}
