/** Token-usage records from upstream responses (crates/twl-provider/src/usage.rs). */
module UsageExtraction {
  import opened Common
  import opened Json

  datatype Usage = Usage(
    model: string,
    endpoint: string,
    input: int,
    output: int,
    cached: int,
    total: int,
    apiKeyId: Option<int>)

  const UNKNOWN := "unknown"

  /** Cached tokens are part of the input, nothing is negative, everything fits an i64. */
  predicate Sane(u: Usage) {
    && 0 <= u.cached <= u.input <= I64_MAX
    && 0 <= u.output <= I64_MAX
    && 0 <= u.total <= I64_MAX
  }

  // -------------------------------------------------------------- known shapes

  /** The object that carries `usage` and `model`: `response`, `message`, or the value itself. */
  function Root(v: Json): Json {
    var response, message := Get(v, "response"), Get(v, "message");
    if response.Some? && Get(response.value, "usage").Some? then response.value
    else if message.Some? && Get(message.value, "usage").Some? then message.value
    else v
  }

  function ModelName(root: Json, requested: Option<string>): string {
    var named := Get(root, "model");
    if named.Some? && named.value.String? then named.value.s
    else if requested.Some? then requested.value
    else UNKNOWN
  }

  function Extract(v: Json, endpoint: string, requested: Option<string>): Option<Usage> {
    var root := Root(v);
    var model := ModelName(root, requested);
    var usage := Get(root, "usage");
    if usage.Some? && usage.value != Null then FromOpenAi(usage.value, model, endpoint)
    else if Get(v, "stop") == Some(Bool(true)) then
      FromCounts(v, "tokens_evaluated", "tokens_predicted", Some("tokens_cached"), model, endpoint)
    else if Get(v, "prompt_eval_count").Some? || Get(v, "eval_count").Some? then
      FromCounts(v, "prompt_eval_count", "eval_count", None, model, endpoint)
    else None
  }

  function NestedCached(usage: Json): Option<int> {
    var prompt, input := Get(usage, "prompt_tokens_details"), Get(usage, "input_tokens_details");
    if prompt.Some? then GetI64(prompt.value, "cached_tokens")
    else if input.Some? then GetI64(input.value, "cached_tokens")
    else None
  }

  const RECOGNIZED := [
    "prompt_tokens", "input_tokens", "completion_tokens", "output_tokens", "total_tokens",
    "cache_creation_input_tokens", "cache_read_input_tokens", "prompt_cache_hit_tokens"]

  /** The numbers a usage block carries under the names that are recognized. */
  datatype RawCounts = RawCounts(
    prompt: Option<int>,
    completion: Option<int>,
    total: Option<int>,
    cacheCreation: Option<int>,
    cacheRead: Option<int>,
    cached: Option<int>,
    anthropic: bool)

  function ReadCounts(usage: Json): RawCounts {
    RawCounts(
      FirstI64(usage, ["prompt_tokens", "input_tokens"]),
      FirstI64(usage, ["completion_tokens", "output_tokens"]),
      GetI64(usage, "total_tokens"),
      GetI64(usage, "cache_creation_input_tokens"),
      GetI64(usage, "cache_read_input_tokens"),
      if NestedCached(usage).Some? then NestedCached(usage) else GetI64(usage, "prompt_cache_hit_tokens"),
      Get(usage, "cache_creation_input_tokens").Some? || Get(usage, "cache_read_input_tokens").Some?)
  }

  predicate NonGenerative(endpoint: string) {
    EndsWith(endpoint, "/rerank") || EndsWith(endpoint, "/score") || EndsWith(endpoint, "/pooling")
  }

  /** The record those numbers make; a total alone counts as input where nothing is generated. */
  function FromRaw(raw: RawCounts, nonGenerative: bool, model: string, endpoint: string): Usage {
    var totalOnly :=
      if nonGenerative && raw.prompt.None? && raw.completion.None? then Max(UnwrapOr(raw.total, 0), 0) else 0;
    var basePrompt := Max(UnwrapOr(raw.prompt, totalOnly), 0);
    var cacheCreation := Max(UnwrapOr(raw.cacheCreation, 0), 0);
    var cacheRead := Max(UnwrapOr(raw.cacheRead, 0), 0);
    var prompt := SatAdd(SatAdd(basePrompt, cacheCreation), cacheRead);
    var completion := Max(UnwrapOr(raw.completion, 0), 0);
    var total :=
      if raw.total.Some? && raw.total.value > 0 then raw.total.value
      else if raw.total == Some(0) && prompt == 0 && completion == 0 then 0
      else SatAdd(prompt, completion);
    var cached := if raw.anthropic then cacheRead else UnwrapOr(raw.cached, 0);
    Usage(model, endpoint, prompt, completion, Min(Max(cached, 0), prompt), total, None)
  }

  function FromOpenAi(usage: Json, model: string, endpoint: string): Option<Usage> {
    if FirstI64(usage, RECOGNIZED).None? && NestedCached(usage).None? then None
    else Some(FromRaw(ReadCounts(usage), NonGenerative(endpoint), model, endpoint))
  }

  function Min(a: int, b: int): (r: int)
    ensures r <= a && r <= b && (r == a || r == b)
  {
    if a < b then a else b
  }

  function FromCounts(v: Json, promptKey: string, completionKey: string, cachedKey: Option<string>,
                      model: string, endpoint: string): Option<Usage>
  {
    var rawPrompt, rawCompletion := GetI64(v, promptKey), GetI64(v, completionKey);
    if rawPrompt.None? && rawCompletion.None? then None
    else
      var prompt, completion := Max(UnwrapOr(rawPrompt, 0), 0), Max(UnwrapOr(rawCompletion, 0), 0);
      var cached :=
        if cachedKey.None? then 0 else Min(Max(UnwrapOr(GetI64(v, cachedKey.value), 0), 0), prompt);
      Some(Usage(model, endpoint, prompt, completion, cached, SatAdd(prompt, completion), None))
  }

  // ---------------------------------------------------------------- scavenger

  const PROMPT_KEYS := ["prompt_tokens", "input_tokens", "tokens_evaluated", "prompt_eval_count", "prompt_token_count"]
  const COMPLETION_KEYS := [
    "completion_tokens", "output_tokens", "tokens_predicted", "eval_count", "completion_token_count",
    "candidates_token_count"]
  const TOTAL_KEYS := ["total_tokens", "total_token_count"]
  const CACHED_KEYS := ["cached_tokens", "tokens_cached", "cache_read_input_tokens"]

  datatype Counts = Counts(prompt: int, completion: int, total: int, cached: int)

  predicate InI64(n: int) {
    I64_MIN <= n <= I64_MAX
  }

  predicate CountsInI64(c: Counts) {
    InI64(c.prompt) && InI64(c.completion) && InI64(c.total) && InI64(c.cached)
  }

  /** The object itself carries a recognizable count. */
  predicate Counted(v: Json) {
    v.Object? && (FirstI64(v, PROMPT_KEYS).Some? || FirstI64(v, COMPLETION_KEYS).Some? || FirstI64(v, TOTAL_KEYS).Some?)
  }

  function DetailCached(v: Json): (r: Option<int>)
    ensures r.Some? ==> InI64(r.value)
  {
    var prompt, input := Get(v, "prompt_tokens_details"), Get(v, "input_tokens_details");
    if prompt.Some? then FirstI64(prompt.value, CACHED_KEYS)
    else if input.Some? then FirstI64(input.value, CACHED_KEYS)
    else None
  }

  function OwnCounts(v: Json): (c: Counts)
    ensures CountsInI64(c)
  {
    Counts(
      UnwrapOr(FirstI64(v, PROMPT_KEYS), 0),
      UnwrapOr(FirstI64(v, COMPLETION_KEYS), 0),
      UnwrapOr(FirstI64(v, TOTAL_KEYS), 0),
      UnwrapOr(FirstI64(v, CACHED_KEYS), UnwrapOr(DetailCached(v), 0)))
  }

  /** Depth-first search for the first object with counts. */
  function ScavengeCounts(v: Json): (r: Option<Counts>)
    decreases v, 0
  {
    match v
    case Object(fields) => if Counted(v) then Some(OwnCounts(v)) else InFields(fields)
    case Array(items) => InItems(items)
    case _ => None
  }

  function InFields(fields: seq<Field>): Option<Counts>
    decreases fields, 1
  {
    if fields == [] then None
    else
      var here := ScavengeCounts(fields[0].value);
      if here.Some? then here else InFields(fields[1..])
  }

  function InItems(items: seq<Json>): Option<Counts>
    decreases items, 1
  {
    if items == [] then None
    else
      var here := ScavengeCounts(items[0]);
      if here.Some? then here else InItems(items[1..])
  }

  /** Depth-first search for the first object that names a model. */
  function ScavengeModel(v: Json): Option<string>
    decreases v, 0
  {
    match v
    case Object(fields) => if OwnModel(v).Some? then OwnModel(v) else ModelInFields(fields)
    case Array(items) => ModelInItems(items)
    case _ => None
  }

  function OwnModel(v: Json): Option<string> {
    var model, name, id := Get(v, "model"), Get(v, "model_name"), Get(v, "model_id");
    if model.Some? && model.value.String? then Some(model.value.s)
    else if name.Some? && name.value.String? then Some(name.value.s)
    else if id.Some? && id.value.String? then Some(id.value.s)
    else None
  }

  function ModelInFields(fields: seq<Field>): Option<string>
    decreases fields, 1
  {
    if fields == [] then None
    else
      var here := ScavengeModel(fields[0].value);
      if here.Some? then here else ModelInFields(fields[1..])
  }

  function ModelInItems(items: seq<Json>): Option<string>
    decreases items, 1
  {
    if items == [] then None
    else
      var here := ScavengeModel(items[0]);
      if here.Some? then here else ModelInItems(items[1..])
  }

  /** The record that found counts make. */
  function FromFound(c: Counts, model: string, endpoint: string): Usage {
    var prompt, completion, total := Max(c.prompt, 0), Max(c.completion, 0), Max(c.total, 0);
    Usage(model, endpoint, prompt, completion, Min(Max(c.cached, 0), prompt),
          if total > 0 then total else SatAdd(prompt, completion), None)
  }

  function Scavenge(v: Json, endpoint: string, requested: Option<string>): Option<Usage> {
    match ScavengeCounts(v)
    case None => None
    case Some(c) =>
      var found := ScavengeModel(v);
      var model := if found.Some? then found.value else if requested.Some? then requested.value else UNKNOWN;
      Some(FromFound(c, model, endpoint))
  }

  // ------------------------------------------------------------------ results

  predicate RawInI64(raw: RawCounts) {
    && (raw.prompt.Some? ==> InI64(raw.prompt.value)) && (raw.completion.Some? ==> InI64(raw.completion.value))
    && (raw.total.Some? ==> InI64(raw.total.value)) && (raw.cacheCreation.Some? ==> InI64(raw.cacheCreation.value))
    && (raw.cacheRead.Some? ==> InI64(raw.cacheRead.value)) && (raw.cached.Some? ==> InI64(raw.cached.value))
  }

  lemma RawSane(raw: RawCounts, nonGenerative: bool, model: string, endpoint: string)
    requires RawInI64(raw)
    ensures Sane(FromRaw(raw, nonGenerative, model, endpoint))
  {
  }

  lemma OpenAiSane(usage: Json, model: string, endpoint: string)
    ensures var u := FromOpenAi(usage, model, endpoint); u.Some? ==> Sane(u.value)
  {
    assert RawInI64(ReadCounts(usage));
    RawSane(ReadCounts(usage), NonGenerative(endpoint), model, endpoint);
  }

  lemma CountsSane(v: Json, promptKey: string, completionKey: string, cachedKey: Option<string>,
                   model: string, endpoint: string)
    ensures var u := FromCounts(v, promptKey, completionKey, cachedKey, model, endpoint); u.Some? ==> Sane(u.value)
  {
  }

  /** Every record extracted from any value, by any shape, is sane. */
  lemma ExtractSane(v: Json, endpoint: string, requested: Option<string>)
    ensures var u := Extract(v, endpoint, requested); u.Some? ==> Sane(u.value)
  {
    var root := Root(v);
    var model := ModelName(root, requested);
    var usage := Get(root, "usage");
    if usage.Some? {
      OpenAiSane(usage.value, model, endpoint);
    }
    CountsSane(v, "tokens_evaluated", "tokens_predicted", Some("tokens_cached"), model, endpoint);
    CountsSane(v, "prompt_eval_count", "eval_count", None, model, endpoint);
  }

  // ----- The depth-first search -----

  /** All values inside `v`, itself first, in depth-first order. */
  function Preorder(v: Json): (vs: seq<Json>)
    ensures vs != [] && vs[0] == v
    decreases v, 0
  {
    match v
    case Object(fields) => [v] + InsideFields(fields)
    case Array(items) => [v] + InsideItems(items)
    case _ => [v]
  }

  function InsideFields(fields: seq<Field>): seq<Json>
    decreases fields, 1
  {
    if fields == [] then [] else Preorder(fields[0].value) + InsideFields(fields[1..])
  }

  function InsideItems(items: seq<Json>): seq<Json>
    decreases items, 1
  {
    if items == [] then [] else Preorder(items[0]) + InsideItems(items[1..])
  }

  /** The first of `vs` that satisfies `p`. */
  function FirstWith(vs: seq<Json>, p: Json -> bool): (r: Option<Json>)
    ensures r.Some? ==> p(r.value)
  {
    if vs == [] then None else if p(vs[0]) then Some(vs[0]) else FirstWith(vs[1..], p)
  }

  lemma {:induction false} FirstWithIs(vs: seq<Json>, p: Json -> bool)
    ensures var r := FirstWith(vs, p);
            && (r.Some? ==>
                  exists i :: 0 <= i < |vs| && vs[i] == r.value && p(vs[i]) && forall j :: 0 <= j < i ==> !p(vs[j]))
            && (r.None? ==> forall v :: v in vs ==> !p(v))
  {
    if vs != [] && !p(vs[0]) {
      FirstWithIs(vs[1..], p);
      assert vs == [vs[0]] + vs[1..];
      var r := FirstWith(vs[1..], p);
      if r.Some? {
        var i :| 0 <= i < |vs[1..]| && vs[1..][i] == r.value && p(vs[1..][i])
          && forall j :: 0 <= j < i ==> !p(vs[1..][j]);
        assert vs[i + 1] == r.value;
        assert forall j :: 0 < j < i + 1 ==> vs[j] == vs[1..][j - 1];
      }
    }
  }

  lemma {:induction false} FirstAppend(a: seq<Json>, b: seq<Json>, p: Json -> bool)
    ensures FirstWith(a + b, p) == if FirstWith(a, p).Some? then FirstWith(a, p) else FirstWith(b, p)
  {
    if a == [] {
      assert a + b == b;
    } else {
      FirstAppend(a[1..], b, p);
      assert (a + b)[1..] == a[1..] + b;
    }
  }

  function CountsOf(o: Option<Json>): Option<Counts> {
    if o.Some? then Some(OwnCounts(o.value)) else None
  }

  predicate NamesModel(v: Json) {
    OwnModel(v).Some?
  }

  function ModelOf(o: Option<Json>): Option<string> {
    if o.Some? then OwnModel(o.value) else None
  }

  /** The heuristic takes its counts from the first object in depth-first order that has any. */
  lemma {:induction false} ScavengeFirst(v: Json)
    ensures ScavengeCounts(v) == CountsOf(FirstWith(Preorder(v), Counted))
    decreases v, 0
  {
    match v
    case Object(fields) =>
      FirstAppend([v], InsideFields(fields), Counted);
      FieldsFirst(fields);
    case Array(items) =>
      FirstAppend([v], InsideItems(items), Counted);
      ItemsFirst(items);
    case _ =>
  }

  lemma {:induction false} FieldsFirst(fields: seq<Field>)
    ensures InFields(fields) == CountsOf(FirstWith(InsideFields(fields), Counted))
    decreases fields, 1
  {
    if fields != [] {
      ScavengeFirst(fields[0].value);
      FieldsFirst(fields[1..]);
      FirstAppend(Preorder(fields[0].value), InsideFields(fields[1..]), Counted);
    }
  }

  lemma {:induction false} ItemsFirst(items: seq<Json>)
    ensures InItems(items) == CountsOf(FirstWith(InsideItems(items), Counted))
    decreases items, 1
  {
    if items != [] {
      ScavengeFirst(items[0]);
      ItemsFirst(items[1..]);
      FirstAppend(Preorder(items[0]), InsideItems(items[1..]), Counted);
    }
  }

  /** And the model from the first object in that order that names one. */
  lemma {:induction false} ScavengeModelFirst(v: Json)
    ensures ScavengeModel(v) == ModelOf(FirstWith(Preorder(v), NamesModel))
    decreases v, 0
  {
    match v
    case Object(fields) =>
      FirstAppend([v], InsideFields(fields), NamesModel);
      FieldsModelFirst(fields);
    case Array(items) =>
      FirstAppend([v], InsideItems(items), NamesModel);
      ItemsModelFirst(items);
    case _ =>
  }

  lemma {:induction false} FieldsModelFirst(fields: seq<Field>)
    ensures ModelInFields(fields) == ModelOf(FirstWith(InsideFields(fields), NamesModel))
    decreases fields, 1
  {
    if fields != [] {
      ScavengeModelFirst(fields[0].value);
      FieldsModelFirst(fields[1..]);
      FirstAppend(Preorder(fields[0].value), InsideFields(fields[1..]), NamesModel);
    }
  }

  lemma {:induction false} ItemsModelFirst(items: seq<Json>)
    ensures ModelInItems(items) == ModelOf(FirstWith(InsideItems(items), NamesModel))
    decreases items, 1
  {
    if items != [] {
      ScavengeModelFirst(items[0]);
      ItemsModelFirst(items[1..]);
      FirstAppend(Preorder(items[0]), InsideItems(items[1..]), NamesModel);
    }
  }

  /** `o` occurs somewhere inside `v`. */
  ghost predicate Within(v: Json, o: Json) {
    o in Preorder(v)
  }

  lemma ScavengeFinds(v: Json)
    ensures ScavengeCounts(v).Some? ==>
              exists o :: Within(v, o) && Counted(o) && ScavengeCounts(v) == Some(OwnCounts(o))
    ensures ScavengeCounts(v).None? ==> forall o :: Within(v, o) ==> !Counted(o)
  {
    ScavengeFirst(v);
    FirstWithIs(Preorder(v), Counted);
    if ScavengeCounts(v).Some? {
      var o := FirstWith(Preorder(v), Counted).value;
      assert Within(v, o) && Counted(o);
    }
  }

  /** The record `u` takes its counts from `c`. */
  predicate TakenFrom(u: Usage, c: Counts) {
    && u.input == Max(0, c.prompt)
    && u.output == Max(0, c.completion)
    && u.cached == Min(Max(0, c.cached), u.input)
    && u.total == if c.total > 0 then c.total else SatAdd(u.input, u.output)
  }

  /**
    The fallback misses nothing and makes nothing up: it yields a record exactly
    when some object inside the value carries a recognizable count, takes the
    counts from the first such object and the model from the first object that
    names one, in depth-first order, and the record is sane.
  */
  lemma ScavengeSane(v: Json, endpoint: string, requested: Option<string>)
    ensures var u := Scavenge(v, endpoint, requested);
            var counted, named := FirstWith(Preorder(v), Counted), FirstWith(Preorder(v), NamesModel);
            && (u.Some? <==> exists o :: Within(v, o) && Counted(o))
            && (u.Some? ==> Sane(u.value))
            && (u.Some? ==> counted.Some? && TakenFrom(u.value, OwnCounts(counted.value)))
            && (u.Some? ==> u.value.model == if named.Some? then OwnModel(named.value).value
                                             else if requested.Some? then requested.value else UNKNOWN)
  {
    ScavengeIff(v);
    ScavengeFirst(v);
    ScavengeModelFirst(v);
    if ScavengeCounts(v).Some? {
      FoundSane(ScavengeCounts(v).value, Scavenge(v, endpoint, requested).value.model, endpoint);
    }
  }

  lemma ScavengeIff(v: Json)
    ensures ScavengeCounts(v).Some? <==> exists o :: Within(v, o) && Counted(o)
    ensures ScavengeCounts(v).Some? ==> CountsInI64(ScavengeCounts(v).value)
  {
    ScavengeFinds(v);
  }

  lemma FoundSane(c: Counts, model: string, endpoint: string)
    requires CountsInI64(c)
    ensures Sane(FromFound(c, model, endpoint)) && TakenFrom(FromFound(c, model, endpoint), c)
  {
  }

  lemma {:induction false} FirstWithAt(vs: seq<Json>, i: nat, p: Json -> bool)
    requires i < |vs| && p(vs[i]) && forall j :: 0 <= j < i ==> !p(vs[j])
    ensures FirstWith(vs, p) == Some(vs[i])
  {
    if i > 0 {
      FirstWithAt(vs[1..], i - 1, p);
    }
  }

  /** Every name a count may go by where the response has no known shape. */
  const COUNT_NAMES := [
    "prompt_tokens", "input_tokens", "tokens_evaluated", "prompt_eval_count", "prompt_token_count",
    "completion_tokens", "output_tokens", "tokens_predicted", "eval_count", "completion_token_count",
    "candidates_token_count", "total_tokens", "total_token_count"]

  /** `o` has an integer under one of those names. */
  ghost predicate HasCount(o: Json) {
    exists key :: key in COUNT_NAMES && GetI64(o, key).Some?
  }

  lemma AnyOf(o: Json, keys: seq<string>)
    ensures FirstI64(o, keys).Some? <==> exists key :: key in keys && GetI64(o, key).Some?
  {
  }

  lemma CountNames(key: string)
    ensures key in COUNT_NAMES <==> key in PROMPT_KEYS || key in COMPLETION_KEYS || key in TOTAL_KEYS
  {
    assert COUNT_NAMES == PROMPT_KEYS + COMPLETION_KEYS + TOTAL_KEYS;
  }

  lemma CountedHasCount(o: Json)
    ensures Counted(o) <==> HasCount(o)
  {
    AnyOf(o, PROMPT_KEYS);
    AnyOf(o, COMPLETION_KEYS);
    AnyOf(o, TOTAL_KEYS);
    if key :| key in COUNT_NAMES && GetI64(o, key).Some? {
      CountNames(key);
    }
    forall key | key in PROMPT_KEYS || key in COMPLETION_KEYS || key in TOTAL_KEYS ensures key in COUNT_NAMES {
      CountNames(key);
    }
  }

  /**
    What the fallback bills, name by name: the first object with a count is read, each
    number from the first of its own names that holds one. Cached tokens may stand
    one level down, and a missing total is the saturated sum.
  */
  lemma ScavengeReads(v: Json, i: nat, endpoint: string, requested: Option<string>)
    requires i < |Preorder(v)| && HasCount(Preorder(v)[i])
    requires forall j :: 0 <= j < i ==> !HasCount(Preorder(v)[j])
    ensures var o, u := Preorder(v)[i], Scavenge(v, endpoint, requested);
            var cachedNames := ["cached_tokens", "tokens_cached", "cache_read_input_tokens"];
            var details := if Get(o, "prompt_tokens_details").Some? then Get(o, "prompt_tokens_details")
                           else Get(o, "input_tokens_details");
            var cached := if FirstI64(o, cachedNames).Some? then FirstI64(o, cachedNames)
                          else if details.Some? then FirstI64(details.value, cachedNames) else None;
            var total := UnwrapOr(FirstI64(o, ["total_tokens", "total_token_count"]), 0);
            && u.Some?
            && u.value.input == Max(UnwrapOr(FirstI64(o, [
                  "prompt_tokens", "input_tokens", "tokens_evaluated", "prompt_eval_count",
                  "prompt_token_count"]), 0), 0)
            && u.value.output == Max(UnwrapOr(FirstI64(o, [
                  "completion_tokens", "output_tokens", "tokens_predicted", "eval_count",
                  "completion_token_count", "candidates_token_count"]), 0), 0)
            && u.value.cached == Min(Max(UnwrapOr(cached, 0), 0), u.value.input)
            && u.value.total == (if total > 0 then total else SatAdd(u.value.input, u.value.output))
  {
    forall j | 0 <= j <= i ensures Counted(Preorder(v)[j]) <==> HasCount(Preorder(v)[j]) {
      CountedHasCount(Preorder(v)[j]);
    }
    FirstWithAt(Preorder(v), i, Counted);
    ScavengeFirst(v);
  }

  /** There is a record exactly when there is a count somewhere. */
  lemma ScavengeExactly(v: Json, endpoint: string, requested: Option<string>)
    ensures Scavenge(v, endpoint, requested).Some? <==> exists o :: Within(v, o) && HasCount(o)
  {
    ScavengeIff(v);
    forall o ensures Counted(o) <==> HasCount(o) {
      CountedHasCount(o);
    }
  }

  ghost predicate HoldsString(o: Json, key: string) {
    Get(o, key).Some? && Get(o, key).value.String?
  }

  /** The model is the string under the first of three names, in the first object that has one. */
  lemma ScavengeNames(v: Json, i: nat, key: string, endpoint: string, requested: Option<string>)
    requires i < |Preorder(v)| && HoldsString(Preorder(v)[i], key)
    requires key == "model" || key == "model_name" || key == "model_id"
    requires key != "model" ==> !HoldsString(Preorder(v)[i], "model")
    requires key == "model_id" ==> !HoldsString(Preorder(v)[i], "model_name")
    requires forall o :: o in Preorder(v)[..i] ==>
               !HoldsString(o, "model") && !HoldsString(o, "model_name") && !HoldsString(o, "model_id")
    ensures var u := Scavenge(v, endpoint, requested);
            u.Some? ==> Get(Preorder(v)[i], key) == Some(String(u.value.model))
  {
    forall j | 0 <= j < i ensures !NamesModel(Preorder(v)[j]) {
      assert Preorder(v)[j] in Preorder(v)[..i];
    }
    FirstWithAt(Preorder(v), i, NamesModel);
    ScavengeModelFirst(v);
  }

  // -------------------------------------------------------------- round trips

  /** A record as an OpenAI chat completion reports it. */
  function RenderChat(u: Usage): Json {
    Object([Field("model", String(u.model)), Field("usage", ChatBlock(u))])
  }

  function ChatBlock(u: Usage): Json {
    Object([
      Field("prompt_tokens", Number(u.input)),
      Field("completion_tokens", Number(u.output)),
      Field("total_tokens", Number(u.total)),
      Field("prompt_tokens_details", Object([Field("cached_tokens", Number(u.cached))]))])
  }

  /** As the streamed Responses API reports it: nested, with the other field names. */
  function RenderResponse(u: Usage): Json {
    Object([
      Field("type", String("response.completed")),
      Field("response", Object([Field("model", String(u.model)), Field("usage", ResponseBlock(u))]))])
  }

  function ResponseBlock(u: Usage): Json {
    Object([
      Field("input_tokens", Number(u.input)),
      Field("input_tokens_details", Object([Field("cached_tokens", Number(u.cached))])),
      Field("output_tokens", Number(u.output)),
      Field("total_tokens", Number(u.total))])
  }

  /** As Anthropic reports it: cache traffic is not part of `input_tokens` and there is no total. */
  function RenderMessage(u: Usage, creation: Option<int>): Json {
    Object([
      Field("type", String("message_start")),
      Field("message", Object([
        Field("model", String(u.model)),
        Field("usage", RenderCacheUsage(u, creation))]))])
  }

  function RenderCacheUsage(u: Usage, creation: Option<int>): Json {
    Object(CacheCounts(u, creation))
  }

  function CacheCounts(u: Usage, creation: Option<int>): seq<Field> {
    match creation
    case Some(written) => [
      Field("cache_creation_input_tokens", Number(written)),
      Field("cache_read_input_tokens", Number(u.cached)),
      Field("input_tokens", Number(u.input - u.cached - written)),
      Field("output_tokens", Number(u.output))]
    case None => [
      Field("cache_read_input_tokens", Number(u.cached)),
      Field("input_tokens", Number(u.input - u.cached)),
      Field("output_tokens", Number(u.output))]
  }

  /** As DeepSeek reports it: cache hits stand beside the prompt tokens they are part of. */
  function RenderHits(u: Usage): Json {
    Object([Field("model", String(u.model)), Field("usage", HitBlock(u))])
  }

  function HitBlock(u: Usage): Json {
    Object([
      Field("completion_tokens", Number(u.output)),
      Field("prompt_cache_hit_tokens", Number(u.cached)),
      Field("prompt_tokens", Number(u.input)),
      Field("total_tokens", Number(u.total))])
  }

  /** As rerank and scoring endpoints report it: a total and nothing else. */
  function RenderTotal(model: string, total: int): Json {
    Object([Field("model", String(model)), Field("usage", TotalBlock(total))])
  }

  function TotalBlock(total: int): Json {
    Object([Field("total_tokens", Number(total))])
  }

  /** As llama.cpp's terminal event reports it. */
  function RenderCompletion(u: Usage): Json {
    Object([
      Field("model", String(u.model)),
      Field("stop", Bool(true)),
      Field("tokens_cached", Number(u.cached)),
      Field("tokens_evaluated", Number(u.input)),
      Field("tokens_predicted", Number(u.output))])
  }

  /** As Ollama reports it. */
  function RenderOllama(u: Usage): Json {
    Object([
      Field("done", Bool(true)),
      Field("eval_count", Number(u.output)),
      Field("model", String(u.model)),
      Field("prompt_eval_count", Number(u.input))])
  }

  /** What is looked up in a usage block without Anthropic fields. */
  ghost predicate PlainFields(usage: Json, p: int, c: int, t: int, k: int) {
    && FirstI64(usage, ["prompt_tokens", "input_tokens"]) == Some(p)
    && FirstI64(usage, ["completion_tokens", "output_tokens"]) == Some(c)
    && GetI64(usage, "total_tokens") == Some(t)
    && (NestedCached(usage) == Some(k)
        || (NestedCached(usage).None? && GetI64(usage, "prompt_cache_hit_tokens") == Some(k)))
    && Get(usage, "cache_creation_input_tokens").None? && Get(usage, "cache_read_input_tokens").None?
  }

  lemma PlainUsage(usage: Json, model: string, endpoint: string, p: int, c: int, t: int, k: int)
    requires 0 <= k <= p <= I64_MAX && 0 <= c <= I64_MAX && 0 <= t <= I64_MAX && PlainFields(usage, p, c, t, k)
    ensures FromOpenAi(usage, model, endpoint)
         == Some(Usage(model, endpoint, p, c, k,
                       if t > 0 || (p == 0 && c == 0) then t else SatAdd(p, c), None))
  {
    assert GetI64(usage, RECOGNIZED[4]).Some?;
    RawPlain(ReadCounts(usage), NonGenerative(endpoint), model, endpoint, p, c, t, k);
  }

  lemma RawPlain(raw: RawCounts, nonGenerative: bool, model: string, endpoint: string, p: int, c: int, t: int, k: int)
    requires 0 <= k <= p <= I64_MAX && 0 <= c <= I64_MAX && 0 <= t <= I64_MAX
    requires raw == RawCounts(Some(p), Some(c), Some(t), None, None, Some(k), false)
    ensures FromRaw(raw, nonGenerative, model, endpoint)
         == Usage(model, endpoint, p, c, k, if t > 0 || (p == 0 && c == 0) then t else SatAdd(p, c), None)
  {
  }

  lemma RawCache(raw: RawCounts, nonGenerative: bool, model: string, endpoint: string,
                 p: int, w: int, k: int, c: int)
    requires 0 <= p && 0 <= w && 0 <= k && p + w + k <= I64_MAX && 0 <= c <= I64_MAX
    requires raw.prompt == Some(p) && raw.completion == Some(c) && raw.total.None?
    requires UnwrapOr(raw.cacheCreation, 0) == w && raw.cacheRead == Some(k) && raw.anthropic
    ensures FromRaw(raw, nonGenerative, model, endpoint)
         == Usage(model, endpoint, p + w + k, c, k, SatAdd(p + w + k, c), None)
  {
  }

  lemma FirstOfTwo(v: Json, a: string, b: string)
    ensures FirstI64(v, [a, b]) == if GetI64(v, a).Some? then GetI64(v, a) else GetI64(v, b)
  {
    assert [a, b][1..] == [b];
    assert [b][1..] == [];
  }

  lemma ChatFields(u: Usage)
    requires Sane(u)
    ensures PlainFields(ChatBlock(u), u.input, u.output, u.total, u.cached)
  {
    var usage := ChatBlock(u);
    LookupHit(usage.fields, 0, "prompt_tokens");
    LookupHit(usage.fields, 1, "completion_tokens");
    LookupHit(usage.fields, 2, "total_tokens");
    LookupHit(usage.fields, 3, "prompt_tokens_details");
    LookupHit(usage.fields[3].value.fields, 0, "cached_tokens");
    LookupMiss(usage.fields, "cache_creation_input_tokens");
    LookupMiss(usage.fields, "cache_read_input_tokens");
    FirstOfTwo(usage, "prompt_tokens", "input_tokens");
    FirstOfTwo(usage, "completion_tokens", "output_tokens");
  }

  lemma ResponseFields(u: Usage)
    requires Sane(u)
    ensures PlainFields(ResponseBlock(u), u.input, u.output, u.total, u.cached)
  {
    var usage := ResponseBlock(u);
    LookupMiss(usage.fields, "prompt_tokens");
    LookupHit(usage.fields, 0, "input_tokens");
    LookupMiss(usage.fields, "completion_tokens");
    LookupHit(usage.fields, 2, "output_tokens");
    LookupHit(usage.fields, 3, "total_tokens");
    LookupMiss(usage.fields, "prompt_tokens_details");
    LookupHit(usage.fields, 1, "input_tokens_details");
    LookupHit(usage.fields[1].value.fields, 0, "cached_tokens");
    LookupMiss(usage.fields, "cache_creation_input_tokens");
    LookupMiss(usage.fields, "cache_read_input_tokens");
    FirstOfTwo(usage, "prompt_tokens", "input_tokens");
    FirstOfTwo(usage, "completion_tokens", "output_tokens");
  }

  lemma HitFields(u: Usage)
    requires Sane(u)
    ensures PlainFields(HitBlock(u), u.input, u.output, u.total, u.cached)
  {
    var usage := HitBlock(u);
    LookupHit(usage.fields, 0, "completion_tokens");
    LookupHit(usage.fields, 1, "prompt_cache_hit_tokens");
    LookupHit(usage.fields, 2, "prompt_tokens");
    LookupHit(usage.fields, 3, "total_tokens");
    LookupMiss(usage.fields, "prompt_tokens_details");
    LookupMiss(usage.fields, "input_tokens_details");
    LookupMiss(usage.fields, "cache_creation_input_tokens");
    LookupMiss(usage.fields, "cache_read_input_tokens");
    FirstOfTwo(usage, "prompt_tokens", "input_tokens");
    FirstOfTwo(usage, "completion_tokens", "output_tokens");
  }

  /** A usage block beside the model is the one that is read. */
  lemma PlainRoot(model: string, usage: Json, endpoint: string, requested: Option<string>)
    requires usage.Object?
    ensures Extract(Object([Field("model", String(model)), Field("usage", usage)]), endpoint, requested)
         == FromOpenAi(usage, model, endpoint)
  {
    var v := Object([Field("model", String(model)), Field("usage", usage)]);
    LookupMiss(v.fields, "response");
    LookupMiss(v.fields, "message");
    LookupHit(v.fields, 0, "model");
    LookupHit(v.fields, 1, "usage");
  }

  /** So is the one of a streamed event, in its `response` or in its `message`. */
  lemma NestedRoot(kind: string, name: string, model: string, usage: Json, endpoint: string,
                   requested: Option<string>)
    requires usage.Object? && (name == "response" || name == "message")
    ensures var inner := Object([Field("model", String(model)), Field("usage", usage)]);
            var v := Object([Field("type", String(kind)), Field(name, inner)]);
            Extract(v, endpoint, requested) == FromOpenAi(usage, model, endpoint)
  {
    var root := Object([Field("model", String(model)), Field("usage", usage)]);
    LookupHit(root.fields, 0, "model");
    LookupHit(root.fields, 1, "usage");
    RootInside(kind, name, root);
  }

  lemma RootInside(kind: string, name: string, root: Json)
    requires Get(root, "usage").Some? && (name == "response" || name == "message")
    ensures Root(Object([Field("type", String(kind)), Field(name, root)])) == root
  {
    var v := Object([Field("type", String(kind)), Field(name, root)]);
    LookupHit(v.fields, 1, name);
    if name == "message" {
      LookupMiss(v.fields, "response");
    }
  }

  /** A total of zero is believed only when there is nothing to add up. */
  lemma ChatRoundTrip(u: Usage, requested: Option<string>)
    requires Sane(u) && u.apiKeyId == None
    ensures Extract(RenderChat(u), u.endpoint, requested) == Some(u)
       <==> u.total > 0 || (u.input == 0 && u.output == 0)
  {
    PlainRoot(u.model, ChatBlock(u), u.endpoint, requested);
    ChatFields(u);
    PlainUsage(ChatBlock(u), u.model, u.endpoint, u.input, u.output, u.total, u.cached);
  }

  lemma ResponseRoundTrip(u: Usage, requested: Option<string>)
    requires Sane(u) && u.apiKeyId == None
    ensures Extract(RenderResponse(u), u.endpoint, requested) == Some(u)
       <==> u.total > 0 || (u.input == 0 && u.output == 0)
  {
    NestedRoot("response.completed", "response", u.model, ResponseBlock(u), u.endpoint, requested);
    ResponseFields(u);
    PlainUsage(ResponseBlock(u), u.model, u.endpoint, u.input, u.output, u.total, u.cached);
  }

  lemma HitRoundTrip(u: Usage, requested: Option<string>)
    requires Sane(u) && u.apiKeyId == None
    ensures Extract(RenderHits(u), u.endpoint, requested) == Some(u)
       <==> u.total > 0 || (u.input == 0 && u.output == 0)
  {
    PlainRoot(u.model, HitBlock(u), u.endpoint, requested);
    HitFields(u);
    PlainUsage(HitBlock(u), u.model, u.endpoint, u.input, u.output, u.total, u.cached);
  }

  lemma NothingElse(total: int, key: string)
    requires key != "total_tokens"
    ensures Get(TotalBlock(total), key).None? && GetI64(TotalBlock(total), key).None?
  {
    LookupMiss(TotalBlock(total).fields, key);
  }

  lemma TotalFields(total: int)
    requires 0 <= total <= I64_MAX
    ensures ReadCounts(TotalBlock(total)) == RawCounts(None, None, Some(total), None, None, None, false)
    ensures GetI64(TotalBlock(total), "total_tokens") == Some(total)
  {
    var usage := TotalBlock(total);
    LookupHit(usage.fields, 0, "total_tokens");
    NothingElse(total, "prompt_tokens");
    NothingElse(total, "input_tokens");
    NothingElse(total, "completion_tokens");
    NothingElse(total, "output_tokens");
    NothingElse(total, "cache_creation_input_tokens");
    NothingElse(total, "cache_read_input_tokens");
    NothingElse(total, "prompt_cache_hit_tokens");
    NothingElse(total, "prompt_tokens_details");
    NothingElse(total, "input_tokens_details");
    FirstOfTwo(usage, "prompt_tokens", "input_tokens");
    FirstOfTwo(usage, "completion_tokens", "output_tokens");
  }

  lemma TotalRead(model: string, total: int, endpoint: string)
    requires 0 <= total <= I64_MAX
    ensures FromOpenAi(TotalBlock(total), model, endpoint)
         == Some(FromRaw(RawCounts(None, None, Some(total), None, None, None, false), NonGenerative(endpoint),
                         model, endpoint))
  {
    TotalFields(total);
    assert GetI64(TotalBlock(total), RECOGNIZED[4]).Some?;
  }

  lemma RawTotal(total: int, nonGenerative: bool, model: string, endpoint: string)
    requires 0 <= total <= I64_MAX
    ensures FromRaw(RawCounts(None, None, Some(total), None, None, None, false), nonGenerative, model, endpoint)
         == Usage(model, endpoint, if nonGenerative then total else 0, 0, 0, total, None)
  {
  }

  /** A total alone is input where nothing is generated, and counts as neither elsewhere. */
  lemma TotalOnly(model: string, total: int, endpoint: string, requested: Option<string>)
    requires 0 <= total <= I64_MAX
    ensures var input :=
              if EndsWith(endpoint, "/rerank") || EndsWith(endpoint, "/score") || EndsWith(endpoint, "/pooling")
              then total else 0;
            Extract(RenderTotal(model, total), endpoint, requested)
              == Some(Usage(model, endpoint, input, 0, 0, total, None))
  {
    PlainRoot(model, TotalBlock(total), endpoint, requested);
    TotalRead(model, total, endpoint);
    RawTotal(total, NonGenerative(endpoint), model, endpoint);
  }

  /** The fields of a block with cache traffic, and those it does not have. */
  ghost predicate CacheFields(usage: Json, p: int, creation: Option<int>, k: int, c: int) {
    && GetI64(usage, "prompt_tokens").None? && GetI64(usage, "input_tokens") == Some(p)
    && GetI64(usage, "completion_tokens").None? && GetI64(usage, "output_tokens") == Some(c)
    && GetI64(usage, "total_tokens").None?
    && GetI64(usage, "cache_creation_input_tokens") == creation
    && GetI64(usage, "cache_read_input_tokens") == Some(k)
  }

  lemma CacheUsageFields(u: Usage, creation: Option<int>)
    requires Sane(u) && 0 <= UnwrapOr(creation, 0) <= u.input - u.cached
    ensures CacheFields(RenderCacheUsage(u, creation), u.input - u.cached - UnwrapOr(creation, 0), creation,
                        u.cached, u.output)
  {
    var fields := CacheCounts(u, creation);
    var n := |fields|;
    LookupHit(fields, n - 3, "cache_read_input_tokens");
    LookupHit(fields, n - 2, "input_tokens");
    LookupHit(fields, n - 1, "output_tokens");
    LookupMiss(fields, "prompt_tokens");
    LookupMiss(fields, "completion_tokens");
    LookupMiss(fields, "total_tokens");
    if creation.Some? {
      LookupHit(fields, 0, "cache_creation_input_tokens");
    } else {
      LookupMiss(fields, "cache_creation_input_tokens");
    }
  }

  lemma CacheFieldsRead(usage: Json, model: string, endpoint: string, p: int, creation: Option<int>, k: int, c: int)
    requires 0 <= p && 0 <= UnwrapOr(creation, 0) && 0 <= k && p + UnwrapOr(creation, 0) + k <= I64_MAX
    requires 0 <= c <= I64_MAX && CacheFields(usage, p, creation, k, c)
    ensures var input := p + UnwrapOr(creation, 0) + k;
            FromOpenAi(usage, model, endpoint) == Some(Usage(model, endpoint, input, c, k, SatAdd(input, c), None))
  {
    FirstOfTwo(usage, "prompt_tokens", "input_tokens");
    FirstOfTwo(usage, "completion_tokens", "output_tokens");
    assert GetI64(usage, RECOGNIZED[1]).Some?;
    RawCache(ReadCounts(usage), NonGenerative(endpoint), model, endpoint, p, UnwrapOr(creation, 0), k, c);
  }

  lemma CacheRead(u: Usage, creation: Option<int>, model: string, endpoint: string)
    requires Sane(u) && 0 <= UnwrapOr(creation, 0) <= u.input - u.cached
    ensures FromOpenAi(RenderCacheUsage(u, creation), model, endpoint)
         == Some(Usage(model, endpoint, u.input, u.output, u.cached, SatAdd(u.input, u.output), None))
  {
    CacheUsageFields(u, creation);
    CacheFieldsRead(RenderCacheUsage(u, creation), model, endpoint,
                    u.input - u.cached - UnwrapOr(creation, 0), creation, u.cached, u.output);
  }

  /**
    Tokens written to the cache and tokens read from it are input; those read are the
    cached ones. Without a reported total the record carries the saturated sum.
  */
  lemma MessageRoundTrip(u: Usage, creation: Option<int>, requested: Option<string>)
    requires Sane(u) && u.apiKeyId == None && 0 <= UnwrapOr(creation, 0) <= u.input - u.cached
    ensures Extract(RenderMessage(u, creation), u.endpoint, requested) == Some(u)
       <==> u.total == SatAdd(u.input, u.output)
  {
    NestedRoot("message_start", "message", u.model, RenderCacheUsage(u, creation), u.endpoint, requested);
    CacheRead(u, creation, u.model, u.endpoint);
  }

  lemma CompletionRoundTrip(u: Usage, requested: Option<string>)
    requires Sane(u) && u.apiKeyId == None
    ensures Extract(RenderCompletion(u), u.endpoint, requested) == Some(u)
       <==> u.total == SatAdd(u.input, u.output)
  {
    var v := RenderCompletion(u);
    LookupMiss(v.fields, "response");
    LookupMiss(v.fields, "message");
    LookupMiss(v.fields, "usage");
    LookupHit(v.fields, 0, "model");
    LookupHit(v.fields, 1, "stop");
    LookupHit(v.fields, 2, "tokens_cached");
    LookupHit(v.fields, 3, "tokens_evaluated");
    LookupHit(v.fields, 4, "tokens_predicted");
  }

  /** Ollama has no notion of cached prompt tokens. */
  lemma OllamaRoundTrip(u: Usage, requested: Option<string>)
    requires Sane(u) && u.apiKeyId == None
    ensures Extract(RenderOllama(u), u.endpoint, requested) == Some(u)
       <==> u.cached == 0 && u.total == SatAdd(u.input, u.output)
  {
    var v := RenderOllama(u);
    LookupMiss(v.fields, "response");
    LookupMiss(v.fields, "message");
    LookupMiss(v.fields, "usage");
    LookupMiss(v.fields, "stop");
    LookupHit(v.fields, 1, "eval_count");
    LookupHit(v.fields, 2, "model");
    LookupHit(v.fields, 3, "prompt_eval_count");
  }

  /** A response that names no model is billed under the requested one. */
  lemma UnnamedModel(u: Usage, requested: Option<string>)
    requires Sane(u) && u.apiKeyId == None && (u.total > 0 || (u.input == 0 && u.output == 0))
    requires u.model == if requested.Some? then requested.value else "unknown"
    ensures Extract(Object([Field("usage", ChatBlock(u))]), u.endpoint, requested) == Some(u)
  {
    var v := Object([Field("usage", ChatBlock(u))]);
    LookupMiss(v.fields, "response");
    LookupMiss(v.fields, "message");
    LookupMiss(v.fields, "model");
    LookupHit(v.fields, 0, "usage");
    ChatFields(u);
    PlainUsage(ChatBlock(u), u.model, u.endpoint, u.input, u.output, u.total, u.cached);
  }

  /** llama.cpp's events before the last carry running totals, which are not billed. */
  lemma RunningIgnored(model: string, evaluated: int, predicted: int, endpoint: string, requested: Option<string>)
    ensures Extract(Object([
              Field("model", String(model)), Field("stop", Bool(false)),
              Field("tokens_evaluated", Number(evaluated)), Field("tokens_predicted", Number(predicted))]),
              endpoint, requested) == None
  {
    var v := Object([
      Field("model", String(model)), Field("stop", Bool(false)),
      Field("tokens_evaluated", Number(evaluated)), Field("tokens_predicted", Number(predicted))]);
    LookupMiss(v.fields, "response");
    LookupMiss(v.fields, "message");
    LookupMiss(v.fields, "usage");
    LookupHit(v.fields, 1, "stop");
    LookupMiss(v.fields, "prompt_eval_count");
    LookupMiss(v.fields, "eval_count");
  }
}
