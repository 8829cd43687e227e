/** The usage table and its reports (crates/twl-store/src/usage.rs). */
module Reports {
  import opened Common
  import opened Json
  import opened Pricing
  import opened Identity
  import opened IdentityRuns
  import UsageExtraction

  /** One row of `token_usage`. */
  datatype Row = Row(
    ts: int,
    model: string,
    endpoint: string,
    input: int,
    output: int,
    cached: int,
    total: int,
    apiKeyId: Option<int>)

  /** One row of `energy`. */
  datatype EnergyRow = EnergyRow(ts: int, elapsed: real, watts: real)

  datatype Totals = Totals(requests: int, input: int, output: int, cached: int, total: int)

  /** One row of a report. */
  datatype Group<K> = Group(key: K, totals: Totals)

  const ZERO := Totals(0, 0, 0, 0, 0)

  function Plus(a: Totals, b: Totals): Totals {
    Totals(a.requests + b.requests, a.input + b.input, a.output + b.output, a.cached + b.cached, a.total + b.total)
  }

  function One(r: Row): Totals {
    Totals(1, r.input, r.output, r.cached, r.total)
  }

  function SumOf(rows: seq<Row>): Totals {
    if rows == [] then ZERO else Plus(One(rows[0]), SumOf(rows[1..]))
  }

  function SumOfGroups<K>(groups: seq<Group<K>>): Totals {
    if groups == [] then ZERO else Plus(groups[0].totals, SumOfGroups(groups[1..]))
  }

  // ----- The table -----

  predicate Recordable(r: Row) {
    r.ts >= 0 && 0 <= r.cached <= r.input && 0 <= r.output && 0 <= r.total
  }

  ghost predicate Recorded(rows: seq<Row>) {
    forall r :: r in rows ==> Recordable(r)
  }

  class UsageStore {
    var rows: seq<Row>
    var energy: seq<EnergyRow>

    constructor ()
      ensures rows == [] && energy == []
    {
      rows, energy := [], [];
    }

    /**
      A clock before the epoch drops the record, and so does a failure of the pool
      or the insert (`stored` is false). Sane records keep the table reportable.
    */
    method Record(u: UsageExtraction.Usage, now: Option<int>, stored: bool)
      requires now.Some? ==> now.value >= 0
      modifies this`rows
      ensures now.Some? && stored ==>
                rows == old(rows) + [
                  Row(now.value, u.model, u.endpoint, u.input, u.output, u.cached, u.total, u.apiKeyId)]
      ensures now.None? || !stored ==> rows == old(rows)
      ensures old(Recorded(rows)) && UsageExtraction.Sane(u) ==> Recorded(rows)
    {
      if now.None? {
        return;
      }
      if stored {
        rows := rows + [Row(now.value, u.model, u.endpoint, u.input, u.output, u.cached, u.total, u.apiKeyId)];
      }
    }

    /** Negative values are rejected before anything else. */
    method RecordEnergy(elapsed: real, watts: real, now: Option<int>, stored: bool)
      modifies this`energy
      ensures energy == old(energy)
                + if elapsed >= 0.0 && watts >= 0.0 && now.Some? && stored then [EnergyRow(now.value, elapsed, watts)]
                  else []
    {
      if elapsed < 0.0 || watts < 0.0 || now.None? {
        return;
      }
      if stored {
        energy := energy + [EnergyRow(now.value, elapsed, watts)];
      }
    }

    /**
      Retention takes exactly the rows before the cutoff, from both tables: what is
      left and what is deleted add up.
    */
    method PruneOlderThan(cutoff: int) returns (deleted: nat)
      modifies this
      ensures rows == Where(old(rows), Since(cutoff)) && energy == Where(old(energy), EnergySince(cutoff))
      ensures forall r :: multiset(rows)[r] == if r.ts >= cutoff then multiset(old(rows))[r] else 0
      ensures forall r :: multiset(energy)[r] == if r.ts >= cutoff then multiset(old(energy))[r] else 0
      ensures deleted == (|old(rows)| - |rows|) + (|old(energy)| - |energy|)
      ensures Plus(SumOf(rows), SumOf(Where(old(rows), Not(Since(cutoff))))) == SumOf(old(rows))
      ensures old(Recorded(rows)) ==> Recorded(rows)
    {
      WhereMembers(rows, Since(cutoff));
      WhereKeeps(rows, Since(cutoff));
      WhereKeeps(energy, EnergySince(cutoff));
      var kept, keptEnergy := Where(rows, Since(cutoff)), Where(energy, EnergySince(cutoff));
      deleted := |rows| - |kept| + (|energy| - |keptEnergy|);
      rows, energy := kept, keptEnergy;
      RetentionAddsUp(old(rows), rows, cutoff);
    }
  }

  lemma RetentionAddsUp(before: seq<Row>, after: seq<Row>, cutoff: int)
    requires after == Where(before, Since(cutoff))
    ensures Plus(SumOf(after), SumOf(Where(before, Not(Since(cutoff))))) == SumOf(before)
  {
    SumSplit(before, Since(cutoff));
  }

  // ----- Selecting rows -----

  function Where<T>(rows: seq<T>, p: T -> bool): (r: seq<T>)
    ensures |r| <= |rows|
  {
    if rows == [] then []
    else if p(rows[0]) then [rows[0]] + Where(rows[1..], p)
    else Where(rows[1..], p)
  }

  function Since(ts: int): Row -> bool {
    (r: Row) => r.ts >= ts
  }

  function EnergySince(ts: int): EnergyRow -> bool {
    (r: EnergyRow) => r.ts >= ts
  }

  function Not(p: Row -> bool): Row -> bool {
    (r: Row) => !p(r)
  }

  function KeyIs<K(==)>(key: Row -> K, k: K): Row -> bool {
    (r: Row) => key(r) == k
  }

  lemma {:induction false} WhereMembers<T>(rows: seq<T>, p: T -> bool)
    ensures forall r :: r in Where(rows, p) <==> r in rows && p(r)
  {
    if rows != [] {
      WhereMembers(rows[1..], p);
    }
  }

  lemma {:induction false} WhereKeeps<T>(rows: seq<T>, p: T -> bool)
    ensures forall r :: multiset(Where(rows, p))[r] == if p(r) then multiset(rows)[r] else 0
  {
    if rows != [] {
      WhereKeeps(rows[1..], p);
      assert rows == [rows[0]] + rows[1..];
    }
  }

  /** Each total is the sum of its own column. */
  lemma {:induction false} ColumnsAddUp(rows: seq<Row>)
    ensures var t := SumOf(rows);
            && t.requests == |rows|
            && t.input == Sum(seq(|rows|, i requires 0 <= i < |rows| => rows[i].input))
            && t.output == Sum(seq(|rows|, i requires 0 <= i < |rows| => rows[i].output))
            && t.cached == Sum(seq(|rows|, i requires 0 <= i < |rows| => rows[i].cached))
            && t.total == Sum(seq(|rows|, i requires 0 <= i < |rows| => rows[i].total))
  {
    if rows != [] {
      var rest := rows[1..];
      ColumnsAddUp(rest);
      assert seq(|rows|, i requires 0 <= i < |rows| => rows[i].input)[1..]
          == seq(|rest|, i requires 0 <= i < |rest| => rest[i].input);
      assert seq(|rows|, i requires 0 <= i < |rows| => rows[i].output)[1..]
          == seq(|rest|, i requires 0 <= i < |rest| => rest[i].output);
      assert seq(|rows|, i requires 0 <= i < |rows| => rows[i].cached)[1..]
          == seq(|rest|, i requires 0 <= i < |rest| => rest[i].cached);
      assert seq(|rows|, i requires 0 <= i < |rows| => rows[i].total)[1..]
          == seq(|rest|, i requires 0 <= i < |rest| => rest[i].total);
    }
  }

  lemma SumCons(r: Row, rows: seq<Row>)
    ensures SumOf([r] + rows) == Plus(One(r), SumOf(rows))
  {
    assert ([r] + rows)[1..] == rows;
  }

  lemma PlusZero(t: Totals)
    ensures Plus(ZERO, t) == t
  {
    var Totals(requests, input, output, cached, total) := t;
  }

  lemma PlusEither(a: Totals, b: Totals, c: Totals)
    ensures Plus(a, Plus(b, c)) == Plus(Plus(a, b), c) == Plus(b, Plus(a, c))
  {
  }

  lemma SplitCons(rows: seq<Row>, p: Row -> bool)
    requires rows != []
    requires SumOf(rows[1..]) == Plus(SumOf(Where(rows[1..], p)), SumOf(Where(rows[1..], Not(p))))
    ensures SumOf(rows) == Plus(SumOf(Where(rows, p)), SumOf(Where(rows, Not(p))))
  {
    var r := rows[0];
    var yes, no := Where(rows[1..], p), Where(rows[1..], Not(p));
    PlusEither(One(r), SumOf(yes), SumOf(no));
    SumCons(r, if p(r) then yes else no);
  }

  lemma {:induction false} SumSplit(rows: seq<Row>, p: Row -> bool)
    ensures SumOf(rows) == Plus(SumOf(Where(rows, p)), SumOf(Where(rows, Not(p))))
  {
    if rows != [] {
      SumSplit(rows[1..], p);
      SplitCons(rows, p);
    }
  }

  lemma {:induction false} WhereOther<K>(rows: seq<Row>, key: Row -> K, gone: K, k: K)
    requires k != gone
    ensures Where(Where(rows, Not(KeyIs(key, gone))), KeyIs(key, k)) == Where(rows, KeyIs(key, k))
  {
    if rows != [] {
      WhereOther(rows[1..], key, gone, k);
      var rest := Where(rows[1..], Not(KeyIs(key, gone)));
      if key(rows[0]) == gone {
        assert Where(rows, Not(KeyIs(key, gone))) == rest;
      } else {
        assert Where(rows, Not(KeyIs(key, gone))) == [rows[0]] + rest;
        assert ([rows[0]] + rest)[1..] == rest;
      }
    }
  }

  // ----- Grouping -----

  /**
   * `groups` is a GROUP BY of `rows`, in any order: one row per key that occurs, carrying the
   * aggregates of exactly the rows with that key.
   */
  ghost predicate Grouping<K(!new)>(groups: seq<Group<K>>, rows: seq<Row>, key: Row -> K) {
    && (forall i, j :: 0 <= i < j < |groups| ==> groups[i].key != groups[j].key)
    && (forall g :: g in groups ==> g.totals == SumOf(Where(rows, KeyIs(key, g.key))))
    && (forall g :: g in groups ==> Where(rows, KeyIs(key, g.key)) != [])
    && (forall r :: r in rows ==> exists g :: g in groups && g.key == key(r))
  }

  /** Taking one group away leaves a grouping of the other rows. */
  lemma PeelGroup<K(!new)>(groups: seq<Group<K>>, rows: seq<Row>, key: Row -> K)
    requires Grouping(groups, rows, key) && groups != []
    ensures Grouping(groups[1..], Where(rows, Not(KeyIs(key, groups[0].key))), key)
  {
    var k := groups[0].key;
    var rest := Where(rows, Not(KeyIs(key, k)));
    forall g | g in groups[1..]
      ensures g.totals == SumOf(Where(rest, KeyIs(key, g.key))) && Where(rest, KeyIs(key, g.key)) != []
    {
      WhereOther(rows, key, k, g.key);
    }
    WhereMembers(rows, Not(KeyIs(key, k)));
    forall r | r in rest ensures exists g :: g in groups[1..] && g.key == key(r) {
      var g :| g in groups && g.key == key(r);
      assert g in groups[1..];
    }
  }

  lemma NoGroupsNoRows<K(!new)>(groups: seq<Group<K>>, rows: seq<Row>, key: Row -> K)
    requires Grouping(groups, rows, key) && groups == []
    ensures rows == []
  {
    if rows != [] {
      var r := First(rows);
      assert false;
    }
  }

  /** Nothing is lost or counted twice by any grouping. */
  lemma {:induction false} GroupingConserves<K(!new)>(groups: seq<Group<K>>, rows: seq<Row>, key: Row -> K)
    requires Grouping(groups, rows, key)
    ensures SumOfGroups(groups) == SumOf(rows)
    decreases |groups|
  {
    if groups == [] {
      NoGroupsNoRows(groups, rows, key);
    } else {
      PeelGroup(groups, rows, key);
      GroupingConserves(groups[1..], Where(rows, Not(KeyIs(key, groups[0].key))), key);
      SumSplit(rows, KeyIs(key, groups[0].key));
    }
  }

  /** A report is determined up to the order of its rows. */
  lemma GroupingUnique<K(!new)>(a: seq<Group<K>>, b: seq<Group<K>>, rows: seq<Row>, key: Row -> K)
    requires Grouping(a, rows, key) && Grouping(b, rows, key)
    ensures forall g :: g in a <==> g in b
  {
    forall g | g in a ensures g in b {
      SharedGroup(a, b, rows, key, g);
    }
    forall g | g in b ensures g in a {
      SharedGroup(b, a, rows, key, g);
    }
  }

  lemma SharedGroup<K(!new)>(a: seq<Group<K>>, b: seq<Group<K>>, rows: seq<Row>, key: Row -> K, g: Group<K>)
    requires Grouping(a, rows, key) && Grouping(b, rows, key) && g in a
    ensures g in b
  {
    WhereMembers(rows, KeyIs(key, g.key));
    var r := First(Where(rows, KeyIs(key, g.key)));
    var h :| h in b && h.key == key(r);
    assert h == g;
  }

  lemma WhereDrops(rows: seq<Row>, p: Row -> bool)
    requires rows != [] && !p(rows[0])
    ensures |Where(rows, p)| < |rows|
  {
  }

  /** GROUP BY, keys in order of first appearance. */
  function GroupBy<K(==)>(rows: seq<Row>, key: Row -> K): seq<Group<K>>
    decreases |rows|
  {
    if rows == [] then []
    else
      var mine := KeyIs(key, key(rows[0]));
      WhereDrops(rows, Not(mine));
      [Group(key(rows[0]), SumOf(Where(rows, mine)))] + GroupBy(Where(rows, Not(mine)), key)
  }

  /** Putting a peeled group back. */
  lemma AttachGroup<K(!new)>(g: Group<K>, groups: seq<Group<K>>, rows: seq<Row>, key: Row -> K)
    requires Grouping(groups, Where(rows, Not(KeyIs(key, g.key))), key)
    requires Where(rows, KeyIs(key, g.key)) != [] && g.totals == SumOf(Where(rows, KeyIs(key, g.key)))
    ensures Grouping([g] + groups, rows, key)
  {
    var rest := Where(rows, Not(KeyIs(key, g.key)));
    WhereMembers(rows, Not(KeyIs(key, g.key)));
    forall h | h in groups
      ensures h.key != g.key
      ensures h.totals == SumOf(Where(rows, KeyIs(key, h.key))) && Where(rows, KeyIs(key, h.key)) != []
    {
      WhereMembers(rest, KeyIs(key, h.key));
      var r := First(Where(rest, KeyIs(key, h.key)));
      WhereOther(rows, key, g.key, h.key);
    }
    forall r | r in rows ensures exists h :: h in [g] + groups && h.key == key(r) {
      if key(r) == g.key {
        assert g in [g] + groups;
      } else {
        assert r in rest;
        var h :| h in groups && h.key == key(r);
        assert h in [g] + groups;
      }
    }
  }

  lemma {:induction false} GroupByCorrect<K(!new)>(rows: seq<Row>, key: Row -> K)
    ensures Grouping(GroupBy(rows, key), rows, key)
    decreases |rows|
  {
    if rows != [] {
      var mine := KeyIs(key, key(rows[0]));
      WhereDrops(rows, Not(mine));
      GroupByCorrect(Where(rows, Not(mine)), key);
      var g := Group(key(rows[0]), SumOf(Where(rows, mine)));
      AttachGroup(g, GroupBy(Where(rows, Not(mine)), key), rows, key);
    }
  }

  /** The rows behind one row of a report. */
  lemma GroupRows<K(!new)>(groups: seq<Group<K>>, rows: seq<Row>, p: Row -> bool, key: Row -> K, g: Group<K>)
    returns (mine: seq<Row>)
    requires Grouping(groups, Where(rows, p), key) && g in groups
    ensures mine != [] && g.totals == SumOf(mine)
    ensures forall r :: multiset(mine)[r] == if p(r) && key(r) == g.key then multiset(rows)[r] else 0
  {
    mine := Where(Where(rows, p), KeyIs(key, g.key));
    WhereKeeps(rows, p);
    WhereKeeps(Where(rows, p), KeyIs(key, g.key));
  }

  // ----- Cost of a report -----

  function RowCost(p: Pricing, r: Row): real {
    CostOf(p, r.model, r.input, r.output, r.cached).total
  }

  function CostOfRows(p: Pricing, rows: seq<Row>): real {
    if rows == [] then 0.0 else RowCost(p, rows[0]) + CostOfRows(p, rows[1..])
  }

  function GroupCost<K>(p: Pricing, g: Group<K>, modelOf: K -> string): real {
    CostOf(p, modelOf(g.key), g.totals.input, g.totals.output, g.totals.cached).total
  }

  /** A row is priced by its own model and its own counts. */
  lemma OneRowCosts(p: Pricing, r: Row)
    ensures CostOfRows(p, [r]) == CostOf(p, r.model, r.input, r.output, r.cached).total
    ensures CostOfRows(p, []) == 0.0
  {
    assert [r][1..] == [];
  }

  /** The grand total a report accumulates. */
  function CostOfGroups<K>(p: Pricing, groups: seq<Group<K>>, modelOf: K -> string): real {
    if groups == [] then 0.0 else GroupCost(p, groups[0], modelOf) + CostOfGroups(p, groups[1..], modelOf)
  }

  /** The database reports no integer overflow for this row of a report. */
  predicate Fits(t: Totals) {
    t.input <= I64_MAX && t.output <= I64_MAX
  }

  lemma {:induction false} SumCountable(rows: seq<Row>)
    requires Recorded(rows)
    ensures var t := SumOf(rows); 0 <= t.cached <= t.input && 0 <= t.output
  {
    if rows != [] {
      assert Recordable(rows[0]);
      SumCountable(rows[1..]);
    }
  }

  lemma {:induction false} CostSplit(p: Pricing, rows: seq<Row>, q: Row -> bool)
    ensures CostOfRows(p, rows) == CostOfRows(p, Where(rows, q)) + CostOfRows(p, Where(rows, Not(q)))
  {
    if rows != [] {
      CostSplit(p, rows[1..], q);
      if q(rows[0]) {
        assert Where(rows, q) == [rows[0]] + Where(rows[1..], q);
        assert Where(rows, Not(q)) == Where(rows[1..], Not(q));
      } else {
        assert Where(rows, q) == Where(rows[1..], q);
        assert Where(rows, Not(q)) == [rows[0]] + Where(rows[1..], Not(q));
      }
    }
  }

  lemma ZeroCost(p: Pricing, model: string)
    ensures CostOf(p, model, 0, 0, 0).total == 0.0
  {
    CostIsAdditive(p, model, 0, 0, 0, 0, 0, 0);
  }

  /** The price of one model's totals is the sum of its rows' prices. */
  lemma {:induction false} CostOfSum(p: Pricing, model: string, rows: seq<Row>)
    requires Recorded(rows) && Fits(SumOf(rows))
    requires forall r :: r in rows ==> r.model == model
    ensures var t := SumOf(rows); CostOf(p, model, t.input, t.output, t.cached).total == CostOfRows(p, rows)
  {
    if rows == [] {
      ZeroCost(p, model);
    } else {
      var r, t := rows[0], SumOf(rows[1..]);
      assert Recordable(r);
      SumCountable(rows[1..]);
      CostOfSum(p, model, rows[1..]);
      CostIsAdditive(p, model, r.input, r.output, r.cached, t.input, t.output, t.cached);
    }
  }

  /** However the rows are grouped, as long as a group has one model, the report costs the same. */
  lemma {:induction false} GroupingKeepsCost<K(!new)>(
    p: Pricing, groups: seq<Group<K>>, rows: seq<Row>, key: Row -> K, modelOf: K -> string)
    requires Grouping(groups, rows, key) && Recorded(rows)
    requires forall g :: g in groups ==> Fits(g.totals)
    requires forall r :: r in rows ==> modelOf(key(r)) == r.model
    ensures CostOfGroups(p, groups, modelOf) == CostOfRows(p, rows)
    decreases |groups|
  {
    if groups == [] {
      NoGroupsNoRows(groups, rows, key);
    } else {
      var mine := KeyIs(key, groups[0].key);
      PeelGroup(groups, rows, key);
      WhereMembers(rows, mine);
      WhereMembers(rows, Not(mine));
      assert groups[0] in groups;
      CostOfSum(p, modelOf(groups[0].key), Where(rows, mine));
      GroupingKeepsCost(p, groups[1..], Where(rows, Not(mine)), key, modelOf);
      CostSplit(p, rows, mine);
    }
  }

  // ----- The reports -----

  function ByModel(): Row -> string {
    (r: Row) => r.model
  }

  /** Calendar day in the server's time zone. */
  type Calendar = int -> string

  function ByDay(day: Calendar): Row -> (string, string) {
    (r: Row) => (day(r.ts), r.model)
  }

  function Itself(): string -> string {
    (m: string) => m
  }

  function Second(): ((string, string)) -> string {
    (k: (string, string)) => k.1
  }

  ghost predicate Stats(report: seq<Group<string>>, rows: seq<Row>, since: int) {
    Grouping(report, Where(rows, Since(since)), ByModel())
  }

  ghost predicate Daily(report: seq<Group<(string, string)>>, rows: seq<Row>, since: int, day: Calendar) {
    Grouping(report, Where(rows, Since(Max(since, 0))), ByDay(day))
  }

  /** A row of the model report adds up the rows of that model from `since` on. */
  lemma StatsExact(report: seq<Group<string>>, rows: seq<Row>, since: int, g: Group<string>)
    returns (mine: seq<Row>)
    requires Stats(report, rows, since) && g in report
    ensures mine != [] && g.totals == SumOf(mine)
    ensures forall r :: multiset(mine)[r] == if r.ts >= since && r.model == g.key then multiset(rows)[r] else 0
  {
    mine := GroupRows(report, rows, Since(since), ByModel(), g);
  }

  /** A row of the daily report adds up the rows of that day and model. */
  lemma DailyExact(report: seq<Group<(string, string)>>, rows: seq<Row>, since: int, day: Calendar,
                   g: Group<(string, string)>)
    returns (mine: seq<Row>)
    requires Daily(report, rows, since, day) && g in report
    ensures mine != [] && g.totals == SumOf(mine)
    ensures forall r ::
              multiset(mine)[r] == if r.ts >= since && r.ts >= 0 && day(r.ts) == g.key.0 && r.model == g.key.1
                                   then multiset(rows)[r] else 0
  {
    mine := GroupRows(report, rows, Since(Max(since, 0)), ByDay(day), g);
  }

  lemma {:induction false} SinceEpoch(rows: seq<Row>, since: int)
    requires Recorded(rows)
    ensures Where(rows, Since(Max(since, 0))) == Where(rows, Since(since))
  {
    if rows != [] {
      assert Recordable(rows[0]);
      SinceEpoch(rows[1..], since);
    }
  }

  /** The model totals and the day-by-day totals of one table agree, in tokens and in money. */
  lemma ReportsAgree(p: Pricing, rows: seq<Row>, since: int, day: Calendar,
                     models: seq<Group<string>>, days: seq<Group<(string, string)>>)
    requires Recorded(rows) && Stats(models, rows, since) && Daily(days, rows, since, day)
    requires (forall g :: g in models ==> Fits(g.totals)) && (forall g :: g in days ==> Fits(g.totals))
    ensures SumOfGroups(models) == SumOfGroups(days) == SumOf(Where(rows, Since(since)))
    ensures CostOfGroups(p, models, Itself()) == CostOfGroups(p, days, Second())
         == CostOfRows(p, Where(rows, Since(since)))
  {
    SinceEpoch(rows, since);
    var chosen := Where(rows, Since(since));
    WhereMembers(rows, Since(since));
    GroupingConserves(models, chosen, ByModel());
    GroupingConserves(days, chosen, ByDay(day));
    GroupingKeepsCost(p, models, chosen, ByModel(), Itself());
    GroupingKeepsCost(p, days, chosen, ByDay(day), Second());
  }

  // ----- Per-user report -----

  datatype Account = Generic | DeletedKey(id: int) | Owner(userId: int)

  /** The two left joins and the CASE the report groups by. */
  function AccountOf(db: Db, apiKeyId: Option<int>): Account {
    if apiKeyId.None? then Generic
    else if apiKeyId.value in db.attribution && db.attribution[apiKeyId.value].userId in db.users
    then Owner(db.attribution[apiKeyId.value].userId)
    else DeletedKey(apiKeyId.value)
  }

  function ByAccount(db: Db): Row -> Account {
    (r: Row) => AccountOf(db, r.apiKeyId)
  }

  // ----- Labels as shown -----

  function Digits(n: nat): (text: string)
    ensures text != [] && forall i :: 0 <= i < |text| ==> '0' <= text[i] <= '9'
  {
    if n < 10 then [(n + 48) as char] else Digits(n / 10) + [(n % 10 + 48) as char]
  }

  /** What a row of digits reads as. */
  function Reading(text: string): int {
    if text == [] then 0
    else Reading(text[..|text| - 1]) * 10 + (text[|text| - 1] as int - 48)
  }

  lemma {:induction false} DigitsRead(n: nat)
    ensures Reading(Digits(n)) == n
  {
    if n < 10 {
      var text := Digits(n);
      assert text[..0] == [];
    } else {
      DigitsRead(n / 10);
      var text := Digits(n);
      assert text[..|text| - 1] == Digits(n / 10);
    }
  }

  function Decimal(n: int): (text: string)
    ensures text != []
  {
    if n < 0 then "-" + Digits(-n) else Digits(n)
  }

  lemma DigitsInjective(m: nat, n: nat)
    requires Digits(m) == Digits(n)
    ensures m == n
  {
    DigitsRead(m);
    DigitsRead(n);
  }

  lemma SignShows(n: int)
    ensures Decimal(n)[0] == '-' <==> n < 0
    ensures n < 0 ==> Decimal(n)[1..] == Digits(-n)
  {
    if n >= 0 {
      assert '0' <= Digits(n)[0];
    }
  }

  lemma DecimalInjective(m: int, n: int)
    requires Decimal(m) == Decimal(n)
    ensures m == n
  {
    SignShows(m);
    SignShows(n);
    if m < 0 {
      DigitsInjective(-m, -n);
    } else {
      DigitsInjective(m, n);
    }
  }

  const KEY_PREFIX := "(deleted key #"

  /** The text shown for usage of a key whose account is gone. */
  function KeyText(id: int): string {
    KEY_PREFIX + Decimal(id) + ")"
  }

  lemma KeyTextInjective(m: int, n: int)
    requires KeyText(m) == KeyText(n)
    ensures m == n
  {
    var k := |KEY_PREFIX|;
    assert KeyText(m)[k..|KeyText(m)| - 1] == Decimal(m);
    assert KeyText(n)[k..|KeyText(n)| - 1] == Decimal(n);
    DecimalInjective(m, n);
  }

  function LabelOf(db: Db, a: Account): string
    requires a.Owner? ==> a.userId in db.users
  {
    match a
    case Generic => "GENERIC"
    case DeletedKey(id) => KeyText(id)
    case Owner(u) => db.users[u].username
  }

  ghost predicate StatsByUser(report: seq<Group<Account>>, db: Db, rows: seq<Row>, since: int) {
    Grouping(report, Where(rows, Since(since)), ByAccount(db))
  }

  /**
   * A row of the per-user report adds up keyless requests, the requests of one user's keys, or
   * those of one key whose owner is gone.
   */
  lemma UsersExact(report: seq<Group<Account>>, db: Db, rows: seq<Row>, since: int, g: Group<Account>)
    returns (mine: seq<Row>)
    requires StatsByUser(report, db, rows, since) && g in report
    ensures mine != [] && g.totals == SumOf(mine)
    ensures forall r ::
              multiset(mine)[r] == if r.ts >= since && BelongsTo(db, r.apiKeyId, g.key) then multiset(rows)[r] else 0
  {
    mine := GroupRows(report, rows, Since(since), ByAccount(db), g);
  }

  /** Whose usage a row with this key id is, by account. */
  ghost predicate BelongsTo(db: Db, apiKeyId: Option<int>, a: Account) {
    match a
    case Generic => apiKeyId == None
    case Owner(u) => apiKeyId.Some? && u in db.users && KeyOf(db, apiKeyId.value, u)
    case DeletedKey(k) => apiKeyId == Some(k) && forall u :: u in db.users ==> !KeyOf(db, k, u)
  }

  ghost predicate KeyOf(db: Db, k: int, u: int) {
    k in db.attribution && db.attribution[k].userId == u
  }

  /** The per-user report conserves the table, and each of its rows is an account that exists. */
  lemma UsersAddUp(report: seq<Group<Account>>, db: Db, rows: seq<Row>, since: int)
    requires StatsByUser(report, db, rows, since)
    ensures SumOfGroups(report) == SumOf(Where(rows, Since(since)))
    ensures forall g :: g in report && g.key.Owner? ==> g.key.userId in db.users
  {
    GroupingConserves(report, Where(rows, Since(since)), ByAccount(db));
    forall g | g in report && g.key.Owner? ensures g.key.userId in db.users {
      var chosen := Where(rows, Since(since));
      var mine := Where(chosen, KeyIs(ByAccount(db), g.key));
      WhereMembers(chosen, KeyIs(ByAccount(db), g.key));
      var r := First(mine);
      assert ByAccount(db)(r) == g.key;
    }
  }

  /** User `a` goes by the text shown for `b`, which is no user. */
  predicate Shadows(db: Db, a: Account, b: Account)
    requires a.Owner? ==> a.userId in db.users
  {
    && a.Owner?
    && ((b.Generic? && db.users[a.userId].username == "GENERIC")
        || (b.DeletedKey? && db.users[a.userId].username == KeyText(b.id)))
  }

  /**
   * Two accounts show the same label exactly when one is a user who goes by the text of the
   * other: GENERIC for keyless traffic, or the text of a deleted key. Usernames are unique, and
   * so are the texts of deleted keys.
   */
  lemma LabelsCollideExactly(db: Db, a: Account, b: Account)
    requires Inv(db) && a != b
    requires (a.Owner? ==> a.userId in db.users) && (b.Owner? ==> b.userId in db.users)
    ensures LabelOf(db, a) == LabelOf(db, b) <==> Shadows(db, a, b) || Shadows(db, b, a)
  {
    if a.DeletedKey? && b.DeletedKey? && KeyText(a.id) == KeyText(b.id) {
      KeyTextInjective(a.id, b.id);
    }
    assert forall id :: KeyText(id)[0] == '(';
    assert "GENERIC"[0] == 'G';
  }

  /** Every request since the epoch shows up in the per-user report, under its account. */
  lemma RowShown(report: seq<Group<Account>>, db: Db, rows: seq<Row>, r: Row) returns (g: Group<Account>)
    requires StatsByUser(report, db, rows, 0) && r in rows && r.ts >= 0
    ensures g in report && g.key == AccountOf(db, r.apiKeyId)
  {
    WhereMembers(rows, Since(0));
    assert r in Where(rows, Since(0)) && ByAccount(db)(r) == AccountOf(db, r.apiKeyId);
    g :| g in report && g.key == ByAccount(db)(r);
  }

  /** A first start, a user called GENERIC, and a key for it. */
  function Shadowing(admin: User): Db {
    var named := CreateUser(Start(EMPTY, admin, false), User("GENERIC", "hash", false, 0)).0;
    InsertKey(named, ApiKey(2, None, "key", "sk", 0)).0
  }

  lemma ShadowingReachable(admin: User)
    requires admin.username != "GENERIC"
    ensures var db := Shadowing(admin);
            && Reachable(db)
            && 2 in db.users && db.users[2].username == "GENERIC"
            && 1 in db.attribution && db.attribution[1].userId == 2
  {
    var first := Start(EMPTY, admin, false);
    BootstrapInv(admin, false);
    var create, insert := Create(User("GENERIC", "hash", false, 0)), Insert(ApiKey(2, None, "key", "sk", 0));
    BackfillIsNoOp(EMPTY);
    assert first.nextUser == 2 && first.nextKey == 1 && first.keys == map[] && first.attribution == map[];
    assert !UsernameTaken(first, "GENERIC");
    var ops := [create, insert];
    assert ops[1..] == [insert] && [insert][1..] == [];
    assert Run(first, ops) == Run(Step(first, create), [insert]) == Step(Step(first, create), insert);
    assert Shadowing(admin) == Run(first, ops);
  }

  /**
   * The labels do collide: in that database, with one keyless request and one with the key, every
   * per-user report has two rows that show the same label.
   */
  lemma LabelsCollide(admin: User, report: seq<Group<Account>>)
    requires admin.username != "GENERIC"
    requires var keyless := Row(0, "m", "/v1/chat/completions", 1, 1, 0, 2, None);
             StatsByUser(report, Shadowing(admin), [keyless, keyless.(apiKeyId := Some(1))], 0)
    ensures exists a, b :: a in report && b in report && a.key == Generic && b.key == Owner(2)
              && 2 in Shadowing(admin).users
              && LabelOf(Shadowing(admin), a.key) == LabelOf(Shadowing(admin), b.key)
  {
    ShadowingReachable(admin);
    var db := Shadowing(admin);
    var keyless := Row(0, "m", "/v1/chat/completions", 1, 1, 0, 2, None);
    var keyed := keyless.(apiKeyId := Some(1));
    var rows := [keyless, keyed];
    var a := RowShown(report, db, rows, keyless);
    var b := RowShown(report, db, rows, keyed);
  }

  const BOB := User("bob", "hash", false, 0)

  /** A second user gets a key and is deleted, then the first admin gets a key. */
  const CHURN: seq<Op> := [
    Create(BOB), Insert(ApiKey(2, None, "one", "sk", 0)), Delete(2), Insert(ApiKey(1, None, "two", "sk", 0))]

  lemma RunFour(db: Db, a: Op, b: Op, c: Op, d: Op)
    ensures Run(db, [a, b, c, d]) == Step(Step(Step(Step(db, a), b), c), d)
  {
    assert [a, b, c, d][1..] == [b, c, d] && [b, c, d][1..] == [c, d] && [c, d][1..] == [d] && [d][1..] == [];
    assert Run(Step(Step(Step(db, a), b), c), [d]) == Step(Step(Step(Step(db, a), b), c), d);
    assert Run(Step(Step(db, a), b), [c, d]) == Run(Step(Step(Step(db, a), b), c), [d]);
    assert Run(Step(db, a), [b, c, d]) == Run(Step(Step(db, a), b), [c, d]);
  }

  lemma ChurnLeaves(admin: User)
    requires admin.username != BOB.username
    ensures var db := Run(Start(EMPTY, admin, false), CHURN);
            && Reachable(db)
            && db.users == map[1 := admin.(isAdmin := true)]
            && db.attribution == map[2 := Attribution(1, None, "sk")]
  {
    var first := Start(EMPTY, admin, false);
    BootstrapInv(admin, false);
    BackfillIsNoOp(EMPTY);
    assert first == Db(map[1 := admin.(isAdmin := true)], map[], map[], 2, 1);
    RunFour(first, CHURN[0], CHURN[1], CHURN[2], CHURN[3]);
    assert CHURN == [CHURN[0], CHURN[1], CHURN[2], CHURN[3]];
    var created := Step(first, CHURN[0]);
    assert !UsernameTaken(first, BOB.username);
    assert created == Db(first.users[2 := BOB], map[], map[], 3, 1);
    var keyed := Step(created, CHURN[1]);
    assert keyed == Db(created.users, map[1 := CHURN[1].key], map[1 := Attribution(2, None, "sk")], 3, 2);
    var deleted := Step(keyed, CHURN[2]);
    assert deleted.users == first.users && deleted.keys == map[] && deleted.attribution == map[];
    assert deleted == Db(first.users, map[], map[], 3, 2);
    assert !KeyHashTaken(deleted, "two");
    var last := Step(deleted, CHURN[3]);
    assert last.users == first.users && last.attribution == map[2 := Attribution(1, None, "sk")];
  }

  /**
   * The other kind happens too, with nobody called GENERIC: the configured name of the first admin
   * is not checked, so it can be the text of the key that a deleted user leaves behind.
   */
  lemma DeletedKeyLabelsCollide(admin: User, report: seq<Group<Account>>)
    requires admin.username == KeyText(1)
    requires var row := Row(0, "m", "/v1/chat/completions", 1, 1, 0, 2, Some(1));
             StatsByUser(report, Run(Start(EMPTY, admin, false), CHURN), [row, row.(apiKeyId := Some(2))], 0)
    ensures var db := Run(Start(EMPTY, admin, false), CHURN);
            && Reachable(db)
            && (forall u :: u in db.users ==> db.users[u].username != "GENERIC")
            && 1 in db.users
            && exists a, b :: a in report && b in report && a.key == DeletedKey(1) && b.key == Owner(1)
                 && LabelOf(db, a.key) == LabelOf(db, b.key)
  {
    assert KeyText(1)[0] == '(' && BOB.username[0] == 'b' && "GENERIC"[0] == 'G';
    ChurnLeaves(admin);
    var db := Run(Start(EMPTY, admin, false), CHURN);
    var dangling := Row(0, "m", "/v1/chat/completions", 1, 1, 0, 2, Some(1));
    var owned := dangling.(apiKeyId := Some(2));
    var rows := [dangling, owned];
    var a := RowShown(report, db, rows, dangling);
    var b := RowShown(report, db, rows, owned);
  }

  /**
   * Usage of a key is reported under its creator through every later run, revoked or not, and
   * under the dangling key id from the moment that account is deleted; never under anyone else.
   */
  lemma UsageFollowsCreator(db: Db, key: ApiKey, ops: seq<Op>)
    requires Reachable(db) && InsertKey(db, key).1.Ok?
    ensures var k := InsertKey(db, key).1.value;
            var after := Run(InsertKey(db, key).0, ops);
            AccountOf(after, Some(k)) == if key.userId in after.users then Owner(key.userId) else DeletedKey(k)
  {
    AttributionExact(db, key, ops);
  }

  // ----- Five-minute buckets -----

  const BUCKETS: nat := 288

  function BucketOf(start: int): Row -> int {
    (r: Row) => if (r.ts - start) / 300 < BUCKETS - 1 then (r.ts - start) / 300 else BUCKETS - 1
  }

  /** Five minutes from `start + 300 * i` on; the last bucket also takes what comes after. */
  function Bucket(start: int, end: int, i: nat): Row -> bool {
    (r: Row) => start <= r.ts < end && start + 300 * i <= r.ts && (i < 287 ==> r.ts < start + 300 * (i + 1))
  }

  lemma BucketIs(start: int, end: int, i: nat, r: Row)
    requires start <= r.ts < end && i < BUCKETS
    ensures Bucket(start, end, i)(r) <==> BucketOf(start)(r) == i
  {
  }

  lemma {:induction false} BucketRows(rows: seq<Row>, start: int, end: int, i: nat)
    requires i < BUCKETS
    ensures Where(Where(rows, Within(start, end)), KeyIs(BucketOf(start), i)) == Where(rows, Bucket(start, end, i))
  {
    if rows != [] {
      BucketRows(rows[1..], start, end, i);
      var rest := Where(rows[1..], Within(start, end));
      if start <= rows[0].ts < end {
        BucketIs(start, end, i, rows[0]);
        assert Where(rows, Within(start, end)) == [rows[0]] + rest;
        assert ([rows[0]] + rest)[1..] == rest;
      }
    }
  }

  function Within(start: int, end: int): Row -> bool {
    (r: Row) => start <= r.ts < end
  }

  ghost predicate InOrder(sparse: seq<Group<int>>) {
    forall i, j :: 0 <= i < j < |sparse| ==> sparse[i].key < sparse[j].key
  }

  function Fill(sparse: seq<Group<int>>, i: nat): (all: seq<Group<int>>)
    requires i <= BUCKETS
    decreases BUCKETS - i, |sparse|
  {
    if i == BUCKETS then []
    else if sparse != [] && sparse[0].key == i then [sparse[0]] + Fill(sparse[1..], i + 1)
    else [Group(i, ZERO)] + Fill(sparse, i + 1)
  }

  lemma FillStep(sparse: seq<Group<int>>, idx: nat, i: nat)
    requires i < BUCKETS && idx <= |sparse|
    ensures Fill(sparse[idx..], i)
         == if idx < |sparse| && sparse[idx].key == i then [sparse[idx]] + Fill(sparse[idx + 1..], i + 1)
            else [Group(i, ZERO)] + Fill(sparse[idx..], i + 1)
  {
    if idx < |sparse| {
      assert sparse[idx..][0] == sparse[idx] && sparse[idx..][1..] == sparse[idx + 1..];
    }
  }

  /** What the loop has still to add once `all` is there. */
  ghost predicate Remaining(sparse: seq<Group<int>>, idx: nat, i: nat, all: seq<Group<int>>) {
    idx <= |sparse| && i <= BUCKETS && all + Fill(sparse[idx..], i) == Fill(sparse, 0)
  }

  lemma RemainingStep(sparse: seq<Group<int>>, idx: nat, i: nat, all: seq<Group<int>>)
    requires Remaining(sparse, idx, i, all) && i < BUCKETS
    ensures if idx < |sparse| && sparse[idx].key == i then Remaining(sparse, idx + 1, i + 1, all + [sparse[idx]])
            else Remaining(sparse, idx, i + 1, all + [Group(i, ZERO)])
  {
    FillStep(sparse, idx, i);
    if idx < |sparse| && sparse[idx].key == i {
      var rest := Fill(sparse[idx + 1..], i + 1);
      assert all + ([sparse[idx]] + rest) == all + [sparse[idx]] + rest;
    } else {
      var rest := Fill(sparse[idx..], i + 1);
      assert all + ([Group(i, ZERO)] + rest) == all + [Group(i, ZERO)] + rest;
    }
  }

  lemma RemainingEnds(sparse: seq<Group<int>>, idx: nat, all: seq<Group<int>>)
    requires Remaining(sparse, idx, BUCKETS, all)
    ensures all == Fill(sparse, 0)
  {
  }

  lemma RemainingStarts(sparse: seq<Group<int>>)
    ensures Remaining(sparse, 0, 0, [])
  {
    assert sparse[0..] == sparse;
  }

  method FillBuckets(sparse: seq<Group<int>>) returns (all: seq<Group<int>>)
    ensures all == Fill(sparse, 0)
    ensures |all| == BUCKETS && forall i :: 0 <= i < BUCKETS ==> all[i].key == i
  {
    all := [];
    var idx := 0;
    RemainingStarts(sparse);
    for i := 0 to BUCKETS
      invariant 0 <= idx <= |sparse|
      invariant Remaining(sparse, idx, i, all)
    {
      RemainingStep(sparse, idx, i, all);
      if idx < |sparse| && sparse[idx].key == i {
        all := all + [sparse[idx]];
        idx := idx + 1;
      } else {
        all := all + [Group(i, ZERO)];
      }
    }
    RemainingEnds(sparse, idx, all);
    FillShape(sparse, 0);
  }

  ghost predicate Indexed(sparse: seq<Group<int>>, i: nat) {
    InOrder(sparse) && forall g :: g in sparse ==> i <= g.key < BUCKETS
  }

  lemma IndexedTail(sparse: seq<Group<int>>, i: nat)
    requires Indexed(sparse, i) && i < BUCKETS
    ensures if sparse != [] && sparse[0].key == i then Indexed(sparse[1..], i + 1) else Indexed(sparse, i + 1)
  {
    if sparse != [] {
      assert forall j :: 0 < j < |sparse| ==> sparse[0].key < sparse[j].key;
    }
  }

  lemma IndexedEnds(sparse: seq<Group<int>>)
    requires Indexed(sparse, BUCKETS)
    ensures sparse == []
  {
    if sparse != [] {
      var g := First(sparse);
      assert false;
    }
  }

  /** One bucket per index, in order, whatever the query returned. */
  lemma {:induction false} FillShape(sparse: seq<Group<int>>, i: nat)
    requires i <= BUCKETS
    ensures |Fill(sparse, i)| == BUCKETS - i
    ensures forall j :: 0 <= j < BUCKETS - i ==> Fill(sparse, i)[j].key == i + j
    decreases BUCKETS - i
  {
    if i < BUCKETS {
      FillShape(if sparse != [] && sparse[0].key == i then sparse[1..] else sparse, i + 1);
    }
  }

  /** `all` is `sparse` with zero buckets put in between. */
  ghost predicate Padded(all: seq<Group<int>>, sparse: seq<Group<int>>) {
    if all == [] then sparse == []
    else
      || (all[0].totals == ZERO && Padded(all[1..], sparse))
      || (sparse != [] && all[0] == sparse[0] && Padded(all[1..], sparse[1..]))
  }

  lemma PaddedCons(g: Group<int>, all: seq<Group<int>>, sparse: seq<Group<int>>)
    requires || (g.totals == ZERO && Padded(all, sparse))
             || (sparse != [] && g == sparse[0] && Padded(all, sparse[1..]))
    ensures Padded([g] + all, sparse)
  {
    assert ([g] + all)[1..] == all;
  }

  lemma {:induction false} FillPads(sparse: seq<Group<int>>, i: nat)
    requires i <= BUCKETS && Indexed(sparse, i)
    ensures Padded(Fill(sparse, i), sparse)
    decreases BUCKETS - i
  {
    if i == BUCKETS {
      IndexedEnds(sparse);
    } else {
      IndexedTail(sparse, i);
      if sparse != [] && sparse[0].key == i {
        FillPads(sparse[1..], i + 1);
        PaddedCons(sparse[0], Fill(sparse[1..], i + 1), sparse);
      } else {
        FillPads(sparse, i + 1);
        PaddedCons(Group(i, ZERO), Fill(sparse, i + 1), sparse);
      }
    }
  }

  lemma {:induction false} PaddedSum(all: seq<Group<int>>, sparse: seq<Group<int>>)
    requires Padded(all, sparse)
    ensures SumOfGroups(all) == SumOfGroups(sparse)
  {
    if all != [] {
      if all[0].totals == ZERO && Padded(all[1..], sparse) {
        PaddedSum(all[1..], sparse);
        PlusZero(SumOfGroups(all[1..]));
      } else {
        PaddedSum(all[1..], sparse[1..]);
      }
    }
  }

  lemma {:induction false} PaddedMembers(all: seq<Group<int>>, sparse: seq<Group<int>>, g: Group<int>)
    requires Padded(all, sparse)
    ensures g in sparse ==> g in all
    ensures g in all ==> g in sparse || g.totals == ZERO
  {
    if all != [] {
      if all[0].totals == ZERO && Padded(all[1..], sparse) {
        PaddedMembers(all[1..], sparse, g);
      } else {
        PaddedMembers(all[1..], sparse[1..], g);
      }
    }
  }

  /** Every bucket of the query is there; a bucket filled in is zero and its index was not queried. */
  lemma FillMembers(sparse: seq<Group<int>>, g: Group<int>)
    requires Indexed(sparse, 0)
    ensures g in sparse ==> g in Fill(sparse, 0)
    ensures g in Fill(sparse, 0) ==> g in sparse || (g.totals == ZERO && forall h :: h in sparse ==> h.key != g.key)
  {
    FillPads(sparse, 0);
    FillShape(sparse, 0);
    var all := Fill(sparse, 0);
    PaddedMembers(all, sparse, g);
    if g in all && g !in sparse {
      forall h | h in sparse ensures h.key != g.key {
        PaddedMembers(all, sparse, h);
        assert h in all;
      }
    }
  }

  lemma FillSum(sparse: seq<Group<int>>)
    requires Indexed(sparse, 0)
    ensures SumOfGroups(Fill(sparse, 0)) == SumOfGroups(sparse)
  {
    FillPads(sparse, 0);
    PaddedSum(Fill(sparse, 0), sparse);
  }

  ghost predicate BucketQuery(sparse: seq<Group<int>>, rows: seq<Row>, start: int, end: int) {
    Grouping(sparse, Where(rows, Within(start, end)), BucketOf(start)) && InOrder(sparse)
  }

  /**
   * The dashboard's day: 288 buckets, the i-th carrying exactly the totals of the rows that
   * fall in it (late rows of a long day fall in the last), together all rows of the day.
   */
  lemma BucketsExact(sparse: seq<Group<int>>, rows: seq<Row>, start: int, end: int)
    requires BucketQuery(sparse, rows, start, end)
    ensures var all, day := Fill(sparse, 0), Where(rows, Within(start, end));
            && |all| == BUCKETS
            && (forall i :: 0 <= i < BUCKETS ==>
                  all[i] == Group(i, SumOf(Where(rows, Bucket(start, end, i)))))
            && SumOfGroups(all) == SumOf(day)
            && (forall r :: multiset(day)[r] == if start <= r.ts < end then multiset(rows)[r] else 0)
  {
    var all, day := Fill(sparse, 0), Where(rows, Within(start, end));
    QueryIndexed(sparse, rows, start, end);
    FillShape(sparse, 0);
    FillSum(sparse);
    GroupingConserves(sparse, day, BucketOf(start));
    AllBuckets(sparse, day, BucketOf(start), all);
    WhereKeeps(rows, Within(start, end));
    forall i | 0 <= i < BUCKETS
      ensures Where(day, KeyIs(BucketOf(start), i)) == Where(rows, Bucket(start, end, i))
    {
      BucketRows(rows, start, end, i);
    }
  }

  /** The rows of one bucket, in seconds since the start of the day. */
  lemma BucketExact(rows: seq<Row>, start: int, end: int, i: nat)
    requires i < BUCKETS
    ensures forall r ::
              multiset(Where(rows, Bucket(start, end, i)))[r]
                == if start <= r.ts < end && 300 * i <= r.ts - start && (r.ts - start < 300 * (i + 1) || i == 287)
                   then multiset(rows)[r] else 0
  {
    WhereKeeps(rows, Bucket(start, end, i));
  }

  lemma AllBuckets(sparse: seq<Group<int>>, day: seq<Row>, key: Row -> int, all: seq<Group<int>>)
    requires Indexed(sparse, 0) && Grouping(sparse, day, key)
    requires all == Fill(sparse, 0) && |all| == BUCKETS && forall i :: 0 <= i < BUCKETS ==> all[i].key == i
    ensures forall i :: 0 <= i < BUCKETS ==> all[i] == Group(i, SumOf(Where(day, KeyIs(key, i))))
  {
    forall i | 0 <= i < BUCKETS ensures all[i] == Group(i, SumOf(Where(day, KeyIs(key, i)))) {
      OneBucket(sparse, day, key, all, i);
    }
  }

  lemma OneBucket(sparse: seq<Group<int>>, day: seq<Row>, key: Row -> int, all: seq<Group<int>>, i: nat)
    requires Indexed(sparse, 0) && Grouping(sparse, day, key)
    requires all == Fill(sparse, 0) && i < |all| && all[i].key == i
    ensures all[i] == Group(i, SumOf(Where(day, KeyIs(key, i))))
  {
    FillMembers(sparse, all[i]);
    if all[i] !in sparse {
      EmptyBucket(sparse, day, key, i);
    }
  }

  lemma QueryIndexed(sparse: seq<Group<int>>, rows: seq<Row>, start: int, end: int)
    requires BucketQuery(sparse, rows, start, end)
    ensures Indexed(sparse, 0)
  {
    var day := Where(rows, Within(start, end));
    forall g | g in sparse ensures 0 <= g.key < BUCKETS {
      var mine := Where(day, KeyIs(BucketOf(start), g.key));
      WhereMembers(day, KeyIs(BucketOf(start), g.key));
      WhereMembers(rows, Within(start, end));
      var r := First(mine);
      assert BucketOf(start)(r) == g.key;
    }
  }

  lemma EmptyBucket(sparse: seq<Group<int>>, day: seq<Row>, key: Row -> int, i: int)
    requires Grouping(sparse, day, key) && forall h :: h in sparse ==> h.key != i
    ensures Where(day, KeyIs(key, i)) == []
  {
    var mine := Where(day, KeyIs(key, i));
    WhereMembers(day, KeyIs(key, i));
    if mine != [] {
      var r := First(mine);
      assert false;
    }
  }
}
