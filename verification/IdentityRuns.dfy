/** Every run of identity transactions: accounts, credentials and durable attribution. */
module IdentityRuns {
  import opened Common
  import opened Identity

  datatype Op =
    | Create(user: User)
    | Insert(key: ApiKey)
    | Remove(k: int, owner: int)
    | Replace(id: int, hash: string)
    | Swap(id: int, expected: string, hash: string)
    | Delete(id: int)
    | Restart(admin: User, rotate: bool)

  function Step(db: Db, op: Op): Db {
    match op
    case Create(user) => CreateUser(db, user).0
    case Insert(key) => InsertKey(db, key).0
    case Remove(k, owner) => DeleteKey(db, k, owner).0
    case Replace(id, hash) => ReplacePassword(db, id, hash).0
    case Swap(id, expected, hash) => SwapPassword(db, id, expected, hash).0
    case Delete(id) => DeleteUser(db, id).0
    case Restart(admin, rotate) => Start(db, admin, rotate)
  }

  function Run(db: Db, ops: seq<Op>): Db
    decreases |ops|
  {
    if ops == [] then db else Run(Step(db, ops[0]), ops[1..])
  }

  /** A database first opened empty, then used in any way. */
  ghost predicate Reachable(db: Db) {
    exists admin, rotate, ops :: db == Run(Start(EMPTY, admin, rotate), ops)
  }

  lemma SomeAdmin(db: Db) returns (id: int)
    requires Admins(db) >= 1
    ensures id in db.users && db.users[id].isAdmin
  {
    id := SomeMember(Matching(db.users, IsAdmin));
  }

  lemma StepInv(db: Db, op: Op)
    requires Inv(db)
    ensures Inv(Step(db, op))
  {
    match op
    case Create(user) => CreateInv(db, user);
    case Insert(key) => InsertInv(db, key);
    case Remove(_, _) =>
    case Replace(id, hash) => SetPasswordAdmins(db.users, id, hash);
    case Swap(id, _, hash) => SetPasswordAdmins(db.users, id, hash);
    case Delete(id) => DeleteInv(db, id);
    case Restart(admin, _) =>
      var _ := SomeAdmin(db);
      BackfillIsNoOp(db);
      RotatedAdmins(db.users, admin.username, admin.passwordHash);
  }

  lemma {:induction false} RunInv(db: Db, ops: seq<Op>)
    requires Inv(db)
    ensures Inv(Run(db, ops))
    decreases |ops|
  {
    if ops != [] {
      StepInv(db, ops[0]);
      RunInv(Step(db, ops[0]), ops[1..]);
    }
  }

  /** At least one admin, and every key's owner present and equal to its attribution, in every run. */
  lemma IdentityInvariants(db: Db)
    requires Reachable(db)
    ensures Inv(db)
    ensures exists id :: id in db.users && db.users[id].isAdmin
    ensures forall k :: k in db.keys ==>
              k in db.attribution && db.attribution[k].userId == db.keys[k].userId && db.keys[k].userId in db.users
  {
    var admin, rotate, ops :| db == Run(Start(EMPTY, admin, rotate), ops);
    BootstrapInv(admin, rotate);
    RunInv(Start(EMPTY, admin, rotate), ops);
    var _ := SomeAdmin(db);
  }

  // ----- Ids are never reused -----

  /** A restart on a database in use adds no rows. */
  lemma RestartKeepsRows(db: Db, admin: User, rotate: bool)
    requires Inv(db)
    ensures var after := Start(db, admin, rotate);
            && after.users.Keys == db.users.Keys && after.nextUser == db.nextUser && after.nextKey == db.nextKey
            && after.keys == db.keys && after.attribution == db.attribution
  {
    var _ := SomeAdmin(db);
    BackfillIsNoOp(db);
  }

  lemma StepUserFate(db: Db, op: Op, u: int)
    requires Inv(db) && u < db.nextUser
    ensures u < Step(db, op).nextUser && (u in Step(db, op).users ==> u in db.users)
  {
    if op.Restart? {
      RestartKeepsRows(db, op.admin, op.rotate);
    }
  }

  lemma StepKeyFate(db: Db, op: Op, k: int)
    requires Inv(db) && k < db.nextKey
    ensures var after := Step(db, op);
            && k < after.nextKey
            && (k in after.keys ==> k in db.keys && after.keys[k] == db.keys[k])
            && (k in after.attribution ==> k in db.attribution && after.attribution[k] == db.attribution[k])
            && (k in db.attribution && db.attribution[k].userId in after.users ==> k in after.attribution)
  {
    if op.Restart? {
      RestartKeepsRows(db, op.admin, op.rotate);
    }
  }

  /** What one step can do to a user id, a key and an attribution row that already existed. */
  lemma StepFates(db: Db, op: Op, u: int, k: int)
    requires Inv(db) && u < db.nextUser && k < db.nextKey
    ensures var after := Step(db, op);
            && u < after.nextUser && k < after.nextKey
            && (u in after.users ==> u in db.users)
            && (k in after.keys ==> k in db.keys && after.keys[k] == db.keys[k])
            && (k in after.attribution ==> k in db.attribution && after.attribution[k] == db.attribution[k])
            && (k in db.attribution && db.attribution[k].userId in after.users ==> k in after.attribution)
  {
    StepUserFate(db, op, u);
    StepKeyFate(db, op, k);
  }

  /** Over a whole run, a row that existed keeps its contents or is gone for good. */
  lemma {:induction false} RunFates(db: Db, ops: seq<Op>, u: int, k: int)
    requires Inv(db) && u < db.nextUser && k < db.nextKey
    ensures var after := Run(db, ops);
            && u < after.nextUser && k < after.nextKey
            && (u in after.users ==> u in db.users)
            && (k in after.keys ==> k in db.keys && after.keys[k] == db.keys[k])
            && (k in after.attribution ==> k in db.attribution && after.attribution[k] == db.attribution[k])
            && (k in db.attribution && db.attribution[k].userId in after.users ==> k in after.attribution)
    decreases |ops|
  {
    if ops != [] {
      var next := Step(db, ops[0]);
      StepInv(db, ops[0]);
      StepFates(db, ops[0], u, k);
      RunFates(next, ops[1..], u, k);
      if k in db.attribution && db.attribution[k].userId in Run(db, ops).users {
        RunFates(next, ops[1..], db.attribution[k].userId, k);
      }
    }
  }

  // ----- Accounts are what they were created as -----

  /** The row an operation adds, under the id it gets. */
  ghost function BornAt(db: Db, op: Op): map<int, User> {
    if op.Create? && forall id :: id in db.users ==> db.users[id].username != op.user.username
    then map[db.nextUser := op.user] else map[]
  }

  /** The account an operation removes: an existing one, but never the only admin. */
  ghost function GoneAt(db: Db, op: Op): set<int> {
    if op.Delete? && op.id in db.users
       && (db.users[op.id].isAdmin ==> exists other :: other in db.users && db.users[other].isAdmin && other != op.id)
    then {op.id} else {}
  }

  /** All rows added during a run, as they were created. */
  ghost function Born(db: Db, ops: seq<Op>): map<int, User>
    decreases |ops|
  {
    if ops == [] then map[] else BornAt(db, ops[0]) + Born(Step(db, ops[0]), ops[1..])
  }

  /** All accounts removed during a run. */
  ghost function Gone(db: Db, ops: seq<Op>): set<int>
    decreases |ops|
  {
    if ops == [] then {} else GoneAt(db, ops[0]) + Gone(Step(db, ops[0]), ops[1..])
  }

  ghost predicate SameAccount(a: User, b: User) {
    a.username == b.username && a.isAdmin == b.isAdmin && a.createdTs == b.createdTs
  }

  /** `users` are `before` and `born` without `gone`, up to passwords. */
  ghost predicate Roster(users: map<int, User>, before: map<int, User>, born: map<int, User>, gone: set<int>) {
    && users.Keys == before.Keys + born.Keys - gone
    && forall u :: u in users ==> SameAccount(users[u], (before + born)[u])
  }

  lemma StepRoster(db: Db, op: Op)
    requires Inv(db)
    ensures Roster(Step(db, op).users, db.users, BornAt(db, op), GoneAt(db, op))
  {
    if op.Restart? {
      RestartKeepsRows(db, op.admin, op.rotate);
    }
    if op.Delete? && op.id in db.users && db.users[op.id].isAdmin {
      OnlyAdmin(db.users, op.id);
    }
  }

  /** New ids are past the counter, removed ones before it. */
  lemma StepIds(db: Db, op: Op)
    requires Inv(db)
    ensures db.nextUser <= Step(db, op).nextUser
    ensures forall u :: u in BornAt(db, op) ==> db.nextUser <= u
    ensures forall u :: u in GoneAt(db, op) ==> u < db.nextUser
  {
    if op.Restart? {
      RestartKeepsRows(db, op.admin, op.rotate);
    }
  }

  lemma {:induction false} BornAreNew(db: Db, ops: seq<Op>)
    requires Inv(db)
    ensures forall u :: u in Born(db, ops) ==> db.nextUser <= u
    decreases |ops|
  {
    if ops != [] {
      StepIds(db, ops[0]);
      StepInv(db, ops[0]);
      BornAreNew(Step(db, ops[0]), ops[1..]);
    }
  }

  lemma RosterJoin(users: map<int, User>, next: map<int, User>, before: map<int, User>,
                   b1: map<int, User>, g1: set<int>, b2: map<int, User>, g2: set<int>)
    requires Roster(next, before, b1, g1) && Roster(users, next, b2, g2)
    requires b2.Keys !! g1 && b2.Keys !! next.Keys
    ensures Roster(users, before, b1 + b2, g1 + g2)
  {
  }

  /** Later accounts take no id that is in use or was. */
  lemma BornApart(db: Db, op: Op, ops: seq<Op>)
    requires Inv(db)
    ensures Born(Step(db, op), ops).Keys !! Step(db, op).users.Keys
    ensures Born(Step(db, op), ops).Keys !! GoneAt(db, op)
  {
    StepIds(db, op);
    StepInv(db, op);
    BornAreNew(Step(db, op), ops);
    assert IdsBelow(Step(db, op));
    var next := Step(db, op);
    forall u | u in Born(next, ops).Keys ensures u !in next.users.Keys && u !in GoneAt(db, op) {
      assert u in Born(next, ops) && next.nextUser <= u;
    }
  }

  /** In every run the accounts are those created and not deleted, each with the name and flag it got. */
  lemma {:induction false} RosterExact(db: Db, ops: seq<Op>)
    requires Inv(db)
    ensures Roster(Run(db, ops).users, db.users, Born(db, ops), Gone(db, ops))
    decreases |ops|
  {
    if ops != [] {
      var op, rest := ops[0], ops[1..];
      StepInv(db, op);
      RosterExact(Step(db, op), rest);
      RosterMore(db, op, rest);
    }
  }

  lemma RosterMore(db: Db, op: Op, rest: seq<Op>)
    requires Inv(db)
    requires var next := Step(db, op); Roster(Run(next, rest).users, next.users, Born(next, rest), Gone(next, rest))
    ensures var next := Step(db, op);
            Roster(Run(next, rest).users, db.users, BornAt(db, op) + Born(next, rest),
                   GoneAt(db, op) + Gone(next, rest))
  {
    var next := Step(db, op);
    BornApart(db, op, rest);
    StepRoster(db, op);
    RosterJoin(Run(next, rest).users, next.users, db.users, BornAt(db, op), GoneAt(db, op),
               Born(next, rest), Gone(next, rest));
  }

  /** The admins are the bootstrap admin and the accounts created as admins, without the deleted ones. */
  lemma AdminsExactly(admin: User, rotate: bool, ops: seq<Op>, u: int)
    ensures var first := Start(EMPTY, admin, rotate);
            var db, born, gone := Run(first, ops), Born(first, ops), Gone(first, ops);
            && (u in db.users <==> (u == 1 || u in born) && u !in gone)
            && (u in db.users ==>
                  && db.users[u].username == (if u == 1 then admin.username else born[u].username)
                  && db.users[u].isAdmin == (u == 1 || born[u].isAdmin))
  {
    BootstrapInv(admin, rotate);
    var first := Start(EMPTY, admin, rotate);
    RosterExact(first, ops);
    BornAreNew(first, ops);
  }

  /**
   * Attribution is durable and exclusive: from the moment a key is created, its row names its
   * creator, unchanged, for exactly as long as that account exists, whatever happens to the
   * key itself; and no other row ever uses the id.
   */
  lemma AttributionExact(db: Db, row: ApiKey, ops: seq<Op>)
    requires Reachable(db) && InsertKey(db, row).1.Ok?
    ensures var k := InsertKey(db, row).1.value;
            var after := Run(InsertKey(db, row).0, ops);
            && k !in db.keys && k !in db.attribution
            && (k in after.attribution <==> row.userId in after.users)
            && (k in after.attribution ==> after.attribution[k] == Attribution(row.userId, row.name, row.prefix))
            && (k in after.keys ==> after.keys[k] == row)
  {
    IdentityInvariants(db);
    InsertInv(db, row);
    var next := InsertKey(db, row).0;
    RunFates(next, ops, row.userId, InsertKey(db, row).1.value);
    RunInv(next, ops);
  }

  // ----- Which events revoke a key -----

  /** The step deletes key `k` of user `u`. A restart's password rotation is not among these. */
  predicate Revokes(db: Db, op: Op, k: int, u: int) {
    match op
    case Remove(j, owner) => j == k && owner == u
    case Replace(id, _) => id == u
    case Swap(id, expected, _) => id == u && u in db.users && db.users[u].passwordHash == expected
    case Delete(id) => id == u && DeleteUser(db, id).1 == Deleted
    case _ => false
  }

  predicate RevokedIn(db: Db, ops: seq<Op>, k: int, u: int)
    decreases |ops|
  {
    ops != [] && (Revokes(db, ops[0], k, u) || RevokedIn(Step(db, ops[0]), ops[1..], k, u))
  }

  lemma StepRevokes(db: Db, op: Op, k: int)
    requires Inv(db) && k in db.keys
    ensures k in Step(db, op).keys <==> !Revokes(db, op, k, db.keys[k].userId)
    ensures k in Step(db, op).keys ==> Step(db, op).keys[k] == db.keys[k]
  {
    StepFates(db, op, db.keys[k].userId, k);
    if op.Restart? {
      var _ := SomeAdmin(db);
      BackfillIsNoOp(db);
    }
  }

  /** A key works until the first event that revokes it and never again. */
  lemma {:induction false} KeyLivesExactly(db: Db, ops: seq<Op>, k: int)
    requires Inv(db) && k in db.keys
    ensures k in Run(db, ops).keys <==> !RevokedIn(db, ops, k, db.keys[k].userId)
    decreases |ops|
  {
    if ops != [] {
      var next := Step(db, ops[0]);
      StepRevokes(db, ops[0], k);
      StepInv(db, ops[0]);
      if k in next.keys {
        KeyLivesExactly(next, ops[1..], k);
      } else {
        StepFates(db, ops[0], db.keys[k].userId, k);
        RunFates(next, ops[1..], db.keys[k].userId, k);
      }
    }
  }

  /** A reset, or a swap whose comparison succeeded. */
  predicate ChangesPassword(db: Db, op: Op, u: int) {
    (op.Replace? || op.Swap?) && op.id == u && u in db.users
    && (op.Swap? ==> op.expected == db.users[u].passwordHash)
  }

  /** After a password change, the only keys the user can ever have are newer ones. */
  lemma PasswordChangeRetiresKeys(db: Db, op: Op, u: int, ops: seq<Op>)
    requires Inv(db) && ChangesPassword(db, op, u)
    ensures var after := Run(Step(db, op), ops);
            forall k :: k in after.keys && after.keys[k].userId == u ==> k >= db.nextKey
  {
    StepInv(db, op);
    var next := Step(db, op);
    forall k | k in Run(next, ops).keys && Run(next, ops).keys[k].userId == u
      ensures k >= db.nextKey
    {
      if k < db.nextKey {
        RunFates(next, ops, u, k);
      }
    }
  }
}
