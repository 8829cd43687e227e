/** The identity tables and the transactions on them (crates/twl-store/src/identity.rs). */
module Identity {
  import opened Common

  datatype User = User(username: string, passwordHash: string, isAdmin: bool, createdTs: int)
  datatype ApiKey = ApiKey(userId: int, name: Option<string>, keyHash: string, prefix: string, createdTs: int)
  datatype Attribution = Attribution(userId: int, name: Option<string>, prefix: string)

  /** The three tables; the two counters are the next AUTOINCREMENT ids. */
  datatype Db = Db(
    users: map<int, User>,
    keys: map<int, ApiKey>,
    attribution: map<int, Attribution>,
    nextUser: int,
    nextKey: int)

  datatype DbError = UniqueViolation | ForeignKeyViolation
  datatype Result<+T> = Ok(value: T) | Err(error: DbError)
  datatype DeleteOutcome = Deleted | NotFound | LastAdmin

  const EMPTY := Db(map[], map[], map[], 1, 1)

  predicate UsernameTaken(db: Db, username: string) {
    exists id | id in db.users :: db.users[id].username == username
  }

  predicate KeyHashTaken(db: Db, keyHash: string) {
    exists k | k in db.keys :: db.keys[k].keyHash == keyHash
  }

  predicate IsAdmin(u: User) {
    u.isAdmin
  }

  function Admins(db: Db): nat {
    Count(db.users, IsAdmin)
  }

  /** At most one admin is left when there is no other than `id`. */
  lemma OnlyAdmin(users: map<int, User>, id: int)
    requires id in users && users[id].isAdmin
    ensures Count(users, IsAdmin) <= 1 <==> forall other :: other in users && users[other].isAdmin ==> other == id
  {
    var admins := Matching(users, IsAdmin);
    assert admins == (admins - {id}) + {id};
    if |admins| > 1 {
      var other := SomeMember(admins - {id});
      assert other in users && users[other].isAdmin;
    }
    if other :| other in users && users[other].isAdmin && other != id {
      SubsetSize({id, other}, admins);
    }
  }

  // ----- Transactions as functions on the tables -----

  function CreateUser(db: Db, row: User): (Db, Result<int>) {
    if UsernameTaken(db, row.username) then (db, Err(UniqueViolation))
    else (db.(users := db.users[db.nextUser := row], nextUser := db.nextUser + 1), Ok(db.nextUser))
  }

  /** Both rows or neither. */
  function InsertKey(db: Db, row: ApiKey): (Db, Result<int>) {
    var k := db.nextKey;
    if KeyHashTaken(db, row.keyHash) then (db, Err(UniqueViolation))
    else if row.userId !in db.users then (db, Err(ForeignKeyViolation))
    else if k in db.attribution then (db, Err(UniqueViolation))
    else
      (db.(keys := db.keys[k := row],
           attribution := db.attribution[k := Attribution(row.userId, row.name, row.prefix)],
           nextKey := k + 1), Ok(k))
  }

  function KeysWithout(keys: map<int, ApiKey>, user: int): map<int, ApiKey> {
    keys - set k | k in keys && keys[k].userId == user
  }

  function AttributionWithout(rows: map<int, Attribution>, user: int): map<int, Attribution> {
    rows - set k | k in rows && rows[k].userId == user
  }

  function SetPassword(users: map<int, User>, id: int, hash: string): map<int, User> {
    if id in users then users[id := users[id].(passwordHash := hash)] else users
  }

  function UpdatePassword(db: Db, id: int, hash: string): (Db, nat) {
    (db.(users := SetPassword(db.users, id, hash)), Bit(id in db.users))
  }

  /** Keys go even when no row was updated: that branch has none to lose. */
  function ReplacePassword(db: Db, id: int, hash: string): (Db, nat) {
    (db.(users := SetPassword(db.users, id, hash), keys := KeysWithout(db.keys, id)), Bit(id in db.users))
  }

  function SwapPassword(db: Db, id: int, expected: string, hash: string): (Db, nat) {
    if id in db.users && db.users[id].passwordHash == expected
    then (db.(users := SetPassword(db.users, id, hash), keys := KeysWithout(db.keys, id)), 1)
    else (db, 0)
  }

  function DeleteUser(db: Db, id: int): (Db, DeleteOutcome) {
    if id !in db.users then (db, NotFound)
    else if db.users[id].isAdmin && Admins(db) <= 1 then (db, LastAdmin)
    else
      (db.(users := db.users - {id},
           keys := KeysWithout(db.keys, id),
           attribution := AttributionWithout(db.attribution, id)), Deleted)
  }

  function DeleteKey(db: Db, k: int, user: int): (Db, nat) {
    if k in db.keys && db.keys[k].userId == user then (db.(keys := db.keys - {k}), 1) else (db, 0)
  }

  /** Re-running the schema gives every key that lacks one an attribution row. */
  function Backfill(db: Db): Db {
    db.(attribution :=
          (map k | k in db.keys :: Attribution(db.keys[k].userId, db.keys[k].name, db.keys[k].prefix))
          + db.attribution)
  }

  function Rotated(users: map<int, User>, username: string, hash: string): map<int, User> {
    map id | id in users ::
      if users[id].username == username then users[id].(passwordHash := hash) else users[id]
  }

  /**
   * Server start: schema, then an admin when there is no user. Otherwise `rotate` says that an
   * account is configured and its password is not the stored one; its keys are not revoked.
   */
  function Start(db: Db, admin: User, rotate: bool): Db {
    var db := Backfill(db);
    if db.users == map[] then CreateUser(db, admin.(isAdmin := true)).0
    else if rotate then db.(users := Rotated(db.users, admin.username, admin.passwordHash))
    else db
  }

  // ----- The store -----

  class IdentityStore {
    var users: map<int, User>
    var keys: map<int, ApiKey>
    var attribution: map<int, Attribution>
    var nextUser: int
    var nextKey: int

    ghost function Tables(): Db
      reads this
    {
      Db(users, keys, attribution, nextUser, nextKey)
    }

    constructor ()
      ensures Tables() == EMPTY
    {
      users, keys, attribution := map[], map[], map[];
      nextUser, nextKey := 1, 1;
    }

    method AddUser(username: string, passwordHash: string, isAdmin: bool, now: int) returns (r: Result<int>)
      modifies this
      ensures (Tables(), r) == CreateUser(old(Tables()), User(username, passwordHash, isAdmin, now))
      ensures r.Err? <==> exists id :: id in old(users) && old(users)[id].username == username
      ensures r.Err? ==> Tables() == old(Tables())
      ensures r.Ok? ==>
                && r.value == old(nextUser)
                && users == old(users)[r.value := User(username, passwordHash, isAdmin, now)]
    {
      if exists id | id in users :: users[id].username == username {
        return Err(UniqueViolation);
      }
      r := Ok(nextUser);
      users := users[nextUser := User(username, passwordHash, isAdmin, now)];
      nextUser := nextUser + 1;
    }

    /** Two inserts in one transaction: a failure of the second undoes the first. */
    method InsertApiKey(userId: int, name: Option<string>, keyHash: string, prefix: string, now: int)
      returns (r: Result<int>)
      modifies this
      ensures (Tables(), r) == InsertKey(old(Tables()), ApiKey(userId, name, keyHash, prefix, now))
      ensures r.Ok? <==>
                && userId in old(users) && old(nextKey) !in old(attribution)
                && forall k :: k in old(keys) ==> old(keys)[k].keyHash != keyHash
      ensures r.Err? ==> Tables() == old(Tables())
      ensures r.Ok? ==>
                && r.value == old(nextKey) && users == old(users)
                && keys == old(keys)[r.value := ApiKey(userId, name, keyHash, prefix, now)]
                && attribution == old(attribution)[r.value := Attribution(userId, name, prefix)]
    {
      if exists k | k in keys :: keys[k].keyHash == keyHash {
        return Err(UniqueViolation);
      }
      if userId !in users {
        return Err(ForeignKeyViolation);
      }
      var savedKeys, savedNext := keys, nextKey;
      var k := nextKey;
      keys := keys[k := ApiKey(userId, name, keyHash, prefix, now)];
      nextKey := nextKey + 1;
      if k in attribution {
        keys, nextKey := savedKeys, savedNext;
        return Err(UniqueViolation);
      }
      attribution := attribution[k := Attribution(userId, name, prefix)];
      return Ok(k);
    }

    method WritePassword(id: int, hash: string) returns (updated: nat)
      modifies this
      ensures (Tables(), updated) == UpdatePassword(old(Tables()), id, hash)
      ensures keys == old(keys) && attribution == old(attribution)
      ensures updated == if id in old(users) then 1 else 0
      ensures users == if id in old(users) then old(users)[id := old(users)[id].(passwordHash := hash)] else old(users)
    {
      updated := 0;
      if id in users {
        users := users[id := users[id].(passwordHash := hash)];
        updated := 1;
      }
    }

    method RevokeKeys(id: int)
      modifies this`keys
      ensures keys == KeysWithout(old(keys), id)
      ensures forall k :: k in keys <==> k in old(keys) && old(keys)[k].userId != id
      ensures forall k :: k in keys ==> keys[k] == old(keys)[k]
    {
      keys := keys - set k | k in keys && keys[k].userId == id;
    }

    method ReplacePasswordAndRevokeKeys(id: int, hash: string) returns (updated: nat)
      modifies this
      ensures (Tables(), updated) == ReplacePassword(old(Tables()), id, hash)
      ensures attribution == old(attribution) && updated == if id in old(users) then 1 else 0
      ensures users == if id in old(users) then old(users)[id := old(users)[id].(passwordHash := hash)] else old(users)
      ensures forall k :: k in keys <==> k in old(keys) && old(keys)[k].userId != id
      ensures forall k :: k in keys ==> keys[k] == old(keys)[k]
    {
      updated := WritePassword(id, hash);
      RevokeKeys(id);
    }

    method CompareAndSwapPassword(id: int, expected: string, hash: string) returns (updated: nat)
      modifies this
      ensures (Tables(), updated) == SwapPassword(old(Tables()), id, expected, hash)
      ensures updated == if id in old(users) && old(users)[id].passwordHash == expected then 1 else 0
      ensures updated == 0 ==> Tables() == old(Tables())
      ensures updated == 1 ==>
                && users == old(users)[id := old(users)[id].(passwordHash := hash)]
                && attribution == old(attribution)
                && (forall k :: k in keys <==> k in old(keys) && old(keys)[k].userId != id)
                && forall k :: k in keys ==> keys[k] == old(keys)[k]
    {
      updated := 0;
      if id in users && users[id].passwordHash == expected {
        updated := WritePassword(id, hash);
      }
      if updated == 1 {
        RevokeKeys(id);
      }
    }

    method DeleteUserGuarded(id: int) returns (r: DeleteOutcome)
      modifies this
      ensures (Tables(), r) == DeleteUser(old(Tables()), id)
      ensures r == NotFound <==> id !in old(users)
      ensures r == LastAdmin <==>
                && id in old(users) && old(users)[id].isAdmin
                && forall other :: other in old(users) && old(users)[other].isAdmin ==> other == id
      ensures r != Deleted ==> Tables() == old(Tables())
      ensures r == Deleted ==>
                && users == old(users) - {id}
                && (forall k :: k in keys <==> k in old(keys) && old(keys)[k].userId != id)
                && (forall k :: k in keys ==> keys[k] == old(keys)[k])
                && (forall k :: k in attribution <==> k in old(attribution) && old(attribution)[k].userId != id)
                && forall k :: k in attribution ==> attribution[k] == old(attribution)[k]
    {
      if id !in users {
        return NotFound;
      }
      if users[id].isAdmin {
        OnlyAdmin(users, id);
        var adminCount := Count(users, IsAdmin);
        if adminCount <= 1 {
          return LastAdmin;
        }
      }
      RevokeKeys(id);
      users := users - {id};
      attribution := attribution - set k | k in attribution && attribution[k].userId == id;
      return Deleted;
    }

    method DeleteApiKey(k: int, userId: int) returns (deleted: nat)
      modifies this
      ensures (Tables(), deleted) == DeleteKey(old(Tables()), k, userId)
      ensures deleted == if k in old(keys) && old(keys)[k].userId == userId then 1 else 0
      ensures keys == if deleted == 1 then old(keys) - {k} else old(keys)
      ensures users == old(users) && attribution == old(attribution)
    {
      deleted := 0;
      if k in keys && keys[k].userId == userId {
        keys := keys - {k};
        deleted := 1;
      }
    }

    /** The owner a presented key authenticates, through a join with the users table. */
    method KeyOwner(keyHash: string) returns (owner: Option<int>)
      ensures owner.Some? <==> exists k :: k in keys && keys[k].keyHash == keyHash && keys[k].userId in users
      ensures owner.Some? ==>
                exists k :: k in keys && keys[k].keyHash == keyHash && owner == Some(keys[k].userId)
      ensures Inv(Tables()) ==>
                forall k :: k in keys && keys[k].keyHash == keyHash ==>
                  owner.Some? && k in attribution && owner.value == keys[k].userId == attribution[k].userId
    {
      if k :| k in keys && keys[k].keyHash == keyHash && keys[k].userId in users {
        owner := Some(keys[k].userId);
      } else {
        owner := None;
      }
    }
  }

  // ----- What every transaction keeps -----

  ghost predicate NamesUnique(db: Db) {
    forall a, b :: a in db.users && b in db.users && db.users[a].username == db.users[b].username ==> a == b
  }

  ghost predicate HashesUnique(db: Db) {
    forall a, b :: a in db.keys && b in db.keys && db.keys[a].keyHash == db.keys[b].keyHash ==> a == b
  }

  /** Ids already handed out lie below the counters, so a new row never takes an old id. */
  ghost predicate IdsBelow(db: Db) {
    && (forall id :: id in db.users ==> id < db.nextUser)
    && (forall k :: k in db.keys ==> k < db.nextKey)
    && (forall k :: k in db.attribution ==> k < db.nextKey)
  }

  /** Every key has a living owner, the one its attribution row names. */
  ghost predicate Owned(db: Db) {
    && (forall k :: k in db.keys ==>
          && db.keys[k].userId in db.users
          && k in db.attribution
          && db.attribution[k] == Attribution(db.keys[k].userId, db.keys[k].name, db.keys[k].prefix))
    && (forall k :: k in db.attribution ==> db.attribution[k].userId in db.users)
  }

  ghost predicate Inv(db: Db) {
    Admins(db) >= 1 && NamesUnique(db) && HashesUnique(db) && IdsBelow(db) && Owned(db)
  }

  lemma BackfillIsNoOp(db: Db)
    requires forall k :: k in db.keys ==> k in db.attribution
    ensures Backfill(db) == db
  {
    forall k | k in db.keys.Keys ensures k in db.attribution.Keys {
      assert k in db.keys;
    }
    assert Backfill(db).attribution == db.attribution;
  }

  /** The first start on an empty database leaves exactly one user, and it is an admin. */
  lemma BootstrapInv(admin: User, rotate: bool)
    ensures Inv(Start(EMPTY, admin, rotate))
    ensures Start(EMPTY, admin, rotate).users == map[1 := admin.(isAdmin := true)]
  {
    BackfillIsNoOp(EMPTY);
    var row := admin.(isAdmin := true);
    CountUpdate(EMPTY.users, 1, row, IsAdmin);
  }

  lemma CreateInv(db: Db, row: User)
    requires Inv(db)
    ensures Inv(CreateUser(db, row).0)
  {
    CountUpdate(db.users, db.nextUser, row, IsAdmin);
  }

  lemma InsertInv(db: Db, row: ApiKey)
    requires Inv(db)
    ensures Inv(InsertKey(db, row).0)
  {
  }

  lemma SetPasswordAdmins(users: map<int, User>, id: int, hash: string)
    ensures Count(SetPassword(users, id, hash), IsAdmin) == Count(users, IsAdmin)
  {
    if id in users {
      CountUpdate(users, id, users[id].(passwordHash := hash), IsAdmin);
    }
  }

  lemma RotatedAdmins(users: map<int, User>, username: string, hash: string)
    ensures Count(Rotated(users, username, hash), IsAdmin) == Count(users, IsAdmin)
  {
    assert Matching(Rotated(users, username, hash), IsAdmin) == Matching(users, IsAdmin);
  }

  /** Usernames are unique, so the start-up rotation is one password update. */
  lemma RotationIsOneUpdate(db: Db, id: int, hash: string)
    requires Inv(db) && id in db.users
    ensures db.(users := Rotated(db.users, db.users[id].username, hash)) == UpdatePassword(db, id, hash).0
  {
    var rotated, updated := Rotated(db.users, db.users[id].username, hash), SetPassword(db.users, id, hash);
    assert rotated.Keys == db.users.Keys && updated.Keys == db.users.Keys;
    forall j | j in db.users ensures rotated[j] == updated[j] {
      assert db.users[j].username == db.users[id].username ==> j == id;
    }
    assert rotated == updated;
  }

  lemma DeleteInv(db: Db, id: int)
    requires Inv(db)
    ensures Inv(DeleteUser(db, id).0)
  {
    CountRemove(db.users, id, IsAdmin);
  }
}
