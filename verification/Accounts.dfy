/**
 * Password changes and resets as calls that read, think and then commit
 * (crates/twl-auth/src/accounts.rs), interleaved with each other and with every store
 * transaction.
 */
module Accounts {
  import opened Common
  import opened Identity
  import opened IdentityRuns

  datatype AccountError = WeakPassword | NoSuchAccount | WrongPassword | ConcurrentPasswordChange | Internal
  datatype Outcome = Done | Failed(error: AccountError)

  /** A call between its read and its commit, or over. `next` is the hash it will write. */
  datatype Call =
    | Changing(user: int, seen: string, next: string)
    | Resetting(user: int, next: string)
    | Over(outcome: Outcome)

  /** `used` holds every password hash ever produced: salts make each new one fresh. */
  datatype State = State(db: Db, calls: map<nat, Call>, used: set<string>)

  datatype Event =
    | Store(op: Op)
    | BeginChange(call: nat, user: int, oldPassword: string, newPassword: string, hash: string)
    | BeginReset(call: nat, user: int, newPassword: string, hash: string)
    | Commit(call: nat)

  const MIN_PASSWORD_LENGTH: nat := 8

  type Verifier = (string, string) -> bool

  // ----- The two halves of each call -----

  /** Everything `change_password` does before it writes. */
  function VerifyOld(db: Db, verify: Verifier, user: int, presented: string, wanted: string, hash: string): Call {
    if |wanted| < MIN_PASSWORD_LENGTH then Over(Failed(WeakPassword))
    else if user !in db.users then Over(Failed(Internal))
    else if !verify(presented, db.users[user].passwordHash) then Over(Failed(WrongPassword))
    else Changing(user, db.users[user].passwordHash, hash)
  }

  function CheckTarget(db: Db, user: int, wanted: string, hash: string): Call {
    if |wanted| < MIN_PASSWORD_LENGTH then Over(Failed(WeakPassword))
    else if user !in db.users then Over(Failed(NoSuchAccount))
    else Resetting(user, hash)
  }

  /** The transaction a pending call commits with. */
  function CommitOp(call: Call): Op
    requires !call.Over?
  {
    match call
    case Changing(user, seen, next) => Swap(user, seen, next)
    case Resetting(user, next) => Replace(user, next)
  }

  function CommitOutcome(db: Db, call: Call): Outcome
    requires !call.Over?
  {
    match call
    case Changing(user, seen, next) =>
      if SwapPassword(db, user, seen, next).1 == 1 then Done else Failed(ConcurrentPasswordChange)
    case Resetting(user, next) =>
      if ReplacePassword(db, user, next).1 == 1 then Done else Failed(NoSuchAccount)
  }

  /** A change that nothing interleaves with. */
  method ChangePassword(store: IdentityStore, verify: Verifier, user: int, presented: string, wanted: string,
                        hash: string)
    returns (r: Outcome)
    modifies store
    ensures var call := VerifyOld(old(store.Tables()), verify, user, presented, wanted, hash);
            if call.Over? then r == call.outcome && store.Tables() == old(store.Tables())
            else r == Done && store.Tables() == Step(old(store.Tables()), CommitOp(call))
    ensures r == (if |wanted| < 8 then Failed(WeakPassword)
                  else if user !in old(store.users) then Failed(Internal)
                  else if !verify(presented, old(store.users)[user].passwordHash) then Failed(WrongPassword)
                  else Done)
    ensures r != Done ==> store.Tables() == old(store.Tables())
    ensures r == Done ==>
              && store.users == old(store.users)[user := old(store.users)[user].(passwordHash := hash)]
              && (forall k :: k in store.keys <==> k in old(store.keys) && old(store.keys)[k].userId != user)
              && store.attribution == old(store.attribution)
  {
    if |wanted| < MIN_PASSWORD_LENGTH {
      return Failed(WeakPassword);
    }
    if user !in store.users {
      return Failed(Internal);
    }
    var stored := store.users[user].passwordHash;
    if !verify(presented, stored) {
      return Failed(WrongPassword);
    }
    var updated := store.CompareAndSwapPassword(user, stored, hash);
    return if updated == 1 then Done else Failed(ConcurrentPasswordChange);
  }

  method ResetPassword(store: IdentityStore, user: int, wanted: string, hash: string) returns (r: Outcome)
    modifies store
    ensures var call := CheckTarget(old(store.Tables()), user, wanted, hash);
            if call.Over? then r == call.outcome && store.Tables() == old(store.Tables())
            else r == Done && store.Tables() == Step(old(store.Tables()), CommitOp(call))
    ensures r == (if |wanted| < 8 then Failed(WeakPassword)
                  else if user !in old(store.users) then Failed(NoSuchAccount)
                  else Done)
    ensures r != Done ==> store.Tables() == old(store.Tables())
    ensures r == Done ==>
              && store.users == old(store.users)[user := old(store.users)[user].(passwordHash := hash)]
              && (forall k :: k in store.keys <==> k in old(store.keys) && old(store.keys)[k].userId != user)
              && store.attribution == old(store.attribution)
  {
    if |wanted| < MIN_PASSWORD_LENGTH {
      return Failed(WeakPassword);
    }
    if user !in store.users {
      return Failed(NoSuchAccount);
    }
    var updated := store.ReplacePasswordAndRevokeKeys(user, hash);
    return if updated == 1 then Done else Failed(NoSuchAccount);
  }

  // ----- The interleaved system -----

  /** Hashes a store transaction brings along. */
  function Brings(op: Op): set<string> {
    match op
    case Create(user) => {user.passwordHash}
    case Replace(_, hash) => {hash}
    case Swap(_, _, hash) => {hash}
    case Restart(admin, _) => {admin.passwordHash}
    case _ => {}
  }

  predicate Enabled(s: State, e: Event) {
    match e
    case Store(op) => Brings(op) !! s.used
    case BeginChange(call, _, _, _, hash) => call !in s.calls && hash !in s.used
    case BeginReset(call, _, _, hash) => call !in s.calls && hash !in s.used
    case Commit(call) => call in s.calls && !s.calls[call].Over?
  }

  function Next(s: State, verify: Verifier, e: Event): State
    requires Enabled(s, e)
  {
    match e
    case Store(op) => s.(db := Step(s.db, op), used := s.used + Brings(op))
    case BeginChange(call, user, presented, wanted, hash) =>
      s.(calls := s.calls[call := VerifyOld(s.db, verify, user, presented, wanted, hash)], used := s.used + {hash})
    case BeginReset(call, user, wanted, hash) =>
      s.(calls := s.calls[call := CheckTarget(s.db, user, wanted, hash)], used := s.used + {hash})
    case Commit(call) =>
      s.(db := Step(s.db, CommitOp(s.calls[call])),
         calls := s.calls[call := Over(CommitOutcome(s.db, s.calls[call]))])
  }

  predicate Valid(s: State, verify: Verifier, es: seq<Event>)
    decreases |es|
  {
    es == [] || (Enabled(s, es[0]) && Valid(Next(s, verify, es[0]), verify, es[1..]))
  }

  function Exec(s: State, verify: Verifier, es: seq<Event>): State
    requires Valid(s, verify, es)
    decreases |es|
  {
    if es == [] then s else Exec(Next(s, verify, es[0]), verify, es[1..])
  }

  function Boot(admin: User): State {
    State(Start(EMPTY, admin, false), map[], {admin.passwordHash})
  }

  ghost predicate Reached(s: State, verify: Verifier) {
    exists admin, es :: Valid(Boot(admin), verify, es) && s == Exec(Boot(admin), verify, es)
  }

  // ----- Hashes are not confused -----

  ghost predicate Pending(s: State, c: nat) {
    c in s.calls && !s.calls[c].Over?
  }

  /** A pending call's new hash is its own: not stored, not another call's, not one a call saw. */
  ghost predicate Fresh(s: State) {
    && (forall id :: id in s.db.users ==> s.db.users[id].passwordHash in s.used)
    && (forall c :: Pending(s, c) ==> s.calls[c].next in s.used)
    && (forall c, id :: Pending(s, c) && id in s.db.users ==> s.calls[c].next != s.db.users[id].passwordHash)
    && (forall c, d :: Pending(s, c) && Pending(s, d) && c != d ==> s.calls[c].next != s.calls[d].next)
    && (forall c :: c in s.calls && s.calls[c].Changing? ==> s.calls[c].seen in s.used)
    && (forall c, d :: Pending(s, c) && d in s.calls && s.calls[d].Changing? ==> s.calls[c].next != s.calls[d].seen)
  }

  ghost predicate UsersKnown(s: State) {
    forall c :: Pending(s, c) ==> s.calls[c].user < s.db.nextUser
  }

  ghost predicate SysInv(s: State) {
    Inv(s.db) && Fresh(s) && UsersKnown(s)
  }

  /** Every hash stored after a step was stored before it or was brought by it. */
  lemma StepHashes(db: Db, op: Op, id: int)
    requires Inv(db) && id in Step(db, op).users
    ensures var h := Step(db, op).users[id].passwordHash;
            h in Brings(op) || (id in db.users && h == db.users[id].passwordHash)
  {
    if op.Restart? {
      var _ := SomeAdmin(db);
      BackfillIsNoOp(db);
    }
  }

  lemma StoreFresh(s: State, op: Op, used: set<string>)
    requires SysInv(s) && Brings(op) !! s.used && used == s.used + Brings(op)
    ensures Fresh(s.(db := Step(s.db, op), used := used))
  {
    forall id | id in Step(s.db, op).users
      ensures var h := Step(s.db, op).users[id].passwordHash;
              h in Brings(op) || (id in s.db.users && h == s.db.users[id].passwordHash)
    {
      StepHashes(s.db, op, id);
    }
  }

  lemma CommitFresh(s: State, c: nat, outcome: Outcome)
    requires SysInv(s) && Pending(s, c)
    ensures Fresh(State(Step(s.db, CommitOp(s.calls[c])), s.calls[c := Over(outcome)], s.used))
  {
    var op := CommitOp(s.calls[c]);
    forall id | id in Step(s.db, op).users
      ensures var h := Step(s.db, op).users[id].passwordHash;
              h == s.calls[c].next || (id in s.db.users && h == s.db.users[id].passwordHash)
    {
      StepHashes(s.db, op, id);
    }
  }

  lemma NextInv(s: State, verify: Verifier, e: Event)
    requires SysInv(s) && Enabled(s, e)
    ensures SysInv(Next(s, verify, e))
  {
    match e
    case Store(op) =>
      StepInv(s.db, op);
      StoreFresh(s, op, s.used + Brings(op));
      NextUserGrows(s.db, op);
    case Commit(c) =>
      StepInv(s.db, CommitOp(s.calls[c]));
      CommitFresh(s, c, CommitOutcome(s.db, s.calls[c]));
      NextUserGrows(s.db, CommitOp(s.calls[c]));
    case BeginChange(c, user, presented, wanted, hash) =>
      BeginInv(s, c, VerifyOld(s.db, verify, user, presented, wanted, hash), hash);
    case BeginReset(c, user, wanted, hash) => BeginInv(s, c, CheckTarget(s.db, user, wanted, hash), hash);
  }

  lemma BeginInv(s: State, c: nat, call: Call, hash: string)
    requires SysInv(s) && c !in s.calls && hash !in s.used
    requires !call.Over? ==> call.next == hash && call.user in s.db.users
    requires call.Changing? ==> call.seen == s.db.users[call.user].passwordHash
    ensures SysInv(s.(calls := s.calls[c := call], used := s.used + {hash}))
  {
  }

  lemma NextUserGrows(db: Db, op: Op)
    requires Inv(db)
    ensures db.nextUser <= Step(db, op).nextUser
  {
    var id := SomeAdmin(db);
    StepFates(db, op, db.nextUser - 1, db.nextKey - 1);
  }

  lemma {:induction false} ExecInv(s: State, verify: Verifier, es: seq<Event>)
    requires SysInv(s) && Valid(s, verify, es)
    ensures SysInv(Exec(s, verify, es))
    decreases |es|
  {
    if es != [] {
      NextInv(s, verify, es[0]);
      ExecInv(Next(s, verify, es[0]), verify, es[1..]);
    }
  }

  lemma ReachedInv(s: State, verify: Verifier)
    requires Reached(s, verify)
    ensures SysInv(s)
  {
    var admin, es :| Valid(Boot(admin), verify, es) && s == Exec(Boot(admin), verify, es);
    BootstrapInv(admin, false);
    ExecInv(Boot(admin), verify, es);
  }

  // ----- When a change goes through -----

  /** The transaction, if any, that an event runs on the tables. */
  function Transaction(s: State, e: Event): Option<Op>
    requires Enabled(s, e)
  {
    match e
    case Store(op) => Some(op)
    case Commit(c) => Some(CommitOp(s.calls[c]))
    case _ => None
  }

  /** The transaction replaces the user's stored hash or deletes the account. */
  predicate Disturbs(db: Db, op: Op, u: int) {
    match op
    case Replace(id, _) => id == u
    case Swap(id, expected, _) => id == u && u in db.users && db.users[u].passwordHash == expected
    case Delete(id) => id == u && DeleteUser(db, id).1 == Deleted
    case Restart(admin, rotate) => rotate && u in db.users && db.users[u].username == admin.username
    case _ => false
  }

  predicate DisturbedIn(s: State, verify: Verifier, es: seq<Event>, u: int)
    requires Valid(s, verify, es)
    decreases |es|
  {
    es != [] &&
    (var t := Transaction(s, es[0]);
     (t.Some? && Disturbs(s.db, t.value, u)) || DisturbedIn(Next(s, verify, es[0]), verify, es[1..], u))
  }

  predicate Current(s: State, u: int, seen: string) {
    u in s.db.users && s.db.users[u].passwordHash == seen
  }

  lemma Undisturbed(db: Db, op: Op, u: int)
    requires Inv(db) && u in db.users && !Disturbs(db, op, u)
    ensures u in Step(db, op).users && Step(db, op).users[u].passwordHash == db.users[u].passwordHash
  {
    if op.Restart? {
      var _ := SomeAdmin(db);
      BackfillIsNoOp(db);
    }
  }

  lemma Disturbed(db: Db, op: Op, u: int)
    requires Inv(db) && u in db.users && Disturbs(db, op, u)
    ensures u in Step(db, op).users ==> Step(db, op).users[u].passwordHash in Brings(op)
  {
    if op.Restart? {
      var _ := SomeAdmin(db);
      BackfillIsNoOp(db);
    }
  }

  /** One event of somebody else: a change's reading stays current exactly while undisturbed. */
  lemma CurrentStep(s: State, verify: Verifier, e: Event, c: nat)
    requires SysInv(s) && Enabled(s, e)
    requires c in s.calls && s.calls[c].Changing? && e != Commit(c)
    ensures var t := Transaction(s, e);
            var call, after := s.calls[c], Next(s, verify, e);
            && c in after.calls && after.calls[c] == call
            && (Current(after, call.user, call.seen) <==>
                Current(s, call.user, call.seen) && !(t.Some? && Disturbs(s.db, t.value, call.user)))
  {
    var t := Transaction(s, e);
    var call := s.calls[c];
    if t.Some? {
      if call.user !in s.db.users {
        StepFates(s.db, t.value, call.user, s.db.nextKey - 1);
      } else if Disturbs(s.db, t.value, call.user) {
        Disturbed(s.db, t.value, call.user);
      } else {
        Undisturbed(s.db, t.value, call.user);
      }
    }
  }

  predicate Untouched(es: seq<Event>, c: nat) {
    Commit(c) !in es
  }

  lemma {:induction false} CurrentRun(s: State, verify: Verifier, es: seq<Event>, c: nat)
    requires SysInv(s) && Valid(s, verify, es) && Untouched(es, c)
    requires c in s.calls && s.calls[c].Changing?
    ensures var call, after := s.calls[c], Exec(s, verify, es);
            && c in after.calls && after.calls[c] == call
            && (Current(after, call.user, call.seen) <==>
                Current(s, call.user, call.seen) && !DisturbedIn(s, verify, es, call.user))
    decreases |es|
  {
    if es != [] {
      CurrentStep(s, verify, es[0], c);
      NextInv(s, verify, es[0]);
      CurrentRun(Next(s, verify, es[0]), verify, es[1..], c);
    }
  }

  /** System runs are runs of store transactions. */
  function Ops(s: State, verify: Verifier, es: seq<Event>): seq<Op>
    requires Valid(s, verify, es)
    decreases |es|
  {
    if es == [] then []
    else
      var rest := Ops(Next(s, verify, es[0]), verify, es[1..]);
      var t := Transaction(s, es[0]);
      if t.Some? then [t.value] + rest else rest
  }

  lemma {:induction false} ExecIsRun(s: State, verify: Verifier, es: seq<Event>)
    requires Valid(s, verify, es)
    ensures Exec(s, verify, es).db == Run(s.db, Ops(s, verify, es))
    decreases |es|
  {
    if es != [] {
      ExecIsRun(Next(s, verify, es[0]), verify, es[1..]);
    }
  }

  /** A commit succeeds exactly while its reading is current, and otherwise writes nothing. */
  lemma CommitEffect(before: State, verify: Verifier, c: nat)
    requires SysInv(before) && c in before.calls && before.calls[c].Changing?
    ensures var call, after := before.calls[c], Next(before, verify, Commit(c));
            var u := call.user;
            && after.calls[c] == Over(if Current(before, u, call.seen)
                                      then Done else Failed(ConcurrentPasswordChange))
            && (!Current(before, u, call.seen) ==> after.db == before.db)
            && (Current(before, u, call.seen) ==>
                  && after.db.users == before.db.users[u := before.db.users[u].(passwordHash := call.next)]
                  && after.db.keys == KeysWithout(before.db.keys, u)
                  && after.db.attribution == before.db.attribution)
  {
  }

  /** No key the user had before a successful commit is there in any later state. */
  lemma CommitRetiresKeys(before: State, verify: Verifier, c: nat, later: seq<Event>)
    requires SysInv(before) && c in before.calls && before.calls[c].Changing?
    requires Current(before, before.calls[c].user, before.calls[c].seen)
    requires Valid(Next(before, verify, Commit(c)), verify, later)
    ensures var final := Exec(Next(before, verify, Commit(c)), verify, later);
            forall k :: k in final.db.keys && final.db.keys[k].userId == before.calls[c].user ==>
              k >= before.db.nextKey
  {
    var after := Next(before, verify, Commit(c));
    ExecIsRun(after, verify, later);
    PasswordChangeRetiresKeys(before.db, CommitOp(before.calls[c]), before.calls[c].user, Ops(after, verify, later));
  }

  /**
   * A change that verified the old password goes through exactly when nothing replaced that
   * password or deleted the account in between. Then it replaced the hash it verified and
   * nothing else, and no key the user had before survives or comes back in any later state.
   * Otherwise it reports a concurrent change and leaves every table as it was.
   */
  lemma ChangeSucceedsExactly(s: State, verify: Verifier, begin: Event, es: seq<Event>, later: seq<Event>)
    requires Reached(s, verify) && begin.BeginChange? && Enabled(s, begin)
    requires Next(s, verify, begin).calls[begin.call].Changing?
    requires Valid(Next(s, verify, begin), verify, es) && Untouched(es, begin.call)
    requires Enabled(Exec(Next(s, verify, begin), verify, es), Commit(begin.call))
    requires Valid(Next(Exec(Next(s, verify, begin), verify, es), verify, Commit(begin.call)), verify, later)
    ensures var u, c := begin.user, begin.call;
            var started := Next(s, verify, begin);
            var before := Exec(started, verify, es);
            var after := Next(before, verify, Commit(c));
            var final := Exec(after, verify, later);
            && |begin.newPassword| >= 8
            && u in s.db.users && verify(begin.oldPassword, s.db.users[u].passwordHash)
            && after.calls[c] == Over(if DisturbedIn(started, verify, es, u)
                                      then Failed(ConcurrentPasswordChange) else Done)
            && (after.calls[c] == Over(Done) ==>
                  && u in before.db.users
                  && before.db.users[u].passwordHash == s.db.users[u].passwordHash
                  && after.db.users == before.db.users[u := before.db.users[u].(passwordHash := begin.hash)]
                  && after.db.keys == KeysWithout(before.db.keys, u)
                  && after.db.attribution == before.db.attribution
                  && forall k :: k in final.db.keys && final.db.keys[k].userId == u ==> k >= before.db.nextKey)
            && (after.calls[c] != Over(Done) ==> after.db == before.db)
  {
    var u, c := begin.user, begin.call;
    var started := Next(s, verify, begin);
    ReachedInv(s, verify);
    NextInv(s, verify, begin);
    CurrentRun(started, verify, es, c);
    ExecInv(started, verify, es);
    var before := Exec(started, verify, es);
    CommitEffect(before, verify, c);
    if Current(before, u, s.db.users[u].passwordHash) {
      CommitRetiresKeys(before, verify, c, later);
    }
  }

  // ----- Racing changes -----

  lemma {:induction false} OverStays(s: State, verify: Verifier, es: seq<Event>, c: nat)
    requires Valid(s, verify, es) && c in s.calls && s.calls[c].Over?
    ensures c in Exec(s, verify, es).calls && Exec(s, verify, es).calls[c] == s.calls[c]
    decreases |es|
  {
    if es != [] {
      OverStays(Next(s, verify, es[0]), verify, es[1..], c);
    }
  }

  /** A reading that is out of date never becomes current again. */
  lemma {:induction false} StaleLoses(s: State, verify: Verifier, es: seq<Event>, c: nat)
    requires SysInv(s) && Valid(s, verify, es)
    requires c in s.calls && s.calls[c].Changing? && !Current(s, s.calls[c].user, s.calls[c].seen)
    ensures c in Exec(s, verify, es).calls && Exec(s, verify, es).calls[c] != Over(Done)
    decreases |es|
  {
    if es != [] {
      NextInv(s, verify, es[0]);
      if es[0] == Commit(c) {
        OverStays(Next(s, verify, es[0]), verify, es[1..], c);
      } else {
        CurrentStep(s, verify, es[0], c);
        StaleLoses(Next(s, verify, es[0]), verify, es[1..], c);
      }
    }
  }

  lemma {:induction false} Race(s: State, verify: Verifier, es: seq<Event>, c: nat, d: nat)
    requires SysInv(s) && Valid(s, verify, es) && c != d
    requires c in s.calls && d in s.calls && s.calls[c].Changing? && s.calls[d].Changing?
    requires s.calls[c].user == s.calls[d].user && s.calls[c].seen == s.calls[d].seen
    ensures c in Exec(s, verify, es).calls && d in Exec(s, verify, es).calls
    ensures Exec(s, verify, es).calls[c] != Over(Done) || Exec(s, verify, es).calls[d] != Over(Done)
    decreases |es|
  {
    if es != [] {
      var next := Next(s, verify, es[0]);
      NextInv(s, verify, es[0]);
      if es[0] == Commit(c) {
        CurrentStep(s, verify, es[0], d);
        StaleLoses(next, verify, es[1..], d);
        OverStays(next, verify, es[1..], c);
      } else if es[0] == Commit(d) {
        CurrentStep(s, verify, es[0], c);
        StaleLoses(next, verify, es[1..], c);
        OverStays(next, verify, es[1..], d);
      } else {
        CurrentStep(s, verify, es[0], c);
        CurrentStep(s, verify, es[0], d);
        Race(next, verify, es[1..], c, d);
      }
    }
  }

  /** Of two changes that verified the same password, at most one succeeds, in every run. */
  lemma OneWinner(s: State, verify: Verifier, es: seq<Event>, c: nat, d: nat)
    requires Reached(s, verify) && Valid(s, verify, es) && c != d
    requires c in s.calls && d in s.calls && s.calls[c].Changing? && s.calls[d].Changing?
    requires s.calls[c].user == s.calls[d].user && s.calls[c].seen == s.calls[d].seen
    ensures c in Exec(s, verify, es).calls && d in Exec(s, verify, es).calls
    ensures Exec(s, verify, es).calls[c] != Over(Done) || Exec(s, verify, es).calls[d] != Over(Done)
  {
    ReachedInv(s, verify);
    Race(s, verify, es, c, d);
  }
}
