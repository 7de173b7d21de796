/**
 All runs of the session service: logins and password changes are split at their password check, so that any
 number of them may be pending while other transactions commit. The audit records what happened, beside the tables.
 */
module SessionRuns {
  import opened Wrappers
  import opened Sessions

  /**
   `password`: the password each account was last given. `installed`, `retired`: salts of hashes that were ever stored,
   and of those replaced since. `changes`: committed password changes. `refreshed`: refresh tokens that succeeded.
   `issued`: the family of every access and refresh token ever handed out.
   */
  datatype Audit = Audit(password: map<nat, string>, installed: set<nat>, retired: set<nat>,
                         changes: seq<ChangeTicket>, refreshed: seq<nat>, issued: map<nat, nat>)

  datatype World = World(db: Db, logins: set<LoginTicket>, changes: set<ChangeTicket>, audit: Audit)

  datatype Event =
    | CreateUser(username: string, role: string, password: string, current: bool)
    | SetAccount(user: nat, role: string, disabled: bool)
    | ResetPassword(user: nat, password: string, current: bool, now: real)
    | RevokeFamily(family: nat, now: real)
    | StartLogin(username: string, password: string)
    | FinishLogin(login: LoginTicket, device: string, order: seq<nat>, now: real, later: real)
    | RefreshToken(secret: nat, now: real, later: real)
    | EndSession(principal: Principal, now: real, later: real)
    | StartChange(principal: Principal, password: string, wanted: string)
    | FinishChange(change: ChangeTicket, order: seq<nat>, now: real, later: real, last: real)

  ghost function Granted(audit: Audit, g: Grant): Audit {
    audit.(issued := audit.issued[g.access := g.family][g.refresh := g.family])
  }

  /** A new hash takes the place of the stored one. */
  ghost function Replaced(audit: Audit, was: Hash, hash: Hash): Audit {
    audit.(installed := audit.installed + {hash.salt}, retired := audit.retired + {was.salt})
  }

  // ---------------------------------------------------------------- steps

  ghost function AfterCreate(w: World, username: string, role: string, password: string, current: bool): World {
    if exists u :: u in w.db.users && w.db.users[u].username == username then w
    else
      var id, hash := w.db.next, Hash(password, w.db.next + 1, current);
      w.(db := w.db.(users := w.db.users[id := User(username, role, true, hash, false)], next := id + 2),
         audit := w.audit.(password := w.audit.password[id := password], installed := w.audit.installed + {id + 1}))
  }

  ghost function AfterReset(w: World, user: nat, password: string, current: bool, now: real): World {
    if user !in w.db.users then w
    else
      var was, hash := w.db.users[user].hash, Hash(password, w.db.next, current);
      var row := w.db.users[user].(hash := hash, mustChange := true);
      w.(db := Revoke(w.db.(users := w.db.users[user := row], next := w.db.next + 1), FamiliesOf(w.db.families, user), now),
         audit := Replaced(w.audit, was, hash).(password := w.audit.password[user := password]))
  }

  ghost function AfterStartLogin(w: World, username: string, password: string): World {
    var (db, r) := BeginLogin(w.db, username, password);
    if r.Success? then w.(db := db, logins := w.logins + {r.value}) else w
  }

  ghost function AfterFinishLogin(w: World, settings: Settings, t: LoginTicket, device: string, order: seq<nat>,
                                  now: real, later: real): World
  {
    if t !in w.logins || !NewestFirst(w.db, t.user, order) then w
    else
      var (db, r) := CommitLogin(w.db, settings, t, device, order, now, later);
      var audit := if r.Failure? then w.audit
                   else if t.replacement.Some? then Replaced(Granted(w.audit, r.value), t.oldHash, t.replacement.value)
                   else Granted(w.audit, r.value);
      w.(db := db, logins := w.logins - {t}, audit := audit)
  }

  ghost function AfterRefresh(w: World, settings: Settings, secret: nat, now: real, later: real): World {
    var (db, r) := Refresh(w.db, settings, secret, now, later);
    var audit := if r.Failure? then w.audit
                 else Granted(w.audit, r.value).(refreshed := w.audit.refreshed + [secret]);
    w.(db := db, audit := audit)
  }

  ghost function AfterStartChange(w: World, p: Principal, password: string, wanted: string): World {
    var (db, r) := BeginChange(w.db, p, password, wanted);
    if r.Success? then w.(db := db, changes := w.changes + {r.value}) else w
  }

  ghost function AfterFinishChange(w: World, settings: Settings, t: ChangeTicket, order: seq<nat>,
                                   now: real, later: real, last: real): World
  {
    if t !in w.changes || !NewestFirst(w.db, t.principal.user, order) then w
    else
      var (db, r) := CommitChange(w.db, settings, t, order, now, later, last);
      var user := t.principal.user;
      var audit := if r.Failure? then w.audit
                   else Replaced(Granted(w.audit, r.value), t.oldHash, t.encoded).(
                     password := w.audit.password[user := t.password], changes := w.audit.changes + [t]);
      w.(db := db, changes := w.changes - {t}, audit := audit)
  }

  ghost function Apply(w: World, settings: Settings, e: Event): World {
    match e
    case CreateUser(username, role, password, current) => AfterCreate(w, username, role, password, current)
    case SetAccount(user, role, disabled) =>
      if user !in w.db.users then w
      else w.(db := w.db.(users := w.db.users[user := w.db.users[user].(role := role, disabled := disabled)]))
    case ResetPassword(user, password, current, now) => AfterReset(w, user, password, current, now)
    case RevokeFamily(family, now) => w.(db := Revoke(w.db, {family}, now))
    case StartLogin(username, password) => AfterStartLogin(w, username, password)
    case FinishLogin(t, device, order, now, later) => AfterFinishLogin(w, settings, t, device, order, now, later)
    case RefreshToken(secret, now, later) => AfterRefresh(w, settings, secret, now, later)
    case EndSession(p, now, later) => w.(db := Logout(w.db, p, now, later).0)
    case StartChange(p, password, wanted) => AfterStartChange(w, p, password, wanted)
    case FinishChange(t, order, now, later, last) => AfterFinishChange(w, settings, t, order, now, later, last)
  }

  ghost function Run(w: World, settings: Settings, events: seq<Event>): World
    decreases |events|
  {
    if events == [] then w else Run(Apply(w, settings, events[0]), settings, events[1..])
  }

  ghost const EMPTY: World := World(Db(map[], map[], map[], 0), {}, {}, Audit(map[], {}, {}, [], [], map[]))

  // ---------------------------------------------------------------- invariants

  /** Every stored hash is one that was installed, has not been replaced and belongs to one account. */
  ghost predicate StoredHashes(users: map<nat, User>, audit: Audit, next: nat) {
    && audit.password.Keys == users.Keys
    && audit.retired <= audit.installed
    && (forall s :: s in audit.installed ==> s < next)
    && (forall u :: u in users ==>
          && users[u].hash.password == audit.password[u]
          && users[u].hash.salt in audit.installed && users[u].hash.salt !in audit.retired)
    && (forall u, v :: u in users && v in users && u != v ==> users[u].hash.salt != users[v].hash.salt)
  }

  ghost predicate PendingLogin(t: LoginTicket, audit: Audit, next: nat) {
    && t.password == t.oldHash.password && t.oldHash.salt in audit.installed && t.id < next
    && (t.replacement.Some? ==>
          && t.replacement.value.password == t.password
          && t.replacement.value.salt < next && t.replacement.value.salt !in audit.installed)
  }

  ghost predicate PendingChange(t: ChangeTicket, audit: Audit, next: nat) {
    && t.encoded.password == t.password && t.oldHash.salt in audit.installed
    && t.encoded.salt < next && t.encoded.salt !in audit.installed
  }

  /** Hashes computed for pending transactions are correct, new and all different. */
  ghost predicate PendingHashes(w: World) {
    && (forall t :: t in w.logins ==> PendingLogin(t, w.audit, w.db.next))
    && (forall t :: t in w.changes ==> PendingChange(t, w.audit, w.db.next))
    && (forall t, v :: t in w.logins && v in w.logins && t != v && t.replacement.Some? && v.replacement.Some? ==>
          t.replacement.value.salt != v.replacement.value.salt)
    && (forall t, v :: t in w.changes && v in w.changes && t != v ==> t.encoded.salt != v.encoded.salt)
    && (forall t, v :: t in w.logins && v in w.changes && t.replacement.Some? ==>
          t.replacement.value.salt != v.encoded.salt)
  }

  /** Committed changes were verified against different hashes, all of them replaced since. */
  ghost predicate CommittedChanges(audit: Audit) {
    && (forall i :: 0 <= i < |audit.changes| ==> audit.changes[i].oldHash.salt in audit.retired)
    && (forall i, j :: 0 <= i < j < |audit.changes| ==>
          audit.changes[i].oldHash.salt != audit.changes[j].oldHash.salt)
  }

  /** Token rows agree with the audit, and a refresh token that succeeded is consumed or gone. */
  ghost predicate Secrets(tokens: map<nat, Token>, issued: map<nat, nat>, refreshed: seq<nat>, next: nat) {
    && (forall x :: x in issued ==> x < next && issued[x] < next)
    && (forall t :: t in tokens ==>
          && tokens[t].access in issued && issued[tokens[t].access] == tokens[t].family
          && tokens[t].refresh in issued && issued[tokens[t].refresh] == tokens[t].family)
    && (forall i :: 0 <= i < |refreshed| ==> refreshed[i] in issued)
    && (forall i, j :: 0 <= i < j < |refreshed| ==> refreshed[i] != refreshed[j])
    && (forall t :: t in tokens && tokens[t].refresh in refreshed ==> tokens[t].rotatedAt.Some?)
  }

  ghost predicate HasSecret(tokens: map<nat, Token>, x: nat) {
    exists t :: t in tokens && tokens[t].refresh == x
  }

  /** A consumed refresh token stays in the table as replay evidence for as long as its family exists. */
  ghost predicate Evidence(tokens: map<nat, Token>, families: set<nat>, issued: map<nat, nat>, refreshed: seq<nat>) {
    forall x {:trigger HasSecret(tokens, x)} ::
      x in refreshed && x in issued && issued[x] in families ==> HasSecret(tokens, x)
  }

  ghost predicate EvidenceOk(w: World) {
    Evidence(w.db.tokens, w.db.families.Keys, w.audit.issued, w.audit.refreshed)
  }

  ghost predicate HashesOk(w: World) {
    StoredHashes(w.db.users, w.audit, w.db.next) && PendingHashes(w) && CommittedChanges(w.audit)
  }

  ghost predicate SecretsOk(w: World) {
    Secrets(w.db.tokens, w.audit.issued, w.audit.refreshed, w.db.next)
  }

  ghost predicate Inv(w: World, settings: Settings) {
    Valid(w.db, settings) && HashesOk(w) && SecretsOk(w) && EvidenceOk(w)
  }

  // ---------------------------------------------------------------- steps keep the tables valid

  lemma TablesStep(w: World, settings: Settings, e: Event)
    requires Valid(w.db, settings)
    ensures TablesKept(w.db, Apply(w, settings, e).db, settings)
  {
    var after := Apply(w, settings, e).db;
    match e
    case CreateUser(_, _, _, _) =>
      CreateTables(w, settings, e);
      CreateStep(w.db, settings, e, after);
    case FinishLogin(_, _, _, _, _) =>
      LoginTables(w, settings, e);
      FinishLoginStep(w.db, settings, e, after);
    case RefreshToken(secret, now, later) =>
      RefreshTables(w, settings, e);
      RefreshStep(w.db, settings, e, after);
    case EndSession(p, now, later) =>
      EndTables(w, settings, e);
      EndStep(w.db, settings, e, after);
    case FinishChange(_, _, _, _, _) =>
      ChangeTables(w, settings, e);
      FinishChangeStep(w.db, settings, e, after);
    case _ => OtherStep(w, settings, e);
  }

  // What each event does to the tables.

  ghost predicate NameTaken(db: Db, username: string) {
    exists u :: u in db.users && db.users[u].username == username
  }

  ghost predicate CreateLeaves(db: Db, e: Event, after: Db)
    requires e.CreateUser?
  {
    after == if NameTaken(db, e.username) then db
             else db.(users := db.users[db.next := User(e.username, e.role, true, Hash(e.password, db.next + 1, e.current), false)],
                      next := db.next + 2)
  }

  ghost predicate LoginLeaves(db: Db, settings: Settings, e: Event, after: Db)
    requires e.FinishLogin?
  {
    || after == db
    || (NewestFirst(db, e.login.user, e.order)
        && after == CommitLogin(db, settings, e.login, e.device, e.order, e.now, e.later).0)
  }

  ghost predicate ChangeLeaves(db: Db, settings: Settings, e: Event, after: Db)
    requires e.FinishChange?
  {
    || after == db
    || (NewestFirst(db, e.change.principal.user, e.order)
        && after == CommitChange(db, settings, e.change, e.order, e.now, e.later, e.last).0)
  }

  lemma CreateTables(w: World, settings: Settings, e: Event)
    requires e.CreateUser?
    ensures CreateLeaves(w.db, e, Apply(w, settings, e).db)
  {}

  lemma LoginTables(w: World, settings: Settings, e: Event)
    requires e.FinishLogin?
    ensures LoginLeaves(w.db, settings, e, Apply(w, settings, e).db)
  {}

  lemma ChangeTables(w: World, settings: Settings, e: Event)
    requires e.FinishChange?
    ensures ChangeLeaves(w.db, settings, e, Apply(w, settings, e).db)
  {}

  lemma RefreshTables(w: World, settings: Settings, e: Event)
    requires e.RefreshToken?
    ensures Apply(w, settings, e).db == Refresh(w.db, settings, e.secret, e.now, e.later).0
  {}

  lemma EndTables(w: World, settings: Settings, e: Event)
    requires e.EndSession?
    ensures Apply(w, settings, e).db == Logout(w.db, e.principal, e.now, e.later).0
  {}

  lemma CreateStep(db: Db, settings: Settings, e: Event, after: Db)
    requires Valid(db, settings) && e.CreateUser? && CreateLeaves(db, e, after)
    ensures TablesKept(db, after, settings)
  {
    if NameTaken(db, e.username) {
      NothingKeeps(db, settings);
    } else {
      CreateKeeps(db, settings, db.next, User(e.username, e.role, true, Hash(e.password, db.next + 1, e.current), false), after);
    }
  }

  lemma FinishLoginStep(db: Db, settings: Settings, e: Event, after: Db)
    requires Valid(db, settings) && e.FinishLogin? && LoginLeaves(db, settings, e, after)
    ensures TablesKept(db, after, settings)
  {
    if after == db {
      NothingKeeps(db, settings);
    } else {
      CommitLoginKeeps(db, settings, e.login, e.device, e.order, e.now, e.later);
    }
  }

  lemma FinishChangeStep(db: Db, settings: Settings, e: Event, after: Db)
    requires Valid(db, settings) && e.FinishChange? && ChangeLeaves(db, settings, e, after)
    ensures TablesKept(db, after, settings)
  {
    if after == db {
      NothingKeeps(db, settings);
    } else {
      CommitChangeKeeps(db, settings, e.change, e.order, e.now, e.later, e.last);
    }
  }

  lemma RefreshStep(db: Db, settings: Settings, e: Event, after: Db)
    requires Valid(db, settings) && e.RefreshToken? && after == Refresh(db, settings, e.secret, e.now, e.later).0
    ensures TablesKept(db, after, settings)
  {
    RefreshKeeps(db, settings, e.secret, e.now, e.later);
  }

  lemma EndStep(db: Db, settings: Settings, e: Event, after: Db)
    requires Valid(db, settings) && e.EndSession? && after == Logout(db, e.principal, e.now, e.later).0
    ensures TablesKept(db, after, settings)
  {
    LogoutKeeps(db, settings, e.principal, e.now, e.later);
  }

  lemma OtherStepSame(w: World, settings: Settings, e: Event)
    requires e.SetAccount? || e.ResetPassword? || e.RevokeFamily? || e.StartLogin? || e.StartChange?
    ensures SameSessions(w.db, Apply(w, settings, e).db)
  {
    if e.ResetPassword? && e.user in w.db.users {
      var row := Apply(w, settings, e).db.users[e.user];
      RevokeIsSame(w.db.(users := w.db.users[e.user := row], next := w.db.next + 1), FamiliesOf(w.db.families, e.user), e.now);
    }
  }

  lemma OtherStep(w: World, settings: Settings, e: Event)
    requires Valid(w.db, settings)
    requires e.SetAccount? || e.ResetPassword? || e.RevokeFamily? || e.StartLogin? || e.StartChange?
    ensures TablesKept(w.db, Apply(w, settings, e).db, settings)
  {
    OtherStepSame(w, settings, e);
    SameSessionsKeeps(w.db, Apply(w, settings, e).db, settings);
  }

  // ---------------------------------------------------------------- steps keep the hashes in order

  /** Storing an unused hash for an account, in place of the one it has. */
  lemma StoreHash(users: map<nat, User>, user: nat, row: User, password: string, audit: Audit, next: nat, later: Audit)
    requires StoredHashes(users, audit, next) && user in users
    requires row.hash.salt < next && row.hash.salt !in audit.installed && row.hash.password == password
    requires later.password == audit.password[user := password]
    requires later.installed == audit.installed + {row.hash.salt}
    requires later.retired == audit.retired + {users[user].hash.salt}
    ensures StoredHashes(users[user := row], later, next)
  {}

  lemma CreateHashes(w: World, username: string, role: string, password: string, current: bool)
    requires HashesOk(w) && Linked(w.db)
    ensures HashesOk(AfterCreate(w, username, role, password, current))
  {
    var after := AfterCreate(w, username, role, password, current);
    if after != w {
      var id := w.db.next;
      assert after.audit.password.Keys == after.db.users.Keys;
      PendingAfterInstall(w, after, id + 1);
    }
  }

  /** Installing a hash that no pending transaction holds leaves the pending ones in order. */
  lemma PendingAfterInstall(w: World, after: World, salt: nat)
    requires PendingHashes(w) && after.logins <= w.logins && after.changes <= w.changes && w.db.next <= after.db.next
    requires after.audit.installed == w.audit.installed + {salt}
    requires forall t :: t in after.logins && t.replacement.Some? ==> t.replacement.value.salt != salt
    requires forall t :: t in after.changes ==> t.encoded.salt != salt
    ensures PendingHashes(after)
  {
    forall t | t in after.logins ensures PendingLogin(t, after.audit, after.db.next) {
      assert PendingLogin(t, w.audit, w.db.next);
    }
    forall t | t in after.changes ensures PendingChange(t, after.audit, after.db.next) {
      assert PendingChange(t, w.audit, w.db.next);
    }
  }

  lemma PendingSubset(w: World, after: World)
    requires PendingHashes(w) && after.logins <= w.logins && after.changes <= w.changes && w.db.next <= after.db.next
    requires after.audit.installed == w.audit.installed
    ensures PendingHashes(after)
  {
    forall t | t in after.logins ensures PendingLogin(t, after.audit, after.db.next) {
      assert PendingLogin(t, w.audit, w.db.next);
    }
    forall t | t in after.changes ensures PendingChange(t, after.audit, after.db.next) {
      assert PendingChange(t, w.audit, w.db.next);
    }
  }

  lemma FreshSaltUnpending(w: World)
    requires PendingHashes(w)
    ensures forall t :: t in w.logins && t.replacement.Some? ==> t.replacement.value.salt < w.db.next
    ensures forall t :: t in w.changes ==> t.encoded.salt < w.db.next
  {
    forall t | t in w.logins && t.replacement.Some? ensures t.replacement.value.salt < w.db.next {
      assert PendingLogin(t, w.audit, w.db.next);
    }
    forall t | t in w.changes ensures t.encoded.salt < w.db.next {
      assert PendingChange(t, w.audit, w.db.next);
    }
  }

  lemma ResetHashes(w: World, user: nat, password: string, current: bool, now: real)
    requires HashesOk(w)
    ensures HashesOk(AfterReset(w, user, password, current, now))
  {
    if user in w.db.users {
      var after := AfterReset(w, user, password, current, now);
      var row := after.db.users[user];
      FreshSaltUnpending(w);
      StoreHash(w.db.users, user, row, password, w.audit, after.db.next, after.audit);
      PendingAfterInstall(w, after, w.db.next);
    }
  }

  lemma StartLoginHashes(w: World, username: string, password: string)
    requires HashesOk(w)
    ensures HashesOk(AfterStartLogin(w, username, password))
  {
    var (db, r) := BeginLogin(w.db, username, password);
    if r.Success? {
      AddLogin(w, db, r.value);
    }
  }

  lemma AddLogin(w: World, db: Db, t: LoginTicket)
    requires StoredHashes(w.db.users, w.audit, w.db.next) && PendingHashes(w) && w.db.next <= db.next
    requires PendingLogin(t, w.audit, db.next) && (t.replacement.Some? ==> t.replacement.value.salt >= w.db.next)
    ensures PendingHashes(w.(db := db, logins := w.logins + {t}))
  {
    FreshSaltUnpending(w);
    PendingSubset(w, w.(db := db));
  }

  lemma StartChangeHashes(w: World, p: Principal, password: string, wanted: string)
    requires HashesOk(w)
    ensures HashesOk(AfterStartChange(w, p, password, wanted))
  {
    var (db, r) := BeginChange(w.db, p, password, wanted);
    if r.Success? {
      var after := AfterStartChange(w, p, password, wanted);
      FreshSaltUnpending(w);
      PendingSubset(w, w.(db := db));
      assert PendingChange(r.value, after.audit, db.next);
    }
  }

  /** What a committed login leaves in the users table. */
  lemma LoginUsers(db: Db, settings: Settings, t: LoginTicket, device: string, order: seq<nat>, now: real, later: real)
    ensures var (after, r) := CommitLogin(db, settings, t, device, order, now, later);
            && db.next <= after.next
            && (r.Failure? ==> after == db)
            && (r.Success? ==>
                && t.user in db.users && db.users[t.user].hash == t.oldHash
                && after.users == if t.replacement.Some? then db.users[t.user := db.users[t.user].(hash := t.replacement.value)]
                                  else db.users)
  {}

  lemma FinishLoginHashes(w: World, settings: Settings, t: LoginTicket, device: string, order: seq<nat>, now: real, later: real)
    requires HashesOk(w)
    ensures HashesOk(AfterFinishLogin(w, settings, t, device, order, now, later))
  {
    if t in w.logins && NewestFirst(w.db, t.user, order) {
      var after := AfterFinishLogin(w, settings, t, device, order, now, later);
      LoginUsers(w.db, settings, t, device, order, now, later);
      FinishedLoginHashes(w, after, t, CommitLogin(w.db, settings, t, device, order, now, later).1.Success?);
    }
  }

  lemma FinishedLoginHashes(w: World, after: World, t: LoginTicket, committed: bool)
    requires HashesOk(w) && t in w.logins && w.db.next <= after.db.next
    requires after.logins == w.logins - {t} && after.changes == w.changes && after.audit.changes == w.audit.changes
    requires after.audit.password == w.audit.password
    requires if committed && t.replacement.Some? then
               && t.user in w.db.users && w.db.users[t.user].hash == t.oldHash
               && after.db.users == w.db.users[t.user := w.db.users[t.user].(hash := t.replacement.value)]
               && after.audit.installed == w.audit.installed + {t.replacement.value.salt}
               && after.audit.retired == w.audit.retired + {t.oldHash.salt}
             else
               && after.db.users == w.db.users
               && after.audit.installed == w.audit.installed && after.audit.retired == w.audit.retired
    ensures HashesOk(after)
  {
    assert PendingLogin(t, w.audit, w.db.next);
    if committed && t.replacement.Some? {
      var row := w.db.users[t.user].(hash := t.replacement.value);
      assert w.audit.password[t.user := t.password] == w.audit.password;
      StoreHash(w.db.users, t.user, row, t.password, w.audit, after.db.next, after.audit);
      PendingAfterInstall(w, after, row.hash.salt);
    } else {
      PendingSubset(w, after);
    }
  }

  lemma ChangeUsers(db: Db, settings: Settings, t: ChangeTicket, order: seq<nat>, now: real, later: real, last: real)
    ensures var (after, r) := CommitChange(db, settings, t, order, now, later, last);
            var user := t.principal.user;
            && db.next <= after.next
            && (r.Failure? ==> after == db)
            && (r.Success? ==>
                && user in db.users && db.users[user].hash == t.oldHash
                && after.users == db.users[user := db.users[user].(hash := t.encoded, mustChange := false)])
  {}

  lemma FinishChangeHashes(w: World, settings: Settings, t: ChangeTicket, order: seq<nat>, now: real, later: real, last: real)
    requires HashesOk(w)
    ensures HashesOk(AfterFinishChange(w, settings, t, order, now, later, last))
  {
    if t in w.changes && NewestFirst(w.db, t.principal.user, order) {
      var after := AfterFinishChange(w, settings, t, order, now, later, last);
      ChangeUsers(w.db, settings, t, order, now, later, last);
      FinishedChangeHashes(w, after, t, CommitChange(w.db, settings, t, order, now, later, last).1.Success?);
    }
  }

  lemma FinishedChangeHashes(w: World, after: World, t: ChangeTicket, committed: bool)
    requires HashesOk(w) && t in w.changes && w.db.next <= after.db.next
    requires after.logins == w.logins && after.changes == w.changes - {t}
    requires var user := t.principal.user;
             if committed then
               && user in w.db.users && w.db.users[user].hash == t.oldHash
               && after.db.users == w.db.users[user := w.db.users[user].(hash := t.encoded, mustChange := false)]
               && after.audit.password == w.audit.password[user := t.password]
               && after.audit.installed == w.audit.installed + {t.encoded.salt}
               && after.audit.retired == w.audit.retired + {t.oldHash.salt}
               && after.audit.changes == w.audit.changes + [t]
             else
               && after.db.users == w.db.users && after.audit == w.audit
    ensures HashesOk(after)
  {
    assert PendingChange(t, w.audit, w.db.next);
    if committed {
      var user := t.principal.user;
      StoreHash(w.db.users, user, after.db.users[user], t.password, w.audit, after.db.next, after.audit);
      PendingAfterInstall(w, after, t.encoded.salt);
      assert t.oldHash.salt !in w.audit.retired;
    } else {
      PendingSubset(w, after);
    }
  }

  /** The remaining steps leave hashes and pending transactions alone. */
  lemma OtherHashes(w: World, settings: Settings, e: Event)
    requires HashesOk(w)
    requires e.SetAccount? || e.RevokeFamily? || e.RefreshToken? || e.EndSession?
    ensures HashesOk(Apply(w, settings, e))
  {
    OtherUsers(w, settings, e);
    HashesCarried(w, Apply(w, settings, e));
  }

  /** No hash changed, and nothing was started or finished. */
  ghost predicate SameHashes(w: World, after: World) {
    && after.db.users.Keys == w.db.users.Keys && (forall u :: u in w.db.users ==> after.db.users[u].hash == w.db.users[u].hash)
    && after.logins == w.logins && after.changes == w.changes && w.db.next <= after.db.next
    && after.audit.(issued := w.audit.issued, refreshed := w.audit.refreshed) == w.audit
  }

  lemma OtherUsers(w: World, settings: Settings, e: Event)
    requires e.SetAccount? || e.RevokeFamily? || e.RefreshToken? || e.EndSession?
    ensures SameHashes(w, Apply(w, settings, e))
  {}

  lemma HashesCarried(w: World, after: World)
    requires HashesOk(w) && SameHashes(w, after)
    ensures HashesOk(after)
  {
    StoredSame(w.db.users, after.db.users, w.audit, w.db.next, after.audit, after.db.next);
    PendingSubset(w, after);
  }

  lemma StoredSame(users: map<nat, User>, after: map<nat, User>, audit: Audit, next: nat, audit': Audit, next': nat)
    requires StoredHashes(users, audit, next) && after.Keys == users.Keys && next <= next'
    requires forall u :: u in users ==> after[u].hash == users[u].hash
    requires audit'.(issued := audit.issued, refreshed := audit.refreshed) == audit
    ensures StoredHashes(after, audit', next')
  {}

  lemma HashesStep(w: World, settings: Settings, e: Event)
    requires HashesOk(w) && Linked(w.db)
    ensures HashesOk(Apply(w, settings, e))
  {
    match e
    case CreateUser(username, role, password, current) => CreateHashes(w, username, role, password, current);
    case ResetPassword(user, password, current, now) => ResetHashes(w, user, password, current, now);
    case StartLogin(username, password) => StartLoginHashes(w, username, password);
    case FinishLogin(t, device, order, now, later) => FinishLoginHashes(w, settings, t, device, order, now, later);
    case StartChange(p, password, wanted) => StartChangeHashes(w, p, password, wanted);
    case FinishChange(t, order, now, later, last) => FinishChangeHashes(w, settings, t, order, now, later, last);
    case _ => OtherHashes(w, settings, e);
  }

  // ---------------------------------------------------------------- steps keep the token records in order

  lemma SecretsSubset(tokens: map<nat, Token>, issued: map<nat, nat>, refreshed: seq<nat>, next: nat,
                      after: map<nat, Token>, later: nat)
    requires Secrets(tokens, issued, refreshed, next) && next <= later
    requires forall t :: t in after ==> t in tokens && after[t] == tokens[t]
    ensures Secrets(after, issued, refreshed, later)
  {}

  lemma SecretsIssue(tokens: map<nat, Token>, issued: map<nat, nat>, refreshed: seq<nat>, next: nat, id: nat, t: Token, later: nat)
    requires Secrets(tokens, issued, refreshed, next) && id !in tokens
    requires next <= t.access < t.refresh < later && t.family < later
    ensures Secrets(tokens[id := t], issued[t.access := t.family][t.refresh := t.family], refreshed, later)
  {}

  lemma SecretsConsume(tokens: map<nat, Token>, issued: map<nat, nat>, refreshed: seq<nat>, next: nat, id: nat, now: real)
    requires Secrets(tokens, issued, refreshed, next) && id in tokens && tokens[id].rotatedAt.None?
    requires UniqueSecrets(tokens)
    ensures Secrets(tokens[id := tokens[id].(rotatedAt := Some(now))], issued, refreshed + [tokens[id].refresh], next)
  {}

  lemma NewFamilyTokens(db: Db, settings: Settings, user: nat, device: string, order: seq<nat>, now: real, later: real)
    requires Linked(db)
    ensures var (after, g) := NewFamily(db, settings, user, device, order, now, later);
            var id := db.next + 3;
            && after.next == db.next + 4 && id !in db.tokens
            && after.tokens == Drop(db, Surplus(order)).tokens[id := after.tokens[id]]
            && after.tokens[id].access == g.access == db.next + 1 && after.tokens[id].refresh == g.refresh == db.next + 2
            && after.tokens[id].family == g.family == db.next
  {}

  lemma NewFamilySecrets(w: World, db: Db, settings: Settings, user: nat, device: string, order: seq<nat>, now: real, later: real)
    requires SecretsOk(w) && db.tokens == w.db.tokens && db.next == w.db.next && Linked(db)
    ensures var (after, g) := NewFamily(db, settings, user, device, order, now, later);
            Secrets(after.tokens, Granted(w.audit, g).issued, w.audit.refreshed, after.next)
  {
    var (after, g) := NewFamily(db, settings, user, device, order, now, later);
    NewFamilyTokens(db, settings, user, device, order, now, later);
    var kept, id := Drop(db, Surplus(order)).tokens, db.next + 3;
    SecretsSubset(w.db.tokens, w.audit.issued, w.audit.refreshed, w.db.next, kept, w.db.next);
    SecretsIssue(kept, w.audit.issued, w.audit.refreshed, w.db.next, id, after.tokens[id], after.next);
  }

  lemma FinishLoginSecrets(w: World, settings: Settings, t: LoginTicket, device: string, order: seq<nat>, now: real, later: real)
    requires SecretsOk(w) && Linked(w.db)
    ensures SecretsOk(AfterFinishLogin(w, settings, t, device, order, now, later))
  {
    if t.user in w.db.users {
      var stored := if t.replacement.Some? then SetHash(w.db, t.user, t.replacement.value) else w.db;
      NewFamilySecrets(w, stored, settings, t.user, device, order, now, later);
    }
  }

  lemma FinishChangeSecrets(w: World, settings: Settings, t: ChangeTicket, order: seq<nat>, now: real, later: real, last: real)
    requires SecretsOk(w) && Linked(w.db)
    ensures SecretsOk(AfterFinishChange(w, settings, t, order, now, later, last))
  {
    if t.principal.user in w.db.users && t.principal.family in w.db.families {
      var stored := Cleared(w.db, t, later);
      ClearedIsSame(w.db, t, later);
      SameSessionsLinked(w.db, stored);
      NewFamilySecrets(w, stored, settings, t.principal.user, w.db.families[t.principal.family].device, order, later, last);
    }
  }

  /** A refresh that succeeds consumes the row of its token and issues one more. */
  lemma RefreshIssues(db: Db, settings: Settings, secret: nat, now: real, later: real) returns (row: nat, t: Token)
    requires Refresh(db, settings, secret, now, later).1.Success?
    ensures row in db.tokens && db.tokens[row].refresh == secret && db.tokens[row].rotatedAt.None?
    ensures var (after, r) := Refresh(db, settings, secret, now, later);
            && after.tokens == db.tokens[row := db.tokens[row].(rotatedAt := Some(now))][db.next + 2 := t]
            && after.next == db.next + 3 && t.access == r.value.access == db.next && t.refresh == r.value.refresh == db.next + 1
            && t.family == r.value.family == db.tokens[row].family
  {
    row := RowByRefresh(db, secret).value;
    t := Refresh(db, settings, secret, now, later).0.tokens[db.next + 2];
  }

  /** The same for the secrets of the tables. */
  lemma RotatedSecrets(tokens: map<nat, Token>, issued: map<nat, nat>, refreshed: seq<nat>, next: nat, row: nat, now: real, t: Token)
    requires Secrets(tokens, issued, refreshed, next) && UniqueSecrets(tokens) && (forall v :: v in tokens ==> v < next)
    requires row in tokens && tokens[row].rotatedAt.None?
    requires t.access == next && t.refresh == next + 1 && t.family < next
    ensures Secrets(tokens[row := tokens[row].(rotatedAt := Some(now))][next + 2 := t],
                    issued[t.access := t.family][t.refresh := t.family], refreshed + [tokens[row].refresh], next + 3)
  {
    var rotated := tokens[row := tokens[row].(rotatedAt := Some(now))];
    SecretsConsume(tokens, issued, refreshed, next, row, now);
    SecretsIssue(rotated, issued, refreshed + [tokens[row].refresh], next, next + 2, t, next + 3);
  }

  /** The run after a refresh: nothing changed in tokens and audit, or the row of the token was rotated. */
  ghost predicate RotatedBy(w: World, after: World, row: nat, now: real, t: Token) {
    && row in w.db.tokens && w.db.tokens[row].rotatedAt.None?
    && t.access == w.db.next && t.refresh == w.db.next + 1 && t.family == w.db.tokens[row].family
    && after.db.tokens == w.db.tokens[row := w.db.tokens[row].(rotatedAt := Some(now))][w.db.next + 2 := t]
    && after.db.next == w.db.next + 3
    && after.audit.issued == w.audit.issued[t.access := t.family][t.refresh := t.family]
    && after.audit.refreshed == w.audit.refreshed + [w.db.tokens[row].refresh]
  }

  lemma RefreshMoves(w: World, settings: Settings, secret: nat, now: real, later: real) returns (row: nat, t: Token)
    requires Refresh(w.db, settings, secret, now, later).1.Success?
    ensures RotatedBy(w, AfterRefresh(w, settings, secret, now, later), row, now, t)
  {
    row, t := RefreshIssues(w.db, settings, secret, now, later);
  }

  lemma RefreshFails(w: World, settings: Settings, secret: nat, now: real, later: real)
    requires Refresh(w.db, settings, secret, now, later).1.Failure?
    ensures SameTokens(w, AfterRefresh(w, settings, secret, now, later))
  {}

  lemma SecretsRotated(w: World, after: World, row: nat, now: real, t: Token)
    requires SecretsOk(w) && Linked(w.db) && UniqueSecrets(w.db.tokens) && RotatedBy(w, after, row, now, t)
    ensures SecretsOk(after)
  {
    assert w.audit.issued[w.db.tokens[row].refresh] == t.family < w.db.next;
    RotatedSecrets(w.db.tokens, w.audit.issued, w.audit.refreshed, w.db.next, row, now, t);
  }

  lemma RefreshSecrets(w: World, settings: Settings, secret: nat, now: real, later: real)
    requires SecretsOk(w) && Linked(w.db) && UniqueSecrets(w.db.tokens)
    ensures SecretsOk(AfterRefresh(w, settings, secret, now, later))
  {
    var after := AfterRefresh(w, settings, secret, now, later);
    if Refresh(w.db, settings, secret, now, later).1.Success? {
      var row, t := RefreshMoves(w, settings, secret, now, later);
      SecretsRotated(w, after, row, now, t);
    } else {
      RefreshFails(w, settings, secret, now, later);
      SecretsCarried(w, after);
    }
  }

  lemma SecretsStep(w: World, settings: Settings, e: Event)
    requires SecretsOk(w) && Linked(w.db) && UniqueSecrets(w.db.tokens)
    ensures SecretsOk(Apply(w, settings, e))
  {
    match e
    case FinishLogin(t, device, order, now, later) => FinishLoginSecrets(w, settings, t, device, order, now, later);
    case RefreshToken(secret, now, later) => RefreshSecrets(w, settings, secret, now, later);
    case FinishChange(t, order, now, later, last) => FinishChangeSecrets(w, settings, t, order, now, later, last);
    case _ =>
      var after := Apply(w, settings, e);
      NothingGranted(w, settings, e);
      SecretsCarried(w, after);
  }

  /** No token row and no family came or went, and no token was handed out or used. */
  ghost predicate SameTokens(w: World, after: World) {
    && after.db.tokens == w.db.tokens && after.db.families.Keys == w.db.families.Keys && w.db.next <= after.db.next
    && after.audit.issued == w.audit.issued && after.audit.refreshed == w.audit.refreshed
  }

  lemma NothingGranted(w: World, settings: Settings, e: Event)
    requires !e.FinishLogin? && !e.RefreshToken? && !e.FinishChange?
    ensures SameTokens(w, Apply(w, settings, e))
  {}

  lemma SecretsCarried(w: World, after: World)
    requires SecretsOk(w) && SameTokens(w, after)
    ensures SecretsOk(after)
  {}

  lemma EvidenceCarried(w: World, after: World)
    requires EvidenceOk(w) && SameTokens(w, after)
    ensures EvidenceOk(after)
  {}

  // ---------------------------------------------------------------- steps keep the replay evidence

  lemma EvidenceKept(tokens: map<nat, Token>, families: set<nat>, issued: map<nat, nat>, refreshed: seq<nat>, next: nat,
                     after: map<nat, Token>, left: set<nat>, more: map<nat, nat>)
    requires Secrets(tokens, issued, refreshed, next) && Evidence(tokens, families, issued, refreshed)
    requires forall f :: f in left && f < next ==> f in families
    requires forall t :: t in tokens && tokens[t].family in left ==> t in after && after[t].refresh == tokens[t].refresh
    requires forall x :: x in issued ==> x in more && more[x] == issued[x]
    ensures Evidence(after, left, more, refreshed)
  {
    forall x | x in refreshed && x in more && more[x] in left ensures HasSecret(after, x) {
      assert x in issued && issued[x] in families;
      assert HasSecret(tokens, x);
      var t :| t in tokens && tokens[t].refresh == x;
      assert t in after && after[t].refresh == x;
    }
  }

  lemma NewFamilyEvidence(w: World, db: Db, settings: Settings, user: nat, device: string, order: seq<nat>, now: real, later: real)
    requires SecretsOk(w) && EvidenceOk(w) && db.tokens == w.db.tokens && db.next == w.db.next && Linked(db)
    requires db.families.Keys == w.db.families.Keys
    ensures var (after, g) := NewFamily(db, settings, user, device, order, now, later);
            Evidence(after.tokens, after.families.Keys, Granted(w.audit, g).issued, w.audit.refreshed)
  {
    var (after, g) := NewFamily(db, settings, user, device, order, now, later);
    NewFamilyTokens(db, settings, user, device, order, now, later);
    assert after.families.Keys == db.families.Keys - Surplus(order) + {db.next};
    EvidenceKept(w.db.tokens, w.db.families.Keys, w.audit.issued, w.audit.refreshed, w.db.next,
                 after.tokens, after.families.Keys, Granted(w.audit, g).issued);
  }

  lemma FinishLoginEvidence(w: World, settings: Settings, t: LoginTicket, device: string, order: seq<nat>, now: real, later: real)
    requires SecretsOk(w) && EvidenceOk(w) && Linked(w.db)
    ensures EvidenceOk(AfterFinishLogin(w, settings, t, device, order, now, later))
  {
    if t.user in w.db.users {
      var stored := if t.replacement.Some? then SetHash(w.db, t.user, t.replacement.value) else w.db;
      NewFamilyEvidence(w, stored, settings, t.user, device, order, now, later);
    }
  }

  lemma FinishChangeEvidence(w: World, settings: Settings, t: ChangeTicket, order: seq<nat>, now: real, later: real, last: real)
    requires SecretsOk(w) && EvidenceOk(w) && Linked(w.db)
    ensures EvidenceOk(AfterFinishChange(w, settings, t, order, now, later, last))
  {
    if t.principal.user in w.db.users && t.principal.family in w.db.families {
      var stored := Cleared(w.db, t, later);
      ClearedIsSame(w.db, t, later);
      SameSessionsLinked(w.db, stored);
      NewFamilyEvidence(w, stored, settings, t.principal.user, w.db.families[t.principal.family].device, order, later, last);
    }
  }

  /** What a refresh does to the token rows and the audit. */
  ghost predicate Refreshed(w: World, after: World, secret: nat) {
    && after.db.families.Keys == w.db.families.Keys
    && (forall t :: t in w.db.tokens ==> t in after.db.tokens && after.db.tokens[t].refresh == w.db.tokens[t].refresh)
    && (forall x :: x in w.audit.issued && x < w.db.next ==> x in after.audit.issued && after.audit.issued[x] == w.audit.issued[x])
    && (after.audit.refreshed == w.audit.refreshed
        || (after.audit.refreshed == w.audit.refreshed + [secret] && HasSecret(after.db.tokens, secret)))
  }

  lemma RefreshLeaves(w: World, settings: Settings, secret: nat, now: real, later: real)
    requires Linked(w.db)
    ensures Refreshed(w, AfterRefresh(w, settings, secret, now, later), secret)
  {
    var after := AfterRefresh(w, settings, secret, now, later);
    if after.audit.refreshed != w.audit.refreshed {
      var row := RowByRefresh(w.db, secret).value;
      assert row in after.db.tokens && after.db.tokens[row].refresh == secret;
    }
  }

  lemma RefreshEvidence(w: World, settings: Settings, secret: nat, now: real, later: real)
    requires SecretsOk(w) && EvidenceOk(w) && Linked(w.db)
    ensures EvidenceOk(AfterRefresh(w, settings, secret, now, later))
  {
    RefreshLeaves(w, settings, secret, now, later);
    EvidenceRefreshed(w, AfterRefresh(w, settings, secret, now, later), secret);
  }

  lemma EvidenceRefreshed(w: World, after: World, secret: nat)
    requires SecretsOk(w) && EvidenceOk(w) && Refreshed(w, after, secret)
    ensures EvidenceOk(after)
  {
    EvidenceKept(w.db.tokens, w.db.families.Keys, w.audit.issued, w.audit.refreshed, w.db.next,
                 after.db.tokens, after.db.families.Keys, after.audit.issued);
  }

  lemma EvidenceStep(w: World, settings: Settings, e: Event)
    requires SecretsOk(w) && EvidenceOk(w) && Linked(w.db)
    ensures EvidenceOk(Apply(w, settings, e))
  {
    match e
    case FinishLogin(t, device, order, now, later) => FinishLoginEvidence(w, settings, t, device, order, now, later);
    case RefreshToken(secret, now, later) => RefreshEvidence(w, settings, secret, now, later);
    case FinishChange(t, order, now, later, last) => FinishChangeEvidence(w, settings, t, order, now, later, last);
    case _ =>
      NothingGranted(w, settings, e);
      EvidenceCarried(w, Apply(w, settings, e));
  }

  // ---------------------------------------------------------------- all runs

  lemma InvStep(w: World, settings: Settings, e: Event)
    requires Inv(w, settings)
    ensures Inv(Apply(w, settings, e), settings)
  {
    TablesStep(w, settings, e);
    HashesStep(w, settings, e);
    SecretsStep(w, settings, e);
    EvidenceStep(w, settings, e);
  }

  /** Everything below holds of the world after any events whatever, from the empty service. */
  lemma {:induction false} InvRun(w: World, settings: Settings, events: seq<Event>)
    requires Inv(w, settings)
    ensures Inv(Run(w, settings, events), settings)
    decreases |events|
  {
    if events != [] {
      InvStep(w, settings, events[0]);
      InvRun(Apply(w, settings, events[0]), settings, events[1..]);
    }
  }

  lemma EmptyInv(settings: Settings)
    ensures Inv(EMPTY, settings)
  {}

  ghost predicate Reachable(w: World, settings: Settings) {
    exists events :: w == Run(EMPTY, settings, events)
  }

  lemma ReachableInv(w: World, settings: Settings)
    requires Reachable(w, settings)
    ensures Inv(w, settings)
  {
    var events :| w == Run(EMPTY, settings, events);
    EmptyInv(settings);
    InvRun(EMPTY, settings, events);
  }

  lemma {:induction false} DeadRun(w: World, settings: Settings, events: seq<Event>, family: nat)
    requires Inv(w, settings) && Dead(w.db, family)
    ensures Dead(Run(w, settings, events).db, family)
    decreases |events|
  {
    if events != [] {
      TablesStep(w, settings, events[0]);
      InvStep(w, settings, events[0]);
      DeadRun(Apply(w, settings, events[0]), settings, events[1..], family);
    }
  }

  /** Some use of the token succeeds at some time. */
  ghost predicate Usable(db: Db, settings: Settings, secret: nat) {
    || (exists now :: Authenticate(db, secret, now).Success?)
    || (exists now, later :: Refresh(db, settings, secret, now, later).1.Success?)
  }

  lemma DeadMeansUnusable(w: World, settings: Settings, secret: nat)
    requires Inv(w, settings) && secret in w.audit.issued && Dead(w.db, w.audit.issued[secret])
    ensures !Usable(w.db, settings, secret)
  {}

  // ---------------------------------------------------------------- main results

  /** The stored hash verifies exactly the password the account was last given, in every reachable state. */
  lemma HashVerifiesCurrentPassword(w: World, settings: Settings, user: nat, password: string)
    requires Reachable(w, settings) && user in w.db.users
    ensures user in w.audit.password
    ensures Verify(w.db.users[user].hash, password) <==> password == w.audit.password[user]
  {
    ReachableInv(w, settings);
  }

  /** Every login that passes its check is pending beside all others, even those of the same account and password. */
  lemma EveryLoginPends(w: World, settings: Settings, username: string, password: string)
    requires Reachable(w, settings) && BeginLogin(w.db, username, password).1.Success?
    ensures var t := BeginLogin(w.db, username, password).1.value;
            t !in w.logins && Apply(w, settings, StartLogin(username, password)).logins == w.logins + {t}
  {
    ReachableInv(w, settings);
    var t := BeginLogin(w.db, username, password).1.value;
    assert t in w.logins ==> PendingLogin(t, w.audit, w.db.next);
  }

  /** A login that was checked earlier commits only if its password is still the account's password. */
  lemma LoginCommitsCurrentPassword(w: World, settings: Settings, t: LoginTicket, device: string, order: seq<nat>, now: real, later: real)
    requires Reachable(w, settings) && t in w.logins
    requires CommitLogin(w.db, settings, t, device, order, now, later).1.Success?
    ensures t.user in w.audit.password && t.password == w.audit.password[t.user]
  {
    ReachableInv(w, settings);
    assert PendingLogin(t, w.audit, w.db.next);
  }

  /** Of all password changes verified against one stored hash, at most one ever commits. */
  lemma ChangeCommitsOnce(w: World, settings: Settings, i: nat, j: nat)
    requires Reachable(w, settings) && i < j < |w.audit.changes|
    ensures w.audit.changes[i].oldHash != w.audit.changes[j].oldHash
  {
    ReachableInv(w, settings);
  }

  /** No refresh token succeeds twice in any run. */
  lemma RefreshSucceedsOnce(w: World, settings: Settings, i: nat, j: nat)
    requires Reachable(w, settings) && i < j < |w.audit.refreshed|
    ensures w.audit.refreshed[i] != w.audit.refreshed[j]
  {
    ReachableInv(w, settings);
  }

  /** The account behind a family, if the family still exists, is enabled. */
  ghost predicate OwnerEnabled(db: Db, family: nat) {
    family in db.families && db.families[family].user in db.users ==> !db.users[db.families[family].user].disabled
  }

  /**
   Presenting a refresh token that already succeeded, while the account is enabled, ends its family: whatever happens
   afterwards, no token ever issued to that family, before or after, is accepted again.
   */
  lemma ReplayEndsFamily(w: World, settings: Settings, secret: nat, now: real, later: real, events: seq<Event>, end: World, other: nat)
    requires Reachable(w, settings) && secret in w.audit.refreshed
    requires end == Run(Apply(w, settings, RefreshToken(secret, now, later)), settings, events)
    ensures secret in w.audit.issued
    ensures var family := w.audit.issued[secret];
            OwnerEnabled(w.db, family) && other in end.audit.issued && end.audit.issued[other] == family ==>
              !Usable(end.db, settings, other)
  {
    ReachableInv(w, settings);
    var next, family := Apply(w, settings, RefreshToken(secret, now, later)), w.audit.issued[secret];
    if OwnerEnabled(w.db, family) && other in end.audit.issued && end.audit.issued[other] == family {
      ReplayKills(w, settings, secret, now, later);
      InvStep(w, settings, RefreshToken(secret, now, later));
      DeadRun(next, settings, events, family);
      InvRun(next, settings, events);
      DeadMeansUnusable(end, settings, other);
    }
  }

  lemma ReplayKills(w: World, settings: Settings, secret: nat, now: real, later: real)
    requires Inv(w, settings) && secret in w.audit.refreshed && secret in w.audit.issued
    requires OwnerEnabled(w.db, w.audit.issued[secret])
    ensures Dead(Apply(w, settings, RefreshToken(secret, now, later)).db, w.audit.issued[secret])
  {
    var f := w.audit.issued[secret];
    if f in w.db.families {
      assert HasSecret(w.db.tokens, secret);
      var t :| t in w.db.tokens && w.db.tokens[t].refresh == secret;
      assert HasRow(w.db, t) && w.db.tokens[t].rotatedAt.Some? && w.db.tokens[t].family == f;
      OnlyRefreshRow(w.db, t);
    }
    RefreshTables(w, settings, RefreshToken(secret, now, later));
    ReplayRevokes(w.db, settings, secret, now, later, f);
  }

  lemma OnlyRefreshRow(db: Db, t: nat)
    requires UniqueSecrets(db.tokens) && HasRow(db, t)
    ensures RowByRefresh(db, db.tokens[t].refresh) == Some(t)
  {
    var row := RowByRefresh(db, db.tokens[t].refresh);
    assert HasRow(db, t);
  }

  /** Presenting the token of a consumed row leaves its family revoked, or it is gone already. */
  lemma ReplayRevokes(db: Db, settings: Settings, secret: nat, now: real, later: real, f: nat)
    requires f < db.next && OwnerEnabled(db, f)
    requires f in db.families ==>
               var row := RowByRefresh(db, secret);
               row.Some? && db.tokens[row.value].family == f && db.tokens[row.value].rotatedAt.Some?
    ensures Dead(Refresh(db, settings, secret, now, later).0, f)
  {}

  /** The bounds every reachable state keeps. */
  lemma TablesStayBounded(w: World, settings: Settings)
    requires Reachable(w, settings)
    ensures forall u :: u in w.db.users ==> |FamiliesOf(w.db.families, u)| <= 32
    ensures forall f :: f in w.db.families ==>
              1 <= |TokensOf(w.db.tokens, f)| <= 4096 && |Unrotated(w.db.tokens, f)| == 1
    ensures forall t :: t in w.db.tokens ==>
              && w.db.tokens[t].family in w.db.families
              && var token, family := w.db.tokens[t], w.db.families[w.db.tokens[t].family];
                 token.accessExpires <= family.expiresAt || token.accessExpires <= token.createdAt + 1.0
  {
    ReachableInv(w, settings);
    forall u | u in w.db.users ensures |FamiliesOf(w.db.families, u)| <= 32 {
      assert FewFamilies(w.db.families, u);
    }
    forall f | f in w.db.families
      ensures 1 <= |TokensOf(w.db.tokens, f)| <= 4096 && |Unrotated(w.db.tokens, f)| == 1
    {
      assert OneLiveToken(w.db.tokens, f);
    }
  }

  /** No chain of refreshes outlives the login: every use lies within one refresh lifetime of it. */
  lemma NoUseAfterLifetime(w: World, settings: Settings, secret: nat, now: real, later: real)
    requires Reachable(w, settings) && secret in w.audit.issued
    requires Authenticate(w.db, secret, now).Success? || Refresh(w.db, settings, secret, now, later).1.Success?
    ensures w.audit.issued[secret] in w.db.families
    ensures now < w.db.families[w.audit.issued[secret]].createdAt + settings.refreshTtl as real
  {
    ReachableInv(w, settings);
    UseWithinLifetime(w, settings, secret, now, later);
  }

  lemma UseWithinLifetime(w: World, settings: Settings, secret: nat, now: real, later: real)
    requires Inv(w, settings) && secret in w.audit.issued
    requires Authenticate(w.db, secret, now).Success? || Refresh(w.db, settings, secret, now, later).1.Success?
    ensures w.audit.issued[secret] in w.db.families
    ensures now < w.db.families[w.audit.issued[secret]].createdAt + settings.refreshTtl as real
  {
    if Authenticate(w.db, secret, now).Success? {
      var t := AuthenticatedWithin(w.db, settings, secret, now);
    } else {
      var t := RefreshedWithin(w.db, settings, secret, now, later);
    }
  }

  lemma AuthenticatedWithin(db: Db, settings: Settings, secret: nat, now: real) returns (t: nat)
    requires Expiring(db, settings) && Authenticate(db, secret, now).Success?
    ensures HasRow(db, t) && db.tokens[t].access == secret
    ensures now < db.families[db.tokens[t].family].createdAt + settings.refreshTtl as real
  {
    t := RowByAccess(db, secret).value;
  }

  lemma RefreshedWithin(db: Db, settings: Settings, secret: nat, now: real, later: real) returns (t: nat)
    requires Expiring(db, settings) && Refresh(db, settings, secret, now, later).1.Success?
    ensures HasRow(db, t) && db.tokens[t].refresh == secret
    ensures now < db.families[db.tokens[t].family].createdAt + settings.refreshTtl as real
  {
    t := RowByRefresh(db, secret).value;
  }

  /** A committed password change leaves exactly one unrevoked family for the user: the one it just created. */
  lemma ChangeLeavesOneSession(w: World, settings: Settings, t: ChangeTicket, order: seq<nat>, now: real, later: real, last: real, db: Db)
    requires Reachable(w, settings) && t in w.changes && NewestFirst(w.db, t.principal.user, order)
    requires CommitChange(w.db, settings, t, order, now, later, last).1.Success?
    requires db == Apply(w, settings, FinishChange(t, order, now, later, last)).db
    ensures var family := CommitChange(w.db, settings, t, order, now, later, last).1.value.family;
            && family in FamiliesOf(db.families, t.principal.user)
            && forall f :: f in FamiliesOf(db.families, t.principal.user) ==>
                 (db.families[f].revokedAt.None? <==> f == family)
  {
    ReachableLinked(w, settings);
    ChangeApplied(w, settings, t, order, now, later, last);
    ChangeRevokesAll(w.db, settings, t, order, now, later, last);
  }

  lemma ReachableLinked(w: World, settings: Settings)
    requires Reachable(w, settings)
    ensures Linked(w.db)
  {
    ReachableInv(w, settings);
  }

  lemma ChangeApplied(w: World, settings: Settings, t: ChangeTicket, order: seq<nat>, now: real, later: real, last: real)
    requires t in w.changes && NewestFirst(w.db, t.principal.user, order)
    ensures Apply(w, settings, FinishChange(t, order, now, later, last)).db
            == CommitChange(w.db, settings, t, order, now, later, last).0
  {}

  /** Everything issued to the user's earlier families stays unusable in every continuation of a committed change. */
  lemma ChangeEndsOldSessions(w: World, settings: Settings, t: ChangeTicket, order: seq<nat>, now: real, later: real, last: real,
                              events: seq<Event>, end: World, secret: nat)
    requires Reachable(w, settings) && t in w.changes && NewestFirst(w.db, t.principal.user, order)
    requires CommitChange(w.db, settings, t, order, now, later, last).1.Success?
    requires end == Run(Apply(w, settings, FinishChange(t, order, now, later, last)), settings, events)
    requires secret in w.audit.issued && w.audit.issued[secret] in FamiliesOf(w.db.families, t.principal.user)
    ensures !Usable(end.db, settings, secret)
  {
    ReachableInv(w, settings);
    var e := FinishChange(t, order, now, later, last);
    ChangeKills(w, settings, e, w.audit.issued[secret]);
    InvStep(w, settings, e);
    assert secret < w.db.next;
    IssuedStep(w, settings, e, secret);
    DeadForever(Apply(w, settings, e), settings, events, secret);
  }

  lemma ChangeKills(w: World, settings: Settings, e: Event, family: nat)
    requires Linked(w.db) && e.FinishChange? && e.change in w.changes && NewestFirst(w.db, e.change.principal.user, e.order)
    requires CommitChange(w.db, settings, e.change, e.order, e.now, e.later, e.last).1.Success?
    requires family in FamiliesOf(w.db.families, e.change.principal.user)
    ensures Dead(Apply(w, settings, e).db, family)
  {
    ChangeRevokesAll(w.db, settings, e.change, e.order, e.now, e.later, e.last);
    assert Apply(w, settings, e).db == CommitChange(w.db, settings, e.change, e.order, e.now, e.later, e.last).0;
  }

  lemma DeadForever(w: World, settings: Settings, events: seq<Event>, secret: nat)
    requires Inv(w, settings) && secret in w.audit.issued && Dead(w.db, w.audit.issued[secret])
    ensures !Usable(Run(w, settings, events).db, settings, secret)
  {
    DeadRun(w, settings, events, w.audit.issued[secret]);
    InvRun(w, settings, events);
    IssuedRun(w, settings, events, secret);
    DeadMeansUnusable(Run(w, settings, events), settings, secret);
  }

  lemma ChangeRevokesAll(db: Db, settings: Settings, t: ChangeTicket, order: seq<nat>, now: real, later: real, last: real)
    requires Linked(db) && CommitChange(db, settings, t, order, now, later, last).1.Success?
    ensures var (after, r) := CommitChange(db, settings, t, order, now, later, last);
            && r.value.family == db.next
            && db.next in FamiliesOf(after.families, t.principal.user) && after.families[db.next].revokedAt.None?
            && (forall f :: f in FamiliesOf(after.families, t.principal.user) && f != db.next ==>
                  after.families[f].revokedAt.Some?)
            && (forall f :: f in FamiliesOf(db.families, t.principal.user) ==> Dead(after, f))
  {
    var stored := Cleared(db, t, later);
    ClearedIsSame(db, t, later);
    var (after, r) := CommitChange(db, settings, t, order, now, later, last);
    assert after.families == (stored.families - Surplus(order))[db.next := after.families[db.next]];
    forall f | f in FamiliesOf(after.families, t.principal.user) && f != db.next ensures after.families[f].revokedAt.Some? {
      assert f in FamiliesOf(db.families, t.principal.user);
    }
  }

  /** The family a token was issued to never changes. */
  lemma {:induction false} IssuedRun(w: World, settings: Settings, events: seq<Event>, secret: nat)
    requires Inv(w, settings) && secret in w.audit.issued
    ensures secret in Run(w, settings, events).audit.issued
    ensures Run(w, settings, events).audit.issued[secret] == w.audit.issued[secret]
    decreases |events|
  {
    if events != [] {
      InvStep(w, settings, events[0]);
      assert secret < w.db.next;
      IssuedStep(w, settings, events[0], secret);
      IssuedRun(Apply(w, settings, events[0]), settings, events[1..], secret);
    }
  }

  lemma IssuedStep(w: World, settings: Settings, e: Event, secret: nat)
    requires secret in w.audit.issued && secret < w.db.next
    ensures secret in Apply(w, settings, e).audit.issued
    ensures Apply(w, settings, e).audit.issued[secret] == w.audit.issued[secret]
  {
    match e
    case FinishLogin(t, device, order, now, later) => LoginGrantFresh(w.db, settings, t, device, order, now, later);
    case RefreshToken(x, now, later) => RefreshGrantFresh(w.db, settings, x, now, later);
    case FinishChange(t, order, now, later, last) => ChangeGrantFresh(w.db, settings, t, order, now, later, last);
    case _ =>
  }

  ghost predicate FreshGrant(r: Result<Grant, ApiError>, next: nat) {
    r.Success? ==> r.value.access >= next && r.value.refresh >= next
  }

  lemma LoginGrantFresh(db: Db, settings: Settings, t: LoginTicket, device: string, order: seq<nat>, now: real, later: real)
    ensures FreshGrant(CommitLogin(db, settings, t, device, order, now, later).1, db.next)
  {}

  lemma RefreshGrantFresh(db: Db, settings: Settings, secret: nat, now: real, later: real)
    ensures FreshGrant(Refresh(db, settings, secret, now, later).1, db.next)
  {}

  lemma ChangeGrantFresh(db: Db, settings: Settings, t: ChangeTicket, order: seq<nat>, now: real, later: real, last: real)
    ensures FreshGrant(CommitChange(db, settings, t, order, now, later, last).1, db.next)
  {}
}
