/**
 Users, session families and session tokens of `AuthService`, with one function per transaction.

 Random values (ids, tokens, salts) are drawn from a counter and therefore fresh. A password hash carries the
 password and its salt, so verification is exact. Each clock read is a parameter.
 */
module Sessions {
  import opened Wrappers

  const MAX_TOKENS := 4096
  const KEPT_FAMILIES := 31

  /** `current` is false when the hash was made with other parameters and must be replaced at login. */
  datatype Hash = Hash(password: string, salt: nat, current: bool)

  datatype User = User(username: string, role: string, mustChange: bool, hash: Hash, disabled: bool)

  datatype Family = Family(user: nat, device: string, createdAt: real, expiresAt: real, revokedAt: Option<real>)

  datatype Token = Token(family: nat, access: nat, refresh: nat, accessExpires: real, refreshExpires: real,
                         createdAt: real, rotatedAt: Option<real>)

  /** The tables, and the next random value to be drawn. */
  datatype Db = Db(users: map<nat, User>, families: map<nat, Family>, tokens: map<nat, Token>, next: nat)

  datatype Settings = Settings(accessTtl: int, refreshTtl: int)

  datatype Grant = Grant(access: nat, refresh: nat, expiresIn: int, family: nat)

  datatype Principal = Principal(user: nat, role: string, mustChange: bool, family: nat, token: nat)

  datatype ApiError = InvalidCredentials | InvalidSession | PasswordChangeRequired | PasswordUnchanged

  /** What a login carries from its password check into its transaction; `id` tells it from every other call. */
  datatype LoginTicket = LoginTicket(id: nat, user: nat, password: string, oldHash: Hash, replacement: Option<Hash>)

  /** What a password change carries from its password check into its transaction. */
  datatype ChangeTicket = ChangeTicket(principal: Principal, password: string, oldHash: Hash, encoded: Hash)

  predicate Verify(hash: Hash, password: string) { hash.password == password }

  // ---------------------------------------------------------------- issuing tokens

  /** Python's `int` on a float. */
  function Truncate(x: real): int {
    if x >= 0.0 then x.Floor else -(-x).Floor
  }

  /** `max(1, int(min(access_ttl, remaining)))` */
  function AccessTtl(settings: Settings, remaining: real): (ttl: int)
    ensures ttl >= 1
    ensures ttl as real <= remaining || ttl == 1
  {
    var least := if settings.accessTtl as real <= remaining then settings.accessTtl as real else remaining;
    if Truncate(least) > 1 then Truncate(least) else 1
  }

  function Issue(db: Db, settings: Settings, family: nat, expiresAt: real, now: real): (Db, Grant) {
    var ttl := AccessTtl(settings, expiresAt - now);
    var token := Token(family, db.next, db.next + 1, now + ttl as real, expiresAt, now, None);
    (db.(tokens := db.tokens[db.next + 2 := token], next := db.next + 3), Grant(db.next, db.next + 1, ttl, family))
  }

  ghost function FamiliesOf(families: map<nat, Family>, user: nat): set<nat> {
    set f | f in families && families[f].user == user
  }

  ghost function TokensOf(tokens: map<nat, Token>, family: nat): set<nat> {
    set t | t in tokens && tokens[t].family == family
  }

  /** Any order in which `ORDER BY created_at DESC` may list a user's families; ties are free. */
  ghost predicate NewestFirst(db: Db, user: nat, order: seq<nat>) {
    && (forall f :: f in order <==> f in FamiliesOf(db.families, user))
    && (forall i :: 0 <= i < |order| ==> order[i] in db.families)
    && (forall i, j :: 0 <= i < j < |order| ==>
          order[i] != order[j] && db.families[order[i]].createdAt >= db.families[order[j]].createdAt)
  }

  /** Removes families together with their tokens. */
  function Drop(db: Db, gone: set<nat>): Db {
    db.(families := db.families - gone,
        tokens := map t | t in db.tokens && db.tokens[t].family !in gone :: db.tokens[t])
  }

  function Surplus(order: seq<nat>): set<nat> {
    if |order| <= KEPT_FAMILIES then {} else set f | f in order[KEPT_FAMILIES..]
  }

  /** A new family row and its first tokens. */
  function StartFamily(db: Db, settings: Settings, user: nat, device: string, now: real, later: real): (Db, Grant) {
    var expiresAt := now + settings.refreshTtl as real;
    var family := Family(user, device, now, expiresAt, None);
    Issue(db.(families := db.families[db.next := family], next := db.next + 1), settings, db.next, expiresAt, later)
  }

  /** `_new_family`: drop all but the newest 31, add one and issue its first tokens. */
  function NewFamily(db: Db, settings: Settings, user: nat, device: string, order: seq<nat>, now: real, later: real)
    : (Db, Grant)
  {
    StartFamily(Drop(db, Surplus(order)), settings, user, device, now, later)
  }

  /** Sets `revoked_at` on the families that satisfy the condition. */
  function Revoke(db: Db, which: set<nat>, now: real): Db {
    db.(families := map f | f in db.families ::
      if f in which then db.families[f].(revokedAt := Some(now)) else db.families[f])
  }

  // ---------------------------------------------------------------- transactions

  ghost predicate HasRow(db: Db, t: nat) {
    && t in db.tokens
    && db.tokens[t].family in db.families
    && db.families[db.tokens[t].family].user in db.users
  }

  /** `_lookup` by the refresh column. */
  ghost function RowByRefresh(db: Db, secret: nat): (r: Option<nat>)
    ensures r.Some? ==> HasRow(db, r.value) && db.tokens[r.value].refresh == secret
    ensures r.None? ==> forall t :: HasRow(db, t) ==> db.tokens[t].refresh != secret
  {
    if exists t :: HasRow(db, t) && db.tokens[t].refresh == secret then
      var t :| HasRow(db, t) && db.tokens[t].refresh == secret;
      Some(t)
    else None
  }

  /** `_lookup` by the access column. */
  ghost function RowByAccess(db: Db, secret: nat): (r: Option<nat>)
    ensures r.Some? ==> HasRow(db, r.value) && db.tokens[r.value].access == secret
    ensures r.None? ==> forall t :: HasRow(db, t) ==> db.tokens[t].access != secret
  {
    if exists t :: HasRow(db, t) && db.tokens[t].access == secret then
      var t :| HasRow(db, t) && db.tokens[t].access == secret;
      Some(t)
    else None
  }

  ghost function Authenticate(db: Db, secret: nat, now: real): Result<Principal, ApiError> {
    var row := RowByAccess(db, secret);
    if row.None? then Failure(InvalidSession)
    else
      var t := db.tokens[row.value];
      var f := db.families[t.family];
      var u := db.users[f.user];
      if u.disabled || f.revokedAt.Some? || t.rotatedAt.Some? || now >= t.accessExpires || now >= f.expiresAt
      then Failure(InvalidSession)
      else Success(Principal(f.user, u.role, u.mustChange, t.family, row.value))
  }

  /** `assert_current` */
  predicate Current(db: Db, p: Principal, now: real) {
    && p.token in db.tokens && db.tokens[p.token].family == p.family
    && p.family in db.families && db.families[p.family].user == p.user
    && p.user in db.users
    && var t, f, u := db.tokens[p.token], db.families[p.family], db.users[p.user];
      && !u.disabled && t.rotatedAt.None? && f.revokedAt.None?
      && now < t.accessExpires && now < f.expiresAt
      && u.role == p.role && u.mustChange == p.mustChange
  }

  /** The first half of a login: read, verify, and re-hash if the parameters changed. */
  ghost function BeginLogin(db: Db, username: string, password: string): (Db, Result<LoginTicket, ApiError>) {
    if exists u :: u in db.users && db.users[u].username == username then
      var u :| u in db.users && db.users[u].username == username;
      var user := db.users[u];
      if !Verify(user.hash, password) || user.disabled then (db, Failure(InvalidCredentials))
      else if user.hash.current then (db.(next := db.next + 1), Success(LoginTicket(db.next, u, password, user.hash, None)))
      else (db.(next := db.next + 2),
            Success(LoginTicket(db.next, u, password, user.hash, Some(Hash(password, db.next + 1, true)))))
    else (db, Failure(InvalidCredentials))
  }

  /** The second half of a login, in one transaction. */
  function CommitLogin(db: Db, settings: Settings, t: LoginTicket, device: string, order: seq<nat>, now: real, later: real)
    : (Db, Result<Grant, ApiError>)
  {
    if t.user !in db.users || db.users[t.user].disabled || db.users[t.user].hash != t.oldHash then
      (db, Failure(InvalidCredentials))
    else
      var stored := if t.replacement.Some? then SetHash(db, t.user, t.replacement.value) else db;
      var (after, grant) := NewFamily(stored, settings, t.user, device, order, now, later);
      (after, Success(grant))
  }

  function SetHash(db: Db, user: nat, hash: Hash): Db
    requires user in db.users
  {
    db.(users := db.users[user := db.users[user].(hash := hash)])
  }

  /** `refresh`, past the rate limit. A refusal after the transaction keeps the revocation it made. */
  ghost function Refresh(db: Db, settings: Settings, secret: nat, now: real, later: real): (Db, Result<Grant, ApiError>) {
    var row := RowByRefresh(db, secret);
    if row.None? then (db, Failure(InvalidSession))
    else
      var t := db.tokens[row.value];
      var f := db.families[t.family];
      if db.users[f.user].disabled || f.revokedAt.Some? then (db, Failure(InvalidSession))
      else if t.rotatedAt.Some? then (Revoke(db, {t.family}, now), Failure(InvalidSession))
      else if now >= t.refreshExpires || now >= f.expiresAt then (Revoke(db, {t.family}, now), Failure(InvalidSession))
      else if db.users[f.user].mustChange then (db, Failure(PasswordChangeRequired))
      else if |TokensOf(db.tokens, t.family)| >= MAX_TOKENS then (Revoke(db, {t.family}, now), Failure(InvalidSession))
      else
        var (after, grant) := Issue(Rotate(db, row.value, now), settings, t.family, f.expiresAt, later);
        (after, Success(grant))
  }

  function Rotate(db: Db, token: nat, now: real): Db
    requires token in db.tokens
  {
    db.(tokens := db.tokens[token := db.tokens[token].(rotatedAt := Some(now))])
  }

  function Logout(db: Db, p: Principal, now: real, later: real): (Db, Result<(), ApiError>) {
    if !Current(db, p, now) then (db, Failure(InvalidSession))
    else (Revoke(db, {p.family}, later), Success(()))
  }

  /** The first half of a password change. */
  function BeginChange(db: Db, p: Principal, password: string, wanted: string): (Db, Result<ChangeTicket, ApiError>) {
    if p.user !in db.users || !Verify(db.users[p.user].hash, password) then (db, Failure(InvalidCredentials))
    else if password == wanted then (db, Failure(PasswordUnchanged))
    else (db.(next := db.next + 1),
          Success(ChangeTicket(p, wanted, db.users[p.user].hash, Hash(wanted, db.next, true))))
  }

  /** The second half of a password change, in one transaction. */
  ghost function CommitChange(db: Db, settings: Settings, t: ChangeTicket, order: seq<nat>,
                              now: real, later: real, last: real): (Db, Result<Grant, ApiError>)
  {
    var p := t.principal;
    if !Current(db, p, now) then (db, Failure(InvalidSession))
    else if db.users[p.user].hash != t.oldHash || later >= db.families[p.family].expiresAt then
      (db, Failure(InvalidSession))
    else
      var device := db.families[p.family].device;
      var user := db.users[p.user].(hash := t.encoded, mustChange := false);
      var stored := Revoke(db.(users := db.users[p.user := user]), FamiliesOf(db.families, p.user), later);
      var (after, grant) := NewFamily(stored, settings, p.user, device, order, later, last);
      (after, Success(grant))
  }

  // ---------------------------------------------------------------- what the tables always satisfy

  ghost function Unrotated(tokens: map<nat, Token>, family: nat): set<nat> {
    set t | t in tokens && tokens[t].family == family && tokens[t].rotatedAt.None?
  }

  ghost predicate Linked(db: Db) {
    && (forall u :: u in db.users ==> u < db.next)
    && (forall f :: f in db.families ==> f < db.next && db.families[f].user in db.users)
    && (forall t :: t in db.tokens ==>
          t < db.next && db.tokens[t].access < db.next && db.tokens[t].refresh < db.next
          && db.tokens[t].family in db.families)
  }

  ghost predicate UniqueSecrets(tokens: map<nat, Token>) {
    forall t, v :: t in tokens && v in tokens && t != v ==>
      tokens[t].access != tokens[v].access && tokens[t].refresh != tokens[v].refresh
  }

  ghost predicate UniqueNames(users: map<nat, User>) {
    forall u, v :: u in users && v in users && u != v ==> users[u].username != users[v].username
  }

  ghost predicate FewFamilies(families: map<nat, Family>, user: nat) {
    |FamiliesOf(families, user)| <= KEPT_FAMILIES + 1
  }

  ghost predicate OneLiveToken(tokens: map<nat, Token>, family: nat) {
    1 <= |TokensOf(tokens, family)| <= MAX_TOKENS && |Unrotated(tokens, family)| == 1
  }

  /** At most 32 families per user; 1 to 4096 tokens per family, of which exactly one has not been consumed. */
  ghost predicate Bounded(db: Db) {
    && (forall u {:trigger FewFamilies(db.families, u)} :: u in db.users ==> FewFamilies(db.families, u))
    && (forall f {:trigger OneLiveToken(db.tokens, f)} :: f in db.families ==> OneLiveToken(db.tokens, f))
  }

  /** A family expires one refresh lifetime after the login; no token of it outlives the family by more than a second. */
  ghost predicate Expiring(db: Db, settings: Settings) {
    && (forall f :: f in db.families ==>
          db.families[f].expiresAt == db.families[f].createdAt + settings.refreshTtl as real)
    && (forall t :: t in db.tokens && db.tokens[t].family in db.families ==>
          var expires := db.families[db.tokens[t].family].expiresAt;
          && db.tokens[t].refreshExpires == expires
          && (db.tokens[t].accessExpires <= expires || db.tokens[t].accessExpires <= db.tokens[t].createdAt + 1.0))
  }

  ghost predicate Valid(db: Db, settings: Settings) {
    match db
    case Db(users, _, tokens, _) =>
      Linked(db) && UniqueSecrets(tokens) && UniqueNames(users) && Bounded(db) && Expiring(db, settings)
  }

  /** Nothing of this family can be accepted any more. */
  ghost predicate Dead(db: Db, family: nat) {
    family < db.next && (family in db.families ==> db.families[family].revokedAt.Some?)
  }

  /** No dead family comes back to life. */
  ghost predicate StaysDead(db: Db, after: Db) {
    forall f {:trigger Dead(after, f)} :: Dead(db, f) ==> Dead(after, f)
  }

  /** The tables stay valid and dead families stay dead. */
  ghost predicate TablesKept(db: Db, after: Db, settings: Settings) {
    Valid(after, settings) && StaysDead(db, after)
  }

  // ---------------------------------------------------------------- what each kind of write keeps

  /** Only flags, hashes and revocation marks changed; no mark was taken back. */
  ghost predicate SameSessions(db: Db, after: Db) {
    && after.tokens == db.tokens && db.next <= after.next
    && after.users.Keys == db.users.Keys && after.families.Keys == db.families.Keys
    && (forall u :: u in db.users ==> after.users[u].username == db.users[u].username)
    && (forall f :: f in db.families ==>
          && after.families[f] == db.families[f].(revokedAt := after.families[f].revokedAt)
          && (db.families[f].revokedAt.Some? ==> after.families[f].revokedAt.Some?))
  }

  lemma SameSessionsBounded(db: Db, after: Db)
    requires Bounded(db) && SameSessions(db, after)
    ensures Bounded(after)
  {
    forall u | u in after.users ensures FewFamilies(after.families, u) {
      assert FewFamilies(db.families, u);
      assert FamiliesOf(after.families, u) == FamiliesOf(db.families, u);
    }
    forall f | f in after.families ensures OneLiveToken(after.tokens, f) {
      assert OneLiveToken(db.tokens, f);
    }
  }

  lemma SameSessionsExpiring(db: Db, after: Db, settings: Settings)
    requires Expiring(db, settings) && SameSessions(db, after)
    ensures Expiring(after, settings)
  {
    assert forall f :: f in db.families ==>
        after.families[f].expiresAt == db.families[f].expiresAt && after.families[f].createdAt == db.families[f].createdAt;
  }

  lemma SameSessionsNames(db: Db, after: Db)
    requires UniqueNames(db.users) && SameSessions(db, after)
    ensures UniqueNames(after.users)
  {}

  lemma SameSessionsLinked(db: Db, after: Db)
    requires Linked(db) && SameSessions(db, after)
    ensures Linked(after)
    ensures StaysDead(db, after)
  {
    assert forall f :: f in db.families ==> after.families[f].user == db.families[f].user;
  }

  lemma SameSessionsKeeps(db: Db, after: Db, settings: Settings)
    requires Valid(db, settings) && SameSessions(db, after)
    ensures TablesKept(db, after, settings)
  {
    SameSessionsLinked(db, after);
    SameSessionsNames(db, after);
    SameSessionsBounded(db, after);
    SameSessionsExpiring(db, after, settings);
  }

  lemma DropBounded(db: Db, gone: set<nat>)
    requires Bounded(db)
    ensures Bounded(Drop(db, gone))
  {
    var after := Drop(db, gone);
    forall u | u in after.users ensures FewFamilies(after.families, u) {
      assert FewFamilies(db.families, u);
      SubsetSize(FamiliesOf(after.families, u), FamiliesOf(db.families, u));
    }
    forall f | f in after.families ensures OneLiveToken(after.tokens, f) {
      assert OneLiveToken(db.tokens, f);
      assert TokensOf(after.tokens, f) == TokensOf(db.tokens, f) && Unrotated(after.tokens, f) == Unrotated(db.tokens, f);
    }
  }

  lemma DropLinked(db: Db, gone: set<nat>)
    requires Linked(db) && UniqueSecrets(db.tokens)
    ensures Linked(Drop(db, gone)) && UniqueSecrets(Drop(db, gone).tokens)
    ensures StaysDead(db, Drop(db, gone))
  {}

  lemma DropExpiring(db: Db, gone: set<nat>, settings: Settings)
    requires Expiring(db, settings)
    ensures Expiring(Drop(db, gone), settings)
  {}

  lemma DropKeeps(db: Db, settings: Settings, gone: set<nat>)
    requires Valid(db, settings)
    ensures TablesKept(db, Drop(db, gone), settings)
  {
    DropLinked(db, gone);
    DropBounded(db, gone);
    DropExpiring(db, gone, settings);
  }

  lemma SubsetSize(x: set<nat>, y: set<nat>)
    requires x <= y
    ensures |x| <= |y|
  {
    assert y == x + (y - x);
  }

  ghost function Elements(xs: seq<nat>): set<nat> {
    set x | x in xs
  }

  lemma {:induction false} ElementsAtMost(xs: seq<nat>)
    ensures |Elements(xs)| <= |xs|
  {
    if xs != [] {
      var n := |xs| - 1;
      ElementsAtMost(xs[..n]);
      assert xs == xs[..n] + [xs[n]];
      assert Elements(xs) == Elements(xs[..n]) + {xs[n]};
    }
  }

  /** Dropping the surplus leaves at most 31 families. */
  lemma SurplusLeaves(db: Db, user: nat, order: seq<nat>)
    requires NewestFirst(db, user, order)
    ensures |FamiliesOf(Drop(db, Surplus(order)).families, user)| <= KEPT_FAMILIES
  {
    var kept := if |order| <= KEPT_FAMILIES then order else order[..KEPT_FAMILIES];
    var left := FamiliesOf(Drop(db, Surplus(order)).families, user);
    forall f | f in left ensures f in Elements(kept) {
      assert f in FamiliesOf(db.families, user);
      var i :| 0 <= i < |order| && order[i] == f;
      assert order == order[..i] + [f] + order[i + 1..];
      assert f == kept[i];
    }
    ElementsAtMost(kept);
    SubsetSize(left, Elements(kept));
  }

  /** A family row and its first token row, both under fresh ids. */
  ghost function Added(db: Db, family: nat, f: Family, token: nat, t: Token, next: nat): Db {
    Db(db.users, db.families[family := f], db.tokens[token := t], next)
  }

  ghost predicate FreshPair(db: Db, family: nat, f: Family, token: nat, t: Token, next: nat) {
    && db.next <= family < next && db.next <= token < next && db.next <= t.access < next && db.next <= t.refresh < next
    && t.family == family && t.rotatedAt.None? && f.user in db.users
  }

  lemma AddedLinked(db: Db, family: nat, f: Family, token: nat, t: Token, next: nat)
    requires Linked(db) && UniqueSecrets(db.tokens) && FreshPair(db, family, f, token, t, next)
    ensures Linked(Added(db, family, f, token, t, next)) && UniqueSecrets(Added(db, family, f, token, t, next).tokens)
    ensures StaysDead(db, Added(db, family, f, token, t, next))
  {}

  lemma AddedFewFamilies(families: map<nat, Family>, family: nat, f: Family, u: nat)
    requires family !in families
    requires if u == f.user then |FamiliesOf(families, u)| <= KEPT_FAMILIES else FewFamilies(families, u)
    ensures FewFamilies(families[family := f], u)
  {
    assert FamiliesOf(families[family := f], u) == FamiliesOf(families, u) + if u == f.user then {family} else {};
  }

  lemma AddedOneLive(tokens: map<nat, Token>, family: nat, token: nat, t: Token, g: nat)
    requires token !in tokens && t.family == family && t.rotatedAt.None?
    requires if g == family then TokensOf(tokens, g) == {} else OneLiveToken(tokens, g)
    ensures OneLiveToken(tokens[token := t], g)
  {
    var after := tokens[token := t];
    if g == family {
      assert forall v :: v in tokens && tokens[v].family == g ==> v in TokensOf(tokens, g);
      assert TokensOf(after, g) == {token} && Unrotated(after, g) == {token};
    } else {
      assert TokensOf(after, g) == TokensOf(tokens, g) && Unrotated(after, g) == Unrotated(tokens, g);
    }
  }

  lemma AddedFamilies(users: map<nat, User>, families: map<nat, Family>, family: nat, f: Family)
    requires family !in families && |FamiliesOf(families, f.user)| <= KEPT_FAMILIES
    requires forall u {:trigger FewFamilies(families, u)} :: u in users ==> FewFamilies(families, u)
    ensures forall u {:trigger FewFamilies(families[family := f], u)} :: u in users ==> FewFamilies(families[family := f], u)
  {
    forall u | u in users ensures FewFamilies(families[family := f], u) {
      assert FewFamilies(families, u);
      AddedFewFamilies(families, family, f, u);
    }
  }

  lemma AddedTokens(families: set<nat>, tokens: map<nat, Token>, family: nat, token: nat, t: Token)
    requires token !in tokens && t.family == family && t.rotatedAt.None? && TokensOf(tokens, family) == {}
    requires forall g {:trigger OneLiveToken(tokens, g)} :: g in families ==> OneLiveToken(tokens, g)
    ensures forall g {:trigger OneLiveToken(tokens[token := t], g)} ::
              g in families || g == family ==> OneLiveToken(tokens[token := t], g)
  {
    forall g | g in families || g == family ensures OneLiveToken(tokens[token := t], g) {
      assert g in families ==> OneLiveToken(tokens, g);
      AddedOneLive(tokens, family, token, t, g);
    }
  }

  lemma AddedBounded(db: Db, family: nat, f: Family, token: nat, t: Token, next: nat)
    requires Linked(db) && Bounded(db) && FreshPair(db, family, f, token, t, next)
    requires |FamiliesOf(db.families, f.user)| <= KEPT_FAMILIES
    ensures Bounded(Added(db, family, f, token, t, next))
  {
    AddedFamilies(db.users, db.families, family, f);
    assert TokensOf(db.tokens, family) == {};
    AddedTokens(db.families.Keys, db.tokens, family, token, t);
  }

  lemma AddedExpiring(db: Db, family: nat, f: Family, token: nat, t: Token, next: nat, settings: Settings)
    requires Linked(db) && Expiring(db, settings) && FreshPair(db, family, f, token, t, next)
    requires f.expiresAt == f.createdAt + settings.refreshTtl as real && t.refreshExpires == f.expiresAt
    requires t.accessExpires <= f.expiresAt || t.accessExpires <= t.createdAt + 1.0
    ensures Expiring(Added(db, family, f, token, t, next), settings)
  {}

  /** Adding a family with its first token. */
  lemma StartFamilyKeeps(db: Db, settings: Settings, user: nat, device: string, now: real, later: real)
    requires Valid(db, settings) && user in db.users && |FamiliesOf(db.families, user)| <= KEPT_FAMILIES
    ensures TablesKept(db, StartFamily(db, settings, user, device, now, later).0, settings)
  {
    var after := StartFamily(db, settings, user, device, now, later).0;
    var family, token := db.next, db.next + 3;
    var f, t := after.families[family], after.tokens[token];
    assert after == Added(db, family, f, token, t, after.next);
    AddedLinked(db, family, f, token, t, after.next);
    AddedBounded(db, family, f, token, t, after.next);
    AddedExpiring(db, family, f, token, t, after.next, settings);
  }

  /** Consuming the one unconsumed token of a family and issuing the next. */
  lemma RotateKeeps(db: Db, settings: Settings, token: nat, now: real, later: real)
    requires Valid(db, settings) && HasRow(db, token) && db.tokens[token].rotatedAt.None?
    requires |TokensOf(db.tokens, db.tokens[token].family)| < MAX_TOKENS
    ensures var family := db.tokens[token].family;
            var (after, _) := Issue(Rotate(db, token, now), settings, family, db.families[family].expiresAt, later);
            TablesKept(db, after, settings)
  {
    var family := db.tokens[token].family;
    var (after, grant) := Issue(Rotate(db, token, now), settings, family, db.families[family].expiresAt, later);
    var issued := db.next + 2;
    RotateBounded(db, token, now, issued, after.tokens[issued], after.next);
    RotateExpiring(db, token, now, issued, after.tokens[issued], after.next, settings);
    RotateLinked(db, token, now, issued, after.tokens[issued], after.next);
  }

  ghost function Rotated(db: Db, token: nat, now: real, issued: nat, t: Token, next: nat): Db
    requires token in db.tokens
  {
    Db(db.users, db.families, Rotate(db, token, now).tokens[issued := t], next)
  }

  lemma RotateLinked(db: Db, token: nat, now: real, issued: nat, t: Token, next: nat)
    requires Linked(db) && UniqueSecrets(db.tokens) && HasRow(db, token) && t.family == db.tokens[token].family
    requires db.next <= issued < next && db.next <= t.access < next && db.next <= t.refresh < next
    ensures Linked(Rotated(db, token, now, issued, t, next))
    ensures UniqueSecrets(Rotated(db, token, now, issued, t, next).tokens)
    ensures StaysDead(db, Rotated(db, token, now, issued, t, next))
  {
    var rotated := db.tokens[token := db.tokens[token].(rotatedAt := Some(now))];
    assert Rotate(db, token, now).tokens == rotated;
    SameSecrets(db.tokens, rotated);
    AddedSecrets(rotated, issued, t);
    RowsLinked(db, rotated[issued := t], next);
  }

  /** Changing rows but not their secrets. */
  lemma SameSecrets(tokens: map<nat, Token>, after: map<nat, Token>)
    requires UniqueSecrets(tokens) && after.Keys == tokens.Keys
    requires forall v :: v in tokens ==> after[v].access == tokens[v].access && after[v].refresh == tokens[v].refresh
    ensures UniqueSecrets(after)
  {}

  /** A row with secrets that no other row has. */
  lemma AddedSecrets(tokens: map<nat, Token>, issued: nat, t: Token)
    requires UniqueSecrets(tokens) && issued !in tokens
    requires forall v :: v in tokens ==> tokens[v].access != t.access && tokens[v].refresh != t.refresh
    ensures UniqueSecrets(tokens[issued := t])
  {}

  lemma RowsLinked(db: Db, tokens: map<nat, Token>, next: nat)
    requires Linked(db) && db.next <= next
    requires forall v :: v in tokens ==>
               v < next && tokens[v].access < next && tokens[v].refresh < next && tokens[v].family in db.families
    ensures Linked(Db(db.users, db.families, tokens, next)) && StaysDead(db, Db(db.users, db.families, tokens, next))
  {}

  lemma RotateExpiring(db: Db, token: nat, now: real, issued: nat, t: Token, next: nat, settings: Settings)
    requires Linked(db) && Expiring(db, settings) && HasRow(db, token) && t.family == db.tokens[token].family
    requires var expires := db.families[t.family].expiresAt;
             t.refreshExpires == expires && (t.accessExpires <= expires || t.accessExpires <= t.createdAt + 1.0)
    ensures Expiring(Rotated(db, token, now, issued, t, next), settings)
  {}

  lemma RotateBounded(db: Db, token: nat, now: real, issued: nat, t: Token, next: nat)
    requires Bounded(db) && HasRow(db, token) && db.tokens[token].rotatedAt.None?
    requires |TokensOf(db.tokens, db.tokens[token].family)| < MAX_TOKENS
    requires issued !in db.tokens && t.family == db.tokens[token].family && t.rotatedAt.None?
    ensures Bounded(Rotated(db, token, now, issued, t, next))
  {
    var family := t.family;
    var tokens := Rotated(db, token, now, issued, t, next).tokens;
    forall u | u in db.users ensures FewFamilies(db.families, u) {}
    forall f | f in db.families ensures OneLiveToken(tokens, f) {
      assert OneLiveToken(db.tokens, f);
      if f == family {
        assert TokensOf(tokens, f) == TokensOf(db.tokens, f) + {issued};
        OnlyElement(Unrotated(db.tokens, f), token);
        assert forall v :: v in db.tokens && db.tokens[v].family == f && db.tokens[v].rotatedAt.None? ==>
          v in Unrotated(db.tokens, f);
        assert Unrotated(tokens, f) == {issued};
      } else {
        assert TokensOf(tokens, f) == TokensOf(db.tokens, f) && Unrotated(tokens, f) == Unrotated(db.tokens, f);
      }
    }
  }

  lemma OnlyElement(x: set<nat>, e: nat)
    requires |x| == 1 && e in x
    ensures x == {e}
  {
    assert |x - {e}| == 0;
  }

  lemma StartAfterDrop(db: Db, settings: Settings, user: nat, device: string, gone: set<nat>, now: real, later: real)
    requires Valid(Drop(db, gone), settings) && user in db.users
    requires |FamiliesOf(Drop(db, gone).families, user)| <= KEPT_FAMILIES
    ensures Valid(StartFamily(Drop(db, gone), settings, user, device, now, later).0, settings)
  {
    StartFamilyKeeps(Drop(db, gone), settings, user, device, now, later);
  }

  lemma DropThenStart(db: Db, settings: Settings, user: nat, device: string, gone: set<nat>, now: real, later: real)
    requires Valid(db, settings) && user in db.users
    requires |FamiliesOf(Drop(db, gone).families, user)| <= KEPT_FAMILIES
    ensures Valid(StartFamily(Drop(db, gone), settings, user, device, now, later).0, settings)
  {
    DropKeeps(db, settings, gone);
    StartAfterDrop(db, settings, user, device, gone, now, later);
  }

  lemma NewFamilyKeeps(db: Db, settings: Settings, user: nat, device: string, order: seq<nat>, now: real, later: real)
    requires Valid(db, settings) && user in db.users
    requires |FamiliesOf(Drop(db, Surplus(order)).families, user)| <= KEPT_FAMILIES
    ensures Valid(NewFamily(db, settings, user, device, order, now, later).0, settings)
  {
    DropThenStart(db, settings, user, device, Surplus(order), now, later);
  }

  lemma NewFamilyStaysDead(db: Db, settings: Settings, user: nat, device: string, order: seq<nat>, now: real, later: real)
    ensures StaysDead(db, NewFamily(db, settings, user, device, order, now, later).0)
  {
    var after := NewFamily(db, settings, user, device, order, now, later).0;
    assert after.families == (db.families - Surplus(order))[db.next := after.families[db.next]];
  }

  // ---------------------------------------------------------------- what each transaction keeps

  lemma NewestFirstAgain(db: Db, after: Db, user: nat, order: seq<nat>)
    requires SameSessions(db, after) && NewestFirst(db, user, order)
    ensures NewestFirst(after, user, order)
  {
    assert FamiliesOf(after.families, user) == FamiliesOf(db.families, user);
  }

  lemma RevokeIsSame(db: Db, which: set<nat>, now: real)
    ensures SameSessions(db, Revoke(db, which, now))
    ensures forall f :: f in which && f in db.families ==> Revoke(db, which, now).families[f].revokedAt.Some?
  {}

  lemma {:induction false} DeadChain(a: Db, b: Db, c: Db)
    requires StaysDead(a, b) && StaysDead(b, c)
    ensures StaysDead(a, c)
  {
    forall f | Dead(a, f) ensures Dead(c, f) {
      assert Dead(b, f);
    }
  }

  /** Changing user rows or marks and then starting a session. */
  lemma StoreThenStart(db: Db, stored: Db, settings: Settings, user: nat, device: string, order: seq<nat>, now: real, later: real)
    requires Valid(db, settings) && SameSessions(db, stored) && user in db.users && NewestFirst(db, user, order)
    ensures TablesKept(db, NewFamily(stored, settings, user, device, order, now, later).0, settings)
  {
    SameSessionsKeeps(db, stored, settings);
    NewestFirstAgain(db, stored, user, order);
    StartFromStored(stored, settings, user, device, order, now, later);
    DeadChain(db, stored, NewFamily(stored, settings, user, device, order, now, later).0);
  }

  lemma StartFromStored(stored: Db, settings: Settings, user: nat, device: string, order: seq<nat>, now: real, later: real)
    requires Valid(stored, settings) && user in stored.users && NewestFirst(stored, user, order)
    ensures TablesKept(stored, NewFamily(stored, settings, user, device, order, now, later).0, settings)
  {
    SurplusLeaves(stored, user, order);
    NewFamilyKeeps(stored, settings, user, device, order, now, later);
    NewFamilyStaysDead(stored, settings, user, device, order, now, later);
  }

  lemma CommitLoginKeeps(db: Db, settings: Settings, t: LoginTicket, device: string, order: seq<nat>, now: real, later: real)
    requires Valid(db, settings) && NewestFirst(db, t.user, order)
    ensures TablesKept(db, CommitLogin(db, settings, t, device, order, now, later).0, settings)
  {
    if t.user in db.users && !db.users[t.user].disabled && db.users[t.user].hash == t.oldHash {
      var stored := if t.replacement.Some? then SetHash(db, t.user, t.replacement.value) else db;
      assert SameSessions(db, stored);
      StoreThenStart(db, stored, settings, t.user, device, order, now, later);
    }
  }

  lemma NothingKeeps(db: Db, settings: Settings)
    requires Valid(db, settings)
    ensures TablesKept(db, db, settings)
  {}

  lemma RefreshKeeps(db: Db, settings: Settings, secret: nat, now: real, later: real)
    requires Valid(db, settings)
    ensures TablesKept(db, Refresh(db, settings, secret, now, later).0, settings)
  {
    var row := RowByRefresh(db, secret);
    if Refresh(db, settings, secret, now, later).1.Success? {
      RotateKeeps(db, settings, row.value, now, later);
    } else if row.Some? {
      var family := db.tokens[row.value].family;
      RevokeIsSame(db, {family}, now);
      SameSessionsKeeps(db, Revoke(db, {family}, now), settings);
    }
  }

  lemma LogoutKeeps(db: Db, settings: Settings, p: Principal, now: real, later: real)
    requires Valid(db, settings)
    ensures TablesKept(db, Logout(db, p, now, later).0, settings)
  {
    RevokeIsSame(db, {p.family}, later);
    SameSessionsKeeps(db, Revoke(db, {p.family}, later), settings);
  }

  /** The tables of a committed password change before the new session is added: all sessions of the user are revoked. */
  ghost function Cleared(db: Db, t: ChangeTicket, later: real): Db
    requires t.principal.user in db.users
  {
    var user := db.users[t.principal.user].(hash := t.encoded, mustChange := false);
    Revoke(db.(users := db.users[t.principal.user := user]), FamiliesOf(db.families, t.principal.user), later)
  }

  lemma ClearedIsSame(db: Db, t: ChangeTicket, later: real)
    requires t.principal.user in db.users
    ensures SameSessions(db, Cleared(db, t, later))
    ensures forall f :: f in FamiliesOf(db.families, t.principal.user) ==> Cleared(db, t, later).families[f].revokedAt.Some?
  {}

  lemma CommitChangeKeeps(db: Db, settings: Settings, t: ChangeTicket, order: seq<nat>, now: real, later: real, last: real)
    requires Valid(db, settings) && NewestFirst(db, t.principal.user, order)
    ensures TablesKept(db, CommitChange(db, settings, t, order, now, later, last).0, settings)
  {
    if CommitChange(db, settings, t, order, now, later, last).1.Success? {
      ClearedIsSame(db, t, later);
      StoreThenStart(db, Cleared(db, t, later), settings, t.principal.user, db.families[t.principal.family].device, order, later, last);
    }
  }

  /** An account more, and nothing else. */
  ghost predicate AccountAdded(db: Db, id: nat, user: User, after: Db) {
    && db.next <= id < after.next && after.users == db.users[id := user]
    && after.families == db.families && after.tokens == db.tokens
    && forall u :: u in db.users ==> db.users[u].username != user.username
  }

  /** A new account has no sessions. */
  lemma CreateKeeps(db: Db, settings: Settings, id: nat, user: User, after: Db)
    requires Valid(db, settings) && AccountAdded(db, id, user, after)
    ensures TablesKept(db, after, settings)
  {
    CreateLinked(db, id, user, after);
    CreateNames(db.users, id, user);
    CreateBounded(db, id, user, after);
    CreateExpiring(db, after, settings);
    CreateStaysDead(db, after);
  }

  lemma CreateLinked(db: Db, id: nat, user: User, after: Db)
    requires Linked(db) && AccountAdded(db, id, user, after)
    ensures Linked(after)
  {}

  lemma CreateNames(users: map<nat, User>, id: nat, user: User)
    requires UniqueNames(users) && forall u :: u in users ==> users[u].username != user.username
    ensures UniqueNames(users[id := user])
  {}

  lemma CreateBounded(db: Db, id: nat, user: User, after: Db)
    requires Linked(db) && Bounded(db) && AccountAdded(db, id, user, after)
    ensures Bounded(after)
  {
    assert FamiliesOf(db.families, id) == {};
    assert FewFamilies(db.families, id);
    forall u | u in after.users ensures FewFamilies(after.families, u) {
      assert u in db.users ==> FewFamilies(db.families, u);
    }
    forall f | f in after.families ensures OneLiveToken(after.tokens, f) {
      assert OneLiveToken(db.tokens, f);
    }
  }

  lemma CreateExpiring(db: Db, after: Db, settings: Settings)
    requires Expiring(db, settings) && after.families == db.families && after.tokens == db.tokens
    ensures Expiring(after, settings)
  {}

  lemma CreateStaysDead(db: Db, after: Db)
    requires after.families == db.families && db.next <= after.next
    ensures StaysDead(db, after)
  {}
}
