/** When each session transaction goes through, what it leaves alone, and how long what it grants lasts, over the rows alone. */
module SessionDecisions {
  import opened Wrappers
  import opened Sessions
  import opened SessionRuns
  import opened SessionProgress

  // ---------------------------------------------------------------- access and refresh tokens

  /** The account of a token row. */
  function OwnerOf(db: Db, t: nat): User
    requires t in db.tokens && db.tokens[t].family in db.families && db.families[db.tokens[t].family].user in db.users
  {
    db.users[db.families[db.tokens[t].family].user]
  }

  /** An access token is accepted exactly while its row is unconsumed, its family alive and its account enabled. */
  lemma AccessDecision(db: Db, t: nat, now: real)
    requires UniqueSecrets(db.tokens) && HasRow(db, t)
    ensures var row, family, r := db.tokens[t], db.families[db.tokens[t].family], Authenticate(db, db.tokens[t].access, now);
            && (r.Success? <==>
                && !OwnerOf(db, t).disabled && family.revokedAt.None? && row.rotatedAt.None?
                && now < row.accessExpires && now < family.expiresAt)
            && (if r.Success?
                then r.value == Principal(family.user, OwnerOf(db, t).role, OwnerOf(db, t).mustChange, row.family, t)
                else r.error == InvalidSession)
  {
    OnlyRow(db, t);
  }

  /** A secret of no row is refused. */
  lemma UnknownAccess(db: Db, secret: nat, now: real)
    requires forall t :: t in db.tokens ==> db.tokens[t].access != secret
    ensures Authenticate(db, secret, now) == Failure(InvalidSession)
  {}

  /** `assert_current` accepts exactly what authenticating the same token again would give. */
  lemma CurrentMeansAccepted(db: Db, p: Principal, now: real)
    requires Linked(db) && UniqueSecrets(db.tokens)
    ensures Current(db, p, now) <==> p.token in db.tokens && Authenticate(db, db.tokens[p.token].access, now) == Success(p)
  {
    if p.token in db.tokens {
      assert HasRow(db, p.token);
      AccessDecision(db, p.token, now);
    }
  }

  /**
   A refresh token goes through exactly while its row is unconsumed, its family alive and not full, and its account enabled
   and not due for a new password. A consumed or expired token and a full family end the family; other refusals change
   nothing.
   */
  lemma RefreshDecision(db: Db, settings: Settings, t: nat, now: real, later: real)
    requires UniqueSecrets(db.tokens) && HasRow(db, t)
    ensures var row, family := db.tokens[t], db.families[db.tokens[t].family];
            var (after, r) := Refresh(db, settings, row.refresh, now, later);
            var alive := !OwnerOf(db, t).disabled && family.revokedAt.None?;
            var spent := row.rotatedAt.Some? || now >= row.refreshExpires || now >= family.expiresAt;
            var full := |TokensOf(db.tokens, row.family)| >= 4096;
            && (r.Success? <==> alive && !spent && !OwnerOf(db, t).mustChange && !full)
            && (r == Failure(PasswordChangeRequired) <==> alive && !spent && OwnerOf(db, t).mustChange)
            && (r.Failure? ==> r.error == PasswordChangeRequired || r.error == InvalidSession)
            && (r.Failure? ==>
                  after == if alive && (spent || (full && !OwnerOf(db, t).mustChange))
                           then db.(families := db.families[row.family := family.(revokedAt := Some(now))]) else db)
  {
    OnlyRefreshRow(db, t);
    RevokeOne(db, db.tokens[t].family, now);
  }

  lemma RevokeOne(db: Db, family: nat, now: real)
    requires family in db.families
    ensures Revoke(db, {family}, now) == db.(families := db.families[family := db.families[family].(revokedAt := Some(now))])
  {}

  lemma UnknownRefresh(db: Db, settings: Settings, secret: nat, now: real, later: real)
    requires forall t :: t in db.tokens ==> db.tokens[t].refresh != secret
    ensures Refresh(db, settings, secret, now, later) == (db, Failure(InvalidSession))
  {}

  /** A logout goes through exactly for a current session, and ends just its family. */
  lemma LogoutDecision(db: Db, p: Principal, now: real, later: real)
    requires Linked(db) && UniqueSecrets(db.tokens)
    ensures var (after, r) := Logout(db, p, now, later);
            if p.token in db.tokens && Authenticate(db, db.tokens[p.token].access, now) == Success(p)
            then r.Success? && p.family in db.families && Dead(after, p.family)
                 && after == db.(families := db.families[p.family := db.families[p.family].(revokedAt := Some(later))])
            else r == Failure(InvalidSession) && after == db
  {
    CurrentMeansAccepted(db, p, now);
    if p.family in db.families {
      RevokeOne(db, p.family, later);
    }
  }

  // ---------------------------------------------------------------- logins and password changes

  /** A checked login carries the stored hash, and a new one exactly when the stored one has outdated parameters. */
  lemma LoginTicketContents(w: World, username: string, password: string)
    requires BeginLogin(w.db, username, password).1.Success?
    ensures var t := BeginLogin(w.db, username, password).1.value;
            && t.user in w.db.users && w.db.users[t.user].username == username && t.password == password
            && t.oldHash == w.db.users[t.user].hash
            && (t.replacement.Some? <==> !w.db.users[t.user].hash.current)
            && (t.replacement.Some? ==> t.replacement.value.current && t.replacement.value.password == password)
  {}

  lemma LoginRefused(w: World, username: string, password: string)
    requires BeginLogin(w.db, username, password).1.Failure?
    ensures BeginLogin(w.db, username, password) == (w.db, Failure(InvalidCredentials))
  {}

  /** A pending login commits exactly while its account is enabled and has the hash it was checked against. */
  lemma LoginCommitDecision(db: Db, settings: Settings, t: LoginTicket, device: string, order: seq<nat>, now: real, later: real)
    ensures var (after, r) := CommitLogin(db, settings, t, device, order, now, later);
            && (r.Success? <==> t.user in db.users && !db.users[t.user].disabled && db.users[t.user].hash == t.oldHash)
            && (r.Failure? ==> r.error == InvalidCredentials && after == db)
            && (r.Success? ==>
                  after.users == if t.replacement.None? then db.users
                                 else db.users[t.user := db.users[t.user].(hash := t.replacement.value)])
  {}

  /**
   A password change passes its check exactly for the password the account was last given and a different new one; each
   refusal has its own code, and the pending change carries the stored hash and a new one of the new password.
   */
  lemma ChangeDecision(w: World, settings: Settings, p: Principal, password: string, wanted: string)
    requires Reachable(w, settings)
    ensures p.user in w.db.users <==> p.user in w.audit.password
    ensures var (after, r) := BeginChange(w.db, p, password, wanted);
            var right := p.user in w.audit.password && w.audit.password[p.user] == password;
            && (r.Success? <==> right && password != wanted)
            && (r == Failure(InvalidCredentials) <==> !right)
            && (r == Failure(PasswordUnchanged) <==> right && password == wanted)
            && (r.Failure? ==> after == w.db)
            && (r.Success? ==>
                && r.value.principal == p && r.value.password == wanted && r.value.oldHash == w.db.users[p.user].hash
                && r.value.encoded.password == wanted && r.value.encoded.current
                && r.value.encoded.salt !in w.audit.installed)
  {
    ReachableInv(w, settings);
  }

  /** A pending change commits exactly for a session that is still current and a hash that is still stored. */
  lemma ChangeCommitDecision(db: Db, settings: Settings, t: ChangeTicket, order: seq<nat>, now: real, later: real, last: real)
    requires Linked(db) && UniqueSecrets(db.tokens)
    ensures var (after, r) := CommitChange(db, settings, t, order, now, later, last);
            var p := t.principal;
            && (r.Success? <==>
                && p.token in db.tokens && Authenticate(db, db.tokens[p.token].access, now) == Success(p)
                && db.users[p.user].hash == t.oldHash && later < db.families[p.family].expiresAt)
            && (r.Failure? ==> r.error == InvalidSession && after == db)
            && (r.Success? ==>
                && after.users == db.users[p.user := db.users[p.user].(hash := t.encoded, mustChange := false)]
                && r.value.family in after.families && after.families[r.value.family].device == db.families[p.family].device)
  {
    CurrentMeansAccepted(db, t.principal, now);
  }

  // ---------------------------------------------------------------- which sessions remain

  /** The families of an account that a new session leaves: the 31 listed first. */
  ghost function Newest(order: seq<nat>): set<nat> {
    set i | 0 <= i < |order| && i < 31 :: order[i]
  }

  lemma SurplusIsTheRest(db: Db, user: nat, order: seq<nat>)
    requires NewestFirst(db, user, order)
    ensures forall f :: f in FamiliesOf(db.families, user) ==> (f in Surplus(order) <==> f !in Newest(order))
    ensures forall f :: f in Surplus(order) ==> f in FamiliesOf(db.families, user)
  {
    forall f | f in FamiliesOf(db.families, user) ensures f in Surplus(order) <==> f !in Newest(order) {
      var i :| 0 <= i < |order| && order[i] == f;
      if i >= 31 {
        assert order[KEPT_FAMILIES..][i - KEPT_FAMILIES] == f;
      }
    }
    forall f | f in Surplus(order) ensures f in FamiliesOf(db.families, user) {
      assert f in order;
    }
  }

  /**
   A login keeps the 31 newest families of its account with their tokens, adds one, and leaves all other accounts' families
   and tokens alone.
   */
  lemma LoginKeepsNewest(db: Db, settings: Settings, t: LoginTicket, device: string, order: seq<nat>, now: real, later: real)
    requires Linked(db) && NewestFirst(db, t.user, order)
    requires CommitLogin(db, settings, t, device, order, now, later).1.Success?
    ensures var after := CommitLogin(db, settings, t, device, order, now, later).0;
            forall f :: f in db.families ==>
              (f in after.families <==> db.families[f].user != t.user || f in Newest(order))
              && (f in after.families ==> after.families[f] == db.families[f])
    ensures var after := CommitLogin(db, settings, t, device, order, now, later).0;
            forall v :: v in db.tokens ==>
              (v in after.tokens <==> db.tokens[v].family in after.families)
              && (v in after.tokens ==> after.tokens[v] == db.tokens[v])
    ensures var (after, r) := CommitLogin(db, settings, t, device, order, now, later);
            forall f :: f in after.families && f !in db.families ==>
              f == r.value.family && after.families[f] == Family(t.user, device, now, now + settings.refreshTtl as real, None)
  {
    SurplusIsTheRest(db, t.user, order);
  }

  /** A password change leaves all other accounts' families and tokens alone. */
  lemma ChangeSparesOthers(db: Db, settings: Settings, t: ChangeTicket, order: seq<nat>, now: real, later: real, last: real)
    requires Linked(db) && NewestFirst(db, t.principal.user, order)
    requires CommitChange(db, settings, t, order, now, later, last).1.Success?
    ensures var after := CommitChange(db, settings, t, order, now, later, last).0;
            && (forall f :: f in db.families && db.families[f].user != t.principal.user ==>
                  f in after.families && after.families[f] == db.families[f])
            && (forall v :: v in db.tokens && db.families[db.tokens[v].family].user != t.principal.user ==>
                  v in after.tokens && after.tokens[v] == db.tokens[v])
  {
    SurplusIsTheRest(db, t.principal.user, order);
  }

  // ---------------------------------------------------------------- what a granted refresh token is good for

  /** An unconsumed row of a live family that is not full can be refreshed exactly until the family ends. */
  lemma IssuedRefreshes(db: Db, settings: Settings, t: nat, at: real, later: real)
    requires UniqueSecrets(db.tokens) && HasRow(db, t) && db.tokens[t].rotatedAt.None?
    requires db.families[db.tokens[t].family].revokedAt.None? && !OwnerOf(db, t).disabled
    requires db.tokens[t].refreshExpires == db.families[db.tokens[t].family].expiresAt
    ensures Refresh(db, settings, db.tokens[t].refresh, at, later).1.Success? <==>
            && at < db.families[db.tokens[t].family].expiresAt && !OwnerOf(db, t).mustChange
            && |TokensOf(db.tokens, db.tokens[t].family)| < 4096
  {
    RefreshDecision(db, settings, t, at, later);
  }

  lemma OneMore(before: set<nat>, after: set<nat>, t: nat)
    requires t !in before && after == before + {t}
    ensures |after| == |before| + 1
  {}

  lemma GrantedRefreshes(after: Db, settings: Settings, g: Grant, t: nat, others: set<nat>, mustChange: bool, expiresAt: real,
                         at: real, later: real)
    requires UniqueSecrets(after.tokens) && IssuedRow(after, g, t, others, mustChange, expiresAt)
    ensures Refresh(after, settings, g.refresh, at, later).1.Success? <==> at < expiresAt && !mustChange && |others| < 4095
  {
    IssuedRefreshes(after, settings, t, at, later);
    OneMore(others, TokensOf(after.tokens, g.family), t);
  }

  lemma LoginGrants(db: Db, settings: Settings, t: LoginTicket, device: string, order: seq<nat>, now: real, later: real,
                    after: Db, g: Grant)
    requires Linked(db) && CommitLogin(db, settings, t, device, order, now, later) == (after, Success(g))
    ensures t.user in db.users
    ensures IssuedRow(after, g, db.next + 3, {}, db.users[t.user].mustChange, now + settings.refreshTtl as real)
  {
    LoginRow(db, settings, t, device, order, now, later);
  }

  lemma LoginSecrets(w: World, settings: Settings, t: LoginTicket, device: string, order: seq<nat>, now: real, later: real,
                     after: Db, g: Grant)
    requires Reachable(w, settings) && NewestFirst(w.db, t.user, order)
    requires CommitLogin(w.db, settings, t, device, order, now, later) == (after, Success(g))
    ensures Linked(w.db) && UniqueSecrets(after.tokens)
  {
    ReachableInv(w, settings);
    CommitLoginKeeps(w.db, settings, t, device, order, now, later);
  }

  /** The refresh token of a login works exactly until its family ends, unless the account is due for a new password. */
  lemma LoginRefreshes(w: World, settings: Settings, t: LoginTicket, device: string, order: seq<nat>, now: real, later: real,
                       after: Db, g: Grant, at: real, following: real)
    requires Reachable(w, settings) && NewestFirst(w.db, t.user, order)
    requires CommitLogin(w.db, settings, t, device, order, now, later) == (after, Success(g))
    ensures t.user in w.db.users
    ensures Refresh(after, settings, g.refresh, at, following).1.Success? <==>
            at < now + settings.refreshTtl as real && !w.db.users[t.user].mustChange
  {
    LoginSecrets(w, settings, t, device, order, now, later, after, g);
    LoginGrants(w.db, settings, t, device, order, now, later, after, g);
    GrantedRefreshes(after, settings, g, w.db.next + 3, {}, w.db.users[t.user].mustChange, now + settings.refreshTtl as real,
                     at, following);
  }

  lemma RefreshGrants(db: Db, settings: Settings, secret: nat, now: real, later: real, after: Db, g: Grant)
    requires Linked(db) && Refresh(db, settings, secret, now, later) == (after, Success(g))
    ensures g.family in db.families
    ensures IssuedRow(after, g, db.next + 2, TokensOf(db.tokens, g.family), false, db.families[g.family].expiresAt)
  {
    RefreshRow(db, settings, secret, now, later);
  }

  lemma RefreshSecrets(w: World, settings: Settings, secret: nat, now: real, later: real, after: Db, g: Grant)
    requires Reachable(w, settings) && Refresh(w.db, settings, secret, now, later) == (after, Success(g))
    ensures Linked(w.db) && UniqueSecrets(after.tokens)
  {
    SessionProgress.RefreshTables(w, settings, secret, now, later);
  }

  /** So does that of a refresh, as long as the family has not reached 4096 tokens. */
  lemma RefreshAgain(w: World, settings: Settings, secret: nat, now: real, later: real, after: Db, g: Grant,
                     at: real, following: real)
    requires Reachable(w, settings) && Refresh(w.db, settings, secret, now, later) == (after, Success(g))
    ensures g.family in w.db.families
    ensures Refresh(after, settings, g.refresh, at, following).1.Success? <==>
            at < w.db.families[g.family].expiresAt && |TokensOf(w.db.tokens, g.family)| < 4095
  {
    RefreshSecrets(w, settings, secret, now, later, after, g);
    RefreshGrants(w.db, settings, secret, now, later, after, g);
    var others, expiresAt := TokensOf(w.db.tokens, g.family), w.db.families[g.family].expiresAt;
    GrantedRefreshes(after, settings, g, w.db.next + 2, others, false, expiresAt, at, following);
  }

  lemma ChangeRow(db: Db, settings: Settings, t: ChangeTicket, order: seq<nat>, now: real, later: real, last: real,
                  after: Db, g: Grant)
    requires Linked(db) && CommitChange(db, settings, t, order, now, later, last) == (after, Success(g))
    ensures var id := db.next + 3;
            && HasRow(after, id) && after.tokens[id].access == g.access && after.tokens[id].family == g.family
            && after.tokens[id].rotatedAt.None? && after.tokens[id].accessExpires == last + g.expiresIn as real
            && after.families[g.family].user == t.principal.user && after.families[g.family].revokedAt.None?
            && after.families[g.family].expiresAt == later + settings.refreshTtl as real
            && !after.users[t.principal.user].disabled
  {}

  lemma ChangeSecrets(w: World, settings: Settings, t: ChangeTicket, order: seq<nat>, now: real, later: real, last: real,
                      after: Db, g: Grant)
    requires Reachable(w, settings) && NewestFirst(w.db, t.principal.user, order)
    requires CommitChange(w.db, settings, t, order, now, later, last) == (after, Success(g))
    ensures Linked(w.db) && UniqueSecrets(after.tokens)
  {
    ReachableInv(w, settings);
    CommitChangeKeeps(w.db, settings, t, order, now, later, last);
  }

  /** The access token of a committed password change is accepted for its user exactly while it and its family last. */
  lemma ChangeAccepted(w: World, settings: Settings, t: ChangeTicket, order: seq<nat>, now: real, later: real, last: real,
                       after: Db, g: Grant, at: real)
    requires Reachable(w, settings) && NewestFirst(w.db, t.principal.user, order)
    requires CommitChange(w.db, settings, t, order, now, later, last) == (after, Success(g))
    ensures var r := Authenticate(after, g.access, at);
            && (r.Success? <==> at < last + g.expiresIn as real && at < later + settings.refreshTtl as real)
            && (r.Success? ==> r.value.user == t.principal.user && r.value.family == g.family)
  {
    ChangeSecrets(w, settings, t, order, now, later, last, after, g);
    ChangeRow(w.db, settings, t, order, now, later, last, after, g);
    IssuedAccepted(after, w.db.next + 3, at);
  }

  // ---------------------------------------------------------------- how long a grant lasts

  /** The most whole seconds, but at least one, within both the configured lifetime and what remains of the family. */
  ghost predicate LongestWithin(ttl: int, configured: int, remaining: real) {
    && ttl >= 1 && (ttl == 1 || (ttl <= configured && ttl as real <= remaining))
    && forall k :: FitsWithin(k, configured, remaining) ==> k <= ttl
  }

  predicate FitsWithin(k: int, configured: int, remaining: real) { k <= configured && k as real <= remaining }

  lemma AccessTtlIsLongest(settings: Settings, remaining: real)
    ensures LongestWithin(AccessTtl(settings, remaining), settings.accessTtl, remaining)
  {
    var ttl := AccessTtl(settings, remaining);
    forall k | FitsWithin(k, settings.accessTtl, remaining) ensures k <= ttl {
      var least := if settings.accessTtl as real <= remaining then settings.accessTtl as real else remaining;
      assert k as real <= least;
    }
  }

  /** The access token of a login lasts as long as it may. */
  lemma LoginLifetime(db: Db, settings: Settings, t: LoginTicket, device: string, order: seq<nat>, now: real, later: real)
    requires CommitLogin(db, settings, t, device, order, now, later).1.Success?
    ensures LongestWithin(CommitLogin(db, settings, t, device, order, now, later).1.value.expiresIn, settings.accessTtl,
                          now + settings.refreshTtl as real - later)
  {
    AccessTtlIsLongest(settings, now + settings.refreshTtl as real - later);
  }

  /** So does that of the session a password change leaves. */
  lemma ChangeLifetime(db: Db, settings: Settings, t: ChangeTicket, order: seq<nat>, now: real, later: real, last: real)
    requires CommitChange(db, settings, t, order, now, later, last).1.Success?
    ensures LongestWithin(CommitChange(db, settings, t, order, now, later, last).1.value.expiresIn, settings.accessTtl,
                          later + settings.refreshTtl as real - last)
  {
    AccessTtlIsLongest(settings, later + settings.refreshTtl as real - last);
  }

  /** And that of a refresh. */
  lemma RefreshLifetime(db: Db, settings: Settings, secret: nat, now: real, later: real)
    requires Refresh(db, settings, secret, now, later).1.Success?
    ensures var g := Refresh(db, settings, secret, now, later).1.value;
            g.family in db.families
            && LongestWithin(g.expiresIn, settings.accessTtl, db.families[g.family].expiresAt - later)
  {
    var row := RowByRefresh(db, secret).value;
    AccessTtlIsLongest(settings, db.families[db.tokens[row].family].expiresAt - later);
  }
}
