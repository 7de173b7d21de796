/** What the sessions are for: the right password gets in, what is granted is accepted, and by one token at a time. */
module SessionProgress {
  import opened Wrappers
  import opened Sessions
  import opened SessionRuns

  /** An enabled account of this name that was last given this password. */
  ghost predicate MayLogIn(w: World, user: nat, username: string, password: string) {
    && user in w.db.users && w.db.users[user].username == username && !w.db.users[user].disabled
    && user in w.audit.password && w.audit.password[user] == password
  }

  /** The password check lets in exactly the enabled account that was last given this password. */
  lemma LoginDecision(w: World, settings: Settings, username: string, password: string)
    requires Reachable(w, settings)
    ensures BeginLogin(w.db, username, password).1.Success? <==> exists u :: MayLogIn(w, u, username, password)
    ensures BeginLogin(w.db, username, password).1.Success? ==>
              MayLogIn(w, BeginLogin(w.db, username, password).1.value.user, username, password)
  {
    ReachableInv(w, settings);
    if u :| MayLogIn(w, u, username, password) {
      assert UniqueNames(w.db.users);
    }
    if BeginLogin(w.db, username, password).1.Success? {
      assert MayLogIn(w, BeginLogin(w.db, username, password).1.value.user, username, password);
    }
  }

  /** A login that nothing interrupts commits. */
  lemma LoginCommits(db: Db, settings: Settings, username: string, password: string, device: string, order: seq<nat>,
                     now: real, later: real)
    requires BeginLogin(db, username, password).1.Success?
    ensures var (begun, t) := BeginLogin(db, username, password);
            CommitLogin(begun, settings, t.value, device, order, now, later).1.Success?
  {}

  /** Only one row has this access token. */
  lemma OnlyRow(db: Db, t: nat)
    requires UniqueSecrets(db.tokens) && HasRow(db, t)
    ensures RowByAccess(db, db.tokens[t].access) == Some(t)
  {
    var row := RowByAccess(db, db.tokens[t].access);
    assert HasRow(db, t);
  }

  /** The row that issuing tokens adds is accepted, for its user, exactly until it or its family expires. */
  lemma IssuedAccepted(db: Db, t: nat, at: real)
    requires UniqueSecrets(db.tokens) && HasRow(db, t) && db.tokens[t].rotatedAt.None?
    requires db.families[db.tokens[t].family].revokedAt.None?
    requires !db.users[db.families[db.tokens[t].family].user].disabled
    ensures var token := db.tokens[t];
            var r := Authenticate(db, token.access, at);
            && (r.Success? <==> at < token.accessExpires && at < db.families[token.family].expiresAt)
            && (r.Success? ==> r.value.user == db.families[token.family].user && r.value.family == token.family)
  {
    OnlyRow(db, t);
  }

  lemma LoginRow(db: Db, settings: Settings, t: LoginTicket, device: string, order: seq<nat>, now: real, later: real)
    requires Linked(db) && CommitLogin(db, settings, t, device, order, now, later).1.Success?
    ensures var (after, r) := CommitLogin(db, settings, t, device, order, now, later);
            var id := db.next + 3;
            && HasRow(after, id) && after.tokens[id].access == r.value.access && after.tokens[id].family == r.value.family
            && after.tokens[id].rotatedAt.None? && after.tokens[id].accessExpires == later + r.value.expiresIn as real
            && after.families[r.value.family] == Family(t.user, device, now, now + settings.refreshTtl as real, None)
            && !after.users[t.user].disabled
  {}

  /** The access token of a committed login is accepted for that user exactly while it and its family last. */
  lemma LoginAccepted(w: World, settings: Settings, t: LoginTicket, device: string, order: seq<nat>, now: real, later: real,
                      at: real)
    requires Reachable(w, settings) && NewestFirst(w.db, t.user, order)
    requires CommitLogin(w.db, settings, t, device, order, now, later).1.Success?
    ensures var (after, g) := CommitLogin(w.db, settings, t, device, order, now, later);
            var r := Authenticate(after, g.value.access, at);
            && (r.Success? <==> at < later + g.value.expiresIn as real && at < now + settings.refreshTtl as real)
            && (r.Success? ==> r.value.user == t.user && r.value.family == g.value.family)
  {
    ReachableInv(w, settings);
    CommitLoginKeeps(w.db, settings, t, device, order, now, later);
    LoginRow(w.db, settings, t, device, order, now, later);
    IssuedAccepted(CommitLogin(w.db, settings, t, device, order, now, later).0, w.db.next + 3, at);
  }

  lemma OneElement(s: set<nat>, x: nat, y: nat)
    requires |s| == 1 && x in s && y in s
    ensures x == y
  {
    assert |s - {x}| == 0;
    assert s == s - {x} + {x};
  }

  /** In every reachable state at most one access token of a family is accepted, at whatever times they are presented. */
  lemma OneAcceptedToken(w: World, settings: Settings, x: nat, y: nat, at: real, later: real)
    requires Reachable(w, settings)
    requires Authenticate(w.db, x, at).Success? && Authenticate(w.db, y, later).Success?
    requires Authenticate(w.db, x, at).value.family == Authenticate(w.db, y, later).value.family
    ensures x == y
  {
    ReachableInv(w, settings);
    var p, q := Authenticate(w.db, x, at).value, Authenticate(w.db, y, later).value;
    assert OneLiveToken(w.db.tokens, p.family);
    OneElement(Unrotated(w.db.tokens, p.family), p.token, q.token);
  }

  /** The row a refresh adds. */
  lemma RefreshRow(db: Db, settings: Settings, secret: nat, now: real, later: real)
    requires Linked(db) && Refresh(db, settings, secret, now, later).1.Success?
    ensures var (after, r) := Refresh(db, settings, secret, now, later);
            var id := db.next + 2;
            && HasRow(after, id) && after.tokens[id].access == r.value.access && after.tokens[id].family == r.value.family
            && after.tokens[id].rotatedAt.None? && after.tokens[id].accessExpires == later + r.value.expiresIn as real
            && after.families == db.families && after.users == db.users
            && after.families[r.value.family].revokedAt.None?
            && !after.users[after.families[r.value.family].user].disabled
  {}

  /** The unrotated row of a family has its only accepted access token. */
  lemma OnlyLive(db: Db, settings: Settings, t: nat, x: nat, at: real)
    requires Bounded(db) && HasRow(db, t) && db.tokens[t].rotatedAt.None?
    requires Authenticate(db, x, at).Success? && Authenticate(db, x, at).value.family == db.tokens[t].family
    ensures x == db.tokens[t].access
  {
    assert OneLiveToken(db.tokens, db.tokens[t].family);
    OneElement(Unrotated(db.tokens, db.tokens[t].family), Authenticate(db, x, at).value.token, t);
  }

  lemma RefreshTables(w: World, settings: Settings, secret: nat, now: real, later: real)
    requires Reachable(w, settings)
    ensures Linked(w.db) && Valid(Refresh(w.db, settings, secret, now, later).0, settings)
  {
    ReachableInv(w, settings);
    RefreshKeeps(w.db, settings, secret, now, later);
  }

  /** The access token a refresh grants is accepted exactly while it and its family last. */
  lemma RefreshAccepted(w: World, settings: Settings, secret: nat, now: real, later: real, at: real)
    requires Reachable(w, settings) && Refresh(w.db, settings, secret, now, later).1.Success?
    ensures var (after, g) := Refresh(w.db, settings, secret, now, later);
            && g.value.family in w.db.families
            && (Authenticate(after, g.value.access, at).Success? <==>
                at < later + g.value.expiresIn as real && at < w.db.families[g.value.family].expiresAt)
  {
    RefreshTables(w, settings, secret, now, later);
    RefreshRow(w.db, settings, secret, now, later);
    IssuedAccepted(Refresh(w.db, settings, secret, now, later).0, w.db.next + 2, at);
  }

  /** After a refresh no other access token of the family is accepted, at any time. */
  lemma RefreshHandsOver(w: World, settings: Settings, secret: nat, now: real, later: real, x: nat, at: real)
    requires Reachable(w, settings) && Refresh(w.db, settings, secret, now, later).1.Success?
    requires Authenticate(Refresh(w.db, settings, secret, now, later).0, x, at).Success?
    requires Authenticate(Refresh(w.db, settings, secret, now, later).0, x, at).value.family
             == Refresh(w.db, settings, secret, now, later).1.value.family
    ensures x == Refresh(w.db, settings, secret, now, later).1.value.access
  {
    RefreshTables(w, settings, secret, now, later);
    RefreshRow(w.db, settings, secret, now, later);
    OnlyLive(Refresh(w.db, settings, secret, now, later).0, settings, w.db.next + 2, x, at);
  }

  /** The row `t` of the granted tokens, beside these other rows of its family. */
  ghost predicate IssuedRow(after: Db, g: Grant, t: nat, others: set<nat>, mustChange: bool, expiresAt: real) {
    && HasRow(after, t) && after.tokens[t].rotatedAt.None? && after.tokens[t].family == g.family
    && after.tokens[t].refresh == g.refresh && after.tokens[t].refreshExpires == expiresAt
    && after.families[g.family].revokedAt.None? && after.families[g.family].expiresAt == expiresAt
    && !after.users[after.families[g.family].user].disabled
    && after.users[after.families[g.family].user].mustChange == mustChange
    && t !in others && TokensOf(after.tokens, g.family) == others + {t}
  }
}
