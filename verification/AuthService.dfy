/** The service object: each method performs one transaction, or one read outside a transaction, on the tables. */
module AuthServices {
  import opened Wrappers
  import opened Sessions

  class AuthService {
    const settings: Settings
    var users: map<nat, User>
    var families: map<nat, Family>
    var tokens: map<nat, Token>
    var next: nat

    ghost function Tables(): Db
      reads this
    {
      Db(users, families, tokens, next)
    }

    ghost predicate Ok()
      reads this
    {
      Valid(Tables(), settings)
    }

    constructor (settings: Settings)
      ensures Ok() && Tables() == Db(map[], map[], map[], 0) && this.settings == settings
    {
      this.settings := settings;
      users, families, tokens, next := map[], map[], map[], 0;
    }

    /** The next random value. */
    method Draw() returns (x: nat)
      modifies this`next
      ensures x == old(next) && next == old(next) + 1
    {
      x := next;
      next := next + 1;
    }

    method IssueTokens(family: nat, expiresAt: real, now: real) returns (g: Grant)
      modifies this`tokens, this`next
      ensures (Tables(), g) == Issue(old(Tables()), settings, family, expiresAt, now)
    {
      var access := Draw();
      var refresh := Draw();
      var ttl := AccessTtl(settings, expiresAt - now);
      var id := Draw();
      tokens := tokens[id := Token(family, access, refresh, now + ttl as real, expiresAt, now, None)];
      g := Grant(access, refresh, ttl, family);
    }

    /** Deletes the families beyond the newest 31 one by one, then adds the new one. */
    method StartSession(user: nat, device: string, order: seq<nat>, now: real, later: real) returns (g: Grant)
      modifies this`families, this`tokens, this`next
      ensures (Tables(), g) == NewFamily(old(Tables()), settings, user, device, order, now, later)
    {
      ghost var before := Tables();
      var i := KEPT_FAMILIES;
      ghost var gone: set<nat> := {};
      assert Drop(before, {}) == before;
      while i < |order|
        invariant KEPT_FAMILIES <= i && (|order| < KEPT_FAMILIES || i <= |order|)
        invariant gone == if |order| <= KEPT_FAMILIES then {} else set f | f in order[KEPT_FAMILIES..i]
        invariant Tables() == Drop(before, gone)
      {
        var family := order[i];
        tokens := map t | t in tokens && tokens[t].family != family :: tokens[t];
        families := families - {family};
        DropOneMore(before, gone, family);
        assert order[KEPT_FAMILIES..i + 1] == order[KEPT_FAMILIES..i] + [family];
        gone := gone + {family};
        i := i + 1;
      }
      assert |order| > KEPT_FAMILIES ==> order[KEPT_FAMILIES..i] == order[KEPT_FAMILIES..];
      assert Tables() == Drop(before, Surplus(order));
      var id := Draw();
      var expiresAt := now + settings.refreshTtl as real;
      families := families[id := Family(user, device, now, expiresAt, None)];
      g := IssueTokens(id, expiresAt, later);
    }

    /** `login` up to its transaction. */
    method CheckLogin(username: string, password: string) returns (r: Result<LoginTicket, ApiError>)
      requires Ok()
      modifies this`next
      ensures (Tables(), r) == BeginLogin(old(Tables()), username, password)
    {
      if u :| u in users && users[u].username == username {
        var user := users[u];
        if !Verify(user.hash, password) || user.disabled {
          return Failure(InvalidCredentials);
        }
        var id := Draw();
        var replacement := None;
        if !user.hash.current {
          var salt := Draw();
          replacement := Some(Hash(password, salt, true));
        }
        return Success(LoginTicket(id, u, password, user.hash, replacement));
      }
      return Failure(InvalidCredentials);
    }

    /** The transaction of `login`. */
    method FinishLogin(t: LoginTicket, device: string, order: seq<nat>, now: real, later: real)
      returns (r: Result<Grant, ApiError>)
      requires Ok() && NewestFirst(Tables(), t.user, order)
      modifies this
      ensures (Tables(), r) == CommitLogin(old(Tables()), settings, t, device, order, now, later)
      ensures Ok()
    {
      CommitLoginKeeps(Tables(), settings, t, device, order, now, later);
      if t.user !in users || users[t.user].disabled || users[t.user].hash != t.oldHash {
        return Failure(InvalidCredentials);
      }
      if t.replacement.Some? {
        users := users[t.user := users[t.user].(hash := t.replacement.value)];
      }
      var g := StartSession(t.user, device, order, now, later);
      r := Success(g);
    }

    method AuthenticateToken(secret: nat, now: real) returns (r: Result<Principal, ApiError>)
      requires Ok()
      ensures r == Authenticate(Tables(), secret, now)
    {
      if t :| t in tokens && tokens[t].access == secret {
        assert HasRow(Tables(), t);
        var token := tokens[t];
        var family := families[token.family];
        var user := users[family.user];
        if user.disabled || family.revokedAt.Some? || token.rotatedAt.Some?
           || now >= token.accessExpires || now >= family.expiresAt
        {
          return Failure(InvalidSession);
        }
        return Success(Principal(family.user, user.role, user.mustChange, token.family, t));
      }
      return Failure(InvalidSession);
    }

    method RevokeFamilies(which: set<nat>, now: real)
      modifies this`families
      ensures Tables() == Revoke(old(Tables()), which, now)
    {
      families := map f | f in families ::
        if f in which then families[f].(revokedAt := Some(now)) else families[f];
    }

    method FindRefresh(secret: nat) returns (row: Option<nat>)
      requires Ok()
      ensures row == RowByRefresh(Tables(), secret)
    {
      if t :| t in tokens && tokens[t].refresh == secret {
        assert HasRow(Tables(), t);
        return Some(t);
      }
      return None;
    }

    method CountTokens(family: nat) returns (n: nat)
      ensures n == |TokensOf(tokens, family)|
    {
      var siblings := set v | v in tokens && tokens[v].family == family;
      assert siblings == TokensOf(tokens, family);
      n := |siblings|;
    }

    /** `refresh` past the rate limit: the revocation of a replayed family is kept although the call is refused. */
    method RefreshSession(secret: nat, now: real, later: real) returns (r: Result<Grant, ApiError>)
      requires Ok()
      modifies this
      ensures (Tables(), r) == Refresh(old(Tables()), settings, secret, now, later)
      ensures Ok()
    {
      RefreshKeeps(Tables(), settings, secret, now, later);
      var row := FindRefresh(secret);
      if row.None? {
        return Failure(InvalidSession);
      }
      var token := tokens[row.value];
      var family := families[token.family];
      if users[family.user].disabled || family.revokedAt.Some? {
        return Failure(InvalidSession);
      }
      if token.rotatedAt.Some? || now >= token.refreshExpires || now >= family.expiresAt {
        RevokeFamilies({token.family}, now);
        return Failure(InvalidSession);
      }
      if users[family.user].mustChange {
        return Failure(PasswordChangeRequired);
      }
      var siblings := CountTokens(token.family);
      if siblings >= MAX_TOKENS {
        RevokeFamilies({token.family}, now);
        return Failure(InvalidSession);
      }
      tokens := tokens[row.value := token.(rotatedAt := Some(now))];
      var g := IssueTokens(token.family, family.expiresAt, later);
      return Success(g);
    }

    method EndSession(p: Principal, now: real, later: real) returns (r: Result<(), ApiError>)
      requires Ok()
      modifies this
      ensures (Tables(), r) == Logout(old(Tables()), p, now, later)
      ensures Ok()
    {
      LogoutKeeps(Tables(), settings, p, now, later);
      if !Current(Db(users, families, tokens, next), p, now) {
        return Failure(InvalidSession);
      }
      RevokeFamilies({p.family}, later);
      r := Success(());
    }

    /** `change_password` up to its transaction. */
    method CheckChange(p: Principal, password: string, wanted: string) returns (r: Result<ChangeTicket, ApiError>)
      modifies this`next
      ensures (Tables(), r) == BeginChange(old(Tables()), p, password, wanted)
    {
      if p.user !in users || !Verify(users[p.user].hash, password) {
        return Failure(InvalidCredentials);
      }
      if password == wanted {
        return Failure(PasswordUnchanged);
      }
      var salt := Draw();
      r := Success(ChangeTicket(p, wanted, users[p.user].hash, Hash(wanted, salt, true)));
    }

    /** The transaction of `change_password`. */
    method FinishChange(t: ChangeTicket, order: seq<nat>, now: real, later: real, last: real)
      returns (r: Result<Grant, ApiError>)
      requires Ok() && NewestFirst(Tables(), t.principal.user, order)
      modifies this
      ensures (Tables(), r) == CommitChange(old(Tables()), settings, t, order, now, later, last)
      ensures Ok()
    {
      ghost var before := Tables();
      CommitChangeKeeps(before, settings, t, order, now, later, last);
      var p := t.principal;
      if !Current(Db(users, families, tokens, next), p, now) {
        return Failure(InvalidSession);
      }
      if users[p.user].hash != t.oldHash || later >= families[p.family].expiresAt {
        return Failure(InvalidSession);
      }
      var device := families[p.family].device;
      users := users[p.user := users[p.user].(hash := t.encoded, mustChange := false)];
      var mine := set f | f in families && families[f].user == p.user;
      assert mine == FamiliesOf(before.families, p.user);
      RevokeFamilies(mine, later);
      var g := StartSession(p.user, device, order, later, last);
      r := Success(g);
    }
  }

  lemma DropOneMore(db: Db, gone: set<nat>, family: nat)
    ensures var partly := Drop(db, gone);
            Drop(db, gone + {family}) == partly.(families := partly.families - {family},
              tokens := map t | t in partly.tokens && partly.tokens[t].family != family :: partly.tokens[t])
  {}
}
