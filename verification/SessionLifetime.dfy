/** The lifetime of a session, measured from its login through any number of refreshes. */
module SessionLifetime {
  import opened Wrappers
  import opened Sessions
  import opened SessionRuns

  /** No family with an id drawn earlier appears, or changes the time it was created at. */
  ghost predicate SameBirth(before: map<nat, Family>, after: map<nat, Family>, next: nat) {
    forall f :: f in after && f < next ==> f in before && after[f].createdAt == before[f].createdAt
  }

  ghost predicate BirthKept(db: Db, after: Db) {
    SameBirth(db.families, after.families, db.next) && db.next <= after.next
  }

  lemma LoginBirth(db: Db, settings: Settings, t: LoginTicket, device: string, order: seq<nat>, now: real, later: real)
    ensures BirthKept(db, CommitLogin(db, settings, t, device, order, now, later).0)
    ensures var (after, r) := CommitLogin(db, settings, t, device, order, now, later);
            r.Success? ==> r.value.family == db.next < after.next
                           && r.value.family in after.families && after.families[r.value.family].createdAt == now
  {}

  lemma RefreshBirth(db: Db, settings: Settings, secret: nat, now: real, later: real)
    ensures BirthKept(db, Refresh(db, settings, secret, now, later).0)
  {}

  lemma ChangeBirth(db: Db, settings: Settings, t: ChangeTicket, order: seq<nat>, now: real, later: real, last: real)
    ensures BirthKept(db, CommitChange(db, settings, t, order, now, later, last).0)
  {}

  lemma BirthStep(w: World, settings: Settings, e: Event)
    ensures BirthKept(w.db, Apply(w, settings, e).db)
  {
    match e
    case FinishLogin(t, device, order, now, later) => LoginBirth(w.db, settings, t, device, order, now, later);
    case RefreshToken(secret, now, later) => RefreshBirth(w.db, settings, secret, now, later);
    case FinishChange(t, order, now, later, last) => ChangeBirth(w.db, settings, t, order, now, later, last);
    case _ =>
  }

  lemma {:induction false} BirthRun(w: World, settings: Settings, events: seq<Event>)
    ensures BirthKept(w.db, Run(w, settings, events).db)
    decreases |events|
  {
    if events != [] {
      BirthStep(w, settings, events[0]);
      BirthRun(Apply(w, settings, events[0]), settings, events[1..]);
    }
  }

  /** The id is taken, and if its family still exists it was created at this time. */
  ghost predicate BornAt(db: Db, family: nat, time: real) {
    family < db.next && (family in db.families ==> db.families[family].createdAt == time)
  }

  lemma BornAtRun(w: World, settings: Settings, events: seq<Event>, family: nat, time: real)
    requires BornAt(w.db, family, time)
    ensures BornAt(Run(w, settings, events).db, family, time)
  {
    BirthRun(w, settings, events);
  }

  lemma UseWithin(w: World, settings: Settings, secret: nat, at: real, after: real, time: real)
    requires Inv(w, settings) && secret in w.audit.issued && BornAt(w.db, w.audit.issued[secret], time)
    requires Authenticate(w.db, secret, at).Success? || Refresh(w.db, settings, secret, at, after).1.Success?
    ensures at < time + settings.refreshTtl as real
  {
    UseWithinLifetime(w, settings, secret, at, after);
  }

  /** The family a login is given. */
  lemma LoginStarts(w: World, settings: Settings, e: Event)
    requires e.FinishLogin? && e.login in w.logins && NewestFirst(w.db, e.login.user, e.order)
    requires CommitLogin(w.db, settings, e.login, e.device, e.order, e.now, e.later).1.Success?
    ensures BornAt(Apply(w, settings, e).db,
                   CommitLogin(w.db, settings, e.login, e.device, e.order, e.now, e.later).1.value.family, e.now)
  {
    LoginBirth(w.db, settings, e.login, e.device, e.order, e.now, e.later);
    assert Apply(w, settings, e).db == CommitLogin(w.db, settings, e.login, e.device, e.order, e.now, e.later).0;
  }

  /**
   Whatever happens after a login, no token of the family it created, however often refreshed, is accepted once the
   refresh lifetime has passed since that login.
   */
  lemma NoChainOutlivesLogin(w: World, settings: Settings, login: Event, events: seq<Event>, end: World, secret: nat,
                             at: real, after: real)
    requires Reachable(w, settings)
    requires login.FinishLogin? && login.login in w.logins && NewestFirst(w.db, login.login.user, login.order)
    requires CommitLogin(w.db, settings, login.login, login.device, login.order, login.now, login.later).1.Success?
    requires end == Run(Apply(w, settings, login), settings, events) && secret in end.audit.issued
    requires end.audit.issued[secret]
             == CommitLogin(w.db, settings, login.login, login.device, login.order, login.now, login.later).1.value.family
    requires Authenticate(end.db, secret, at).Success? || Refresh(end.db, settings, secret, at, after).1.Success?
    ensures at < login.now + settings.refreshTtl as real
  {
    EndInv(w, settings, login, events);
    LoginStarts(w, settings, login);
    BornAtRun(Apply(w, settings, login), settings, events, end.audit.issued[secret], login.now);
    UseWithin(end, settings, secret, at, after, login.now);
  }

  lemma EndInv(w: World, settings: Settings, e: Event, events: seq<Event>)
    requires Reachable(w, settings)
    ensures Inv(Run(Apply(w, settings, e), settings, events), settings)
  {
    ReachableInv(w, settings);
    InvStep(w, settings, e);
    InvRun(Apply(w, settings, e), settings, events);
  }
}
