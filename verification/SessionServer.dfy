/** The service object under any sequence of calls: its tables and its answers are those of the runs. */
module SessionServer {
  import opened Wrappers
  import opened Sessions
  import opened SessionRuns
  import opened AuthServices

  /** What a call answers. */
  datatype Response = Ignored | Accepted | Granted(grant: Grant) | Refused(error: ApiError)

  function Answer<T>(r: Result<T, ApiError>): Response {
    if r.Success? then Accepted else Refused(r.error)
  }

  function GrantOr(r: Result<Grant, ApiError>): Response {
    match r
    case Success(grant) => Response.Granted(grant)
    case Failure(error) => Refused(error)
  }

  /** What the call of an event answers in a given world; administration answers nothing. */
  ghost function ResponseTo(w: World, settings: Settings, e: Event): Response {
    match e
    case StartLogin(username, password) => Answer(BeginLogin(w.db, username, password).1)
    case FinishLogin(t, device, order, now, later) =>
      if t !in w.logins || !NewestFirst(w.db, t.user, order) then Ignored
      else GrantOr(CommitLogin(w.db, settings, t, device, order, now, later).1)
    case RefreshToken(secret, now, later) => GrantOr(Refresh(w.db, settings, secret, now, later).1)
    case EndSession(p, now, later) => Answer(Logout(w.db, p, now, later).1)
    case StartChange(p, password, wanted) => Answer(BeginChange(w.db, p, password, wanted).1)
    case FinishChange(t, order, now, later, last) =>
      if t !in w.changes || !NewestFirst(w.db, t.principal.user, order) then Ignored
      else GrantOr(CommitChange(w.db, settings, t, order, now, later, last).1)
    case _ => Ignored
  }

  /** The service with the calls that are between their two transactions. */
  class Server {
    const service: AuthService
    var logins: set<LoginTicket>
    var changes: set<ChangeTicket>

    /** The server is in the state of the world. */
    ghost predicate At(w: World)
      reads this, service
    {
      service.Tables() == w.db && logins == w.logins && changes == w.changes
    }

    constructor (settings: Settings)
      ensures fresh(service) && service.settings == settings && At(EMPTY)
    {
      var auth := new AuthService(settings);
      service := auth;
      logins, changes := {}, {};
    }

    /** Whether the listing is one `ORDER BY created_at DESC` may give. */
    method MayList(user: nat, order: seq<nat>) returns (b: bool)
      ensures b <==> NewestFirst(service.Tables(), user, order)
    {
      var families := service.families;
      b := (forall f :: f in order ==> f in families && families[f].user == user)
           && (forall f :: f in families && families[f].user == user ==> f in order)
           && (forall i, j :: 0 <= i < j < |order| ==>
                 order[i] != order[j] && families[order[i]].createdAt >= families[order[j]].createdAt);
    }

    method FinishOneLogin(t: LoginTicket, device: string, order: seq<nat>, now: real, later: real) returns (r: Response)
      requires service.Ok()
      modifies this, service
      ensures changes == old(changes)
      ensures if t in old(logins) && NewestFirst(old(service.Tables()), t.user, order)
              then var x := CommitLogin(old(service.Tables()), service.settings, t, device, order, now, later);
                   service.Tables() == x.0 && logins == old(logins) - {t} && r == GrantOr(x.1)
              else service.Tables() == old(service.Tables()) && logins == old(logins) && r == Ignored
    {
      var listed := MayList(t.user, order);
      if t !in logins || !listed {
        return Ignored;
      }
      logins := logins - {t};
      r := CommitOneLogin(t, device, order, now, later);
    }

    method CommitOneLogin(t: LoginTicket, device: string, order: seq<nat>, now: real, later: real) returns (r: Response)
      requires service.Ok() && NewestFirst(service.Tables(), t.user, order)
      modifies service
      ensures var x := CommitLogin(old(service.Tables()), service.settings, t, device, order, now, later);
              service.Tables() == x.0 && r == GrantOr(x.1)
    {
      var granted := service.FinishLogin(t, device, order, now, later);
      return GrantOr(granted);
    }

    method FinishOneChange(t: ChangeTicket, order: seq<nat>, now: real, later: real, last: real) returns (r: Response)
      requires service.Ok()
      modifies this, service
      ensures logins == old(logins)
      ensures if t in old(changes) && NewestFirst(old(service.Tables()), t.principal.user, order)
              then var x := CommitChange(old(service.Tables()), service.settings, t, order, now, later, last);
                   service.Tables() == x.0 && changes == old(changes) - {t} && r == GrantOr(x.1)
              else service.Tables() == old(service.Tables()) && changes == old(changes) && r == Ignored
    {
      var listed := MayList(t.principal.user, order);
      if t !in changes || !listed {
        return Ignored;
      }
      changes := changes - {t};
      r := CommitOneChange(t, order, now, later, last);
    }

    method CommitOneChange(t: ChangeTicket, order: seq<nat>, now: real, later: real, last: real) returns (r: Response)
      requires service.Ok() && NewestFirst(service.Tables(), t.principal.user, order)
      modifies service
      ensures var x := CommitChange(old(service.Tables()), service.settings, t, order, now, later, last);
              service.Tables() == x.0 && r == GrantOr(x.1)
    {
      var granted := service.FinishChange(t, order, now, later, last);
      return GrantOr(granted);
    }

    method StartOneLogin(username: string, password: string) returns (r: Response)
      requires service.Ok()
      modifies this, service
      ensures changes == old(changes)
      ensures var x := BeginLogin(old(service.Tables()), username, password);
              && service.Tables() == x.0 && r == Answer(x.1)
              && logins == if x.1.Success? then old(logins) + {x.1.value} else old(logins)
    {
      var checked := service.CheckLogin(username, password);
      if checked.Success? {
        logins := logins + {checked.value};
      }
      return Answer(checked);
    }

    method StartOneChange(p: Principal, password: string, wanted: string) returns (r: Response)
      modifies this, service
      ensures logins == old(logins)
      ensures var x := BeginChange(old(service.Tables()), p, password, wanted);
              && service.Tables() == x.0 && r == Answer(x.1)
              && changes == if x.1.Success? then old(changes) + {x.1.value} else old(changes)
    {
      var checked := service.CheckChange(p, password, wanted);
      if checked.Success? {
        changes := changes + {checked.value};
      }
      return Answer(checked);
    }

    /** Administration, which is no part of the service. */
    method Administer(ghost w: World, e: Event)
      requires At(w) && (e.CreateUser? || e.SetAccount? || e.ResetPassword? || e.RevokeFamily?)
      modifies service
      ensures At(Apply(w, service.settings, e))
    {
      match e
      case CreateUser(username, role, password, current) =>
        if !exists u :: u in service.users && service.users[u].username == username {
          var id := service.Draw();
          var salt := service.Draw();
          service.users := service.users[id := User(username, role, true, Hash(password, salt, current), false)];
        }
      case SetAccount(user, role, disabled) =>
        if user in service.users {
          service.users := service.users[user := service.users[user].(role := role, disabled := disabled)];
        }
      case ResetPassword(user, password, current, now) =>
        if user in service.users {
          var salt := service.Draw();
          var mine := set f | f in service.families && service.families[f].user == user;
          assert mine == FamiliesOf(w.db.families, user);
          service.users := service.users[user := service.users[user].(hash := Hash(password, salt, current), mustChange := true)];
          service.RevokeFamilies(mine, now);
        }
      case RevokeFamily(family, now) => service.RevokeFamilies({family}, now);
    }

    /** One call, as the run performs it. */
    method Handle(ghost w: World, e: Event) returns (r: Response)
      requires At(w) && service.Ok()
      modifies this, service
      ensures At(Apply(w, service.settings, e)) && r == ResponseTo(w, service.settings, e)
    {
      match e {
        case StartLogin(username, password) =>
          r := StartOneLogin(username, password);
          LoginStarted(w, service.settings, e);
        case FinishLogin(t, device, order, now, later) =>
          r := FinishOneLogin(t, device, order, now, later);
          LoginFinished(w, service.settings, e);
        case RefreshToken(secret, now, later) =>
          r := RefreshOne(secret, now, later);
        case EndSession(p, now, later) =>
          r := EndOne(p, now, later);
        case StartChange(p, password, wanted) =>
          r := StartOneChange(p, password, wanted);
          ChangeStarted(w, service.settings, e);
        case FinishChange(t, order, now, later, last) =>
          r := FinishOneChange(t, order, now, later, last);
          ChangeFinished(w, service.settings, e);
        case _ =>
          Administer(w, e);
          r := Ignored;
      }
    }

    method RefreshOne(secret: nat, now: real, later: real) returns (r: Response)
      requires service.Ok()
      modifies service
      ensures var x := Refresh(old(service.Tables()), service.settings, secret, now, later);
              service.Tables() == x.0 && r == GrantOr(x.1)
    {
      var granted := service.RefreshSession(secret, now, later);
      return GrantOr(granted);
    }

    method EndOne(p: Principal, now: real, later: real) returns (r: Response)
      requires service.Ok()
      modifies service
      ensures var x := Logout(old(service.Tables()), p, now, later);
              service.Tables() == x.0 && r == Answer(x.1)
    {
      var ended := service.EndSession(p, now, later);
      return Answer(ended);
    }
  }

  lemma LoginStarted(w: World, settings: Settings, e: Event)
    requires e.StartLogin?
    ensures var x, next := BeginLogin(w.db, e.username, e.password), Apply(w, settings, e);
            && next.db == x.0 && next.changes == w.changes
            && next.logins == if x.1.Success? then w.logins + {x.1.value} else w.logins
  {}

  lemma LoginFinished(w: World, settings: Settings, e: Event)
    requires e.FinishLogin?
    ensures var x, next := CommitLogin(w.db, settings, e.login, e.device, e.order, e.now, e.later), Apply(w, settings, e);
            && next.changes == w.changes
            && if e.login in w.logins && NewestFirst(w.db, e.login.user, e.order)
               then next.db == x.0 && next.logins == w.logins - {e.login}
               else next.db == w.db && next.logins == w.logins
  {}

  lemma ChangeStarted(w: World, settings: Settings, e: Event)
    requires e.StartChange?
    ensures var x, next := BeginChange(w.db, e.principal, e.password, e.wanted), Apply(w, settings, e);
            && next.db == x.0 && next.logins == w.logins
            && next.changes == if x.1.Success? then w.changes + {x.1.value} else w.changes
  {}

  lemma ChangeFinished(w: World, settings: Settings, e: Event)
    requires e.FinishChange?
    ensures var x, next := CommitChange(w.db, settings, e.change, e.order, e.now, e.later, e.last), Apply(w, settings, e);
            && next.logins == w.logins
            && if e.change in w.changes && NewestFirst(w.db, e.change.principal.user, e.order)
               then next.db == x.0 && next.changes == w.changes - {e.change}
               else next.db == w.db && next.changes == w.changes
  {}

  lemma {:induction false} RunSnoc(w: World, settings: Settings, events: seq<Event>, e: Event)
    ensures Run(w, settings, events + [e]) == Apply(Run(w, settings, events), settings, e)
    decreases |events|
  {
    if events == [] {
      assert [e][1..] == [];
      assert events + [e] == [e];
    } else {
      assert (events + [e])[0] == events[0] && (events + [e])[1..] == events[1..] + [e];
      RunSnoc(Apply(w, settings, events[0]), settings, events[1..], e);
    }
  }

  lemma RunValid(settings: Settings, events: seq<Event>)
    ensures Valid(Run(EMPTY, settings, events).db, settings)
  {
    EmptyInv(settings);
    InvRun(EMPTY, settings, events);
  }

  /** Any sequence of calls on the service leaves the tables of the run with the same events, and gets its answers. */
  method ServeAll(settings: Settings, events: seq<Event>) returns (db: Db, responses: seq<Response>)
    ensures db == Run(EMPTY, settings, events).db
    ensures |responses| == |events|
    ensures forall i :: 0 <= i < |events| ==>
              responses[i] == ResponseTo(Run(EMPTY, settings, events[..i]), settings, events[i])
  {
    var server := new Server(settings);
    responses := [];
    for i := 0 to |events|
      invariant fresh(server) && fresh(server.service) && server.service.settings == settings
      invariant server.At(Run(EMPTY, settings, events[..i])) && |responses| == i
      invariant forall k :: 0 <= k < i ==> responses[k] == ResponseTo(Run(EMPTY, settings, events[..k]), settings, events[k])
    {
      RunSnoc(EMPTY, settings, events[..i], events[i]);
      RunValid(settings, events[..i]);
      assert events[..i + 1] == events[..i] + [events[i]];
      var response := server.Handle(Run(EMPTY, settings, events[..i]), events[i]);
      responses := responses + [response];
    }
    assert events[..|events|] == events;
    var auth := server.service;
    return Db(auth.users, auth.families, auth.tokens, auth.next), responses;
  }
}
