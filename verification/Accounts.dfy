/**
 Users and sessions over whole request histories (backend/src/db/user_dao.cpp,
 backend/src/http/handlers_auth.cpp, backend/src/http/admin_auth.cpp).

 Each request is one step on the `users` and `sessions` tables.  Every statement may fail: the
 requests carry the faults.  Hashing and the collation of user names are parameters.
 */
module Accounts {
  import opened SessionCookies
  import opened Wrappers

  datatype Role = Admin | User

  datatype Account = Account(username: string, hash: string, role: Role)

  datatype Session = Session(userId: nat, expiresAt: int)

  datatype Store = Store(users: map<nat, Account>, nextUser: nat, sessions: map<string, Session>)

  // collate: names the database compares as equal have the same key.  verify: password against hash.
  datatype World = World(collate: string -> real, verify: (string, string) -> bool, ttl: nat)

  // The bytes a session id is made of.
  type Entropy = b: seq<Byte> | |b| == 32 witness seq(32, i => 0)

  datatype Request =
    | Register(username: string, valid: bool, hash: Option<string>, entropy: Entropy,
               userFault: bool, sessionFault: bool)
    | Login(username: string, password: string, entropy: Entropy, lookupFault: bool, sessionFault: bool)
    | Logout(cookie: Option<string>, fault: bool)
    | Me(cookie: Option<string>, fault: bool)
    | Route(path: string, cookie: Option<string>, fault: bool)   // any request at the admin check

  // Passed: the admin check left the request to its handler.
  datatype Reply = Answered(status: nat, user: Option<nat>, session: Option<string>) | Passed

  function Error(status: nat): Reply { Answered(status, None, None) }

  const ADMIN_PREFIX := "/api/admin/"

  predicate IsAdminPath(path: string) {
    |path| >= |ADMIN_PREFIX| && path[..|ADMIN_PREFIX|] == ADMIN_PREFIX
  }

  // ---- Statements ----

  ghost predicate Named(w: World, st: Store, name: string, id: nat) {
    id in st.users && w.collate(st.users[id].username) == w.collate(name)
  }

  ghost function FindUserByUsername(w: World, st: Store, name: string): Option<nat> {
    if exists id :: Named(w, st, name, id) then
      var id :| Named(w, st, name, id);
      Some(id)
    else None
  }

  // The user of an unexpired session; expiry is compared in whole seconds.
  function FindUserByValidSessionId(st: Store, id: string, now: real): Option<nat> {
    if id in st.sessions && st.sessions[id].expiresAt > now.Floor && st.sessions[id].userId in st.users
    then Some(st.sessions[id].userId)
    else None
  }

  ghost function Resolve(st: Store, cookie: Option<string>, now: real): Option<nat> {
    match SessionIdOf(cookie)
    case None => None
    case Some(id) => FindUserByValidSessionId(st, id, now)
  }

  // createSession and the reply around it; the primary key refuses an id already stored.
  function OpenSession(w: World, st: Store, now: real, userId: nat, id: string, fault: bool, status: nat)
    : (Store, Reply)
  {
    if fault || id in st.sessions then (st, Error(500))
    else
      var session := Session(userId, (now + w.ttl as real).Floor);
      (st.(sessions := st.sessions[id := session]), Answered(status, Some(userId), Some(id)))
  }

  // ---- Requests ----

  ghost function Handle(w: World, st: Store, now: real, r: Request): (Store, Reply) {
    match r
    case Register(username, valid, hash, entropy, userFault, sessionFault) =>
      if !valid then (st, Error(400))
      else if hash == None || userFault then (st, Error(500))
      else if FindUserByUsername(w, st, username) != None then (st.(nextUser := st.nextUser + 1), Error(409))
      else
        var st1 := st.(users := st.users[st.nextUser := Account(username, hash.value, User)],
                       nextUser := st.nextUser + 1);
        OpenSession(w, st1, now, st.nextUser, Hex(entropy), sessionFault, 201)
    case Login(username, password, entropy, lookupFault, sessionFault) =>
      if username == "" || password == "" then (st, Error(400))
      else if lookupFault then (st, Error(500))
      else
        (match FindUserByUsername(w, st, username)
         case None => (st, Error(401))
         case Some(id) =>
           if !w.verify(password, st.users[id].hash) then (st, Error(401))
           else OpenSession(w, st, now, id, Hex(entropy), sessionFault, 200))
    case Logout(cookie, fault) =>
      var id := SessionIdOf(cookie);
      (if id.Some? && !fault then st.(sessions := st.sessions - {id.value}) else st, Answered(200, None, None))
    case Me(cookie, fault) =>
      (st, if SessionIdOf(cookie) == None then Error(401)
           else if fault then Error(500)
           else match Resolve(st, cookie, now)
             case None => Error(401)
             case Some(user) => Answered(200, Some(user), None))
    case Route(path, cookie, fault) =>
      (st, if !IsAdminPath(path) then Passed
           else if SessionIdOf(cookie) == None then Error(401)
           else if fault then Error(500)
           else match Resolve(st, cookie, now)
             case None => Error(401)
             case Some(user) => if st.users[user].role == Admin then Passed else Error(403))
  }

  // ---- Histories ----

  datatype Entry = Entry(at: real, request: Request)

  ghost function After(w: World, st: Store, h: seq<Entry>): Store {
    if h == [] then st
    else
      var n := |h| - 1;
      Handle(w, After(w, st, h[..n]), h[n].at, h[n].request).0
  }

  ghost function ReplyAt(w: World, st: Store, h: seq<Entry>, i: nat): Reply
    requires i < |h|
  {
    Handle(w, After(w, st, h[..i]), h[i].at, h[i].request).1
  }

  ghost predicate Inv(w: World, st: Store) {
    && (forall id | id in st.users :: id < st.nextUser)
    && (forall a, b | a in st.users && b in st.users
                      && w.collate(st.users[a].username) == w.collate(st.users[b].username) :: a == b)
    && (forall id | id in st.sessions :: st.sessions[id].userId in st.users)
  }

  lemma StepInv(w: World, st: Store, now: real, r: Request)
    requires Inv(w, st)
    ensures Inv(w, Handle(w, st, now, r).0)
  {
    if r.Register? && FindUserByUsername(w, st, r.username) == None {
      forall id | id in st.users ensures w.collate(st.users[id].username) != w.collate(r.username) {
        assert !Named(w, st, r.username, id);
      }
    } else if r.Login? && FindUserByUsername(w, st, r.username) != None {
      assert Named(w, st, r.username, FindUserByUsername(w, st, r.username).value);
    }
  }

  /** Every history keeps user names unique up to the collation and sessions attached to users. */
  lemma {:induction false} HistoryInv(w: World, st: Store, h: seq<Entry>)
    requires Inv(w, st)
    ensures Inv(w, After(w, st, h))
  {
    if h != [] {
      var n := |h| - 1;
      HistoryInv(w, st, h[..n]);
      StepInv(w, After(w, st, h[..n]), h[n].at, h[n].request);
    }
  }

  ghost predicate Opens(w: World, st: Store, now: real, r: Request, id: string) {
    var reply := Handle(w, st, now, r).1;
    reply.Answered? && reply.session == Some(id)
  }

  ghost predicate Revokes(r: Request, id: string) {
    r.Logout? && !r.fault && SessionIdOf(r.cookie) == Some(id)
  }

  // Request i ended in a session with this id for this user.
  ghost predicate IssuedAt(w: World, st: Store, h: seq<Entry>, i: nat, id: string, user: nat) {
    i < |h| && ReplyAt(w, st, h, i).Answered?
    && ReplyAt(w, st, h, i).session == Some(id) && ReplyAt(w, st, h, i).user == Some(user)
  }

  // Request j was a logout whose delete went through.
  ghost predicate RevokedAt(h: seq<Entry>, j: nat, id: string) {
    j < |h| && Revokes(h[j].request, id)
  }

  ghost predicate LiveFrom(w: World, st: Store, h: seq<Entry>, i: nat, id: string, user: nat) {
    IssuedAt(w, st, h, i, id, user) && forall j | i < j < |h| :: !RevokedAt(h, j, id)
  }

  /** A request opens only ids that are not in use, deletes only the id it logs out, and leaves every other
      session as it was. */
  lemma StepSessions(w: World, st: Store, now: real, r: Request, id: string)
    ensures var (st', reply) := Handle(w, st, now, r);
            if Opens(w, st, now, r, id) then
              && !Revokes(r, id) && id !in st.sessions && reply.user.Some? && id in st'.sessions
              && st'.sessions[id] == Session(reply.user.value, (now + w.ttl as real).Floor)
            else if Revokes(r, id) then id !in st'.sessions
            else
              && (id in st'.sessions <==> id in st.sessions)
              && (id in st.sessions ==> st'.sessions[id] == st.sessions[id])
  {
  }

  // Issued to the user by some request, not logged out since, and not expired.
  ghost predicate Live(w: World, st: Store, h: seq<Entry>, id: string, user: nat, now: real) {
    exists i :: 0 <= i < |h| && LiveFrom(w, st, h, i, id, user) && (h[i].at + w.ttl as real).Floor > now.Floor
  }

  // A live session is stored with its issue's user and expiry.
  lemma {:induction false} LiveIsStored(w: World, st: Store, h: seq<Entry>, i: nat, id: string, user: nat)
    requires LiveFrom(w, st, h, i, id, user)
    ensures id in After(w, st, h).sessions
    ensures After(w, st, h).sessions[id] == Session(user, (h[i].at + w.ttl as real).Floor)
  {
    var n := |h| - 1;
    var front := h[..n];
    StepSessions(w, After(w, st, front), h[n].at, h[n].request, id);
    if i < n {
      assert front[..i] == h[..i];
      assert !RevokedAt(h, n, id);
      forall j | i < j < |front| ensures !RevokedAt(front, j, id) {
        assert !RevokedAt(h, j, id);
      }
      LiveIsStored(w, st, front, i, id, user);
    }
  }

  // A stored session that was not there at the start was issued, and not logged out since.
  lemma {:induction false} StoredIsLive(w: World, st: Store, h: seq<Entry>, id: string) returns (i: nat)
    requires id !in st.sessions && id in After(w, st, h).sessions
    ensures i < |h| && LiveFrom(w, st, h, i, id, After(w, st, h).sessions[id].userId)
  {
    var n := |h| - 1;
    var front := h[..n];
    var before := After(w, st, front);
    StepSessions(w, before, h[n].at, h[n].request, id);
    if Opens(w, before, h[n].at, h[n].request, id) {
      i := n;
    } else {
      i := StoredIsLive(w, st, front, id);
      LiveExtends(w, st, h, i, id, before.sessions[id].userId);
    }
  }

  lemma LiveExtends(w: World, st: Store, h: seq<Entry>, i: nat, id: string, user: nat)
    requires h != [] && LiveFrom(w, st, h[..|h| - 1], i, id, user)
    requires !RevokedAt(h, |h| - 1, id)
    ensures LiveFrom(w, st, h, i, id, user)
  {
    var front := h[..|h| - 1];
    assert front[..i] == h[..i];
    forall j | i < j < |h| ensures !RevokedAt(h, j, id) {
      if j < |front| {
        assert !RevokedAt(front, j, id);
      }
    }
  }

  /** Session lifetime: an id resolves to a user exactly while a register or login that issued it to that user
      is unexpired and no logout has deleted it since. */
  lemma SessionLifetime(w: World, st: Store, h: seq<Entry>, id: string, user: nat, now: real)
    requires Inv(w, st) && id !in st.sessions
    ensures FindUserByValidSessionId(After(w, st, h), id, now) == Some(user)
       <==> Live(w, st, h, id, user, now)
  {
    var end := After(w, st, h);
    HistoryInv(w, st, h);
    if FindUserByValidSessionId(end, id, now) == Some(user) {
      var i := StoredIsLive(w, st, h, id);
      LiveIsStored(w, st, h, i, id, user);
    }
    if i :| 0 <= i < |h| && LiveFrom(w, st, h, i, id, user) && (h[i].at + w.ttl as real).Floor > now.Floor {
      LiveIsStored(w, st, h, i, id, user);
    }
  }

  /** No request changes an existing account, and every account it adds is an ordinary user's. */
  lemma {:induction false} AccountsAreFixed(w: World, st: Store, h: seq<Entry>)
    requires Inv(w, st)
    ensures forall id | id in st.users :: id in After(w, st, h).users && After(w, st, h).users[id] == st.users[id]
    ensures forall id | id in After(w, st, h).users && id !in st.users :: After(w, st, h).users[id].role == User
  {
    if h != [] {
      var n := |h| - 1;
      AccountsAreFixed(w, st, h[..n]);
      HistoryInv(w, st, h[..n]);
      StepAccounts(w, After(w, st, h[..n]), h[n].at, h[n].request);
    }
  }

  lemma StepAccounts(w: World, st: Store, now: real, r: Request)
    requires Inv(w, st)
    ensures var users := Handle(w, st, now, r).0.users;
            && (forall id | id in st.users :: id in users && users[id] == st.users[id])
            && (forall id | id in users && id !in st.users :: users[id].role == User)
  {
  }

  lemma {:induction false} AfterConcat(w: World, st: Store, h: seq<Entry>, k: nat)
    requires k <= |h|
    ensures After(w, st, h) == After(w, After(w, st, h[..k]), h[k..])
    decreases |h|
  {
    var n := |h| - 1;
    if k == |h| {
      assert h[..k] == h;
    } else {
      AfterConcat(w, st, h[..n], k);
      assert h[..n][..k] == h[..k] && h[..n][k..] == h[k..][..n - k];
    }
  }

  lemma NamedIsFound(w: World, st: Store, name: string, id: nat)
    requires Inv(w, st) && Named(w, st, name, id)
    ensures FindUserByUsername(w, st, name) == Some(id)
  {
  }

  // The password is the user's, and the name is theirs.
  ghost predicate Authentic(w: World, st: Store, username: string, password: string, user: nat) {
    Named(w, st, username, user) && w.verify(password, st.users[user].hash)
  }

  /** Every answer to a login: 400 for an empty field, 500 exactly for a statement that fails on its way, 401 exactly
      for an unknown name or a wrong password, and otherwise a session of the user with that name and password. */
  lemma LoginIff(w: World, st: Store, now: real, username: string, password: string, entropy: Entropy,
                 lookupFault: bool, sessionFault: bool, user: nat)
    requires Inv(w, st)
    ensures var (st', reply) := Handle(w, st, now, Login(username, password, entropy, lookupFault, sessionFault));
            var given := username != "" && password != "";
            var known := exists u :: Authentic(w, st, username, password, u);
            var stuck := sessionFault || Hex(entropy) in st.sessions;
            && (reply == Error(400) <==> !given)
            && (reply == Error(500) <==> given && (lookupFault || (known && stuck)))
            && (reply == Error(401) <==> given && !lookupFault && !known)
            && (given && !lookupFault && !stuck && Authentic(w, st, username, password, user) <==>
                  reply == Answered(200, Some(user), Some(Hex(entropy))))
            && (given && !lookupFault && known && !stuck ==> reply.Answered? && reply.status == 200 && reply.user.Some?)
            && st'.users == st.users
  {
    if u :| Authentic(w, st, username, password, u) {
      NamedIsFound(w, st, username, u);
    } else {
      var found := FindUserByUsername(w, st, username);
      assert found.Some? ==> !Authentic(w, st, username, password, found.value);
    }
    if Named(w, st, username, user) {
      NamedIsFound(w, st, username, user);
    }
  }

  /** Every answer to a registration: 400 for an invalid payload, 409 exactly for a taken name, 500 exactly for a
      failure on its way, and otherwise a session of a new user.  The account is there even if its session could not
      be stored. */
  lemma RegisterIff(w: World, st: Store, now: real, username: string, valid: bool, hash: Option<string>,
                    entropy: Entropy, userFault: bool, sessionFault: bool)
    requires Inv(w, st)
    ensures var (st', reply) := Handle(w, st, now, Register(username, valid, hash, entropy, userFault, sessionFault));
            var taken := exists id :: Named(w, st, username, id);
            var tried := valid && hash.Some? && !userFault;
            var stuck := sessionFault || Hex(entropy) in st.sessions;
            && (reply == Error(400) <==> !valid)
            && (reply == Error(409) <==> tried && taken)
            && (reply == Error(500) <==> valid && (hash == None || userFault || (!taken && stuck)))
            && (tried && !taken ==>
                  && st'.users == st.users[st.nextUser := Account(username, hash.value, User)]
                  && st.nextUser !in st.users && Named(w, st', username, st.nextUser)
                  && (!stuck ==> reply == Answered(201, Some(st.nextUser), Some(Hex(entropy)))))
            && (!tried || taken ==> st'.users == st.users && st'.sessions == st.sessions)
  {
  }

  /** Every session was issued to somebody who gave that user's password, or by the registration that made the
      user. */
  lemma SessionsNeedCredentials(w: World, st: Store, h: seq<Entry>, i: nat, id: string, user: nat)
    requires Inv(w, st) && IssuedAt(w, st, h, i, id, user)
    ensures user in After(w, st, h).users
    ensures var account, r := After(w, st, h).users[user], h[i].request;
            || (r.Login? && w.collate(account.username) == w.collate(r.username) && w.verify(r.password, account.hash))
            || (r.Register? && r.valid && r.hash.Some? && account == Account(r.username, r.hash.value, User))
  {
    var before := After(w, st, h[..i]);
    var after := After(w, st, h[..i + 1]);
    HistoryInv(w, st, h[..i]);
    HistoryInv(w, st, h[..i + 1]);
    assert h[..i + 1][..i] == h[..i];
    assert after == Handle(w, before, h[i].at, h[i].request).0;
    AfterConcat(w, st, h, i + 1);
    AccountsAreFixed(w, after, h[i + 1..]);
  }

  /** Who registered can log in ever after, with any password the stored hash verifies. */
  lemma RegisteredCanLogIn(w: World, st: Store, h: seq<Entry>, i: nat, password: string, entropy: Entropy, now: real)
    requires Inv(w, st) && i < |h| && h[i].request.Register? && h[i].request.username != ""
    requires ReplyAt(w, st, h, i).Answered? && ReplyAt(w, st, h, i).session.Some?
    requires password != "" && w.verify(password, h[i].request.hash.value)
    requires Hex(entropy) !in After(w, st, h).sessions
    ensures Handle(w, After(w, st, h), now, Login(h[i].request.username, password, entropy, false, false)).1
         == Answered(200, ReplyAt(w, st, h, i).user, Some(Hex(entropy)))
  {
    var reply := ReplyAt(w, st, h, i);
    SessionsNeedCredentials(w, st, h, i, reply.session.value, reply.user.value);
    HistoryInv(w, st, h);
    LoginIff(w, After(w, st, h), now, h[i].request.username, password, entropy, false, false, reply.user.value);
  }

  /** An admin route is passed through exactly for a live session of a user who was an admin at the start. */
  lemma AdminGate(w: World, st: Store, h: seq<Entry>, now: real, path: string, cookie: Option<string>, fault: bool)
    requires Inv(w, st) && IsAdminPath(path)
    ensures var reply := Handle(w, After(w, st, h), now, Route(path, cookie, fault)).1;
            var user := Resolve(After(w, st, h), cookie, now);
            var isAdmin := user.Some? && user.value in st.users && st.users[user.value].role == Admin;
            && (reply == Passed <==> !fault && isAdmin)
            && (reply == Error(403) <==> !fault && user.Some? && !isAdmin)
            && (reply == Error(401) <==> user == None && (!fault || SessionIdOf(cookie) == None))
  {
    AccountsAreFixed(w, st, h);
  }

  // The cookie carries an id that was not there at the start.
  ghost predicate NewCookie(st: Store, cookie: Option<string>) {
    SessionIdOf(cookie).Some? ==> SessionIdOf(cookie).value !in st.sessions
  }

  // The cookie carries the id of a live session of the user.
  ghost predicate Carries(w: World, st: Store, h: seq<Entry>, cookie: Option<string>, user: nat, now: real) {
    SessionIdOf(cookie).Some? && Live(w, st, h, SessionIdOf(cookie).value, user, now)
  }

  lemma ResolveIffCarries(w: World, st: Store, h: seq<Entry>, cookie: Option<string>, user: nat, now: real)
    requires Inv(w, st) && NewCookie(st, cookie)
    ensures Resolve(After(w, st, h), cookie, now) == Some(user) <==> Carries(w, st, h, cookie, user, now)
  {
    hide Inv, After, Live, SessionIdOf, FindUserByValidSessionId;
    if SessionIdOf(cookie).Some? {
      SessionLifetime(w, st, h, SessionIdOf(cookie).value, user, now);
    }
  }

  /** Over every history, every answer to "me": 200 as a user exactly for a cookie with the id of a live session of that
      user, 500 exactly for a fault on an id, and 401 otherwise. */
  lemma MeIff(w: World, st: Store, h: seq<Entry>, cookie: Option<string>, fault: bool, now: real)
    requires Inv(w, st) && NewCookie(st, cookie)
    ensures var (st', reply) := Handle(w, After(w, st, h), now, Me(cookie, fault));
            && st' == After(w, st, h)
            && (forall user :: !fault && Carries(w, st, h, cookie, user, now) <==>
                                 reply == Answered(200, Some(user), None))
            && (reply == Error(500) <==> fault && SessionIdOf(cookie).Some?)
            && (reply == Error(401) <==>
                  SessionIdOf(cookie) == None || (!fault && forall user :: !Carries(w, st, h, cookie, user, now)))
  {
    hide Carries, SessionIdOf, After;
    forall user: nat
      ensures Resolve(After(w, st, h), cookie, now) == Some(user) <==> Carries(w, st, h, cookie, user, now)
    {
      ResolveIffCarries(w, st, h, cookie, user, now);
    }
    if SessionIdOf(cookie) == None {
      assert forall user: nat :: Resolve(After(w, st, h), cookie, now) != Some(user);
    }
  }

  // The cookie carries the id of a live session of a user who was an admin at the start.
  ghost predicate CarriesAdmin(w: World, st: Store, h: seq<Entry>, cookie: Option<string>, now: real) {
    exists user :: user in st.users && st.users[user].role == Admin && Carries(w, st, h, cookie, user, now)
  }

  /** Over every history, every answer of the admin check, for every path: outside /api/admin/ it lets everything
      through; inside, exactly the cookies of live sessions of users who were admins at the start. */
  lemma RouteIff(w: World, st: Store, h: seq<Entry>, path: string, cookie: Option<string>, fault: bool, now: real)
    requires Inv(w, st) && NewCookie(st, cookie)
    ensures var (st', reply) := Handle(w, After(w, st, h), now, Route(path, cookie, fault));
            var guarded := "/api/admin/" <= path;
            var somebody := exists user :: Carries(w, st, h, cookie, user, now);
            var isAdmin := CarriesAdmin(w, st, h, cookie, now);
            && st' == After(w, st, h)
            && (reply == Passed <==> !guarded || (!fault && isAdmin))
            && (reply == Error(403) <==> guarded && !fault && somebody && !isAdmin)
            && (reply == Error(401) <==> guarded && (SessionIdOf(cookie) == None || (!fault && !somebody)))
            && (reply == Error(500) <==> guarded && fault && SessionIdOf(cookie).Some?)
  {
    hide Carries, SessionIdOf, After;
    assert IsAdminPath(path) <==> "/api/admin/" <= path;
    if IsAdminPath(path) {
      AdminGate(w, st, h, now, path, cookie, fault);
      forall user: nat
      ensures Resolve(After(w, st, h), cookie, now) == Some(user) <==> Carries(w, st, h, cookie, user, now)
    {
        ResolveIffCarries(w, st, h, cookie, user, now);
      }
    }
  }

  /** A logout always answers 200, but the session it names is gone afterwards only if the delete did not fail. */
  lemma LogoutEndsSessionIff(w: World, st: Store, now: real, cookie: Option<string>, fault: bool, id: string)
    requires SessionIdOf(cookie) == Some(id)
    ensures Handle(w, st, now, Logout(cookie, fault)).1 == Answered(200, None, None)
    ensures id !in Handle(w, st, now, Logout(cookie, fault)).0.sessions <==> !fault || id !in st.sessions
  {
  }

  /** End to end: the cookie printed by a register or login, sent back among other cookies, names the user
      until it expires. */
  lemma CookieNamesUser(w: World, st: Store, h: seq<Entry>, i: nat, entropy: Entropy, user: nat,
                        setCookie: string, secure: bool, pairs: seq<string>, k: nat, now: real)
    requires Inv(w, st) && Hex(entropy) !in st.sessions
    requires LiveFrom(w, st, h, i, Hex(entropy), user)
    requires Split(setCookie) == Segments(NAME + "=" + Hex(entropy), if w.ttl > 0 then Some(w.ttl) else None, secure)
    requires SentBack(pairs, k, setCookie)
    ensures Handle(w, After(w, st, h), now, Me(Some(Join(pairs)), false)).1
         == if (h[i].at + w.ttl as real).Floor > now.Floor then Answered(200, Some(user), None) else Error(401)
  {
    HexEncodes(entropy);
    CookieRoundTrip(Hex(entropy), setCookie, w.ttl, secure, pairs, k);
    LiveIsStored(w, st, h, i, Hex(entropy), user);
    HistoryInv(w, st, h);
  }

  // ---- The service object ----

  class AuthService {
    const world: World
    var users: map<nat, Account>
    var nextUser: nat
    var sessions: map<string, Session>

    ghost function State(): Store
      reads this
    {
      Store(users, nextUser, sessions)
    }

    constructor (world: World, users: map<nat, Account>, nextUser: nat)
      ensures this.world == world && State() == Store(users, nextUser, map[])
    {
      this.world := world;
      this.users, this.nextUser, this.sessions := users, nextUser, map[];
    }

    // SELECT ... WHERE username = name LIMIT 1.
    method LookUp(name: string) returns (found: Option<nat>)
      requires Inv(world, State())
      ensures found == FindUserByUsername(world, State(), name)
    {
      found := None;
      var ids := users.Keys;
      while ids != {}
        invariant ids <= users.Keys
        invariant found == None ==>
                    forall id | id in users && id !in ids :: world.collate(users[id].username) != world.collate(name)
        invariant found.Some? ==> Named(world, State(), name, found.value)
        decreases |ids|
      {
        var id :| id in ids;
        if world.collate(users[id].username) == world.collate(name) {
          found := Some(id);
        }
        ids := ids - {id};
      }
      if found.Some? {
        assert Named(world, State(), name, found.value);
      } else {
        assert forall id :: !Named(world, State(), name, id);
      }
    }

    method CreateSession(now: real, userId: nat, id: string, fault: bool, status: nat) returns (reply: Reply)
      modifies this`sessions
      ensures (State(), reply) == OpenSession(world, old(State()), now, userId, id, fault, status)
    {
      if fault || id in sessions {
        return Error(500);
      }
      sessions := sessions[id := Session(userId, (now + world.ttl as real).Floor)];
      return Answered(status, Some(userId), Some(id));
    }

    method RegisterUser(now: real, username: string, valid: bool, hash: Option<string>, entropy: Entropy,
                        userFault: bool, sessionFault: bool)
      returns (reply: Reply)
      requires Inv(world, State())
      modifies this
      ensures (State(), reply)
           == Handle(world, old(State()), now, Register(username, valid, hash, entropy, userFault, sessionFault))
      ensures Inv(world, State())
    {
      StepInv(world, State(), now, Register(username, valid, hash, entropy, userFault, sessionFault));
      if !valid {
        return Error(400);
      }
      if hash == None || userFault {
        return Error(500);
      }
      var taken := LookUp(username);
      var userId := nextUser;
      nextUser := nextUser + 1;
      if taken != None {
        return Error(409);
      }
      users := users[userId := Account(username, hash.value, User)];
      reply := CreateSession(now, userId, Hex(entropy), sessionFault, 201);
    }

    method LogIn(now: real, username: string, password: string, entropy: Entropy,
                 lookupFault: bool, sessionFault: bool)
      returns (reply: Reply)
      requires Inv(world, State())
      modifies this`sessions
      ensures (State(), reply)
           == Handle(world, old(State()), now, Login(username, password, entropy, lookupFault, sessionFault))
      ensures Inv(world, State())
    {
      StepInv(world, State(), now, Login(username, password, entropy, lookupFault, sessionFault));
      if username == "" || password == "" {
        return Error(400);
      }
      if lookupFault {
        return Error(500);
      }
      var user := LookUp(username);
      if user == None || !world.verify(password, users[user.value].hash) {
        return Error(401);
      }
      reply := CreateSession(now, user.value, Hex(entropy), sessionFault, 200);
    }

    method LogOut(now: real, cookie: Option<string>, fault: bool) returns (reply: Reply)
      requires Inv(world, State())
      modifies this`sessions
      ensures (State(), reply) == Handle(world, old(State()), now, Logout(cookie, fault))
      ensures Inv(world, State())
    {
      StepInv(world, State(), now, Logout(cookie, fault));
      var id := ParseSessionId(cookie);
      if id.Some? && !fault {
        sessions := sessions - {id.value};
      }
      return Answered(200, None, None);
    }

    method WhoAmI(now: real, cookie: Option<string>, fault: bool) returns (reply: Reply)
      ensures reply == Handle(world, State(), now, Me(cookie, fault)).1
    {
      var id := ParseSessionId(cookie);
      if id == None {
        return Error(401);
      }
      if fault {
        return Error(500);
      }
      var user := FindUserByValidSessionId(Store(users, nextUser, sessions), id.value, now);
      return if user == None then Error(401) else Answered(200, user, None);
    }

    method CheckAdminAuth(now: real, path: string, cookie: Option<string>, fault: bool) returns (reply: Reply)
      ensures reply == Handle(world, State(), now, Route(path, cookie, fault)).1
    {
      if !IsAdminPath(path) {
        return Passed;
      }
      var id := ParseSessionId(cookie);
      if id == None {
        return Error(401);
      }
      if fault {
        return Error(500);
      }
      var user := FindUserByValidSessionId(Store(users, nextUser, sessions), id.value, now);
      if user == None {
        return Error(401);
      }
      return if users[user.value].role != Admin then Error(403) else Passed;
    }
  }
}
