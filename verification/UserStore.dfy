/** Users and login sessions (internal/auth/users.go).

    Every change is saved before the operation returns, and a restart reloads the file. Password
    hashing is a parameter, session tokens are drawn fresh, writing the file succeeds. */
module UserStore {
  import opened Prelude

  const ADMIN := "admin"
  const DAY: int := 86_400_000_000_000

  datatype User = User(username: string, hash: string, role: string, createdAt: int, updatedAt: int)

  datatype Session = Session(token: string, username: string, createdAt: int, expiresAt: int)

  datatype AuthData = AuthData(users: map<string, User>, sessions: map<string, Session>)

  /** `disk` is None until something was saved. */
  datatype State = State(live: AuthData, disk: Option<AuthData>)

  const EMPTY := AuthData(map[], map[])
  const START := State(EMPTY, None)

  /** bcrypt's comparison of a stored hash with a password. */
  type Verify = (string, string) -> bool

  /** The hash is None when hashing fails; times are clock readings inside the call. */
  datatype Op =
    | OpCreateUser(name: string, password: string, hash: Option<string>, role: string, now: int)
    | OpAuthenticate(name: string, password: string, token: string, created: int, now: int)
    | OpLogout(token: string)
    | OpUpdatePassword(name: string, hash: Option<string>, now: int)
    | OpUpdateRole(name: string, role: string, now: int)
    | OpDeleteUser(name: string)
    | OpRestart(now: int)

  function Admins(users: map<string, User>): set<string> {
    set u | u in users && users[u].role == ADMIN
  }

  function SessionsExcept(sessions: map<string, Session>, name: string): map<string, Session> {
    map t | t in sessions && sessions[t].username != name :: sessions[t]
  }

  function Unexpired(sessions: map<string, Session>, now: int): map<string, Session> {
    map t | t in sessions && sessions[t].expiresAt >= now :: sessions[t]
  }

  predicate LastAdmin(users: map<string, User>, name: string) {
    name in users && users[name].role == ADMIN && |Admins(users)| <= 1
  }

  /** Whether the operation succeeds. */
  predicate Succeeds(verify: Verify, d: AuthData, op: Op) {
    match op
    case OpCreateUser(name, password, hash, _, _) =>
      name != "" && password != "" && hash.Some? && name !in d.users
    case OpAuthenticate(name, password, _, _, _) =>
      name in d.users && verify(d.users[name].hash, password)
    case OpLogout(_) => true
    case OpUpdatePassword(name, hash, _) => hash.Some? && name in d.users
    case OpUpdateRole(name, role, _) =>
      name in d.users && (role == ADMIN || !LastAdmin(d.users, name))
    case OpDeleteUser(name) => name in d.users && !LastAdmin(d.users, name)
    case OpRestart(_) => true
  }

  /** The data after a successful operation other than a restart. */
  function Changed(verify: Verify, d: AuthData, op: Op): AuthData
    requires Succeeds(verify, d, op) && !op.OpRestart?
  {
    match op
    case OpCreateUser(name, _, hash, role, now) =>
      d.(users := d.users[name := User(name, hash.value, role, now, now)])
    case OpAuthenticate(name, _, token, created, now) =>
      d.(sessions := d.sessions[token := Session(token, name, created, now + DAY)])
    case OpLogout(token) => d.(sessions := d.sessions - {token})
    case OpUpdatePassword(name, hash, now) =>
      d.(users := d.users[name := d.users[name].(hash := hash.value, updatedAt := now)])
    case OpUpdateRole(name, role, now) =>
      d.(users := d.users[name := d.users[name].(role := role, updatedAt := now)])
    case OpDeleteUser(name) =>
      AuthData(d.users - {name}, SessionsExcept(d.sessions, name))
  }

  function Loaded(disk: Option<AuthData>, now: int): AuthData {
    match disk
    case None => EMPTY
    case Some(d) => d.(sessions := Unexpired(d.sessions, now))
  }

  function Step(verify: Verify, s: State, op: Op): State {
    if op.OpRestart? then s.(live := Loaded(s.disk, op.now))
    else if !Succeeds(verify, s.live, op) then s
    else var d := Changed(verify, s.live, op); State(d, Some(d))
  }

  /** ValidateSession's answer. */
  function Validated(d: AuthData, token: string, now: int): Option<User> {
    if d.users == map[] || token !in d.sessions || d.sessions[token].expiresAt < now
       || d.sessions[token].username !in d.users
    then None
    else Some(d.users[d.sessions[token].username])
  }

  // ----- The store -----

  class Store {
    var users: map<string, User>
    var sessions: map<string, Session>
    var disk: Option<AuthData>

    ghost function Abs(): State
      reads this
    {
      State(AuthData(users, sessions), disk)
    }

    /** NewStore on a file that holds `disk`. */
    constructor (disk: Option<AuthData>, now: int)
      ensures Abs() == State(Loaded(disk, now), disk)
      ensures users == (if disk.Some? then disk.value.users else map[])
      ensures sessions == map t | disk.Some? && t in disk.value.sessions
                                  && disk.value.sessions[t].expiresAt >= now
                              :: disk.value.sessions[t]
    {
      this.disk := disk;
      users, sessions := map[], map[];
      new;
      Load(now);
    }

    method Load(now: int)
      requires users == map[] && sessions == map[]
      modifies this
      ensures Abs() == State(Loaded(old(disk), now), old(disk))
    {
      if disk.None? {
        return;
      }
      users := disk.value.users;
      sessions := RemoveExpired(disk.value.sessions, now);
    }

    static method RemoveExpired(all: map<string, Session>, now: int)
      returns (kept: map<string, Session>)
      ensures kept == Unexpired(all, now)
    {
      kept := all;
      var todo := all.Keys;
      while todo != {}
        invariant todo <= all.Keys
        invariant kept == map t | t in all && (t in todo || all[t].expiresAt >= now) :: all[t]
        decreases |todo|
      {
        var t :| t in todo;
        todo := todo - {t};
        if all[t].expiresAt < now {
          kept := kept - {t};
        }
      }
    }

    static method RemoveSessionsOf(all: map<string, Session>, name: string)
      returns (kept: map<string, Session>)
      ensures kept == SessionsExcept(all, name)
    {
      kept := all;
      var todo := all.Keys;
      while todo != {}
        invariant todo <= all.Keys
        invariant kept == map t | t in all && (t in todo || all[t].username != name) :: all[t]
        decreases |todo|
      {
        var t :| t in todo;
        todo := todo - {t};
        if all[t].username == name {
          kept := kept - {t};
        }
      }
    }

    static method CountAdmins(users: map<string, User>) returns (n: nat)
      ensures n == |Admins(users)|
    {
      n := 0;
      var todo := users.Keys;
      while todo != {}
        invariant todo <= users.Keys
        invariant n == |Admins(users) - todo|
        decreases |todo|
      {
        var u :| u in todo;
        OneSeen(Admins(users), todo, u);
        if users[u].role == ADMIN {
          n := n + 1;
        }
        todo := todo - {u};
      }
      assert Admins(users) - {} == Admins(users);
    }

    method Save()
      modifies this`disk
      ensures disk == Some(AuthData(users, sessions))
    {
      disk := Some(AuthData(users, sessions));
    }

    method CreateUser(name: string, password: string, hash: Option<string>, role: string, now: int)
      returns (ok: bool)
      modifies this
      ensures ok <==> name != "" && password != "" && hash.Some? && name !in old(users)
      ensures forall v :: var op := OpCreateUser(name, password, hash, role, now);
                          Abs() == Step(v, old(Abs()), op)
                          && ok == Succeeds(v, old(Abs()).live, op)
    {
      if name == "" || password == "" || hash.None? || name in users {
        return false;
      }
      users := users[name := User(name, hash.value, role, now, now)];
      Save();
      return true;
    }

    method Authenticate(
      verify: Verify, name: string, password: string, token: string, created: int, now: int)
      returns (session: Option<Session>)
      modifies this
      ensures session.Some? <==> name in old(users) && verify(old(users)[name].hash, password)
      ensures session.Some? ==>
                session == Some(Session(token, name, created, now + 24 * 3_600_000_000_000))
      ensures var op := OpAuthenticate(name, password, token, created, now);
              Abs() == Step(verify, old(Abs()), op)
              && (session.Some? <==> Succeeds(verify, old(Abs()).live, op))
      ensures session.Some? ==> token in sessions && session.value == sessions[token]
    {
      if name !in users || !verify(users[name].hash, password) {
        return None;
      }
      var s := Session(token, name, created, now + DAY);
      sessions := sessions[token := s];
      Save();
      return Some(s);
    }

    method ValidateSession(token: string, now: int) returns (user: Option<User>)
      ensures user == Validated(AuthData(users, sessions), token, now)
    {
      if |users| == 0 {
        return None;
      }
      if token !in sessions {
        return None;
      }
      if sessions[token].expiresAt < now {
        return None;
      }
      if sessions[token].username !in users {
        return None;
      }
      return Some(users[sessions[token].username]);
    }

    method Logout(token: string)
      modifies this
      ensures forall v :: Abs() == Step(v, old(Abs()), OpLogout(token))
    {
      sessions := sessions - {token};
      Save();
    }

    method UpdatePassword(name: string, hash: Option<string>, now: int) returns (ok: bool)
      modifies this
      ensures ok <==> hash.Some? && name in old(users)
      ensures forall v :: Abs() == Step(v, old(Abs()), OpUpdatePassword(name, hash, now))
                          && ok == Succeeds(v, old(Abs()).live, OpUpdatePassword(name, hash, now))
    {
      if hash.None? || name !in users {
        return false;
      }
      users := users[name := users[name].(hash := hash.value, updatedAt := now)];
      Save();
      return true;
    }

    method UpdateRole(name: string, role: string, now: int) returns (ok: bool)
      modifies this
      ensures ok <==> name in old(users)
                      && (old(users)[name].role == "admin" && role != "admin" ==>
                            |Admins(old(users))| >= 2)
      ensures forall v :: Abs() == Step(v, old(Abs()), OpUpdateRole(name, role, now))
                          && ok == Succeeds(v, old(Abs()).live, OpUpdateRole(name, role, now))
    {
      if name !in users {
        return false;
      }
      if users[name].role == ADMIN && role != ADMIN {
        var admins := CountAdmins(users);
        if admins <= 1 {
          return false;
        }
      }
      users := users[name := users[name].(role := role, updatedAt := now)];
      Save();
      return true;
    }

    method DeleteUser(name: string) returns (ok: bool)
      modifies this
      ensures ok <==> name in old(users)
                      && (old(users)[name].role == "admin" ==> |Admins(old(users))| >= 2)
      ensures forall v :: Abs() == Step(v, old(Abs()), OpDeleteUser(name))
                          && ok == Succeeds(v, old(Abs()).live, OpDeleteUser(name))
    {
      if name !in users {
        return false;
      }
      var admins := CountAdmins(users);
      if users[name].role == ADMIN && admins <= 1 {
        return false;
      }
      users := users - {name};
      sessions := RemoveSessionsOf(sessions, name);
      Save();
      return true;
    }
  }

  lemma OneSeen(admins: set<string>, todo: set<string>, u: string)
    requires u in todo
    ensures |admins - (todo - {u})| == |admins - todo| + (if u in admins then 1 else 0)
  {
    if u in admins {
      assert admins - (todo - {u}) == (admins - todo) + {u};
    } else {
      assert admins - (todo - {u}) == admins - todo;
    }
  }

  // ----- Invariants of every run -----

  ghost predicate DataOk(d: AuthData) {
    (forall t :: t in d.sessions ==>
       d.sessions[t].username in d.users && d.sessions[t].token == t)
    && forall u :: u in d.users ==> d.users[u].username == u
  }

  /** Every session's user exists, on disk and in memory, and nothing unsaved is in memory. */
  ghost predicate Consistent(s: State) {
    DataOk(s.live)
    && (s.disk.None? ==> s.live == EMPTY)
    && (s.disk.Some? ==>
          DataOk(s.disk.value) && s.live.users == s.disk.value.users
          && forall t :: t in s.live.sessions ==>
               t in s.disk.value.sessions && s.disk.value.sessions[t] == s.live.sessions[t])
  }

  lemma StepKeepsConsistent(verify: Verify, s: State, op: Op)
    requires Consistent(s)
    ensures Consistent(Step(verify, s, op))
  {
  }

  ghost predicate HasAdmin(s: State) {
    Admins(s.live.users) != {}
  }

  lemma LosesOne(admins: set<string>, name: string)
    requires |admins| > 1
    ensures admins - {name} != {}
  {
    assert |admins - {name}| >= |admins| - 1;
  }

  /** Once there is an administrator, every operation keeps at least one. */
  lemma StepKeepsAdmin(verify: Verify, s: State, op: Op)
    requires Consistent(s) && HasAdmin(s)
    ensures HasAdmin(Step(verify, s, op))
  {
    var users, users' := s.live.users, Step(verify, s, op).live.users;
    var a :| a in Admins(users);
    if op.OpDeleteUser? || op.OpUpdateRole? {
      if op.name in users && users[op.name].role == ADMIN && |Admins(users)| > 1 {
        LosesOne(Admins(users), op.name);
        var b :| b in Admins(users) - {op.name};
        assert b in Admins(users');
      } else {
        assert a in Admins(users');
      }
    } else {
      assert a in Admins(users');
    }
  }

  function After(verify: Verify, ops: seq<Op>, n: nat): State
    requires n <= |ops|
  {
    if n == 0 then START else Step(verify, After(verify, ops, n - 1), ops[n - 1])
  }

  lemma {:induction false} RunKeepsConsistent(verify: Verify, ops: seq<Op>, n: nat)
    requires n <= |ops|
    ensures Consistent(After(verify, ops, n))
  {
    if n > 0 {
      RunKeepsConsistent(verify, ops, n - 1);
      StepKeepsConsistent(verify, After(verify, ops, n - 1), ops[n - 1]);
    }
  }

  lemma {:induction false} RunKeepsAdmin(verify: Verify, ops: seq<Op>, m: nat, n: nat)
    requires m <= n <= |ops| && HasAdmin(After(verify, ops, m))
    ensures HasAdmin(After(verify, ops, n))
  {
    if m < n {
      RunKeepsAdmin(verify, ops, m, n - 1);
      RunKeepsConsistent(verify, ops, n - 1);
      StepKeepsAdmin(verify, After(verify, ops, n - 1), ops[n - 1]);
    }
  }

  // ----- Sessions agree with history -----

  ghost predicate Succeeded(verify: Verify, ops: seq<Op>, i: nat)
    requires i < |ops|
  {
    Succeeds(verify, After(verify, ops, i).live, ops[i])
  }

  /** Step `i` issued the token. */
  ghost predicate Issued(verify: Verify, ops: seq<Op>, i: nat, token: string)
    requires i < |ops|
  {
    ops[i].OpAuthenticate? && ops[i].token == token && Succeeded(verify, ops, i)
  }

  /** Step `j` takes back what step `i` issued. */
  ghost predicate Revokes(verify: Verify, ops: seq<Op>, j: nat, i: nat)
    requires i < |ops| && j < |ops| && ops[i].OpAuthenticate?
  {
    ops[j] == OpLogout(ops[i].token)
    || (ops[j] == OpDeleteUser(ops[i].name) && Succeeded(verify, ops, j))
  }

  /** Issued at step `i` and not taken back by step `n`. */
  ghost predicate Standing(verify: Verify, ops: seq<Op>, n: nat, i: nat, token: string)
    requires n <= |ops|
  {
    i < n && Issued(verify, ops, i, token)
    && forall j: nat :: i < j < n ==> !Revokes(verify, ops, j, i)
  }

  ghost predicate FreshTokens(ops: seq<Op>) {
    forall i, j :: 0 <= i < j < |ops| && ops[i].OpAuthenticate? && ops[j].OpAuthenticate?
                   ==> ops[i].token != ops[j].token
  }

  /** The clock does not run backwards past a restart. */
  ghost predicate RestartsBy(ops: seq<Op>, n: nat, now: int)
    requires n <= |ops|
  {
    forall i :: 0 <= i < n && ops[i].OpRestart? ==> ops[i].now <= now
  }

  /** A session table lists a token only if it stands, and lists it at least until it expires. */
  ghost predicate TableOk(
    verify: Verify, ops: seq<Op>, n: nat, token: string, now: int, sessions: map<string, Session>)
    requires n <= |ops|
  {
    (token in sessions ==> exists i: nat :: Standing(verify, ops, n, i, token)
                             && sessions[token].username == ops[i].name
                             && sessions[token].expiresAt == ops[i].now + DAY)
    && (forall i: nat :: Standing(verify, ops, n, i, token) && now <= ops[i].now + DAY ==>
          token in sessions)
  }

  ghost function DiskSessions(s: State): map<string, Session> {
    if s.disk.Some? then s.disk.value.sessions else map[]
  }

  /** Steps that neither issue nor revoke leave the standing tokens alone. */
  lemma TableFrame(
    verify: Verify, ops: seq<Op>, n: nat, token: string, now: int,
    before: map<string, Session>, after: map<string, Session>)
    requires 0 < n <= |ops| && TableOk(verify, ops, n - 1, token, now, before)
    requires !Issued(verify, ops, n - 1, token) && ops[n - 1] != OpLogout(token)
    requires token in after <==> token in before
    requires token in after ==> after[token] == before[token]
    requires ops[n - 1].OpDeleteUser? && Succeeded(verify, ops, n - 1) && token in before ==>
               before[token].username != ops[n - 1].name
    requires FreshTokens(ops)
    ensures TableOk(verify, ops, n, token, now, after)
  {
  }

  lemma TableEmptied(
    verify: Verify, ops: seq<Op>, n: nat, i: nat, token: string, now: int,
    after: map<string, Session>)
    requires 0 < n <= |ops| && FreshTokens(ops) && token !in after
    requires Standing(verify, ops, n - 1, i, token) && Revokes(verify, ops, n - 1, i)
    ensures TableOk(verify, ops, n, token, now, after)
  {
  }

  lemma TableLogout(
    verify: Verify, ops: seq<Op>, n: nat, token: string, now: int, after: map<string, Session>)
    requires 0 < n <= |ops| && ops[n - 1] == OpLogout(token) && token !in after
    ensures TableOk(verify, ops, n, token, now, after)
  {
    forall k: nat
      ensures !Standing(verify, ops, n, k, token)
    {
      if Standing(verify, ops, n, k, token) {
        assert Revokes(verify, ops, n - 1, k);
      }
    }
  }

  lemma TableIssue(
    verify: Verify, ops: seq<Op>, n: nat, token: string, now: int, after: map<string, Session>)
    requires 0 < n <= |ops| && Issued(verify, ops, n - 1, token) && token in after
    requires after[token].username == ops[n - 1].name
    requires after[token].expiresAt == ops[n - 1].now + DAY
    ensures TableOk(verify, ops, n, token, now, after)
  {
  }

  /** What a successful operation does to the session table, read off the saved data. */
  lemma SaveTableOk(verify: Verify, ops: seq<Op>, n: nat, token: string, now: int)
    requires 0 < n <= |ops| && FreshTokens(ops)
    requires !ops[n - 1].OpRestart? && Succeeded(verify, ops, n - 1)
    requires TableOk(verify, ops, n - 1, token, now, After(verify, ops, n - 1).live.sessions)
    ensures TableOk(verify, ops, n, token, now, After(verify, ops, n).live.sessions)
  {
    var op := ops[n - 1];
    var before := After(verify, ops, n - 1).live.sessions;
    var after := After(verify, ops, n).live.sessions;
    if op == OpLogout(token) {
      TableLogout(verify, ops, n, token, now, after);
    } else if Issued(verify, ops, n - 1, token) {
      TableIssue(verify, ops, n, token, now, after);
    } else if op.OpDeleteUser? && token in before && before[token].username == op.name {
      var i: nat :| Standing(verify, ops, n - 1, i, token)
                    && before[token].username == ops[i].name
                    && before[token].expiresAt == ops[i].now + DAY;
      TableEmptied(verify, ops, n, i, token, now, after);
    } else {
      TableFrame(verify, ops, n, token, now, before, after);
    }
  }

  lemma IdleTableOk(
    verify: Verify, ops: seq<Op>, n: nat, token: string, now: int, table: map<string, Session>)
    requires 0 < n <= |ops| && FreshTokens(ops)
    requires ops[n - 1].OpRestart? || !Succeeded(verify, ops, n - 1)
    requires TableOk(verify, ops, n - 1, token, now, table)
    ensures TableOk(verify, ops, n, token, now, table)
  {
  }

  lemma {:induction false} TablesAgreeWithHistory(
    verify: Verify, ops: seq<Op>, n: nat, token: string, now: int)
    requires n <= |ops| && FreshTokens(ops) && RestartsBy(ops, n, now)
    ensures TableOk(verify, ops, n, token, now, After(verify, ops, n).live.sessions)
    ensures TableOk(verify, ops, n, token, now, DiskSessions(After(verify, ops, n)))
  {
    if n > 0 {
      var s, op := After(verify, ops, n - 1), ops[n - 1];
      TablesAgreeWithHistory(verify, ops, n - 1, token, now);
      if op.OpRestart? {
        IdleTableOk(verify, ops, n, token, now, DiskSessions(s));
        var after := After(verify, ops, n).live.sessions;
        if token in DiskSessions(s) && token !in after {
          assert DiskSessions(s)[token].expiresAt < op.now;
          var i: nat :| Standing(verify, ops, n, i, token)
                        && DiskSessions(s)[token].expiresAt == ops[i].now + DAY;
          forall k: nat | Standing(verify, ops, n, k, token)
            ensures k == i
          {
            StandingUnique(verify, ops, n, i, k, token);
          }
        }
      } else if Succeeded(verify, ops, n - 1) {
        SaveTableOk(verify, ops, n, token, now);
      } else {
        IdleTableOk(verify, ops, n, token, now, s.live.sessions);
        IdleTableOk(verify, ops, n, token, now, DiskSessions(s));
      }
    }
  }

  /** Issued, not expired, and followed neither by its logout nor by the deletion of its user. */
  ghost predicate Good(verify: Verify, ops: seq<Op>, token: string, now: int, i: nat) {
    Standing(verify, ops, |ops|, i, token) && now <= ops[i].now + DAY
  }

  lemma StandingUnique(verify: Verify, ops: seq<Op>, n: nat, i: nat, k: nat, token: string)
    requires n <= |ops| && FreshTokens(ops)
    requires Standing(verify, ops, n, i, token) && Standing(verify, ops, n, k, token)
    ensures i == k
  {
  }

  /** Across any run, restarts included, a token is accepted exactly when history says so, and it
      then stands for the user who logged in; recreating a deleted user does not revive it. */
  lemma TokenValidIff(verify: Verify, ops: seq<Op>, token: string, now: int)
    requires FreshTokens(ops) && RestartsBy(ops, |ops|, now)
    ensures var d := After(verify, ops, |ops|).live;
            (Validated(d, token, now).Some? <==> exists i: nat :: Good(verify, ops, token, now, i))
            && (forall i: nat :: Good(verify, ops, token, now, i) ==>
                  ops[i].name in d.users && Validated(d, token, now) == Some(d.users[ops[i].name]))
  {
    forall i: nat | Good(verify, ops, token, now, i)
      ensures ops[i].name in After(verify, ops, |ops|).live.users
      ensures Validated(After(verify, ops, |ops|).live, token, now)
           == Some(After(verify, ops, |ops|).live.users[ops[i].name])
    {
      GoodTokenValidates(verify, ops, token, now, i);
    }
    if Validated(After(verify, ops, |ops|).live, token, now).Some? {
      ValidTokenIsGood(verify, ops, token, now);
    }
  }

  lemma GoodTokenValidates(verify: Verify, ops: seq<Op>, token: string, now: int, i: nat)
    requires FreshTokens(ops) && RestartsBy(ops, |ops|, now) && Good(verify, ops, token, now, i)
    ensures var d := After(verify, ops, |ops|).live;
            ops[i].name in d.users && Validated(d, token, now) == Some(d.users[ops[i].name])
  {
    TablesAgreeWithHistory(verify, ops, |ops|, token, now);
    RunKeepsConsistent(verify, ops, |ops|);
    TableLookup(verify, ops, |ops|, token, now, After(verify, ops, |ops|).live.sessions, i);
  }

  lemma TableLookup(
    verify: Verify, ops: seq<Op>, n: nat, token: string, now: int, sessions: map<string, Session>,
    i: nat)
    requires n <= |ops| && FreshTokens(ops) && TableOk(verify, ops, n, token, now, sessions)
    requires Standing(verify, ops, n, i, token) && now <= ops[i].now + DAY
    ensures token in sessions && sessions[token].username == ops[i].name
            && sessions[token].expiresAt == ops[i].now + DAY
  {
  }

  lemma ValidTokenIsGood(verify: Verify, ops: seq<Op>, token: string, now: int)
    requires FreshTokens(ops) && RestartsBy(ops, |ops|, now)
    requires Validated(After(verify, ops, |ops|).live, token, now).Some?
    ensures exists i: nat :: Good(verify, ops, token, now, i)
  {
    var n, d := |ops|, After(verify, ops, |ops|).live;
    TablesAgreeWithHistory(verify, ops, n, token, now);
    var i: nat :| Standing(verify, ops, n, i, token)
                  && d.sessions[token].username == ops[i].name
                  && d.sessions[token].expiresAt == ops[i].now + DAY;
    assert Good(verify, ops, token, now, i);
  }

  // ----- Users agree with history -----

  datatype Field = Hash | Role | Created | Updated

  /** A field's value: text for the hash and the role, a time for the others. */
  function Get(u: User, f: Field): (string, int) {
    match f
    case Hash => (u.hash, 0)
    case Role => (u.role, 0)
    case Created => ("", u.createdAt)
    case Updated => ("", u.updatedAt)
  }

  /** What a successful operation writes into a field of the user it names. */
  function Writes(op: Op, f: Field): Option<(string, int)> {
    match (op, f)
    case (OpCreateUser(_, _, Some(hash), _, _), Hash) => Some((hash, 0))
    case (OpCreateUser(_, _, _, role, _), Role) => Some((role, 0))
    case (OpCreateUser(_, _, _, _, now), Created) => Some(("", now))
    case (OpCreateUser(_, _, _, _, now), Updated) => Some(("", now))
    case (OpUpdatePassword(_, Some(hash), _), Hash) => Some((hash, 0))
    case (OpUpdatePassword(_, _, now), Updated) => Some(("", now))
    case (OpUpdateRole(_, role, _), Role) => Some((role, 0))
    case (OpUpdateRole(_, _, now), Updated) => Some(("", now))
    case _ => None
  }

  predicate Concerns(op: Op, name: string) {
    match op
    case OpCreateUser(n, _, _, _, _) => n == name
    case OpUpdatePassword(n, _, _) => n == name
    case OpUpdateRole(n, _, _) => n == name
    case OpDeleteUser(n) => n == name
    case _ => false
  }

  /** Step `i` wrote the field of that user. */
  ghost predicate Wrote(verify: Verify, ops: seq<Op>, i: nat, name: string, f: Field)
    requires i < |ops|
  {
    Succeeded(verify, ops, i) && Concerns(ops[i], name) && Writes(ops[i], f).Some?
  }

  ghost predicate Deleted(verify: Verify, ops: seq<Op>, i: nat, name: string)
    requires i < |ops|
  {
    Succeeded(verify, ops, i) && ops[i] == OpDeleteUser(name)
  }

  /** The last of the first `n` steps that wrote the field, unless the user was deleted since. */
  ghost function LastWrite(verify: Verify, ops: seq<Op>, n: nat, name: string, f: Field)
    : (w: Option<nat>)
    requires n <= |ops|
    ensures w.Some? ==> w.value < n && Wrote(verify, ops, w.value, name, f)
  {
    if n == 0 || Deleted(verify, ops, n - 1, name) then None
    else if Wrote(verify, ops, n - 1, name, f) then Some(n - 1)
    else LastWrite(verify, ops, n - 1, name, f)
  }

  /** What a step does to one field of one user. */
  lemma FieldStep(verify: Verify, s: State, op: Op, name: string, f: Field)
    requires Consistent(s)
    ensures var users, users' := s.live.users, Step(verify, s, op).live.users;
            if !op.OpRestart? && Succeeds(verify, s.live, op) && Concerns(op, name) then
              if op.OpDeleteUser? then name !in users'
              else name in users'
                   && (Writes(op, f).Some? ==> Get(users'[name], f) == Writes(op, f).value)
                   && (Writes(op, f).None? ==>
                         name in users && Get(users'[name], f) == Get(users[name], f))
            else (name in users' <==> name in users)
                 && (name in users ==> users'[name] == users[name])
  {
  }

  lemma FieldAfter(verify: Verify, ops: seq<Op>, n: nat, name: string, f: Field)
    requires n < |ops|
    ensures var users := After(verify, ops, n).live.users;
            var users' := After(verify, ops, n + 1).live.users;
            if Deleted(verify, ops, n, name) then name !in users'
            else if Wrote(verify, ops, n, name, f) then
              name in users' && Writes(ops[n], f) == Some(Get(users'[name], f))
            else (name in users' <==> name in users)
                 && (name in users ==> Get(users'[name], f) == Get(users[name], f))
  {
    RunKeepsConsistent(verify, ops, n);
    FieldStep(verify, After(verify, ops, n), ops[n], name, f);
  }

  /** Over every run, restarts included, each field of a user is what the last operation that
      concerns it wrote, and a user is there exactly when it was created and not deleted since. */
  lemma {:induction false} UsersAgreeWithHistory(
    verify: Verify, ops: seq<Op>, n: nat, name: string, f: Field)
    requires n <= |ops|
    ensures var users, w := After(verify, ops, n).live.users, LastWrite(verify, ops, n, name, f);
            (name in users <==> w.Some?)
            && (name in users ==> Writes(ops[w.value], f) == Some(Get(users[name], f)))
  {
    if n > 0 {
      UsersAgreeWithHistory(verify, ops, n - 1, name, f);
      FieldAfter(verify, ops, n - 1, name, f);
    }
  }

  /** So a login succeeds exactly when the password fits the hash that was set last: after a change
      of password the new one counts, and the old one no longer. */
  lemma LoginIff(verify: Verify, ops: seq<Op>, n: nat)
    requires n < |ops| && ops[n].OpAuthenticate?
    ensures var w := LastWrite(verify, ops, n, ops[n].name, Hash);
            Succeeded(verify, ops, n)
            <==> w.Some? && verify(Writes(ops[w.value], Hash).value.0, ops[n].password)
  {
    UsersAgreeWithHistory(verify, ops, n, ops[n].name, Hash);
  }
}
