/** Login tokens in the expiring cache, login logs in the database and the online flag of the users. Users are
    held by their names, which are unique. */
module LoginState {
  import opened Wrappers

  const TERMINAL := "terminal"
  const HOUR := 3600
  const REMEMBER := 24 * 14 * HOUR
  const NOT_REMEMBER := 2 * HOUR

  datatype Log = Log(username: string, agent: string, success: bool, remember: bool, loggedOut: bool)

  /** What the token cache holds for a token, with the second after which it has expired. */
  datatype Authorization = Authorization(username: string, remember: bool, expiry: nat)

  /** users maps a name to the online flag. */
  datatype State = State(users: map<string, bool>, logs: map<string, Log>, tokens: map<string, Authorization>)

  predicate Alive(log: Log) {
    log.success && !log.loggedOut
  }

  predicate HasAlive(logs: map<string, Log>, username: string) {
    exists id :: id in logs && Alive(logs[id]) && logs[id].username == username
  }

  function AliveIds(logs: map<string, Log>, username: string): set<string> {
    set id | id in logs && Alive(logs[id]) && logs[id].username == username
  }

  function Expiry(now: nat, remember: bool): nat {
    now + if remember then REMEMBER else NOT_REMEMBER
  }

  /** Tokens of this kind belong to no login. */
  predicate Forever(token: string) {
    "forever" <= token
  }

  // ---------- the operations on states ----------

  function MarkOut(logs: map<string, Log>, ids: set<string>): map<string, Log> {
    map id | id in logs :: if id in ids then logs[id].(loggedOut := true) else logs[id]
  }

  /** Users whose log was just marked and who have no alive log left go offline. */
  function Offline(users: map<string, bool>, logs: map<string, Log>, marked: set<string>): map<string, bool> {
    map u | u in users :: users[u] && !(Marked(logs, marked, u) && !HasAlive(logs, u))
  }

  /** One of these logs is the user's. */
  predicate Marked(logs: map<string, Log>, marked: set<string>, u: string) {
    exists id :: id in marked && id in logs && logs[id].username == u
  }

  function LogOut(s: State, ids: set<string>): State {
    var logs := MarkOut(s.logs, ids);
    s.(logs := logs, users := Offline(s.users, logs, ids))
  }

  /** The logins that end when the cache drops these tokens. */
  function Dropped(s: State, tokens: set<string>): set<string> {
    set t | t in tokens && t in s.tokens && !Forever(t)
  }

  /** The cache drops tokens: for those it held the login ends. */
  function Evict(s: State, tokens: set<string>): State {
    LogOut(s.(tokens := s.tokens - tokens), Dropped(s, tokens))
  }

  function Login(s: State, token: string, username: string, agent: string, remember: bool, now: nat): State {
    if username in s.users
    then State(s.users[username := true],
               s.logs[token := Log(username, agent, true, remember, false)],
               s.tokens[token := Authorization(username, remember, Expiry(now, remember))])
    else s
  }

  function AddLog(s: State, id: string, log: Log): State {
    s.(logs := s.logs[id := log])
  }

  function Refresh(s: State, token: string, now: nat): State {
    if token in s.tokens && now <= s.tokens[token].expiry
    then s.(tokens := s.tokens[token := s.tokens[token].(expiry := Expiry(now, s.tokens[token].remember))])
    else s
  }

  function Sweep(s: State, now: nat): State {
    Evict(s, set t | t in s.tokens && s.tokens[t].expiry < now)
  }

  function DeleteOne(s: State, token: string): State {
    var s' := Evict(LogOut(s, {token}), {token});
    s'.(logs := s'.logs - {token})
  }

  /** Deleting logs ends at the first token without a log. */
  function DeleteLogs(s: State, tokens: seq<string>): State
    decreases |tokens|
  {
    if tokens == [] || tokens[0] !in s.logs then s else DeleteLogs(DeleteOne(s, tokens[0]), tokens[1..])
  }

  /** The clean-up task selects among the logs that are not alive. */
  function Purge(s: State, dead: set<string>): State {
    s.(logs := s.logs - set id | id in dead && id in s.logs && !Alive(s.logs[id]))
  }

  function LogoutUser(s: State, username: string): State {
    if username in s.users then Evict(s, AliveIds(s.logs, username)) else s
  }

  function DeleteUser(s: State, username: string): State {
    if username in s.users
    then Evict(s.(users := s.users - {username}), AliveIds(s.logs, username))
    else s
  }

  /** A new user has the online flag of the request. */
  function Create(s: State, username: string, online: bool): State {
    if username in s.users then s else s.(users := s.users[username := online])
  }

  /** An update that carries no name or no flag keeps the old one; a taken name is refused. */
  function Change(s: State, username: string, name: string, online: Option<bool>): State {
    if username !in s.users || (name != username && name in s.users) then s
    else
      var flag := if online.Some? then online.value else s.users[username];
      s.(users := (s.users - {username})[NewName(username, name) := flag])
  }

  function NewName(username: string, name: string): string {
    if name == "" then username else name
  }

  /** An import creates the users whose names are free, with the flags in the file. */
  function ImportAll(s: State, users: seq<(string, bool)>): State {
    if users == [] then s
    else Create(ImportAll(s, users[..|users| - 1]), users[|users| - 1].0, users[|users| - 1].1)
  }

  /** Switching LDAP off deletes the users of that source and nothing else. */
  function Drop(s: State, names: set<string>): State {
    s.(users := s.users - names)
  }

  function FixOnline(s: State): State {
    s.(users := map u | u in s.users :: s.users[u] && HasAlive(s.logs, u))
  }

  function Orphans(s: State): set<string> {
    set id | id in s.logs && Alive(s.logs[id]) && s.logs[id].username !in s.users
  }

  /** The tokens of these logs, as far as they are alive and their users exist. */
  function Renewed(s: State, ids: set<string>, now: nat): map<string, Authorization> {
    map id | id in ids && id in s.logs && Alive(s.logs[id]) && s.logs[id].username in s.users ::
      Authorization(s.logs[id].username, s.logs[id].remember, Expiry(now, s.logs[id].remember))
  }

  function Reload(s: State, now: nat): State {
    s.(logs := s.logs - Orphans(s), tokens := s.tokens + Renewed(s, s.logs.Keys, now))
  }

  /** A new process: the cache starts empty and nothing is evicted. */
  function Restart(s: State, now: nat): State {
    Reload(FixOnline(s.(tokens := map[])), now)
  }

  // ---------- the service ----------

  class UserService {
    var users: map<string, bool>
    var logs: map<string, Log>
    var tokens: map<string, Authorization>

    ghost function Now(): State
      reads this
    {
      State(users, logs, tokens)
    }

    constructor (users: map<string, bool>, logs: map<string, Log>)
      ensures Now() == State(users, logs, map[])
    {
      this.users, this.logs, this.tokens := users, logs, map[];
    }

    method FindAliveLoginLogsByUsername(username: string) returns (ids: set<string>)
      ensures ids == AliveIds(logs, username)
    {
      ids := AliveIds(logs, username);
    }

    method UpdateOnlineByUsername(username: string, online: bool)
      modifies this`users
      ensures users == if username in old(users) then old(users)[username := online] else old(users)
    {
      if username in users {
        users := users[username := online];
      }
    }

    /** Fails when the token has no log. */
    method LogoutByToken(token: string) returns (ok: bool)
      modifies this`users, this`logs
      ensures ok <==> token in old(logs)
      ensures Now() == LogOut(old(Now()), {token})
      ensures !ok ==> Now() == old(Now())
    {
      if token !in logs {
        LogOutAbsent(Now(), token);
        return false;
      }
      var loginLog := logs[token];
      ghost var before := Now();
      logs := logs[token := loginLog.(loggedOut := true)];
      assert logs == MarkOut(before.logs, {token});
      var loginLogs := FindAliveLoginLogsByUsername(loginLog.username);
      if |loginLogs| == 0 {
        UpdateOnlineByUsername(loginLog.username, false);
      }
      LogOutOne(before, token, loginLogs);
      return true;
    }

    /** What the cache calls for a token that it dropped. */
    method OnEvicted(token: string)
      modifies this`users, this`logs
      ensures Now() == LogOut(old(Now()), if Forever(token) then {} else {token})
    {
      if "forever" <= token {
        LogOutNone(Now());
      } else {
        var done := LogoutByToken(token);
      }
    }

    /** The cache's Delete, which calls back for a token that it held. */
    method Logout(token: string)
      modifies this
      ensures Now() == Evict(old(Now()), {token})
    {
      ghost var before := Now();
      if token in tokens {
        tokens := tokens - {token};
        OnEvicted(token);
        assert Dropped(before, {token})
            == if Forever(token) then {} else {token};
      } else {
        EvictAbsent(before, token);
      }
    }

    /** Dropping tokens one by one, in any order. */
    method LogoutAll(toDrop: set<string>)
      modifies this
      ensures Now() == Evict(old(Now()), toDrop)
    {
      ghost var before := Now();
      var todo := toDrop;
      EvictNone(before);
      while todo != {}
        invariant todo <= toDrop
        invariant Now() == Evict(before, toDrop - todo)
        decreases |todo|
      {
        var token :| token in todo;
        Logout(token);
        EvictNext(before, toDrop, todo, token);
        todo := todo - {token};
      }
      assert toDrop - todo == toDrop;
    }

    method SaveLoginLog(id: string, username: string, agent: string, success: bool, remember: bool)
      modifies this`logs
      ensures Now() == AddLog(old(Now()), id, Log(username, agent, success, remember, false))
    {
      logs := logs[id := Log(username, agent, success, remember, false)];
    }

    /** The token and the online flag. */
    method LoginSuccess(token: string, username: string, remember: bool, now: nat)
      requires username in users
      modifies this`users, this`tokens
      ensures users == old(users)[username := true]
      ensures tokens == old(tokens)[token := Authorization(username, remember, Expiry(now, remember))]
    {
      if remember {
        tokens := tokens[token := Authorization(username, remember, now + REMEMBER)];
      } else {
        tokens := tokens[token := Authorization(username, remember, now + NOT_REMEMBER)];
      }
      users := users[username := true];
    }

    /** A completed web login. */
    method LoginEndpoint(token: string, username: string, agent: string, remember: bool, now: nat)
      returns (ok: bool)
      modifies this
      ensures ok <==> username in old(users)
      ensures Now() == Login(old(Now()), token, username, agent, remember, now)
    {
      if username !in users {
        return false;
      }
      LoginSuccess(token, username, remember, now);
      SaveLoginLog(token, username, agent, true, remember);
      return true;
    }

    /** Every request with a token renews its lifetime; a token that has expired is not found, whether or not
        the janitor has been by. */
    method Auth(token: string, now: nat) returns (found: bool)
      modifies this`tokens
      ensures found <==> token in old(tokens) && now <= old(tokens)[token].expiry
      ensures Now() == Refresh(old(Now()), token, now)
    {
      if token !in tokens || now > tokens[token].expiry {
        return false;
      }
      var authorization := tokens[token];
      if authorization.remember {
        tokens := tokens[token := authorization.(expiry := now + REMEMBER)];
      } else {
        tokens := tokens[token := authorization.(expiry := now + NOT_REMEMBER)];
      }
      return true;
    }

    /** The clean-up task; outTime names the logs that are past the limit. */
    method DeleteOutTimeLoginLog(outTime: set<string>)
      modifies this`logs
      ensures Now() == Purge(old(Now()), outTime)
    {
      ghost var was := logs;
      var found := set id | id in outTime && id in logs && !Alive(logs[id]);
      var todo := found;
      while todo != {}
        invariant todo <= found && logs == was - (found - todo)
        decreases |todo|
      {
        var id :| id in todo;
        logs := logs - {id};
        todo := todo - {id};
      }
      assert found - todo == found;
    }

    /** The cache's janitor. */
    method DeleteExpired(now: nat)
      modifies this
      ensures Now() == Sweep(old(Now()), now)
    {
      var expired := set t | t in tokens && tokens[t].expiry < now;
      LogoutAll(expired);
    }

    method DeleteLoginLogs(ids: seq<string>) returns (ok: bool)
      modifies this
      ensures Now() == DeleteLogs(old(Now()), ids)
      ensures ok <==> Distinct(ids) && forall id :: id in ids ==> id in old(logs)
    {
      ghost var before := Now();
      AllLoggedExactly(before, ids);
      for i := 0 to |ids|
        invariant DeleteLogs(before, ids) == DeleteLogs(Now(), ids[i..])
        invariant AllLogged(before, ids) <==> AllLogged(Now(), ids[i..])
      {
        assert ids[i..][1..] == ids[i + 1..] && ids[i..][0] == ids[i];
        var done := DeleteLoginLog(ids[i]);
        if !done {
          return false;
        }
      }
      return true;
    }

    method DeleteLoginLog(token: string) returns (ok: bool)
      modifies this
      ensures ok <==> token in old(logs)
      ensures Now() == if ok then DeleteOne(old(Now()), token) else old(Now())
    {
      ok := LogoutByToken(token);
      if !ok {
        return;
      }
      Logout(token);
      logs := logs - {token};
    }

    method LogoutById(username: string) returns (ok: bool)
      modifies this
      ensures ok <==> username in old(users)
      ensures Now() == LogoutUser(old(Now()), username)
    {
      if username !in users {
        return false;
      }
      var loginLogs := FindAliveLoginLogsByUsername(username);
      LogoutAll(loginLogs);
      return true;
    }

    /** The tokens are looked up before the user is deleted and dropped afterwards. */
    method DeleteUserById(username: string) returns (ok: bool)
      modifies this
      ensures ok <==> username in old(users)
      ensures Now() == DeleteUser(old(Now()), username)
    {
      if username !in users {
        return false;
      }
      var loginTokens := FindAliveLoginLogsByUsername(username);
      users := users - {username};
      LogoutAll(loginTokens);
      return true;
    }

    method CreateUser(username: string, online: Option<bool>) returns (ok: bool)
      modifies this`users
      ensures ok <==> username !in old(users)
      ensures Now() == Create(old(Now()), username, online == Some(true))
    {
      if username in users {
        return false;
      }
      users := users[username := online == Some(true)];
      return true;
    }

    /** The request's body names the user of its path. */
    method UpdateUser(username: string, name: string, online: Option<bool>) returns (ok: bool)
      modifies this`users
      ensures ok <==> username in old(users) && (name == username || name !in old(users))
      ensures Now() == Change(old(Now()), username, name, online)
    {
      if username !in users {
        return false;
      }
      if username != name {
        if name in users {
          return false;
        }
      }
      var flag := users[username];
      if online.Some? {
        flag := online.value;
      }
      users := users - {username};
      users := users[(if name == "" then username else name) := flag];
      return true;
    }

    method ImportUsers(items: seq<(string, bool)>)
      modifies this`users
      ensures Now() == ImportAll(old(Now()), items)
    {
      ghost var before := Now();
      for i := 0 to |items|
        invariant Now() == ImportAll(before, items[..i])
      {
        assert items[..i + 1][..i] == items[..i];
        if items[i].0 in users {
          continue;
        }
        users := users[items[i].0 := items[i].1];
      }
      assert items[..|items|] == items;
    }

    method DeleteAllLdapUser(names: set<string>)
      modifies this`users
      ensures Now() == Drop(old(Now()), names)
    {
      users := users - names;
    }

    method FixUserOnlineState()
      modifies this`users
      ensures Now() == FixOnline(old(Now()))
    {
      ghost var was := users;
      var onlineUsers := set u | u in users && users[u];
      var todo := onlineUsers;
      while todo != {}
        invariant todo <= onlineUsers
        invariant users.Keys == was.Keys
        invariant forall u :: u in users ==> users[u] == (was[u] && (u in todo || HasAlive(logs, u)))
        decreases |todo|
      {
        var u :| u in todo;
        var found := FindAliveLoginLogsByUsername(u);
        NoneFound(logs, u, found);
        if |found| == 0 {
          UpdateOnlineByUsername(u, false);
        }
        todo := todo - {u};
      }
    }

    method ReloadOne(token: string, now: nat)
      requires token in logs
      modifies this`logs, this`tokens
      ensures Now() == ReloadStep(old(Now()), token, now)
    {
      var loginLog := logs[token];
      if loginLog.username !in users {
        logs := logs - {token};
      } else if loginLog.remember {
        tokens := tokens[token := Authorization(loginLog.username, true, now + REMEMBER)];
      } else {
        tokens := tokens[token := Authorization(loginLog.username, false, now + NOT_REMEMBER)];
      }
    }

    method ReloadToken(now: nat)
      modifies this`logs, this`tokens
      ensures Now() == Reload(old(Now()), now)
    {
      ghost var was := Now();
      var alive := set id | id in logs && Alive(logs[id]);
      var todo := alive;
      ReloadedAll(was, now);
      while todo != {}
        invariant todo <= alive
        invariant Now() == ReloadedFor(was, alive - todo, now)
        decreases |todo|
      {
        var token :| token in todo;
        ghost var done := alive - todo;
        RenewOne(was, done, token, now);
        ReloadOne(token, now);
        todo := todo - {token};
        assert alive - todo == done + {token};
      }
      assert alive - todo == alive;
    }
  }

  /** Every token in the list has a log when its turn comes. */
  predicate AllLogged(s: State, ids: seq<string>)
    decreases |ids|
  {
    ids == [] || (ids[0] in s.logs && AllLogged(DeleteOne(s, ids[0]), ids[1..]))
  }

  lemma {:induction false} AllLoggedExactly(s: State, ids: seq<string>)
    ensures AllLogged(s, ids) <==> Distinct(ids) && forall id :: id in ids ==> id in s.logs
    decreases |ids|
  {
    if ids == [] {
    } else {
      DeleteOneKeys(s, ids[0]);
      AllLoggedExactly(DeleteOne(s, ids[0]), ids[1..]);
      DistinctTail(ids);
    }
  }

  function Ids(ids: seq<string>): set<string> {
    set id | id in ids
  }

  lemma DistinctTail(ids: seq<string>)
    requires ids != []
    ensures Distinct(ids) <==> Distinct(ids[1..]) && ids[0] !in ids[1..]
    ensures forall id :: id in ids <==> id == ids[0] || id in ids[1..]
    ensures Ids(ids) == {ids[0]} + Ids(ids[1..])
  {}

  lemma DeleteOneKeys(s: State, token: string)
    ensures DeleteOne(s, token).logs.Keys == s.logs.Keys - {token}
  {}

  predicate Distinct(ids: seq<string>) {
    forall i, j :: 0 <= i < j < |ids| ==> ids[i] != ids[j]
  }

  /** The state when the reload has come past these logs. */
  ghost function ReloadedFor(was: State, done: set<string>, now: nat): State {
    was.(logs := was.logs - (Orphans(was) * done), tokens := was.tokens + Renewed(was, done, now))
  }

  /** Start-up over the database that the last process left. */
  method StartUp(users: map<string, bool>, logs: map<string, Log>, now: nat) returns (service: UserService)
    ensures fresh(service) && service.Now() == Restart(State(users, logs, map[]), now)
  {
    service := new UserService(users, logs);
    service.FixUserOnlineState();
    service.ReloadToken(now);
  }

  function ReloadStep(s: State, token: string, now: nat): State
    requires token in s.logs
  {
    var log := s.logs[token];
    if log.username !in s.users then s.(logs := s.logs - {token})
    else s.(tokens := s.tokens[token := Authorization(log.username, log.remember, Expiry(now, log.remember))])
  }

  lemma RenewOne(was: State, done: set<string>, id: string, now: nat)
    requires id in was.logs && Alive(was.logs[id]) && id !in done
    ensures id in ReloadedFor(was, done, now).logs
    ensures ReloadedFor(was, done + {id}, now) == ReloadStep(ReloadedFor(was, done, now), id, now)
  {
    var log := was.logs[id];
    var a, b := Renewed(was, done, now), Renewed(was, done + {id}, now);
    if log.username in was.users {
      assert b == a[id := Authorization(log.username, log.remember, Expiry(now, log.remember))];
      assert was.tokens + b == (was.tokens + a)[id := b[id]];
      assert Orphans(was) * (done + {id}) == Orphans(was) * done;
    } else {
      assert b == a;
      assert Orphans(was) * (done + {id}) == Orphans(was) * done + {id};
      assert was.logs - (Orphans(was) * done + {id}) == was.logs - (Orphans(was) * done) - {id};
    }
  }

  lemma ReloadedAll(was: State, now: nat)
    ensures ReloadedFor(was, {}, now) == was
    ensures ReloadedFor(was, (set id | id in was.logs && Alive(was.logs[id])), now) == Reload(was, now)
  {}

  lemma NoneFound(logs: map<string, Log>, username: string, found: set<string>)
    requires found == AliveIds(logs, username)
    ensures |found| == 0 <==> !HasAlive(logs, username)
  {
    if HasAlive(logs, username) {
      var id :| id in logs && Alive(logs[id]) && logs[id].username == username;
      assert id in found;
    } else {
      assert found == {};
    }
  }

  lemma LogOutOne(s: State, token: string, found: set<string>)
    requires token in s.logs
    requires found == AliveIds(MarkOut(s.logs, {token}), s.logs[token].username)
    ensures LogOut(s, {token}).users ==
            if |found| == 0 && s.logs[token].username in s.users
            then s.users[s.logs[token].username := false] else s.users
  {}

  lemma LogOutAbsent(s: State, token: string)
    requires token !in s.logs
    ensures LogOut(s, {token}) == s
  {}

  lemma LogOutNone(s: State)
    ensures LogOut(s, {}) == s
  {}

  lemma EvictAbsent(s: State, token: string)
    requires token !in s.tokens
    ensures Evict(s, {token}) == s
  {}

  lemma EvictNone(s: State)
    ensures Evict(s, {}) == s
  {}

  /** Marking logs in two goes is marking them at once: whoever comes last finds the alive logs that are left. */
  lemma LogOutTwice(s: State, a: set<string>, b: set<string>)
    ensures LogOut(LogOut(s, a), b) == LogOut(s, a + b)
  {
    var once, twice := LogOut(s, a), LogOut(LogOut(s, a), b);
    var both := LogOut(s, a + b);
    assert twice.logs == both.logs;
    forall u | u in s.users ensures twice.users[u] == both.users[u] {
      LogOutTwiceUser(s.logs, a, b, u);
    }
    assert twice.users == both.users;
  }

  lemma LogOutTwiceUser(logs: map<string, Log>, a: set<string>, b: set<string>, u: string)
    ensures var once, both := MarkOut(logs, a), MarkOut(logs, a + b);
            (Marked(once, a, u) && !HasAlive(once, u)) || (Marked(both, b, u) && !HasAlive(both, u))
            <==> Marked(both, a + b, u) && !HasAlive(both, u)
  {
    var once, both := MarkOut(logs, a), MarkOut(logs, a + b);
    MarkedEither(logs, a, b, u);
    FewerAlive(logs, a, b, u);
    if HasAlive(once, u) && !HasAlive(both, u) {
      var id :| id in once && Alive(once[id]) && once[id].username == u;
      assert id in both && both[id].username == u && !Alive(both[id]) && id in b;
    }
  }

  lemma MarkedEither(logs: map<string, Log>, a: set<string>, b: set<string>, u: string)
    ensures var once, both := MarkOut(logs, a), MarkOut(logs, a + b);
            Marked(both, a + b, u) <==> Marked(once, a, u) || Marked(both, b, u)
  {
    var once, both := MarkOut(logs, a), MarkOut(logs, a + b);
    forall id | id in logs ensures once[id].username == both[id].username {
    }
    if Marked(both, a + b, u) {
      var id :| id in a + b && id in both && both[id].username == u;
      assert id in once && once[id].username == u;
    }
    if Marked(once, a, u) {
      var id :| id in a && id in once && once[id].username == u;
      assert id in a + b && id in both && both[id].username == u;
    }
  }

  lemma FewerAlive(logs: map<string, Log>, a: set<string>, b: set<string>, u: string)
    ensures HasAlive(MarkOut(logs, a + b), u) ==> HasAlive(MarkOut(logs, a), u)
  {
    var once, both := MarkOut(logs, a), MarkOut(logs, a + b);
    if HasAlive(both, u) {
      var id :| id in both && Alive(both[id]) && both[id].username == u;
      assert id in once && Alive(once[id]) && once[id].username == u;
    }
  }

  lemma EvictAgain(s: State, done: set<string>, token: string)
    requires token !in done
    ensures Evict(Evict(s, done), {token}) == Evict(s, done + {token})
  {
    var s' := Evict(s, done);
    var rest := s.tokens - (done + {token});
    var a, b := Dropped(s, done), Dropped(s', {token});
    assert s'.tokens == s.tokens - done && s.tokens - done - {token} == rest;
    DroppedAgain(s, s', done, token);
    LogOutTwice(s.(tokens := rest), a, b);
    assert s' == LogOut(s.(tokens := s.tokens - done), a);
    assert s'.(tokens := rest) == LogOut(s.(tokens := rest), a);
  }

  lemma EvictNext(s: State, tokens: set<string>, todo: set<string>, token: string)
    requires todo <= tokens && token in todo
    ensures Evict(Evict(s, tokens - todo), {token}) == Evict(s, tokens - (todo - {token}))
  {
    EvictAgain(s, tokens - todo, token);
    assert tokens - todo + {token} == tokens - (todo - {token});
  }

  lemma DroppedAgain(s: State, s': State, done: set<string>, token: string)
    requires token !in done && s'.tokens == s.tokens - done
    ensures Dropped(s, done) + Dropped(s', {token}) == Dropped(s, done + {token})
  {}

  // ---------- what every run keeps ----------

  /** A cached token has its own alive log, which says the same of the login, and its user exists. */
  ghost predicate TokensLogged(s: State) {
    forall t :: t in s.tokens ==>
      && !Forever(t)
      && t in s.logs && Alive(s.logs[t])
      && s.logs[t].username == s.tokens[t].username && s.logs[t].remember == s.tokens[t].remember
      && s.tokens[t].username in s.users
  }

  /** An online user has an alive log. */
  ghost predicate OnlineLogged(s: State) {
    forall u :: u in s.users && s.users[u] ==> HasAlive(s.logs, u)
  }

  /** The alive log of a login that did not come from the terminal has its token, and its user is online. */
  ghost predicate LoginsCached(s: State) {
    forall id :: id in s.logs && Alive(s.logs[id]) && s.logs[id].agent != TERMINAL ==>
      id in s.tokens && s.logs[id].username in s.users && s.users[s.logs[id].username]
  }

  /** Alive logs have ids that can be login tokens. */
  ghost predicate Named(s: State) {
    forall id :: id in s.logs && Alive(s.logs[id]) ==> !Forever(id)
  }

  ghost predicate Coherent(s: State) {
    TokensLogged(s) && OnlineLogged(s) && LoginsCached(s) && Named(s)
  }

  datatype Event =
    | WebLogin(token: string, username: string, agent: string, remember: bool, now: nat)
    | TerminalLogin(id: string, username: string)
    | FailedLogin(id: string, username: string, agent: string, remember: bool)
    | UserLogout(token: string)
    | Use(token: string, now: nat)
    | Janitor(now: nat)
    | RemoveLogs(ids: seq<string>)
    | PurgeDead(dead: set<string>)
    | DisableUser(username: string)
    | RemoveUser(username: string)
    | NewUser(username: string, online: bool)
    | ChangeUser(username: string, name: string, flag: Option<bool>)
    | ImportUsers(items: seq<(string, bool)>)
    | DropUsers(names: set<string>)
    | Reboot(now: nat)

  function Step(s: State, e: Event): State {
    match e
    case WebLogin(token, username, agent, remember, now) => Login(s, token, username, agent, remember, now)
    case TerminalLogin(id, username) => AddLog(s, id, Log(username, TERMINAL, true, false, false))
    case FailedLogin(id, username, agent, remember) => AddLog(s, id, Log(username, agent, false, remember, false))
    case UserLogout(token) => Evict(s, {token})
    case Use(token, now) => Refresh(s, token, now)
    case Janitor(now) => Sweep(s, now)
    case RemoveLogs(ids) => DeleteLogs(s, ids)
    case PurgeDead(dead) => Purge(s, dead)
    case DisableUser(username) => LogoutUser(s, username)
    case RemoveUser(username) => DeleteUser(s, username)
    case NewUser(username, online) => Create(s, username, online)
    case ChangeUser(username, name, flag) => Change(s, username, name, flag)
    case ImportUsers(items) => ImportAll(s, items)
    case DropUsers(names) => Drop(s, names)
    case Reboot(now) => Restart(s, now)
  }

  /** New ids are fresh, and those of login tokens do not have the prefix of the other kind. */
  predicate Allowed(s: State, e: Event) {
    match e
    case WebLogin(token, _, _, _, _) => token !in s.logs && !Forever(token)
    case TerminalLogin(id, _) => id !in s.logs && !Forever(id)
    case FailedLogin(id, _, _, _) => id !in s.logs
    case _ => true
  }

  function Run(s: State, es: seq<Event>): State
    decreases |es|
  {
    if es == [] then s else Run(Step(s, es[0]), es[1..])
  }

  predicate AllAllowed(s: State, es: seq<Event>)
    decreases |es|
  {
    es == [] || (Allowed(s, es[0]) && AllAllowed(Step(s, es[0]), es[1..]))
  }

  /** Ending logins whose tokens have left the cache makes the state coherent. */
  lemma LogOutCoherent(s: State, ids: set<string>)
    requires TokensLogged(s) && OnlineLogged(s) && Named(s)
    requires forall id :: id in ids ==> id !in s.tokens
    requires forall id :: id in s.logs && Alive(s.logs[id]) && s.logs[id].agent != TERMINAL && id !in ids ==>
               id in s.tokens && s.logs[id].username in s.users && s.users[s.logs[id].username]
    ensures Coherent(LogOut(s, ids))
  {}

  lemma EvictCoherent(s: State, tokens: set<string>)
    requires Coherent(s)
    ensures Coherent(Evict(s, tokens))
  {
    LogOutCoherent(s.(tokens := s.tokens - tokens), Dropped(s, tokens));
  }

  lemma PurgeCoherent(s: State, dead: set<string>)
    requires Coherent(s)
    ensures Coherent(Purge(s, dead))
  {
    var t := Purge(s, dead);
    forall u | u in t.users && t.users[u] ensures HasAlive(t.logs, u) {
      var id :| id in s.logs && Alive(s.logs[id]) && s.logs[id].username == u;
      assert id in t.logs && Alive(t.logs[id]);
    }
  }

  /** Ending the login twice on the way to deleting its log is ending it once. */
  lemma DeleteOneMeans(s: State, token: string)
    requires TokensLogged(s)
    ensures var s' := LogOut(s.(tokens := s.tokens - {token}), {token});
            DeleteOne(s, token) == s'.(logs := s'.logs - {token})
  {
    var once := LogOut(s, {token});
    var dropped := Dropped(once, {token});
    LogOutTwice(s.(tokens := s.tokens - {token}), {token}, dropped);
    assert {token} + dropped == {token};
    assert once.(tokens := once.tokens - {token}) == LogOut(s.(tokens := s.tokens - {token}), {token});
  }

  /** Who was online is so still exactly while an alive log is left. */
  ghost predicate OnlineWhileAlive(s: State, t: State) {
    t.users.Keys == s.users.Keys && forall u :: u in s.users ==> (t.users[u] <==> s.users[u] && HasAlive(t.logs, u))
  }

  lemma DeleteOneCoherent(s: State, token: string)
    requires Coherent(s)
    ensures Coherent(DeleteOne(s, token))
    ensures DeleteOne(s, token).logs.Keys == s.logs.Keys - {token}
    ensures DeleteOne(s, token).tokens == s.tokens - {token}
    ensures forall id :: id in DeleteOne(s, token).logs ==> DeleteOne(s, token).logs[id] == s.logs[id]
    ensures OnlineWhileAlive(s, DeleteOne(s, token))
  {
    DeleteOneMeans(s, token);
    var s' := LogOut(s.(tokens := s.tokens - {token}), {token});
    LogOutCoherent(s.(tokens := s.tokens - {token}), {token});
    PurgeCoherent(s', {token});
    assert s'.logs - {token} == Purge(s', {token}).logs;
    assert DeleteOne(s, token) == Purge(s', {token});
  }

  lemma {:induction false} DeleteLogsCoherent(s: State, ids: seq<string>)
    requires Coherent(s)
    ensures Coherent(DeleteLogs(s, ids))
    decreases |ids|
  {
    if ids != [] && ids[0] in s.logs {
      DeleteOneCoherent(s, ids[0]);
      DeleteLogsCoherent(DeleteOne(s, ids[0]), ids[1..]);
    }
  }

  lemma MinusTwice<T>(m: map<string, T>, a: set<string>, b: set<string>)
    ensures m - a - b == m - (a + b)
  {}

  /** Deleting distinct logs that exist removes exactly these logs, and their tokens from the cache. */
  lemma {:induction false} DeleteLogsExactly(s: State, ids: seq<string>)
    requires Coherent(s) && Distinct(ids) && forall id :: id in ids ==> id in s.logs
    ensures DeleteLogs(s, ids).logs.Keys == s.logs.Keys - Ids(ids)
    ensures DeleteLogs(s, ids).tokens == s.tokens - Ids(ids)
    ensures forall id :: id in DeleteLogs(s, ids).logs ==> DeleteLogs(s, ids).logs[id] == s.logs[id]
    ensures OnlineWhileAlive(s, DeleteLogs(s, ids))
    decreases |ids|
  {
    if ids == [] {
      assert Ids(ids) == {} && s.tokens - {} == s.tokens;
    } else {
      var t := DeleteOne(s, ids[0]);
      DeleteOneCoherent(s, ids[0]);
      DistinctTail(ids);
      DeleteLogsExactly(t, ids[1..]);
      MinusTwice(s.tokens, {ids[0]}, Ids(ids[1..]));
      assert s.logs.Keys - {ids[0]} - Ids(ids[1..]) == s.logs.Keys - Ids(ids);
    }
  }

  /** Deleting a user ends all of the user's logins: no token of the user stays in the cache. */
  lemma DeleteUserCoherent(s: State, username: string)
    requires Coherent(s)
    ensures Coherent(DeleteUser(s, username))
    ensures var t := DeleteUser(s, username);
            username !in t.users && forall k :: k in t.tokens ==> t.tokens[k].username != username
  {
    if username in s.users {
      var ids := AliveIds(s.logs, username);
      var cut := s.(users := s.users - {username}, tokens := s.tokens - ids);
      LogOutCoherent(cut, Dropped(s, ids));
    }
  }

  /** Disabling a user does, too, and of the user's logins only those of the terminal stay alive. */
  lemma LogoutUserEndsAll(s: State, username: string)
    requires Coherent(s) && username in s.users
    ensures var t := LogoutUser(s, username);
            && (forall k :: k in t.tokens ==> t.tokens[k].username != username)
            && (forall id :: id in t.logs && Alive(t.logs[id]) && t.logs[id].username == username ==>
                  t.logs[id].agent == TERMINAL)
  {}

  lemma RestartCoherent(s: State, now: nat)
    requires OwnedNamed(s) && LoginsOwned(s)
    ensures Coherent(Restart(s, now))
  {}

  /** What reloading needs of the database: an alive log of the web whose user exists has the user online. */
  ghost predicate LoginsOwned(s: State) {
    forall id :: id in s.logs && Alive(s.logs[id]) && s.logs[id].agent != TERMINAL && s.logs[id].username in s.users ==>
      s.users[s.logs[id].username]
  }

  /** After a restart the cached tokens are exactly the alive logs whose user exists, and these are all alive
      logs that are left. */
  lemma ReloadExactly(s: State, now: nat)
    ensures var t := Restart(s, now);
            && (forall id :: id in t.tokens <==>
                  id in s.logs && Alive(s.logs[id]) && s.logs[id].username in s.users)
            && (forall id :: id in t.tokens <==> id in t.logs && Alive(t.logs[id]))
            && (forall id :: id in t.tokens ==>
                  && t.tokens[id].username == s.logs[id].username
                  && t.tokens[id].remember == s.logs[id].remember
                  && t.tokens[id].expiry == now + Lifetime(s.logs[id].remember))
            && (forall id :: id in t.logs <==>
                  id in s.logs && (Alive(s.logs[id]) ==> s.logs[id].username in s.users))
            && (forall id :: id in t.logs ==> t.logs[id] == s.logs[id])
            && t.users.Keys == s.users.Keys
            && (forall u :: u in s.users ==> (t.users[u] <==> s.users[u] && HasAlive(s.logs, u)))
  {}

  /** No login is lost over a restart. */
  lemma RestartKeepsLogins(s: State, now: nat, token: string)
    requires Coherent(s) && token in s.tokens
    ensures var t := Restart(s, now);
            && token in t.tokens
            && t.tokens[token].username == s.tokens[token].username
            && t.tokens[token].remember == s.tokens[token].remember
  {}

  lemma AddLogKeeps(s: State, id: string, log: Log)
    requires OnlineLogged(s) && id !in s.logs
    ensures forall u :: u in s.users && s.users[u] ==> HasAlive(s.logs[id := log], u)
    ensures Alive(log) ==> HasAlive(s.logs[id := log], log.username)
  {
    var after := s.logs[id := log];
    forall u | u in s.users && s.users[u] ensures HasAlive(after, u) {
      var k :| k in s.logs && Alive(s.logs[k]) && s.logs[k].username == u;
      assert k in after && Alive(after[k]);
    }
    if Alive(log) {
      assert id in after && Alive(after[id]);
    }
  }

  lemma AddLogCoherent(s: State, id: string, log: Log)
    requires Coherent(s) && id !in s.logs && (Alive(log) ==> log.agent == TERMINAL && !Forever(id))
    ensures Coherent(AddLog(s, id, log))
  {
    AddLogKeeps(s, id, log);
  }

  lemma LoginCoherent(s: State, token: string, username: string, agent: string, remember: bool, now: nat)
    requires Coherent(s) && token !in s.logs && !Forever(token)
    ensures Coherent(Login(s, token, username, agent, remember, now))
  {
    AddLogKeeps(s, token, Log(username, agent, true, remember, false));
  }

  // ---------- the users table written past the logins ----------

  /** Of this user only logins of the terminal are alive. */
  predicate OnlyTerminal(logs: map<string, Log>, u: string) {
    forall id :: id in logs && Alive(logs[id]) && logs[id].username == u ==> logs[id].agent == TERMINAL
  }

  predicate HasToken(s: State, names: set<string>) {
    exists t :: t in s.tokens && s.tokens[t].username in names
  }

  /** Creating a user keeps coherence exactly when the flag is not raised or the name has an alive log. */
  lemma CreateExactly(s: State, u: string, online: bool)
    requires Coherent(s)
    ensures Coherent(Create(s, u, online)) <==> (u !in s.users && online ==> HasAlive(s.logs, u))
  {
    if u !in s.users {
      NoTokenOf(s, u);
      if online && !HasAlive(s.logs, u) {
        assert Create(s, u, online).users[u];
      }
    }
  }

  /** A name without a user has no token and no alive login of the web. */
  lemma NoTokenOf(s: State, u: string)
    requires Coherent(s) && u !in s.users
    ensures !HasToken(s, {u}) && OnlyTerminal(s.logs, u)
  {}

  /** What an update of an existing user may bring along. */
  predicate MayChange(s: State, u: string, name: string, flag: Option<bool>)
    requires u in s.users
  {
    var online := if flag.Some? then flag.value else s.users[u];
    if NewName(u, name) == u
    then if online then HasAlive(s.logs, u) else OnlyTerminal(s.logs, u)
    else !HasToken(s, {u}) && (online ==> HasAlive(s.logs, name))
  }

  /** Updating a user keeps coherence exactly when a raised flag has an alive log, a lowered one no alive login of
      the web, and a user who is renamed no token. */
  lemma ChangeExactly(s: State, u: string, name: string, flag: Option<bool>)
    requires Coherent(s)
    ensures Coherent(Change(s, u, name, flag)) <==>
            (u in s.users && (name == u || name !in s.users) ==> MayChange(s, u, name, flag))
  {
    if u in s.users && (name == u || name !in s.users) {
      if NewName(u, name) == u {
        SetFlagExactly(s, u, if flag.Some? then flag.value else s.users[u]);
        var online := if flag.Some? then flag.value else s.users[u];
        assert (s.users - {u})[u := online] == s.users[u := online];
      } else {
        RenameExactly(s, u, name, if flag.Some? then flag.value else s.users[u]);
      }
    }
  }

  lemma SetFlagExactly(s: State, u: string, online: bool)
    requires Coherent(s) && u in s.users
    ensures Coherent(s.(users := s.users[u := online])) <==>
            if online then HasAlive(s.logs, u) else OnlyTerminal(s.logs, u)
  {
    var t := s.(users := s.users[u := online]);
    if online {
      if !HasAlive(s.logs, u) {
        assert t.users[u];
      }
    } else if !OnlyTerminal(s.logs, u) {
      var id :| id in s.logs && Alive(s.logs[id]) && s.logs[id].username == u && s.logs[id].agent != TERMINAL;
      assert !t.users[t.logs[id].username];
    }
  }

  lemma RenameExactly(s: State, u: string, name: string, online: bool)
    requires Coherent(s) && u in s.users && name !in s.users
    ensures Coherent(s.(users := (s.users - {u})[name := online])) <==>
            !HasToken(s, {u}) && (online ==> HasAlive(s.logs, name))
  {
    var t := s.(users := (s.users - {u})[name := online]);
    NoTokenOf(s, name);
    if HasToken(s, {u}) {
      var k :| k in s.tokens && s.tokens[k].username == u;
      assert t.tokens[k].username !in t.users;
    } else {
      if online && !HasAlive(s.logs, name) {
        assert t.users[name];
      }
      forall id | id in s.logs && Alive(s.logs[id]) && s.logs[id].agent != TERMINAL
        ensures s.logs[id].username in t.users && t.users[s.logs[id].username]
      {
        assert s.tokens[id].username == s.logs[id].username;
      }
    }
  }

  /** Which users of the file an import creates. */
  predicate Creates(s: State, items: seq<(string, bool)>, i: nat)
    requires i < |items|
  {
    items[i].0 !in s.users && forall j :: 0 <= j < i ==> items[j].0 != items[i].0
  }

  predicate MayImport(s: State, items: seq<(string, bool)>) {
    forall i :: 0 <= i < |items| ==> MayCreate(s, items, i)
  }

  /** Importing users keeps coherence exactly when each created user who was online at the export has an alive log
      here. */
  lemma ImportExactly(s: State, items: seq<(string, bool)>)
    requires Coherent(s)
    ensures Coherent(ImportAll(s, items)) <==> MayImport(s, items)
  {
    ImportedNames(s, items);
    ImportOnline(s, items);
  }

  lemma {:induction false} ImportedNames(s: State, items: seq<(string, bool)>)
    ensures ImportAll(s, items).logs == s.logs && ImportAll(s, items).tokens == s.tokens
    ensures forall u :: u in ImportAll(s, items).users <==>
              u in s.users || exists j :: 0 <= j < |items| && items[j].0 == u
    ensures forall u :: u in s.users ==> ImportAll(s, items).users[u] == s.users[u]
  {
    if items == [] {
    } else {
      var m := |items| - 1;
      ImportedNames(s, items[..m]);
      forall u | u in ImportAll(s, items).users && u !in s.users
        ensures exists j :: 0 <= j < |items| && items[j].0 == u
      {
        if u != items[m].0 {
          var j :| 0 <= j < m && items[..m][j].0 == u;
          assert items[j].0 == u;
        }
      }
      forall j | 0 <= j < |items| ensures items[j].0 in ImportAll(s, items).users {
        if j < m {
          assert items[..m][j].0 == items[j].0;
        }
      }
    }
  }

  lemma {:induction false} ImportOnline(s: State, items: seq<(string, bool)>)
    requires Coherent(s)
    ensures OnlineLogged(ImportAll(s, items)) <==> MayImport(s, items)
  {
    if items == [] {
    } else {
      var m := |items| - 1;
      var before := ImportAll(s, items[..m]);
      ImportOnline(s, items[..m]);
      ImportedNames(s, items[..m]);
      CreateOnline(before, items[m].0, items[m].1);
      MayImportSnoc(s, items);
      LastCreated(s, items, items[..m], before);
    }
  }

  lemma LastCreated(s: State, items: seq<(string, bool)>, front: seq<(string, bool)>, before: State)
    requires items != [] && front == items[..|items| - 1]
    requires forall u :: u in before.users <==> u in s.users || exists j :: 0 <= j < |front| && front[j].0 == u
    ensures Creates(s, items, |items| - 1) <==> items[|items| - 1].0 !in before.users
  {
    var last := items[|items| - 1].0;
    if last in before.users && last !in s.users {
      var j :| 0 <= j < |front| && front[j].0 == last;
      assert items[j].0 == last;
    }
    forall j | 0 <= j < |front| && items[j].0 == last ensures last in before.users {
      assert front[j].0 == last;
    }
  }

  lemma CreateOnline(s: State, u: string, online: bool)
    ensures OnlineLogged(Create(s, u, online)) <==>
            OnlineLogged(s) && (u !in s.users && online ==> HasAlive(s.logs, u))
  {
    var t := Create(s, u, online);
    if u !in s.users {
      assert t.users[u] == online;
      forall v | v in s.users ensures t.users[v] == s.users[v] {
      }
    }
  }

  predicate MayCreate(s: State, items: seq<(string, bool)>, i: nat)
    requires i < |items|
  {
    Creates(s, items, i) && items[i].1 ==> HasAlive(s.logs, items[i].0)
  }

  lemma MayImportSnoc(s: State, items: seq<(string, bool)>)
    requires items != []
    ensures MayImport(s, items) <==> MayImport(s, items[..|items| - 1]) && MayCreate(s, items, |items| - 1)
  {
    var front := items[..|items| - 1];
    forall i | 0 <= i < |front| ensures MayCreate(s, front, i) <==> MayCreate(s, items, i) {
      CreatesFront(s, items, front, i);
    }
    if MayImport(s, front) && MayCreate(s, items, |items| - 1) {
      forall i | 0 <= i < |items| ensures MayCreate(s, items, i) {
        if i < |front| {
          assert MayCreate(s, front, i);
        }
      }
    }
    if MayImport(s, items) {
      forall i | 0 <= i < |front| ensures MayCreate(s, front, i) {
        assert MayCreate(s, items, i);
      }
    }
  }

  lemma CreatesFront(s: State, items: seq<(string, bool)>, front: seq<(string, bool)>, i: nat)
    requires front <= items && i < |front|
    ensures Creates(s, front, i) <==> Creates(s, items, i)
  {
    assert forall j :: 0 <= j <= i ==> front[j] == items[j];
  }

  /** Deleting a source's users keeps coherence exactly when none of them has a token. */
  lemma DropExactly(s: State, names: set<string>)
    requires Coherent(s)
    ensures Coherent(Drop(s, names)) <==> !HasToken(s, names * s.users.Keys)
  {
    var t := Drop(s, names);
    if HasToken(s, names * s.users.Keys) {
      var k :| k in s.tokens && s.tokens[k].username in names;
      assert t.tokens[k].username !in t.users;
    } else {
      forall id | id in s.logs && Alive(s.logs[id]) && s.logs[id].agent != TERMINAL
        ensures s.logs[id].username in t.users
      {
        assert s.tokens[id].username == s.logs[id].username;
      }
    }
  }

  /** Otherwise the deleted users stay logged in: their tokens are accepted and renewed. */
  lemma DroppedStaysLoggedIn(s: State, names: set<string>, token: string, now: nat)
    requires token in s.tokens && s.tokens[token].username in names && now <= s.tokens[token].expiry
    ensures var t := Refresh(Drop(s, names), token, now);
            && s.tokens[token].username !in t.users
            && token in t.tokens && t.tokens[token].expiry == Expiry(now, s.tokens[token].remember)
  {}

  // ---------- what each operation does ----------

  /** The middleware lets a request with this token pass. */
  predicate Accepted(s: State, token: string, now: nat) {
    token in s.tokens && now <= s.tokens[token].expiry
  }

  /** Two weeks or two hours, in seconds. */
  function Lifetime(remember: bool): nat {
    if remember then 1209600 else 7200
  }

  /** A login is accepted for its lifetime, its log tells who logged in and how, and nobody else is touched. */
  lemma LoginExactly(s: State, token: string, username: string, agent: string, remember: bool, now: nat, later: nat)
    requires username in s.users
    ensures var t := Step(s, WebLogin(token, username, agent, remember, now));
            && (Accepted(t, token, later) <==> later <= now + Lifetime(remember))
            && token in t.tokens && t.tokens[token].username == username && t.tokens[token].remember == remember
            && t.tokens - {token} == s.tokens - {token}
            && token in t.logs && Alive(t.logs[token]) && t.logs[token].username == username
            && t.logs[token].agent == agent && t.logs[token].remember == remember
            && t.logs - {token} == s.logs - {token}
            && username in t.users && t.users[username] && t.users - {username} == s.users - {username}
  {}

  /** A request renews the token it comes with, for the same user, and an expired one stays expired. */
  lemma UseExactly(s: State, token: string, now: nat, later: nat)
    ensures var t := Step(s, Use(token, now));
            && t.users == s.users && t.logs == s.logs && t.tokens - {token} == s.tokens - {token}
            && (!Accepted(s, token, now) ==> t == s)
            && (Accepted(s, token, now) ==>
                  && (Accepted(t, token, later) <==> later <= now + Lifetime(s.tokens[token].remember))
                  && t.tokens[token].username == s.tokens[token].username
                  && t.tokens[token].remember == s.tokens[token].remember)
  {}

  /** Every other login leaves a log and nothing else. */
  lemma OtherLoginsExactly(s: State, id: string, username: string, agent: string, remember: bool)
    ensures var t := Step(s, FailedLogin(id, username, agent, remember));
            && t.users == s.users && t.tokens == s.tokens && t.logs - {id} == s.logs - {id}
            && id in t.logs && !Alive(t.logs[id]) && !t.logs[id].loggedOut
            && t.logs[id].username == username && t.logs[id].agent == agent && t.logs[id].remember == remember
    ensures var t := Step(s, TerminalLogin(id, username));
            && t.users == s.users && t.tokens == s.tokens && t.logs - {id} == s.logs - {id}
            && id in t.logs && Alive(t.logs[id]) && t.logs[id].username == username && t.logs[id].agent == "terminal"
  {}

  /** These logins have ended: the tokens are gone and their logs marked, a user stays online while an alive log is
      left, and all other logins are as they were. */
  ghost predicate Ended(s: State, t: State, gone: set<string>) {
    && (forall k :: k in t.tokens <==> k in s.tokens && k !in gone)
    && (forall k :: k in t.tokens ==> t.tokens[k] == s.tokens[k])
    && t.logs.Keys == s.logs.Keys
    && (forall id :: id in s.logs ==>
          t.logs[id] == if id in gone && id in s.tokens then s.logs[id].(loggedOut := true) else s.logs[id])
    && OnlineWhileAlive(s, t)
  }

  lemma EvictEnds(s: State, tokens: set<string>)
    requires TokensLogged(s) && OnlineLogged(s)
    ensures Ended(s, Evict(s, tokens), tokens)
  {
    var t := Evict(s, tokens);
    forall u | u in s.users ensures t.users[u] <==> s.users[u] && HasAlive(t.logs, u) {
      if s.users[u] && !HasAlive(t.logs, u) {
        var id :| id in s.logs && Alive(s.logs[id]) && s.logs[id].username == u;
        assert id in t.logs && !Alive(t.logs[id]) && id in Dropped(s, tokens);
      }
    }
  }

  lemma LogoutExactly(s: State, token: string)
    requires Coherent(s)
    ensures Ended(s, Step(s, UserLogout(token)), {token})
  {
    EvictEnds(s, {token});
  }

  /** The janitor ends exactly the logins whose tokens have expired: nothing that is still accepted goes. */
  lemma SweepExactly(s: State, now: nat)
    requires Coherent(s)
    ensures Ended(s, Step(s, Janitor(now)), set k | k in s.tokens && !Accepted(s, k, now))
  {
    var expired := set k | k in s.tokens && !Accepted(s, k, now);
    assert expired == set k | k in s.tokens && s.tokens[k].expiry < now;
    EvictEnds(s, expired);
  }

  /** Disabling a user ends the user's logins and no other's. */
  lemma DisableExactly(s: State, username: string)
    requires Coherent(s) && username in s.users
    ensures Ended(s, Step(s, DisableUser(username)), TokensOf(s, username))
  {
    EvictEnds(s, AliveIds(s.logs, username));
    EndedSame(s, Evict(s, AliveIds(s.logs, username)), AliveIds(s.logs, username), TokensOf(s, username));
  }

  /** Deleting one does, too, and takes the user away. */
  lemma RemoveExactly(s: State, username: string)
    requires Coherent(s) && username in s.users
    ensures Ended(s.(users := s.users - {username}), Step(s, RemoveUser(username)), TokensOf(s, username))
  {
    var left, ids := s.(users := s.users - {username}), AliveIds(s.logs, username);
    var t := Evict(left, ids);
    forall u | u in left.users && HasAlive(s.logs, u) ensures HasAlive(t.logs, u) {
      var id :| id in s.logs && Alive(s.logs[id]) && s.logs[id].username == u;
      assert id in t.logs && t.logs[id] == s.logs[id];
    }
    EndedSame(left, t, ids, TokensOf(s, username));
  }

  function TokensOf(s: State, username: string): set<string> {
    set k | k in s.tokens && s.tokens[k].username == username
  }

  lemma EndedSame(s: State, t: State, a: set<string>, b: set<string>)
    requires Ended(s, t, a) && forall k :: k in s.tokens ==> (k in a <==> k in b)
    ensures Ended(s, t, b)
  {}

  /** Only logs that are not alive are purged, and of these all that are selected. */
  lemma PurgeExactly(s: State, dead: set<string>)
    ensures var t := Step(s, PurgeDead(dead));
            && t.users == s.users && t.tokens == s.tokens
            && (forall id :: id in t.logs <==> id in s.logs && (id in dead ==> Alive(s.logs[id])))
            && (forall id :: id in t.logs ==> t.logs[id] == s.logs[id])
  {}

  /** A user who is created has the flag that was given; a taken name changes nothing. */
  lemma CreateWrites(s: State, u: string, online: bool)
    ensures var t := Step(s, NewUser(u, online));
            && t.logs == s.logs && t.tokens == s.tokens && t.users - {u} == s.users - {u}
            && u in t.users && t.users[u] == if u in s.users then s.users[u] else online
  {}

  /** A user who is updated has the name and the flag that were given, or the old ones where none were; an unknown
      user and a taken name change nothing. */
  lemma ChangeWrites(s: State, u: string, name: string, flag: Option<bool>)
    ensures var t := Step(s, ChangeUser(u, name, flag));
            && t.logs == s.logs && t.tokens == s.tokens
            && (u !in s.users || (name != u && name in s.users) ==> t == s)
            && (u in s.users && (name == u || name !in s.users) ==>
                  var now := if name == "" then u else name;
                  && t.users - {u, now} == s.users - {u, now}
                  && now in t.users && (u != now ==> u !in t.users)
                  && t.users[now] == match flag case Some(online) => online case None => s.users[u])
  {}

  /** The users found are kept, and the others of the file are created, each with the flag that the first user of
      that name has there. */
  ghost predicate Created(s: State, t: State, items: seq<(string, bool)>) {
    && t.logs == s.logs && t.tokens == s.tokens
    && (forall u :: u in s.users ==> u in t.users && t.users[u] == s.users[u])
    && (forall u :: u in t.users ==> u in s.users || exists i :: 0 <= i < |items| && items[i].0 == u)
    && (forall i :: 0 <= i < |items| ==> items[i].0 in t.users)
    && (forall i :: 0 <= i < |items| && Creates(s, items, i) ==> t.users[items[i].0] == items[i].1)
  }

  lemma {:induction false} ImportFlag(s: State, items: seq<(string, bool)>, i: nat)
    requires i < |items| && Creates(s, items, i)
    ensures items[i].0 in ImportAll(s, items).users && ImportAll(s, items).users[items[i].0] == items[i].1
  {
    var front := items[..|items| - 1];
    if i < |front| {
      CreatesFront(s, items, front, i);
      ImportFlag(s, front, i);
    } else {
      ImportedNames(s, front);
      LastCreated(s, items, front, ImportAll(s, front));
    }
  }

  lemma ImportWrites(s: State, items: seq<(string, bool)>)
    ensures Created(s, Step(s, ImportUsers(items)), items)
  {
    var t := ImportAll(s, items);
    ImportedNames(s, items);
    assert forall i :: 0 <= i < |items| ==> items[i].0 in t.users;
    forall i | 0 <= i < |items| && Creates(s, items, i) ensures t.users[items[i].0] == items[i].1 {
      ImportFlag(s, items, i);
    }
    assert Created(s, t, items);
  }

  lemma DropWrites(s: State, names: set<string>)
    ensures var t := Step(s, DropUsers(names));
            && t.logs == s.logs && t.tokens == s.tokens
            && (forall u :: u in t.users <==> u in s.users && u !in names)
            && (forall u :: u in t.users ==> t.users[u] == s.users[u])
  {}

  // ---------- runs ----------

  /** The condition under which an event keeps coherence: only those that write the users table past the logins
      have one. */
  predicate Fits(s: State, e: Event) {
    match e
    case NewUser(u, online) => u !in s.users && online ==> HasAlive(s.logs, u)
    case ChangeUser(u, name, flag) =>
      u in s.users && (name == u || name !in s.users) ==> MayChange(s, u, name, flag)
    case ImportUsers(items) => MayImport(s, items)
    case DropUsers(names) => !HasToken(s, names * s.users.Keys)
    case _ => true
  }

  predicate AllFit(s: State, es: seq<Event>)
    decreases |es|
  {
    es == [] || (Fits(s, es[0]) && AllFit(Step(s, es[0]), es[1..]))
  }

  ghost predicate CoherentThroughout(s: State, es: seq<Event>)
    decreases |es|
  {
    Coherent(s) && (es == [] || CoherentThroughout(Step(s, es[0]), es[1..]))
  }

  lemma StepExactly(s: State, e: Event)
    requires Coherent(s) && Allowed(s, e)
    ensures Coherent(Step(s, e)) <==> Fits(s, e)
  {
    match e
    case WebLogin(token, username, agent, remember, now) => LoginCoherent(s, token, username, agent, remember, now);
    case TerminalLogin(id, username) => AddLogCoherent(s, id, Log(username, TERMINAL, true, false, false));
    case FailedLogin(id, username, agent, remember) =>
      AddLogCoherent(s, id, Log(username, agent, false, remember, false));
    case UserLogout(token) => EvictCoherent(s, {token});
    case Use(token, now) =>
    case Janitor(now) => EvictCoherent(s, set t | t in s.tokens && s.tokens[t].expiry < now);
    case RemoveLogs(ids) => DeleteLogsCoherent(s, ids);
    case PurgeDead(dead) => PurgeCoherent(s, dead);
    case DisableUser(username) => EvictCoherent(s, AliveIds(s.logs, username));
    case RemoveUser(username) => DeleteUserCoherent(s, username);
    case NewUser(username, online) => CreateExactly(s, username, online);
    case ChangeUser(username, name, flag) => ChangeExactly(s, username, name, flag);
    case ImportUsers(items) => ImportExactly(s, items);
    case DropUsers(names) => DropExactly(s, names);
    case Reboot(now) => RestartCoherent(s, now);
  }

  /** Along a run, restarts included, it holds throughout that each cached token has its own alive log, each online
      user an alive log, and each login of the web with an alive log its token and an online user, exactly when
      every event that writes the users table past the logins fits the logins of its moment. */
  lemma {:induction false} RunExactly(s: State, es: seq<Event>)
    requires Coherent(s) && AllAllowed(s, es)
    ensures CoherentThroughout(s, es) <==> AllFit(s, es)
    decreases |es|
  {
    if es == [] {
    } else {
      var t := Step(s, es[0]);
      StepExactly(s, es[0]);
      if Coherent(t) {
        RunExactly(t, es[1..]);
      } else {
        assert !CoherentThroughout(t, es[1..]);
      }
    }
  }

  /** So a run of fitting events ends in a coherent state. */
  lemma {:induction false} RunCoherent(s: State, es: seq<Event>)
    requires Coherent(s) && AllAllowed(s, es) && AllFit(s, es)
    ensures Coherent(Run(s, es))
    decreases |es|
  {
    if es == [] {
    } else {
      StepExactly(s, es[0]);
      RunCoherent(Step(s, es[0]), es[1..]);
    }
  }

  /** An alive log whose user exists can be a login token. */
  ghost predicate OwnedNamed(s: State) {
    forall id :: id in s.logs && Alive(s.logs[id]) && s.logs[id].username in s.users ==> !Forever(id)
  }

  /** What a restart repairs: from any state at all it leads to a coherent one exactly when the flag of no user with
      an alive login of the web is lowered and the ids are in order. A raised flag without a log and the tokens of
      users who are gone do not survive it. */
  lemma RestartExactly(s: State, now: nat)
    ensures Coherent(Restart(s, now)) <==> OwnedNamed(s) && LoginsOwned(s)
  {
    var t := Restart(s, now);
    if OwnedNamed(s) && LoginsOwned(s) {
      RestartCoherent(s, now);
    } else if !OwnedNamed(s) {
      var id :| id in s.logs && Alive(s.logs[id]) && s.logs[id].username in s.users && Forever(id);
      assert id in t.tokens;
    } else {
      var id :| id in s.logs && Alive(s.logs[id]) && s.logs[id].agent != TERMINAL
                && s.logs[id].username in s.users && !s.users[s.logs[id].username];
      assert id !in Orphans(s) && id in t.logs && !t.users[t.logs[id].username];
    }
  }

  /** Without terminal logins alive, a user is online exactly while one of the user's tokens is cached. */
  lemma OnlineExactly(s: State, u: string)
    requires Coherent(s) && u in s.users
    requires forall id :: id in s.logs && Alive(s.logs[id]) && s.logs[id].username == u ==> s.logs[id].agent != TERMINAL
    ensures s.users[u] <==> exists t :: t in s.tokens && s.tokens[t].username == u
  {}
}
