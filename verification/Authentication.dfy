/** Login with lockout, sessions, and how often a password can really be tried. Times are
    integers in any fixed unit; hash verification is an abstract predicate. */
module Authentication {
  import opened Domain
  import opened Scaling

  type UserId = string
  type SessionId = string

  datatype Account = Account(user: UserId, passwordHash: string, failedAttempts: int, lockedUntil: Option<int>)
  {
    predicate IsLocked(now: int) {
      lockedUntil.Some? && now < lockedUntil.value
    }
  }

  datatype Session = Session(id: SessionId, user: UserId, issuedAt: int, expiresAt: int)
  {
    predicate IsExpired(now: int) { now >= expiresAt }
  }

  datatype Config = Config(sessionTtl: int, lockThreshold: int, lockDuration: int)

  datatype Reason = UnknownAccount | AccountLocked | BadPassword

  datatype AuditEvent =
    | LoginSuccess(user: UserId, at: int)
    | AuthFailure(user: UserId, at: int, reason: Reason)
    | Logout(actor: Option<UserId>, at: int)

  function AfterFailure(a: Account, now: int, config: Config): Account {
    var attempts := a.failedAttempts + 1;
    if attempts >= config.lockThreshold
    then a.(failedAttempts := attempts, lockedUntil := Some(now + config.lockDuration))
    else a.(failedAttempts := attempts)
  }

  /** One login on an account: `matches` is what checking the real hash would say. */
  function AfterLogin(a: Account, matches: bool, now: int, config: Config): Account {
    if a.IsLocked(now) then a
    else if !matches then AfterFailure(a, now, config)
    else a.(failedAttempts := 0, lockedUntil := None)
  }

  class Authenticator {
    const config: Config
    const verify: (string, string) -> bool
    var accounts: map<UserId, Account>
    var sessions: map<SessionId, Session>
    var log: seq<AuditEvent>

    constructor (config: Config, verify: (string, string) -> bool, accounts: map<UserId, Account>)
      ensures this.config == config && this.verify == verify && this.accounts == accounts
      ensures sessions == map[] && log == []
    {
      this.config, this.verify, this.accounts := config, verify, accounts;
      sessions, log := map[], [];
    }

    /** `login`: every failure looks the same to the caller; the log keeps the reason.
        `sessionId` is the random session id. */
    method Login(user: UserId, password: string, now: int, sessionId: SessionId) returns (session: Option<Session>)
      modifies this
      ensures session.Some? <==> && user in old(accounts)
                                 && !old(accounts)[user].IsLocked(now)
                                 && verify(old(accounts)[user].passwordHash, password)
      ensures session.Some? ==> session.value == Session(sessionId, user, now, now + config.sessionTtl)
      ensures accounts == if user in old(accounts)
                          then old(accounts)[user := AfterLogin(old(accounts)[user],
                                 verify(old(accounts)[user].passwordHash, password), now, config)]
                          else old(accounts)
      ensures sessions == if session.Some? then old(sessions)[sessionId := session.value] else old(sessions)
      ensures log == old(log) + [
                if user !in old(accounts) then AuthFailure(user, now, UnknownAccount)
                else if old(accounts)[user].IsLocked(now) then AuthFailure(user, now, AccountLocked)
                else if session.None? then AuthFailure(user, now, BadPassword)
                else LoginSuccess(user, now)]
    {
      if user !in accounts {
        log := log + [AuthFailure(user, now, UnknownAccount)];
        return None;
      }
      var account := accounts[user];
      if account.IsLocked(now) {
        log := log + [AuthFailure(user, now, AccountLocked)];
        return None;
      }
      if !verify(account.passwordHash, password) {
        accounts := accounts[user := AfterFailure(account, now, config)];
        log := log + [AuthFailure(user, now, BadPassword)];
        return None;
      }
      accounts := accounts[user := account.(failedAttempts := 0, lockedUntil := None)];
      var s := Session(sessionId, user, now, now + config.sessionTtl);
      sessions := sessions[sessionId := s];
      log := log + [LoginSuccess(user, now)];
      session := Some(s);
    }

    method Authenticate(id: SessionId, now: int) returns (user: Option<UserId>)
      ensures user.Some? <==> id in sessions && now < sessions[id].expiresAt
      ensures user.Some? ==> user.value == sessions[id].user
    {
      if id !in sessions || sessions[id].IsExpired(now) {
        return None;
      }
      user := Some(sessions[id].user);
    }

    method LogoutSession(id: SessionId, now: int)
      modifies this
      ensures sessions == old(sessions) - {id}
      ensures accounts == old(accounts)
      ensures log == old(log) + [Logout(if id in old(sessions) then Some(old(sessions)[id].user) else None, now)]
    {
      log := log + [Logout(if id in sessions then Some(sessions[id].user) else None, now)];
      sessions := sessions - {id};
    }
  }

  // ----- Runs of logins over the whole store -----

  datatype Attempt = Attempt(user: UserId, password: string, now: int)

  function StoreAfter(
      accounts: map<UserId, Account>, x: Attempt, verify: (string, string) -> bool, config: Config)
      : map<UserId, Account> {
    if x.user in accounts
    then
      var row := accounts[x.user];
      accounts[x.user := AfterLogin(row, verify(row.passwordHash, x.password), x.now, config)]
    else accounts
  }

  function Store(
      accounts: map<UserId, Account>, run: seq<Attempt>, verify: (string, string) -> bool, config: Config)
      : map<UserId, Account> {
    if run == [] then accounts
    else StoreAfter(Store(accounts, run[..|run| - 1], verify, config), run[|run| - 1], verify, config)
  }

  /** Does this attempt reach u's real password hash? */
  predicate Checks(accounts: map<UserId, Account>, u: UserId, x: Attempt) {
    x.user == u && u in accounts && !accounts[u].IsLocked(x.now)
  }

  predicate Succeeds(accounts: map<UserId, Account>, u: UserId, x: Attempt, verify: (string, string) -> bool) {
    Checks(accounts, u, x) && verify(accounts[u].passwordHash, x.password)
  }

  function CheckCount(
      accounts: map<UserId, Account>, u: UserId, run: seq<Attempt>, verify: (string, string) -> bool, config: Config)
      : nat {
    if run == [] then 0
    else
      var before := Store(accounts, run[..|run| - 1], verify, config);
      CheckCount(accounts, u, run[..|run| - 1], verify, config) + if Checks(before, u, run[|run| - 1]) then 1 else 0
  }

  ghost predicate NonDecreasing(run: seq<Attempt>) {
    forall i, j :: 0 <= i < j < |run| ==> run[i].now <= run[j].now
  }

  ghost predicate NoSuccess(
      accounts: map<UserId, Account>, u: UserId, run: seq<Attempt>, verify: (string, string) -> bool, config: Config) {
    forall i :: 0 <= i < |run| ==> !Succeeds(Store(accounts, run[..i], verify, config), u, run[i], verify)
  }

  /** Free tries before the first lock. */
  function FreeTries(a: Account, config: Config): int {
    Max(1, config.lockThreshold - a.failedAttempts)
  }

  /** After c checks: either still counting up, or locked until at least one lock duration
      per check beyond the free ones. */
  ghost predicate LockState(start: Account, now: Account, c: nat, first: int, config: Config) {
    && now.failedAttempts == start.failedAttempts + c
    && (c >= FreeTries(start, config) ==>
          now.lockedUntil.Some? &&
          now.lockedUntil.value >= first + (c - FreeTries(start, config) + 1) * config.lockDuration)
  }

  lemma OneMoreLock(first: int, k: int, d: int, l: int, l': int)
    requires l >= first + k * d && l' >= l + d
    ensures l' >= first + (k + 1) * d
  {
    assert (k + 1) * d == k * d + d;
  }

  lemma LockStep(start: Account, a: Account, c: nat, first: int, now: int, config: Config)
    requires LockState(start, a, c, first, config)
    requires now >= first && !a.IsLocked(now)
    ensures LockState(start, AfterFailure(a, now, config), c + 1, first, config)
  {
    var m := FreeTries(start, config);
    if c >= m {
      OneMoreLock(first, c - m + 1, config.lockDuration, a.lockedUntil.value, now + config.lockDuration);
    }
  }

  lemma {:induction false} RunLocks(
    accounts: map<UserId, Account>, u: UserId, run: seq<Attempt>, verify: (string, string) -> bool, config: Config,
    first: int)
    requires u in accounts
    requires forall i :: 0 <= i < |run| ==> first <= run[i].now
    requires NoSuccess(accounts, u, run, verify, config)
    ensures u in Store(accounts, run, verify, config)
    ensures LockState(accounts[u], Store(accounts, run, verify, config)[u],
                      CheckCount(accounts, u, run, verify, config), first, config)
  {
    if run != [] {
      var rest, x := run[..|run| - 1], run[|run| - 1];
      assert forall i :: 0 <= i <= |rest| ==> rest[..i] == run[..i];
      RunLocks(accounts, u, rest, verify, config, first);
      var before := Store(accounts, rest, verify, config);
      assert !Succeeds(Store(accounts, run[..|rest|], verify, config), u, run[|rest|], verify);
      if Checks(before, u, x) {
        LockStep(accounts[u], before[u], CheckCount(accounts, u, rest, verify, config), first, x.now, config);
      }
    }
  }

  lemma NoMoreThanQuotient(k: int, d: int, q: int, r: int)
    requires d >= 1 && r < d && k * d <= q * d + r
    ensures k <= q
  {
    assert (k - q) * d == k * d - q * d;
    assert k - q >= 1 ==> (k - q) * d >= d;
  }

  lemma ChecksBeyondFree(k: int, d: int, elapsed: int)
    requires d >= 1 && k * d <= elapsed
    ensures k <= elapsed / d
  {
    var q, r := elapsed / d, elapsed % d;
    assert elapsed == q * d + r;
    NoMoreThanQuotient(k, d, q, r);
  }

  /** k checks are covered: they are free, or a whole lock duration has passed for each. */
  ghost predicate Covered(k: int, d: int, elapsed: int) {
    k <= 0 || k * d <= elapsed
  }

  lemma CheckIsCovered(start: Account, a: Account, c: nat, first: int, now: int, config: Config)
    requires LockState(start, a, c, first, config)
    requires !a.IsLocked(now)
    ensures Covered(c + 1 - FreeTries(start, config), config.lockDuration, now - first)
  {
  }

  lemma NoSuccessEarlier(
    accounts: map<UserId, Account>, u: UserId, run: seq<Attempt>, verify: (string, string) -> bool, config: Config)
    requires run != [] && NoSuccess(accounts, u, run, verify, config)
    ensures NoSuccess(accounts, u, run[..|run| - 1], verify, config)
  {
    assert forall i :: 0 <= i < |run| ==> run[..|run| - 1][..i] == run[..i];
  }

  lemma CoveredLater(k: int, d: int, now: int, last: int)
    requires Covered(k, d, now) && now <= last
    ensures Covered(k, d, last)
  {
  }

  lemma {:induction false} ChecksAreCovered(
    accounts: map<UserId, Account>, u: UserId, run: seq<Attempt>, verify: (string, string) -> bool, config: Config,
    first: int, last: int)
    requires u in accounts
    requires forall i :: 0 <= i < |run| ==> first <= run[i].now <= last
    requires NoSuccess(accounts, u, run, verify, config)
    ensures Covered(CheckCount(accounts, u, run, verify, config) - FreeTries(accounts[u], config),
                    config.lockDuration, last - first)
  {
    if run != [] {
      var rest, x := run[..|run| - 1], run[|run| - 1];
      NoSuccessEarlier(accounts, u, run, verify, config);
      var before := Store(accounts, rest, verify, config);
      var c := CheckCount(accounts, u, rest, verify, config);
      assert CheckCount(accounts, u, run, verify, config) == c + if Checks(before, u, x) then 1 else 0;
      assert Checks(before, u, x) ==> !before[u].IsLocked(x.now);
      hide *;
      if Checks(before, u, x) {
        RunLocks(accounts, u, rest, verify, config, first);
        CheckIsCovered(accounts[u], before[u], c, first, x.now, config);
        CoveredLater(c + 1 - FreeTries(accounts[u], config), config.lockDuration, x.now - first, last - first);
      } else {
        ChecksAreCovered(accounts, u, rest, verify, config, first, last);
      }
    }
  }

  /** Lockout rate. In any run of logins on any accounts, with non-decreasing times and no
      success on u, the number of checks against u's real hash is at most its free tries
      plus one per whole lock duration elapsed. */
  lemma LockoutRate(
    accounts: map<UserId, Account>, u: UserId, run: seq<Attempt>, verify: (string, string) -> bool, config: Config)
    requires u in accounts && run != [] && config.lockDuration >= 1
    requires NonDecreasing(run) && NoSuccess(accounts, u, run, verify, config)
    ensures CheckCount(accounts, u, run, verify, config)
         <= FreeTries(accounts[u], config) + (run[|run| - 1].now - run[0].now) / config.lockDuration
  {
    var elapsed := run[|run| - 1].now - run[0].now;
    var k := CheckCount(accounts, u, run, verify, config) - FreeTries(accounts[u], config);
    ChecksAreCovered(accounts, u, run, verify, config, run[0].now, run[|run| - 1].now);
    ChecksBeyondFree(if k <= 0 then 0 else k, config.lockDuration, elapsed);
  }

  /** Logins on other accounts leave u's alone. */
  lemma {:induction false} OthersDoNotMatter(
      accounts: map<UserId, Account>, u: UserId, run: seq<Attempt>, verify: (string, string) -> bool, config: Config)
    requires forall i :: 0 <= i < |run| ==> run[i].user != u
    ensures u in Store(accounts, run, verify, config) <==> u in accounts
    ensures u in accounts ==> Store(accounts, run, verify, config)[u] == accounts[u]
    ensures CheckCount(accounts, u, run, verify, config) == 0
  {
    if run != [] {
      OthersDoNotMatter(accounts, u, run[..|run| - 1], verify, config);
    }
  }
}
