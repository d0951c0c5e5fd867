/** Accounts, access and refresh sessions and password recoveries as tables, and every transaction that
    touches them as one step. Tokens stand for their hashes. */
module Credentials {
  import opened Wrappers

  type AccountID = string
  type FamilyID = string
  type TenantID = string
  type Token = string
  type PasswordHash = string
  type Time = int
  type LoginID = nat

  const LOCKOUT_ATTEMPTS := 5
  const LOCKOUT_TIME: Time := 15 * 60

  datatype Account = Account(
    hash: PasswordHash, active: bool, admin: bool, failedLogins: int, lockedUntil: Option<Time>)

  datatype Access = Access(account: AccountID, family: FamilyID, expires: Time, revokedAt: Option<Time>)

  datatype Refresh = Refresh(
    account: AccountID, family: FamilyID, expires: Time, revokedAt: Option<Time>, rotatedTo: Option<Token>)

  datatype Recovery = Recovery(account: AccountID, tenant: TenantID, expires: Time, consumed: bool, revoked: bool)

  // The hash a login read, and whether the password matched it.
  datatype Login = Login(account: AccountID, hash: PasswordHash, verified: bool)

  // The login that opened a session family, and the family's refresh tokens in the order of issue.
  datatype Family = Family(login: LoginID, tokens: seq<Token>)

  // The four tables, and what the proofs remember about their history: logins and families.
  datatype State = State(
    accounts: map<AccountID, Account>,
    access: map<Token, Access>,
    refresh: map<Token, Refresh>,
    recoveries: map<Token, Recovery>,
    logins: map<LoginID, Login>,
    families: map<FamilyID, Family>)

  datatype Reply = Done | InvalidCredentials | AccountLocked | SessionInvalid | NotFound | Forbidden | Conflict

  datatype Config = Config(sessionTime: Time, refreshTime: Time)

  datatype Event =
    // Login reads the account and compares the password with the hash it read. Any number of other
    // transactions later it records the failure, or issues the session.
    | ReadLogin(login: LoginID, account: AccountID, passwordMatches: bool)
    | RecordFailure(login: LoginID)
    | IssueSession(login: LoginID, accessToken: Token, refreshToken: Token, family: FamilyID)
    | RefreshSession(token: Token, newAccess: Token, newRefresh: Token)
    | Logout(presentedAccess: Option<Token>, presentedRefresh: Option<Token>)
    | ChangePassword(account: AccountID, passwordMatches: bool, hash: PasswordHash)
    | CreateRecovery(actor: AccountID, permitted: bool, passwordMatches: bool, target: AccountID, tenant: TenantID,
                     eligible: bool, recoveryToken: Token, expires: Time)
    | CompleteRecovery(recovery: Token, eligible: bool, hash: PasswordHash)
    | RecoverAdministrator(account: AccountID, hash: PasswordHash)
    | ProvisionMember(permitted: bool, account: AccountID, hash: PasswordHash)
    | CreateAccount(account: AccountID, hash: PasswordHash)
    | RevokeSession(account: AccountID, family: FamilyID)
    | RevokeOtherSessions(account: AccountID, accessToken: Token)

  // ---------- Table updates ----------

  function Coalesce(at: Option<Time>, now: Time): Option<Time> {
    if at.Some? then at else Some(now)
  }

  // UPDATE access_sessions SET revoked_at = COALESCE(revoked_at, now) WHERE token_hash IN hit
  function RevokeAccess(m: map<Token, Access>, hit: set<Token>, now: Time): map<Token, Access> {
    map t | t in m :: if t in hit then m[t].(revokedAt := Coalesce(m[t].revokedAt, now)) else m[t]
  }

  function RevokeRefresh(m: map<Token, Refresh>, hit: set<Token>, now: Time): map<Token, Refresh> {
    map t | t in m :: if t in hit then m[t].(revokedAt := Coalesce(m[t].revokedAt, now)) else m[t]
  }

  function AccessOf(s: State, account: AccountID): set<Token> {
    set t | t in s.access && s.access[t].account == account
  }

  function RefreshOf(s: State, account: AccountID): set<Token> {
    set t | t in s.refresh && s.refresh[t].account == account
  }

  function AccessIn(s: State, pairs: set<(AccountID, FamilyID)>): set<Token> {
    set t | t in s.access && (s.access[t].account, s.access[t].family) in pairs
  }

  function RefreshIn(s: State, pairs: set<(AccountID, FamilyID)>): set<Token> {
    set t | t in s.refresh && (s.refresh[t].account, s.refresh[t].family) in pairs
  }

  // The end of an account's old refresh lineage: everything revoked and every rotation link cleared.
  function EndLineage(m: map<Token, Refresh>, account: AccountID, now: Time): map<Token, Refresh> {
    map t | t in m ::
      if m[t].account == account then m[t].(revokedAt := Coalesce(m[t].revokedAt, now), rotatedTo := None) else m[t]
  }

  function CloseRecoveries(m: map<Token, Recovery>, account: AccountID): map<Token, Recovery> {
    map t | t in m :: if m[t].account == account && !m[t].consumed then m[t].(revoked := true) else m[t]
  }

  // revokeCredentialSessions
  function RevokeCredentials(s: State, account: AccountID, now: Time): State {
    s.(access := RevokeAccess(s.access, AccessOf(s, account), now),
       refresh := EndLineage(s.refresh, account, now),
       recoveries := CloseRecoveries(s.recoveries, account))
  }

  function ResetPassword(s: State, account: AccountID, hash: PasswordHash, now: Time): State
    requires account in s.accounts
  {
    var row := s.accounts[account].(hash := hash, failedLogins := 0, lockedUntil := None);
    RevokeCredentials(s.(accounts := s.accounts[account := row]), account, now)
  }

  // failedPassword: the fifth failure locks the account and starts counting again.
  function FailedPassword(a: Account, now: Time): Account {
    if a.failedLogins + 1 >= LOCKOUT_ATTEMPTS then a.(failedLogins := 0, lockedUntil := Some(now + LOCKOUT_TIME))
    else a.(failedLogins := a.failedLogins + 1)
  }

  predicate Locked(a: Account, now: Time) {
    a.lockedUntil.Some? && a.lockedUntil.value > now
  }

  predicate ActiveAccount(s: State, account: AccountID) {
    account in s.accounts && s.accounts[account].active
  }

  function Extended(families: map<FamilyID, Family>, family: FamilyID, token: Token): map<FamilyID, Family> {
    if family in families then families[family := families[family].(tokens := families[family].tokens + [token])]
    else families
  }

  function InsertSessions(cfg: Config, s: State, account: AccountID, family: FamilyID, access: Token, refresh: Token,
                          now: Time): State
  {
    s.(access := s.access[access := Access(account, family, now + cfg.sessionTime, None)],
       refresh := s.refresh[refresh := Refresh(account, family, now + cfg.refreshTime, None, None)],
       families := Extended(s.families, family, refresh))
  }

  // ---------- The transactions ----------

  function ReadLoginStep(s: State, login: LoginID, account: AccountID, matches: bool, now: Time): (State, Reply) {
    if !ActiveAccount(s, account) then (s, InvalidCredentials)
    else if Locked(s.accounts[account], now) then (s, AccountLocked)
    else (s.(logins := s.logins[login := Login(account, s.accounts[account].hash,
                                               matches)]), if matches then Done else InvalidCredentials)
  }

  // The failure counts against the row as it is now, not as it was read.
  function RecordFailureStep(s: State, login: LoginID, now: Time): (State, Reply)
    requires login in s.logins
  {
    var account := s.logins[login].account;
    if account !in s.accounts then (s, InvalidCredentials)
    else (s.(accounts := s.accounts[account := FailedPassword(s.accounts[account], now)]), InvalidCredentials)
  }

  function IssueStep(cfg: Config, s: State, login: LoginID, access: Token, refresh: Token, family: FamilyID,
                     now: Time): (State, Reply)
    requires login in s.logins
  {
    var account := s.logins[login].account;
    if account !in s.accounts then (s, NotFound)
    else if s.accounts[account].hash != s.logins[login].hash || !s.accounts[account].active then (s, InvalidCredentials)
    else if Locked(s.accounts[account], now) then (s, AccountLocked)
    else
      var row := s.accounts[account].(failedLogins := 0, lockedUntil := None);
      var unlocked := s.(accounts := s.accounts[account := row],
                         families := s.families[family := Family(login, [])]);
      (InsertSessions(cfg, unlocked, account, family, access, refresh, now), Done)
  }

  function ReuseDetected(s: State, account: AccountID, now: Time): State {
    s.(access := RevokeAccess(s.access, AccessOf(s, account), now),
       refresh := RevokeRefresh(s.refresh, RefreshOf(s, account), now))
  }

  function RefreshStep(cfg: Config, s: State, token: Token, access: Token, next: Token, now: Time): (State, Reply) {
    if token !in s.refresh || !ActiveAccount(s, s.refresh[token].account) then (s, SessionInvalid)
    else
      var row := s.refresh[token];
      if row.rotatedTo.Some? then
        (ReuseDetected(s, row.account, now), SessionInvalid)
      else if row.revokedAt.Some? then (s, SessionInvalid)
      else if row.expires <= now then (s.(refresh := RevokeRefresh(s.refresh, {token}, now)), SessionInvalid)
      else (Rotate(cfg, s, token, access, next, now), Done)
  }

  // The redeemed token is revoked and linked to its successor.
  function Rotate(cfg: Config, s: State, token: Token, access: Token, next: Token, now: Time): State
    requires token in s.refresh
  {
    var row := s.refresh[token];
    var linked := s.(refresh := s.refresh[token := row.(revokedAt := Some(now), rotatedTo := Some(next))]);
    InsertSessions(cfg, linked, row.account, row.family, access, next, now)
  }

  function LogoutPairs(s: State, access: Option<Token>, refresh: Option<Token>): set<(AccountID, FamilyID)> {
    (if access.Some? && access.value in s.access then {(s.access[access.value].account, s.access[access.value].family)}
     else {})
    + (if refresh.Some? && refresh.value in s.refresh then {(s.refresh[refresh.value].account,
                                                             s.refresh[refresh.value].family)} else {})
  }

  function RevokePairs(s: State, pairs: set<(AccountID, FamilyID)>, now: Time): State {
    s.(access := RevokeAccess(s.access, AccessIn(s, pairs), now),
       refresh := RevokeRefresh(s.refresh, RefreshIn(s, pairs), now))
  }

  function ChangePasswordStep(s: State, account: AccountID, matches: bool, hash: PasswordHash,
                              now: Time): (State, Reply)
  {
    if !ActiveAccount(s, account) then (s, NotFound)
    else if Locked(s.accounts[account], now) then (s, AccountLocked)
    else if !matches then
      (s.(accounts := s.accounts[account := FailedPassword(s.accounts[account], now)]), InvalidCredentials)
    else (ResetPassword(s, account, hash, now), Done)
  }

  predicate OpenRecovery(s: State, token: Token, now: Time) {
    && token in s.recoveries
    && !s.recoveries[token].consumed
    && !s.recoveries[token].revoked
    && s.recoveries[token].expires > now
  }

  // An administrator who may manage the members of the organization confirms their own password and replaces the
  // target's open recovery.
  function CreateRecoveryStep(s: State, actor: AccountID, permitted: bool, matches: bool, target: AccountID,
                              tenant: TenantID, eligible: bool, token: Token, expires: Time, now: Time): (State, Reply)
  {
    if !permitted || !ActiveAccount(s, actor) || !s.accounts[actor].admin then (s, Forbidden)
    else if Locked(s.accounts[actor], now) then (s, AccountLocked)
    else if !matches then
      (s.(accounts := s.accounts[actor := FailedPassword(s.accounts[actor], now)]), InvalidCredentials)
    else if !ActiveAccount(s, target) || s.accounts[target].admin || !eligible then (s, NotFound)
    else
      (s.(recoveries := CloseRecoveries(s.recoveries, target)[token := Recovery(target, tenant, expires, false, false)],
          accounts := s.accounts[actor := s.accounts[actor].(failedLogins := 0, lockedUntil := None)]), Done)
  }

  function CompleteRecoveryStep(s: State, token: Token, eligible: bool, hash: PasswordHash, now: Time): (State, Reply) {
    if !OpenRecovery(s, token, now) then (s, NotFound)
    else
      var account := s.recoveries[token].account;
      if !ActiveAccount(s, account) || s.accounts[account].admin || !eligible then (s, NotFound)
      else (ResetPassword(s.(recoveries := s.recoveries[token := s.recoveries[token].(consumed := true)]), account,
                          hash, now), Done)
  }

  function RecoverAdministratorStep(s: State, account: AccountID, hash: PasswordHash, now: Time): (State, Reply) {
    if !ActiveAccount(s, account) || !s.accounts[account].admin then (s, NotFound)
    else (ResetPassword(s, account, hash, now), Done)
  }

  // ProvisionMember: for an administrator who is a member of the organization, creates the account, or resets a
  // non-administrator and reactivates it.
  function ProvisionStep(s: State, permitted: bool, account: AccountID, hash: PasswordHash, now: Time): (State, Reply) {
    if !permitted then (s, Forbidden)
    else if account !in s.accounts then
      (s.(accounts := s.accounts[account := Account(hash, true, false, 0, None)]), Done)
    else if s.accounts[account].admin then (s, Forbidden)
    else (ResetPassword(s.(accounts := s.accounts[account := s.accounts[account].(active := true)]), account, hash,
                        now), Done)
  }

  function RevokeSessionStep(s: State, account: AccountID, family: FamilyID, now: Time): (State, Reply) {
    var pairs := {(account, family)};
    if account !in s.accounts || (AccessIn(s, pairs) == {} && RefreshIn(s, pairs) == {}) then (s, NotFound)
    else (RevokePairs(s, pairs, now), Done)
  }

  function OtherFamilies(s: State, account: AccountID, keep: FamilyID): set<(AccountID, FamilyID)> {
    (set t | t in s.access && s.access[t].account == account && s.access[t].family != keep ::
       (account, s.access[t].family))
    + (set t | t in s.refresh && s.refresh[t].account == account && s.refresh[t].family != keep ::
         (account, s.refresh[t].family))
  }

  function RevokeOthersStep(s: State, account: AccountID, token: Token, now: Time): (State, Reply) {
    if !ActiveAccount(s, account) then (s, SessionInvalid)
    else if token !in s.access || s.access[token].account != account || s.access[token].revokedAt.Some?
            || s.access[token].expires <= now then
      (s, SessionInvalid)
    else (RevokePairs(s, OtherFamilies(s, account, s.access[token].family), now), Done)
  }

  // Random identifiers are new, and only a login whose password matched goes on to issue a session.
  predicate Enabled(s: State, e: Event) {
    match e
    case ReadLogin(login, _, _) => login !in s.logins
    case RecordFailure(login) => login in s.logins && !s.logins[login].verified
    case IssueSession(login, access, refresh, family) =>
      && login in s.logins
      && s.logins[login].verified
      && access !in s.access
      && refresh !in s.refresh
      && family !in s.families
    case RefreshSession(_, access, refresh) => access !in s.access && refresh !in s.refresh
    case CreateRecovery(_, _, _, _, _, _, token, _) => token !in s.recoveries
    case CreateAccount(account, _) => account !in s.accounts
    case _ => true
  }

  function Step(cfg: Config, s: State, e: Event, now: Time): (State, Reply)
    requires Enabled(s, e)
  {
    match e
    case ReadLogin(login, account, matches) => ReadLoginStep(s, login, account, matches, now)
    case RecordFailure(login) => RecordFailureStep(s, login, now)
    case IssueSession(login, access, refresh, family) => IssueStep(cfg, s, login, access, refresh, family, now)
    case RefreshSession(token, access, refresh) => RefreshStep(cfg, s, token, access, refresh, now)
    case Logout(access, refresh) => (RevokePairs(s, LogoutPairs(s, access, refresh), now), Done)
    case ChangePassword(account, matches, hash) => ChangePasswordStep(s, account, matches, hash, now)
    case CreateRecovery(actor, permitted, matches, target, tenant, eligible, token, expires) =>
      CreateRecoveryStep(s, actor, permitted, matches, target, tenant, eligible, token, expires, now)
    case CompleteRecovery(token, eligible, hash) => CompleteRecoveryStep(s, token, eligible, hash, now)
    case RecoverAdministrator(account, hash) => RecoverAdministratorStep(s, account, hash, now)
    case ProvisionMember(permitted, account, hash) => ProvisionStep(s, permitted, account, hash, now)
    case CreateAccount(account, hash) =>
      (s.(accounts := s.accounts[account := Account(hash, true, false, 0, None)]), Done)
    case RevokeSession(account, family) => RevokeSessionStep(s, account, family, now)
    case RevokeOtherSessions(account, token) => RevokeOthersStep(s, account, token, now)
  }
}
