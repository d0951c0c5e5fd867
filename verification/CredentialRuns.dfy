/** What holds over every sequence of credential transactions, in any interleaving and at any times. */
module CredentialRuns {
  import opened Wrappers
  import opened Credentials
  import opened CredentialSafety

  datatype Call = Call(event: Event, now: Time)

  ghost predicate Runs(cfg: Config, s: State, calls: seq<Call>)
    decreases |calls|
  {
    calls == [] || (Enabled(s, calls[0].event) && Runs(cfg, Step(cfg, s, calls[0].event, calls[0].now).0, calls[1..]))
  }

  ghost function After(cfg: Config, s: State, calls: seq<Call>): State
    requires Runs(cfg, s, calls)
    decreases |calls|
  {
    if calls == [] then s else After(cfg, Step(cfg, s, calls[0].event, calls[0].now).0, calls[1..])
  }

  ghost function Replies(cfg: Config, s: State, calls: seq<Call>): (r: seq<Reply>)
    requires Runs(cfg, s, calls)
    ensures |r| == |calls|
    decreases |calls|
  {
    if calls == [] then []
    else
      var (next, reply) := Step(cfg, s, calls[0].event, calls[0].now);
      [reply] + Replies(cfg, next, calls[1..])
  }

  // ---------- The invariant ----------

  lemma CompleteRecoveryKeeps(s: State, token: Token, eligible: bool, hash: PasswordHash, now: Time)
    requires Inv(s)
    ensures Inv(CompleteRecoveryStep(s, token, eligible, hash, now).0)
  {
    hide Lineage, Paths, OnlyRevokes;
    var (t, reply) := CompleteRecoveryStep(s, token, eligible, hash, now);
    if reply == Done {
      ResetRevokes(s, s.(recoveries := s.recoveries[token := s.recoveries[token].(consumed := true)]),
                   s.recoveries[token].account, hash, now);
      OnlyRevokesKeeps(s, t);
    }
  }

  lemma ResetKeeps(base: State, s: State, account: AccountID, hash: PasswordHash, now: Time)
    requires Inv(base) && s == base.(accounts := s.accounts) && account in s.accounts
    requires forall a | a in base.accounts :: a in s.accounts && s.accounts[a].hash == base.accounts[a].hash
    ensures Inv(ResetPassword(s, account, hash, now))
  {
    hide Lineage, Paths, OnlyRevokes;
    ResetRevokes(base, s, account, hash, now);
    OnlyRevokesKeeps(base, ResetPassword(s, account, hash, now));
  }

  // Accounts, logins and recoveries change, the session tables and the hashes stay.
  lemma SessionsUntouched(s: State, t: State)
    requires Inv(s) && Referential(t)
    requires t.access == s.access && t.refresh == s.refresh && t.families == s.families
    requires forall l | l in s.logins :: l in t.logins && t.logins[l] == s.logins[l]
    requires forall a | a in s.accounts :: a in t.accounts && t.accounts[a].hash == s.accounts[a].hash
    ensures Inv(t)
  {
    OnlyRevokesKeeps(s, t);
  }

  lemma LoginKeeps(s: State, login: LoginID, account: AccountID, matches: bool, now: Time)
    requires Inv(s)
    ensures login !in s.logins ==> Inv(ReadLoginStep(s, login, account, matches, now).0)
    ensures login in s.logins ==> Inv(RecordFailureStep(s, login, now).0)
  {
    hide Lineage, Paths, OnlyRevokes;
    if login in s.logins {
      SessionsUntouched(s, RecordFailureStep(s, login, now).0);
    } else {
      SessionsUntouched(s, ReadLoginStep(s, login, account, matches, now).0);
    }
  }

  lemma ChangePasswordKeeps(s: State, account: AccountID, matches: bool, hash: PasswordHash, now: Time)
    requires Inv(s)
    ensures Inv(ChangePasswordStep(s, account, matches, hash, now).0)
  {
    hide Lineage, Paths, OnlyRevokes;
    var (t, reply) := ChangePasswordStep(s, account, matches, hash, now);
    if reply == Done {
      ResetKeeps(s, s, account, hash, now);
    } else {
      SessionsUntouched(s, t);
    }
  }

  lemma CreateRecoveryKeeps(s: State, actor: AccountID, permitted: bool, matches: bool, target: AccountID,
                            tenant: TenantID, eligible: bool, token: Token, expires: Time, now: Time)
    requires Inv(s)
    ensures Inv(CreateRecoveryStep(s, actor, permitted, matches, target, tenant, eligible, token, expires, now).0)
  {
    hide Lineage, Paths, OnlyRevokes;
    var t := CreateRecoveryStep(s, actor, permitted, matches, target, tenant, eligible, token, expires, now).0;
    SessionsUntouched(s, t);
  }

  lemma OperatorKeeps(s: State, permitted: bool, account: AccountID, hash: PasswordHash, now: Time)
    requires Inv(s)
    ensures Inv(RecoverAdministratorStep(s, account, hash, now).0)
    ensures Inv(ProvisionStep(s, permitted, account, hash, now).0)
  {
    hide Lineage, Paths, OnlyRevokes, ResetPassword;
    if account !in s.accounts {
      SessionsUntouched(s, ProvisionStep(s, permitted, account, hash, now).0);
    } else {
      ResetKeeps(s, s, account, hash, now);
      ResetKeeps(s, s.(accounts := s.accounts[account := s.accounts[account].(active := true)]), account, hash, now);
    }
  }

  lemma RevocationsKeep(s: State, pairs: set<(AccountID, FamilyID)>, now: Time)
    requires Inv(s)
    ensures Inv(RevokePairs(s, pairs, now))
  {
    hide Lineage, Paths, OnlyRevokes;
    PairsRevoke(s, pairs, now);
    RevokesKeep(s, RevokePairs(s, pairs, now));
  }

  lemma RevokeOthersKeeps(s: State, account: AccountID, token: Token, now: Time)
    requires Inv(s)
    ensures Inv(RevokeOthersStep(s, account, token, now).0)
  {
    hide Inv, RevokePairs;
    if token in s.access {
      RevocationsKeep(s, OtherFamilies(s, account, s.access[token].family), now);
    }
  }

  lemma StepKeeps(cfg: Config, s: State, e: Event, now: Time)
    requires Inv(s) && Enabled(s, e)
    ensures Inv(Step(cfg, s, e, now).0)
  {
    hide Lineage, Paths, ReadLoginStep, RecordFailureStep, IssueStep, RefreshStep, ChangePasswordStep,
         CreateRecoveryStep, CompleteRecoveryStep, RecoverAdministratorStep, ProvisionStep, RevokePairs,
         RevokeOthersStep;
    match e
    case ReadLogin(login, account, matches) => LoginKeeps(s, login, account, matches, now);
    case RecordFailure(login) => LoginKeeps(s, login, s.logins[login].account, false, now);
    case IssueSession(login, access, refresh, family) => IssueKeeps(cfg, s, login, access, refresh, family, now);
    case RefreshSession(token, access, refresh) => RefreshKeeps(cfg, s, token, access, refresh, now);
    case Logout(access, refresh) => RevocationsKeep(s, LogoutPairs(s, access, refresh), now);
    case ChangePassword(account, matches, hash) => ChangePasswordKeeps(s, account, matches, hash, now);
    case CreateRecovery(actor, permitted, matches, target, tenant, eligible, token, expires) =>
      CreateRecoveryKeeps(s, actor, permitted, matches, target, tenant, eligible, token, expires, now);
    case CompleteRecovery(token, eligible, hash) => CompleteRecoveryKeeps(s, token, eligible, hash, now);
    case RecoverAdministrator(account, hash) => OperatorKeeps(s, true, account, hash, now);
    case ProvisionMember(permitted, account, hash) => OperatorKeeps(s, permitted, account, hash, now);
    case CreateAccount(_, _) => SessionsUntouched(s, Step(cfg, s, e, now).0);
    case RevokeSession(account, family) => RevocationsKeep(s, {(account, family)}, now);
    case RevokeOtherSessions(account, token) => RevokeOthersKeeps(s, account, token, now);
  }

  lemma {:induction false} RunKeeps(cfg: Config, s: State, calls: seq<Call>)
    requires Inv(s) && Runs(cfg, s, calls)
    ensures Inv(After(cfg, s, calls))
    decreases |calls|
  {
    hide Inv, Step;
    if calls != [] {
      StepKeeps(cfg, s, calls[0].event, calls[0].now);
      RunKeeps(cfg, Step(cfg, s, calls[0].event, calls[0].now).0, calls[1..]);
    }
  }

  // The verified login an unrevoked session descends from.
  ghost predicate DescendsFrom(s: State, account: AccountID, family: FamilyID, login: LoginID) {
    && family in s.families && s.families[family].login == login && login in s.logins && account in s.accounts
    && s.logins[login] == Login(account, s.accounts[account].hash, true)
  }

  // After any run from empty session tables, every unrevoked row descends from a login whose password
  // matched the hash its account has now.
  lemma LiveSessionsMatchPassword(cfg: Config, s: State, calls: seq<Call>)
    requires Initial(s) && Runs(cfg, s, calls)
    ensures var t := After(cfg, s, calls);
      && (forall k | k in t.access && t.access[k].revokedAt.None? ::
            exists login :: DescendsFrom(t, t.access[k].account, t.access[k].family, login))
      && (forall k | k in t.refresh && t.refresh[k].revokedAt.None? ::
            exists login :: DescendsFrom(t, t.refresh[k].account, t.refresh[k].family, login))
  {
    RunKeeps(cfg, s, calls);
    var t := After(cfg, s, calls);
    forall k | k in t.access && t.access[k].revokedAt.None?
      ensures exists login :: DescendsFrom(t, t.access[k].account, t.access[k].family, login)
    {
      assert AccessLineage(t, k);
      assert DescendsFrom(t, t.access[k].account, t.access[k].family, t.families[t.access[k].family].login);
    }
    forall k | k in t.refresh && t.refresh[k].revokedAt.None?
      ensures exists login :: DescendsFrom(t, t.refresh[k].account, t.refresh[k].family, login)
    {
      assert RefreshLineage(t, k);
      assert DescendsFrom(t, t.refresh[k].account, t.refresh[k].family, t.families[t.refresh[k].family].login);
    }
  }

  // ---------- Rotation ----------

  // The refresh tokens of a family are one path of rotation links, or all dead after a credential change.
  lemma FamilyIsPath(cfg: Config, s: State, calls: seq<Call>, family: FamilyID)
    requires Initial(s) && Runs(cfg, s, calls) && family in After(cfg, s, calls).families
    ensures PathOrEnded(After(cfg, s, calls), family)
    ensures var t := After(cfg, s, calls);
      forall k, l | k in t.refresh && l in t.refresh && t.refresh[k].family == t.refresh[l].family == family
      && t.refresh[k].revokedAt.None? && t.refresh[l].revokedAt.None? ::
        k == l
  {
    RunKeeps(cfg, s, calls);
    var t := After(cfg, s, calls);
    forall k, l | k in t.refresh && l in t.refresh && t.refresh[k].family == t.refresh[l].family == family
    && t.refresh[k].revokedAt.None? && t.refresh[l].revokedAt.None?
      ensures k == l
    {
      OneLive(t, k, l);
    }
  }

  // Presenting a token that was already rotated ends every session of the active account.
  lemma ReplayRevokesAll(cfg: Config, s: State, token: Token, access: Token, next: Token, now: Time)
    requires Enabled(s, RefreshSession(token, access, next)) && token in s.refresh && s.refresh[token].rotatedTo.Some?
    requires ActiveAccount(s, s.refresh[token].account)
    ensures var (t, reply) := Step(cfg, s, RefreshSession(token, access, next), now);
      && reply == SessionInvalid
      && AllRevoked(t, s.refresh[token].account)
      && OnlyRevokes(s, t)
      && t.accounts == s.accounts
  {
    ReuseRevokes(s, s.refresh[token].account, now);
  }

  // Once revoked, a token stays revoked.
  predicate Spent(s: State, token: Token) {
    token in s.refresh && s.refresh[token].revokedAt.Some?
  }

  lemma SpentStays(cfg: Config, s: State, token: Token, e: Event, now: Time)
    requires Spent(s, token) && Enabled(s, e)
    ensures Spent(Step(cfg, s, e, now).0, token)
    ensures e.RefreshSession? && e.token == token ==> Step(cfg, s, e, now).1 != Done
  {
    hide RefreshStep, ResetPassword, RevokePairs, IssueStep;
    match e
    case RefreshSession(other, access, next) => RefreshStaysSpent(cfg, s, token, other, access, next, now);
    case IssueSession(login, access, refresh, family) =>
      IssueStaysSpent(cfg, s, token, login, access, refresh, family, now);
    case Logout(access, refresh) => PairsStaySpent(s, token, LogoutPairs(s, access, refresh), now);
    case RevokeSession(account, family) => PairsStaySpent(s, token, {(account, family)}, now);
    case RevokeOtherSessions(account, bearer) =>
      if bearer in s.access {
        PairsStaySpent(s, token, OtherFamilies(s, account, s.access[bearer].family), now);
      }
    case ChangePassword(account, _, hash) =>
      if account in s.accounts {
        ResetStaysSpent(s, token, account, hash, now);
      }
    case RecoverAdministrator(account, hash) =>
      if account in s.accounts {
        ResetStaysSpent(s, token, account, hash, now);
      }
    case ProvisionMember(permitted, account, hash) =>
      if account in s.accounts {
        ResetStaysSpent(s.(accounts := s.accounts[account := s.accounts[account].(active := true)]), token, account,
                        hash, now);
      }
    case CompleteRecovery(recovery, _, hash) =>
      if recovery in s.recoveries && s.recoveries[recovery].account in s.accounts {
        ResetStaysSpent(s.(recoveries := s.recoveries[recovery := s.recoveries[recovery].(consumed := true)]), token,
                        s.recoveries[recovery].account, hash, now);
      }
    case _ =>
  }

  lemma RefreshStaysSpent(cfg: Config, s: State, token: Token, other: Token, access: Token, next: Token, now: Time)
    requires Spent(s, token) && next !in s.refresh
    ensures Spent(RefreshStep(cfg, s, other, access, next, now).0, token)
    ensures other == token ==> RefreshStep(cfg, s, other, access, next, now).1 != Done
  {
  }

  lemma IssueStaysSpent(cfg: Config, s: State, token: Token, login: LoginID, access: Token, refresh: Token,
                        family: FamilyID, now: Time)
    requires Spent(s, token) && login in s.logins && refresh !in s.refresh
    ensures Spent(IssueStep(cfg, s, login, access, refresh, family, now).0, token)
  {
  }

  lemma PairsStaySpent(s: State, token: Token, pairs: set<(AccountID, FamilyID)>, now: Time)
    requires Spent(s, token)
    ensures Spent(RevokePairs(s, pairs, now), token)
  {
  }

  lemma ResetStaysSpent(s: State, token: Token, account: AccountID, hash: PasswordHash, now: Time)
    requires Spent(s, token) && account in s.accounts
    ensures Spent(ResetPassword(s, account, hash, now), token)
  {
  }

  lemma {:induction false} SpentNeverRedeemed(cfg: Config, s: State, calls: seq<Call>, token: Token, j: nat)
    requires Spent(s, token) && Runs(cfg, s, calls) && j < |calls| && calls[j].event.RefreshSession?
    requires calls[j].event.token == token
    ensures Replies(cfg, s, calls)[j] != Done
    decreases |calls|
  {
    hide Step;
    SpentStays(cfg, s, token, calls[0].event, calls[0].now);
    if j > 0 {
      SpentNeverRedeemed(cfg, Step(cfg, s, calls[0].event, calls[0].now).0, calls[1..], token, j - 1);
    }
  }

  lemma RedeemingSpends(cfg: Config, s: State, e: Event, now: Time)
    requires Enabled(s, e) && e.RefreshSession? && Step(cfg, s, e, now).1 == Done
    ensures Spent(Step(cfg, s, e, now).0, e.token)
  {
  }

  // Over a whole run, no refresh token is redeemed twice.
  lemma {:induction false} RedeemedAtMostOnce(cfg: Config, s: State, calls: seq<Call>, i: nat, j: nat)
    requires Runs(cfg, s, calls) && i < j < |calls| && calls[i].event.RefreshSession? && calls[j].event.RefreshSession?
    requires calls[i].event.token == calls[j].event.token
    ensures !(Replies(cfg, s, calls)[i] == Done && Replies(cfg, s, calls)[j] == Done)
    decreases |calls|
  {
    hide Step;
    var (next, reply) := Step(cfg, s, calls[0].event, calls[0].now);
    if i > 0 {
      RedeemedAtMostOnce(cfg, next, calls[1..], i - 1, j - 1);
    } else if reply == Done {
      RedeemingSpends(cfg, s, calls[0].event, calls[0].now);
      SpentNeverRedeemed(cfg, next, calls[1..], calls[0].event.token, j - 1);
    }
  }

  // ---------- Credential changes ----------

  // The account whose password the event replaces, if it succeeds.
  function ChangedAccount(s: State, e: Event): Option<AccountID> {
    match e
    case ChangePassword(account, _, _) => Some(account)
    case CompleteRecovery(token, _, _) => if token in s.recoveries then Some(s.recoveries[token].account) else None
    case RecoverAdministrator(account, _) => Some(account)
    case ProvisionMember(_, account, _) => Some(account)
    case _ => None
  }

  lemma CredentialChangeEndsSessions(cfg: Config, s: State, e: Event, now: Time)
    requires Enabled(s, e) && ChangedAccount(s, e).Some? && ChangedAccount(s, e).value in s.accounts
    requires Step(cfg, s, e, now).1 == Done
    ensures var (t, account) := (Step(cfg, s, e, now).0, ChangedAccount(s, e).value);
      && AllDead(t, account) && account in t.accounts && t.accounts[account].hash == e.hash
      && (forall k | k in t.recoveries && t.recoveries[k].account == account ::
            t.recoveries[k].consumed || t.recoveries[k].revoked)
  {
    var account := ChangedAccount(s, e).value;
    match e
    case ChangePassword(_, _, hash) => ResetRevokes(s, s, account, hash, now);
    case CompleteRecovery(token, _, hash) =>
      ResetRevokes(s, s.(recoveries := s.recoveries[token := s.recoveries[token].(consumed := true)]), account, hash,
                   now);
    case RecoverAdministrator(_, hash) => ResetRevokes(s, s, account, hash, now);
    case ProvisionMember(_, _, hash) =>
      ResetRevokes(s, s.(accounts := s.accounts[account := s.accounts[account].(active := true)]), account, hash, now);
  }

  // Every row of the family is revoked and has no link.
  ghost predicate FamilyDead(s: State, family: FamilyID) {
    && family in s.families
    && (forall t | t in s.access && s.access[t].family == family :: s.access[t].revokedAt.Some?)
    && (forall t | t in s.refresh && s.refresh[t].family == family :: DeadRow(s, t))
  }

  lemma DeadAccountDeadFamily(s: State, account: AccountID, family: FamilyID)
    requires Lineage(s) && AllDead(s, account) && family in s.families && s.families[family].login in s.logins
    requires s.logins[s.families[family].login].account == account
    ensures FamilyDead(s, family)
  {
    forall t | t in s.access && s.access[t].family == family ensures s.access[t].revokedAt.Some? {
      assert AccessLineage(s, t);
    }
    forall t | t in s.refresh && s.refresh[t].family == family ensures DeadRow(s, t) {
      assert RefreshLineage(s, t);
    }
  }

  // Rows lose at most their link and their life, none appears in the family.
  ghost predicate FamilyOnlyLoses(s: State, t: State, family: FamilyID) {
    && family in t.families
    && (forall k | k in t.access && t.access[k].family == family ::
          k in s.access && AccessWeakened(s.access[k], t.access[k]))
    && (forall k | k in t.refresh && t.refresh[k].family == family ::
          && k in s.refresh
          && RefreshWeakened(s.refresh[k], t.refresh[k])
          && (s.refresh[k].rotatedTo.None? ==> t.refresh[k].rotatedTo.None?))
  }

  lemma LosingStaysDead(s: State, t: State, family: FamilyID)
    requires FamilyDead(s, family) && FamilyOnlyLoses(s, t, family)
    ensures FamilyDead(t, family)
  {
    forall k | k in t.refresh && t.refresh[k].family == family ensures DeadRow(t, k) {
      assert RefreshWeakened(s.refresh[k], t.refresh[k]) && DeadRow(s, k);
    }
    forall k | k in t.access && t.access[k].family == family ensures t.access[k].revokedAt.Some? {
      assert AccessWeakened(s.access[k], t.access[k]);
    }
  }

  lemma IssueLeavesDead(cfg: Config, s: State, family: FamilyID, e: Event, now: Time)
    requires FamilyDead(s, family) && Enabled(s, e) && e.IssueSession?
    ensures FamilyDead(Step(cfg, s, e, now).0, family)
  {
    hide DeadRow;
    LosingStaysDead(s, Step(cfg, s, e, now).0, family);
  }

  lemma RefreshLeavesDead(cfg: Config, s: State, family: FamilyID, token: Token, access: Token, next: Token, now: Time)
    requires FamilyDead(s, family) && access !in s.access && next !in s.refresh
    ensures FamilyDead(RefreshStep(cfg, s, token, access, next, now).0, family)
  {
    hide FamilyOnlyLoses;
    var t := RefreshStep(cfg, s, token, access, next, now).0;
    if token in s.refresh && s.refresh[token].family == family {
      assert DeadRow(s, token);
    } else {
      RefreshElsewhere(cfg, s, family, token, access, next, now);
      LosingStaysDead(s, t, family);
    }
  }

  lemma RefreshElsewhere(cfg: Config, s: State, family: FamilyID, token: Token, access: Token, next: Token, now: Time)
    requires family in s.families && access !in s.access && next !in s.refresh
    requires !(token in s.refresh && s.refresh[token].family == family)
    ensures FamilyOnlyLoses(s, RefreshStep(cfg, s, token, access, next, now).0, family)
  {
    hide FamilyOnlyLoses, ReuseDetected, RevokeRefresh, Rotate;
    NothingLost(s, family);
    if token in s.refresh {
      ReuseLoses(s, s.refresh[token].account, now, family);
      ExpiryLoses(s, token, now, family);
      RotateLoses(cfg, s, token, access, next, now, family);
    }
  }

  lemma NothingLost(s: State, family: FamilyID)
    requires family in s.families
    ensures FamilyOnlyLoses(s, s, family)
  {
  }

  lemma ReuseLoses(s: State, account: AccountID, now: Time, family: FamilyID)
    requires family in s.families
    ensures FamilyOnlyLoses(s, ReuseDetected(s, account, now), family)
  {
  }

  lemma ExpiryLoses(s: State, token: Token, now: Time, family: FamilyID)
    requires family in s.families
    ensures FamilyOnlyLoses(s, s.(refresh := RevokeRefresh(s.refresh, {token}, now)), family)
  {
  }

  lemma RotateLoses(cfg: Config, s: State, token: Token, access: Token, next: Token, now: Time, family: FamilyID)
    requires family in s.families && token in s.refresh && s.refresh[token].family != family && access !in s.access
    requires next !in s.refresh
    ensures FamilyOnlyLoses(s, Rotate(cfg, s, token, access, next, now), family)
  {
  }

  lemma ResetLeavesDead(base: State, s: State, account: AccountID, hash: PasswordHash, now: Time, family: FamilyID)
    requires FamilyDead(base, family) && account in s.accounts
    requires s == base.(accounts := s.accounts, recoveries := s.recoveries)
    ensures FamilyDead(ResetPassword(s, account, hash, now), family)
  {
    hide DeadRow;
    LosingStaysDead(base, ResetPassword(s, account, hash, now), family);
  }

  lemma PairsLeaveDead(s: State, pairs: set<(AccountID, FamilyID)>, now: Time, family: FamilyID)
    requires FamilyDead(s, family)
    ensures FamilyDead(RevokePairs(s, pairs, now), family)
  {
    hide DeadRow;
    LosingStaysDead(s, RevokePairs(s, pairs, now), family);
  }

  lemma DeadStays(cfg: Config, s: State, family: FamilyID, e: Event, now: Time)
    requires FamilyDead(s, family) && Enabled(s, e)
    ensures FamilyDead(Step(cfg, s, e, now).0, family)
  {
    hide RefreshStep, IssueStep, ResetPassword, RevokePairs;
    match e
    case IssueSession(_, _, _, _) => IssueLeavesDead(cfg, s, family, e, now);
    case RefreshSession(token, access, next) => RefreshLeavesDead(cfg, s, family, token, access, next, now);
    case Logout(access, refresh) => PairsLeaveDead(s, LogoutPairs(s, access, refresh), now, family);
    case RevokeSession(account, other) => PairsLeaveDead(s, {(account, other)}, now, family);
    case RevokeOtherSessions(account, token) =>
      if token in s.access {
        PairsLeaveDead(s, OtherFamilies(s, account, s.access[token].family), now, family);
      }
    case ChangePassword(account, _, hash) =>
      if account in s.accounts {
        ResetLeavesDead(s, s, account, hash, now, family);
      }
    case RecoverAdministrator(account, hash) =>
      if account in s.accounts {
        ResetLeavesDead(s, s, account, hash, now, family);
      }
    case ProvisionMember(permitted, account, hash) =>
      if account in s.accounts {
        ResetLeavesDead(s, s.(accounts := s.accounts[account := s.accounts[account].(active := true)]), account, hash,
                        now, family);
      }
    case CompleteRecovery(token, _, hash) =>
      if token in s.recoveries && s.recoveries[token].account in s.accounts {
        ResetLeavesDead(s, s.(recoveries := s.recoveries[token := s.recoveries[token].(consumed := true)]),
                        s.recoveries[token].account, hash, now, family);
      }
    case _ =>
  }

  lemma {:induction false} DeadForever(cfg: Config, s: State, family: FamilyID, calls: seq<Call>)
    requires FamilyDead(s, family) && Runs(cfg, s, calls)
    ensures FamilyDead(After(cfg, s, calls), family)
    decreases |calls|
  {
    hide FamilyDead, Step;
    if calls != [] {
      DeadStays(cfg, s, family, calls[0].event, calls[0].now);
      DeadForever(cfg, Step(cfg, s, calls[0].event, calls[0].now).0, family, calls[1..]);
    }
  }

  // The check that guards every request made with an access token.
  predicate Authenticated(s: State, token: Token, now: Time) {
    && token in s.access
    && s.access[token].revokedAt.None?
    && s.access[token].expires > now
    && ActiveAccount(s, s.access[token].account)
  }

  // Every use of the access token fails and changes nothing.
  ghost predicate InertAccess(cfg: Config, s: State, token: Token) {
    && (forall now :: !Authenticated(s, token, now))
    && (forall now :: Step(cfg, s, Logout(Some(token), None), now) == (s, Done))
    && (forall account, now :: Step(cfg, s, RevokeOtherSessions(account, token), now) == (s, SessionInvalid))
  }

  // Every use of the refresh token fails and changes nothing; above all it is no replay.
  ghost predicate InertRefresh(cfg: Config, s: State, token: Token) {
    && (forall access, next, now | Enabled(s, RefreshSession(token, access, next)) ::
          Step(cfg, s, RefreshSession(token, access, next), now) == (s, SessionInvalid))
    && (forall now :: Step(cfg, s, Logout(None, Some(token)), now) == (s, Done))
  }

  lemma RevokingDead(s: State, family: FamilyID, pairs: set<(AccountID, FamilyID)>, now: Time)
    requires FamilyDead(s, family) && forall p | p in pairs :: p.1 == family
    ensures RevokePairs(s, pairs, now) == s
  {
    var t := RevokePairs(s, pairs, now);
    forall k | k in s.refresh ensures t.refresh[k] == s.refresh[k] {
      assert s.refresh[k].family == family ==> DeadRow(s, k);
    }
    assert t.refresh == s.refresh && t.access == s.access;
  }

  lemma DeadAccessInert(cfg: Config, s: State, token: Token)
    requires token in s.access && FamilyDead(s, s.access[token].family)
    ensures InertAccess(cfg, s, token)
  {
    forall now ensures Step(cfg, s, Logout(Some(token), None), now) == (s, Done) {
      RevokingDead(s, s.access[token].family, LogoutPairs(s, Some(token), None), now);
    }
  }

  lemma DeadRefreshInert(cfg: Config, s: State, token: Token)
    requires token in s.refresh && FamilyDead(s, s.refresh[token].family)
    ensures InertRefresh(cfg, s, token)
  {
    assert DeadRow(s, token);
    forall now ensures Step(cfg, s, Logout(None, Some(token)), now) == (s, Done) {
      RevokingDead(s, s.refresh[token].family, LogoutPairs(s, None, Some(token)), now);
    }
  }

  // Rows are never deleted and never change family.
  ghost predicate RowsKept(s: State, t: State) {
    && (forall k | k in s.access :: k in t.access && t.access[k].family == s.access[k].family)
    && (forall k | k in s.refresh :: k in t.refresh && t.refresh[k].family == s.refresh[k].family)
  }

  lemma RefreshKeepsRows(cfg: Config, s: State, token: Token, access: Token, next: Token, now: Time)
    requires access !in s.access && next !in s.refresh
    ensures RowsKept(s, RefreshStep(cfg, s, token, access, next, now).0)
  {
    hide RowsKept, ReuseDetected, RevokeRefresh, Rotate;
    SameRowsKept(s, s);
    if token in s.refresh {
      ReuseKeepsRows(s, s.refresh[token].account, now);
      ExpiryKeepsRows(s, token, now);
      RotateKeepsRows(cfg, s, token, access, next, now);
    }
  }

  lemma ReuseKeepsRows(s: State, account: AccountID, now: Time)
    ensures RowsKept(s, ReuseDetected(s, account, now))
  {
  }

  lemma ExpiryKeepsRows(s: State, token: Token, now: Time)
    ensures RowsKept(s, s.(refresh := RevokeRefresh(s.refresh, {token}, now)))
  {
  }

  lemma RotateKeepsRows(cfg: Config, s: State, token: Token, access: Token, next: Token, now: Time)
    requires token in s.refresh && access !in s.access && next !in s.refresh
    ensures RowsKept(s, Rotate(cfg, s, token, access, next, now))
  {
  }

  lemma ResetKeepsRows(s: State, account: AccountID, hash: PasswordHash, now: Time)
    requires account in s.accounts
    ensures RowsKept(s, ResetPassword(s, account, hash, now))
  {
  }

  lemma PairsKeepRows(s: State, pairs: set<(AccountID, FamilyID)>, now: Time)
    ensures RowsKept(s, RevokePairs(s, pairs, now))
  {
  }

  lemma IssueKeepsRows(cfg: Config, s: State, login: LoginID, access: Token, refresh: Token, family: FamilyID,
                       now: Time)
    requires login in s.logins && access !in s.access && refresh !in s.refresh
    ensures RowsKept(s, IssueStep(cfg, s, login, access, refresh, family, now).0)
  {
  }

  lemma SameRowsKept(s: State, t: State)
    requires t.access == s.access && t.refresh == s.refresh
    ensures RowsKept(s, t)
  {
  }

  lemma RowsKeptThrough(s: State, middle: State, t: State)
    requires middle.access == s.access && middle.refresh == s.refresh && RowsKept(middle, t)
    ensures RowsKept(s, t)
  {
  }

  lemma StepKeepsRows(cfg: Config, s: State, e: Event, now: Time)
    requires Enabled(s, e)
    ensures RowsKept(s, Step(cfg, s, e, now).0)
  {
    hide RefreshStep, ResetPassword, RevokePairs, IssueStep, RowsKept;
    SameRowsKept(s, s);
    match e
    case IssueSession(login, access, refresh, family) => IssueKeepsRows(cfg, s, login, access, refresh, family, now);
    case RefreshSession(token, access, next) => RefreshKeepsRows(cfg, s, token, access, next, now);
    case Logout(access, refresh) => PairsKeepRows(s, LogoutPairs(s, access, refresh), now);
    case RevokeSession(account, family) => PairsKeepRows(s, {(account, family)}, now);
    case RevokeOtherSessions(account, token) =>
      if token in s.access {
        PairsKeepRows(s, OtherFamilies(s, account, s.access[token].family), now);
      }
    case ChangePassword(account, _, hash) =>
      if Step(cfg, s, e, now).1 != Done {
        SameRowsKept(s, Step(cfg, s, e, now).0);
      } else {
        ResetKeepsRows(s, account, hash, now);
      }
    case RecoverAdministrator(account, hash) =>
      if account in s.accounts {
        ResetKeepsRows(s, account, hash, now);
      }
    case ProvisionMember(permitted, account, hash) =>
      if account in s.accounts {
        var active := s.(accounts := s.accounts[account := s.accounts[account].(active := true)]);
        ResetKeepsRows(active, account, hash, now);
        RowsKeptThrough(s, active, ResetPassword(active, account, hash, now));
      } else {
        SameRowsKept(s, Step(cfg, s, e, now).0);
      }
    case CompleteRecovery(token, _, hash) =>
      if token in s.recoveries && s.recoveries[token].account in s.accounts {
        var consumed := s.(recoveries := s.recoveries[token := s.recoveries[token].(consumed := true)]);
        ResetKeepsRows(consumed, s.recoveries[token].account, hash, now);
        RowsKeptThrough(s, consumed, ResetPassword(consumed, s.recoveries[token].account, hash, now));
      }
    case _ => SameRowsKept(s, Step(cfg, s, e, now).0);
  }

  lemma {:induction false} RunKeepsRows(cfg: Config, s: State, calls: seq<Call>)
    requires Runs(cfg, s, calls)
    ensures RowsKept(s, After(cfg, s, calls))
    decreases |calls|
  {
    hide Step;
    if calls != [] {
      StepKeepsRows(cfg, s, calls[0].event, calls[0].now);
      RunKeepsRows(cfg, Step(cfg, s, calls[0].event, calls[0].now).0, calls[1..]);
    }
  }

  // A successful credential change kills the families of its account.
  lemma ChangeKillsFamily(cfg: Config, s: State, e: Event, now: Time, family: FamilyID)
    requires Inv(s) && Enabled(s, e) && ChangedAccount(s, e).Some? && Step(cfg, s, e, now).1 == Done
    requires RowLineage(s, ChangedAccount(s, e).value, family, false)
    ensures FamilyDead(Step(cfg, s, e, now).0, family)
  {
    hide Lineage, Paths, FamilyDead, AllDead;
    CredentialChangeEndsSessions(cfg, s, e, now);
    StepKeeps(cfg, s, e, now);
    var t := Step(cfg, s, e, now).0;
    assert t.families == s.families && t.logins == s.logins;
    DeadAccountDeadFamily(t, ChangedAccount(s, e).value, family);
  }

  lemma LineageOfDead(s: State, account: AccountID, family: FamilyID, live: bool)
    requires RowLineage(s, account, family, live)
    ensures RowLineage(s, account, family, false)
  {
  }

  // A token issued before a credential change of its account does nothing in any later run.
  lemma InertForever(cfg: Config, s: State, e: Event, now: Time, calls: seq<Call>)
    requires Inv(s) && Enabled(s, e) && ChangedAccount(s, e).Some? && Step(cfg, s, e, now).1 == Done
    requires Runs(cfg, Step(cfg, s, e, now).0, calls)
    ensures var (t, account) := (After(cfg, Step(cfg, s, e, now).0, calls), ChangedAccount(s, e).value);
      && (forall k | k in s.access && s.access[k].account == account :: InertAccess(cfg, t, k))
      && (forall k | k in s.refresh && s.refresh[k].account == account :: InertRefresh(cfg, t, k))
  {
    hide Step, FamilyDead, RowLineage, InertAccess, InertRefresh;
    var (next, account) := (Step(cfg, s, e, now).0, ChangedAccount(s, e).value);
    var t := After(cfg, next, calls);
    StepKeepsRows(cfg, s, e, now);
    RunKeepsRows(cfg, next, calls);
    forall k | k in s.access && s.access[k].account == account ensures InertAccess(cfg, t, k) {
      assert AccessLineage(s, k);
      LineageOfDead(s, account, s.access[k].family, s.access[k].revokedAt.None?);
      ChangeKillsFamily(cfg, s, e, now, s.access[k].family);
      DeadForever(cfg, next, s.access[k].family, calls);
      DeadAccessInert(cfg, t, k);
    }
    forall k | k in s.refresh && s.refresh[k].account == account ensures InertRefresh(cfg, t, k) {
      assert RefreshLineage(s, k);
      LineageOfDead(s, account, s.refresh[k].family, s.refresh[k].revokedAt.None?);
      ChangeKillsFamily(cfg, s, e, now, s.refresh[k].family);
      DeadForever(cfg, next, s.refresh[k].family, calls);
      DeadRefreshInert(cfg, t, k);
    }
  }

  // ---------- Password recoveries ----------

  predicate Unused(r: Recovery) {
    !r.consumed && !r.revoked
  }

  // An account has at most one recovery that could still be completed.
  ghost predicate OneRecovery(s: State) {
    forall k, l | k in s.recoveries && l in s.recoveries && Unused(s.recoveries[k]) && Unused(s.recoveries[l])
    && s.recoveries[k].account == s.recoveries[l].account ::
      k == l
  }

  // Recoveries are only ever closed, except that one opens for an account without another.
  ghost predicate RecoveriesClose(before: map<Token, Recovery>, after: map<Token, Recovery>, created: Option<Token>) {
    && (forall k | k in before ::
          k in after && after[k].account == before[k].account && (Unused(after[k]) ==> Unused(before[k])))
    && (forall k | k in after && k !in before :: created == Some(k))
    && (created.Some? ==> created.value !in before && created.value in after)
    && (created.Some? ==>
          forall k | k in before && before[k].account == after[created.value].account :: !Unused(after[k]))
  }

  function NewRecovery(s: State, e: Event, now: Time): Option<Token> {
    if e.CreateRecovery? && CreateRecoveryStep(s, e.actor, e.permitted, e.passwordMatches, e.target, e.tenant,
                                               e.eligible, e.recoveryToken, e.expires, now).1 == Done
    then Some(e.recoveryToken) else None
  }

  lemma ClosingCloses(m: map<Token, Recovery>, account: AccountID)
    ensures RecoveriesClose(m, m, None) && RecoveriesClose(m, CloseRecoveries(m, account), None)
  {
  }

  lemma CompletionCloses(m: map<Token, Recovery>, token: Token)
    requires token in m
    ensures RecoveriesClose(m, CloseRecoveries(m[token := m[token].(consumed := true)], m[token].account), None)
  {
  }

  lemma CreationCloses(m: map<Token, Recovery>, token: Token, r: Recovery)
    requires token !in m
    ensures RecoveriesClose(m, CloseRecoveries(m, r.account)[token := r], Some(token))
  {
  }

  lemma StepClosesRecoveries(cfg: Config, s: State, e: Event, now: Time)
    requires Enabled(s, e)
    ensures RecoveriesClose(s.recoveries, Step(cfg, s, e, now).0.recoveries, NewRecovery(s, e, now))
  {
    hide RecoveriesClose, CloseRecoveries, RevokeAccess, RevokeRefresh, EndLineage, LogoutPairs, OtherFamilies,
         AccessIn, RefreshIn, AccessOf, RefreshOf, Unused, Extended;
    var changed := ChangedAccount(s, e);
    ClosingCloses(s.recoveries, if changed.Some? then changed.value else "");
    match e
    case CompleteRecovery(token, _, _) =>
      if token in s.recoveries {
        CompletionCloses(s.recoveries, token);
      }
    case CreateRecovery(_, _, _, target, tenant, _, token, expires) =>
      CreationCloses(s.recoveries, token, Recovery(target, tenant, expires, false, false));
    case _ =>
  }

  lemma StepKeepsOneRecovery(cfg: Config, s: State, e: Event, now: Time)
    requires OneRecovery(s) && Enabled(s, e)
    ensures OneRecovery(Step(cfg, s, e, now).0)
  {
    hide Step, NewRecovery, Unused;
    StepClosesRecoveries(cfg, s, e, now);
  }

  lemma {:induction false} RunKeepsOneRecovery(cfg: Config, s: State, calls: seq<Call>)
    requires OneRecovery(s) && Runs(cfg, s, calls)
    ensures OneRecovery(After(cfg, s, calls))
    decreases |calls|
  {
    hide Step, OneRecovery;
    if calls != [] {
      StepKeepsOneRecovery(cfg, s, calls[0].event, calls[0].now);
      RunKeepsOneRecovery(cfg, Step(cfg, s, calls[0].event, calls[0].now).0, calls[1..]);
    }
  }

  predicate ClosedRecovery(s: State, token: Token) {
    token in s.recoveries && !Unused(s.recoveries[token])
  }

  lemma ClosedStays(cfg: Config, s: State, token: Token, e: Event, now: Time)
    requires ClosedRecovery(s, token) && Enabled(s, e)
    ensures ClosedRecovery(Step(cfg, s, e, now).0, token)
    ensures e.CompleteRecovery? && e.recovery == token ==> Step(cfg, s, e, now).1 != Done
  {
    hide RevokeAccess, RevokeRefresh, EndLineage, LogoutPairs, OtherFamilies, AccessIn, RefreshIn, AccessOf, RefreshOf;
    StepClosesRecoveries(cfg, s, e, now);
  }

  lemma CompletingCloses(cfg: Config, s: State, e: Event, now: Time)
    requires e.CompleteRecovery? && Step(cfg, s, e, now).1 == Done
    ensures ClosedRecovery(Step(cfg, s, e, now).0, e.recovery)
  {
  }

  lemma {:induction false} ClosedNeverCompletes(cfg: Config, s: State, calls: seq<Call>, token: Token, j: nat)
    requires ClosedRecovery(s, token) && Runs(cfg, s, calls) && j < |calls| && calls[j].event.CompleteRecovery?
    requires calls[j].event.recovery == token
    ensures Replies(cfg, s, calls)[j] != Done
    decreases |calls|
  {
    hide Step, ClosedRecovery;
    ClosedStays(cfg, s, token, calls[0].event, calls[0].now);
    if j > 0 {
      ClosedNeverCompletes(cfg, Step(cfg, s, calls[0].event, calls[0].now).0, calls[1..], token, j - 1);
    }
  }

  // Over a whole run, a recovery sets a password at most once.
  lemma {:induction false} RecoveryCompletesOnce(cfg: Config, s: State, calls: seq<Call>, i: nat, j: nat)
    requires Runs(cfg, s, calls) && i < j < |calls| && calls[i].event.CompleteRecovery?
    requires calls[j].event.CompleteRecovery?
    requires calls[i].event.recovery == calls[j].event.recovery
    ensures !(Replies(cfg, s, calls)[i] == Done && Replies(cfg, s, calls)[j] == Done)
    decreases |calls|
  {
    hide Step, ClosedRecovery;
    var (next, reply) := Step(cfg, s, calls[0].event, calls[0].now);
    if i > 0 {
      RecoveryCompletesOnce(cfg, next, calls[1..], i - 1, j - 1);
    } else if reply == Done {
      CompletingCloses(cfg, s, calls[0].event, calls[0].now);
      ClosedNeverCompletes(cfg, next, calls[1..], calls[0].event.recovery, j - 1);
    }
  }

  // ---------- Lockout ----------

  // Failed passwords one after the other, with nothing that resets the count in between.
  function Failures(a: Account, times: seq<Time>): Account {
    if times == [] then a else FailedPassword(Failures(a, times[..|times| - 1]), times[|times| - 1])
  }

  // Every fifth failure locks the account from that moment on.
  lemma {:induction false} FifthFailureLocks(a: Account, times: seq<Time>)
    requires a.failedLogins == 0
    ensures var b := Failures(a, times);
      && b == a.(failedLogins := |times| % LOCKOUT_ATTEMPTS, lockedUntil := b.lockedUntil)
      && (|times| < LOCKOUT_ATTEMPTS ==> b.lockedUntil == a.lockedUntil)
      && (|times| >= LOCKOUT_ATTEMPTS ==>
            b.lockedUntil == Some(times[|times| - |times| % LOCKOUT_ATTEMPTS - 1] + LOCKOUT_TIME))
  {
    if times != [] {
      FifthFailureLocks(a, times[..|times| - 1]);
    }
  }

  // The account whose password the event checks or relies on.
  function CheckedAccount(s: State, e: Event): Option<AccountID> {
    match e
    case ReadLogin(_, account, _) => Some(account)
    case IssueSession(login, _, _, _) => if login in s.logins then Some(s.logins[login].account) else None
    case ChangePassword(account, _, _) => Some(account)
    case CreateRecovery(actor, _, _, _, _, _, _, _) => Some(actor)
    case _ => None
  }

  // While it is locked, no password of the account is accepted, not even one verified before the lock.
  lemma LockedAcceptsNothing(cfg: Config, s: State, e: Event, now: Time)
    requires Enabled(s, e) && CheckedAccount(s, e).Some? && CheckedAccount(s, e).value in s.accounts
    requires Locked(s.accounts[CheckedAccount(s, e).value], now)
    ensures Step(cfg, s, e, now).0 == s && Step(cfg, s, e, now).1 != Done
  {
  }
}
