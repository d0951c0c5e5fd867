/** The credential transactions as the service performs them, statement by statement on the tables. */
module CredentialStore {
  import opened Wrappers
  import opened Credentials

  class Database {
    var accounts: map<AccountID, Account>
    var access: map<Token, Access>
    var refresh: map<Token, Refresh>
    var recoveries: map<Token, Recovery>
    ghost var logins: map<LoginID, Login>
    ghost var families: map<FamilyID, Family>

    ghost function Value(): State
      reads this
    {
      State(accounts, access, refresh, recoveries, logins, families)
    }

    constructor (seed: map<AccountID, Account>)
      ensures Value() == State(seed, map[], map[], map[], map[], map[])
    {
      accounts, access, refresh, recoveries := seed, map[], map[], map[];
      logins, families := map[], map[];
    }

    // ---------- Login ----------

    method ReadLogin(ghost login: LoginID, account: AccountID, passwordMatches: bool, now: Time) returns (reply: Reply)
      requires login !in logins
      modifies this
      ensures (Value(), reply) == Credentials.ReadLoginStep(old(Value()), login, account, passwordMatches, now)
    {
      if account !in accounts {
        return InvalidCredentials;
      }
      var row := accounts[account];
      if !row.active {
        return InvalidCredentials;
      }
      if row.lockedUntil.Some? && row.lockedUntil.value > now {
        return AccountLocked;
      }
      logins := logins[login := Login(account, row.hash, passwordMatches)];
      reply := if passwordMatches then Done else InvalidCredentials;
    }

    // SET failed_login_count = CASE ..., locked_until = CASE ... WHERE account_id = account
    method FailPassword(account: AccountID, now: Time)
      modifies this`accounts
      ensures accounts == if account in old(accounts) then
                            old(accounts)[account := FailedPassword(old(accounts)[account], now)]
                          else old(accounts)
    {
      if account in accounts {
        var row := accounts[account];
        var fifth := row.failedLogins + 1 >= LOCKOUT_ATTEMPTS;
        accounts := accounts[account := row.(
          failedLogins := if fifth then 0 else row.failedLogins + 1,
          lockedUntil := if fifth then Some(now + LOCKOUT_TIME) else row.lockedUntil)];
      }
    }

    method RecordFailure(ghost login: LoginID, account: AccountID, now: Time) returns (reply: Reply)
      requires login in logins && logins[login].account == account
      modifies this
      ensures (Value(), reply) == RecordFailureStep(old(Value()), login, now)
    {
      FailPassword(account, now);
      reply := InvalidCredentials;
    }

    method InsertPair(cfg: Config, account: AccountID, family: FamilyID, accessToken: Token, refreshToken: Token,
                      now: Time)
      modifies this
      ensures Value() == InsertSessions(cfg, old(Value()), account, family, accessToken, refreshToken, now)
    {
      access := access[accessToken := Access(account, family, now + cfg.sessionTime, None)];
      refresh := refresh[refreshToken := Credentials.Refresh.Refresh(account, family, now + cfg.refreshTime, None,
                                                                     None)];
      families := Extended(families, family, refreshToken);
    }

    // The hash the login verified is compared with the hash under the row lock.
    method IssueSession(cfg: Config, ghost login: LoginID, account: AccountID, verifiedHash: PasswordHash,
                        accessToken: Token, refreshToken: Token, family: FamilyID, now: Time)
      returns (reply: Reply)
      requires Enabled(Value(), Event.IssueSession(login, accessToken, refreshToken, family))
      requires logins[login] == Login(account, verifiedHash, true)
      modifies this
      ensures (Value(), reply) == IssueStep(cfg, old(Value()), login, accessToken, refreshToken, family, now)
    {
      if account !in accounts {
        return NotFound;
      }
      var row := accounts[account];
      if row.hash != verifiedHash || !row.active {
        return InvalidCredentials;
      }
      if row.lockedUntil.Some? && row.lockedUntil.value > now {
        return AccountLocked;
      }
      accounts := accounts[account := row.(failedLogins := 0, lockedUntil := None)];
      families := families[family := Family(login, [])];
      InsertPair(cfg, account, family, accessToken, refreshToken, now);
      reply := Done;
    }

    // ---------- Refresh and logout ----------

    method Refresh(cfg: Config, token: Token, accessToken: Token, next: Token, now: Time) returns (reply: Reply)
      requires Enabled(Value(), RefreshSession(token, accessToken, next))
      modifies this
      ensures (Value(), reply) == RefreshStep(cfg, old(Value()), token, accessToken, next, now)
    {
      if token !in refresh {
        return SessionInvalid;
      }
      var row := refresh[token];
      if row.account !in accounts || !accounts[row.account].active {
        return SessionInvalid;
      }
      if row.rotatedTo.Some? {
        refresh := RevokeRefresh(refresh, (set t | t in refresh && refresh[t].account == row.account), now);
        access := RevokeAccess(access, (set t | t in access && access[t].account == row.account), now);
        return SessionInvalid;
      }
      if row.revokedAt.Some? {
        return SessionInvalid;
      }
      if row.expires <= now {
        refresh := refresh[token := row.(revokedAt := Some(now))];
        assert refresh == RevokeRefresh(old(refresh), {token}, now);
        return SessionInvalid;
      }
      refresh := refresh[token := row.(revokedAt := Some(now), rotatedTo := Some(next))];
      InsertPair(cfg, row.account, row.family, accessToken, next, now);
      reply := Done;
    }

    // SELECT account_id, session_id FROM access_sessions ... UNION SELECT ... FROM refresh_sessions ...
    function FamiliesOf(accessToken: Option<Token>, refreshToken: Option<Token>): set<(AccountID, FamilyID)>
      reads this
    {
      (if accessToken.Some? && accessToken.value in access then
         {(access[accessToken.value].account, access[accessToken.value].family)}
       else {})
      + (if refreshToken.Some? && refreshToken.value in refresh then {(refresh[refreshToken.value].account,
                                                                       refresh[refreshToken.value].family)} else {})
    }

    // The second statement reads the access table the first one wrote; the families it finds are the same.
    method LogoutSessions(accessToken: Option<Token>, refreshToken: Option<Token>, now: Time) returns (reply: Reply)
      modifies this
      ensures (Value(), reply) == (RevokePairs(old(Value()), LogoutPairs(old(Value()), accessToken, refreshToken),
                                               now), Done)
    {
      if accessToken.None? && refreshToken.None? {
        RevokingNothing(Value(), now);
        assert LogoutPairs(Value(), accessToken, refreshToken) == {};
        return Done;
      }
      var first := FamiliesOf(accessToken, refreshToken);
      access := RevokeAccess(access, (set t | t in access && (access[t].account, access[t].family) in first), now);
      var second := FamiliesOf(accessToken, refreshToken);
      refresh := RevokeRefresh(refresh, (set t | t in refresh && (refresh[t].account, refresh[t].family) in second),
                               now);
      reply := Done;
    }

    // ---------- Credential changes ----------

    // SET revoked_at = now WHERE account_id = account AND revoked_at IS NULL
    method RevokeAccessOf(account: AccountID, now: Time)
      modifies this`access
      ensures access == RevokeAccess(old(access), AccessOf(old(Value()), account), now)
    {
      access := map t | t in access ::
        if access[t].account == account && access[t].revokedAt.None? then access[t].(revokedAt := Some(now))
        else access[t];
    }

    // SET revoked_at = COALESCE(revoked_at, now), rotated_to = NULL
    // WHERE account_id = account AND (revoked_at IS NULL OR rotated_to IS NOT NULL)
    method EndLineageOf(account: AccountID, now: Time)
      modifies this`refresh
      ensures refresh == EndLineage(old(refresh), account, now)
    {
      refresh := map t | t in refresh ::
        if refresh[t].account == account && (refresh[t].revokedAt.None? || refresh[t].rotatedTo.Some?)
        then refresh[t].(revokedAt := Coalesce(refresh[t].revokedAt, now), rotatedTo := None) else refresh[t];
    }

    // SET revoked_at = now WHERE account_id = account AND consumed_at IS NULL AND revoked_at IS NULL
    method CloseRecoveriesOf(account: AccountID)
      modifies this`recoveries
      ensures recoveries == CloseRecoveries(old(recoveries), account)
    {
      recoveries := map t | t in recoveries ::
        if recoveries[t].account == account && !recoveries[t].consumed && !recoveries[t].revoked then
          recoveries[t].(revoked := true)
        else recoveries[t];
    }

    method RevokeCredentialSessions(account: AccountID, now: Time)
      modifies this`access, this`refresh, this`recoveries
      ensures Value() == RevokeCredentials(old(Value()), account, now)
    {
      RevokeAccessOf(account, now);
      EndLineageOf(account, now);
      CloseRecoveriesOf(account);
    }

    method ReplacePassword(account: AccountID, hash: PasswordHash, now: Time)
      requires account in accounts
      modifies this
      ensures Value() == ResetPassword(old(Value()), account, hash, now)
    {
      accounts := accounts[account := accounts[account].(hash := hash, failedLogins := 0, lockedUntil := None)];
      RevokeCredentialSessions(account, now);
    }

    method ChangePassword(account: AccountID, passwordMatches: bool, hash: PasswordHash, now: Time)
      returns (reply: Reply)
      modifies this
      ensures (Value(), reply) == ChangePasswordStep(old(Value()), account, passwordMatches, hash, now)
    {
      if account !in accounts || !accounts[account].active {
        return NotFound;
      }
      if Locked(accounts[account], now) {
        return AccountLocked;
      }
      if !passwordMatches {
        FailPassword(account, now);
        return InvalidCredentials;
      }
      ReplacePassword(account, hash, now);
      reply := Done;
    }

    method CreatePasswordRecovery(actor: AccountID, permitted: bool, passwordMatches: bool, target: AccountID,
                                  tenant: TenantID, eligible: bool, token: Token, expires: Time, now: Time)
      returns (reply: Reply)
      requires token !in recoveries
      modifies this
      ensures (Value(), reply) == CreateRecoveryStep(old(Value()), actor, permitted, passwordMatches, target, tenant,
                                                     eligible, token, expires, now)
    {
      if !permitted {
        return Forbidden;
      }
      if actor !in accounts || !accounts[actor].active || !accounts[actor].admin {
        return Forbidden;
      }
      if Locked(accounts[actor], now) {
        return AccountLocked;
      }
      if !passwordMatches {
        FailPassword(actor, now);
        return InvalidCredentials;
      }
      if target !in accounts || !accounts[target].active || accounts[target].admin || !eligible {
        return NotFound;
      }
      CloseRecoveriesOf(target);
      recoveries := recoveries[token := Recovery(target, tenant, expires, false, false)];
      accounts := accounts[actor := accounts[actor].(failedLogins := 0, lockedUntil := None)];
      reply := Done;
    }

    method RecoveryTarget(token: Token, now: Time) returns (target: Option<(TenantID, AccountID)>)
      ensures target.Some? <==> OpenRecovery(Value(), token, now)
      ensures target.Some? ==> target.value == (recoveries[token].tenant, recoveries[token].account)
    {
      if token in recoveries && !recoveries[token].consumed && !recoveries[token].revoked
         && recoveries[token].expires > now {
        return Some((recoveries[token].tenant, recoveries[token].account));
      }
      target := None;
    }

    // The token's owner and organization were read by RecoveryTarget, without a lock; they never change. The account
    // row is locked before the recovery row is consumed.
    method CompletePasswordRecovery(token: Token, account: AccountID, tenant: TenantID, eligible: bool,
                                    hash: PasswordHash, now: Time)
      returns (reply: Reply)
      requires token in recoveries && recoveries[token].account == account && recoveries[token].tenant == tenant
      modifies this
      ensures (Value(), reply) == CompleteRecoveryStep(old(Value()), token, eligible, hash, now)
    {
      if account !in accounts || !accounts[account].active || accounts[account].admin || !eligible {
        return NotFound;
      }
      var row := recoveries[token];
      if row.consumed || row.revoked || row.expires <= now {
        return NotFound;
      }
      recoveries := recoveries[token := row.(consumed := true)];
      ReplacePassword(account, hash, now);
      reply := Done;
    }

    method RecoverAdministrator(account: AccountID, hash: PasswordHash, now: Time) returns (reply: Reply)
      modifies this
      ensures (Value(), reply) == RecoverAdministratorStep(old(Value()), account, hash, now)
    {
      if account !in accounts || !accounts[account].active || !accounts[account].admin {
        return NotFound;
      }
      ReplacePassword(account, hash, now);
      reply := Done;
    }

    method ProvisionMember(permitted: bool, account: AccountID, hash: PasswordHash, now: Time) returns (reply: Reply)
      modifies this
      ensures (Value(), reply) == ProvisionStep(old(Value()), permitted, account, hash, now)
    {
      if !permitted {
        return Forbidden;
      }
      if account !in accounts {
        accounts := accounts[account := Account(hash, true, false, 0, None)];
        return Done;
      }
      if accounts[account].admin {
        return Forbidden;
      }
      accounts := accounts[account := accounts[account].(hash := hash, active := true, failedLogins := 0,
                                                         lockedUntil := None)];
      ghost var active := old(accounts)[account := old(accounts)[account].(active := true)];
      assert accounts == active[account := active[account].(hash := hash, failedLogins := 0, lockedUntil := None)];
      RevokeCredentialSessions(account, now);
      reply := Done;
    }

    // ---------- Device management ----------

    method RevokeSession(account: AccountID, family: FamilyID, now: Time) returns (reply: Reply)
      modifies this
      ensures (Value(), reply) == RevokeSessionStep(old(Value()), account, family, now)
    {
      if account !in accounts {
        return NotFound;
      }
      var inAccess := set t | t in access && access[t].account == account && access[t].family == family;
      access := RevokeAccess(access, inAccess, now);
      var inRefresh := set t | t in refresh && refresh[t].account == account && refresh[t].family == family;
      refresh := RevokeRefresh(refresh, inRefresh, now);
      assert && inAccess == AccessIn(old(Value()), {(account, family)})
             && inRefresh == RefreshIn(old(Value()), {(account, family)});
      if inAccess == {} && inRefresh == {} {
        // Nothing matched, so the rollback has nothing to undo.
        assert access == old(access) && refresh == old(refresh);
        return NotFound;
      }
      reply := Done;
    }

    // Every unrevoked session of the account but the caller's own family.
    method RevokeOtherSessions(account: AccountID, token: Token, now: Time) returns (reply: Reply)
      modifies this
      ensures (Value(), reply) == RevokeOthersStep(old(Value()), account, token, now)
    {
      if account !in accounts || !accounts[account].active {
        return SessionInvalid;
      }
      if token !in access || access[token].account != account || access[token].revokedAt.Some?
         || access[token].expires <= now {
        return SessionInvalid;
      }
      var current := access[token].family;
      access := map t | t in access ::
        if access[t].account == account && access[t].family != current && access[t].revokedAt.None? then
          access[t].(revokedAt := Some(now))
        else access[t];
      refresh := map t | t in refresh ::
        if refresh[t].account == account && refresh[t].family != current && refresh[t].revokedAt.None? then
          refresh[t].(revokedAt := Some(now))
        else refresh[t];
      ghost var s := old(Value());
      OthersAreOutside(s, account, current);
      assert access == RevokeAccess(s.access, AccessIn(s, OtherFamilies(s, account, current)), now);
      assert refresh == RevokeRefresh(s.refresh, RefreshIn(s, OtherFamilies(s, account, current)), now);
      reply := Done;
    }
  }

  lemma RevokingNothing(s: State, now: Time)
    ensures RevokePairs(s, {}, now) == s
  {
    var t := RevokePairs(s, {}, now);
    assert t.access == s.access && t.refresh == s.refresh;
  }

  // The rows of the account's other families are the account's rows outside the kept family.
  lemma OthersAreOutside(s: State, account: AccountID, keep: FamilyID)
    ensures forall t | t in s.access ::
      t in AccessIn(s, OtherFamilies(s, account, keep)) <==>
        s.access[t].account == account && s.access[t].family != keep
    ensures forall t | t in s.refresh ::
      t in RefreshIn(s, OtherFamilies(s, account, keep)) <==>
        s.refresh[t].account == account && s.refresh[t].family != keep
  {
  }
}
