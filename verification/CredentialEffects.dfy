/** What each credential transaction yields, and to whom: its answer and its effect on the tables. */
module CredentialEffects {
  import opened Wrappers
  import opened Credentials
  import CredentialRuns

  // ---------- Vocabulary ----------

  ghost predicate SameOutside<K(!new), V>(a: map<K, V>, b: map<K, V>, keys: set<K>) {
    && (forall k | k !in keys :: k in b <==> k in a)
    && (forall k | k in a && k !in keys :: b[k] == a[k])
  }

  ghost predicate MayLogIn(s: State, account: AccountID, now: Time) {
    && account in s.accounts && s.accounts[account].active
    && (s.accounts[account].lockedUntil.Some? ==> s.accounts[account].lockedUntil.value <= now)
  }

  // A revoked row keeps the time of its first revocation.
  predicate RevokedBy(before: Option<Time>, after: Option<Time>, now: Time) {
    after == Some(if before.Some? then before.value else now)
  }

  ghost predicate AccessRevoked(s: State, t: State, token: Token, now: Time)
    requires token in s.access
  {
    && token in t.access && RevokedBy(s.access[token].revokedAt, t.access[token].revokedAt, now)
    && t.access[token].(revokedAt := s.access[token].revokedAt) == s.access[token]
  }

  ghost predicate RefreshRevoked(s: State, t: State, token: Token, now: Time)
    requires token in s.refresh
  {
    && token in t.refresh && RevokedBy(s.refresh[token].revokedAt, t.refresh[token].revokedAt, now)
    && t.refresh[token].(revokedAt := s.refresh[token].revokedAt) == s.refresh[token]
  }

  // Exactly the rows of these account and family pairs are revoked.
  ghost predicate ExactlyRevoked(s: State, t: State, hit: (AccountID, FamilyID) -> bool, now: Time) {
    && t.access.Keys == s.access.Keys && t.refresh.Keys == s.refresh.Keys
    && (forall k | k in s.access ::
          if hit(s.access[k].account, s.access[k].family) then AccessRevoked(s, t, k, now)
          else t.access[k] == s.access[k])
    && (forall k | k in s.refresh ::
          if hit(s.refresh[k].account, s.refresh[k].family) then RefreshRevoked(s, t, k, now)
          else t.refresh[k] == s.refresh[k])
  }

  function OfAccount(account: AccountID): (AccountID, FamilyID) -> bool {
    (a, f) => a == account
  }

  function OfFamily(account: AccountID, family: FamilyID): (AccountID, FamilyID) -> bool {
    (a, f) => a == account && f == family
  }

  function OfOtherFamilies(account: AccountID, keep: FamilyID): (AccountID, FamilyID) -> bool {
    (a, f) => a == account && f != keep
  }

  // The families that presented tokens belong to.
  function OfTokens(s: State, access: Option<Token>, refresh: Option<Token>): (AccountID, FamilyID) -> bool {
    (a, f) =>
      || (access.Some? && access.value in s.access && s.access[access.value].account == a
          && s.access[access.value].family == f)
      || (refresh.Some? && refresh.value in s.refresh && s.refresh[refresh.value].account == a
          && s.refresh[refresh.value].family == f)
  }

  // The new password counts from now on, and a lock is gone.
  ghost predicate PasswordReplaced(s: State, t: State, account: AccountID, hash: PasswordHash) {
    && account in s.accounts && account in t.accounts && SameOutside(s.accounts, t.accounts, {account})
    && t.accounts[account] == s.accounts[account].(hash := hash, failedLogins := 0, lockedUntil := None)
  }

  // Every session of the account is revoked and unlinked, nobody else's.
  ghost predicate SessionsEnded(s: State, t: State, account: AccountID, now: Time) {
    && t.access.Keys == s.access.Keys && t.refresh.Keys == s.refresh.Keys
    && (forall k | k in s.access ::
          if s.access[k].account == account then AccessRevoked(s, t, k, now) else t.access[k] == s.access[k])
    && (forall k | k in s.refresh ::
          if s.refresh[k].account == account then
            RevokedBy(s.refresh[k].revokedAt, t.refresh[k].revokedAt, now) && t.refresh[k].rotatedTo.None?
            && t.refresh[k].account == account && t.refresh[k].family == s.refresh[k].family
            && t.refresh[k].expires == s.refresh[k].expires
          else t.refresh[k] == s.refresh[k])
  }

  // No recovery of the account can be completed any more; the others stay.
  ghost predicate RecoveriesClosed(s: State, t: State, account: AccountID) {
    && t.recoveries.Keys == s.recoveries.Keys
    && (forall k | k in s.recoveries && s.recoveries[k].account != account :: t.recoveries[k] == s.recoveries[k])
    && (forall k | k in s.recoveries && s.recoveries[k].account == account ::
          && (t.recoveries[k].consumed || t.recoveries[k].revoked) && t.recoveries[k].account == account
          && t.recoveries[k].tenant == s.recoveries[k].tenant && t.recoveries[k].expires == s.recoveries[k].expires
          && (s.recoveries[k].consumed ==> t.recoveries[k] == s.recoveries[k]))
  }

  // One more failure, and every fifth locks for a quarter of an hour.
  ghost predicate FailureCounted(s: State, t: State, account: AccountID, now: Time) {
    && account in s.accounts && account in t.accounts && SameOutside(s.accounts, t.accounts, {account})
    && SameSessions(s, t)
    && var failures := s.accounts[account].failedLogins + 1;
       t.accounts[account] == (if failures >= 5 then
                                 s.accounts[account].(failedLogins := 0, lockedUntil := Some(now + 900))
                               else s.accounts[account].(failedLogins := failures))
  }

  predicate SameSessions(s: State, t: State) {
    t.access == s.access && t.refresh == s.refresh && t.recoveries == s.recoveries
  }

  predicate SameTables(s: State, t: State) {
    t.accounts == s.accounts && SameSessions(s, t)
  }

  // A pair of unrevoked tokens for this account and family, running from now.
  ghost predicate Issued(cfg: Config, t: State, account: AccountID, family: FamilyID, access: Token, refresh: Token,
                         now: Time)
  {
    && access in t.access && refresh in t.refresh
    && t.access[access].account == account && t.access[access].family == family
    && t.access[access].revokedAt.None? && t.access[access].expires == now + cfg.sessionTime
    && t.refresh[refresh].account == account && t.refresh[refresh].family == family
    && t.refresh[refresh].revokedAt.None? && t.refresh[refresh].rotatedTo.None?
    && t.refresh[refresh].expires == now + cfg.refreshTime
    && (cfg.sessionTime > 0 ==> CredentialRuns.Authenticated(t, access, now))
  }

  lemma PairsRevoked(s: State, pairs: set<(AccountID, FamilyID)>, hit: (AccountID, FamilyID) -> bool, now: Time)
    requires forall k | k in s.access ::
      (s.access[k].account, s.access[k].family) in pairs <==> hit(s.access[k].account, s.access[k].family)
    requires forall k | k in s.refresh ::
      (s.refresh[k].account, s.refresh[k].family) in pairs <==> hit(s.refresh[k].account, s.refresh[k].family)
    ensures ExactlyRevoked(s, RevokePairs(s, pairs, now), hit, now)
  {
  }

  lemma ReuseRevoked(s: State, account: AccountID, now: Time)
    ensures ExactlyRevoked(s, ReuseDetected(s, account, now), OfAccount(account), now)
  {
  }

  // ---------- Sessions ----------

  // The password is compared for an active account without a lock.
  lemma ReadLoginEffect(cfg: Config, s: State, login: LoginID, account: AccountID, matches: bool, now: Time)
    requires Enabled(s, ReadLogin(login, account, matches))
    ensures var (t, reply) := Step(cfg, s, ReadLogin(login, account, matches), now);
      && (reply == Done <==> MayLogIn(s, account, now) && matches)
      && (reply == AccountLocked <==>
            account in s.accounts && s.accounts[account].active && !MayLogIn(s, account, now))
      && (reply != Done && reply != AccountLocked ==> reply == InvalidCredentials)
      && SameTables(s, t)
      && (MayLogIn(s, account, now) ==> t.logins[login] == Login(account, s.accounts[account].hash, matches))
  {
  }

  lemma RecordFailureEffect(cfg: Config, s: State, login: LoginID, now: Time)
    requires Enabled(s, RecordFailure(login))
    ensures var (t, reply) := Step(cfg, s, RecordFailure(login), now);
      var account := s.logins[login].account;
      && reply == InvalidCredentials
      && if account in s.accounts then FailureCounted(s, t, account, now) else t == s
  {
  }

  // A session is issued exactly to an active account without a lock whose password is still the verified one.
  lemma IssueEffect(cfg: Config, s: State, login: LoginID, access: Token, refresh: Token, family: FamilyID, now: Time)
    requires Enabled(s, IssueSession(login, access, refresh, family))
    ensures var (t, reply) := Step(cfg, s, IssueSession(login, access, refresh, family), now);
      var account := s.logins[login].account;
      && (reply == Done <==> MayLogIn(s, account, now) && s.accounts[account].hash == s.logins[login].hash)
      && (reply == NotFound <==> account !in s.accounts)
      && (reply == InvalidCredentials <==>
            && account in s.accounts
            && (!s.accounts[account].active || s.accounts[account].hash != s.logins[login].hash))
      && (reply != Done ==> t == s)
      && (reply == Done ==>
            && Issued(cfg, t, account, family, access, refresh, now)
            && SameOutside(s.access, t.access, {access}) && SameOutside(s.refresh, t.refresh, {refresh})
            && t.recoveries == s.recoveries && PasswordReplaced(s, t, account, s.accounts[account].hash))
  {
  }

  ghost predicate Redeemable(s: State, token: Token, now: Time) {
    && OfActiveAccount(s, token) && s.refresh[token].rotatedTo.None? && s.refresh[token].revokedAt.None?
    && now < s.refresh[token].expires
  }

  ghost predicate OfActiveAccount(s: State, token: Token) {
    token in s.refresh && s.refresh[token].account in s.accounts && s.accounts[s.refresh[token].account].active
  }

  // A refresh token is redeemed exactly while its account is active and it is unrevoked, unrotated and unexpired, and
  // then yields a pair of tokens in its place.
  lemma RefreshEffect(cfg: Config, s: State, token: Token, access: Token, next: Token, now: Time)
    requires Enabled(s, RefreshSession(token, access, next))
    ensures var (t, reply) := Step(cfg, s, RefreshSession(token, access, next), now);
      && reply == (if Redeemable(s, token, now) then Done else SessionInvalid)
      && t.accounts == s.accounts && t.recoveries == s.recoveries
      && (reply == Done ==>
            && Issued(cfg, t, s.refresh[token].account, s.refresh[token].family, access, next, now)
            && token in t.refresh
            && t.refresh[token] == s.refresh[token].(revokedAt := Some(now), rotatedTo := Some(next))
            && SameOutside(s.access, t.access, {access}) && SameOutside(s.refresh, t.refresh, {token, next}))
      && (reply != Done ==> t.access.Keys == s.access.Keys && t.refresh.Keys == s.refresh.Keys)
  {
  }

  // A rotated token revokes every session of its account, an expired one itself, and any other changes nothing.
  lemma RefusalEffect(cfg: Config, s: State, token: Token, access: Token, next: Token, now: Time)
    requires Enabled(s, RefreshSession(token, access, next)) && !Redeemable(s, token, now)
    ensures var t := Step(cfg, s, RefreshSession(token, access, next), now).0;
      if !OfActiveAccount(s, token) then t == s
      else if s.refresh[token].rotatedTo.Some? then ExactlyRevoked(s, t, OfAccount(s.refresh[token].account), now)
      else if s.refresh[token].revokedAt.Some? then t == s
      else t.access == s.access && t.refresh.Keys == s.refresh.Keys && RefreshRevoked(s, t, token, now)
           && SameOutside(s.refresh, t.refresh, {token})
  {
    hide ExactlyRevoked;
    if token in s.refresh {
      ReuseRevoked(s, s.refresh[token].account, now);
    }
  }

  // Both presented tokens end their families.
  lemma LogoutEffect(cfg: Config, s: State, access: Option<Token>, refresh: Option<Token>, now: Time)
    ensures var (t, reply) := Step(cfg, s, Logout(access, refresh), now);
      && reply == Done && t.accounts == s.accounts && t.recoveries == s.recoveries
      && ExactlyRevoked(s, t, OfTokens(s, access, refresh), now)
  {
    hide ExactlyRevoked;
    PairsRevoked(s, LogoutPairs(s, access, refresh), OfTokens(s, access, refresh), now);
  }

  // A device of the account is signed out, or there is none.
  lemma RevokeSessionEffect(cfg: Config, s: State, account: AccountID, family: FamilyID, now: Time)
    ensures var (t, reply) := Step(cfg, s, RevokeSession(account, family), now);
      var found := (exists k :: k in s.access && s.access[k].account == account && s.access[k].family == family)
                   || (exists k :: k in s.refresh && s.refresh[k].account == account && s.refresh[k].family == family);
      && reply == (if account in s.accounts && found then Done else NotFound)
      && t.accounts == s.accounts && t.recoveries == s.recoveries
      && if reply == Done then ExactlyRevoked(s, t, OfFamily(account, family), now) else t == s
  {
    hide ExactlyRevoked;
    var pairs := {(account, family)};
    PairsRevoked(s, pairs, OfFamily(account, family), now);
    assert forall k :: k in AccessIn(s, pairs) <==>
      k in s.access && s.access[k].account == account && s.access[k].family == family;
    assert forall k :: k in RefreshIn(s, pairs) <==>
      k in s.refresh && s.refresh[k].account == account && s.refresh[k].family == family;
  }

  // All devices but the caller's are signed out.
  lemma RevokeOthersEffect(cfg: Config, s: State, account: AccountID, token: Token, now: Time)
    ensures var (t, reply) := Step(cfg, s, RevokeOtherSessions(account, token), now);
      && reply == (if CredentialRuns.Authenticated(s, token, now) && s.access[token].account == account then Done
                   else SessionInvalid)
      && t.accounts == s.accounts && t.recoveries == s.recoveries
      && if reply == Done then ExactlyRevoked(s, t, OfOtherFamilies(account, s.access[token].family), now)
         else t == s
  {
    hide ExactlyRevoked;
    if token in s.access {
      var keep := s.access[token].family;
      PairsRevoked(s, OtherFamilies(s, account, keep), OfOtherFamilies(account, keep), now);
    }
  }

  // ---------- Passwords ----------

  lemma ResetEffect(s: State, account: AccountID, hash: PasswordHash, now: Time)
    requires account in s.accounts
    ensures var t := ResetPassword(s, account, hash, now);
      PasswordReplaced(s, t, account, hash) && SessionsEnded(s, t, account, now) && RecoveriesClosed(s, t, account)
  {
  }

  lemma ChangePasswordEffect(cfg: Config, s: State, account: AccountID, matches: bool, hash: PasswordHash, now: Time)
    ensures var (t, reply) := Step(cfg, s, ChangePassword(account, matches, hash), now);
      var active := account in s.accounts && s.accounts[account].active;
      && reply == (if !active then NotFound else if !MayLogIn(s, account, now) then AccountLocked
                   else if matches then Done else InvalidCredentials)
      && (reply == Done ==>
            PasswordReplaced(s, t, account, hash) && SessionsEnded(s, t, account, now)
            && RecoveriesClosed(s, t, account))
      && (reply == InvalidCredentials ==> FailureCounted(s, t, account, now))
      && (reply == NotFound || reply == AccountLocked ==> t == s)
  {
    if account in s.accounts {
      ResetEffect(s, account, hash, now);
    }
  }

  lemma RecoverAdministratorEffect(cfg: Config, s: State, account: AccountID, hash: PasswordHash, now: Time)
    ensures var (t, reply) := Step(cfg, s, RecoverAdministrator(account, hash), now);
      var may := account in s.accounts && s.accounts[account].active && s.accounts[account].admin;
      && reply == (if may then Done else NotFound)
      && if may then PasswordReplaced(s, t, account, hash) && SessionsEnded(s, t, account, now)
                     && RecoveriesClosed(s, t, account)
         else t == s
  {
    if account in s.accounts {
      ResetEffect(s, account, hash, now);
    }
  }

  // A new account, or a non-administrator who can log in again with the new password only.
  lemma ProvisionEffect(cfg: Config, s: State, permitted: bool, account: AccountID, hash: PasswordHash, now: Time)
    ensures var (t, reply) := Step(cfg, s, ProvisionMember(permitted, account, hash), now);
      var may := permitted && (account in s.accounts ==> !s.accounts[account].admin);
      && reply == (if may then Done else Forbidden)
      && (!may ==> t == s)
      && (may && account !in s.accounts ==>
            && account in t.accounts && t.accounts[account] == Account(hash, true, false, 0, None)
            && SameOutside(s.accounts, t.accounts, {account}) && SameSessions(s, t))
      && (may && account in s.accounts ==>
            && PasswordReplaced(s.(accounts := s.accounts[account := s.accounts[account].(active := true)]), t, account,
                                hash)
            && SessionsEnded(s, t, account, now) && RecoveriesClosed(s, t, account))
  {
    if account in s.accounts {
      ResetEffect(s.(accounts := s.accounts[account := s.accounts[account].(active := true)]), account, hash, now);
    }
  }

  lemma CreateAccountEffect(cfg: Config, s: State, account: AccountID, hash: PasswordHash, now: Time)
    requires Enabled(s, CreateAccount(account, hash))
    ensures var (t, reply) := Step(cfg, s, CreateAccount(account, hash), now);
      && reply == Done && account in t.accounts && t.accounts[account] == Account(hash, true, false, 0, None)
      && SameOutside(s.accounts, t.accounts, {account}) && SameSessions(s, t)
  {
  }

  // ---------- Recoveries ----------

  // The target gets the only open recovery, if the administrator confirms with the right password.
  lemma CreateRecoveryEffect(cfg: Config, s: State, actor: AccountID, permitted: bool, matches: bool,
                             target: AccountID, tenant: TenantID, eligible: bool, token: Token, expires: Time,
                             now: Time)
    requires token !in s.recoveries
    ensures var e := CreateRecovery(actor, permitted, matches, target, tenant, eligible, token, expires);
      var (t, reply) := Step(cfg, s, e, now);
      var may := permitted && actor in s.accounts && s.accounts[actor].active && s.accounts[actor].admin;
      var suits := target in s.accounts && s.accounts[target].active && !s.accounts[target].admin && eligible;
      && reply == (if !may then Forbidden else if !MayLogIn(s, actor, now) then AccountLocked
                   else if !matches then InvalidCredentials else if suits then Done else NotFound)
      && (reply == InvalidCredentials ==> FailureCounted(s, t, actor, now))
      && (reply == Done ==>
            && token in t.recoveries && t.recoveries[token] == Recovery(target, tenant, expires, false, false)
            && RecoveriesClosed(s, t.(recoveries := t.recoveries - {token}), target)
            && t.access == s.access && t.refresh == s.refresh
            && PasswordReplaced(s, t, actor, s.accounts[actor].hash))
      && (reply != Done && reply != InvalidCredentials ==> t == s)
  {
  }

  // An open recovery is completed exactly for an eligible active member who is no administrator.
  lemma CompleteRecoveryEffect(cfg: Config, s: State, token: Token, eligible: bool, hash: PasswordHash, now: Time)
    ensures var (t, reply) := Step(cfg, s, CompleteRecovery(token, eligible, hash), now);
      var open := token in s.recoveries && !s.recoveries[token].consumed && !s.recoveries[token].revoked
                  && now < s.recoveries[token].expires;
      && (reply == Done <==>
            && open && eligible && s.recoveries[token].account in s.accounts
            && s.accounts[s.recoveries[token].account].active && !s.accounts[s.recoveries[token].account].admin)
      && (reply != Done ==> reply == NotFound && t == s)
      && (reply == Done ==>
            var account := s.recoveries[token].account;
            && PasswordReplaced(s, t, account, hash) && SessionsEnded(s, t, account, now)
            && RecoveriesClosed(s, t, account) && t.recoveries[token].consumed && !t.recoveries[token].revoked)
  {
    hide PasswordReplaced, SessionsEnded, ResetPassword;
    if token in s.recoveries && s.recoveries[token].account in s.accounts {
      var consumed := s.(recoveries := s.recoveries[token := s.recoveries[token].(consumed := true)]);
      ResetEffect(consumed, s.recoveries[token].account, hash, now);
      ConsumedEffect(s, consumed, ResetPassword(consumed, s.recoveries[token].account, hash, now),
                     s.recoveries[token].account, hash, now);
    }
  }

  lemma ConsumedEffect(s: State, consumed: State, t: State, account: AccountID, hash: PasswordHash, now: Time)
    requires consumed == s.(recoveries := consumed.recoveries)
    ensures PasswordReplaced(consumed, t, account, hash) == PasswordReplaced(s, t, account, hash)
    ensures SessionsEnded(consumed, t, account, now) == SessionsEnded(s, t, account, now)
  {
  }
}
