/** Which sessions can be alive: invariants over every interleaving of the credential transactions. */
module CredentialSafety {
  import opened Wrappers
  import opened Credentials

  // ---------- The invariants ----------

  // The row's family was opened by a verified login of its account, and while the row is unrevoked that
  // login's password matched the account's current hash.
  ghost predicate RowLineage(s: State, account: AccountID, family: FamilyID, live: bool) {
    && account in s.accounts && family in s.families && s.families[family].login in s.logins
    && var login := s.logins[s.families[family].login];
       login.verified && login.account == account && (live ==> login.hash == s.accounts[account].hash)
  }

  ghost predicate AccessLineage(s: State, t: Token)
    requires t in s.access
  {
    RowLineage(s, s.access[t].account, s.access[t].family, s.access[t].revokedAt.None?)
  }

  ghost predicate RefreshLineage(s: State, t: Token)
    requires t in s.refresh
  {
    RowLineage(s, s.refresh[t].account, s.refresh[t].family, s.refresh[t].revokedAt.None?)
  }

  ghost predicate Lineage(s: State) {
    && (forall t | t in s.access :: AccessLineage(s, t))
    && (forall t | t in s.refresh :: RefreshLineage(s, t))
  }

  ghost predicate Referential(s: State) {
    && (forall l | l in s.logins :: s.logins[l].account in s.accounts)
    && (forall t | t in s.recoveries :: s.recoveries[t].account in s.accounts)
  }

  // The tokens listed for a family are exactly its refresh rows, each once.
  ghost predicate Listed(s: State, family: FamilyID)
    requires family in s.families
  {
    var tokens := s.families[family].tokens;
    && (forall i, j | 0 <= i < j < |tokens| :: tokens[i] != tokens[j])
    && (forall i | 0 <= i < |tokens| :: tokens[i] in s.refresh && s.refresh[tokens[i]].family == family)
    && (forall t | t in s.refresh && s.refresh[t].family == family :: t in tokens)
  }

  // Every token but the newest was redeemed and leads to the one issued next: the links form one path.
  ghost predicate Linked(s: State, family: FamilyID)
    requires family in s.families && Listed(s, family)
  {
    var tokens := s.families[family].tokens;
    && (forall i | 0 <= i < |tokens| - 1 ::
          s.refresh[tokens[i]].rotatedTo == Some(tokens[i + 1]) && s.refresh[tokens[i]].revokedAt.Some?)
    && (|tokens| > 0 ==> s.refresh[tokens[|tokens| - 1]].rotatedTo.None?)
  }

  // A credential change ended the family.
  ghost predicate Ended(s: State, family: FamilyID)
    requires family in s.families && Listed(s, family)
  {
    forall i | 0 <= i < |s.families[family].tokens| :: DeadRow(s, s.families[family].tokens[i])
  }

  // Revoked, and unable to trip the reuse alarm.
  ghost predicate DeadRow(s: State, t: Token)
    requires t in s.refresh
  {
    s.refresh[t].revokedAt.Some? && s.refresh[t].rotatedTo.None?
  }

  ghost predicate PathOrEnded(s: State, family: FamilyID)
    requires family in s.families
  {
    Listed(s, family) && (Linked(s, family) || Ended(s, family))
  }

  ghost predicate Paths(s: State) {
    forall f | f in s.families :: PathOrEnded(s, f)
  }

  ghost predicate Inv(s: State) {
    Referential(s) && Lineage(s) && Paths(s)
  }

  // Accounts exist, nobody has signed in.
  predicate Initial(s: State) {
    s.access == map[] && s.refresh == map[] && s.recoveries == map[] && s.logins == map[] && s.families == map[]
  }

  // At most one refresh token of a family can still be redeemed.
  lemma OneLive(s: State, t: Token, u: Token)
    requires Inv(s) && t in s.refresh && u in s.refresh && s.refresh[t].family == s.refresh[u].family
    requires s.refresh[t].revokedAt.None? && s.refresh[u].revokedAt.None?
    ensures t == u
  {
    assert RefreshLineage(s, t);
    var f := s.refresh[t].family;
    assert PathOrEnded(s, f);
    var i :| 0 <= i < |s.families[f].tokens| && s.families[f].tokens[i] == t;
    var j :| 0 <= j < |s.families[f].tokens| && s.families[f].tokens[j] == u;
  }

  // ---------- Changes that only revoke ----------

  // No row of the account is alive.
  ghost predicate AllRevoked(s: State, account: AccountID) {
    && (forall t | t in s.access && s.access[t].account == account :: s.access[t].revokedAt.Some?)
    && (forall t | t in s.refresh && s.refresh[t].account == account :: s.refresh[t].revokedAt.Some?)
  }

  ghost predicate AllDead(s: State, account: AccountID) {
    && (forall t | t in s.access && s.access[t].account == account :: s.access[t].revokedAt.Some?)
    && (forall t | t in s.refresh && s.refresh[t].account == account :: DeadRow(s, t))
  }

  ghost predicate AccessWeakened(before: Access, after: Access) {
    after == before.(revokedAt := after.revokedAt) && (before.revokedAt.Some? ==> after.revokedAt.Some?)
  }

  ghost predicate RefreshWeakened(before: Refresh, after: Refresh) {
    && after == before.(revokedAt := after.revokedAt, rotatedTo := after.rotatedTo)
    && (before.revokedAt.Some? ==> after.revokedAt.Some?)
  }

  // Rows are revoked, whole accounts lose their links, passwords change only where nothing stays alive.
  ghost predicate OnlyRevokes(s: State, t: State) {
    && t.access.Keys == s.access.Keys && t.refresh.Keys == s.refresh.Keys && t.families == s.families
    && (forall l | l in s.logins :: l in t.logins && t.logins[l] == s.logins[l])
    && (forall k | k in s.access :: AccessWeakened(s.access[k], t.access[k]))
    && (forall k | k in s.refresh :: RefreshWeakened(s.refresh[k], t.refresh[k]))
    && (forall k | k in s.refresh ::
          t.refresh[k].rotatedTo == s.refresh[k].rotatedTo || AllDead(t, s.refresh[k].account))
    && (forall a | a in s.accounts :: a in t.accounts && (t.accounts[a].hash == s.accounts[a].hash || AllRevoked(t, a)))
  }

  lemma OnlyRevokesKeeps(s: State, t: State)
    requires Inv(s) && OnlyRevokes(s, t) && Referential(t)
    ensures Inv(t)
  {
    forall k | k in t.access ensures AccessLineage(t, k) {
      assert AccessLineage(s, k) && AccessWeakened(s.access[k], t.access[k]);
    }
    forall k | k in t.refresh ensures RefreshLineage(t, k) {
      assert RefreshLineage(s, k) && RefreshWeakened(s.refresh[k], t.refresh[k]);
    }
    forall f | f in t.families ensures PathOrEnded(t, f) {
      OnlyRevokesFamily(s, t, f);
    }
  }

  lemma OnlyRevokesFamily(s: State, t: State, f: FamilyID)
    requires Inv(s) && OnlyRevokes(s, t) && f in s.families
    ensures PathOrEnded(t, f)
  {
    hide Linked, Ended, AllDead, AllRevoked, AccessWeakened, RefreshWeakened, AccessLineage, RefreshLineage;
    assert PathOrEnded(s, f);
    ListedKept(s, t, f);
    var tokens := s.families[f].tokens;
    if exists i :: 0 <= i < |tokens| && t.refresh[tokens[i]].rotatedTo != s.refresh[tokens[i]].rotatedTo {
      var i :| 0 <= i < |tokens| && t.refresh[tokens[i]].rotatedTo != s.refresh[tokens[i]].rotatedTo;
      LinksCleared(s, t, f, i);
    } else {
      LinksKept(s, t, f);
    }
  }

  lemma ListedKept(s: State, t: State, f: FamilyID)
    requires OnlyRevokes(s, t) && f in s.families && Listed(s, f)
    ensures Listed(t, f)
  {
    hide AllDead, AllRevoked, AccessWeakened;
    forall k | k in s.refresh ensures t.refresh[k].family == s.refresh[k].family {
      assert RefreshWeakened(s.refresh[k], t.refresh[k]);
    }
  }

  // A family belongs to one account.
  lemma SameAccount(s: State, k: Token, u: Token)
    requires Lineage(s) && k in s.refresh && u in s.refresh && s.refresh[k].family == s.refresh[u].family
    ensures s.refresh[k].account == s.refresh[u].account
  {
    assert RefreshLineage(s, k) && RefreshLineage(s, u);
  }

  lemma LinksCleared(s: State, t: State, f: FamilyID, i: nat)
    requires Lineage(s) && OnlyRevokes(s, t) && f in s.families && Listed(s, f) && Listed(t, f)
    requires i < |s.families[f].tokens| && AllDead(t, s.refresh[s.families[f].tokens[i]].account)
    ensures Ended(t, f)
  {
    hide Lineage, AllRevoked, AccessWeakened;
    var tokens := s.families[f].tokens;
    forall j | 0 <= j < |tokens| ensures DeadRow(t, tokens[j]) {
      SameAccount(s, tokens[i], tokens[j]);
      assert RefreshWeakened(s.refresh[tokens[j]], t.refresh[tokens[j]]);
    }
  }

  lemma LinksKept(s: State, t: State, f: FamilyID)
    requires OnlyRevokes(s, t) && f in s.families && PathOrEnded(s, f) && Listed(t, f)
    requires forall i ::
      0 <= i < |s.families[f].tokens| ==>
        t.refresh[s.families[f].tokens[i]].rotatedTo == s.refresh[s.families[f].tokens[i]].rotatedTo
    ensures Linked(t, f) || Ended(t, f)
  {
    hide AllRevoked, AllDead, AccessWeakened;
    var tokens := s.families[f].tokens;
    forall j | 0 <= j < |tokens| ensures s.refresh[tokens[j]].revokedAt.Some? ==> t.refresh[tokens[j]].revokedAt.Some? {
      assert RefreshWeakened(s.refresh[tokens[j]], t.refresh[tokens[j]]);
    }
    hide OnlyRevokes, Listed;
    if Ended(s, f) {
      forall j | 0 <= j < |tokens| ensures DeadRow(t, tokens[j]) {
        assert DeadRow(s, tokens[j]);
      }
    }
  }

  // ---------- Every step keeps the invariant ----------

  lemma PairsRevoke(s: State, pairs: set<(AccountID, FamilyID)>, now: Time)
    ensures OnlyRevokes(s, RevokePairs(s, pairs, now))
  {
  }

  lemma ReuseRevokes(s: State, account: AccountID, now: Time)
    ensures OnlyRevokes(s, ReuseDetected(s, account, now)) && AllRevoked(ReuseDetected(s, account, now), account)
  {
  }

  lemma ResetRevokes(base: State, s: State, account: AccountID, hash: PasswordHash, now: Time)
    requires s == base.(accounts := s.accounts, recoveries := s.recoveries) && account in s.accounts
    requires forall a | a in base.accounts :: a in s.accounts && s.accounts[a].hash == base.accounts[a].hash
    ensures OnlyRevokes(base, ResetPassword(s, account, hash, now))
    ensures AllDead(ResetPassword(s, account, hash, now), account)
    ensures AllRevoked(ResetPassword(s, account, hash, now), account)
  {
    var t := ResetPassword(s, account, hash, now);
    forall k | k in t.refresh && t.refresh[k].account == account ensures DeadRow(t, k) {
    }
  }

  lemma IssueKeeps(cfg: Config, s: State, login: LoginID, access: Token, refresh: Token, family: FamilyID, now: Time)
    requires Inv(s) && Enabled(s, IssueSession(login, access, refresh, family))
    ensures Inv(IssueStep(cfg, s, login, access, refresh, family, now).0)
  {
    var t := IssueStep(cfg, s, login, access, refresh, family, now).0;
    if t != s {
      forall k | k in t.access ensures AccessLineage(t, k) {
        assert k != access ==> AccessLineage(s, k);
      }
      forall k | k in t.refresh ensures RefreshLineage(t, k) {
        assert k != refresh ==> RefreshLineage(s, k);
      }
      forall f | f in t.families ensures PathOrEnded(t, f) {
        IssueFamily(cfg, s, login, access, refresh, family, now, f);
      }
    }
  }

  lemma IssueFamily(cfg: Config, s: State, login: LoginID, access: Token, refresh: Token, family: FamilyID, now: Time,
                    f: FamilyID)
    requires Inv(s) && Enabled(s, IssueSession(login, access, refresh, family))
    requires var t := IssueStep(cfg, s, login, access, refresh, family, now).0; t != s && f in t.families
    ensures PathOrEnded(IssueStep(cfg, s, login, access, refresh, family, now).0, f)
  {
    hide PathOrEnded;
    var t := IssueStep(cfg, s, login, access, refresh, family, now).0;
    if f == family {
      assert t.families[f].tokens == [refresh];
      forall k | k in s.refresh ensures s.refresh[k].family != f {
        assert RefreshLineage(s, k);
      }
      OneTokenPath(t, f, refresh);
    } else {
      assert PathOrEnded(s, f);
      SameFamily(s, t, f);
    }
  }

  lemma OneTokenPath(t: State, f: FamilyID, refresh: Token)
    requires f in t.families && t.families[f].tokens == [refresh] && refresh in t.refresh
    requires t.refresh[refresh].family == f && t.refresh[refresh].rotatedTo.None?
    requires forall k | k in t.refresh && t.refresh[k].family == f :: k == refresh
    ensures PathOrEnded(t, f)
  {
  }

  // A family none of whose rows changed.
  lemma SameFamily(s: State, t: State, f: FamilyID)
    requires f in s.families && f in t.families && PathOrEnded(s, f) && t.families[f] == s.families[f]
    requires forall k | k in s.refresh && s.refresh[k].family == f :: k in t.refresh && t.refresh[k] == s.refresh[k]
    requires forall k | k in t.refresh && t.refresh[k].family == f :: k in s.refresh && s.refresh[k].family == f
    ensures PathOrEnded(t, f)
  {
  }

  // The state after a redeemed token was replaced by the next one.
  ghost predicate Rotated(s: State, t: State, token: Token, next: Token)
    requires token in s.refresh
  {
    var row := s.refresh[token];
    && next !in s.refresh && t.refresh.Keys == s.refresh.Keys + {next}
    && (forall k | k in s.refresh && k != token :: t.refresh[k] == s.refresh[k])
    && (exists at :: t.refresh[token] == row.(revokedAt := Some(at), rotatedTo := Some(next)))
    && t.refresh[next].account == row.account && t.refresh[next].family == row.family
    && t.refresh[next].revokedAt.None? && t.refresh[next].rotatedTo.None?
    && t.families == Extended(s.families, row.family, next) && t.logins == s.logins && t.accounts == s.accounts
  }

  lemma RotationKeeps(cfg: Config, s: State, token: Token, access: Token, next: Token, now: Time)
    requires Inv(s) && Enabled(s, RefreshSession(token, access, next))
    requires RefreshStep(cfg, s, token, access, next, now).1 == Done
    ensures Inv(RefreshStep(cfg, s, token, access, next, now).0)
    ensures Rotated(s, RefreshStep(cfg, s, token, access, next, now).0, token, next)
  {
    hide PathOrEnded, RowLineage;
    var t := RefreshStep(cfg, s, token, access, next, now).0;
    RotateLineage(cfg, s, token, access, next, now);
    assert t.refresh[token] == s.refresh[token].(revokedAt := Some(now), rotatedTo := Some(next));
    forall f | f in t.families ensures PathOrEnded(t, f) {
      assert PathOrEnded(s, f);
      if f == s.refresh[token].family {
        RotationExtendsPath(s, t, token, next);
      } else {
        SameFamily(s, t, f);
      }
    }
  }

  lemma RotateLineage(cfg: Config, s: State, token: Token, access: Token, next: Token, now: Time)
    requires Lineage(s) && token in s.refresh && s.refresh[token].revokedAt.None? && access !in s.access
    requires next !in s.refresh
    ensures Lineage(Rotate(cfg, s, token, access, next, now))
    ensures s.refresh[token].family in s.families
  {
    var t := Rotate(cfg, s, token, access, next, now);
    assert RefreshLineage(s, token);
    forall k | k in t.access ensures AccessLineage(t, k) {
      assert k != access ==> AccessLineage(s, k);
    }
    forall k | k in t.refresh ensures RefreshLineage(t, k) {
      assert k != next ==> RefreshLineage(s, k);
    }
  }

  // Only the newest token of a family can be redeemed, so the path grows at its end.
  lemma RotationExtendsPath(s: State, t: State, token: Token, next: Token)
    requires token in s.refresh && s.refresh[token].revokedAt.None? && s.refresh[token].rotatedTo.None?
    requires s.refresh[token].family in s.families && PathOrEnded(s, s.refresh[token].family)
    requires Rotated(s, t, token, next)
    ensures PathOrEnded(t, s.refresh[token].family)
  {
    hide Rotated, Linked, Ended;
    var f := s.refresh[token].family;
    RotationLists(s, t, token, next);
    LiveIsNewest(s, token);
    RotationLinks(s, t, token, next);
  }

  lemma LiveIsNewest(s: State, token: Token)
    requires token in s.refresh && s.refresh[token].revokedAt.None?
    requires s.refresh[token].family in s.families && PathOrEnded(s, s.refresh[token].family)
    ensures Linked(s, s.refresh[token].family)
    ensures var tokens := s.families[s.refresh[token].family].tokens; |tokens| > 0 && tokens[|tokens| - 1] == token
  {
    var tokens := s.families[s.refresh[token].family].tokens;
    var i :| 0 <= i < |tokens| && tokens[i] == token;
    assert !DeadRow(s, tokens[i]);
  }

  lemma RotationLists(s: State, t: State, token: Token, next: Token)
    requires token in s.refresh && s.refresh[token].family in s.families && Listed(s, s.refresh[token].family)
    requires Rotated(s, t, token, next)
    ensures Listed(t, s.refresh[token].family)
    ensures t.families[s.refresh[token].family].tokens == s.families[s.refresh[token].family].tokens + [next]
  {
    var f := s.refresh[token].family;
    var tokens := t.families[f].tokens;
    forall k | k in t.refresh && t.refresh[k].family == f ensures k in tokens {
      if k != next {
        assert s.refresh[k].family == f;
        assert k in s.families[f].tokens;
      } else {
        assert tokens[|tokens| - 1] == next;
      }
    }
  }

  lemma RotationLinks(s: State, t: State, token: Token, next: Token)
    requires token in s.refresh && s.refresh[token].family in s.families && Rotated(s, t, token, next)
    requires Listed(s, s.refresh[token].family) && Linked(s, s.refresh[token].family)
    requires Listed(t, s.refresh[token].family)
    requires var tokens := s.families[s.refresh[token].family].tokens;
      |tokens| > 0 && tokens[|tokens| - 1] == token && t.families[s.refresh[token].family].tokens == tokens + [next]
    ensures Linked(t, s.refresh[token].family)
  {
    var f := s.refresh[token].family;
    var before, after := s.families[f].tokens, t.families[f].tokens;
    forall i | 0 <= i < |after| - 1
      ensures t.refresh[after[i]].rotatedTo == Some(after[i + 1]) && t.refresh[after[i]].revokedAt.Some?
    {
      if i < |before| - 1 {
        assert after[i] == before[i] && after[i + 1] == before[i + 1] && before[i] != token;
        assert t.refresh[before[i]] == s.refresh[before[i]];
      }
    }
  }

  lemma RefreshKeeps(cfg: Config, s: State, token: Token, access: Token, next: Token, now: Time)
    requires Inv(s) && Enabled(s, RefreshSession(token, access, next))
    ensures Inv(RefreshStep(cfg, s, token, access, next, now).0)
  {
    hide Inv, Rotated;
    var (t, reply) := RefreshStep(cfg, s, token, access, next, now);
    if reply == Done {
      RotationKeeps(cfg, s, token, access, next, now);
    } else if t != s && s.refresh[token].rotatedTo.Some? {
      ReuseRevokes(s, s.refresh[token].account, now);
      RevokesKeep(s, t);
    } else if t != s {
      RevokesKeep(s, t);
    }
  }

  // Revocation leaves accounts, logins and the owners of recoveries alone.
  lemma RevokesKeep(s: State, t: State)
    requires Inv(s) && OnlyRevokes(s, t)
    requires t.logins == s.logins && t.recoveries == s.recoveries
    ensures Inv(t)
  {
    OnlyRevokesKeeps(s, t);
  }
}
