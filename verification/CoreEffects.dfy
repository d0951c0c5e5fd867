/** What the operations of the Core layer do to memberships and policy tables, and which answer they give. */
module CoreEffects {
  import opened Wrappers
  import opened Policy
  import opened GrantGraph
  import opened Tenancy
  import opened TenantInvariants
  import opened Effects
  import opened CoreTenancy

  // ---------- Member management ----------

  ghost predicate OthersStay(before: map<SubjectID, MemberStatus>, after: map<SubjectID, MemberStatus>,
                             account: SubjectID)
  {
    && (forall m | m != account :: m in after <==> m in before)
    && (forall m | m in before && m != account :: after[m] == before[m])
  }

  // Suspending suspends and resuming resumes this member, and nothing else changes.
  lemma StatusEffect(cfg: Config, c: CoreTenant, actor: Principal, meta: Metadata, account: SubjectID,
                     status: MemberStatus)
    requires ManageMember(cfg, c, actor, meta, account, SetStatus(status)).Ok?
    ensures var after := ManageMember(cfg, c, actor, meta, account, SetStatus(status)).value;
      && account in c.members && account in after.members && after.members[account] == status
      && OthersStay(c.members, after.members, account)
      && after.policy.(audit := c.policy.audit) == c.policy
      && Logged(c.policy, after.policy, actor, meta,
                if status == Suspended then "member.suspend" else "member.resume", "member", account,
                c.members[account] != status, 0)
  {
    hide RequireTenantWide, GuardLastAdministrator, ActiveGuard;
  }

  // A removed member has no membership, no binding and no edge, and everybody else keeps everything.
  lemma RemovalEffect(cfg: Config, c: CoreTenant, actor: Principal, meta: Metadata, account: SubjectID)
    requires ManageMember(cfg, c, actor, meta, account, Remove).Ok?
    ensures var after := ManageMember(cfg, c, actor, meta, account, Remove).value;
      && account in c.members && account !in after.members && OthersStay(c.members, after.members, account)
      && (forall key :: key in after.policy.bindings <==> key in c.policy.bindings && key.0 != account)
      && (forall key | key in after.policy.bindings :: after.policy.bindings[key] == c.policy.bindings[key])
      && (forall e :: e in after.policy.edges <==> e in c.policy.edges && e.grantee != account)
      && (forall s, g :: Holds(after.policy, s, g) <==> Holds(c.policy, s, g) && s != account)
      && after.policy.grants == c.policy.grants && SameRoles(c.policy, after.policy)
      && after.policy.bootstrapped == c.policy.bootstrapped
      && Logged(c.policy, after.policy, actor, meta, "member.remove", "member", account, true, 0)
  {
    hide RequireTenantWide, GuardLastAdministrator, ActiveGuard;
  }

  ghost predicate ActiveHolder(c: CoreTenant, s: SubjectID, p: PermissionKey) {
    s in c.members && c.members[s] == Active && HoldsAtTenant(c.policy, s, p)
  }

  // An active member other than this account who holds all four permissions.
  ghost predicate OtherAdministrator(c: CoreTenant, account: SubjectID) {
    exists m :: m != account && ActiveHolder(c, m, "iam:role:manage") && ActiveHolder(c, m, "iam:grant:manage")
                && ActiveHolder(c, m, "iam:role:assign") && ActiveHolder(c, m, "iam:member:manage")
  }

  lemma TenantWideMeans(t: Tenant, s: SubjectID, p: PermissionKey)
    requires RowsValid(t)
    ensures RequireTenantWide(t, s, p) == if HoldsAtTenant(t, s, p) then None else Some(Forbidden)
    ensures HoldsTenantWide(t, s, p) <==> HoldsAtTenant(t, s, p)
  {
    forall g ensures g in EffectiveGrants(t, s, p) <==> Holds(t, s, g) && g.permission == p {
    }
  }

  lemma ExcludingGuardMeans(cfg: Config, c: CoreTenant, account: SubjectID)
    requires RowsValid(c.policy)
    ensures GuardLastAdministrator(c.policy, cfg, ActiveGuard(c.members, account))
         == if OtherAdministrator(c, account) then None else Some(LastAdministrator)
  {
    hide RequireTenantWide, HoldsTenantWide, HoldsAtTenant, RowsValid;
    var guard := ActiveGuard(c.members, account);
    NoMalformedControl(cfg, guard, c.policy);
    forall s, p ensures HoldsTenantWide(c.policy, s, p) <==> HoldsAtTenant(c.policy, s, p) {
      TenantWideMeans(c.policy, s, p);
    }
    if OtherAdministrator(c, account) {
      var m :| m != account && ActiveHolder(c, m, "iam:role:manage") && ActiveHolder(c, m, "iam:grant:manage")
               && ActiveHolder(c, m, "iam:role:assign") && ActiveHolder(c, m, "iam:member:manage");
      HolderIsBound(c.policy, m, PERMISSION_ROLE_MANAGE);
      var key :| key in c.policy.bindings && key.0 == m;
      assert IsAdministrator(c.policy, GuardPermissions(cfg, guard), key.0);
    }
    if HasAdministrator(c.policy, cfg, guard) {
      var key :| key in c.policy.bindings && Eligible(guard, key.0)
                 && IsAdministrator(c.policy, GuardPermissions(cfg, guard), key.0);
      assert forall p | p in ADMINISTRATOR_PERMISSIONS :: ActiveHolder(c, key.0, p);
    }
  }

  // Suspending and removing are refused exactly for the last administrator; resuming never is.
  lemma ManageMemberAnswer(cfg: Config, c: CoreTenant, actor: Principal, meta: Metadata, account: SubjectID,
                           change: MemberChange)
    requires Structure(c.policy)
    ensures var r := ManageMember(cfg, c, actor, meta, account, change);
      var allowed := ActiveHolder(c, actor.subjectID, "iam:member:manage");
      var last := change != SetStatus(Active) && !OtherAdministrator(c, account);
      && (r == Err(InvalidInput) <==> !ValidID(account))
      && (r == Err(Forbidden) <==> ValidID(account) && !allowed)
      && (r == Err(NotFound) <==> ValidID(account) && allowed && account !in c.members)
      && (r == Err(LastAdministrator) <==> ValidID(account) && allowed && account in c.members && last)
      && (r.Ok? <==> ValidID(account) && allowed && account in c.members && !last)
  {
    hide RequireTenantWide, GuardLastAdministrator, HoldsAtTenant, OtherAdministrator, ActiveGuard, RowsValid, ValidID;
    TenantWideMeans(c.policy, actor.subjectID, PERMISSION_MEMBER_MANAGE);
    ExcludingGuardMeans(cfg, c, account);
  }

  // ---------- Joining ----------

  lemma JoinEffect(c: CoreTenant, account: SubjectID, provision: bool)
    ensures var r := JoinMember(c, account, provision);
      && (r.Err? <==> !provision && account in c.members && c.members[account] == Suspended)
      && (r.Err? ==> r == Err(Conflict))
      && (r.Ok? ==>
            && account in r.value.members && r.value.members[account] == Active
            && OthersStay(c.members, r.value.members, account) && r.value.policy == c.policy)
  {
  }

  // ---------- Guarded operations ----------

  ghost predicate ActorPasses(c: CoreTenant, guard: PolicyGuard) {
    guard.actor != "" ==> guard.actor in c.members && c.members[guard.actor] == Active
  }

  // The target is a member, and an active one if a role is to be assigned.
  ghost predicate TargetPasses(c: CoreTenant, guard: PolicyGuard) {
    guard.target != "" ==> guard.target in c.members && (guard.assign ==> c.members[guard.target] == Active)
  }

  ghost predicate VersionPasses(c: CoreTenant, guard: PolicyGuard) {
    guard.version > 0 ==> guard.roleID in c.policy.roles && c.policy.roles[guard.roleID].version == guard.version
  }

  ghost predicate GrantPasses(c: CoreTenant, guard: PolicyGuard) {
    guard.grant ==> HoldsAtTenant(c.policy, guard.actor, "iam:grant:manage")
  }

  // What the guard refuses, in the order of its checks.
  lemma GuardRefuses(c: CoreTenant, guard: PolicyGuard)
    requires RowsValid(c.policy)
    ensures GuardError(c, guard)
         == if !ActorPasses(c, guard) then Some(Forbidden)
            else if !TargetPasses(c, guard) then Some(NotFound)
            else if !VersionPasses(c, guard) then Some(if guard.roleID in c.policy.roles then Conflict else NotFound)
            else if !GrantPasses(c, guard) then Some(Forbidden)
            else None
  {
    hide RequireTenantWide, HoldsAtTenant, RowsValid;
    TenantWideMeans(c.policy, guard.actor, PERMISSION_GRANT_MANAGE);
  }

  // A guarded command succeeds exactly if the guard passes and the kernel accepts it with the active members as the
  // eligible administrators, and then has exactly the kernel's effect.
  lemma GuardedAnswer(cfg: Config, root: set<Grant>, c: CoreTenant, guard: PolicyGuard, actor: Principal,
                      meta: Metadata, command: Command)
    requires CoreInvariant(cfg, root, c) && ValidCommand(cfg, actor, meta, command)
    ensures var r := MutateCore(cfg, c, guard, actor, meta, command);
      && (!ActorPasses(c, guard) ==> r == Err(Forbidden))
      && (ActorPasses(c, guard) && !TargetPasses(c, guard) ==> r == Err(NotFound))
      && (ActorPasses(c, guard) && TargetPasses(c, guard) && !VersionPasses(c, guard) ==>
            r == Err(if guard.roleID in c.policy.roles then Conflict else NotFound))
      && (ActorPasses(c, guard) && TargetPasses(c, guard) && VersionPasses(c, guard) && !GrantPasses(c, guard) ==>
            r == Err(Forbidden))
      && (ActorPasses(c, guard) && TargetPasses(c, guard) && VersionPasses(c, guard) && GrantPasses(c, guard) ==>
            match Mutate(cfg, ActiveMembers(c), c.policy, actor, meta, command)
            case Ok((after, result)) => r == Ok((CoreTenant(after, c.members), result))
            case Err(e) => r == Err(e))
  {
    hide Mutate, ValidCommand, Structure, Closed, GuardLastAdministrator, HasAdministrator, GuardError, ActorPasses,
         TargetPasses, VersionPasses, GrantPasses, ActiveGuard, ActiveMembers;
    ActiveMembersAre(c);
    StructureRows(c.policy);
    GuardRefuses(c, guard);
    if Mutate(cfg, ActiveMembers(c), c.policy, actor, meta, command).Ok? {
      PostCheckRedundant(cfg, root, c, actor, meta, command);
    }
  }

  // The check of the kernel then asks for an active member with all four permissions.
  ghost function ActiveMembers(c: CoreTenant): Guard {
    MemberGuard({"iam:role:manage", "iam:grant:manage", "iam:role:assign", "iam:member:manage"},
                set m | m in c.members && c.members[m] == Active && m != "")
  }

  lemma ActiveMembersAre(c: CoreTenant)
    ensures ActiveMembers(c) == ActiveGuard(c.members, "")
  {
  }
}
