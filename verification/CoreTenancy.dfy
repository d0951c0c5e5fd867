/** The Core layer over the kernel: memberships, the policy guard around every Manager transaction, member
    management, and the invariant that some active member always holds every administrator permission. */
module CoreTenancy {
  import opened Wrappers
  import opened Text
  import opened Ordering
  import opened Policy
  import opened GrantGraph
  import opened Tenancy
  import opened TenantInvariants
  import opened Delegation

  datatype MemberStatus = Active | Suspended

  datatype CoreTenant = CoreTenant(policy: Tenant, members: map<SubjectID, MemberStatus>)

  const PERMISSION_ROLE_MANAGE: PermissionKey := "iam:role:manage"
  const PERMISSION_GRANT_MANAGE: PermissionKey := "iam:grant:manage"
  const PERMISSION_ROLE_ASSIGN: PermissionKey := "iam:role:assign"
  const PERMISSION_MEMBER_MANAGE: PermissionKey := "iam:member:manage"

  // administratorPermissions
  const ADMINISTRATOR_PERMISSIONS: set<PermissionKey> :=
    {PERMISSION_ROLE_MANAGE, PERMISSION_GRANT_MANAGE, PERMISSION_ROLE_ASSIGN, PERMISSION_MEMBER_MANAGE}

  const CORE_CONTROLS := Controls(PERMISSION_ROLE_MANAGE, PERMISSION_GRANT_MANAGE, PERMISSION_ROLE_ASSIGN)

  predicate IsActive(members: map<SubjectID, MemberStatus>, account: SubjectID) {
    account in members && members[account] == Active
  }

  // The rows of hasActiveAdministrator: active members other than the excluded account.
  function ActiveGuard(members: map<SubjectID, MemberStatus>, exclude: SubjectID): Guard {
    MemberGuard(ADMINISTRATOR_PERMISSIONS, set m | m in members && IsActive(members, m) && m != exclude)
  }

  // policyGuard
  datatype PolicyGuard = PolicyGuard(
    actor: SubjectID, target: SubjectID, roleID: RoleID, version: int, assign: bool, grant: bool)

  function GuardMembers(members: map<SubjectID, MemberStatus>, guard: PolicyGuard): Option<Error> {
    if guard.actor != "" && !IsActive(members, guard.actor) then Some(Forbidden)
    else if guard.target != "" && (guard.target !in members || (guard.assign && !IsActive(members, guard.target))) then
      Some(NotFound)
    else None
  }

  function GuardVersion(t: Tenant, guard: PolicyGuard): Option<Error> {
    if guard.version <= 0 then None
    else if guard.roleID !in t.roles then Some(NotFound)
    else if t.roles[guard.roleID].version != guard.version then Some(Conflict)
    else None
  }

  // Some permission held at tenant scope, with malformed rows reported first.
  function RequireTenantWide(t: Tenant, actor: SubjectID, permission: PermissionKey): Option<Error> {
    if Malformed(t, actor, permission) then Some(InvalidPolicyRow)
    else if HoldsTenantWide(t, actor, permission) then None
    else Some(Forbidden)
  }

  function FirstError(a: Option<Error>, b: Option<Error>): Option<Error> {
    if a.Some? then a else b
  }

  function GuardError(c: CoreTenant, guard: PolicyGuard): Option<Error> {
    FirstError(GuardMembers(c.members, guard),
               FirstError(GuardVersion(c.policy, guard),
                          if guard.grant then RequireTenantWide(c.policy, guard.actor, PERMISSION_GRANT_MANAGE)
                          else None))
  }

  // corePolicyStore.MutateTenant around one Manager operation.
  ghost function MutateCore(cfg: Config, c: CoreTenant, guard: PolicyGuard, actor: Principal, meta: Metadata,
                            command: Command): Result<(CoreTenant, MutationResult), Error>
  {
    if !ValidCommand(cfg, actor, meta, command) then Err(InvalidInput)
    else
      var before := GuardError(c, guard);
      if before.Some? then Err(before.value)
      else match Mutate(cfg, ActiveGuard(c.members, ""), c.policy, actor, meta, command)
        case Err(e) => Err(e)
        case Ok((after, result)) =>
          var last := GuardLastAdministrator(after, cfg, ActiveGuard(c.members, ""));
          if last.Some? then Err(last.value) else Ok((c.(policy := after), result))
  }

  function BindingsOf(t: Tenant, account: SubjectID): set<(SubjectID, RoleID)> {
    set key | key in t.bindings && key.0 == account
  }

  // The two DELETE statements of a removal: edges by grantee, bindings by subject.
  function WithoutSubject(t: Tenant, account: SubjectID): Tenant {
    t.(edges := (set e | e in t.edges && e.grantee != account), bindings := t.bindings - BindingsOf(t, account))
  }

  function MemberAudit(t: Tenant, actor: Principal, meta: Metadata, operation: string, account: SubjectID,
                       changed: bool): Tenant
  {
    Audited(t, actor, meta, operation, "member", account, if changed then AuditSuccess else AuditNoop, 0)
  }

  // ManageMember: suspend, resume or remove.
  datatype MemberChange = SetStatus(status: MemberStatus) | Remove

  function ChangeName(change: MemberChange): string {
    match change
    case Remove => "member.remove"
    case SetStatus(Suspended) => "member.suspend"
    case SetStatus(Active) => "member.resume"
  }

  function ManageMember(cfg: Config, c: CoreTenant, actor: Principal, meta: Metadata, account: SubjectID,
                        change: MemberChange): Result<CoreTenant, Error>
  {
    if !ValidID(account) then Err(InvalidInput)
    else
      var allowed := if IsActive(c.members, actor.subjectID) then
                       RequireTenantWide(c.policy, actor.subjectID, PERMISSION_MEMBER_MANAGE)
                     else Some(Forbidden);
      if allowed.Some? then Err(allowed.value)
      else if account !in c.members then Err(NotFound)
      else
        var last := if change == SetStatus(Active) then None
                    else GuardLastAdministrator(c.policy, cfg, ActiveGuard(c.members, account));
        if last.Some? then Err(last.value)
        else match change
          case Remove =>
            var policy := WithoutSubject(c.policy, account);
            Ok(CoreTenant(MemberAudit(policy, actor, meta, ChangeName(change), account, true), c.members - {account}))
          case SetStatus(status) =>
            Ok(CoreTenant(MemberAudit(c.policy, actor, meta, ChangeName(change), account, c.members[account] != status),
                          c.members[account := status]))
  }

  // AcceptInvitation inserts an active membership unless one exists; ProvisionMember also reactivates.
  function JoinMember(c: CoreTenant, account: SubjectID, provision: bool): Result<CoreTenant, Error> {
    if provision || account !in c.members then Ok(c.(members := c.members[account := Active]))
    else if !IsActive(c.members, account) then Err(Conflict)
    else Ok(c)
  }

  // ---------- The invariant ----------

  ghost predicate CoreInvariant(cfg: Config, root: set<Grant>, c: CoreTenant) {
    && Structure(c.policy) && Closed(c.policy, root) && c.policy.bootstrapped
    && HasAdministrator(c.policy, cfg, ActiveGuard(c.members, ""))
  }

  // An administrator among fewer eligible subjects is one among more.
  lemma MoreEligible(t: Tenant, cfg: Config, fewer: Guard, more: Guard)
    requires fewer.MemberGuard? && more.MemberGuard? && fewer.permissions == more.permissions
    requires forall key | key in t.bindings && key.0 in fewer.active :: key.0 in more.active
    requires HasAdministrator(t, cfg, fewer)
    ensures HasAdministrator(t, cfg, more)
  {
  }

  lemma MutateCoreKeeps(cfg: Config, root: set<Grant>, c: CoreTenant, guard: PolicyGuard, actor: Principal,
                        meta: Metadata, command: Command)
    requires CoreInvariant(cfg, root, c)
    requires MutateCore(cfg, c, guard, actor, meta, command).Ok?
    ensures var after := MutateCore(cfg, c, guard, actor, meta, command).value.0;
            CoreInvariant(cfg, root, after) && HistoryKept(c.policy, after.policy) && after.members == c.members
  {
    hide Mutate, Structure, Closed, HasAdministrator, GuardError, ActiveGuard, HistoryKept;
    MutateKeeps(cfg, ActiveGuard(c.members, ""), c.policy, actor, meta, command);
    MutateCloses(cfg, ActiveGuard(c.members, ""), c.policy, root, actor, meta, command);
    MutateKeepsBootstrap(cfg, ActiveGuard(c.members, ""), c.policy, actor, meta, command);
  }

  // The post-check of the wrapper never fires: the operation itself already keeps an active administrator.
  lemma PostCheckRedundant(cfg: Config, root: set<Grant>, c: CoreTenant, actor: Principal, meta: Metadata,
                           command: Command)
    requires CoreInvariant(cfg, root, c)
    requires Mutate(cfg, ActiveGuard(c.members, ""), c.policy, actor, meta, command).Ok?
    ensures GuardLastAdministrator(Mutate(cfg, ActiveGuard(c.members, ""), c.policy, actor, meta, command).value.0, cfg,
                                   ActiveGuard(c.members, "")).None?
  {
    var guard := ActiveGuard(c.members, "");
    var after := Mutate(cfg, guard, c.policy, actor, meta, command).value.0;
    MutateKeeps(cfg, guard, c.policy, actor, meta, command);
    MutateKeepsAdministrator(cfg, guard, c.policy, actor, meta, command);
    hide Mutate, EdgesExact, Acyclic, VersionsExact, HasAdministrator;
    WellFormedControls(cfg, guard, after);
  }

  lemma WellFormedControls(cfg: Config, guard: Guard, t: Tenant)
    requires RowsValid(t)
    ensures !MalformedControl(t, cfg, guard)
  {
  }

  // No subject is the empty identifier, which the query uses to exclude nobody.
  ghost predicate SubjectsNamed(t: Tenant) {
    forall key | key in t.bindings :: key.0 != ""
  }

  // Removing a member's bindings leaves what every other subject holds.
  lemma RemovalKeepsAdministrator(cfg: Config, c: CoreTenant, account: SubjectID, audit: seq<AuditEvent>)
    requires HasAdministrator(c.policy, cfg, ActiveGuard(c.members, account)) && SubjectsNamed(c.policy)
    ensures HasAdministrator(Unbound(c.policy, BindingsOf(c.policy, account)).(audit := audit), cfg,
                             ActiveGuard(c.members - {account}, ""))
  {
    var t, after := c.policy, Unbound(c.policy, BindingsOf(c.policy, account)).(audit := audit);
    var fewer, more := ActiveGuard(c.members, account), ActiveGuard(c.members - {account}, "");
    var key :| key in t.bindings && Eligible(fewer, key.0) && IsAdministrator(t, ADMINISTRATOR_PERMISSIONS, key.0);
    forall p | p in ADMINISTRATOR_PERMISSIONS ensures HoldsTenantWide(after, key.0, p) {
      assert HoldsTenantWide(t, key.0, p);
      var g :| g in t.grants && Holds(t, key.0, g) && g.permission == p && g.scope == ScopeTenant;
      assert Holds(after, key.0, g);
    }
    assert key in after.bindings && Eligible(more, key.0) && IsAdministrator(after, ADMINISTRATOR_PERMISSIONS, key.0);
  }

  lemma StatusKeepsAdministrator(cfg: Config, c: CoreTenant, account: SubjectID, status: MemberStatus,
                                 audit: seq<AuditEvent>)
    requires HasAdministrator(c.policy, cfg, ActiveGuard(c.members, if status == Suspended then account else ""))
    requires SubjectsNamed(c.policy)
    ensures HasAdministrator(c.policy.(audit := audit), cfg, ActiveGuard(c.members[account := status], ""))
  {
    var fewer := ActiveGuard(c.members, if status == Suspended then account else "");
    var more := ActiveGuard(c.members[account := status], "");
    forall key | key in c.policy.bindings && key.0 in fewer.active ensures key.0 in more.active {
    }
    MoreEligible(c.policy, cfg, fewer, more);
    SameAdministrator(c.policy, c.policy.(audit := audit), cfg, more);
  }

  lemma StructureNamesSubjects(t: Tenant)
    requires Structure(t)
    ensures SubjectsNamed(t)
  {
    hide EdgesExact, Acyclic, VersionsExact, ValidGrant;
    forall key | key in t.bindings ensures key.0 != "" {
      assert ValidID(key.0);
    }
  }

  // The edges to a member are exactly the edges of the member's bindings, so a removal leaves no edge
  // without its binding and no delegated binding without its edge.
  lemma RemovalUnbinds(t: Tenant, account: SubjectID)
    requires Structure(t)
    ensures WithoutSubject(t, account) == Unbound(t, BindingsOf(t, account))
  {
    hide RowsValid, Acyclic, VersionsExact;
    assert WithoutSubject(t, account).edges == Unbound(t, BindingsOf(t, account)).edges;
  }

  lemma ManageMemberKeeps(cfg: Config, root: set<Grant>, c: CoreTenant, actor: Principal, meta: Metadata,
                          account: SubjectID, change: MemberChange)
    requires CoreInvariant(cfg, root, c)
    requires ManageMember(cfg, c, actor, meta, account, change).Ok?
    ensures var after := ManageMember(cfg, c, actor, meta, account, change).value;
            CoreInvariant(cfg, root, after) && HistoryKept(c.policy, after.policy)
  {
    hide Structure, HasAdministrator, RequireTenantWide, ActiveGuard, HistoryKept, MalformedControl;
    var after := ManageMember(cfg, c, actor, meta, account, change).value;
    match change {
      case Remove =>
        StructureNamesSubjects(c.policy);
        RemovalUnbinds(c.policy, account);
        UnbindKeeps(c.policy, BindingsOf(c.policy, account), after.policy.audit);
        RemovalKeepsAdministrator(cfg, c, account, after.policy.audit);
      case SetStatus(status) =>
        StructureNamesSubjects(c.policy);
        NoChangeKeeps(c.policy, after.policy.audit);
        StatusKeepsAdministrator(cfg, c, account, status, after.policy.audit);
    }
  }

  lemma JoinMemberKeeps(cfg: Config, root: set<Grant>, c: CoreTenant, account: SubjectID, provision: bool)
    requires CoreInvariant(cfg, root, c) && JoinMember(c, account, provision).Ok?
    ensures CoreInvariant(cfg, root, JoinMember(c, account, provision).value)
  {
    hide Structure, Closed;
    var after := JoinMember(c, account, provision).value;
    MoreEligible(c.policy, cfg, ActiveGuard(c.members, ""), ActiveGuard(after.members, ""));
  }

  // ---------- Runs of an activated tenant ----------

  datatype CoreAction =
    | PolicyAction(guard: PolicyGuard, actor: Principal, meta: Metadata, command: Command)
    | ManageAction(actor: Principal, meta: Metadata, account: SubjectID, change: MemberChange)
    | JoinAction(account: SubjectID, provision: bool)

  ghost function PerformCore(cfg: Config, c: CoreTenant, a: CoreAction): CoreTenant {
    match a
    case PolicyAction(guard, actor, meta, command) =>
      (match MutateCore(cfg, c, guard, actor, meta, command)
       case Ok(result) => result.0
       case Err(_) => c)
    case ManageAction(actor, meta, account, change) =>
      (match ManageMember(cfg, c, actor, meta, account, change)
       case Ok(after) => after
       case Err(_) => c)
    case JoinAction(account, provision) =>
      (match JoinMember(c, account, provision)
       case Ok(after) => after
       case Err(_) => c)
  }

  ghost function RunCore(cfg: Config, c: CoreTenant, actions: seq<CoreAction>): CoreTenant {
    if actions == [] then c
    else PerformCore(cfg, RunCore(cfg, c, actions[..|actions| - 1]), actions[|actions| - 1])
  }

  lemma {:induction false} RunCoreKeeps(cfg: Config, root: set<Grant>, c: CoreTenant, actions: seq<CoreAction>)
    requires CoreInvariant(cfg, root, c)
    ensures CoreInvariant(cfg, root, RunCore(cfg, c, actions)) && HistoryKept(c.policy, RunCore(cfg, c, actions).policy)
  {
    hide CoreInvariant, HistoryKept, MutateCore, ManageMember;
    if actions == [] {
      HistoryReflexive(c.policy);
    } else {
      var last := actions[|actions| - 1];
      var before := RunCore(cfg, c, actions[..|actions| - 1]);
      RunCoreKeeps(cfg, root, c, actions[..|actions| - 1]);
      HistoryReflexive(before.policy);
      match last {
        case PolicyAction(guard, actor, meta, command) =>
          if MutateCore(cfg, before, guard, actor, meta, command).Ok? {
            MutateCoreKeeps(cfg, root, before, guard, actor, meta, command);
          }
        case ManageAction(actor, meta, account, change) =>
          if ManageMember(cfg, before, actor, meta, account, change).Ok? {
            ManageMemberKeeps(cfg, root, before, actor, meta, account, change);
          }
        case JoinAction(account, provision) =>
          if JoinMember(before, account, provision).Ok? {
            JoinMemberKeeps(cfg, root, before, account, provision);
          }
      }
      HistoryTransitive(c.policy, before.policy, PerformCore(cfg, before, last).policy);
    }
  }

  // Activation: the bootstrapped tenant with its owner as the only, active, member.
  ghost predicate Activated(cfg: Config, input: BootstrapInput, initiator: string, c: CoreTenant) {
    && BootstrapTenant(cfg, EMPTY_TENANT, input, initiator).Ok?
    && c == CoreTenant(BootstrapTenant(cfg, EMPTY_TENANT, input, initiator).value, map[input.ownerSubjectID := Active])
    && cfg.controls == CORE_CONTROLS
    && exists g | g in input.grants :: g.permission == PERMISSION_MEMBER_MANAGE && g.scope == ScopeTenant
  }

  lemma ActivationHasAdministrator(cfg: Config, input: BootstrapInput, initiator: string, c: CoreTenant)
    requires Activated(cfg, input, initiator, c)
    ensures HasAdministrator(c.policy, cfg, ActiveGuard(c.members, ""))
  {
    var t, owner := c.policy, input.ownerSubjectID;
    forall p | p in ADMINISTRATOR_PERMISSIONS ensures HoldsTenantWide(t, owner, p) {
      OwnerHolds(cfg, input, initiator, p);
    }
    assert (owner, input.ownerRoleID) in t.bindings && IsAdministrator(t, ADMINISTRATOR_PERMISSIONS, owner);
    assert Eligible(ActiveGuard(c.members, ""), owner) by {
      assert ValidID(owner) && IsActive(c.members, owner);
    }
  }

  lemma OwnerHolds(cfg: Config, input: BootstrapInput, initiator: string, p: PermissionKey)
    requires BootstrapTenant(cfg, EMPTY_TENANT, input, initiator).Ok?
    requires || p in GuardPermissions(cfg, KernelGuard)
             || exists g | g in input.grants :: g.permission == p && g.scope == ScopeTenant
    ensures HoldsTenantWide(BootstrapTenant(cfg, EMPTY_TENANT, input, initiator).value, input.ownerSubjectID, p)
  {
    hide ValidEntry, BootstrapGrants, Listing, ValidID, ValidRoleName;
    var t := BootstrapTenant(cfg, EMPTY_TENANT, input, initiator).value;
    var g :| g in input.grants && g.permission == p && g.scope == ScopeTenant;
    var i :| 0 <= i < |input.grants| && input.grants[i] == g;
    LastEntrySurvives(input, i);
    var kept :| kept in BootstrapGrants(input) && kept.permission == p && kept.scope == ScopeTenant;
    BootstrapRows(cfg, input, kept);
    assert Holds(t, input.ownerSubjectID, kept);
  }

  // The main theorem of the Core layer: through any run of guarded operations, suspensions, resumptions,
  // removals and joins, some active member holds all four administrator permissions, and the kernel's
  // invariants hold as well.
  lemma ActivatedRun(cfg: Config, input: BootstrapInput, initiator: string, c: CoreTenant, actions: seq<CoreAction>)
    requires Activated(cfg, input, initiator, c)
    ensures var after := RunCore(cfg, c, actions);
            && (exists m | m in after.members ::
                  IsActive(after.members, m) && IsAdministrator(after.policy, ADMINISTRATOR_PERMISSIONS, m))
            && HasAdministrator(after.policy, cfg, KernelGuard)
            && Structure(after.policy) && Closed(after.policy, BootstrapGrants(input))
            && HistoryKept(c.policy, after.policy)
  {
    BootstrapStructure(cfg, input, initiator);
    ActivationHasAdministrator(cfg, input, initiator, c);
    hide Structure, Closed, BootstrapGrants, BootstrapTenant, HistoryKept, RunCore;
    assert c.policy.bootstrapped by {
      BootstrapSnapshot(cfg, input, initiator);
    }
    RunCoreKeeps(cfg, BootstrapGrants(input), c, actions);
    ActiveIsKernelAdministrator(cfg, RunCore(cfg, c, actions));
  }

  lemma ActiveIsKernelAdministrator(cfg: Config, c: CoreTenant)
    requires HasAdministrator(c.policy, cfg, ActiveGuard(c.members, "")) && cfg.controls == CORE_CONTROLS
    ensures HasAdministrator(c.policy, cfg, KernelGuard)
    ensures exists m | m in c.members ::
      IsActive(c.members, m) && IsAdministrator(c.policy, ADMINISTRATOR_PERMISSIONS, m)
  {
    var guard := ActiveGuard(c.members, "");
    var key :| key in c.policy.bindings
               && Eligible(guard, key.0)
               && IsAdministrator(c.policy, ADMINISTRATOR_PERMISSIONS, key.0);
    assert IsAdministrator(c.policy, GuardPermissions(cfg, KernelGuard), key.0);
  }
}
