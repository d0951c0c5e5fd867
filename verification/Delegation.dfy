/** Safety over whole runs of a tenant: delegated authority never exceeds what bootstrap granted, and an
    administrator always remains. */
module Delegation {
  import opened Wrappers
  import opened Text
  import opened Ordering
  import opened Policy
  import opened GrantGraph
  import opened Tenancy
  import opened TenantInvariants
  import Authorizer

  // ---------- Authority closure ----------

  lemma CoveredIsRooted(t: Tenant, root: set<Grant>, actor: SubjectID, g: Grant)
    requires Closed(t, root) && RequireCover(t, actor, g).None?
    ensures Rooted(g, root)
  {
    var held :| held in EffectiveGrants(t, actor, g.permission)
                && AllowDelegation(g.permission, g.scope, g.workspaceRoles, false, held);
    assert Rooted(held, root);
    var c :| c in root && Covers(c, held);
    CoverageTransitive(c, held, g);
  }

  lemma MutateCloses(cfg: Config, guard: Guard, t: Tenant, root: set<Grant>, actor: Principal, meta: Metadata,
                     c: Command)
    requires Closed(t, root) && Mutate(cfg, guard, t, actor, meta, c).Ok?
    ensures Closed(Mutate(cfg, guard, t, actor, meta, c).value.0, root)
  {
    hide RequireCover, Rooted, GuardLastAdministrator, RequireRoleCoverage;
    var after := Mutate(cfg, guard, t, actor, meta, c).value.0;
    forall g | g in after.grants ensures Rooted(g, root) {
      if g !in t.grants {
        NewGrantCovered(cfg, guard, t, actor, meta, c, g);
        CoveredIsRooted(t, root, actor.subjectID, g);
      }
    }
  }

  // A grant that an operation adds is covered by the actor at that moment.
  lemma NewGrantCovered(cfg: Config, guard: Guard, t: Tenant, actor: Principal, meta: Metadata, c: Command, g: Grant)
    requires Mutate(cfg, guard, t, actor, meta, c).Ok?
    requires g in Mutate(cfg, guard, t, actor, meta, c).value.0.grants && g !in t.grants
    ensures RequireCover(t, actor.subjectID, g).None?
  {
    hide RequireCover, GuardLastAdministrator, RequireRoleCoverage, RequireControl, GrantOfInput, Snapshot;
    match c {
      case CreateRole(roleID, name, description) =>
      case CreateRoleWithPermissions(roleID, name, description, permissions) =>
        assert g in TenantGrants(roleID, permissions);
      case GrantPermission(roleID, expected, permission, scope, roles) =>
      case _ =>
    }
  }

  // Whatever a subject may do, some root grant allows under the same facts.
  lemma NoEscalation(t: Tenant, root: set<Grant>, catalog: set<PermissionKey>, subject: SubjectID,
                     request: CheckRequest, rows: seq<Grant>, lookup: Authorizer.Lookup)
    requires Closed(t, root)
    requires forall g | g in rows :: g in EffectiveGrants(t, subject, request.permission)
    requires Authorizer.Decide(catalog, request, Ok(rows), lookup).allowed
    ensures exists c | c in root :: Authorizer.Satisfies(request, lookup, c)
  {
    Authorizer.AllowedIff(catalog, request, rows, lookup);
    var g :| g in rows && Authorizer.Satisfies(request, lookup, g);
    assert Rooted(g, root);
    var c :| c in root && Covers(c, g);
    DelegationSound(c, g, request, Authorizer.MembershipRole(lookup), Authorizer.IsMember(request, lookup));
  }

  // ---------- One step ----------

  // The subject gains or loses the grant in this step.
  predicate Differs(t: Tenant, after: Tenant, subject: SubjectID, g: Grant) {
    Holds(t, subject, g) != Holds(after, subject, g)
  }

  ghost predicate HeldCover(t: Tenant, actor: SubjectID, g: Grant) {
    exists held | held in EffectiveGrants(t, actor, g.permission) :: Covers(held, g)
  }

  lemma CoverIsHeld(t: Tenant, actor: SubjectID, g: Grant)
    requires RequireCover(t, actor, g).None?
    ensures HeldCover(t, actor, g)
  {
    var held :| held in EffectiveGrants(t, actor, g.permission)
                && AllowDelegation(g.permission, g.scope, g.workspaceRoles, false, held);
    assert Covers(held, g);
  }

  lemma RoleCoverIsHeld(cfg: Config, t: Tenant, actor: SubjectID, g: Grant)
    requires RequireRoleCoverage(cfg, t, actor, g.roleID).None? && g in t.grants
    ensures HeldCover(t, actor, g)
  {
    hide RequireCover;
    assert g in RoleGrants(t, g.roleID);
    CoverIsHeld(t, actor, g);
  }

  // Nobody holds a grant of a role that is not stored.
  lemma NewRoleUnheld(t: Tenant, roleID: RoleID)
    requires Structure(t) && roleID !in t.roles
    ensures !HasSubjects(t, roleID)
  {
  }

  lemma RoleStepsChangeNothing(cfg: Config, guard: Guard, t: Tenant, actor: Principal, meta: Metadata, c: Command,
                               subject: SubjectID, g: Grant)
    requires Structure(t) && Mutate(cfg, guard, t, actor, meta, c).Ok?
    requires c.CreateRole? || c.CreateRoleWithPermissions? || c.UpdateRole? || c.DeleteRole?
    ensures !Differs(t, Mutate(cfg, guard, t, actor, meta, c).value.0, subject, g)
  {
    hide Structure, RequireControl, RequireCoverAll, ValidCommand, Snapshot;
    if c.roleID !in t.roles {
      NewRoleUnheld(t, c.roleID);
    } else {
      VersionOfRole(t, c.roleID);
    }
  }

  lemma GrantStepsCovered(cfg: Config, guard: Guard, t: Tenant, actor: Principal, meta: Metadata, grant: Grant,
                          expected: int, subject: SubjectID, g: Grant)
    requires Structure(t)
    ensures var outcome := GrantPermissionStep(cfg, t, actor, meta, grant, expected);
      outcome.Ok? && Differs(t, outcome.value.0, subject, g) ==> HeldCover(t, actor.subjectID, g)
    ensures var outcome := RevokePermissionStep(cfg, guard, t, actor, meta, grant, expected);
      outcome.Ok? && Differs(t, outcome.value.0, subject, g) ==> HeldCover(t, actor.subjectID, g)
  {
    hide Structure, RequireCover, GuardLastAdministrator, Snapshot, HeldCover;
    if grant.roleID in t.roles {
      VersionOfRole(t, grant.roleID);
    }
    if RequireCover(t, actor.subjectID, grant).None? {
      CoverIsHeld(t, actor.subjectID, grant);
    }
  }

  lemma BindingStepsCovered(cfg: Config, guard: Guard, t: Tenant, actor: Principal, meta: Metadata, target: SubjectID,
                            roleID: RoleID, expected: int, subject: SubjectID, g: Grant)
    ensures var outcome := AssignRoleStep(cfg, t, actor, meta, target, roleID, expected);
      outcome.Ok? && Differs(t, outcome.value.0, subject, g) ==> HeldCover(t, actor.subjectID, g)
    ensures var outcome := UnassignRoleStep(cfg, guard, t, actor, meta, target, roleID, expected);
      outcome.Ok? && Differs(t, outcome.value.0, subject, g) ==> HeldCover(t, actor.subjectID, g)
  {
    hide RequireControl, RequireRoleCoverage, GuardLastAdministrator, HeldCover, Reach;
    if g.roleID == roleID && g in t.grants && RequireRoleCoverage(cfg, t, actor.subjectID, roleID).None? {
      RoleCoverIsHeld(cfg, t, actor.subjectID, g);
    }
  }

  // Whatever anybody gains or loses by an operation, the actor's own grants cover it at that moment.
  lemma ChangesAreCovered(cfg: Config, guard: Guard, t: Tenant, actor: Principal, meta: Metadata, c: Command,
                          subject: SubjectID, g: Grant)
    requires Structure(t) && Mutate(cfg, guard, t, actor, meta, c).Ok?
    requires Differs(t, Mutate(cfg, guard, t, actor, meta, c).value.0, subject, g)
    ensures HeldCover(t, actor.subjectID, g)
  {
    hide Structure, HeldCover, Differs, CreateRoleStep, UpdateRoleStep, DeleteRoleStep, GrantPermissionStep,
         RevokePermissionStep, AssignRoleStep, UnassignRoleStep, GrantOfInput;
    match c {
      case GrantPermission(roleID, expected, permission, scope, roles) =>
        GrantStepsCovered(cfg, guard, t, actor, meta, GrantOfInput(cfg, roleID, permission, scope, roles).value,
                          expected, subject, g);
      case RevokePermission(roleID, expected, permission, scope, roles) =>
        GrantStepsCovered(cfg, guard, t, actor, meta, GrantOfInput(cfg, roleID, permission, scope, roles).value,
                          expected, subject, g);
      case AssignRole(target, roleID, expected) =>
        BindingStepsCovered(cfg, guard, t, actor, meta, target, roleID, expected, subject, g);
      case UnassignRole(target, roleID, expected) =>
        BindingStepsCovered(cfg, guard, t, actor, meta, target, roleID, expected, subject, g);
      case _ => RoleStepsChangeNothing(cfg, guard, t, actor, meta, c, subject, g);
    }
  }

  // ---------- An administrator remains ----------

  lemma AdministratorMonotone(t: Tenant, after: Tenant, cfg: Config, guard: Guard)
    requires HasAdministrator(t, cfg, guard)
    requires forall key | key in t.bindings :: key in after.bindings
    requires forall s, g | Holds(t, s, g) :: Holds(after, s, g)
    ensures HasAdministrator(after, cfg, guard)
  {
    var key :| key in t.bindings && Eligible(guard, key.0) && IsAdministrator(t, GuardPermissions(cfg, guard), key.0);
    forall p | p in GuardPermissions(cfg, guard) ensures HoldsTenantWide(after, key.0, p) {
      assert HoldsTenantWide(t, key.0, p);
      var g :| g in t.grants && Holds(t, key.0, g) && g.permission == p && g.scope == ScopeTenant;
      assert Holds(after, key.0, g);
    }
    assert IsAdministrator(after, GuardPermissions(cfg, guard), key.0);
  }

  // Storing the next version of a role takes no held grant away, unless it tombstones a role in use.
  lemma WithRoleHolds(t: Tenant, role: Role, createdBy: SubjectID, audit: seq<AuditEvent>, s: SubjectID, g: Grant)
    requires Holds(t, s, g)
    requires role.deleted ==> !HasSubjects(t, role.roleID)
    ensures Holds(WithRole(t, role, createdBy).(audit := audit), s, g)
  {
  }

  lemma WithRoleAdministrator(t: Tenant, base: Tenant, role: Role, createdBy: SubjectID, audit: seq<AuditEvent>,
                              cfg: Config, guard: Guard)
    requires HasAdministrator(t, cfg, guard)
    requires base == t.(grants := base.grants) && t.grants <= base.grants
    requires role.deleted ==> !HasSubjects(t, role.roleID)
    ensures HasAdministrator(WithRole(base, role, createdBy).(audit := audit), cfg, guard)
  {
    var after := WithRole(base, role, createdBy).(audit := audit);
    forall s, g | Holds(t, s, g) ensures Holds(after, s, g) {
      assert Holds(base, s, g);
      WithRoleHolds(base, role, createdBy, audit, s, g);
    }
    AdministratorMonotone(t, after, cfg, guard);
  }

  lemma RoleStepsKeepAdministrator(cfg: Config, guard: Guard, t: Tenant, actor: Principal, meta: Metadata, c: Command)
    requires HasAdministrator(t, cfg, guard) && Structure(t) && Mutate(cfg, guard, t, actor, meta, c).Ok?
    requires c.CreateRole? || c.CreateRoleWithPermissions? || c.UpdateRole? || c.DeleteRole?
    ensures HasAdministrator(Mutate(cfg, guard, t, actor, meta, c).value.0, cfg, guard)
  {
    hide HasAdministrator, RequireCover, RequireCoverAll, RequireControl, ValidCommand, Snapshot, WithRole, Structure;
    var after := Mutate(cfg, guard, t, actor, meta, c).value.0;
    match c {
      case CreateRole(roleID, name, description) =>
        WithRoleAdministrator(t, t.(grants := t.grants + TenantGrants(roleID, [])),
                              Role(roleID, TrimSpace(name), TrimSpace(description), 1, false), actor.subjectID,
                              after.audit, cfg, guard);
      case CreateRoleWithPermissions(roleID, name, description, permissions) =>
        WithRoleAdministrator(t, t.(grants := t.grants + TenantGrants(roleID, permissions)),
                              Role(roleID, TrimSpace(name), TrimSpace(description), 1, false), actor.subjectID,
                              after.audit, cfg, guard);
      case UpdateRole(roleID, expected, name, description) =>
        var role := t.roles[roleID].(name := TrimSpace(name), description := TrimSpace(description),
                                     version := expected + 1);
        WithRoleAdministrator(t, t, role, actor.subjectID, after.audit, cfg, guard);
      case DeleteRole(roleID, expected) =>
        VersionOfRole(t, roleID);
        WithRoleAdministrator(t, t, t.roles[roleID].(deleted := true, version := expected + 1), actor.subjectID,
                              after.audit, cfg, guard);
    }
  }

  lemma GrantKeepsAdministrator(cfg: Config, guard: Guard, t: Tenant, actor: Principal, meta: Metadata, grant: Grant,
                                expected: int)
    requires HasAdministrator(t, cfg, guard) && GrantPermissionStep(cfg, t, actor, meta, grant, expected).Ok?
    ensures HasAdministrator(GrantPermissionStep(cfg, t, actor, meta, grant, expected).value.0, cfg, guard)
  {
    hide HasAdministrator, RequireCover, Snapshot, WithRole;
    var after := GrantPermissionStep(cfg, t, actor, meta, grant, expected).value.0;
    if grant in t.grants {
      SameAdministrator(t, after, cfg, guard);
    } else {
      var role := t.roles[grant.roleID];
      WithRoleAdministrator(t, t.(grants := t.grants + {grant}), role.(version := role.version + 1), actor.subjectID,
                            after.audit, cfg, guard);
    }
  }

  lemma RevokeKeepsAdministrator(cfg: Config, guard: Guard, t: Tenant, actor: Principal, meta: Metadata, grant: Grant,
                                 expected: int)
    requires HasAdministrator(t, cfg, guard) && RevokePermissionStep(cfg, guard, t, actor, meta, grant, expected).Ok?
    ensures HasAdministrator(RevokePermissionStep(cfg, guard, t, actor, meta, grant, expected).value.0, cfg, guard)
  {
    hide HasAdministrator, RequireCover, Snapshot, WithRole, MalformedControl;
    var after := RevokePermissionStep(cfg, guard, t, actor, meta, grant, expected).value.0;
    if grant !in t.grants {
      SameAdministrator(t, after, cfg, guard);
    } else {
      var role := t.roles[grant.roleID];
      var removed := t.(grants := t.grants - {grant});
      WithRoleAdministrator(removed, removed, role.(version := role.version + 1), actor.subjectID, after.audit, cfg,
                            guard);
    }
  }

  lemma UnassignKeepsAdministrator(cfg: Config, guard: Guard, t: Tenant, actor: Principal, meta: Metadata,
                                   subject: SubjectID, roleID: RoleID, expected: int)
    requires HasAdministrator(t, cfg, guard)
    requires UnassignRoleStep(cfg, guard, t, actor, meta, subject, roleID, expected).Ok?
    ensures HasAdministrator(UnassignRoleStep(cfg, guard, t, actor, meta, subject, roleID, expected).value.0, cfg,
                             guard)
  {
    hide HasAdministrator, RequireControl, RequireRoleCoverage, MalformedControl;
    var after := UnassignRoleStep(cfg, guard, t, actor, meta, subject, roleID, expected).value.0;
    if (subject, roleID) in t.bindings {
      SameAdministrator(t.(bindings := t.bindings - {(subject, roleID)}), after, cfg, guard);
    } else {
      SameAdministrator(t, after, cfg, guard);
    }
  }

  lemma AssignKeepsAdministrator(cfg: Config, guard: Guard, t: Tenant, actor: Principal, meta: Metadata,
                                 subject: SubjectID, roleID: RoleID, expected: int)
    requires HasAdministrator(t, cfg, guard) && AssignRoleStep(cfg, t, actor, meta, subject, roleID, expected).Ok?
    ensures HasAdministrator(AssignRoleStep(cfg, t, actor, meta, subject, roleID, expected).value.0, cfg, guard)
  {
    hide HasAdministrator, RequireControl, RequireRoleCoverage, Reach;
    SameAdministrator(t, AssignRoleStep(cfg, t, actor, meta, subject, roleID, expected).value.0, cfg, guard);
  }

  // No operation leaves the tenant without an administrator of the guard's kind.
  lemma MutateKeepsAdministrator(cfg: Config, guard: Guard, t: Tenant, actor: Principal, meta: Metadata, c: Command)
    requires HasAdministrator(t, cfg, guard) && Structure(t)
    requires Mutate(cfg, guard, t, actor, meta, c).Ok?
    ensures HasAdministrator(Mutate(cfg, guard, t, actor, meta, c).value.0, cfg, guard)
  {
    hide HasAdministrator, Structure, CreateRoleStep, UpdateRoleStep, DeleteRoleStep, GrantPermissionStep,
         RevokePermissionStep, AssignRoleStep, UnassignRoleStep, GrantOfInput;
    match c {
      case GrantPermission(roleID, expected, permission, scope, roles) =>
        GrantKeepsAdministrator(cfg, guard, t, actor, meta, GrantOfInput(cfg, roleID, permission, scope, roles).value,
                                expected);
      case RevokePermission(roleID, expected, permission, scope, roles) =>
        RevokeKeepsAdministrator(cfg, guard, t, actor, meta, GrantOfInput(cfg, roleID, permission, scope, roles).value,
                                 expected);
      case AssignRole(subject, roleID, expected) =>
        AssignKeepsAdministrator(cfg, guard, t, actor, meta, subject, roleID, expected);
      case UnassignRole(subject, roleID, expected) =>
        UnassignKeepsAdministrator(cfg, guard, t, actor, meta, subject, roleID, expected);
      case _ => RoleStepsKeepAdministrator(cfg, guard, t, actor, meta, c);
    }
  }

  // Bindings only added, roles and grants the same.
  lemma SameAdministrator(t: Tenant, after: Tenant, cfg: Config, guard: Guard)
    requires HasAdministrator(t, cfg, guard)
    requires after.roles == t.roles && after.grants == t.grants
    requires forall key | key in t.bindings :: key in after.bindings
    ensures HasAdministrator(after, cfg, guard)
  {
    AdministratorMonotone(t, after, cfg, guard);
  }

  // ---------- Bootstrap and runs ----------

  // What holds in every state of a bootstrapped tenant whose bootstrap granted root.
  ghost predicate TenantInvariant(cfg: Config, guard: Guard, root: set<Grant>, t: Tenant) {
    t.bootstrapped && Structure(t) && Closed(t, root) && HasAdministrator(t, cfg, guard)
  }

  lemma BootstrapRows(cfg: Config, input: BootstrapInput, g: Grant)
    requires ValidBootstrap(cfg, input) && g in BootstrapGrants(input)
    ensures ValidGrant(g, g.permission) && g.roleID == input.ownerRoleID && g.permission in cfg.catalog
  {
    var i :| 0 <= i < |input.grants| && IsLastEntry(input.grants, i) && g == NormalGrant(input.grants[i]);
    assert input.grants[i] in input.grants;
    NormalizedValid(input.grants[i].workspaceRoles);
  }

  // The last entry for a permission and scope survives the de-duplication.
  lemma {:induction false} LastEntrySurvives(input: BootstrapInput, i: nat)
    requires i < |input.grants|
    ensures exists g | g in BootstrapGrants(input) ::
      g.permission == input.grants[i].permission && g.scope == input.grants[i].scope
    decreases |input.grants| - i
  {
    if IsLastEntry(input.grants, i) {
      assert NormalGrant(input.grants[i]) in BootstrapGrants(input);
    } else {
      var j :| i < j < |input.grants|
               && input.grants[j].permission == input.grants[i].permission
               && input.grants[j].scope == input.grants[i].scope;
      LastEntrySurvives(input, j);
    }
  }

  lemma BootstrapControl(cfg: Config, input: BootstrapInput, p: PermissionKey)
    requires ValidBootstrap(cfg, input) && p in GuardPermissions(cfg, KernelGuard)
    ensures exists g | g in BootstrapGrants(input) ::
      g.roleID == input.ownerRoleID && g.permission == p && g.scope == ScopeTenant
  {
    var g :| g in input.grants && g.permission == p && g.scope == ScopeTenant;
    var i :| 0 <= i < |input.grants| && input.grants[i] == g;
    LastEntrySurvives(input, i);
    var kept :| kept in BootstrapGrants(input) && kept.permission == p && kept.scope == ScopeTenant;
    BootstrapRows(cfg, input, kept);
  }

  lemma BootstrapAdministrator(cfg: Config, input: BootstrapInput, initiator: string)
    requires BootstrapTenant(cfg, EMPTY_TENANT, input, initiator).Ok?
    ensures HasAdministrator(BootstrapTenant(cfg, EMPTY_TENANT, input, initiator).value, cfg, KernelGuard)
  {
    hide ValidBootstrap, BootstrapGrants, GuardPermissions, Listing;
    var t := BootstrapTenant(cfg, EMPTY_TENANT, input, initiator).value;
    var key := (input.ownerSubjectID, input.ownerRoleID);
    forall p | p in GuardPermissions(cfg, KernelGuard) ensures HoldsTenantWide(t, key.0, p) {
      BootstrapControl(cfg, input, p);
      var kept :| kept in BootstrapGrants(input)
                  && kept.roleID == input.ownerRoleID
                  && kept.permission == p
                  && kept.scope == ScopeTenant;
      assert Holds(t, key.0, kept);
    }
    assert key in t.bindings && IsAdministrator(t, GuardPermissions(cfg, KernelGuard), key.0);
  }

  lemma BootstrapStructure(cfg: Config, input: BootstrapInput, initiator: string)
    requires BootstrapTenant(cfg, EMPTY_TENANT, input, initiator).Ok?
    ensures var t := BootstrapTenant(cfg, EMPTY_TENANT, input, initiator).value;
            Structure(t) && Closed(t, BootstrapGrants(input))
  {
    var t := BootstrapTenant(cfg, EMPTY_TENANT, input, initiator).value;
    forall g | g in t.grants
      ensures Live(t, g.roleID) && ValidGrant(g, g.permission) && Rooted(g, BootstrapGrants(input))
    {
      BootstrapRows(cfg, input, g);
      assert Covers(g, g);
    }
    assert t.grants == BootstrapGrants(input);
    assert RoleGrants(t, input.ownerRoleID) == BootstrapGrants(input) by {
      forall g | g in t.grants ensures g.roleID == input.ownerRoleID {
        BootstrapRows(cfg, input, g);
      }
    }
    assert RoleHistoryExact(t, input.ownerRoleID);
    NoEdgesAcyclic();
  }

  // One request to the Manager: a failed one leaves the state as it was.
  datatype Action = Action(actor: Principal, meta: Metadata, command: Command)

  ghost function Perform(cfg: Config, guard: Guard, t: Tenant, a: Action): Tenant {
    match Mutate(cfg, guard, t, a.actor, a.meta, a.command)
    case Ok(result) => result.0
    case Err(_) => t
  }

  ghost function Run(cfg: Config, guard: Guard, t: Tenant, actions: seq<Action>): Tenant {
    if actions == [] then t
    else Perform(cfg, guard, Run(cfg, guard, t, actions[..|actions| - 1]), actions[|actions| - 1])
  }

  lemma HistoryTransitive(a: Tenant, b: Tenant, c: Tenant)
    requires HistoryKept(a, b) && HistoryKept(b, c)
    ensures HistoryKept(a, c)
  {
  }

  lemma {:induction false} RunKeeps(cfg: Config, guard: Guard, root: set<Grant>, t: Tenant, actions: seq<Action>)
    requires TenantInvariant(cfg, guard, root, t)
    ensures TenantInvariant(cfg, guard, root, Run(cfg, guard, t, actions))
    ensures HistoryKept(t, Run(cfg, guard, t, actions))
  {
    hide Structure, Closed, HasAdministrator, HistoryKept, Mutate;
    if actions == [] {
      HistoryReflexive(t);
    } else {
      var last := actions[|actions| - 1];
      var before := Run(cfg, guard, t, actions[..|actions| - 1]);
      RunKeeps(cfg, guard, root, t, actions[..|actions| - 1]);
      var outcome := Mutate(cfg, guard, before, last.actor, last.meta, last.command);
      if outcome.Ok? {
        MutateKeeps(cfg, guard, before, last.actor, last.meta, last.command);
        MutateCloses(cfg, guard, before, root, last.actor, last.meta, last.command);
        MutateKeepsAdministrator(cfg, guard, before, last.actor, last.meta, last.command);
        MutateKeepsBootstrap(cfg, guard, before, last.actor, last.meta, last.command);
        HistoryTransitive(t, before, outcome.value.0);
      }
    }
  }

  lemma HistoryReflexive(t: Tenant)
    ensures HistoryKept(t, t)
  {
  }

  lemma MutateKeepsBootstrap(cfg: Config, guard: Guard, t: Tenant, actor: Principal, meta: Metadata, c: Command)
    requires Mutate(cfg, guard, t, actor, meta, c).Ok?
    ensures Mutate(cfg, guard, t, actor, meta, c).value.0.bootstrapped == t.bootstrapped
  {
    hide RequireCover, RequireCoverAll, RequireRoleCoverage, RequireControl, GuardLastAdministrator, GrantOfInput,
         Snapshot;
  }

  // The main theorem of the kernel: after any run of a bootstrapped tenant, edges are exact and acyclic,
  // snapshots are exact, an administrator exists, and every grant is covered by the grants that the
  // owner role's first snapshot still shows.
  lemma BootstrappedRun(cfg: Config, input: BootstrapInput, initiator: string, actions: seq<Action>)
    requires BootstrapTenant(cfg, EMPTY_TENANT, input, initiator).Ok?
    ensures var t0 := BootstrapTenant(cfg, EMPTY_TENANT, input, initiator).value;
            var t := Run(cfg, KernelGuard, t0, actions);
            && Structure(t) && HistoryKept(t0, t) && HasAdministrator(t, cfg, KernelGuard)
            && (input.ownerRoleID, 1) in t.versions
            && Elements(t.versions[(input.ownerRoleID, 1)].grants) == BootstrapGrants(input)
            && Closed(t, Elements(t.versions[(input.ownerRoleID, 1)].grants))
  {
    var t0 := BootstrapTenant(cfg, EMPTY_TENANT, input, initiator).value;
    var t := Run(cfg, KernelGuard, t0, actions);
    var root := BootstrapGrants(input);
    BootstrapStructure(cfg, input, initiator);
    BootstrapAdministrator(cfg, input, initiator);
    BootstrapSnapshot(cfg, input, initiator);
    hide BootstrapTenant, Structure, HasAdministrator, Closed, BootstrapGrants, Run;
    RunKeeps(cfg, KernelGuard, root, t0, actions);
    assert t.versions[(input.ownerRoleID, 1)] == t0.versions[(input.ownerRoleID, 1)];
  }

  // Hence no subject is ever allowed anything that the owner's first grants would not allow under the
  // same facts.
  lemma AuthorityBounded(cfg: Config, input: BootstrapInput, initiator: string, actions: seq<Action>,
                         subject: SubjectID, request: CheckRequest, rows: seq<Grant>, lookup: Authorizer.Lookup)
    requires BootstrapTenant(cfg, EMPTY_TENANT, input, initiator).Ok?
    requires var t := Run(cfg, KernelGuard, BootstrapTenant(cfg, EMPTY_TENANT, input, initiator).value, actions);
      forall g | g in rows :: g in EffectiveGrants(t, subject, request.permission)
    requires Authorizer.Decide(cfg.catalog, request, Ok(rows), lookup).allowed
    ensures exists c | c in BootstrapGrants(input) :: Authorizer.Satisfies(request, lookup, c)
  {
    hide BootstrapTenant, Structure, HasAdministrator, Closed, BootstrapGrants, EffectiveGrants, Authorizer.Decide,
         Authorizer.Satisfies;
    BootstrappedRun(cfg, input, initiator, actions);
    NoEscalation(Run(cfg, KernelGuard, BootstrapTenant(cfg, EMPTY_TENANT, input, initiator).value, actions),
                 BootstrapGrants(input), cfg.catalog, subject, request, rows, lookup);
  }

  // A tombstoned role has no grants, bindings or edges, keeps its tombstone, and its identifier stays taken.
  lemma TombstoneIsFinal(cfg: Config, guard: Guard, root: set<Grant>, t: Tenant, actions: seq<Action>, roleID: RoleID)
    requires TenantInvariant(cfg, guard, root, t) && roleID in t.roles && t.roles[roleID].deleted
    ensures var after := Run(cfg, guard, t, actions);
      && roleID in after.roles && after.roles[roleID] == t.roles[roleID] && RoleGrants(after, roleID) == {}
      && (forall key | key in after.bindings :: key.1 != roleID) && (forall e | e in after.edges :: e.roleID != roleID)
  {
    hide Run, HasAdministrator, Closed, Acyclic, VersionsExact;
    RunKeeps(cfg, guard, root, t, actions);
  }

  lemma BootstrapSnapshot(cfg: Config, input: BootstrapInput, initiator: string)
    requires BootstrapTenant(cfg, EMPTY_TENANT, input, initiator).Ok?
    ensures var t0 := BootstrapTenant(cfg, EMPTY_TENANT, input, initiator).value;
            t0.bootstrapped && (input.ownerRoleID, 1) in t0.versions
            && Elements(t0.versions[(input.ownerRoleID, 1)].grants) == BootstrapGrants(input)
  {
    hide BootstrapGrants;
    BootstrapListing(cfg, input);
  }

  lemma BootstrapListing(cfg: Config, input: BootstrapInput)
    requires ValidBootstrap(cfg, input)
    ensures IsListing(Listing(BootstrapGrants(input), GrantOrder), BootstrapGrants(input), GrantOrder)
  {
    var items := BootstrapGrants(input);
    forall a, b | a in items && b in items && GrantOrder(a) == GrantOrder(b) ensures a == b {
      BootstrapRows(cfg, input, a);
      BootstrapRows(cfg, input, b);
      OrderInjective(a, b);
    }
    ListingExists(items, GrantOrder);
  }

  // The grants of a snapshot are exactly the role's grants, each once and in order.
  lemma SnapshotShowsGrants(t: Tenant, roleID: RoleID)
    requires Structure(t) && roleID in t.roles
    ensures IsListing(t.versions[(roleID, t.roles[roleID].version)].grants, RoleGrants(t, roleID), GrantOrder)
  {
    assert RoleHistoryExact(t, roleID);
    var items := RoleGrants(t, roleID);
    forall a, b | a in items && b in items && GrantOrder(a) == GrantOrder(b) ensures a == b {
      OrderInjective(a, b);
    }
    ListingExists(items, GrantOrder);
  }

  // Before bootstrap no request can succeed, so a run starts with bootstrap or does nothing.
  lemma NothingBeforeBootstrap(cfg: Config, guard: Guard, actor: Principal, meta: Metadata, c: Command)
    ensures Mutate(cfg, guard, EMPTY_TENANT, actor, meta, c).Err?
  {
    var s := actor.subjectID;
    assert forall p :: EffectiveGrants(EMPTY_TENANT, s, p) == {};
    assert RequireControl(EMPTY_TENANT, s, cfg.controls.manageRoles) == Some(Forbidden);
    assert RequireControl(EMPTY_TENANT, s, cfg.controls.assignRoles) == Some(Forbidden);
    if ValidCommand(cfg, actor, meta, c) && (c.GrantPermission? || c.RevokePermission?) {
      var g := GrantOfInput(cfg, c.roleID, c.permission, c.scope, c.workspaceRoles).value;
      assert RequireCover(EMPTY_TENANT, s, g) == Some(Forbidden);
    }
  }
}
