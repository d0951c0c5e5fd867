/** The authorization state of one tenant and the effect of every Manager and Bootstrapper operation on
    it, as functions from state to state. Timestamps are left out of every record. */
module Tenancy {
  import opened Wrappers
  import opened Text
  import opened Ordering
  import opened Policy
  import opened GrantGraph

  datatype Role = Role(roleID: RoleID, name: string, description: string, version: int, deleted: bool)

  datatype Provenance = Delegated | BootstrapProvenance

  datatype Binding = Binding(subjectID: SubjectID, roleID: RoleID, grantor: SubjectID, provenance: Provenance)

  datatype RoleVersion = RoleVersion(
    roleID: RoleID, version: int, name: string, description: string, grants: seq<Grant>,
    deleted: bool, createdBy: SubjectID, bootstrapInitiator: string)

  datatype AuditOutcome = AuditSuccess | AuditNoop

  datatype AuditEvent = AuditEvent(
    actor: SubjectID, hostInitiator: string, operation: string, targetType: string, targetID: string,
    outcome: AuditOutcome, reasonCode: string, requestID: string, roleVersion: int)

  datatype Metadata = Metadata(requestID: string, reasonCode: string)

  datatype Error =
    | InvalidInput | Forbidden | Conflict | NotFound | GrantCycle | LastAdministrator
    | AlreadyBootstrapped | InvalidPolicyRow | Cancelled

  // The policy tables of one tenant, keyed by their primary keys.
  datatype Tenant = Tenant(
    roles: map<RoleID, Role>,
    grants: set<Grant>,
    bindings: map<(SubjectID, RoleID), Binding>,
    edges: set<EdgeKey>,
    versions: map<(RoleID, int), RoleVersion>,
    audit: seq<AuditEvent>,
    bootstrapped: bool)

  const EMPTY_TENANT := Tenant(map[], {}, map[], {}, map[], [], false)

  datatype Controls = Controls(manageRoles: PermissionKey, manageGrants: PermissionKey, assignRoles: PermissionKey)

  datatype Config = Config(catalog: set<PermissionKey>, controls: Controls)

  // Which administrator check guards removals: the kernel's own, or the Core layer's over active members.
  datatype Guard = KernelGuard | MemberGuard(permissions: set<PermissionKey>, active: set<SubjectID>)

  datatype MutationResult = MutationResult(changed: bool, roleVersion: int)

  type Outcome = Result<(Tenant, MutationResult), Error>

  // ---------- Reading the state ----------

  predicate Live(t: Tenant, roleID: RoleID) {
    roleID in t.roles && !t.roles[roleID].deleted
  }

  // ListEffectiveGrants
  predicate Holds(t: Tenant, subject: SubjectID, g: Grant) {
    g in t.grants && Live(t, g.roleID) && (subject, g.roleID) in t.bindings
  }

  function EffectiveGrants(t: Tenant, subject: SubjectID, permission: PermissionKey): set<Grant> {
    set g | g in t.grants && Holds(t, subject, g) && g.permission == permission
  }

  function RoleGrants(t: Tenant, roleID: RoleID): set<Grant> {
    set g | g in t.grants && g.roleID == roleID
  }

  predicate HasSubjects(t: Tenant, roleID: RoleID) {
    exists key | key in t.bindings :: key.1 == roleID
  }

  function ScopeText(scope: Scope): string {
    match scope
    case ScopeOwn => "own"
    case ScopeWorkspace => "workspace"
    case ScopeTenant => "tenant"
    case ScopeUnknown(text) => text
  }

  // The comparison of sortedGrants: permission, scope, printed role list.
  function GrantOrder(g: Grant): Key {
    [g.permission, ScopeText(g.scope), "[" + Join(g.workspaceRoles, ' ') + "]"]
  }

  // Known scope and valid role names, which is what every caller of the store has checked.
  predicate Normal(g: Grant) {
    !g.scope.ScopeUnknown? && forall r | r in g.workspaceRoles :: ValidSegment(r)
  }

  // The sort order tells normal grants of one role apart.
  lemma OrderInjective(a: Grant, b: Grant)
    requires Normal(a) && Normal(b) && a.roleID == b.roleID && GrantOrder(a) == GrantOrder(b)
    ensures a == b
  {
    assert && GrantOrder(a)[0] == GrantOrder(b)[0]
           && GrantOrder(a)[1] == GrantOrder(b)[1]
           && GrantOrder(a)[2] == GrantOrder(b)[2];
    var x, y := Join(a.workspaceRoles, ' '), Join(b.workspaceRoles, ' ');
    assert ("[" + x + "]")[1..|x| + 1] == x && ("[" + y + "]")[1..|y| + 1] == y;
    SegmentsJoinable(a.workspaceRoles, ' ');
    SegmentsJoinable(b.workspaceRoles, ' ');
    JoinInjective(a.workspaceRoles, b.workspaceRoles, ' ');
  }

  lemma SegmentsJoinable(roles: seq<string>, separator: char)
    requires forall r | r in roles :: ValidSegment(r)
    requires separator == ',' || separator == ' '
    ensures Joinable(roles, separator)
  {
    forall r | r in roles ensures r != "" && separator !in r {
      assert ValidSegment(r);
    }
  }

  ghost function SortedGrants(t: Tenant, roleID: RoleID): seq<Grant> {
    Listing(RoleGrants(t, roleID), GrantOrder)
  }

  function RoleOrder(role: string): Key {
    [role]
  }

  // ---------- Authority checks ----------

  predicate Malformed(t: Tenant, actor: SubjectID, permission: PermissionKey) {
    exists g | g in EffectiveGrants(t, actor, permission) :: !ValidGrant(g, permission)
  }

  // requireGrant
  function RequireGrant(t: Tenant, actor: SubjectID, permission: PermissionKey, scope: Scope, roles: seq<string>,
                        exact: bool): Option<Error>
  {
    if Malformed(t, actor, permission) then Some(InvalidPolicyRow)
    else if exists g | g in EffectiveGrants(t, actor, permission) ::
              AllowDelegation(permission, scope, roles, exact, g) then
      None
    else Some(Forbidden)
  }

  function RequireControl(t: Tenant, actor: SubjectID, permission: PermissionKey): Option<Error> {
    RequireGrant(t, actor, permission, ScopeTenant, [], true)
  }

  function RequireCover(t: Tenant, actor: SubjectID, g: Grant): Option<Error> {
    RequireGrant(t, actor, g.permission, g.scope, g.workspaceRoles, false)
  }

  // Covering several grants in permission order: the smallest uncovered permission decides the error.
  predicate FirstUncovered(t: Tenant, actor: SubjectID, needs: set<Grant>, g: Grant) {
    && g in needs && RequireCover(t, actor, g).Some?
    && forall h | h in needs && RequireCover(t, actor, h).Some? :: !StringLess(h.permission, g.permission)
  }

  function RequireCoverAll(t: Tenant, actor: SubjectID, needs: set<Grant>): Option<Error> {
    if forall g | g in needs :: RequireCover(t, actor, g).None? then None
    else if exists g | g in needs :: FirstUncovered(t, actor, needs, g) && Malformed(t, actor, g.permission) then
      Some(InvalidPolicyRow)
    else Some(Forbidden)
  }

  // requireRoleCoverage: every row of the role is validated before any coverage is checked.
  function RequireRoleCoverage(cfg: Config, t: Tenant, actor: SubjectID, roleID: RoleID): Option<Error> {
    if exists g | g in RoleGrants(t, roleID) :: g.permission !in cfg.catalog || !ValidGrant(g, g.permission) then
      Some(InvalidPolicyRow)
    else RequireCoverAll(t, actor, RoleGrants(t, roleID))
  }

  // ---------- Administrators ----------

  function GuardPermissions(cfg: Config, guard: Guard): set<PermissionKey> {
    match guard
    case KernelGuard => {cfg.controls.manageRoles, cfg.controls.manageGrants, cfg.controls.assignRoles}
    case MemberGuard(permissions, _) => permissions
  }

  predicate Eligible(guard: Guard, subject: SubjectID) {
    guard.KernelGuard? || subject in guard.active
  }

  predicate HoldsTenantWide(t: Tenant, subject: SubjectID, permission: PermissionKey) {
    exists g | g in t.grants :: Holds(t, subject, g) && g.permission == permission && g.scope == ScopeTenant
  }

  predicate IsAdministrator(t: Tenant, permissions: set<PermissionKey>, subject: SubjectID) {
    forall p | p in permissions :: HoldsTenantWide(t, subject, p)
  }

  predicate HasAdministrator(t: Tenant, cfg: Config, guard: Guard) {
    exists key | key in t.bindings ::
      Eligible(guard, key.0) && IsAdministrator(t, GuardPermissions(cfg, guard), key.0)
  }

  // A row that HasAdministrator reads and Coverage.Add rejects.
  predicate MalformedControl(t: Tenant, cfg: Config, guard: Guard) {
    exists key, g | key in t.bindings && g in t.grants ::
      && Holds(t, key.0, g) && key.1 == g.roleID && g.permission in GuardPermissions(cfg, guard)
      && Eligible(guard, key.0)
      && !(ValidID(key.0) && ValidGrant(g, g.permission))
  }

  // guardLastAdministrator
  function GuardLastAdministrator(t: Tenant, cfg: Config, guard: Guard): Option<Error> {
    if MalformedControl(t, cfg, guard) then Some(InvalidPolicyRow)
    else if HasAdministrator(t, cfg, guard) then None
    else Some(LastAdministrator)
  }

  // ---------- Input validation ----------

  predicate ValidMetadata(meta: Metadata) {
    && 0 < |meta.reasonCode| <= 64
    && (forall i | 0 <= i < |meta.reasonCode| ::
          var c := meta.reasonCode[i]; 'a' <= c <= 'z' || '0' <= c <= '9' || c == '_' || c == '-')
    && Utf8Length(meta.requestID) <= 128
  }

  predicate ValidRoleName(name: string) {
    var trimmed := TrimSpace(name);
    0 < |trimmed| <= 64 && forall i | 0 <= i < |trimmed| :: trimmed[i] >= ' ' && trimmed[i] != '\U{007F}'
  }

  // normalizeWorkspaceRoles: trimmed, valid, distinct, sorted.
  ghost function NormalizeWorkspaceRoles(roles: seq<string>): Option<seq<string>> {
    if exists r | r in roles :: !ValidSegment(TrimSpace(r)) then None
    else Some(Listing(set r | r in roles :: TrimSpace(r), RoleOrder))
  }

  // validateGrantInput
  ghost function GrantOfInput(cfg: Config, roleID: RoleID, permission: PermissionKey, scope: Scope,
                              roles: seq<string>): Option<Grant>
  {
    if !ValidID(roleID) || !ValidPermission(permission) || permission !in cfg.catalog || scope.ScopeUnknown? then None
    else match NormalizeWorkspaceRoles(roles)
      case None => None
      case Some(normal) => Some(Grant(roleID, permission, scope, normal))
  }

  datatype Command =
    | CreateRole(roleID: RoleID, name: string, description: string)
    | CreateRoleWithPermissions(roleID: RoleID, name: string, description: string, permissions: seq<PermissionKey>)
    | UpdateRole(roleID: RoleID, expectedVersion: int, name: string, description: string)
    | DeleteRole(roleID: RoleID, expectedVersion: int)
    | GrantPermission(roleID: RoleID, expectedVersion: int, permission: PermissionKey, scope: Scope,
                      workspaceRoles: seq<string>)
    | RevokePermission(roleID: RoleID, expectedVersion: int, permission: PermissionKey, scope: Scope,
                       workspaceRoles: seq<string>)
    | AssignRole(subjectID: SubjectID, roleID: RoleID, expectedVersion: int)
    | UnassignRole(subjectID: SubjectID, roleID: RoleID, expectedVersion: int)

  // The checks that run before a transaction opens.
  ghost predicate ValidCommand(cfg: Config, actor: Principal, meta: Metadata, c: Command) {
    && ValidMetadata(meta) && ValidID(actor.tenantID) && ValidID(actor.subjectID) && ValidID(c.roleID)
    && match c
       case CreateRole(_, name, _) => ValidRoleName(name)
       case CreateRoleWithPermissions(_, name, _, permissions) =>
         && ValidRoleName(name) && |permissions| <= |cfg.catalog|
         && forall p | p in permissions :: ValidPermission(p) && p in cfg.catalog
       case UpdateRole(_, _, name, _) => ValidRoleName(name)
       case DeleteRole(_, _) => true
       case GrantPermission(roleID, _, permission, scope, roles) =>
         GrantOfInput(cfg, roleID, permission, scope, roles).Some?
       case RevokePermission(roleID, _, permission, scope, roles) =>
         GrantOfInput(cfg, roleID, permission, scope, roles).Some?
       case AssignRole(subjectID, _, _) => ValidID(subjectID)
       case UnassignRole(subjectID, _, _) => ValidID(subjectID)
  }

  // ---------- The operations ----------

  function Audited(t: Tenant, actor: Principal, meta: Metadata, operation: string, targetType: string, targetID: string,
                   outcome: AuditOutcome, version: int): Tenant
  {
    t.(audit := t.audit + [AuditEvent(actor.subjectID, "", operation, targetType, targetID, outcome, meta.reasonCode,
                                      meta.requestID, version)])
  }

  // The live role, if the caller's expected version is current.
  function CurrentRole(t: Tenant, roleID: RoleID, expected: int): Result<Role, Error> {
    if !Live(t, roleID) then Err(NotFound)
    else if t.roles[roleID].version != expected then Err(Conflict)
    else Ok(t.roles[roleID])
  }

  // The snapshot of a role as it stands after a change.
  ghost function Snapshot(t: Tenant, role: Role, createdBy: SubjectID): RoleVersion {
    RoleVersion(role.roleID, role.version, role.name, role.description, SortedGrants(t, role.roleID), role.deleted,
                createdBy, "")
  }

  // Stores a role together with the snapshot of its new version.
  ghost function WithRole(t: Tenant, role: Role, createdBy: SubjectID): (after: Tenant)
    ensures after == t.(roles := after.roles, versions := after.versions)
  {
    var stored := t.(roles := t.roles[role.roleID := role]);
    stored.(versions := t.versions[(role.roleID, role.version) := Snapshot(stored, role, createdBy)])
  }

  function TenantGrants(roleID: RoleID, permissions: seq<PermissionKey>): set<Grant> {
    set p | p in permissions :: Grant(roleID, p, ScopeTenant, [])
  }

  ghost function CreateRoleStep(cfg: Config, t: Tenant, actor: Principal, meta: Metadata, roleID: RoleID, name: string,
                                description: string, permissions: seq<PermissionKey>): Outcome
  {
    var needs := TenantGrants(roleID, permissions);
    var control := RequireControl(t, actor.subjectID, cfg.controls.manageRoles);
    if control.Some? then Err(control.value)
    else
      var cover := RequireCoverAll(t, actor.subjectID, needs);
      if cover.Some? then Err(cover.value)
      else if roleID in t.roles then Err(Conflict)
      else
        var role := Role(roleID, TrimSpace(name), TrimSpace(description), 1, false);
        var created := WithRole(t.(grants := t.grants + needs), role, actor.subjectID);
        Ok((Audited(created, actor, meta, "role.create", "role", roleID, AuditSuccess, 1), MutationResult(true, 1)))
  }

  ghost function UpdateRoleStep(cfg: Config, t: Tenant, actor: Principal, meta: Metadata, roleID: RoleID, expected: int,
                                name: string, description: string): Outcome
  {
    var control := RequireControl(t, actor.subjectID, cfg.controls.manageRoles);
    if control.Some? then Err(control.value)
    else match CurrentRole(t, roleID, expected)
      case Err(e) => Err(e)
      case Ok(role) =>
        var next := role.(name := TrimSpace(name), description := TrimSpace(description), version := expected + 1);
        Ok((Audited(WithRole(t, next, actor.subjectID), actor, meta,
                    "role.update", "role", roleID, AuditSuccess, next.version),
            MutationResult(true, next.version)))
  }

  ghost function DeleteRoleStep(cfg: Config, t: Tenant, actor: Principal, meta: Metadata, roleID: RoleID,
                                expected: int): Outcome
  {
    var control := RequireControl(t, actor.subjectID, cfg.controls.manageRoles);
    if control.Some? then Err(control.value)
    else match CurrentRole(t, roleID, expected)
      case Err(e) => Err(e)
      case Ok(role) =>
        if RoleGrants(t, roleID) != {} || HasSubjects(t, roleID) then Err(Conflict)
        else
          var next := role.(deleted := true, version := expected + 1);
          Ok((Audited(WithRole(t, next, actor.subjectID), actor, meta,
                      "role.delete", "role", roleID, AuditSuccess, next.version),
              MutationResult(true, next.version)))
  }

  ghost function GrantPermissionStep(cfg: Config, t: Tenant, actor: Principal, meta: Metadata, grant: Grant,
                                     expected: int): Outcome
  {
    var cover := RequireCover(t, actor.subjectID, grant);
    if cover.Some? then Err(cover.value)
    else match CurrentRole(t, grant.roleID, expected)
      case Err(e) => Err(e)
      case Ok(role) =>
        if grant in t.grants then
          Ok((Audited(t, actor, meta, "grant.permission", "role_permission", grant.roleID, AuditNoop, role.version),
              MutationResult(false, role.version)))
        else
          var next := role.(version := role.version + 1);
          var changed := WithRole(t.(grants := t.grants + {grant}), next, actor.subjectID);
          Ok((Audited(changed, actor, meta,
                      "grant.permission", "role_permission", grant.roleID, AuditSuccess, next.version),
              MutationResult(true, next.version)))
  }

  ghost function RevokePermissionStep(cfg: Config, guard: Guard, t: Tenant, actor: Principal, meta: Metadata,
                                      grant: Grant, expected: int): Outcome
  {
    var cover := RequireCover(t, actor.subjectID, grant);
    if cover.Some? then Err(cover.value)
    else match CurrentRole(t, grant.roleID, expected)
      case Err(e) => Err(e)
      case Ok(role) =>
        if grant !in t.grants then
          Ok((Audited(t, actor, meta, "revoke.permission", "role_permission", grant.roleID, AuditNoop, role.version),
              MutationResult(false, role.version)))
        else
          var removed := t.(grants := t.grants - {grant});
          var admin := GuardLastAdministrator(removed, cfg, guard);
          if admin.Some? then Err(admin.value)
          else
            var next := role.(version := role.version + 1);
            Ok((Audited(WithRole(removed, next, actor.subjectID), actor, meta,
                        "revoke.permission", "role_permission", grant.roleID, AuditSuccess, next.version),
                MutationResult(true, next.version)))
  }

  ghost function AssignRoleStep(cfg: Config, t: Tenant, actor: Principal, meta: Metadata, subject: SubjectID,
                                roleID: RoleID, expected: int): Outcome
  {
    var control := RequireControl(t, actor.subjectID, cfg.controls.assignRoles);
    if control.Some? then Err(control.value)
    else match CurrentRole(t, roleID, expected)
      case Err(e) => Err(e)
      case Ok(role) =>
        var cover := RequireRoleCoverage(cfg, t, actor.subjectID, roleID);
        if cover.Some? then Err(cover.value)
        else if actor.subjectID != subject && Reach(t.edges, subject, actor.subjectID) then Err(GrantCycle)
        else if (subject, roleID) in t.bindings then
          Ok((Audited(t, actor, meta, "assign.role", "subject_role", subject, AuditNoop, role.version),
              MutationResult(false, role.version)))
        else
          var row := Binding(subject, roleID, actor.subjectID, Delegated);
          var changed := t.(bindings := t.bindings[(subject, roleID) := row],
                            edges := t.edges + {EdgeKey(actor.subjectID, subject, roleID)});
          Ok((Audited(changed, actor, meta, "assign.role", "subject_role", subject, AuditSuccess, role.version),
              MutationResult(true, role.version)))
  }

  ghost function UnassignRoleStep(cfg: Config, guard: Guard, t: Tenant, actor: Principal, meta: Metadata,
                                  subject: SubjectID, roleID: RoleID, expected: int): Outcome
  {
    var control := RequireControl(t, actor.subjectID, cfg.controls.assignRoles);
    if control.Some? then Err(control.value)
    else if !Live(t, roleID) then Err(NotFound)
    else if expected != 0 && t.roles[roleID].version != expected then Err(Conflict)
    else
      var version := t.roles[roleID].version;
      var cover := RequireRoleCoverage(cfg, t, actor.subjectID, roleID);
      if cover.Some? then Err(cover.value)
      else if (subject, roleID) !in t.bindings then
        Ok((Audited(t, actor, meta, "unassign.role", "subject_role", subject, AuditNoop, version),
            MutationResult(false, version)))
      else
        var binding := t.bindings[(subject, roleID)];
        var removed := t.(bindings := t.bindings - {(subject, roleID)});
        var admin := GuardLastAdministrator(removed, cfg, guard);
        if admin.Some? then Err(admin.value)
        else
          var edges := if binding.provenance == Delegated && binding.grantor != "" then
                         t.edges - {EdgeKey(binding.grantor, subject, roleID)}
                       else t.edges;
          Ok((Audited(removed.(edges := edges), actor, meta,
                      "unassign.role", "subject_role", subject, AuditSuccess, version),
              MutationResult(true, version)))
  }

  ghost function Mutate(cfg: Config, guard: Guard, t: Tenant, actor: Principal, meta: Metadata, c: Command): Outcome {
    if !ValidCommand(cfg, actor, meta, c) then Err(InvalidInput)
    else match c
      case CreateRole(roleID, name, description) => CreateRoleStep(cfg, t, actor, meta, roleID, name, description, [])
      case CreateRoleWithPermissions(roleID, name, description, permissions) =>
        CreateRoleStep(cfg, t, actor, meta, roleID, name, description, permissions)
      case UpdateRole(roleID, expected, name, description) =>
        UpdateRoleStep(cfg, t, actor, meta, roleID, expected, name, description)
      case DeleteRole(roleID, expected) => DeleteRoleStep(cfg, t, actor, meta, roleID, expected)
      case GrantPermission(roleID, expected, permission, scope, roles) =>
        GrantPermissionStep(cfg, t, actor, meta, GrantOfInput(cfg, roleID, permission, scope, roles).value, expected)
      case RevokePermission(roleID, expected, permission, scope, roles) =>
        RevokePermissionStep(cfg, guard, t, actor, meta, GrantOfInput(cfg, roleID, permission, scope, roles).value,
                             expected)
      case AssignRole(subject, roleID, expected) => AssignRoleStep(cfg, t, actor, meta, subject, roleID, expected)
      case UnassignRole(subject, roleID, expected) =>
        UnassignRoleStep(cfg, guard, t, actor, meta, subject, roleID, expected)
  }

  // ---------- Bootstrap ----------

  datatype BootstrapInput = BootstrapInput(
    tenantID: TenantID, ownerSubjectID: SubjectID, ownerRoleID: RoleID, name: string, description: string,
    grants: seq<Grant>, metadata: Metadata)

  // No later entry has the same permission and scope.
  predicate IsLastEntry(grants: seq<Grant>, i: nat)
    requires i < |grants|
  {
    forall j | i < j < |grants| :: !(grants[j].permission == grants[i].permission && grants[j].scope == grants[i].scope)
  }

  ghost function NormalGrant(g: Grant): Grant {
    match NormalizeWorkspaceRoles(g.workspaceRoles)
    case Some(roles) => g.(workspaceRoles := roles)
    case None => g
  }

  // One grant per permission and scope: a later entry replaces an earlier one.
  ghost function BootstrapGrants(input: BootstrapInput): set<Grant> {
    set i | 0 <= i < |input.grants| && IsLastEntry(input.grants, i) :: NormalGrant(input.grants[i])
  }

  ghost predicate ValidEntry(cfg: Config, input: BootstrapInput, g: Grant) {
    && g.roleID == input.ownerRoleID && ValidPermission(g.permission) && g.permission in cfg.catalog
    && !g.scope.ScopeUnknown? && NormalizeWorkspaceRoles(g.workspaceRoles).Some?
  }

  // What is checked before the host is asked to authorize.
  predicate WellFormedBootstrap(input: BootstrapInput) {
    && ValidID(input.tenantID) && ValidID(input.ownerSubjectID) && ValidID(input.ownerRoleID)
    && ValidRoleName(input.name)
    && 0 < Utf8Length(input.metadata.reasonCode) <= 64 && Utf8Length(input.metadata.requestID) <= 128
    && |input.grants| > 0
  }

  ghost predicate ValidBootstrap(cfg: Config, input: BootstrapInput) {
    && WellFormedBootstrap(input)
    && (forall g | g in input.grants :: ValidEntry(cfg, input, g))
    && (forall p | p in GuardPermissions(cfg, KernelGuard) ::
          exists g | g in input.grants :: g.permission == p && g.scope == ScopeTenant)
  }

  // The state after the owner role, its grants and the owner's binding are stored.
  ghost function OwnerState(t: Tenant, input: BootstrapInput, initiator: string,
                            grants: set<Grant>): Result<Tenant, Error>
  {
    if t.bootstrapped then Err(AlreadyBootstrapped)
    else if input.ownerRoleID in t.roles then Err(Conflict)
    else
      var role := Role(input.ownerRoleID, TrimSpace(input.name), TrimSpace(input.description), 1, false);
      var key := (input.ownerSubjectID, role.roleID);
      var owner := Binding(input.ownerSubjectID, role.roleID, "", BootstrapProvenance);
      var snapshot := RoleVersion(role.roleID, 1, role.name, role.description, Listing(grants, GrantOrder), false, "",
                                  initiator);
      Ok(t.(roles := t.roles[role.roleID := role],
            grants := t.grants + grants,
            bindings := if key in t.bindings then t.bindings else t.bindings[key := owner],
            versions := t.versions[(role.roleID, 1) := snapshot],
            audit := t.audit + [AuditEvent("", initiator, "tenant.bootstrap", "tenant", input.tenantID, AuditSuccess,
                                           input.metadata.reasonCode, input.metadata.requestID, 1)],
            bootstrapped := true))
  }

  ghost function BootstrapTenant(cfg: Config, t: Tenant, input: BootstrapInput,
                                 initiator: string): Result<Tenant, Error>
  {
    if !ValidBootstrap(cfg, input) then Err(InvalidInput) else OwnerState(t, input, initiator, BootstrapGrants(input))
  }
}
