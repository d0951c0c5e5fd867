/** What every command of the Manager does to the tables when it succeeds, and which answer it gets: laws about the
    outcome of a command that mention the tables only. */
module Effects {
  import opened Wrappers
  import opened Text
  import opened Ordering
  import opened Policy
  import opened GrantGraph
  import opened Tenancy
  import opened TenantInvariants
  import Delegation

  // ---------- Vocabulary ----------

  // One event more in the log.
  predicate Logged(t: Tenant, after: Tenant, actor: Principal, meta: Metadata, operation: string, targetType: string,
                   targetID: string, changed: bool, version: int)
  {
    after.audit == t.audit + [AuditEvent(actor.subjectID, "", operation, targetType, targetID,
                                         if changed then AuditSuccess else AuditNoop, meta.reasonCode, meta.requestID,
                                         version)]
  }

  // The role reads like this and has a snapshot of this version more; other roles and snapshots stay.
  ghost predicate NextRole(t: Tenant, after: Tenant, actor: Principal, role: Role) {
    var key := (role.roleID, role.version);
    && role.roleID in after.roles && after.roles[role.roleID] == role && key in after.versions
    && (forall r | r != role.roleID :: r in after.roles <==> r in t.roles)
    && (forall r | r in t.roles && r != role.roleID :: after.roles[r] == t.roles[r])
    && (forall k | k != key :: k in after.versions <==> k in t.versions)
    && (forall k | k in t.versions && k != key :: after.versions[k] == t.versions[k])
    && Describes(after.versions[key], role) && after.versions[key].createdBy == actor.subjectID
  }

  predicate Describes(v: RoleVersion, role: Role) {
    && v.roleID == role.roleID && v.version == role.version && v.name == role.name
    && v.description == role.description && v.deleted == role.deleted && v.bootstrapInitiator == ""
  }

  predicate SameRoles(t: Tenant, after: Tenant) {
    after.roles == t.roles && after.versions == t.versions
  }

  predicate SameBindings(t: Tenant, after: Tenant) {
    after.bindings == t.bindings && after.edges == t.edges
  }

  ghost predicate SameHoldings(t: Tenant, after: Tenant) {
    forall s, g :: Holds(after, s, g) <==> Holds(t, s, g)
  }

  // The grant that a request describes: its role names are the trimmed ones, each once, in order.
  ghost predicate Described(g: Grant, roleID: RoleID, permission: PermissionKey, scope: Scope, roles: seq<string>) {
    && g.roleID == roleID && g.permission == permission && g.scope == scope
    && (forall r :: r in g.workspaceRoles <==> exists raw :: raw in roles && TrimSpace(raw) == r)
    && (forall i, j | 0 <= i < j < |g.workspaceRoles| :: StringLess(g.workspaceRoles[i], g.workspaceRoles[j]))
  }

  lemma InputDescribed(cfg: Config, roleID: RoleID, permission: PermissionKey, scope: Scope, roles: seq<string>)
    requires GrantOfInput(cfg, roleID, permission, scope, roles).Some?
    ensures Described(GrantOfInput(cfg, roleID, permission, scope, roles).value, roleID, permission, scope, roles)
  {
    var normal := NormalizeWorkspaceRoles(roles).value;
    NormalizedDescribed(Grant(roleID, permission, scope, roles), normal);
  }

  // ---------- Steps that store the next version of a role ----------

  // The state after storing this role over a state with other grants.
  lemma StoresNext(t: Tenant, grants: set<Grant>, role: Role, actor: Principal, audit: seq<AuditEvent>)
    ensures var after := WithRole(t.(grants := grants), role, actor.subjectID).(audit := audit);
            && NextRole(t, after, actor, role) && after.grants == grants && SameBindings(t, after)
            && after.bootstrapped == t.bootstrapped && after.audit == audit
  {
    hide SortedGrants;
  }

  // Holdings depend on grants, bindings and the roles that are live.
  lemma HoldingsFollow(t: Tenant, after: Tenant, actor: Principal, role: Role)
    requires RowsValid(t) && NextRole(t, after, actor, role) && after.bindings == t.bindings
    requires !role.deleted || forall key | key in t.bindings :: key.1 != role.roleID
    ensures forall s, g | g in after.grants <==> g in t.grants :: Holds(after, s, g) <==> Holds(t, s, g)
    ensures forall s, g | g in after.grants :: Holds(after, s, g) <==> (s, g.roleID) in t.bindings
  {
  }

  // ---------- Roles ----------

  lemma CreateRoleEffect(cfg: Config, guard: Guard, t: Tenant, actor: Principal, meta: Metadata, c: Command)
    requires Structure(t) && (c.CreateRole? || c.CreateRoleWithPermissions?)
    requires Mutate(cfg, guard, t, actor, meta, c).Ok?
    ensures var (after, result) := Mutate(cfg, guard, t, actor, meta, c).value;
      && result == MutationResult(true, 1) && c.roleID !in t.roles
      && NextRole(t, after, actor, Role(c.roleID, TrimSpace(c.name), TrimSpace(c.description), 1, false))
      && (forall g :: g in after.grants <==>
            || g in t.grants
            || (c.CreateRoleWithPermissions? && g.roleID == c.roleID && g.permission in c.permissions
                && g.scope == ScopeTenant && g.workspaceRoles == []))
      && SameBindings(t, after) && after.bootstrapped == t.bootstrapped && SameHoldings(t, after)
      && Logged(t, after, actor, meta, "role.create", "role", c.roleID, true, 1)
  {
    hide RequireControl, RequireCoverAll, WithRole, NextRole, EdgesExact, Acyclic, VersionsExact, TrimSpace;
    var after := Mutate(cfg, guard, t, actor, meta, c).value.0;
    var needs := TenantGrants(c.roleID, if c.CreateRole? then [] else c.permissions);
    var role := Role(c.roleID, TrimSpace(c.name), TrimSpace(c.description), 1, false);
    StoresNext(t, t.grants + needs, role, actor, after.audit);
    HoldingsFollow(t, after, actor, role);
  }

  lemma UpdateRoleEffect(cfg: Config, guard: Guard, t: Tenant, actor: Principal, meta: Metadata, c: Command)
    requires Structure(t) && c.UpdateRole? && Mutate(cfg, guard, t, actor, meta, c).Ok?
    ensures var (after, result) := Mutate(cfg, guard, t, actor, meta, c).value;
      && result == MutationResult(true, c.expectedVersion + 1) && Live(t, c.roleID)
      && t.roles[c.roleID].version == c.expectedVersion
      && NextRole(t, after, actor,
                  Role(c.roleID, TrimSpace(c.name), TrimSpace(c.description), result.roleVersion, false))
      && after.grants == t.grants && SameBindings(t, after) && after.bootstrapped == t.bootstrapped
      && SameHoldings(t, after)
      && Logged(t, after, actor, meta, "role.update", "role", c.roleID, true, result.roleVersion)
  {
    hide RequireControl, WithRole, NextRole, EdgesExact, Acyclic, TrimSpace;
    var after := Mutate(cfg, guard, t, actor, meta, c).value.0;
    assert RoleHistoryExact(t, c.roleID);
    var role := Role(c.roleID, TrimSpace(c.name), TrimSpace(c.description), c.expectedVersion + 1, false);
    StoresNext(t, t.grants, role, actor, after.audit);
    assert t.(grants := t.grants) == t;
    HoldingsFollow(t, after, actor, role);
  }

  // Only an empty role is deleted, so nobody loses anything.
  lemma DeleteRoleEffect(cfg: Config, guard: Guard, t: Tenant, actor: Principal, meta: Metadata, c: Command)
    requires Structure(t) && c.DeleteRole? && Mutate(cfg, guard, t, actor, meta, c).Ok?
    ensures var (after, result) := Mutate(cfg, guard, t, actor, meta, c).value;
      && result == MutationResult(true, c.expectedVersion + 1) && Live(t, c.roleID)
      && t.roles[c.roleID].version == c.expectedVersion
      && (forall g | g in t.grants :: g.roleID != c.roleID) && (forall key | key in t.bindings :: key.1 != c.roleID)
      && NextRole(t, after, actor, t.roles[c.roleID].(deleted := true, version := result.roleVersion))
      && after.grants == t.grants && SameBindings(t, after) && after.bootstrapped == t.bootstrapped
      && SameHoldings(t, after)
      && Logged(t, after, actor, meta, "role.delete", "role", c.roleID, true, result.roleVersion)
  {
    hide RequireControl, WithRole, NextRole, EdgesExact, Acyclic;
    var after := Mutate(cfg, guard, t, actor, meta, c).value.0;
    assert RoleHistoryExact(t, c.roleID);
    var role := t.roles[c.roleID].(deleted := true, version := c.expectedVersion + 1);
    assert forall g | g in t.grants && g.roleID == c.roleID :: g in RoleGrants(t, c.roleID);
    StoresNext(t, t.grants, role, actor, after.audit);
    assert t.(grants := t.grants) == t;
    HoldingsFollow(t, after, actor, role);
  }

  // ---------- Grants ----------

  // The holders of the role gain exactly this grant.
  lemma GrantEffect(cfg: Config, guard: Guard, t: Tenant, actor: Principal, meta: Metadata, c: Command)
    returns (g: Grant)
    requires Structure(t) && c.GrantPermission? && Mutate(cfg, guard, t, actor, meta, c).Ok?
    ensures Described(g, c.roleID, c.permission, c.scope, c.workspaceRoles)
    ensures var (after, result) := Mutate(cfg, guard, t, actor, meta, c).value;
      && Live(t, c.roleID) && t.roles[c.roleID].version == c.expectedVersion
      && result == MutationResult(g !in t.grants, c.expectedVersion + if g in t.grants then 0 else 1)
      && after.grants == t.grants + {g} && SameBindings(t, after) && after.bootstrapped == t.bootstrapped
      && (if result.changed then NextRole(t, after, actor, t.roles[c.roleID].(version := result.roleVersion))
          else SameRoles(t, after))
      && (forall s :: Holds(after, s, g) <==> (s, c.roleID) in t.bindings)
      && (forall s, h | h != g :: Holds(after, s, h) <==> Holds(t, s, h))
      && Logged(t, after, actor, meta, "grant.permission", "role_permission", c.roleID, result.changed,
                result.roleVersion)
  {
    hide RequireCover, WithRole, NextRole, EdgesExact, Acyclic, NormalizeWorkspaceRoles, Described;
    InputDescribed(cfg, c.roleID, c.permission, c.scope, c.workspaceRoles);
    g := GrantOfInput(cfg, c.roleID, c.permission, c.scope, c.workspaceRoles).value;
    var after := Mutate(cfg, guard, t, actor, meta, c).value.0;
    assert RoleHistoryExact(t, c.roleID);
    var role := t.roles[c.roleID].(version := c.expectedVersion + 1);
    if g !in t.grants {
      StoresNext(t, t.grants + {g}, role, actor, after.audit);
      HoldingsFollow(t, after, actor, role);
    }
  }

  // The grant goes for every holder of the role, and nothing else does.
  lemma RevokeEffect(cfg: Config, guard: Guard, t: Tenant, actor: Principal, meta: Metadata, c: Command)
    returns (g: Grant)
    requires Structure(t) && c.RevokePermission? && Mutate(cfg, guard, t, actor, meta, c).Ok?
    ensures Described(g, c.roleID, c.permission, c.scope, c.workspaceRoles)
    ensures var (after, result) := Mutate(cfg, guard, t, actor, meta, c).value;
      && Live(t, c.roleID) && t.roles[c.roleID].version == c.expectedVersion
      && result == MutationResult(g in t.grants, c.expectedVersion + if g in t.grants then 1 else 0)
      && after.grants == t.grants - {g} && SameBindings(t, after) && after.bootstrapped == t.bootstrapped
      && (if result.changed then NextRole(t, after, actor, t.roles[c.roleID].(version := result.roleVersion))
          else SameRoles(t, after))
      && (forall s :: !Holds(after, s, g))
      && (forall s, h | h != g :: Holds(after, s, h) <==> Holds(t, s, h))
      && Logged(t, after, actor, meta, "revoke.permission", "role_permission", c.roleID, result.changed,
                result.roleVersion)
  {
    hide RequireCover, WithRole, NextRole, EdgesExact, Acyclic, NormalizeWorkspaceRoles, Described,
         GuardLastAdministrator;
    InputDescribed(cfg, c.roleID, c.permission, c.scope, c.workspaceRoles);
    g := GrantOfInput(cfg, c.roleID, c.permission, c.scope, c.workspaceRoles).value;
    var after := Mutate(cfg, guard, t, actor, meta, c).value.0;
    assert RoleHistoryExact(t, c.roleID);
    var role := t.roles[c.roleID].(version := c.expectedVersion + 1);
    if g in t.grants {
      StoresNext(t, t.grants - {g}, role, actor, after.audit);
      HoldingsFollow(t, after, actor, role);
    }
  }

  // ---------- Bindings ----------

  // The subject gains exactly the grants of the role.
  lemma AssignEffect(cfg: Config, guard: Guard, t: Tenant, actor: Principal, meta: Metadata, c: Command)
    requires Structure(t) && c.AssignRole? && Mutate(cfg, guard, t, actor, meta, c).Ok?
    ensures var (after, result) := Mutate(cfg, guard, t, actor, meta, c).value;
      var key := (c.subjectID, c.roleID);
      && Live(t, c.roleID) && t.roles[c.roleID].version == c.expectedVersion
      && result == MutationResult(key !in t.bindings, c.expectedVersion)
      && key in after.bindings && (forall k | k != key :: k in after.bindings <==> k in t.bindings)
      && (forall k | k in t.bindings :: after.bindings[k] == t.bindings[k])
      && (result.changed ==>
            after.bindings[key] == Binding(c.subjectID, c.roleID, actor.subjectID, Delegated)
            && after.edges == t.edges + {EdgeKey(actor.subjectID, c.subjectID, c.roleID)})
      && (!result.changed ==> after.edges == t.edges)
      && after.grants == t.grants && SameRoles(t, after) && after.bootstrapped == t.bootstrapped
      && (forall s, g :: Holds(after, s, g) <==>
            Holds(t, s, g) || (s == c.subjectID && g in t.grants && g.roleID == c.roleID))
      && Logged(t, after, actor, meta, "assign.role", "subject_role", c.subjectID, result.changed, c.expectedVersion)
  {
    hide RequireControl, RequireRoleCoverage, Reach, EdgesExact, Acyclic, VersionsExact;
  }

  // The subject loses exactly the grants of the role.
  lemma UnassignEffect(cfg: Config, guard: Guard, t: Tenant, actor: Principal, meta: Metadata, c: Command)
    requires Structure(t) && c.UnassignRole? && Mutate(cfg, guard, t, actor, meta, c).Ok?
    ensures var (after, result) := Mutate(cfg, guard, t, actor, meta, c).value;
      var key := (c.subjectID, c.roleID);
      && Live(t, c.roleID) && result == MutationResult(key in t.bindings, t.roles[c.roleID].version)
      && (c.expectedVersion == 0 || c.expectedVersion == t.roles[c.roleID].version)
      && key !in after.bindings && (forall k | k != key :: k in after.bindings <==> k in t.bindings)
      && (forall k | k in after.bindings :: after.bindings[k] == t.bindings[k])
      && after.grants == t.grants && SameRoles(t, after) && after.bootstrapped == t.bootstrapped
      && (forall s, g :: Holds(after, s, g) <==> Holds(t, s, g) && !(s == c.subjectID && g.roleID == c.roleID))
      && Logged(t, after, actor, meta, "unassign.role", "subject_role", c.subjectID, result.changed,
                result.roleVersion)
      && (forall e :: e in after.edges <==> e in t.edges && !(e.grantee == c.subjectID && e.roleID == c.roleID))
  {
    hide RequireControl, RequireRoleCoverage, GuardLastAdministrator, Acyclic, VersionsExact;
  }

  // ---------- Who gets which answer ----------

  ghost predicate HoldsAtTenant(t: Tenant, s: SubjectID, p: PermissionKey) {
    exists g :: Holds(t, s, g) && g.permission == p && g.scope == ScopeTenant
  }

  ghost predicate CoveredBy(t: Tenant, s: SubjectID, g: Grant) {
    exists h :: Holds(t, s, h) && Covers(h, g)
  }

  // Some eligible subject keeps every guarded permission by grants other than the lost ones.
  ghost predicate StaysAdministered(cfg: Config, guard: Guard, t: Tenant, lost: (SubjectID, Grant) -> bool) {
    exists s :: (guard.MemberGuard? ==> s in guard.active) && KeepsAll(cfg, guard, t, lost, s)
  }

  ghost predicate KeepsAll(cfg: Config, guard: Guard, t: Tenant, lost: (SubjectID, Grant) -> bool, s: SubjectID) {
    forall p | p in GuardPermissions(cfg, guard) :: KeepsOne(t, lost, s, p)
  }

  ghost predicate KeepsOne(t: Tenant, lost: (SubjectID, Grant) -> bool, s: SubjectID, p: PermissionKey) {
    exists g :: Holds(t, s, g) && !lost(s, g) && g.permission == p && g.scope == ScopeTenant
  }

  lemma ControlMeans(t: Tenant, s: SubjectID, p: PermissionKey)
    requires RowsValid(t)
    ensures RequireControl(t, s, p) == if HoldsAtTenant(t, s, p) then None else Some(Forbidden)
  {
    forall g ensures g in EffectiveGrants(t, s, p) <==> Holds(t, s, g) && g.permission == p {
    }
  }

  lemma CoverMeans(t: Tenant, s: SubjectID, g: Grant)
    requires RowsValid(t)
    ensures RequireCover(t, s, g) == if CoveredBy(t, s, g) then None else Some(Forbidden)
  {
    forall h ensures h in EffectiveGrants(t, s, g.permission) <==> Holds(t, s, h) && h.permission == g.permission {
    }
  }

  lemma CoverAllMeans(t: Tenant, s: SubjectID, needs: set<Grant>)
    requires RowsValid(t)
    ensures RequireCoverAll(t, s, needs)
         == if forall g | g in needs :: CoveredBy(t, s, g) then None else Some(Forbidden)
  {
    hide RequireCover, CoveredBy;
    forall g ensures RequireCover(t, s, g) == (if CoveredBy(t, s, g) then None else Some(Forbidden)) {
      CoverMeans(t, s, g);
    }
    forall p ensures !Malformed(t, s, p) {
    }
  }

  // A state with fewer holdings is guarded exactly by those that stay.
  lemma GuardMeans(cfg: Config, guard: Guard, t: Tenant, after: Tenant, lost: (SubjectID, Grant) -> bool)
    requires RowsValid(after) && GuardPermissions(cfg, guard) != {}
    requires forall s, g :: Holds(after, s, g) <==> Holds(t, s, g) && !lost(s, g)
    ensures GuardLastAdministrator(after, cfg, guard)
         == if StaysAdministered(cfg, guard, t, lost) then None else Some(LastAdministrator)
  {
    hide GuardPermissions, Holds, HoldsTenantWide, KeepsOne;
    var p0 :| p0 in GuardPermissions(cfg, guard);
    forall s, p ensures HoldsTenantWide(after, s, p) <==> KeepsOne(t, lost, s, p) {
      KeptMeans(t, after, lost, s, p);
    }
    NoMalformedControl(cfg, guard, after);
    if StaysAdministered(cfg, guard, t, lost) {
      var s :| (guard.MemberGuard? ==> s in guard.active) && KeepsAll(cfg, guard, t, lost, s);
      assert HoldsTenantWide(after, s, p0);
      HolderIsBound(after, s, p0);
      var key :| key in after.bindings && key.0 == s;
      assert IsAdministrator(after, GuardPermissions(cfg, guard), key.0);
    }
    if HasAdministrator(after, cfg, guard) {
      var key :| key in after.bindings && Eligible(guard, key.0)
                 && IsAdministrator(after, GuardPermissions(cfg, guard), key.0);
      assert KeepsAll(cfg, guard, t, lost, key.0);
    }
  }

  lemma KeptMeans(t: Tenant, after: Tenant, lost: (SubjectID, Grant) -> bool, s: SubjectID, p: PermissionKey)
    requires forall s, g :: Holds(after, s, g) <==> Holds(t, s, g) && !lost(s, g)
    ensures HoldsTenantWide(after, s, p) <==> KeepsOne(t, lost, s, p)
  {
    if KeepsOne(t, lost, s, p) {
      var g :| Holds(t, s, g) && !lost(s, g) && g.permission == p && g.scope == ScopeTenant;
      assert Holds(after, s, g);
    }
  }

  lemma NoMalformedControl(cfg: Config, guard: Guard, t: Tenant)
    requires RowsValid(t)
    ensures !MalformedControl(t, cfg, guard)
  {
    hide GuardPermissions;
  }

  lemma HolderIsBound(t: Tenant, s: SubjectID, p: PermissionKey)
    requires HoldsTenantWide(t, s, p)
    ensures exists key :: key in t.bindings && key.0 == s
  {
    var g :| g in t.grants && Holds(t, s, g);
    var key := (s, g.roleID);
    assert key in t.bindings && key.0 == s;
  }

  ghost predicate Current(t: Tenant, roleID: RoleID, expected: int) {
    roleID in t.roles && !t.roles[roleID].deleted && t.roles[roleID].version == expected
  }

  lemma CreateRoleAnswer(cfg: Config, guard: Guard, t: Tenant, actor: Principal, meta: Metadata, c: Command)
    requires Structure(t) && ValidCommand(cfg, actor, meta, c) && (c.CreateRole? || c.CreateRoleWithPermissions?)
    ensures var r := Mutate(cfg, guard, t, actor, meta, c);
      var allowed := HoldsAtTenant(t, actor.subjectID, cfg.controls.manageRoles)
        && (c.CreateRoleWithPermissions? ==> forall p | p in c.permissions ::
              CoveredBy(t, actor.subjectID, Grant(c.roleID, p, ScopeTenant, [])));
      && (r == Err(Forbidden) <==> !allowed)
      && (r == Err(Conflict) <==> allowed && c.roleID in t.roles)
      && (r.Ok? <==> allowed && c.roleID !in t.roles)
  {
    hide Structure, HoldsAtTenant, CoveredBy, RequireControl, RequireCoverAll, WithRole;
    var needs := TenantGrants(c.roleID, if c.CreateRole? then [] else c.permissions);
    assert RowsValid(t) by {
      StructureRows(t);
    }
    ControlMeans(t, actor.subjectID, cfg.controls.manageRoles);
    CoverAllMeans(t, actor.subjectID, needs);
  }

  lemma StructureRows(t: Tenant)
    requires Structure(t)
    ensures RowsValid(t)
  {
  }

  lemma UpdateRoleAnswer(cfg: Config, guard: Guard, t: Tenant, actor: Principal, meta: Metadata, c: Command)
    requires Structure(t) && ValidCommand(cfg, actor, meta, c) && c.UpdateRole?
    ensures var r := Mutate(cfg, guard, t, actor, meta, c);
      var allowed := HoldsAtTenant(t, actor.subjectID, cfg.controls.manageRoles);
      && (r == Err(Forbidden) <==> !allowed)
      && (r == Err(NotFound) <==> allowed && !Live(t, c.roleID))
      && (r == Err(Conflict) <==> allowed && Live(t, c.roleID) && t.roles[c.roleID].version != c.expectedVersion)
      && (r.Ok? <==> allowed && Current(t, c.roleID, c.expectedVersion))
  {
    hide HoldsAtTenant, RequireControl, WithRole, RowsValid;
    ControlMeans(t, actor.subjectID, cfg.controls.manageRoles);
  }

  lemma DeleteRoleAnswer(cfg: Config, guard: Guard, t: Tenant, actor: Principal, meta: Metadata, c: Command)
    requires Structure(t) && ValidCommand(cfg, actor, meta, c) && c.DeleteRole?
    ensures var r := Mutate(cfg, guard, t, actor, meta, c);
      var allowed := HoldsAtTenant(t, actor.subjectID, cfg.controls.manageRoles);
      var used := (exists g :: g in t.grants && g.roleID == c.roleID)
                  || (exists key :: key in t.bindings && key.1 == c.roleID);
      && (r == Err(Forbidden) <==> !allowed)
      && (r == Err(NotFound) <==> allowed && !Live(t, c.roleID))
      && (r == Err(Conflict) <==>
            allowed && Live(t, c.roleID) && (t.roles[c.roleID].version != c.expectedVersion || used))
      && (r.Ok? <==> allowed && Current(t, c.roleID, c.expectedVersion) && !used)
  {
    hide HoldsAtTenant, RequireControl, WithRole, RowsValid;
    ControlMeans(t, actor.subjectID, cfg.controls.manageRoles);
    assert forall g | g in t.grants && g.roleID == c.roleID :: g in RoleGrants(t, c.roleID);
    assert forall g | g in RoleGrants(t, c.roleID) :: g in t.grants && g.roleID == c.roleID;
  }

  lemma GrantAnswer(cfg: Config, guard: Guard, t: Tenant, actor: Principal, meta: Metadata, c: Command)
    returns (g: Grant)
    requires Structure(t) && ValidCommand(cfg, actor, meta, c) && c.GrantPermission?
    ensures Described(g, c.roleID, c.permission, c.scope, c.workspaceRoles)
    ensures var r := Mutate(cfg, guard, t, actor, meta, c);
      var allowed := CoveredBy(t, actor.subjectID, g);
      && (r == Err(Forbidden) <==> !allowed)
      && (r == Err(NotFound) <==> allowed && !Live(t, c.roleID))
      && (r == Err(Conflict) <==> allowed && Live(t, c.roleID) && t.roles[c.roleID].version != c.expectedVersion)
      && (r.Ok? <==> allowed && Current(t, c.roleID, c.expectedVersion))
  {
    hide CoveredBy, RequireCover, WithRole, RowsValid, Described, NormalizeWorkspaceRoles;
    InputDescribed(cfg, c.roleID, c.permission, c.scope, c.workspaceRoles);
    g := GrantOfInput(cfg, c.roleID, c.permission, c.scope, c.workspaceRoles).value;
    CoverMeans(t, actor.subjectID, g);
  }

  // A grant is revoked for whoever it is covered by, unless nobody would administer the tenant any more.
  lemma RevokeAnswer(cfg: Config, guard: Guard, t: Tenant, actor: Principal, meta: Metadata, c: Command)
    returns (g: Grant)
    requires Structure(t) && ValidCommand(cfg, actor, meta, c) && c.RevokePermission?
    requires GuardPermissions(cfg, guard) != {}
    ensures Described(g, c.roleID, c.permission, c.scope, c.workspaceRoles)
    ensures var r := Mutate(cfg, guard, t, actor, meta, c);
      var allowed := CoveredBy(t, actor.subjectID, g);
      var last := g in t.grants && !StaysAdministered(cfg, guard, t, (s, h) => h == g);
      && (r == Err(Forbidden) <==> !allowed)
      && (r == Err(NotFound) <==> allowed && !Live(t, c.roleID))
      && (r == Err(Conflict) <==> allowed && Live(t, c.roleID) && t.roles[c.roleID].version != c.expectedVersion)
      && (r == Err(LastAdministrator) <==> allowed && Current(t, c.roleID, c.expectedVersion) && last)
      && (r.Ok? <==> allowed && Current(t, c.roleID, c.expectedVersion) && !last)
  {
    hide CoveredBy, RequireCover, WithRole, Described, NormalizeWorkspaceRoles, StaysAdministered, EdgesExact, Acyclic,
         VersionsExact, GuardLastAdministrator, GuardPermissions, ValidGrant;
    InputDescribed(cfg, c.roleID, c.permission, c.scope, c.workspaceRoles);
    g := GrantOfInput(cfg, c.roleID, c.permission, c.scope, c.workspaceRoles).value;
    CoverMeans(t, actor.subjectID, g);
    GuardMeans(cfg, guard, t, t.(grants := t.grants - {g}), (s, h) => h == g);
  }

  lemma AssignAnswer(cfg: Config, guard: Guard, t: Tenant, actor: Principal, meta: Metadata, c: Command)
    requires Structure(t) && ValidCommand(cfg, actor, meta, c) && c.AssignRole?
    ensures var r := Mutate(cfg, guard, t, actor, meta, c);
      var allowed := HoldsAtTenant(t, actor.subjectID, cfg.controls.assignRoles);
      var known, covered := RoleKnown(cfg, t, c.roleID), RoleCovered(t, actor.subjectID, c.roleID);
      var cyclic := c.subjectID != actor.subjectID && Reach(t.edges, c.subjectID, actor.subjectID);
      && (!allowed ==> r == Err(Forbidden))
      && (allowed && !Live(t, c.roleID) ==> r == Err(NotFound))
      && (allowed && Live(t, c.roleID) && t.roles[c.roleID].version != c.expectedVersion ==> r == Err(Conflict))
      && (allowed && Current(t, c.roleID, c.expectedVersion) && !known ==> r == Err(InvalidPolicyRow))
      && (allowed && Current(t, c.roleID, c.expectedVersion) && known && !covered ==> r == Err(Forbidden))
      && (allowed && Current(t, c.roleID, c.expectedVersion) && known && covered && cyclic ==> r == Err(GrantCycle))
      && (r.Ok? <==> allowed && Current(t, c.roleID, c.expectedVersion) && known && covered && !cyclic)
  {
    hide HoldsAtTenant, RoleKnown, RoleCovered, RequireControl, RequireRoleCoverage, Reach, EdgesExact, Acyclic,
         VersionsExact;
    ControlMeans(t, actor.subjectID, cfg.controls.assignRoles);
    RoleCoverageMeans(cfg, t, actor.subjectID, c.roleID);
  }

  ghost predicate RoleKnown(cfg: Config, t: Tenant, roleID: RoleID) {
    forall g | g in t.grants && g.roleID == roleID :: g.permission in cfg.catalog
  }

  ghost predicate RoleCovered(t: Tenant, s: SubjectID, roleID: RoleID) {
    forall g | g in t.grants && g.roleID == roleID :: CoveredBy(t, s, g)
  }

  lemma RoleCoverageMeans(cfg: Config, t: Tenant, s: SubjectID, roleID: RoleID)
    requires RowsValid(t)
    ensures RequireRoleCoverage(cfg, t, s, roleID)
         == if !RoleKnown(cfg, t, roleID) then Some(InvalidPolicyRow)
            else if RoleCovered(t, s, roleID) then None
            else Some(Forbidden)
  {
    hide CoveredBy, RequireCoverAll;
    CoverAllMeans(t, s, RoleGrants(t, roleID));
    assert forall g :: g in RoleGrants(t, roleID) <==> g in t.grants && g.roleID == roleID;
  }

  lemma UnassignAnswer(cfg: Config, guard: Guard, t: Tenant, actor: Principal, meta: Metadata, c: Command)
    requires Structure(t) && ValidCommand(cfg, actor, meta, c) && c.UnassignRole? && GuardPermissions(cfg, guard) != {}
    ensures var r := Mutate(cfg, guard, t, actor, meta, c);
      var allowed := HoldsAtTenant(t, actor.subjectID, cfg.controls.assignRoles);
      var current := Live(t, c.roleID) && (c.expectedVersion == 0 || t.roles[c.roleID].version == c.expectedVersion);
      var known, covered := RoleKnown(cfg, t, c.roleID), RoleCovered(t, actor.subjectID, c.roleID);
      var last := (c.subjectID, c.roleID) in t.bindings
        && !StaysAdministered(cfg, guard, t, (s, g: Grant) => s == c.subjectID && g.roleID == c.roleID);
      && (!allowed ==> r == Err(Forbidden))
      && (allowed && !Live(t, c.roleID) ==> r == Err(NotFound))
      && (allowed && Live(t, c.roleID) && !current ==> r == Err(Conflict))
      && (allowed && current && !known ==> r == Err(InvalidPolicyRow))
      && (allowed && current && known && !covered ==> r == Err(Forbidden))
      && (allowed && current && known && covered && last ==> r == Err(LastAdministrator))
      && (r.Ok? <==> allowed && current && known && covered && !last)
  {
    hide HoldsAtTenant, RoleKnown, RoleCovered, RequireControl, RequireRoleCoverage, EdgesExact, Acyclic, VersionsExact,
         StaysAdministered, GuardLastAdministrator, GuardPermissions;
    ControlMeans(t, actor.subjectID, cfg.controls.assignRoles);
    RoleCoverageMeans(cfg, t, actor.subjectID, c.roleID);
    GuardMeans(cfg, guard, t, t.(bindings := t.bindings - {(c.subjectID, c.roleID)}),
               (s, g: Grant) => s == c.subjectID && g.roleID == c.roleID);
  }

  // ---------- Bootstrap ----------

  // A request describes one grant only.
  lemma DescribedOnce(a: Grant, b: Grant, roleID: RoleID, permission: PermissionKey, scope: Scope, roles: seq<string>)
    requires Described(a, roleID, permission, scope, roles) && Described(b, roleID, permission, scope, roles)
    ensures a == b
  {
    var names := set r | r in a.workspaceRoles;
    forall list | list == a.workspaceRoles || list == b.workspaceRoles ensures IsListing(list, names, RoleOrder) {
      forall i, j | 0 <= i < j < |list| ensures KeyLess(RoleOrder(list[i]), RoleOrder(list[j])) {
        KeyOfOne(list[i], list[j]);
      }
    }
    ListingUnique(a.workspaceRoles, b.workspaceRoles, names, RoleOrder);
  }

  // The last entry of a permission and scope describes the grant.
  ghost predicate FromLastEntry(g: Grant, input: BootstrapInput, i: nat) {
    && i < |input.grants|
    && Described(g, input.ownerRoleID, input.grants[i].permission, input.grants[i].scope,
                 input.grants[i].workspaceRoles)
    && forall j | i < j < |input.grants| ::
         input.grants[j].permission != input.grants[i].permission || input.grants[j].scope != input.grants[i].scope
  }

  lemma EntryDescribed(cfg: Config, input: BootstrapInput, i: nat)
    requires ValidBootstrap(cfg, input) && i < |input.grants|
    ensures var e := input.grants[i];
            Described(NormalGrant(e), input.ownerRoleID, e.permission, e.scope, e.workspaceRoles)
  {
    var e := input.grants[i];
    hide ValidID, ValidPermission, ValidRoleName, GuardPermissions;
    assert e in input.grants && ValidEntry(cfg, input, e);
    NormalizedDescribed(e, NormalizeWorkspaceRoles(e.workspaceRoles).value);
  }

  lemma NormalizedDescribed(e: Grant, roles: seq<string>)
    requires NormalizeWorkspaceRoles(e.workspaceRoles) == Some(roles)
    ensures Described(e.(workspaceRoles := roles), e.roleID, e.permission, e.scope, e.workspaceRoles)
  {
    var names := set r | r in e.workspaceRoles :: TrimSpace(r);
    forall a, b | RoleOrder(a) == RoleOrder(b) ensures a == b {
      assert RoleOrder(a)[0] == RoleOrder(b)[0];
    }
    ListingExists(names, RoleOrder);
    forall i, j | 0 <= i < j < |roles| ensures StringLess(roles[i], roles[j]) {
      assert KeyLess(RoleOrder(roles[i]), RoleOrder(roles[j]));
      KeyOfOne(roles[i], roles[j]);
    }
  }

  lemma BootstrapGrantsAre(cfg: Config, input: BootstrapInput, g: Grant)
    requires ValidBootstrap(cfg, input)
    ensures g in BootstrapGrants(input) <==> exists i: nat :: FromLastEntry(g, input, i)
  {
    hide ValidBootstrap, Described, NormalGrant;
    if g in BootstrapGrants(input) {
      var i: nat :| i < |input.grants| && IsLastEntry(input.grants, i) && g == NormalGrant(input.grants[i]);
      EntryDescribed(cfg, input, i);
      assert FromLastEntry(g, input, i);
    }
    if i: nat :| FromLastEntry(g, input, i) {
      EntryDescribed(cfg, input, i);
      DescribedOnce(g, NormalGrant(input.grants[i]), input.ownerRoleID, input.grants[i].permission,
                    input.grants[i].scope, input.grants[i].workspaceRoles);
    }
  }

  // The owner role is new and holds exactly these grants, and the owner is bound to it.
  lemma BootstrapEffect(cfg: Config, t: Tenant, input: BootstrapInput, initiator: string)
    requires BootstrapTenant(cfg, t, input, initiator).Ok?
    ensures var after := BootstrapTenant(cfg, t, input, initiator).value;
      var key := (input.ownerSubjectID, input.ownerRoleID);
      && !t.bootstrapped && after.bootstrapped && input.ownerRoleID !in t.roles
      && after.roles == t.roles[input.ownerRoleID := Role(input.ownerRoleID, TrimSpace(input.name),
                                                          TrimSpace(input.description), 1, false)]
      && (forall g :: g in after.grants <==> g in t.grants || exists i: nat :: FromLastEntry(g, input, i))
      && key in after.bindings && (forall k | k != key :: k in after.bindings <==> k in t.bindings)
      && (forall k | k in t.bindings :: after.bindings[k] == t.bindings[k])
      && (key !in t.bindings ==>
            after.bindings[key] == Binding(input.ownerSubjectID, input.ownerRoleID, "", BootstrapProvenance))
      && after.edges == t.edges
      && after.audit == t.audit + [AuditEvent("", initiator, "tenant.bootstrap", "tenant", input.tenantID, AuditSuccess,
                                              input.metadata.reasonCode, input.metadata.requestID, 1)]
  {
    hide ValidBootstrap, FromLastEntry, BootstrapGrants, TrimSpace;
    forall g ensures g in BootstrapGrants(input) <==> exists i: nat :: FromLastEntry(g, input, i) {
      BootstrapGrantsAre(cfg, input, g);
    }
  }

  // A tenant is bootstrapped once.
  lemma BootstrapAnswer(cfg: Config, t: Tenant, input: BootstrapInput, initiator: string)
    ensures var r := BootstrapTenant(cfg, t, input, initiator);
      && (r == Err(InvalidInput) <==> !ValidBootstrap(cfg, input))
      && (r == Err(AlreadyBootstrapped) <==> ValidBootstrap(cfg, input) && t.bootstrapped)
      && (r == Err(Conflict) <==> ValidBootstrap(cfg, input) && !t.bootstrapped && input.ownerRoleID in t.roles)
      && (r.Ok? <==> ValidBootstrap(cfg, input) && !t.bootstrapped && input.ownerRoleID !in t.roles)
  {
    hide ValidBootstrap;
  }
}
