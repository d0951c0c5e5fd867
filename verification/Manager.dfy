/** The Manager operations of manager.go and the Bootstrapper of bootstrap.go as sequences of transaction
    calls, each proved to compute the step of Tenancy, and the store that runs them on a clone. */
module Manager {
  import opened Wrappers
  import opened Text
  import opened Ordering
  import opened Policy
  import opened GrantGraph
  import T = Tenancy
  import opened Tenancy
  import opened MemoryStore

  // normalizeWorkspaceRoles
  method NormalizeRoles(roles: seq<string>) returns (normal: Option<seq<string>>)
    ensures normal == NormalizeWorkspaceRoles(roles)
    ensures normal.Some? ==> forall r | r in normal.value :: ValidSegment(r)
  {
    var out: seq<string> := [];
    for i := 0 to |roles|
      invariant NoDuplicates(out)
      invariant Elements(out) == set r | r in roles[..i] :: TrimSpace(r)
      invariant forall r | r in out :: ValidSegment(r)
      invariant forall r | r in roles[..i] :: ValidSegment(TrimSpace(r))
    {
      assert roles[..i + 1] == roles[..i] + [roles[i]];
      assert (set r | r in roles[..i + 1] :: TrimSpace(r)) ==
               (set r | r in roles[..i] :: TrimSpace(r)) + {TrimSpace(roles[i])};
      var trimmed := TrimSpace(roles[i]);
      if !ValidSegment(trimmed) {
        assert roles[i] in roles;
        return None;
      }
      assert Elements(out + [trimmed]) == Elements(out) + {trimmed};
      if trimmed !in out {
        out := out + [trimmed];
      }
    }
    assert roles[..|roles|] == roles;
    assert forall a, b | RoleOrder(a) == RoleOrder(b) :: RoleOrder(a)[0] == RoleOrder(b)[0];
    var sorted := SortByKey(out, RoleOrder);
    return Some(sorted);
  }

  // validateGrantInput
  method ValidateGrantInput(cfg: Config, roleID: RoleID, permission: PermissionKey, scope: Scope, roles: seq<string>)
    returns (grant: Option<Grant>)
    ensures grant == GrantOfInput(cfg, roleID, permission, scope, roles)
    ensures grant.Some? ==> Normal(grant.value) && grant.value.roleID == roleID
  {
    if !ValidID(roleID) || !ValidPermission(permission) || permission !in cfg.catalog || scope.ScopeUnknown? {
      return None;
    }
    var normal := NormalizeRoles(roles);
    if normal.None? {
      return None;
    }
    return Some(Grant(roleID, permission, scope, normal.value));
  }

  // ---------- Authority checks ----------

  // requireGrant
  method RequireGrant(tx: TenantState, actor: SubjectID, permission: PermissionKey, scope: Scope, roles: seq<string>,
                      exact: bool)
    returns (error: Option<Error>)
    requires tx.Valid()
    ensures error == T.RequireGrant(tx.Value(), actor, permission, scope, roles, exact)
  {
    hide TenantState.Valid, TenantState.Value;
    var grants := tx.ListEffectiveGrants(actor, permission);
    ghost var held := EffectiveGrants(tx.Value(), actor, permission);
    assert forall g :: g in grants <==> g in held;
    for i := 0 to |grants|
      invariant forall k | 0 <= k < i :: ValidGrant(grants[k], permission)
    {
      if !ValidGrant(grants[i], permission) {
        assert grants[i] in held;
        return Some(InvalidPolicyRow);
      }
    }
    assert !Malformed(tx.Value(), actor, permission);
    for i := 0 to |grants|
      invariant forall k | 0 <= k < i :: !AllowDelegation(permission, scope, roles, exact, grants[k])
    {
      if AllowDelegation(permission, scope, roles, exact, grants[i]) {
        assert grants[i] in held;
        return None;
      }
    }
    return Some(Forbidden);
  }

  method RequireControl(tx: TenantState, actor: SubjectID, permission: PermissionKey) returns (error: Option<Error>)
    requires tx.Valid()
    ensures error == T.RequireControl(tx.Value(), actor, permission)
  {
    error := RequireGrant(tx, actor, permission, ScopeTenant, [], true);
  }

  predicate ByPermission(list: seq<Grant>) {
    forall i, j | 0 <= i < j < |list| :: !StringLess(list[j].permission, list[i].permission)
  }

  // requireActorForGrant over a list in permission order.
  method RequireCoverAll(tx: TenantState, actor: SubjectID, list: seq<Grant>, ghost needs: set<Grant>)
    returns (error: Option<Error>)
    requires tx.Valid() && ByPermission(list) && needs == Elements(list)
    ensures error == T.RequireCoverAll(tx.Value(), actor, needs)
  {
    hide TenantState.Valid, TenantState.Value;
    for i := 0 to |list|
      invariant forall k | 0 <= k < i :: RequireCover(tx.Value(), actor, list[k]).None?
    {
      error := RequireGrant(tx, actor, list[i].permission, list[i].scope, list[i].workspaceRoles, false);
      if error.Some? {
        FirstFailure(tx.Value(), actor, list, i);
        return;
      }
    }
    return None;
  }

  lemma FirstFailure(t: Tenant, actor: SubjectID, list: seq<Grant>, i: nat)
    requires i < |list| && ByPermission(list)
    requires forall k | 0 <= k < i :: RequireCover(t, actor, list[k]).None?
    requires RequireCover(t, actor, list[i]).Some?
    ensures T.RequireCoverAll(t, actor, Elements(list)) == RequireCover(t, actor, list[i])
  {
    var needs := Elements(list);
    var first := list[i];
    forall h | h in needs && RequireCover(t, actor, h).Some? ensures !StringLess(h.permission, first.permission) {
      var k :| 0 <= k < |list| && list[k] == h;
      StringOrder(first.permission, first.permission, first.permission);
    }
    assert FirstUncovered(t, actor, needs, first);
    forall g | FirstUncovered(t, actor, needs, g) ensures g.permission == first.permission {
      StringOrder(g.permission, first.permission, g.permission);
    }
  }

  lemma ListingByPermission(list: seq<Grant>)
    requires Increasing(list, GrantOrder)
    ensures ByPermission(list)
  {
    forall i, j | 0 <= i < j < |list| ensures !StringLess(list[j].permission, list[i].permission) {
      var a, b := GrantOrder(list[i]), GrantOrder(list[j]);
      assert KeyLess(a, b);
      StringOrder(a[0], b[0], a[0]);
    }
  }

  // requireRoleCoverage
  method RequireRoleCoverage(cfg: Config, tx: TenantState, actor: SubjectID, roleID: RoleID)
    returns (error: Option<Error>)
    requires tx.Valid() && roleID in tx.Value().roles
    ensures error == T.RequireRoleCoverage(cfg, tx.Value(), actor, roleID)
  {
    hide TenantState.Valid, TenantState.Value;
    var listed := tx.ListRolePermissionGrants(roleID);
    var grants := listed.value;
    ghost var rows := RoleGrants(tx.Value(), roleID);
    assert Elements(grants) == rows;
    for i := 0 to |grants|
      invariant forall k | 0 <= k < i ::
        grants[k].permission in cfg.catalog && ValidGrant(grants[k], grants[k].permission)
    {
      if grants[i].permission !in cfg.catalog || !ValidGrant(grants[i], grants[i].permission) {
        assert grants[i] in rows;
        return Some(InvalidPolicyRow);
      }
    }
    ListingByPermission(grants);
    error := RequireCoverAll(tx, actor, grants, rows);
  }

  // guardLastAdministrator
  method GuardLastAdministrator(cfg: Config, guard: Guard, tx: TenantState) returns (error: Option<Error>)
    requires tx.Valid() && GuardPermissions(cfg, guard) != {}
    ensures error == T.GuardLastAdministrator(tx.Value(), cfg, guard)
  {
    var has := tx.CheckAdministrator(cfg, guard);
    match has {
      case Err(e) => return Some(e);
      case Ok(found) => return if found then None else Some(LastAdministrator);
    }
  }

  // ---------- Shared steps ----------

  method GetCurrentRole(tx: TenantState, roleID: RoleID, expected: int) returns (result: Result<Role, Error>)
    requires tx.Valid()
    ensures result == CurrentRole(tx.Value(), roleID, expected)
  {
    var found := tx.GetRole(roleID);
    if found.Err? || found.value.deleted {
      return Err(NotFound);
    }
    if found.value.version != expected {
      return Err(Conflict);
    }
    return found;
  }

  method WriteAudit(tx: TenantState, actor: Principal, meta: Metadata, operation: string, targetType: string,
                    targetID: string, outcome: AuditOutcome, version: int)
    requires tx.Valid()
    modifies tx.Repr
    ensures tx.Valid() && fresh(tx.Repr - old(tx.Repr)) && tx.purged == old(tx.purged)
    ensures tx.Value() == Audited(old(tx.Value()), actor, meta, operation, targetType, targetID, outcome, version)
  {
    tx.InsertMutationAudit(AuditEvent(actor.subjectID, "", operation, targetType, targetID, outcome, meta.reasonCode,
                                      meta.requestID, version));
  }

  // The snapshot of a stored role: its listed grants with its live fields.
  method WriteSnapshot(tx: TenantState, role: Role, actor: SubjectID)
    requires tx.Valid() && role.roleID in tx.Value().roles
    modifies tx.Repr
    ensures tx.Valid() && fresh(tx.Repr - old(tx.Repr)) && tx.purged == old(tx.purged)
    ensures var t := old(tx.Value());
            tx.Value() == t.(versions := t.versions[(role.roleID, role.version) := Snapshot(t, role, actor)])
  {
    hide TenantState.Valid, TenantState.Value;
    var listed := tx.ListRolePermissionGrants(role.roleID);
    tx.InsertRoleVersion(RoleVersion(role.roleID, role.version, role.name, role.description, listed.value, role.deleted,
                                     actor, ""));
  }

  // bumpRoleVersion, with role already carrying its new version.
  method StoreNextVersion(tx: TenantState, role: Role, actor: SubjectID)
    requires tx.Valid() && role.roleID in tx.Value().roles && tx.Value().roles[role.roleID].version == role.version - 1
    modifies tx.Repr
    ensures tx.Valid() && fresh(tx.Repr - old(tx.Repr)) && tx.purged == old(tx.purged)
    ensures tx.Value() == WithRole(old(tx.Value()), role, actor)
  {
    hide TenantState.Valid, TenantState.Value;
    var error := tx.UpdateRole(role, role.version - 1);
    WriteSnapshot(tx, role, actor);
  }

  // What a callback leaves behind: on success exactly the step's state, on failure the step's error.
  ghost predicate Matches(result: Result<MutationResult, Error>, after: Tenant, expected: Outcome) {
    match result
    case Ok(r) => expected == Ok((after, r))
    case Err(e) => expected == Err(e)
  }

  // ---------- The operations ----------

  method CreateRole(cfg: Config, tx: TenantState, actor: Principal, meta: Metadata, roleID: RoleID, name: string,
                    description: string, permissions: seq<PermissionKey>)
    returns (result: Result<MutationResult, Error>)
    requires tx.Valid() && NoDuplicates(permissions)
    requires forall i, j | 0 <= i < j < |permissions| :: !StringLess(permissions[j], permissions[i])
    modifies tx.Repr
    ensures tx.Valid() && fresh(tx.Repr - old(tx.Repr)) && tx.purged == old(tx.purged)
    ensures Matches(result, tx.Value(),
                    CreateRoleStep(cfg, old(tx.Value()), actor, meta, roleID, name, description, permissions))
  {
    hide TenantState.Valid, TenantState.Value, T.RequireGrant, T.RequireControl, T.RequireCoverAll,
         T.RequireRoleCoverage,
         T.GuardLastAdministrator, Snapshot, RoleGrants, SortedGrants;
    var error := RequireControl(tx, actor.subjectID, cfg.controls.manageRoles);
    if error.Some? {
      return Err(error.value);
    }
    ghost var needs := TenantGrants(roleID, permissions);
    var grants := seq(|permissions|,
                      i requires 0 <= i < |permissions| => Grant(roleID, permissions[i], ScopeTenant, []));
    GrantList(roleID, permissions, grants);
    error := RequireCoverAll(tx, actor.subjectID, grants, needs);
    if error.Some? {
      return Err(error.value);
    }
    var role := Role(roleID, TrimSpace(name), TrimSpace(description), 1, false);
    tx.GrantsBelong();
    error := tx.InsertRole(role);
    if error.Some? {
      return Err(error.value);
    }
    var added := InsertGrants(tx, roleID, grants);
    if !added {
      assert false;
      return Err(Conflict);
    }
    WriteSnapshot(tx, role, actor.subjectID);
    WriteAudit(tx, actor, meta, "role.create", "role", roleID, AuditSuccess, 1);
    return Ok(MutationResult(true, 1));
  }

  // The rows of a new role: any that is there already is a conflict.
  method InsertGrants(tx: TenantState, roleID: RoleID, grants: seq<Grant>) returns (added: bool)
    requires tx.Valid() && Live(tx.Value(), roleID) && NoDuplicates(grants)
    requires forall g | g in grants :: Normal(g) && g.roleID == roleID
    modifies tx.Repr
    ensures tx.Valid() && fresh(tx.Repr - old(tx.Repr)) && tx.purged == old(tx.purged)
    ensures added <==> forall g | g in grants :: g !in old(tx.Value()).grants
    ensures added ==> tx.Value() == old(tx.Value()).(grants := old(tx.Value()).grants + Elements(grants))
  {
    hide TenantState.Valid, TenantState.Value, Normal;
    ghost var before := tx.Value();
    for i := 0 to |grants|
      invariant tx.Valid() && fresh(tx.Repr - old(tx.Repr)) && tx.purged == old(tx.purged)
      invariant tx.Value() == before.(grants := before.grants + Elements(grants[..i]))
      invariant forall g | g in grants[..i] :: g !in before.grants
    {
      assert grants[i] in grants && grants[i] !in grants[..i];
      assert grants[..i + 1] == grants[..i] + [grants[i]];
      assert Elements(grants[..i + 1]) == Elements(grants[..i]) + {grants[i]};
      var changed := tx.InsertRolePermissionGrant(grants[i]);
      if changed != Ok(true) {
        return false;
      }
    }
    assert grants[..|grants|] == grants;
    return true;
  }

  lemma GrantList(roleID: RoleID, permissions: seq<PermissionKey>, grants: seq<Grant>)
    requires NoDuplicates(permissions) && |grants| == |permissions|
    requires forall i, j | 0 <= i < j < |permissions| :: !StringLess(permissions[j], permissions[i])
    requires forall i | 0 <= i < |permissions| :: grants[i] == Grant(roleID, permissions[i], ScopeTenant, [])
    ensures Elements(grants) == TenantGrants(roleID, permissions) && ByPermission(grants) && NoDuplicates(grants)
  {
    forall g ensures g in Elements(grants) <==> g in TenantGrants(roleID, permissions) {
      if g in grants {
        var i :| 0 <= i < |grants| && grants[i] == g;
        assert permissions[i] in permissions;
      }
      if g in TenantGrants(roleID, permissions) {
        var p :| p in permissions && g == Grant(roleID, p, ScopeTenant, []);
        var i :| 0 <= i < |permissions| && permissions[i] == p;
        assert grants[i] == g;
      }
    }
  }

  method UpdateRole(cfg: Config, tx: TenantState, actor: Principal, meta: Metadata, roleID: RoleID, expected: int,
                    name: string, description: string)
    returns (result: Result<MutationResult, Error>)
    requires tx.Valid()
    modifies tx.Repr
    ensures tx.Valid() && fresh(tx.Repr - old(tx.Repr)) && tx.purged == old(tx.purged)
    ensures Matches(result, tx.Value(),
                    UpdateRoleStep(cfg, old(tx.Value()), actor, meta, roleID, expected, name, description))
  {
    hide TenantState.Valid, TenantState.Value, T.RequireGrant, T.RequireControl, T.RequireCoverAll,
         T.RequireRoleCoverage,
         T.GuardLastAdministrator, Snapshot, RoleGrants, SortedGrants;
    var error := RequireControl(tx, actor.subjectID, cfg.controls.manageRoles);
    if error.Some? {
      return Err(error.value);
    }
    tx.GrantsBelong();
    var role := GetCurrentRole(tx, roleID, expected);
    if role.Err? {
      return Err(role.error);
    }
    var next := role.value.(name := TrimSpace(name), description := TrimSpace(description), version := expected + 1);
    StoreNextVersion(tx, next, actor.subjectID);
    WriteAudit(tx, actor, meta, "role.update", "role", roleID, AuditSuccess, next.version);
    return Ok(MutationResult(true, next.version));
  }

  method DeleteRole(cfg: Config, tx: TenantState, actor: Principal, meta: Metadata, roleID: RoleID, expected: int)
    returns (result: Result<MutationResult, Error>)
    requires tx.Valid()
    modifies tx.Repr
    ensures tx.Valid() && fresh(tx.Repr - old(tx.Repr)) && tx.purged == old(tx.purged)
    ensures Matches(result, tx.Value(), DeleteRoleStep(cfg, old(tx.Value()), actor, meta, roleID, expected))
  {
    hide TenantState.Valid, TenantState.Value, T.RequireGrant, T.RequireControl, T.RequireCoverAll,
         T.RequireRoleCoverage,
         T.GuardLastAdministrator, Snapshot, RoleGrants, SortedGrants;
    var error := RequireControl(tx, actor.subjectID, cfg.controls.manageRoles);
    if error.Some? {
      return Err(error.value);
    }
    tx.GrantsBelong();
    var role := GetCurrentRole(tx, roleID, expected);
    if role.Err? {
      return Err(role.error);
    }
    var listed := tx.ListRolePermissionGrants(roleID);
    assert Elements(listed.value) == RoleGrants(tx.Value(), roleID);
    if |listed.value| > 0 {
      assert listed.value[0] in RoleGrants(tx.Value(), roleID);
      return Err(Conflict);
    }
    var used := tx.RoleHasSubjects(roleID);
    if used {
      return Err(Conflict);
    }
    error := tx.TombstoneRole(roleID, expected);
    var next := role.value.(deleted := true, version := expected + 1);
    WriteSnapshot(tx, next, actor.subjectID);
    WriteAudit(tx, actor, meta, "role.delete", "role", roleID, AuditSuccess, next.version);
    return Ok(MutationResult(true, next.version));
  }

  method GrantPermission(cfg: Config, tx: TenantState, actor: Principal, meta: Metadata, grant: Grant, expected: int)
    returns (result: Result<MutationResult, Error>)
    requires tx.Valid() && Normal(grant)
    modifies tx.Repr
    ensures tx.Valid() && fresh(tx.Repr - old(tx.Repr)) && tx.purged == old(tx.purged)
    ensures Matches(result, tx.Value(), GrantPermissionStep(cfg, old(tx.Value()), actor, meta, grant, expected))
  {
    hide TenantState.Valid, TenantState.Value, T.RequireGrant, T.RequireControl, T.RequireCoverAll,
         T.RequireRoleCoverage,
         T.GuardLastAdministrator, Snapshot, RoleGrants, SortedGrants;
    var error := RequireGrant(tx, actor.subjectID, grant.permission, grant.scope, grant.workspaceRoles, false);
    if error.Some? {
      return Err(error.value);
    }
    tx.GrantsBelong();
    var role := GetCurrentRole(tx, grant.roleID, expected);
    if role.Err? {
      return Err(role.error);
    }
    ghost var before := tx.Value();
    var changed := tx.InsertRolePermissionGrant(grant);
    if changed == Ok(false) {
      assert before.grants + {grant} == before.grants;
      WriteAudit(tx, actor, meta, "grant.permission", "role_permission", grant.roleID, AuditNoop, role.value.version);
      return Ok(MutationResult(false, role.value.version));
    }
    var next := role.value.version + 1;
    StoreNextVersion(tx, role.value.(version := next), actor.subjectID);
    WriteAudit(tx, actor, meta, "grant.permission", "role_permission", grant.roleID, AuditSuccess, next);
    return Ok(MutationResult(true, next));
  }

  method RevokePermission(cfg: Config, guard: Guard, tx: TenantState, actor: Principal, meta: Metadata, grant: Grant,
                          expected: int)
    returns (result: Result<MutationResult, Error>)
    requires tx.Valid() && Normal(grant) && GuardPermissions(cfg, guard) != {}
    modifies tx.Repr
    ensures tx.Valid() && fresh(tx.Repr - old(tx.Repr)) && tx.purged == old(tx.purged)
    ensures Matches(result, tx.Value(), RevokePermissionStep(cfg, guard, old(tx.Value()), actor, meta, grant, expected))
  {
    hide TenantState.Valid, TenantState.Value, T.RequireGrant, T.RequireControl, T.RequireCoverAll,
         T.RequireRoleCoverage,
         T.GuardLastAdministrator, Snapshot, RoleGrants, SortedGrants;
    var error := RequireGrant(tx, actor.subjectID, grant.permission, grant.scope, grant.workspaceRoles, false);
    if error.Some? {
      return Err(error.value);
    }
    tx.GrantsBelong();
    var role := GetCurrentRole(tx, grant.roleID, expected);
    if role.Err? {
      return Err(role.error);
    }
    ghost var before := tx.Value();
    var changed := tx.DeleteRolePermissionGrant(grant);
    if !changed {
      assert before.grants - {grant} == before.grants;
      WriteAudit(tx, actor, meta, "revoke.permission", "role_permission", grant.roleID, AuditNoop, role.value.version);
      return Ok(MutationResult(false, role.value.version));
    }
    error := GuardLastAdministrator(cfg, guard, tx);
    if error.Some? {
      return Err(error.value);
    }
    var next := role.value.version + 1;
    StoreNextVersion(tx, role.value.(version := next), actor.subjectID);
    WriteAudit(tx, actor, meta, "revoke.permission", "role_permission", grant.roleID, AuditSuccess, next);
    return Ok(MutationResult(true, next));
  }

  method AssignRole(cfg: Config, tx: TenantState, actor: Principal, meta: Metadata, subject: SubjectID, roleID: RoleID,
                    expected: int)
    returns (result: Result<MutationResult, Error>)
    requires tx.Valid()
    modifies tx.Repr
    ensures tx.Valid() && fresh(tx.Repr - old(tx.Repr)) && tx.purged == old(tx.purged)
    ensures Matches(result, tx.Value(), AssignRoleStep(cfg, old(tx.Value()), actor, meta, subject, roleID, expected))
  {
    hide TenantState.Valid, TenantState.Value, T.RequireGrant, T.RequireControl, T.RequireCoverAll,
         T.RequireRoleCoverage,
         T.GuardLastAdministrator, Snapshot, RoleGrants, SortedGrants;
    var error := RequireControl(tx, actor.subjectID, cfg.controls.assignRoles);
    if error.Some? {
      return Err(error.value);
    }
    var role := GetCurrentRole(tx, roleID, expected);
    if role.Err? {
      return Err(role.error);
    }
    error := RequireRoleCoverage(cfg, tx, actor.subjectID, roleID);
    if error.Some? {
      return Err(error.value);
    }
    if actor.subjectID != subject {
      var hasPath := tx.HasPath(subject, actor.subjectID);
      if hasPath {
        return Err(GrantCycle);
      }
    }
    var changed := tx.InsertSubjectRoleGrant(Binding(subject, roleID, actor.subjectID, Delegated));
    if changed == Ok(false) {
      WriteAudit(tx, actor, meta, "assign.role", "subject_role", subject, AuditNoop, role.value.version);
      return Ok(MutationResult(false, role.value.version));
    }
    tx.InsertGrantEdge(EdgeKey(actor.subjectID, subject, roleID));
    WriteAudit(tx, actor, meta, "assign.role", "subject_role", subject, AuditSuccess, role.value.version);
    return Ok(MutationResult(true, role.value.version));
  }

  method UnassignRole(cfg: Config, guard: Guard, tx: TenantState, actor: Principal, meta: Metadata, subject: SubjectID,
                      roleID: RoleID, expected: int)
    returns (result: Result<MutationResult, Error>)
    requires tx.Valid() && GuardPermissions(cfg, guard) != {}
    modifies tx.Repr
    ensures tx.Valid() && fresh(tx.Repr - old(tx.Repr)) && tx.purged == old(tx.purged)
    ensures Matches(result, tx.Value(),
                    UnassignRoleStep(cfg, guard, old(tx.Value()), actor, meta, subject, roleID, expected))
  {
    hide TenantState.Valid, TenantState.Value, T.RequireGrant, T.RequireControl, T.RequireCoverAll,
         T.RequireRoleCoverage,
         T.GuardLastAdministrator, Snapshot, RoleGrants, SortedGrants;
    var error := RequireControl(tx, actor.subjectID, cfg.controls.assignRoles);
    if error.Some? {
      return Err(error.value);
    }
    var role := tx.GetRole(roleID);
    if role.Err? || role.value.deleted {
      return Err(NotFound);
    }
    if expected != 0 && role.value.version != expected {
      return Err(Conflict);
    }
    error := RequireRoleCoverage(cfg, tx, actor.subjectID, roleID);
    if error.Some? {
      return Err(error.value);
    }
    ghost var before := tx.Value();
    var removed := tx.DeleteSubjectRoleGrant(subject, roleID);
    if removed.None? {
      assert before.bindings - {(subject, roleID)} == before.bindings;
      WriteAudit(tx, actor, meta, "unassign.role", "subject_role", subject, AuditNoop, role.value.version);
      return Ok(MutationResult(false, role.value.version));
    }
    error := GuardLastAdministrator(cfg, guard, tx);
    if error.Some? {
      return Err(error.value);
    }
    if removed.value.provenance == Delegated && removed.value.grantor != "" {
      tx.DeleteGrantEdge(EdgeKey(removed.value.grantor, subject, roleID));
    }
    WriteAudit(tx, actor, meta, "unassign.role", "subject_role", subject, AuditSuccess, role.value.version);
    return Ok(MutationResult(true, role.value.version));
  }
}
