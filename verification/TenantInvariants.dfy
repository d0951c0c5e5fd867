/** What every operation keeps, and what therefore holds after every run of operations. */
module TenantInvariants {
  import opened Wrappers
  import opened Text
  import opened Ordering
  import opened Policy
  import opened GrantGraph
  import opened Tenancy

  // ---------- The invariants ----------

  // Rows are valid, refer to existing roles, and tombstoned roles have no grants and no subjects.
  ghost predicate RowsValid(t: Tenant) {
    && (forall g | g in t.grants :: Live(t, g.roleID) && ValidGrant(g, g.permission))
    && (forall key | key in t.bindings ::
          && Live(t, key.1) && ValidID(key.0)
          && t.bindings[key].subjectID == key.0 && t.bindings[key].roleID == key.1
          && (t.bindings[key].provenance == Delegated ==> ValidID(t.bindings[key].grantor)))
  }

  function EdgeOf(b: Binding): EdgeKey {
    EdgeKey(b.grantor, b.subjectID, b.roleID)
  }

  // The edges are exactly the delegated bindings.
  ghost predicate EdgesExact(t: Tenant) {
    && (forall key | key in t.bindings && t.bindings[key].provenance == Delegated :: EdgeOf(t.bindings[key]) in t.edges)
    && (forall e | e in t.edges ::
          && (e.grantee, e.roleID) in t.bindings
          && t.bindings[(e.grantee, e.roleID)].provenance == Delegated
          && EdgeOf(t.bindings[(e.grantee, e.roleID)]) == e)
  }

  // A snapshot shows the role as it is now.
  ghost predicate ShowsLive(t: Tenant, v: RoleVersion, role: Role) {
    && v.roleID == role.roleID && v.version == role.version && v.name == role.name && v.description == role.description
    && v.deleted == role.deleted && v.grants == SortedGrants(t, role.roleID)
  }

  // The snapshots of one role are numbered 1 to its version and the last one shows the live role.
  ghost predicate RoleHistoryExact(t: Tenant, r: RoleID)
    requires r in t.roles
  {
    var role := t.roles[r];
    && role.roleID == r && role.version >= 1
    && (forall n :: (r, n) in t.versions <==> 1 <= n <= role.version)
    && ShowsLive(t, t.versions[(r, role.version)], role)
  }

  ghost predicate VersionsExact(t: Tenant) {
    && (forall key | key in t.versions :: key.0 in t.roles)
    && (forall r | r in t.roles :: RoleHistoryExact(t, r))
  }

  ghost predicate Structure(t: Tenant) {
    RowsValid(t) && EdgesExact(t) && Acyclic(t.edges) && VersionsExact(t)
  }

  // Every grant on every role is covered by a grant of the given root set.
  ghost predicate Closed(t: Tenant, root: set<Grant>) {
    forall g | g in t.grants :: Rooted(g, root)
  }

  ghost predicate Rooted(g: Grant, root: set<Grant>) {
    exists c | c in root :: Covers(c, g)
  }

  // No committed step changes or drops a snapshot, revives a role or forgets one.
  ghost predicate HistoryKept(before: Tenant, after: Tenant) {
    && (forall key | key in before.versions :: key in after.versions && after.versions[key] == before.versions[key])
    && (forall r | r in before.roles ::
          && r in after.roles && before.roles[r].version <= after.roles[r].version
          && (before.roles[r].deleted ==> after.roles[r] == before.roles[r]))
    && before.audit <= after.audit
  }

  // ---------- Changing one role ----------

  lemma SameSorted(a: Tenant, b: Tenant, r: RoleID)
    requires a.grants == b.grants || RoleGrants(a, r) == RoleGrants(b, r)
    ensures SortedGrants(a, r) == SortedGrants(b, r)
  {
    assert RoleGrants(a, r) == RoleGrants(b, r);
  }

  lemma SameRoleHistory(t: Tenant, after: Tenant, r: RoleID)
    requires r in t.roles && RoleHistoryExact(t, r)
    requires r in after.roles && after.roles[r] == t.roles[r] && RoleGrants(after, r) == RoleGrants(t, r)
    requires forall n :: (r, n) in after.versions <==> (r, n) in t.versions
    requires forall n | (r, n) in t.versions :: after.versions[(r, n)] == t.versions[(r, n)]
    ensures RoleHistoryExact(after, r)
  {
    SameSorted(after, t, r);
  }

  lemma NewRoleHistory(base: Tenant, role: Role, createdBy: SubjectID)
    requires role.version >= 1
    requires forall n :: (role.roleID, n) in base.versions <==> 1 <= n < role.version
    ensures RoleHistoryExact(WithRole(base, role, createdBy), role.roleID)
  {
    var after := WithRole(base, role, createdBy);
    SameSorted(base.(roles := base.roles[role.roleID := role]), after, role.roleID);
  }

  // Storing the next version of one role, whose grants alone may have changed, keeps the snapshots exact.
  lemma WithRoleVersions(t: Tenant, base: Tenant, role: Role, createdBy: SubjectID)
    requires VersionsExact(t)
    requires base.roles == t.roles && base.versions == t.versions
    requires forall r | r != role.roleID :: RoleGrants(base, r) == RoleGrants(t, r)
    requires role.version == if role.roleID in t.roles then t.roles[role.roleID].version + 1 else 1
    ensures VersionsExact(WithRole(base, role, createdBy))
    ensures (role.roleID, role.version) !in t.versions
  {
    var after := WithRole(base, role, createdBy);
    if role.roleID in t.roles {
      assert RoleHistoryExact(t, role.roleID);
    }
    NewRoleHistory(base, role, createdBy);
    forall r | r in after.roles && r != role.roleID ensures RoleHistoryExact(after, r) {
      assert RoleHistoryExact(t, r);
      assert RoleGrants(after, r) == RoleGrants(base, r);
      SameRoleHistory(t, after, r);
    }
  }

  // Changes that touch neither roles nor grants keep the snapshots exact.
  lemma SameRolesVersions(t: Tenant, after: Tenant)
    requires VersionsExact(t)
    requires after.roles == t.roles && after.versions == t.versions && after.grants == t.grants
    ensures VersionsExact(after)
  {
    forall r | r in after.roles ensures RoleHistoryExact(after, r) {
      assert RoleHistoryExact(t, r);
      SameSorted(after, t, r);
    }
  }

  // The edges stay exact when only roles, grants or snapshots change.
  lemma SameBindingsEdges(t: Tenant, after: Tenant)
    requires EdgesExact(t) && after.bindings == t.bindings && after.edges == t.edges
    ensures EdgesExact(after)
  {
  }

  // ---------- The three kinds of change ----------

  // base is t with the grants of one role changed, and role is that role's next version.
  ghost predicate NextRole(t: Tenant, base: Tenant, role: Role) {
    && base == t.(grants := base.grants)
    && (forall g | g in base.grants :: g in t.grants || (g.roleID == role.roleID && ValidGrant(g, g.permission)))
    && (forall g | g in t.grants && g.roleID != role.roleID :: g in base.grants)
    && (if role.roleID in t.roles then Live(t, role.roleID) && role.version == t.roles[role.roleID].version + 1
        else role.version == 1)
    && (role.deleted ==> RoleGrants(base, role.roleID) == {} && !HasSubjects(t, role.roleID))
  }

  lemma NextRoleRows(t: Tenant, base: Tenant, role: Role, createdBy: SubjectID)
    requires RowsValid(t) && NextRole(t, base, role)
    ensures RowsValid(WithRole(base, role, createdBy))
  {
    var after := WithRole(base, role, createdBy);
    forall g | g in after.grants ensures Live(after, g.roleID) && ValidGrant(g, g.permission) {
      assert g.roleID == role.roleID ==> g in RoleGrants(base, role.roleID);
    }
    forall key | key in after.bindings ensures Live(after, key.1) {
      assert Live(t, key.1);
    }
  }

  lemma NextRoleGrants(t: Tenant, base: Tenant, role: Role)
    requires NextRole(t, base, role)
    ensures forall r | r != role.roleID :: RoleGrants(base, r) == RoleGrants(t, r)
  {
    forall r | r != role.roleID ensures RoleGrants(base, r) == RoleGrants(t, r) {
      assert forall g :: g in RoleGrants(base, r) <==> g in RoleGrants(t, r);
    }
  }

  lemma NextRoleVersions(t: Tenant, base: Tenant, role: Role, createdBy: SubjectID)
    requires VersionsExact(t) && NextRole(t, base, role)
    ensures VersionsExact(WithRole(base, role, createdBy))
    ensures HistoryKept(t, WithRole(base, role, createdBy))
  {
    hide VersionsExact, Snapshot, RoleGrants, ValidGrant;
    NextRoleGrants(t, base, role);
    WithRoleVersions(t, base, role, createdBy);
  }

  // Creating, updating, deleting a role and changing its grants: one role gets its next version.
  lemma NextRoleKeeps(t: Tenant, base: Tenant, role: Role, createdBy: SubjectID, audit: seq<AuditEvent>)
    requires Structure(t) && NextRole(t, base, role) && t.audit <= audit
    ensures var after := WithRole(base, role, createdBy).(audit := audit); Structure(after) && HistoryKept(t, after)
  {
    NextRoleRows(t, base, role, createdBy);
    NextRoleVersions(t, base, role, createdBy);
    SameBindingsEdges(t, WithRole(base, role, createdBy));
    hide NextRole, Acyclic, EdgesExact;
    AuditKeeps(WithRole(base, role, createdBy), audit);
  }

  lemma AuditKeeps(t: Tenant, audit: seq<AuditEvent>)
    requires RowsValid(t) && EdgesExact(t) && VersionsExact(t)
    ensures var after := t.(audit := audit); RowsValid(after) && EdgesExact(after) && VersionsExact(after)
  {
    SameRolesVersions(t, t.(audit := audit));
  }

  function Bound(t: Tenant, subject: SubjectID, roleID: RoleID, grantor: SubjectID): Tenant {
    t.(bindings := t.bindings[(subject, roleID) := Binding(subject, roleID, grantor, Delegated)],
       edges := t.edges + {EdgeKey(grantor, subject, roleID)})
  }

  lemma BoundRows(t: Tenant, subject: SubjectID, roleID: RoleID, grantor: SubjectID)
    requires RowsValid(t) && EdgesExact(t) && Live(t, roleID) && ValidID(subject) && ValidID(grantor)
    requires (subject, roleID) !in t.bindings
    ensures RowsValid(Bound(t, subject, roleID, grantor)) && EdgesExact(Bound(t, subject, roleID, grantor))
  {
  }

  // Assigning a role that the subject did not have.
  lemma BindKeeps(t: Tenant, subject: SubjectID, roleID: RoleID, grantor: SubjectID, audit: seq<AuditEvent>)
    requires Structure(t) && Live(t, roleID) && ValidID(subject) && ValidID(grantor)
    requires (subject, roleID) !in t.bindings && t.audit <= audit
    requires grantor == subject || !Reach(t.edges, subject, grantor)
    ensures var after := Bound(t, subject, roleID, grantor).(audit := audit); Structure(after) && HistoryKept(t, after)
  {
    NewEdgeKeepsAcyclic(t.edges, EdgeKey(grantor, subject, roleID));
    BoundRows(t, subject, roleID, grantor);
    SameRolesVersions(t, Bound(t, subject, roleID, grantor));
    hide Acyclic, Reach, EdgesExact, RowsValid;
    AuditKeeps(Bound(t, subject, roleID, grantor), audit);
  }

  function Unbound(t: Tenant, removed: set<(SubjectID, RoleID)>): Tenant {
    t.(bindings := t.bindings - removed, edges := (set e | e in t.edges && (e.grantee, e.roleID) !in removed))
  }

  // Removing bindings together with their edges.
  lemma UnbindKeeps(t: Tenant, removed: set<(SubjectID, RoleID)>, audit: seq<AuditEvent>)
    requires Structure(t) && t.audit <= audit
    ensures var after := Unbound(t, removed).(audit := audit); Structure(after) && HistoryKept(t, after)
  {
    var after := Unbound(t, removed);
    AcyclicSubset(after.edges, t.edges);
    assert RowsValid(after) && EdgesExact(after);
    SameRolesVersions(t, after);
    hide Acyclic, Reach, EdgesExact, RowsValid;
    AuditKeeps(after, audit);
  }

  // The grant of a validated input is itself valid.
  lemma GrantOfInputValid(cfg: Config, roleID: RoleID, permission: PermissionKey, scope: Scope, roles: seq<string>)
    requires GrantOfInput(cfg, roleID, permission, scope, roles).Some?
    ensures var g := GrantOfInput(cfg, roleID, permission, scope, roles).value;
            ValidGrant(g, permission) && g.roleID == roleID && g.permission == permission && g.scope == scope
  {
    NormalizedValid(roles);
  }

  lemma NormalizedValid(roles: seq<string>)
    requires NormalizeWorkspaceRoles(roles).Some?
    ensures forall r | r in NormalizeWorkspaceRoles(roles).value :: ValidSegment(r)
    ensures forall r :: r in NormalizeWorkspaceRoles(roles).value <==> exists s | s in roles :: TrimSpace(s) == r
  {
    var items := set r | r in roles :: TrimSpace(r);
    ListingExists(items, RoleOrder);
  }

  // ---------- Every operation keeps the structure and the history ----------

  ghost predicate Kept(t: Tenant, outcome: Outcome) {
    outcome.Ok? ==> Structure(outcome.value.0) && HistoryKept(t, outcome.value.0)
  }

  lemma NoChangeKeeps(t: Tenant, audit: seq<AuditEvent>)
    requires Structure(t) && t.audit <= audit
    ensures Structure(t.(audit := audit)) && HistoryKept(t, t.(audit := audit))
  {
    hide Acyclic;
    AuditKeeps(t, audit);
  }

  lemma CreateRoleKeeps(cfg: Config, t: Tenant, actor: Principal, meta: Metadata, roleID: RoleID, name: string,
                        description: string, permissions: seq<PermissionKey>)
    requires Structure(t) && ValidID(roleID) && forall p | p in permissions :: ValidPermission(p)
    ensures Kept(t, CreateRoleStep(cfg, t, actor, meta, roleID, name, description, permissions))
  {
    var outcome := CreateRoleStep(cfg, t, actor, meta, roleID, name, description, permissions);
    if outcome.Ok? {
      var role := Role(roleID, TrimSpace(name), TrimSpace(description), 1, false);
      var base := t.(grants := t.grants + TenantGrants(roleID, permissions));
      hide Structure, RequireControl, RequireCoverAll, HistoryKept;
      NextRoleKeeps(t, base, role, actor.subjectID, outcome.value.0.audit);
    }
  }

  lemma UpdateRoleKeeps(cfg: Config, t: Tenant, actor: Principal, meta: Metadata, roleID: RoleID, expected: int,
                        name: string, description: string)
    requires Structure(t)
    ensures Kept(t, UpdateRoleStep(cfg, t, actor, meta, roleID, expected, name, description))
  {
    var outcome := UpdateRoleStep(cfg, t, actor, meta, roleID, expected, name, description);
    if outcome.Ok? {
      assert RoleHistoryExact(t, roleID);
      hide Structure, RequireControl, HistoryKept;
      var role := t.roles[roleID].(name := TrimSpace(name), description := TrimSpace(description),
                                   version := expected + 1);
      NextRoleKeeps(t, t, role, actor.subjectID, outcome.value.0.audit);
    }
  }

  lemma DeleteRoleKeeps(cfg: Config, t: Tenant, actor: Principal, meta: Metadata, roleID: RoleID, expected: int)
    requires Structure(t)
    ensures Kept(t, DeleteRoleStep(cfg, t, actor, meta, roleID, expected))
  {
    var outcome := DeleteRoleStep(cfg, t, actor, meta, roleID, expected);
    if outcome.Ok? {
      assert RoleHistoryExact(t, roleID);
      hide Structure, RequireControl, HistoryKept;
      NextRoleKeeps(t, t, t.roles[roleID].(deleted := true, version := expected + 1), actor.subjectID,
                    outcome.value.0.audit);
    }
  }

  lemma GrantKeeps(cfg: Config, t: Tenant, actor: Principal, meta: Metadata, grant: Grant, expected: int)
    requires Structure(t) && ValidGrant(grant, grant.permission)
    ensures Kept(t, GrantPermissionStep(cfg, t, actor, meta, grant, expected))
  {
    var outcome := GrantPermissionStep(cfg, t, actor, meta, grant, expected);
    if outcome.Ok? {
      assert RoleHistoryExact(t, grant.roleID);
      hide Structure, RequireCover, HistoryKept;
      var role := t.roles[grant.roleID];
      if grant in t.grants {
        NoChangeKeeps(t, outcome.value.0.audit);
      } else {
        NextRoleKeeps(t, t.(grants := t.grants + {grant}), role.(version := role.version + 1), actor.subjectID,
                      outcome.value.0.audit);
      }
    }
  }

  lemma RevokeKeeps(cfg: Config, guard: Guard, t: Tenant, actor: Principal, meta: Metadata, grant: Grant, expected: int)
    requires Structure(t)
    ensures Kept(t, RevokePermissionStep(cfg, guard, t, actor, meta, grant, expected))
  {
    hide RequireCover, GuardLastAdministrator, HistoryKept, Structure, WithRole;
    var outcome := RevokePermissionStep(cfg, guard, t, actor, meta, grant, expected);
    if outcome.Ok? {
      if grant in t.grants {
        var role := t.roles[grant.roleID];
        VersionOfRole(t, grant.roleID);
        RevokedNext(t, grant, role.(version := role.version + 1));
        NextRoleKeeps(t, t.(grants := t.grants - {grant}), role.(version := role.version + 1), actor.subjectID,
                      outcome.value.0.audit);
      } else {
        NoChangeKeeps(t, outcome.value.0.audit);
      }
    }
  }

  lemma VersionOfRole(t: Tenant, roleID: RoleID)
    requires Structure(t) && roleID in t.roles
    ensures t.roles[roleID].roleID == roleID
  {
    assert RoleHistoryExact(t, roleID);
  }

  lemma RevokedNext(t: Tenant, grant: Grant, next: Role)
    requires Live(t, grant.roleID) && next.roleID == grant.roleID && !next.deleted
    requires next.version == t.roles[grant.roleID].version + 1
    ensures NextRole(t, t.(grants := t.grants - {grant}), next)
  {
  }

  lemma AssignKeeps(cfg: Config, t: Tenant, actor: Principal, meta: Metadata, subject: SubjectID, roleID: RoleID,
                    expected: int)
    requires Structure(t) && ValidID(actor.subjectID) && ValidID(subject)
    ensures Kept(t, AssignRoleStep(cfg, t, actor, meta, subject, roleID, expected))
  {
    var outcome := AssignRoleStep(cfg, t, actor, meta, subject, roleID, expected);
    if outcome.Ok? {
      hide Structure, RequireControl, RequireRoleCoverage, HistoryKept, Reach;
      if (subject, roleID) in t.bindings {
        NoChangeKeeps(t, outcome.value.0.audit);
      } else {
        BindKeeps(t, subject, roleID, actor.subjectID, outcome.value.0.audit);
      }
    }
  }

  lemma UnassignedEdges(t: Tenant, subject: SubjectID, roleID: RoleID)
    requires RowsValid(t) && EdgesExact(t) && (subject, roleID) in t.bindings
    ensures var b := t.bindings[(subject, roleID)];
            Unbound(t, {(subject, roleID)}).edges
            == if b.provenance == Delegated && b.grantor != "" then t.edges - {EdgeKey(b.grantor, subject, roleID)}
               else t.edges
  {
  }

  lemma UnassignKeeps(cfg: Config, guard: Guard, t: Tenant, actor: Principal, meta: Metadata, subject: SubjectID,
                      roleID: RoleID, expected: int)
    requires Structure(t)
    ensures Kept(t, UnassignRoleStep(cfg, guard, t, actor, meta, subject, roleID, expected))
  {
    var outcome := UnassignRoleStep(cfg, guard, t, actor, meta, subject, roleID, expected);
    if outcome.Ok? {
      if (subject, roleID) in t.bindings {
        UnassignedEdges(t, subject, roleID);
        hide Structure, RequireControl, RequireRoleCoverage, HistoryKept, GuardLastAdministrator;
        UnbindKeeps(t, {(subject, roleID)}, outcome.value.0.audit);
      } else {
        hide Structure, RequireControl, RequireRoleCoverage, HistoryKept;
        NoChangeKeeps(t, outcome.value.0.audit);
      }
    }
  }

  lemma MutateKeeps(cfg: Config, guard: Guard, t: Tenant, actor: Principal, meta: Metadata, c: Command)
    requires Structure(t)
    ensures Kept(t, Mutate(cfg, guard, t, actor, meta, c))
  {
    hide Structure, HistoryKept, CreateRoleStep, UpdateRoleStep, DeleteRoleStep, GrantPermissionStep,
         RevokePermissionStep,
         AssignRoleStep, UnassignRoleStep;
    if ValidCommand(cfg, actor, meta, c) {
      match c {
        case CreateRole(roleID, name, description) =>
          CreateRoleKeeps(cfg, t, actor, meta, roleID, name, description, []);
        case CreateRoleWithPermissions(roleID, name, description, permissions) =>
          CreateRoleKeeps(cfg, t, actor, meta, roleID, name, description, permissions);
        case UpdateRole(roleID, expected, name, description) =>
          UpdateRoleKeeps(cfg, t, actor, meta, roleID, expected, name, description);
        case DeleteRole(roleID, expected) => DeleteRoleKeeps(cfg, t, actor, meta, roleID, expected);
        case GrantPermission(roleID, expected, permission, scope, roles) =>
          GrantOfInputValid(cfg, roleID, permission, scope, roles);
          GrantKeeps(cfg, t, actor, meta, GrantOfInput(cfg, roleID, permission, scope, roles).value, expected);
        case RevokePermission(roleID, expected, permission, scope, roles) =>
          RevokeKeeps(cfg, guard, t, actor, meta, GrantOfInput(cfg, roleID, permission, scope, roles).value, expected);
        case AssignRole(subject, roleID, expected) => AssignKeeps(cfg, t, actor, meta, subject, roleID, expected);
        case UnassignRole(subject, roleID, expected) =>
          UnassignKeeps(cfg, guard, t, actor, meta, subject, roleID, expected);
      }
    }
  }
}
