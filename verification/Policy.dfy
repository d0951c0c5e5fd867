/** The scope contract of policy.go and the grant and request types of types.go. */
module Policy {
  import opened Text

  type TenantID = string
  type SubjectID = string
  type RoleID = string
  type WorkspaceID = string
  type ResourceID = string
  type PermissionKey = string

  // A persisted scope is an arbitrary string, of which three are meaningful.
  datatype Scope = ScopeOwn | ScopeWorkspace | ScopeTenant | ScopeUnknown(text: string)

  datatype ResourceMode = ResourceExisting | ResourceCreate | ResourceTenantAction | ResourceModeUnknown(text: string)

  datatype Principal = Principal(tenantID: TenantID, subjectID: SubjectID)

  datatype ResourceContext = ResourceContext(
    tenantID: TenantID, resourceID: ResourceID, ownerSubjectID: SubjectID, workspaceID: WorkspaceID)

  datatype CheckRequest = CheckRequest(
    principal: Principal, permission: PermissionKey, mode: ResourceMode, resource: ResourceContext)

  // One scoped grant of a role. The row of a role (RolePermissionGrant) and the view of a subject
  // (EffectiveGrant) have the same fields.
  datatype Grant = Grant(roleID: RoleID, permission: PermissionKey, scope: Scope, workspaceRoles: seq<string>)

  // validateOpaqueID
  predicate ValidID(id: string) {
    id != "" && Utf8Length(id) <= 256 && forall i | 0 <= i < |id| :: id[i] >= ' ' && id[i] != '\U{007F}'
  }

  // PermissionKey.Validate: exactly three segments separated by colons.
  predicate ValidPermission(key: PermissionKey) {
    exists i, j | 0 <= i < j < |key| :: IsColonSplit(key, i, j)
  }

  predicate IsColonSplit(key: string, i: nat, j: nat)
    requires i < j < |key|
  {
    && key[i] == ':'
    && key[j] == ':'
    && ValidSegment(key[..i])
    && ValidSegment(key[i + 1..j])
    && ValidSegment(key[j + 1..])
  }

  // EffectiveGrant.Validate
  predicate ValidGrant(grant: Grant, requested: PermissionKey) {
    && ValidPermission(grant.permission)
    && grant.permission == requested
    && !grant.scope.ScopeUnknown?
    && ValidID(grant.roleID)
    && forall role | role in grant.workspaceRoles :: ValidSegment(role)
  }

  predicate WorkspaceRoleMatch(role: string, allowed: seq<string>) {
    |allowed| == 0
    || exists candidate | candidate in allowed :: EqualFold(TrimSpace(candidate), TrimSpace(role))
  }

  method MatchWorkspaceRole(role: string, allowed: seq<string>) returns (matched: bool)
    ensures matched <==> WorkspaceRoleMatch(role, allowed)
  {
    if |allowed| == 0 {
      return true;
    }
    for i := 0 to |allowed|
      invariant forall k | 0 <= k < i :: !EqualFold(TrimSpace(allowed[k]), TrimSpace(role))
    {
      if EqualFold(TrimSpace(allowed[i]), TrimSpace(role)) {
        return true;
      }
    }
    return false;
  }

  // An unconstrained list covers every list; otherwise the target must be a non-empty subset.
  predicate CoversWorkspaceRoles(actorRoles: seq<string>, targetRoles: seq<string>) {
    |actorRoles| == 0
    || (|targetRoles| != 0 && forall role | role in targetRoles :: role in actorRoles)
  }

  method CheckWorkspaceRoleCoverage(actorRoles: seq<string>, targetRoles: seq<string>) returns (covered: bool)
    ensures covered <==> CoversWorkspaceRoles(actorRoles, targetRoles)
  {
    if |actorRoles| == 0 {
      return true;
    }
    if |targetRoles| == 0 {
      return false;
    }
    var actorSet: set<string> := {};
    for i := 0 to |actorRoles|
      invariant forall role :: role in actorSet <==> role in actorRoles[..i]
    {
      actorSet := actorSet + {actorRoles[i]};
    }
    assert actorRoles[..|actorRoles|] == actorRoles;
    for i := 0 to |targetRoles|
      invariant forall k | 0 <= k < i :: targetRoles[k] in actorRoles
    {
      if targetRoles[i] !in actorSet {
        return false;
      }
    }
    return true;
  }

  predicate AllowAccess(request: CheckRequest, grant: Grant, membershipRole: string, member: bool) {
    && request.permission == grant.permission
    && (request.resource.tenantID == "" || request.resource.tenantID == request.principal.tenantID)
    && (grant.scope.ScopeTenant?
        || (!request.mode.ResourceTenantAction?
            && match grant.scope
               case ScopeOwn =>
                 request.resource.ownerSubjectID != "" && request.resource.ownerSubjectID == request.principal.subjectID
               case ScopeWorkspace =>
                 && request.resource.workspaceID != ""
                 && member
                 && WorkspaceRoleMatch(membershipRole, grant.workspaceRoles)
               case _ => false))
  }

  predicate AllowDelegation(permission: PermissionKey, target: Scope, roles: seq<string>, exact: bool, grant: Grant) {
    && !target.ScopeUnknown?
    && permission == grant.permission
    && (grant.scope == target || (!exact && grant.scope.ScopeTenant?))
    && (!grant.scope.ScopeWorkspace? || CoversWorkspaceRoles(grant.workspaceRoles, roles))
  }

  // The non-exact rule, with the delegated permission given as a grant.
  predicate Covers(actor: Grant, target: Grant) {
    AllowDelegation(target.permission, target.scope, target.workspaceRoles, false, actor)
  }

  // ---------- What delegation means ----------

  // A covered grant allows nothing that the covering grant does not allow under the same facts.
  lemma DelegationSound(actor: Grant, target: Grant, request: CheckRequest, membershipRole: string, member: bool)
    requires Covers(actor, target)
    requires AllowAccess(request, target, membershipRole, member)
    ensures AllowAccess(request, actor, membershipRole, member)
  {
  }

  // authorizer.go:112-173: the requests that Check evaluates, without the catalog lookup.
  predicate ValidRequest(request: CheckRequest) {
    var res := request.resource;
    && ValidID(request.principal.tenantID)
    && ValidID(request.principal.subjectID)
    && ValidPermission(request.permission)
    && (match request.mode
        case ResourceExisting => res.resourceID != "" && res.tenantID != ""
        case ResourceCreate => res.tenantID != ""
        case ResourceTenantAction => res.resourceID == ""
        case _ => false)
    && (res.tenantID != "" ==> ValidID(res.tenantID))
    && (res.resourceID != "" ==> ValidID(res.resourceID))
    && (res.ownerSubjectID != "" ==> ValidID(res.ownerSubjectID))
    && (res.workspaceID != "" ==> ValidID(res.workspaceID))
  }

  // A valid request of the target's permission on an existing resource with the given owner and workspace.
  function ProbeRequest(target: Grant, owner: SubjectID, workspace: WorkspaceID): CheckRequest {
    CheckRequest(Principal("t", "s"), target.permission, ResourceExisting, ResourceContext("t", "r", owner, workspace))
  }

  function TenantProbe(target: Grant): CheckRequest {
    CheckRequest(Principal("t", "s"), target.permission, ResourceTenantAction, ResourceContext("", "", "", ""))
  }

  // A membership role that the target admits and the actor does not.
  lemma {:induction false} UncoveredRole(actorRoles: seq<string>, targetRoles: seq<string>) returns (role: string)
    requires forall r | r in actorRoles + targetRoles :: ValidSegment(r)
    requires !CoversWorkspaceRoles(actorRoles, targetRoles)
    ensures WorkspaceRoleMatch(role, targetRoles) && !WorkspaceRoleMatch(role, actorRoles)
  {
    if |targetRoles| == 0 {
      role := "";
      forall r | r in actorRoles ensures !EqualFold(TrimSpace(r), TrimSpace("")) {
        assert r in actorRoles + targetRoles;
        assert TrimSpace(r) == r;
      }
    } else {
      role :| role in targetRoles && role !in actorRoles;
      assert role in actorRoles + targetRoles;
      SegmentsMatchExactly(role, role);
      forall r | r in actorRoles ensures !EqualFold(TrimSpace(r), TrimSpace(role)) {
        assert r in actorRoles + targetRoles;
        SegmentsMatchExactly(r, role);
      }
    }
  }

  lemma ProbesAreValid(target: Grant)
    requires ValidPermission(target.permission)
    ensures ValidRequest(TenantProbe(target)) && ValidRequest(ProbeRequest(target, "s", ""))
    ensures ValidRequest(ProbeRequest(target, "", "w"))
  {
    hide ValidPermission;
    assert Utf8Length("t") == 1 && Utf8Length("s") == 1 && Utf8Length("r") == 1 && Utf8Length("w") == 1;
  }

  // Every uncovered valid grant allows a valid request that the would-be grantor is denied.
  lemma DelegationWitness(actor: Grant, target: Grant)
    returns (request: CheckRequest, membershipRole: string, member: bool)
    requires ValidGrant(actor, actor.permission) && ValidGrant(target, target.permission)
    requires !Covers(actor, target)
    ensures ValidRequest(request)
    ensures AllowAccess(request, target, membershipRole, member)
    ensures !AllowAccess(request, actor, membershipRole, member)
  {
    hide ValidRequest, ValidPermission, ValidID, ValidSegment, EqualFold, TrimSpace;
    ProbesAreValid(target);
    membershipRole, member := "", true;
    match target.scope {
      case ScopeTenant =>
        request := TenantProbe(target);
      case ScopeOwn =>
        request := ProbeRequest(target, "s", "");
      case ScopeWorkspace =>
        request := ProbeRequest(target, "", "w");
        if actor.scope.ScopeWorkspace? && !CoversWorkspaceRoles(actor.workspaceRoles, target.workspaceRoles) {
          membershipRole := UncoveredRole(actor.workspaceRoles, target.workspaceRoles);
        } else if |target.workspaceRoles| > 0 {
          membershipRole := target.workspaceRoles[0];
          SegmentsMatchExactly(membershipRole, membershipRole);
        }
    }
  }

  // The delegation rule is exactly containment of authority.
  lemma DelegationIsContainment(actor: Grant, target: Grant)
    requires ValidGrant(actor, actor.permission) && ValidGrant(target, target.permission)
    ensures Covers(actor, target) <==>
      forall request, role, member ::
        AllowAccess(request, target, role, member) ==> AllowAccess(request, actor, role, member)
  {
    if Covers(actor, target) {
      forall request, role, member | AllowAccess(request, target, role, member)
        ensures AllowAccess(request, actor, role, member)
      {
        DelegationSound(actor, target, request, role, member);
      }
    } else {
      var request, role, member := DelegationWitness(actor, target);
    }
  }

  // Delegated authority can be delegated again without growing.
  lemma CoverageTransitive(a: Grant, b: Grant, c: Grant)
    requires Covers(a, b) && Covers(b, c)
    ensures Covers(a, c)
  {
  }
}
