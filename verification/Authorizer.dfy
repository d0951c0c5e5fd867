/** Authorizer.Check of authorizer.go, proved against an order-free description of its decision. */
module Authorizer {
  import opened Wrappers
  import opened Text
  import opened Policy

  datatype Reason =
    | Allowed | InvalidRequest | PermissionNotGranted | TenantMismatch | OwnerMismatch
    | WorkspaceMembershipMissing | WorkspaceRoleDenied | InvalidPolicy | DependencyUnavailable

  datatype Decision = Decision(allowed: bool, reason: Reason, effectiveScope: Option<Scope>)

  // The answer of the host's membership directory for the subject and workspace of a request.
  datatype Lookup = Member(role: string) | NotMember | Unavailable

  // deniedReason of authorizer.go:175-184
  datatype Denied =
    DeniedNone | DeniedTenantMismatch | DeniedOwnerMismatch | DeniedWorkspaceMissing | DeniedWorkspaceRole | DeniedOther

  function Rank(d: Denied): int {
    match d
    case DeniedTenantMismatch => 1
    case DeniedOwnerMismatch => 2
    case DeniedWorkspaceMissing => 3
    case DeniedWorkspaceRole => 4
    case _ => 5
  }

  function MergeDenied(a: Denied, b: Denied): Denied {
    if a == DeniedOther || b == DeniedOther then DeniedOther
    else if a == DeniedNone then b
    else if b == DeniedNone then a
    else if Rank(b) < Rank(a) then b
    else a
  }

  function ReasonOr(d: Denied, fallback: Reason): Reason {
    match d
    case DeniedTenantMismatch => TenantMismatch
    case DeniedOwnerMismatch => OwnerMismatch
    case DeniedWorkspaceMissing => WorkspaceMembershipMissing
    case DeniedWorkspaceRole => WorkspaceRoleDenied
    case _ => fallback
  }

  // ---------- The specification: quantifiers over grants, no order ----------

  predicate CrossTenant(request: CheckRequest) {
    request.resource.tenantID != "" && request.resource.tenantID != request.principal.tenantID
  }

  predicate HasScope(grants: seq<Grant>, scope: Scope) {
    exists g | g in grants :: g.scope == scope
  }

  // The membership facts matter: some workspace grant could apply and no tenant grant decides first.
  predicate NeedsMembership(request: CheckRequest, grants: seq<Grant>) {
    && !request.mode.ResourceTenantAction?
    && request.resource.workspaceID != ""
    && HasScope(grants, ScopeWorkspace)
    && !HasScope(grants, ScopeTenant)
  }

  predicate IsMember(request: CheckRequest, lookup: Lookup) {
    !request.mode.ResourceTenantAction? && request.resource.workspaceID != "" && lookup.Member?
  }

  function MembershipRole(lookup: Lookup): string {
    if lookup.Member? then lookup.role else ""
  }

  predicate Satisfies(request: CheckRequest, lookup: Lookup, g: Grant) {
    AllowAccess(request, g, MembershipRole(lookup), IsMember(request, lookup))
  }

  predicate SomeAllows(request: CheckRequest, lookup: Lookup, grants: seq<Grant>, scope: Scope) {
    exists g | g in grants :: g.scope == scope && Satisfies(request, lookup, g)
  }

  function DenialReason(request: CheckRequest, lookup: Lookup, grants: seq<Grant>): Reason {
    if request.mode.ResourceTenantAction? then PermissionNotGranted
    else if HasScope(grants, ScopeOwn) then OwnerMismatch
    else if HasScope(grants, ScopeWorkspace) then
      if IsMember(request, lookup) then WorkspaceRoleDenied else WorkspaceMembershipMissing
    else PermissionNotGranted
  }

  predicate AllValid(request: CheckRequest, grants: seq<Grant>) {
    forall g | g in grants :: ValidGrant(g, request.permission)
  }

  function Deny(reason: Reason): Decision {
    Decision(false, reason, None)
  }

  // The decision for a valid same-tenant request whose policy rows were loaded.
  function DecideGrants(request: CheckRequest, grants: seq<Grant>, lookup: Lookup): Decision {
    if !AllValid(request, grants) then Deny(InvalidPolicy)
    else if HasScope(grants, ScopeTenant) then Decision(true, Allowed, Some(ScopeTenant))
    else if NeedsMembership(request, grants) && lookup.Unavailable? then Deny(DependencyUnavailable)
    else if SomeAllows(request, lookup, grants, ScopeWorkspace) then Decision(true, Allowed, Some(ScopeWorkspace))
    else if SomeAllows(request, lookup, grants, ScopeOwn) then Decision(true, Allowed, Some(ScopeOwn))
    else Deny(DenialReason(request, lookup, grants))
  }

  function Decide(catalog: set<PermissionKey>, request: CheckRequest, rows: Result<seq<Grant>, ()>,
                  lookup: Lookup): Decision
  {
    if !(ValidRequest(request) && request.permission in catalog) then Deny(InvalidRequest)
    else if CrossTenant(request) then Deny(TenantMismatch)
    else match rows
      case Err(_) => Deny(DependencyUnavailable)
      case Ok(grants) => DecideGrants(request, grants, lookup)
  }

  // ---------- The implementation ----------

  class MembershipReader {
    const directory: map<(TenantID, WorkspaceID, SubjectID), string>
    const down: bool
    var lookups: nat

    constructor (directory: map<(TenantID, WorkspaceID, SubjectID), string>, down: bool)
      ensures this.directory == directory && this.down == down && lookups == 0
    {
      this.directory, this.down, lookups := directory, down, 0;
    }

    function Answer(request: CheckRequest): Lookup {
      var key := (request.principal.tenantID, request.resource.workspaceID, request.principal.subjectID);
      if down then Unavailable else if key in directory then Member(directory[key]) else NotMember
    }

    method LookupWorkspaceMembership(request: CheckRequest) returns (answer: Lookup)
      modifies this
      ensures answer == Answer(request) && lookups == old(lookups) + 1
    {
      lookups := lookups + 1;
      answer := Answer(request);
    }
  }

  // The facts that one Check call loads at most once and every candidate shares.
  class MembershipSnapshot {
    var loaded: bool
    var role: string
    var member: bool

    constructor ()
      ensures !loaded && !member && role == ""
    {
      loaded, role, member := false, "", false;
    }

    ghost predicate Consistent(reader: MembershipReader, request: CheckRequest)
      reads this
    {
      if loaded then !reader.Answer(request).Unavailable?
                     && member == reader.Answer(request).Member? && role == MembershipRole(reader.Answer(request))
      else !member && role == ""
    }

    method Load(reader: MembershipReader, request: CheckRequest) returns (failed: bool)
      requires Consistent(reader, request)
      modifies this, reader
      ensures Consistent(reader, request)
      ensures failed <==> !old(loaded) && reader.Answer(request).Unavailable?
      ensures loaded == !failed
      ensures reader.lookups == old(reader.lookups) + if old(loaded) then 0 else 1
    {
      if loaded {
        return false;
      }
      var answer := reader.LookupWorkspaceMembership(request);
      if answer.Unavailable? {
        return true;
      }
      role, member, loaded := MembershipRole(answer), answer.Member?, true;
      return false;
    }
  }

  datatype Evaluation = Allows | Denies(reason: Denied) | Fails

  // What evaluate answers for one valid grant of a same-tenant request.
  function EvaluationOf(request: CheckRequest, lookup: Lookup, g: Grant): Evaluation {
    if g.scope.ScopeWorkspace? && !request.mode.ResourceTenantAction? && request.resource.workspaceID != ""
       && lookup.Unavailable? then Fails
    else if Satisfies(request, lookup, g) then Allows
    else Denies(ScopeDenial(request, lookup, g.scope))
  }

  function ScopeDenial(request: CheckRequest, lookup: Lookup, scope: Scope): Denied {
    if request.mode.ResourceTenantAction? then DeniedOther
    else match scope
      case ScopeOwn => DeniedOwnerMismatch
      case ScopeWorkspace => if IsMember(request, lookup) then DeniedWorkspaceRole else DeniedWorkspaceMissing
      case _ => DeniedOther
  }

  class Authorizer {
    const catalog: set<PermissionKey>
    const memberships: MembershipReader

    constructor (catalog: set<PermissionKey>, memberships: MembershipReader)
      ensures this.catalog == catalog && this.memberships == memberships
    {
      this.catalog, this.memberships := catalog, memberships;
    }

    // The snapshot agrees with the directory, and it was loaded only for a request that can need it.
    ghost predicate Ready(request: CheckRequest, workspace: MembershipSnapshot)
      reads workspace
    {
      && workspace.Consistent(memberships, request)
      && (workspace.loaded ==> request.resource.workspaceID != "" && !request.mode.ResourceTenantAction?)
    }

    // From one state to the next a loaded snapshot stays loaded, and only loading it costs a lookup.
    static ghost predicate LookupPaid(loadedBefore: bool, before: nat, loadedAfter: bool, after: nat) {
      && (loadedBefore ==> loadedAfter)
      && after == before + if loadedAfter && !loadedBefore then 1 else 0
    }

    method Evaluate(request: CheckRequest, grant: Grant, workspace: MembershipSnapshot) returns (e: Evaluation)
      requires !CrossTenant(request) && ValidGrant(grant, request.permission)
      requires Ready(request, workspace)
      modifies workspace, memberships
      ensures Ready(request, workspace)
      ensures e == EvaluationOf(request, memberships.Answer(request), grant)
      ensures !e.Fails? ==>
        LookupPaid(old(workspace.loaded), old(memberships.lookups), workspace.loaded, memberships.lookups)
      ensures e.Fails? ==> !old(workspace.loaded) && memberships.lookups == old(memberships.lookups) + 1
    {
      if grant.scope.ScopeWorkspace? && !request.mode.ResourceTenantAction? && request.resource.workspaceID != "" {
        var failed := workspace.Load(memberships, request);
        if failed {
          return Fails;
        }
      }
      if AllowAccess(request, grant, workspace.role, workspace.member) {
        return Allows;
      }
      if request.mode.ResourceTenantAction? {
        return Denies(DeniedOther);
      }
      match grant.scope {
        case ScopeOwn => return Denies(DeniedOwnerMismatch);
        case ScopeWorkspace =>
          if !workspace.member {
            return Denies(DeniedWorkspaceMissing);
          }
          return Denies(DeniedWorkspaceRole);
        case _ => return Denies(DeniedOther);
      }
    }

    // The grants of one scope, in any order.
    method CheckScope(request: CheckRequest, grants: seq<Grant>, scope: Scope, workspace: MembershipSnapshot)
      returns (outcome: Evaluation)
      requires !CrossTenant(request) && AllValid(request, grants)
      requires Ready(request, workspace)
      modifies workspace, memberships
      ensures Ready(request, workspace)
      ensures outcome == ScopeOutcome(request, memberships.Answer(request), grants, scope)
      ensures !outcome.Fails? ==>
        LookupPaid(old(workspace.loaded), old(memberships.lookups), workspace.loaded, memberships.lookups)
      ensures outcome.Fails? ==> !old(workspace.loaded) && memberships.lookups == old(memberships.lookups) + 1
    {
      ghost var lookup := memberships.Answer(request);
      var denied := DeniedNone;
      for i := 0 to |grants|
        invariant Ready(request, workspace)
        invariant ScopeOutcome(request, lookup, grants[..i], scope) == Denies(denied)
        invariant LookupPaid(old(workspace.loaded), old(memberships.lookups), workspace.loaded, memberships.lookups)
      {
        ScopeOutcomeStep(request, lookup, grants, i, scope);
        if grants[i].scope == scope {
          var e := Evaluate(request, grants[i], workspace);
          match e {
            case Fails => return Fails;
            case Allows => return Allows;
            case Denies(reason) => denied := MergeDenied(denied, reason);
          }
        }
      }
      assert grants[..|grants|] == grants;
      return Denies(denied);
    }

    method Check(request: CheckRequest, rows: Result<seq<Grant>, ()>) returns (decision: Decision)
      modifies memberships
      ensures decision == Decide(catalog, request, rows, memberships.Answer(request))
      ensures memberships.lookups <= old(memberships.lookups) + 1
    {
      if !(ValidRequest(request) && request.permission in catalog) {
        return Deny(InvalidRequest);
      }
      if CrossTenant(request) {
        return Deny(TenantMismatch);
      }
      if rows.Err? {
        return Deny(DependencyUnavailable);
      }
      var grants := rows.value;
      for i := 0 to |grants|
        invariant forall k | 0 <= k < i :: ValidGrant(grants[k], request.permission)
        invariant memberships.lookups == old(memberships.lookups)
      {
        if !ValidGrant(grants[i], request.permission) {
          assert grants[i] in grants;
          return Deny(InvalidPolicy);
        }
      }
      var workspace := new MembershipSnapshot();
      ghost var lookup := memberships.Answer(request);
      var best := DeniedNone;
      for k := 0 to |SCOPES|
        invariant Ready(request, workspace)
        invariant forall j | 0 <= j < k :: ScopeOutcome(request, lookup, grants, SCOPES[j]).Denies?
        invariant best == MergedDenials(request, lookup, grants, k)
        invariant LookupPaid(false, old(memberships.lookups), workspace.loaded, memberships.lookups)
      {
        var outcome := CheckScope(request, grants, SCOPES[k], workspace);
        match outcome {
          case Fails => DecideByScopes(request, lookup, grants, k); return Deny(DependencyUnavailable);
          case Allows => DecideByScopes(request, lookup, grants, k); return Decision(true, Allowed, Some(SCOPES[k]));
          case Denies(reason) => best := MergeDenied(best, reason);
        }
      }
      DecideByScopes(request, lookup, grants, 3);
      return Deny(ReasonOr(best, PermissionNotGranted));
    }
  }

  const SCOPES: seq<Scope> := [ScopeTenant, ScopeWorkspace, ScopeOwn]

  predicate LookupFails(request: CheckRequest, lookup: Lookup, grants: seq<Grant>, scope: Scope) {
    && HasScope(grants, scope) && scope.ScopeWorkspace? && !request.mode.ResourceTenantAction?
    && request.resource.workspaceID != "" && lookup.Unavailable?
  }

  function ScopeOutcome(request: CheckRequest, lookup: Lookup, grants: seq<Grant>, scope: Scope): Evaluation {
    if LookupFails(request, lookup, grants, scope) then Fails
    else if SomeAllows(request, lookup, grants, scope) then Allows
    else Denies(if HasScope(grants, scope) then ScopeDenial(request, lookup, scope) else DeniedNone)
  }

  function MergedDenials(request: CheckRequest, lookup: Lookup, grants: seq<Grant>, k: nat): Denied
    requires k <= |SCOPES|
  {
    if k == 0 then DeniedNone
    else var o := ScopeOutcome(request, lookup, grants, SCOPES[k - 1]);
         if o.Denies? then MergeDenied(MergedDenials(request, lookup, grants, k - 1), o.reason) else DeniedOther
  }

  // One more row of the scope decides, or leaves the merged denial of the scope.
  lemma ScopeOutcomeStep(request: CheckRequest, lookup: Lookup, grants: seq<Grant>, i: nat, scope: Scope)
    requires i < |grants| && AllValid(request, grants)
    requires ScopeOutcome(request, lookup, grants[..i], scope).Denies?
    ensures var next := ScopeOutcome(request, lookup, grants[..i + 1], scope);
            var before := ScopeOutcome(request, lookup, grants[..i], scope).reason;
            if grants[i].scope != scope then next == Denies(before)
            else match EvaluationOf(request, lookup, grants[i])
                 case Denies(reason) => next == Denies(MergeDenied(before, reason))
                 case e => ScopeOutcome(request, lookup, grants, scope) == e
  {
    assert grants[..i + 1] == grants[..i] + [grants[i]];
    assert forall g :: g in grants[..i + 1] <==> g in grants[..i] || g == grants[i];
    assert grants[i] in grants;
    if grants[i].scope == scope && EvaluationOf(request, lookup, grants[i]).Allows? {
      assert SomeAllows(request, lookup, grants, scope);
    }
  }

  lemma TenantGrantAllows(request: CheckRequest, lookup: Lookup, grants: seq<Grant>)
    requires !CrossTenant(request) && AllValid(request, grants)
    ensures HasScope(grants, ScopeTenant) <==> SomeAllows(request, lookup, grants, ScopeTenant)
  {
    if HasScope(grants, ScopeTenant) {
      var g :| g in grants && g.scope == ScopeTenant;
      assert Satisfies(request, lookup, g);
    }
  }

  // Trying the scopes in precedence order yields the declarative decision.
  lemma DecideByScopes(request: CheckRequest, lookup: Lookup, grants: seq<Grant>, k: nat)
    requires !CrossTenant(request) && AllValid(request, grants) && k <= 3
    requires forall j | 0 <= j < k :: ScopeOutcome(request, lookup, grants, SCOPES[j]).Denies?
    requires k < 3 ==> !ScopeOutcome(request, lookup, grants, SCOPES[k]).Denies?
    ensures DecideGrants(request, grants, lookup)
         == if k == 3 then Deny(ReasonOr(MergedDenials(request, lookup, grants, 3), PermissionNotGranted))
            else if ScopeOutcome(request, lookup, grants, SCOPES[k]).Fails? then Deny(DependencyUnavailable)
            else Decision(true, Allowed, Some(SCOPES[k]))
  {
    TenantGrantAllows(request, lookup, grants);
    if k > 0 {
      assert ScopeOutcome(request, lookup, grants, SCOPES[0]).Denies?;
    }
    if k > 1 {
      assert ScopeOutcome(request, lookup, grants, SCOPES[1]).Denies?;
    }
    if k == 3 {
      assert ScopeOutcome(request, lookup, grants, SCOPES[2]).Denies?;
      assert MergedDenials(request, lookup, grants, 1) == DeniedNone;
      assert MergedDenials(request, lookup, grants, 3)
          == MergeDenied(MergedDenials(request, lookup, grants, 2),
                         ScopeOutcome(request, lookup, grants, ScopeOwn).reason);
    }
  }

  // ---------- What the decision guarantees ----------

  // A request is allowed exactly when every loaded grant is well formed and one of them allows it, and
  // the facts needed to tell were available.
  lemma AllowedIff(catalog: set<PermissionKey>, request: CheckRequest, grants: seq<Grant>, lookup: Lookup)
    ensures Decide(catalog, request, Ok(grants), lookup).allowed
       <==> ValidRequest(request) && request.permission in catalog && AllValid(request, grants)
            && !(NeedsMembership(request, grants) && lookup.Unavailable?)
            && exists g | g in grants :: Satisfies(request, lookup, g)
  {
    if ValidRequest(request) && request.permission in catalog && AllValid(request, grants) {
      if g :| g in grants && Satisfies(request, lookup, g) {
        assert SomeAllows(request, lookup, grants, g.scope) && HasScope(grants, g.scope);
      } else if !CrossTenant(request) {
        TenantGrantAllows(request, lookup, grants);
      }
    }
  }

  // ---------- Every answer and its reason ----------

  // What a grant of each scope needs, in a request of its permission within one tenant.
  ghost predicate Opens(request: CheckRequest, lookup: Lookup, g: Grant) {
    || g.scope == ScopeTenant
    || (request.mode != ResourceTenantAction
        && ((g.scope == ScopeOwn && request.resource.ownerSubjectID == request.principal.subjectID)
            || (g.scope == ScopeWorkspace && request.resource.workspaceID != "" && lookup.Member?
                && (g.workspaceRoles == []
                    || exists r :: r in g.workspaceRoles && EqualFold(TrimSpace(r), TrimSpace(lookup.role))))))
  }

  // The membership must be known, but the directory did not answer.
  ghost predicate InTheDark(request: CheckRequest, grants: seq<Grant>, lookup: Lookup) {
    && lookup.Unavailable? && request.mode != ResourceTenantAction && request.resource.workspaceID != ""
    && (exists g :: g in grants && g.scope == ScopeWorkspace) && !exists g :: g in grants && g.scope == ScopeTenant
  }

  lemma OpensMeans(request: CheckRequest, lookup: Lookup, g: Grant)
    requires ValidRequest(request) && !CrossTenant(request) && ValidGrant(g, request.permission)
    ensures Opens(request, lookup, g) <==> Satisfies(request, lookup, g)
  {
    hide ValidPermission, TrimSpace, EqualFold;
  }

  // What is refused before any grant is looked at.
  lemma EarlyAnswers(catalog: set<PermissionKey>, request: CheckRequest, rows: Result<seq<Grant>, ()>, lookup: Lookup)
    ensures var d := Decide(catalog, request, rows, lookup);
      var valid := ValidRequest(request) && request.permission in catalog;
      var elsewhere := request.resource.tenantID != "" && request.resource.tenantID != request.principal.tenantID;
      && (d == Decision(false, InvalidRequest, None) <==> !valid)
      && (d == Decision(false, TenantMismatch, None) <==> valid && elsewhere)
      && (valid && !elsewhere && rows.Err? ==> d == Decision(false, DependencyUnavailable, None))
  {
    hide ValidRequest;
  }

  // Every other request: allowed under the first scope that opens it, or denied with the first reason that fits.
  lemma EveryAnswer(catalog: set<PermissionKey>, request: CheckRequest, grants: seq<Grant>, lookup: Lookup)
    requires ValidRequest(request) && request.permission in catalog && !CrossTenant(request)
    ensures var d := Decide(catalog, request, Ok(grants), lookup);
      var malformed := exists g :: g in grants && !ValidGrant(g, request.permission);
      var dark := InTheDark(request, grants, lookup);
      var closed := !malformed && !dark && forall g | g in grants :: !Opens(request, lookup, g);
      var concrete := request.mode != ResourceTenantAction;
      var own := concrete && exists g :: g in grants && g.scope == ScopeOwn;
      var workspace := concrete && exists g :: g in grants && g.scope == ScopeWorkspace;
      && (d.allowed <==> !malformed && !dark && exists g :: g in grants && Opens(request, lookup, g))
      && (d.allowed <==> d.reason == Allowed) && (d.allowed <==> d.effectiveScope.Some?)
      && (d.reason == InvalidPolicy <==> malformed)
      && (d.reason == DependencyUnavailable <==> !malformed && dark)
      && (d.reason == OwnerMismatch <==> closed && own)
      && (d.reason == WorkspaceRoleDenied <==>
            closed && !own && workspace && lookup.Member? && request.resource.workspaceID != "")
      && (d.reason == WorkspaceMembershipMissing <==>
            closed && !own && workspace && !(lookup.Member? && request.resource.workspaceID != ""))
      && (d.reason == PermissionNotGranted <==> closed && !own && !workspace)
  {
    hide ValidRequest, ValidGrant, Opens, Satisfies;
    if AllValid(request, grants) {
      forall g | g in grants ensures Opens(request, lookup, g) <==> Satisfies(request, lookup, g) {
        OpensMeans(request, lookup, g);
      }
      TenantGrantAllows(request, lookup, grants);
      NoneOpen(request, lookup, grants);
    }
    AllowedIff(catalog, request, grants, lookup);
  }

  lemma NoneOpen(request: CheckRequest, lookup: Lookup, grants: seq<Grant>)
    requires AllValid(request, grants)
    ensures (exists g :: g in grants && Satisfies(request, lookup, g)) <==>
      || SomeAllows(request, lookup, grants, ScopeTenant) || SomeAllows(request, lookup, grants, ScopeWorkspace)
      || SomeAllows(request, lookup, grants, ScopeOwn)
  {
    hide ValidPermission, AllowAccess;
    if g :| g in grants && Satisfies(request, lookup, g) {
      assert ValidGrant(g, request.permission);
      assert SomeAllows(request, lookup, grants, g.scope);
    }
  }

  // An allow names the first scope of tenant, workspace and own that has a grant which opens the request.
  lemma AllowedScope(catalog: set<PermissionKey>, request: CheckRequest, grants: seq<Grant>, lookup: Lookup,
                     scope: Scope)
    requires Decide(catalog, request, Ok(grants), lookup).effectiveScope == Some(scope)
    ensures exists g :: g in grants && g.scope == scope && Opens(request, lookup, g)
    ensures scope != ScopeTenant ==> forall g | g in grants :: g.scope != ScopeTenant
    ensures scope == ScopeOwn ==> forall g | g in grants && g.scope == ScopeWorkspace :: !Opens(request, lookup, g)
    ensures scope in [ScopeTenant, ScopeWorkspace, ScopeOwn]
  {
    hide ValidRequest, ValidGrant, Opens, Satisfies;
    forall g | g in grants ensures Opens(request, lookup, g) <==> Satisfies(request, lookup, g) {
      OpensMeans(request, lookup, g);
    }
    TenantGrantAllows(request, lookup, grants);
  }

  // The reported scope is the first of tenant, workspace, own that has an allowing grant.
  lemma ScopePrecedence(request: CheckRequest, grants: seq<Grant>, lookup: Lookup)
    requires !CrossTenant(request)
    requires DecideGrants(request, grants, lookup).allowed
    ensures var scope := DecideGrants(request, grants, lookup).effectiveScope;
            && scope.Some? && SomeAllows(request, lookup, grants, scope.value)
            && (!scope.value.ScopeTenant? ==> !SomeAllows(request, lookup, grants, ScopeTenant))
            && (scope.value.ScopeOwn? ==> !SomeAllows(request, lookup, grants, ScopeWorkspace))
  {
    if HasScope(grants, ScopeTenant) {
      var g :| g in grants && g.scope == ScopeTenant;
      assert Satisfies(request, lookup, g);
    }
  }

  // The decision does not depend on the order or multiplicity of the rows.
  lemma OrderIrrelevant(catalog: set<PermissionKey>, request: CheckRequest, a: seq<Grant>, b: seq<Grant>,
                        lookup: Lookup)
    requires forall g :: g in a <==> g in b
    ensures Decide(catalog, request, Ok(a), lookup) == Decide(catalog, request, Ok(b), lookup)
  {
    forall scope
      ensures HasScope(a, scope) == HasScope(b, scope)
      ensures SomeAllows(request, lookup, a, scope) == SomeAllows(request, lookup, b, scope)
    {
    }
  }

  // One more valid grant turns an allowed request into a denied one only when the directory is down and
  // the request now needs it.
  lemma MoreGrants(catalog: set<PermissionKey>, request: CheckRequest, grants: seq<Grant>, extra: Grant, lookup: Lookup)
    requires ValidGrant(extra, request.permission)
    requires Decide(catalog, request, Ok(grants), lookup).allowed
    ensures Decide(catalog, request, Ok(grants + [extra]), lookup).allowed
       <==> !(lookup.Unavailable? && NeedsMembership(request, grants + [extra]))
  {
    AllowedIff(catalog, request, grants, lookup);
    AllowedIff(catalog, request, grants + [extra], lookup);
    var g :| g in grants && Satisfies(request, lookup, g);
    assert g in grants + [extra];
  }

  // Such a request exists: the added workspace grant is evaluated before the own-scope grant that
  // allowed the request, and its lookup fails.
  lemma MoreGrantsCanFail()
    returns (request: CheckRequest, grants: seq<Grant>, extra: Grant)
    ensures ValidGrant(extra, request.permission)
    ensures Decide({request.permission}, request, Ok(grants), Unavailable).allowed
    ensures Decide({request.permission}, request, Ok(grants + [extra]), Unavailable).reason == DependencyUnavailable
  {
    var permission := "a:b:c";
    assert IsColonSplit(permission, 1, 3);
    assert ValidPermission(permission);
    request := CheckRequest(Principal("t", "s"), permission, ResourceExisting, ResourceContext("t", "r", "s", "w"));
    ProbeIsValid(request);
    var own := Grant("o", permission, ScopeOwn, []);
    grants, extra := [own], Grant("x", permission, ScopeWorkspace, []);
    hide ValidPermission, ValidRequest;
    WorkspaceFirst(request, own, extra);
  }

  lemma WorkspaceFirst(request: CheckRequest, own: Grant, extra: Grant)
    requires ValidRequest(request) && ValidPermission(request.permission) && request.mode.ResourceExisting?
    requires !CrossTenant(request)
    requires request.resource.ownerSubjectID == request.principal.subjectID != "" && request.resource.workspaceID != ""
    requires own == Grant("o", request.permission, ScopeOwn, [])
    requires extra == Grant("x", request.permission, ScopeWorkspace, [])
    requires ValidID("o") && ValidID("x")
    ensures ValidGrant(extra, request.permission)
    ensures Decide({request.permission}, request, Ok([own]), Unavailable).allowed
    ensures Decide({request.permission}, request, Ok([own] + [extra]), Unavailable).reason == DependencyUnavailable
  {
    hide ValidPermission, ValidRequest;
    AllowedIff({request.permission}, request, [own], Unavailable);
    assert own in [own] && Satisfies(request, Unavailable, own);
    MoreGrants({request.permission}, request, [own], extra, Unavailable);
    assert extra in [own] + [extra];
  }

  lemma ProbeIsValid(request: CheckRequest)
    requires request == CheckRequest(Principal("t", "s"), request.permission, ResourceExisting,
                                     ResourceContext("t", "r", "s", "w"))
    requires ValidPermission(request.permission)
    ensures ValidRequest(request)
    ensures ValidID("o") && ValidID("x")
  {
    hide ValidPermission;
    assert Utf8Length("t") == 1 && Utf8Length("s") == 1 && Utf8Length("r") == 1 && Utf8Length("w") == 1;
    assert Utf8Length("o") == 1 && Utf8Length("x") == 1;
  }
}
