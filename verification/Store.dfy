/** memory.Store: the transaction that clones a tenant, runs one callback on the clone and swaps it in,
    the requests of Manager and Bootstrapper on top of it, and what callers observe. */
module Store {
  import opened Wrappers
  import opened Text
  import opened Ordering
  import opened Policy
  import opened GrantGraph
  import T = Tenancy
  import opened Tenancy
  import opened MemoryStore
  import Manager

  // The points at which MutateTenant looks at its context.
  datatype Context = Context(cancelledAtStart: bool, cancelledUnderLock: bool, cancelledBeforeCommit: bool)

  // A callback with the input that was validated before the transaction.
  datatype Callback =
    | CreateRoleCallback(roleID: RoleID, name: string, description: string, permissions: seq<PermissionKey>)
    | UpdateRoleCallback(roleID: RoleID, expectedVersion: int, name: string, description: string)
    | DeleteRoleCallback(roleID: RoleID, expectedVersion: int)
    | GrantCallback(grant: Grant, expectedVersion: int)
    | RevokeCallback(grant: Grant, expectedVersion: int)
    | AssignCallback(subjectID: SubjectID, roleID: RoleID, expectedVersion: int)
    | UnassignCallback(subjectID: SubjectID, roleID: RoleID, expectedVersion: int)
    | BootstrapCallback(input: BootstrapInput, initiator: string, grants: seq<Grant>)

  predicate Prepared(c: Callback) {
    match c
    case CreateRoleCallback(_, _, _, permissions) =>
      && NoDuplicates(permissions)
      && forall i, j | 0 <= i < j < |permissions| :: !StringLess(permissions[j], permissions[i])
    case GrantCallback(grant, _) => Normal(grant)
    case RevokeCallback(grant, _) => Normal(grant)
    case BootstrapCallback(input, _, grants) =>
      NoDuplicates(grants) && forall g | g in grants :: Normal(g) && g.roleID == input.ownerRoleID
    case _ => true
  }

  ghost function BootstrapStep(t: Tenant, input: BootstrapInput, initiator: string, grants: set<Grant>): Outcome {
    match OwnerState(t, input, initiator, grants)
    case Ok(after) => Ok((after, MutationResult(true, 1)))
    case Err(e) => Err(e)
  }

  ghost function CallbackStep(cfg: Config, guard: Guard, t: Tenant, actor: Principal, meta: Metadata,
                              c: Callback): Outcome
  {
    match c
    case CreateRoleCallback(roleID, name, description, permissions) =>
      CreateRoleStep(cfg, t, actor, meta, roleID, name, description, permissions)
    case UpdateRoleCallback(roleID, expected, name, description) =>
      UpdateRoleStep(cfg, t, actor, meta, roleID, expected, name, description)
    case DeleteRoleCallback(roleID, expected) => DeleteRoleStep(cfg, t, actor, meta, roleID, expected)
    case GrantCallback(grant, expected) => GrantPermissionStep(cfg, t, actor, meta, grant, expected)
    case RevokeCallback(grant, expected) => RevokePermissionStep(cfg, guard, t, actor, meta, grant, expected)
    case AssignCallback(subject, roleID, expected) => AssignRoleStep(cfg, t, actor, meta, subject, roleID, expected)
    case UnassignCallback(subject, roleID, expected) =>
      UnassignRoleStep(cfg, guard, t, actor, meta, subject, roleID, expected)
    case BootstrapCallback(input, initiator, grants) => BootstrapStep(t, input, initiator, Elements(grants))
  }

  method InsertOwnerGrants(tx: TenantState, roleID: RoleID, grants: seq<Grant>)
    requires tx.Valid() && Live(tx.Value(), roleID) && forall g | g in grants :: Normal(g) && g.roleID == roleID
    modifies tx.Repr
    ensures tx.Valid() && fresh(tx.Repr - old(tx.Repr)) && tx.purged == old(tx.purged)
    ensures tx.Value() == old(tx.Value()).(grants := old(tx.Value()).grants + Elements(grants))
  {
    hide TenantState.Valid, TenantState.Value, Normal;
    ghost var before := tx.Value();
    for i := 0 to |grants|
      invariant tx.Valid() && fresh(tx.Repr - old(tx.Repr)) && tx.purged == old(tx.purged)
      invariant tx.Value() == before.(grants := before.grants + Elements(grants[..i]))
    {
      assert grants[i] in grants;
      assert grants[..i + 1] == grants[..i] + [grants[i]];
      assert Elements(grants[..i + 1]) == Elements(grants[..i]) + {grants[i]};
      var changed := tx.InsertRolePermissionGrant(grants[i]);
    }
    assert grants[..|grants|] == grants;
  }

  // The callback of BootstrapTenant.
  method BootstrapOwner(tx: TenantState, input: BootstrapInput, initiator: string, grants: seq<Grant>)
    returns (result: Result<MutationResult, Error>)
    requires tx.Valid() && NoDuplicates(grants) && forall g | g in grants :: Normal(g) && g.roleID == input.ownerRoleID
    modifies tx.Repr
    ensures tx.Valid() && fresh(tx.Repr - old(tx.Repr)) && tx.purged == old(tx.purged)
    ensures Manager.Matches(result, tx.Value(), BootstrapStep(old(tx.Value()), input, initiator, Elements(grants)))
  {
    hide TenantState.Valid, TenantState.Value;
    var already := tx.IsBootstrapped();
    if already {
      return Err(AlreadyBootstrapped);
    }
    var role := Role(input.ownerRoleID, TrimSpace(input.name), TrimSpace(input.description), 1, false);
    var error := tx.InsertRole(role);
    if error.Some? {
      return Err(error.value);
    }
    InsertOwnerGrants(tx, role.roleID, grants);
    var bound := tx.InsertSubjectRoleGrant(Binding(input.ownerSubjectID, role.roleID, "", BootstrapProvenance));
    forall a, b | a in Elements(grants) && b in Elements(grants) && GrantOrder(a) == GrantOrder(b) ensures a == b {
      OrderInjective(a, b);
    }
    var sorted := SortByKey(grants, GrantOrder);
    tx.InsertRoleVersion(RoleVersion(role.roleID, 1, role.name, role.description, sorted, false, "", initiator));
    tx.InsertMutationAudit(AuditEvent("", initiator, "tenant.bootstrap", "tenant", input.tenantID, AuditSuccess,
                                      input.metadata.reasonCode, input.metadata.requestID, 1));
    tx.MarkBootstrapped();
    return Ok(MutationResult(true, 1));
  }

  method RunCallback(cfg: Config, guard: Guard, tx: TenantState, actor: Principal, meta: Metadata, c: Callback)
    returns (result: Result<MutationResult, Error>)
    requires tx.Valid() && Prepared(c) && GuardPermissions(cfg, guard) != {}
    modifies tx.Repr
    ensures tx.Valid() && fresh(tx.Repr - old(tx.Repr)) && tx.purged == old(tx.purged)
    ensures Manager.Matches(result, tx.Value(), CallbackStep(cfg, guard, old(tx.Value()), actor, meta, c))
  {
    hide TenantState.Valid, TenantState.Value;
    match c {
      case CreateRoleCallback(roleID, name, description, permissions) =>
        result :=
          Manager.CreateRole(cfg, tx, actor, meta, roleID, name, description, permissions);
      case UpdateRoleCallback(roleID, expected, name, description) =>
        result :=
          Manager.UpdateRole(cfg, tx, actor, meta, roleID, expected, name, description);
      case DeleteRoleCallback(roleID, expected) => result := Manager.DeleteRole(cfg, tx, actor, meta, roleID, expected);
      case GrantCallback(grant, expected) => result := Manager.GrantPermission(cfg, tx, actor, meta, grant, expected);
      case RevokeCallback(grant, expected) =>
        result :=
          Manager.RevokePermission(cfg, guard, tx, actor, meta, grant, expected);
      case AssignCallback(subject, roleID, expected) =>
        result :=
          Manager.AssignRole(cfg, tx, actor, meta, subject, roleID, expected);
      case UnassignCallback(subject, roleID, expected) =>
        result :=
          Manager.UnassignRole(cfg, guard, tx, actor, meta, subject, roleID, expected);
      case BootstrapCallback(input, initiator, grants) => result := BootstrapOwner(tx, input, initiator, grants);
    }
  }

  // What a transaction returns: a failed callback or a cancellation at any look at the context is an error.
  ghost function Transacted(outcome: Outcome, purged: bool, ctx: Context): Outcome {
    if ctx.cancelledAtStart || ctx.cancelledUnderLock then Err(Cancelled)
    else if purged then Err(NotFound)
    else if outcome.Ok? && ctx.cancelledBeforeCommit then Err(Cancelled)
    else outcome
  }

  // It succeeds exactly if nothing stands in its way, and then with the outcome of the callback.
  lemma TransactedMeans(outcome: Outcome, purged: bool, ctx: Context)
    ensures var r := Transacted(outcome, purged, ctx);
      var early := ctx.cancelledAtStart || ctx.cancelledUnderLock;
      && (r.Ok? <==> !early && !purged && !ctx.cancelledBeforeCommit && outcome.Ok?)
      && (r.Ok? ==> r == outcome)
      && (early ==> r == Err(Cancelled))
      && (!early && purged ==> r == Err(NotFound))
      && (!early && !purged && outcome.Err? ==> r == outcome)
      && (!early && !purged && outcome.Ok? && ctx.cancelledBeforeCommit ==> r == Err(Cancelled))
  {
  }

  class Store {
    var tenants: map<TenantID, TenantState>

    // Every object of a state that is or was committed.
    ghost var Repr: set<object>

    ghost predicate Valid()
      reads this, tenants.Values, Repr
      ensures Valid() ==> this !in Repr
    {
      && this !in Repr
      && forall id | id in tenants :: tenants[id] in Repr && tenants[id].Repr <= Repr && tenants[id].Valid()
    }

    // What a reader of the tenant sees: no entry reads like an empty one.
    ghost function Observed(id: TenantID): Tenant
      requires Valid()
      reads this, tenants.Values, Repr
    {
      if id in tenants then tenants[id].Value() else EMPTY_TENANT
    }

    ghost function Purged(id: TenantID): bool
      reads this, tenants.Values
    {
      id in tenants && tenants[id].purged
    }

    constructor ()
      ensures Valid() && forall id :: Observed(id) == EMPTY_TENANT && !Purged(id)
    {
      tenants := map[];
      Repr := {};
    }

    // Store.tenant: a tenant that was never heard of gets an empty state.
    method Enter(id: TenantID) returns (current: TenantState)
      requires Valid()
      modifies this
      ensures Valid() && id in tenants && current == tenants[id] && unchanged(old(Repr))
      ensures forall other :: Observed(other) == old(Observed(other)) && Purged(other) == old(Purged(other))
      ensures forall other | other in old(tenants) :: other in tenants && tenants[other] == old(tenants)[other]
    {
      hide TenantState.Valid, TenantState.Value;
      if id !in tenants {
        var empty := TenantState.New();
        Repr := Repr + empty.Repr;
        tenants := tenants[id := empty];
      }
      current := tenants[id];
    }

    // The swap at the end of a transaction.
    method Commit(id: TenantID, pending: TenantState)
      requires Valid() && pending.Valid() && this !in pending.Repr && pending in pending.Repr
      modifies this
      ensures Valid() && tenants == old(tenants)[id := pending]
      ensures Observed(id) == old(pending.Value()) && Purged(id) == old(pending.purged)
      ensures forall other | other != id ::
        Observed(other) == old(Observed(other)) && Purged(other) == old(Purged(other))
    {
      hide TenantState.Valid, TenantState.Value;
      Repr := Repr + pending.Repr;
      tenants := tenants[id := pending];
    }

    // Store.MutateTenant. No object of a committed state is ever written, whatever the result: a successful
    // transaction replaces the state of the tenant by one that shares nothing with it.
    method MutateTenant(cfg: Config, guard: Guard, ctx: Context, id: TenantID, actor: Principal, meta: Metadata,
                        c: Callback)
      returns (result: Result<MutationResult, Error>)
      requires Valid() && Prepared(c) && GuardPermissions(cfg, guard) != {} && ValidID(id)
      modifies this
      ensures Valid() && unchanged(old(Repr))
      ensures result.Ok? ==> id in tenants && fresh(tenants[id].Repr)
      ensures Manager.Matches(result, Observed(id),
                              Transacted(CallbackStep(cfg, guard, old(Observed(id)), actor, meta, c), old(Purged(id)),
                                         ctx))
      ensures result.Err? ==> Observed(id) == old(Observed(id))
      ensures Purged(id) == old(Purged(id))
      ensures forall other | other != id ::
        Observed(other) == old(Observed(other)) && Purged(other) == old(Purged(other))
    {
      hide Valid, TenantState.Valid, TenantState.Value, CallbackStep, Prepared, GuardPermissions;
      if ctx.cancelledAtStart || ctx.cancelledUnderLock {
        return Err(Cancelled);
      }
      var current := Enter(id);
      StateIs(id);
      if current.purged {
        return Err(NotFound);
      }
      var pending := current.Clone();
      result := RunCallback(cfg, guard, pending, actor, meta, c);
      if result.Err? {
        return;
      }
      if ctx.cancelledBeforeCommit {
        return Err(Cancelled);
      }
      Commit(id, pending);
    }

    lemma StateIs(id: TenantID)
      requires Valid() && id in tenants
      ensures tenants[id].Valid() && tenants[id].Value() == Observed(id) && tenants[id].purged == Purged(id)
      ensures tenants[id].Repr <= Repr
    {
    }

    // Every Manager request: validate, then one transaction.
    method Execute(cfg: Config, ctx: Context, actor: Principal, meta: Metadata, c: Command)
      returns (result: Result<MutationResult, Error>)
      requires Valid()
      modifies this
      ensures Valid()
      ensures ValidCommand(cfg, actor, meta, c) ==>
        Manager.Matches(result, Observed(actor.tenantID),
                        Transacted(Mutate(cfg, KernelGuard, old(Observed(actor.tenantID)), actor, meta, c),
                                   old(Purged(actor.tenantID)), ctx))
      ensures !ValidCommand(cfg, actor, meta, c) ==> result == Err(InvalidInput)
      ensures result.Err? ==> Observed(actor.tenantID) == old(Observed(actor.tenantID))
      ensures forall other | other != actor.tenantID :: Observed(other) == old(Observed(other))
    {
      hide Valid, Observed, Purged, CreateRoleStep, UpdateRoleStep, DeleteRoleStep, GrantPermissionStep,
           RevokePermissionStep, AssignRoleStep, UnassignRoleStep, GrantOfInput, Transacted;
      var prepared := Prepare(cfg, actor, meta, c);
      if prepared.None? {
        return Err(InvalidInput);
      }
      ghost var t := Observed(actor.tenantID);
      SameStep(cfg, KernelGuard, t, actor, meta, c, prepared.value);
      result := MutateTenant(cfg, KernelGuard, ctx, actor.tenantID, actor, meta, prepared.value);
    }

    // Bootstrapper.BootstrapTenant. The host's authorizer names the initiator or refuses, which it is asked once
    // the request itself is well formed and before its grants are looked at.
    method Bootstrap(cfg: Config, ctx: Context, input: BootstrapInput, initiator: Option<string>)
      returns (result: Result<MutationResult, Error>)
      requires Valid()
      modifies this
      ensures Valid() && unchanged(old(Repr))
      ensures ValidBootstrap(cfg, input) && initiator.Some? ==>
        Manager.Matches(result, Observed(input.tenantID),
                        Transacted(BootstrapStep(old(Observed(input.tenantID)), input, initiator.value,
                                                 BootstrapGrants(input)),
                                   old(Purged(input.tenantID)), ctx))
      ensures !WellFormedBootstrap(input) || (initiator.Some? && !ValidBootstrap(cfg, input)) ==>
        result == Err(InvalidInput)
      ensures WellFormedBootstrap(input) && initiator.None? ==> result == Err(Forbidden)
      ensures result.Err? ==> Observed(input.tenantID) == old(Observed(input.tenantID))
      ensures forall other | other != input.tenantID :: Observed(other) == old(Observed(other))
    {
      hide Valid, Observed, Purged, OwnerState, Transacted, BootstrapGrants;
      if !WellFormedBootstrap(input) {
        return Err(InvalidInput);
      }
      if initiator.None? {
        return Err(Forbidden);
      }
      var grants := PrepareBootstrap(cfg, input);
      if grants.None? {
        return Err(InvalidInput);
      }
      var owner := Principal(input.tenantID, input.ownerSubjectID);
      result := MutateTenant(cfg, KernelGuard, ctx, input.tenantID, owner, input.metadata,
                             BootstrapCallback(input, initiator.value, grants.value));
    }
  }

  // The grant map of BootstrapTenant after its first entries: the last entry of every key, normalized.
  ghost predicate LastEntries(cfg: Config, input: BootstrapInput, n: nat, m: map<(PermissionKey, Scope), Grant>)
    requires n <= |input.grants|
  {
    && (forall j | 0 <= j < n && IsLastEntry(input.grants[..n], j) ::
          var key := (input.grants[j].permission, input.grants[j].scope);
          key in m && m[key] == NormalGrant(input.grants[j]))
    && (forall key | key in m ::
          exists j | 0 <= j < n ::
            IsLastEntry(input.grants[..n], j) && key == (input.grants[j].permission, input.grants[j].scope))
    && (forall g | g in input.grants[..n] :: ValidEntry(cfg, input, g))
  }

  lemma NextEntry(cfg: Config, input: BootstrapInput, n: nat, m: map<(PermissionKey, Scope), Grant>)
    requires n < |input.grants| && LastEntries(cfg, input, n, m) && ValidEntry(cfg, input, input.grants[n])
    ensures LastEntries(cfg, input, n + 1,
                        m[(input.grants[n].permission, input.grants[n].scope) := NormalGrant(input.grants[n])])
  {
    hide ValidEntry, NormalGrant;
    var g := input.grants[n];
    var next := m[(g.permission, g.scope) := NormalGrant(g)];
    var before, after := input.grants[..n], input.grants[..n + 1];
    assert after == before + [g];
    forall j | 0 <= j < n + 1 && IsLastEntry(after, j)
      ensures (input.grants[j].permission, input.grants[j].scope) in next
      ensures next[(input.grants[j].permission, input.grants[j].scope)] == NormalGrant(input.grants[j])
    {
      assert j < n ==> IsLastEntry(before, j);
      assert j < n ==> !(after[n].permission == after[j].permission && after[n].scope == after[j].scope);
    }
    forall key | key in next
      ensures exists j | 0 <= j < n + 1 ::
        IsLastEntry(after, j) && key == (input.grants[j].permission, input.grants[j].scope)
    {
      if key == (g.permission, g.scope) {
        assert IsLastEntry(after, n);
      } else {
        var j :| 0 <= j < n && IsLastEntry(before, j) && key == (input.grants[j].permission, input.grants[j].scope);
        assert IsLastEntry(after, j);
      }
    }
  }

  lemma LastEntriesAreGrants(cfg: Config, input: BootstrapInput, m: map<(PermissionKey, Scope), Grant>)
    requires LastEntries(cfg, input, |input.grants|, m)
    ensures m.Values == BootstrapGrants(input)
    ensures forall key | key in m :: m[key].permission == key.0 && m[key].scope == key.1
  {
    assert input.grants[..|input.grants|] == input.grants;
    forall g ensures g in m.Values <==> g in BootstrapGrants(input) {
      if g in m.Values {
        var key :| key in m && m[key] == g;
        var j :| 0 <= j < |input.grants|
                 && IsLastEntry(input.grants, j)
                 && key == (input.grants[j].permission, input.grants[j].scope);
      }
      if g in BootstrapGrants(input) {
        var j :| 0 <= j < |input.grants| && IsLastEntry(input.grants, j) && g == NormalGrant(input.grants[j]);
        assert m[(input.grants[j].permission, input.grants[j].scope)] == g;
      }
    }
  }

  // The validation of BootstrapTenant, with the de-duplicated grants in some order.
  method PrepareBootstrap(cfg: Config, input: BootstrapInput) returns (grants: Option<seq<Grant>>)
    requires WellFormedBootstrap(input)
    ensures grants.Some? <==> ValidBootstrap(cfg, input)
    ensures grants.Some? ==> NoDuplicates(grants.value) && Elements(grants.value) == BootstrapGrants(input)
    ensures grants.Some? ==> forall g | g in grants.value :: Normal(g) && g.roleID == input.ownerRoleID
  {
    hide ValidPermission, ValidID, ValidRoleName, NormalizeWorkspaceRoles, BootstrapGrants, LastEntries;
    var m := CollectGrants(cfg, input);
    if m.None? {
      return None;
    }
    var complete := HasControls(cfg, input, m.value);
    if !complete {
      return None;
    }
    LastEntriesAreGrants(cfg, input, m.value);
    var list := ListValues(m.value);
    forall g | g in list ensures Normal(g) && g.roleID == input.ownerRoleID {
      assert g in m.value.Values;
    }
    return Some(list);
  }

  ghost predicate GrantsControls(cfg: Config, input: BootstrapInput) {
    forall p | p in GuardPermissions(cfg, KernelGuard) ::
      exists g | g in input.grants :: g.permission == p && g.scope == ScopeTenant
  }

  method HasControls(cfg: Config, input: BootstrapInput, m: map<(PermissionKey, Scope), Grant>) returns (complete: bool)
    requires LastEntries(cfg, input, |input.grants|, m)
    ensures complete <==> GrantsControls(cfg, input)
  {
    hide LastEntries;
    ControlsPresent(cfg, input, m);
    var controls := [cfg.controls.manageRoles, cfg.controls.manageGrants, cfg.controls.assignRoles];
    for i := 0 to 3
      invariant forall k | 0 <= k < i :: (controls[k], ScopeTenant) in m
    {
      if (controls[i], ScopeTenant) !in m {
        MissingControl(cfg, input, m, controls[i]);
        assert controls[i] in GuardPermissions(cfg, KernelGuard);
        return false;
      }
    }
    assert (controls[0], ScopeTenant) in m && (controls[1], ScopeTenant) in m && (controls[2], ScopeTenant) in m;
    return true;
  }

  lemma ControlsPresent(cfg: Config, input: BootstrapInput, m: map<(PermissionKey, Scope), Grant>)
    requires LastEntries(cfg, input, |input.grants|, m)
    ensures forall p | (p, ScopeTenant) in m ::
      exists g | g in input.grants :: g.permission == p && g.scope == ScopeTenant
  {
    forall p | (p, ScopeTenant) in m
      ensures exists g | g in input.grants :: g.permission == p && g.scope == ScopeTenant
    {
      var j :| 0 <= j < |input.grants| && (p, ScopeTenant) == (input.grants[j].permission, input.grants[j].scope);
      assert input.grants[j] in input.grants;
    }
  }

  lemma MissingControl(cfg: Config, input: BootstrapInput, m: map<(PermissionKey, Scope), Grant>, p: PermissionKey)
    requires LastEntries(cfg, input, |input.grants|, m) && (p, ScopeTenant) !in m
    ensures !exists g | g in input.grants :: g.permission == p && g.scope == ScopeTenant
  {
    assert input.grants[..|input.grants|] == input.grants;
    forall i | 0 <= i < |input.grants| && input.grants[i].permission == p ensures input.grants[i].scope != ScopeTenant {
      LastOf(input.grants, i);
    }
  }

  // Every entry has a last entry with its permission and scope.
  lemma {:induction false} LastOf(grants: seq<Grant>, i: nat)
    requires i < |grants|
    ensures exists j | 0 <= j < |grants| ::
      IsLastEntry(grants, j) && grants[j].permission == grants[i].permission && grants[j].scope == grants[i].scope
    decreases |grants| - i
  {
    if !IsLastEntry(grants, i) {
      var j :| i < j < |grants| && grants[j].permission == grants[i].permission && grants[j].scope == grants[i].scope;
      LastOf(grants, j);
    }
  }

  method CollectGrants(cfg: Config, input: BootstrapInput) returns (m: Option<map<(PermissionKey, Scope), Grant>>)
    ensures m.Some? <==> forall g | g in input.grants :: ValidEntry(cfg, input, g)
    ensures m.Some? ==> LastEntries(cfg, input, |input.grants|, m.value)
    ensures m.Some? ==> forall key | key in m.value :: Normal(m.value[key]) && m.value[key].roleID == input.ownerRoleID
  {
    hide ValidPermission, ValidSegment, NormalizeWorkspaceRoles, LastEntries;
    var grantMap: map<(PermissionKey, Scope), Grant> := map[];
    EmptyEntries(cfg, input);
    for i := 0 to |input.grants|
      invariant LastEntries(cfg, input, i, grantMap)
      invariant forall k | 0 <= k < i :: ValidEntry(cfg, input, input.grants[k])
      invariant forall key | key in grantMap :: Normal(grantMap[key]) && grantMap[key].roleID == input.ownerRoleID
    {
      var g := input.grants[i];
      assert g in input.grants;
      if g.roleID != input.ownerRoleID || !ValidPermission(g.permission) || g.permission !in cfg.catalog
         || g.scope.ScopeUnknown? {
        return None;
      }
      var roles := Manager.NormalizeRoles(g.workspaceRoles);
      if roles.None? {
        return None;
      }
      NextEntry(cfg, input, i, grantMap);
      grantMap := grantMap[(g.permission, g.scope) := g.(workspaceRoles := roles.value)];
    }
    return Some(grantMap);
  }

  lemma EmptyEntries(cfg: Config, input: BootstrapInput)
    ensures LastEntries(cfg, input, 0, map[])
  {
  }

  // Ranging over a map: its values in some order, each once when keys can be read off the values.
  method ListValues(m: map<(PermissionKey, Scope), Grant>) returns (list: seq<Grant>)
    requires forall key | key in m :: m[key].permission == key.0 && m[key].scope == key.1
    ensures NoDuplicates(list) && Elements(list) == m.Values
  {
    list := [];
    var rest := m.Keys;
    while rest != {}
      invariant rest <= m.Keys && NoDuplicates(list)
      invariant forall g :: g in list <==> (g.permission, g.scope) in m.Keys - rest && m[(g.permission, g.scope)] == g
      decreases rest
    {
      var key :| key in rest;
      ghost var done := m.Keys - rest;
      rest := rest - {key};
      assert m.Keys - rest == done + {key};
      assert m[key] !in list;
      list := list + [m[key]];
    }
    assert m.Keys - rest == m.Keys;
    forall g ensures g in Elements(list) <==> g in m.Values {
      if g in list {
        assert m[(g.permission, g.scope)] == g;
      }
    }
  }

  // c is what the request validates to.
  ghost predicate PreparedFrom(cfg: Config, c: Command, p: Callback) {
    match c
    case CreateRole(roleID, name, description) => p == CreateRoleCallback(roleID, name, description, [])
    case CreateRoleWithPermissions(roleID, name, description, permissions) =>
      && p.CreateRoleCallback?
      && p == CreateRoleCallback(roleID, name, description, p.permissions)
      && Elements(p.permissions) == Elements(permissions)
    case UpdateRole(roleID, expected, name, description) => p == UpdateRoleCallback(roleID, expected, name, description)
    case DeleteRole(roleID, expected) => p == DeleteRoleCallback(roleID, expected)
    case GrantPermission(roleID, expected, permission, scope, roles) =>
      && p.GrantCallback?
      && Some(p.grant) == GrantOfInput(cfg, roleID, permission, scope, roles)
      && p.expectedVersion == expected
    case RevokePermission(roleID, expected, permission, scope, roles) =>
      && p.RevokeCallback?
      && Some(p.grant) == GrantOfInput(cfg, roleID, permission, scope, roles)
      && p.expectedVersion == expected
    case AssignRole(subject, roleID, expected) => p == AssignCallback(subject, roleID, expected)
    case UnassignRole(subject, roleID, expected) => p == UnassignCallback(subject, roleID, expected)
  }

  lemma SameStep(cfg: Config, guard: Guard, t: Tenant, actor: Principal, meta: Metadata, c: Command, p: Callback)
    requires ValidCommand(cfg, actor, meta, c) && PreparedFrom(cfg, c, p)
    ensures CallbackStep(cfg, guard, t, actor, meta, p) == Mutate(cfg, guard, t, actor, meta, c)
  {
    hide RequireControl, RequireCoverAll, WithRole, UpdateRoleStep, DeleteRoleStep, GrantPermissionStep,
         RevokePermissionStep, AssignRoleStep, UnassignRoleStep;
    if c.CreateRoleWithPermissions? {
      SameTenantGrants(c.roleID, p.permissions, c.permissions);
    }
  }

  lemma SameTenantGrants(roleID: RoleID, a: seq<PermissionKey>, b: seq<PermissionKey>)
    requires Elements(a) == Elements(b)
    ensures TenantGrants(roleID, a) == TenantGrants(roleID, b)
  {
    assert forall p :: (p in a <==> p in Elements(a)) && (p in b <==> p in Elements(b));
    forall g ensures g in TenantGrants(roleID, a) <==> g in TenantGrants(roleID, b) {
    }
  }

  // Input validation, before any transaction opens.
  method Prepare(cfg: Config, actor: Principal, meta: Metadata, c: Command) returns (prepared: Option<Callback>)
    ensures prepared.Some? <==> ValidCommand(cfg, actor, meta, c)
    ensures prepared.Some? ==> Prepared(prepared.value) && PreparedFrom(cfg, c, prepared.value)
  {
    if !(ValidMetadata(meta) && ValidID(actor.tenantID) && ValidID(actor.subjectID) && ValidID(c.roleID)) {
      return None;
    }
    match c {
      case CreateRole(roleID, name, description) =>
        return if ValidRoleName(name) then Some(CreateRoleCallback(roleID, name, description, [])) else None;
      case CreateRoleWithPermissions(roleID, name, description, permissions) =>
        if !ValidRoleName(name) || |permissions| > |cfg.catalog| {
          return None;
        }
        var sorted := SortedPermissions(cfg, permissions);
        match sorted {
          case None => return None;
          case Some(list) => return Some(CreateRoleCallback(roleID, name, description, list));
        }
      case UpdateRole(roleID, expected, name, description) =>
        return if ValidRoleName(name) then Some(UpdateRoleCallback(roleID, expected, name, description)) else None;
      case DeleteRole(roleID, expected) => return Some(DeleteRoleCallback(roleID, expected));
      case GrantPermission(roleID, expected, permission, scope, roles) =>
        var grant := Manager.ValidateGrantInput(cfg, roleID, permission, scope, roles);
        return if grant.Some? then Some(GrantCallback(grant.value, expected)) else None;
      case RevokePermission(roleID, expected, permission, scope, roles) =>
        var grant := Manager.ValidateGrantInput(cfg, roleID, permission, scope, roles);
        return if grant.Some? then Some(RevokeCallback(grant.value, expected)) else None;
      case AssignRole(subject, roleID, expected) =>
        return if ValidID(subject) then Some(AssignCallback(subject, roleID, expected)) else None;
      case UnassignRole(subject, roleID, expected) =>
        return if ValidID(subject) then Some(UnassignCallback(subject, roleID, expected)) else None;
    }
  }

  // The validated, de-duplicated and sorted permissions of CreateRoleWithPermissions.
  method SortedPermissions(cfg: Config, permissions: seq<PermissionKey>) returns (sorted: Option<seq<PermissionKey>>)
    ensures sorted.Some? <==> forall p | p in permissions :: ValidPermission(p) && p in cfg.catalog
    ensures sorted.Some? ==> NoDuplicates(sorted.value) && Elements(sorted.value) == Elements(permissions)
    ensures sorted.Some? ==> forall i, j | 0 <= i < j < |sorted.value| :: !StringLess(sorted.value[j], sorted.value[i])
  {
    hide ValidPermission;
    var seen: seq<PermissionKey> := [];
    for i := 0 to |permissions|
      invariant forall p | p in permissions[..i] :: ValidPermission(p) && p in cfg.catalog
      invariant NoDuplicates(seen) && Elements(seen) == Elements(permissions[..i])
    {
      assert permissions[..i + 1] == permissions[..i] + [permissions[i]];
      if !ValidPermission(permissions[i]) || permissions[i] !in cfg.catalog {
        assert permissions[i] in permissions;
        return None;
      }
      assert Elements(seen + [permissions[i]]) == Elements(seen) + {permissions[i]} == Elements(permissions[..i + 1]);
      if permissions[i] !in seen {
        seen := seen + [permissions[i]];
      }
    }
    assert permissions[..|permissions|] == permissions;
    assert forall a, b | RoleOrder(a) == RoleOrder(b) :: RoleOrder(a)[0] == RoleOrder(b)[0];
    var list := SortByKey(seen, RoleOrder);
    IncreasingStrings(list);
    assert forall p :: p in permissions <==> p in Elements(permissions);
    return Some(list);
  }

  lemma IncreasingStrings(list: seq<string>)
    requires Increasing(list, RoleOrder)
    ensures NoDuplicates(list)
    ensures forall i, j | 0 <= i < j < |list| :: !StringLess(list[j], list[i])
  {
    forall i, j | 0 <= i < j < |list| ensures !StringLess(list[j], list[i]) && list[i] != list[j] {
      assert KeyLess(RoleOrder(list[i]), RoleOrder(list[j]));
      assert !KeyLess(RoleOrder(list[i])[1..], RoleOrder(list[j])[1..]);
      StringOrder(list[i], list[j], list[i]);
    }
  }
}
