/** internal/coreapp/policy_store.go and ManageMember of tenant_admin.go: the same tables and memberships,
    changed inside one transaction that is discarded on error. */
module CoreStore {
  import opened Wrappers
  import opened Policy
  import T = Tenancy
  import opened Tenancy
  import opened MemoryStore
  import Manager
  import S = Store
  import C = CoreTenancy
  import opened CoreTenancy

  class CoreStore {
    var tables: TenantState
    var members: map<SubjectID, MemberStatus>

    ghost predicate Valid()
      reads this, tables, tables.Repr
    {
      tables.Valid()
    }

    ghost function Value(): CoreTenant
      requires Valid()
      reads this, tables, tables.Repr
    {
      CoreTenant(tables.Value(), members)
    }

    constructor (tables: TenantState, members: map<SubjectID, MemberStatus>)
      requires tables.Valid()
      ensures this.tables == tables && this.members == members && Valid()
    {
      this.tables, this.members := tables, members;
    }

    // The wrapped MutateTenant: guard, callback and post-check in one transaction.
    method MutateTenant(cfg: Config, guard: PolicyGuard, actor: Principal, meta: Metadata, command: Command)
      returns (result: Result<MutationResult, Error>)
      requires Valid()
      modifies this
      ensures Valid()
      ensures result.Ok? ==> MutateCore(cfg, old(Value()), guard, actor, meta, command) == Ok((Value(), result.value))
      ensures result.Err? ==>
        MutateCore(cfg, old(Value()), guard, actor, meta, command) == Err(result.error) && Value() == old(Value())
    {
      hide TenantState.Valid, TenantState.Value, S.CallbackStep, Mutate, ValidCommand, T.GuardLastAdministrator,
           S.Prepared, S.PreparedFrom, C.GuardError;
      var prepared := S.Prepare(cfg, actor, meta, command);
      if prepared.None? {
        return Err(InvalidInput);
      }
      var pending := tables.Clone();
      var error := CheckGuard(pending, guard);
      if error.Some? {
        return Err(error.value);
      }
      var active := ActiveGuard(members, "");
      S.SameStep(cfg, active, tables.Value(), actor, meta, command, prepared.value);
      assert GuardPermissions(cfg, active) != {} by {
        assert PERMISSION_ROLE_MANAGE in GuardPermissions(cfg, active);
      }
      result := S.RunCallback(cfg, active, pending, actor, meta, prepared.value);
      if result.Err? {
        return;
      }
      error := Manager.GuardLastAdministrator(cfg, active, pending);
      if error.Some? {
        return Err(error.value);
      }
      tables := pending;
    }

    method CheckGuard(pending: TenantState, guard: PolicyGuard) returns (error: Option<Error>)
      requires pending.Valid()
      ensures error == C.GuardError(CoreTenant(pending.Value(), members), guard)
    {
      hide TenantState.Valid, TenantState.Value;
      if guard.actor != "" && !IsActive(members, guard.actor) {
        return Some(Forbidden);
      }
      if guard.target != "" && (guard.target !in members || (guard.assign && !IsActive(members, guard.target))) {
        return Some(NotFound);
      }
      if guard.version > 0 {
        var role := pending.GetRole(guard.roleID);
        if role.Err? {
          return Some(NotFound);
        }
        if role.value.version != guard.version {
          return Some(Conflict);
        }
      }
      if guard.grant {
        error := CheckTenantWide(pending, guard.actor, PERMISSION_GRANT_MANAGE);
        return;
      }
      return None;
    }

    // The loop of requireTenantPermission: every row is validated, any tenant-scope row allows.
    method CheckTenantWide(pending: TenantState, actor: SubjectID, permission: PermissionKey)
      returns (error: Option<Error>)
      requires pending.Valid()
      ensures error == RequireTenantWide(pending.Value(), actor, permission)
    {
      hide TenantState.Valid, TenantState.Value;
      var grants := pending.ListEffectiveGrants(actor, permission);
      ghost var held := EffectiveGrants(pending.Value(), actor, permission);
      assert forall g :: g in grants <==> g in held;
      var allowed := false;
      for i := 0 to |grants|
        invariant forall k | 0 <= k < i :: ValidGrant(grants[k], permission)
        invariant allowed <==> exists k | 0 <= k < i :: grants[k].scope == ScopeTenant
      {
        if !ValidGrant(grants[i], permission) {
          assert grants[i] in held;
          return Some(InvalidPolicyRow);
        }
        allowed := allowed || grants[i].scope == ScopeTenant;
      }
      ghost var t := pending.Value();
      assert !Malformed(t, actor, permission);
      assert allowed <==> HoldsTenantWide(t, actor, permission) by {
        if k :| 0 <= k < |grants| && grants[k].scope == ScopeTenant {
          assert grants[k] in held;
        }
        if g :| g in t.grants && Holds(t, actor, g) && g.permission == permission && g.scope == ScopeTenant {
          assert g in held && g in grants;
        }
      }
      return if allowed then None else Some(Forbidden);
    }

    method ManageMember(cfg: Config, actor: Principal, meta: Metadata, account: SubjectID, change: MemberChange)
      returns (error: Option<Error>)
      requires Valid()
      modifies this
      ensures Valid()
      ensures error.None? ==> C.ManageMember(cfg, old(Value()), actor, meta, account, change) == Ok(Value())
      ensures error.Some? ==>
        C.ManageMember(cfg, old(Value()), actor, meta, account, change) == Err(error.value) && Value() == old(Value())
    {
      hide TenantState.Valid, TenantState.Value, T.GuardLastAdministrator, RequireTenantWide, ValidID;
      if !ValidID(account) {
        return Some(InvalidInput);
      }
      var pending := tables.Clone();
      if !IsActive(members, actor.subjectID) {
        return Some(Forbidden);
      }
      error := CheckTenantWide(pending, actor.subjectID, PERMISSION_MEMBER_MANAGE);
      if error.Some? {
        return;
      }
      if account !in members {
        return Some(NotFound);
      }
      if change != SetStatus(Active) {
        var others := ActiveGuard(members, account);
        assert PERMISSION_ROLE_MANAGE in GuardPermissions(cfg, others);
        error := Manager.GuardLastAdministrator(cfg, others, pending);
        if error.Some? {
          return;
        }
      }
      var changed := true;
      match change {
        case Remove =>
          pending.DeleteEdgesTo(account);
          pending.DeleteBindingsOf(account);
          members := members - {account};
        case SetStatus(status) =>
          changed := members[account] != status;
          members := members[account := status];
      }
      Manager.WriteAudit(pending, actor, meta, ChangeName(change), "member", account,
                         if changed then AuditSuccess else AuditNoop, 0);
      tables := pending;
      return None;
    }
  }
}
