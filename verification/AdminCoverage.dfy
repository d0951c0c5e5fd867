/** internal/adminpolicy/coverage.go: which subjects hold which control permissions tenant-wide. */
module AdminCoverage {
  import opened Policy
  import opened Tenancy

  // Some live role of a processed binding of s grants p tenant-wide.
  ghost predicate Covered(t: Tenant, permissions: set<PermissionKey>, done: set<(SubjectID, RoleID)>, s: SubjectID,
                          p: PermissionKey)
  {
    && p in permissions
    && exists g | g in t.grants ::
         (s, g.roleID) in done && Live(t, g.roleID) && g.permission == p && g.scope == ScopeTenant
  }

  ghost predicate CoveredAll(t: Tenant, permissions: set<PermissionKey>, done: set<(SubjectID, RoleID)>, s: SubjectID) {
    forall p | p in permissions :: Covered(t, permissions, done, s, p)
  }

  // A control row of a processed binding does not validate.
  ghost predicate MalformedRow(t: Tenant, permissions: set<PermissionKey>, done: set<(SubjectID, RoleID)>) {
    exists key, g | key in done && g in t.grants ::
      && key.1 == g.roleID
      && Live(t, g.roleID)
      && g.permission in permissions
      && !(ValidID(key.0) && ValidGrant(g, g.permission))
  }

  // One of the rows grants p tenant-wide to their subject.
  predicate GrantedBy(rows: seq<Grant>, permissions: set<PermissionKey>, subject: SubjectID, s: SubjectID,
                      p: PermissionKey)
  {
    s == subject && p in permissions && exists g | g in rows :: g.permission == p && g.scope == ScopeTenant
  }

  class Coverage {
    var entries: map<SubjectID, set<PermissionKey>>

    constructor ()
      ensures forall s, p :: !Has(s, p)
    {
      entries := map[];
    }

    predicate Has(s: SubjectID, p: PermissionKey)
      reads this
    {
      s in entries && p in entries[s]
    }

    predicate HasAll(s: SubjectID, permissions: set<PermissionKey>)
      reads this
    {
      forall p | p in permissions :: Has(s, p)
    }

    // The entries are what the processed bindings grant, and none of their rows is malformed.
    ghost predicate Shows(t: Tenant, permissions: set<PermissionKey>, done: set<(SubjectID, RoleID)>)
      reads this
    {
      && (forall s, p :: Has(s, p) <==> Covered(t, permissions, done, s, p))
      && !MalformedRow(t, permissions, done)
    }

    lemma CompleteMeans(t: Tenant, permissions: set<PermissionKey>, done: set<(SubjectID, RoleID)>)
      requires Shows(t, permissions, done)
      ensures (exists s :: HasAll(s, permissions)) <==> exists s :: CoveredAll(t, permissions, done, s)
    {
      forall s ensures HasAll(s, permissions) <==> CoveredAll(t, permissions, done, s) {
      }
    }

    method Add(subject: SubjectID, grant: Grant) returns (failed: bool)
      modifies this
      ensures failed <==> !(ValidID(subject) && ValidGrant(grant, grant.permission))
      ensures forall s, p ::
        Has(s, p) <==>
          old(Has(s, p)) || (!failed && grant.scope == ScopeTenant && s == subject && p == grant.permission)
    {
      if !ValidID(subject) || !ValidGrant(grant, grant.permission) {
        return true;
      }
      if grant.scope == ScopeTenant {
        if subject !in entries {
          entries := entries[subject := {}];
        }
        entries := entries[subject := entries[subject] + {grant.permission}];
      }
      return false;
    }

    // The rows of one role bound to one subject.
    method AddRole(ghost t: Tenant, permissions: set<PermissionKey>, ghost done: set<(SubjectID, RoleID)>,
                   key: (SubjectID, RoleID), grants: seq<Grant>)
      returns (failed: bool)
      requires Live(t, key.1)
      requires forall g :: g in grants <==> g in RoleGrants(t, key.1)
      requires Shows(t, permissions, done)
      modifies this
      ensures failed <==> MalformedRow(t, permissions, done + {key})
      ensures !failed ==> Shows(t, permissions, done + {key})
    {
      for i := 0 to |grants|
        invariant forall k | 0 <= k < i ::
          grants[k].permission in permissions ==> ValidID(key.0) && ValidGrant(grants[k], grants[k].permission)
        invariant forall s, p ::
          Has(s, p) <==> (Covered(t, permissions, done, s, p) || GrantedBy(grants[..i], permissions, key.0, s, p))
      {
        if grants[i].permission in permissions {
          var bad := Add(key.0, grants[i]);
          if bad {
            assert grants[i] in grants;
            return true;
          }
        }
        assert grants[..i + 1] == grants[..i] + [grants[i]];
      }
      assert grants[..|grants|] == grants;
      NotMalformedRow(t, permissions, done, key, grants);
      forall s, p ensures Has(s, p) <==> Covered(t, permissions, done + {key}, s, p) {
        CoveredStep(t, permissions, done, key, grants, s, p);
      }
      return false;
    }

    // Complete
    method Complete(permissions: set<PermissionKey>) returns (complete: bool)
      requires permissions != {}
      ensures complete <==> exists s :: HasAll(s, permissions)
    {
      var one :| one in permissions;
      assert forall s | HasAll(s, permissions) :: Has(s, one);
      var subjects := entries.Keys;
      while subjects != {}
        invariant subjects <= entries.Keys
        invariant forall s | s in entries.Keys - subjects :: !HasAll(s, permissions)
        decreases subjects
      {
        var s :| s in subjects;
        subjects := subjects - {s};
        var all := true;
        var rest := permissions;
        while rest != {} && all
          invariant rest <= permissions
          invariant all ==> forall p | p in permissions - rest :: p in entries[s]
          invariant !all ==> !HasAll(s, permissions)
          decreases rest
        {
          var p :| p in rest;
          rest := rest - {p};
          if p !in entries[s] {
            all := false;
          }
        }
        if all {
          assert permissions - rest == permissions;
          assert HasAll(s, permissions);
          return true;
        }
      }
      return false;
    }
  }

  lemma NothingCovered(t: Tenant, permissions: set<PermissionKey>)
    ensures forall s, p :: !Covered(t, permissions, {}, s, p)
    ensures !MalformedRow(t, permissions, {})
  {
  }

  lemma NotMalformedRow(t: Tenant, permissions: set<PermissionKey>, done: set<(SubjectID, RoleID)>,
                        key: (SubjectID, RoleID), grants: seq<Grant>)
    requires forall g :: g in grants <==> g in RoleGrants(t, key.1)
    requires !MalformedRow(t, permissions, done)
    requires forall g | g in grants && g.permission in permissions :: ValidID(key.0) && ValidGrant(g, g.permission)
    ensures !MalformedRow(t, permissions, done + {key})
  {
    forall k, g | k in done + {key} && g in t.grants && k.1 == g.roleID && Live(t, g.roleID)
                  && g.permission in permissions
      ensures ValidID(k.0) && ValidGrant(g, g.permission)
    {
      if k == key {
        assert g in RoleGrants(t, key.1);
      }
    }
  }

  lemma CoveredStep(t: Tenant, permissions: set<PermissionKey>, done: set<(SubjectID, RoleID)>,
                    key: (SubjectID, RoleID), grants: seq<Grant>, s: SubjectID, p: PermissionKey)
    requires Live(t, key.1)
    requires forall g :: g in grants <==> g in RoleGrants(t, key.1)
    ensures Covered(t, permissions, done + {key}, s, p) <==>
      (Covered(t, permissions, done, s, p) || GrantedBy(grants, permissions, key.0, s, p))
  {
    if GrantedBy(grants, permissions, key.0, s, p) {
      var g :| g in grants && g.permission == p && g.scope == ScopeTenant;
      assert g in RoleGrants(t, key.1);
    }
    if Covered(t, permissions, done + {key}, s, p) {
      var g :| g in t.grants
               && (s, g.roleID) in done + {key}
               && Live(t, g.roleID)
               && g.permission == p
               && g.scope == ScopeTenant;
      if (s, g.roleID) == key {
        assert g in RoleGrants(t, key.1);
      }
    }
  }

  // A tombstoned role contributes nothing.
  lemma DeadRole(t: Tenant, permissions: set<PermissionKey>, done: set<(SubjectID, RoleID)>, key: (SubjectID, RoleID))
    requires !Live(t, key.1)
    ensures forall s, p :: Covered(t, permissions, done + {key}, s, p) <==> Covered(t, permissions, done, s, p)
    ensures MalformedRow(t, permissions, done + {key}) <==> MalformedRow(t, permissions, done)
  {
    forall s, p ensures Covered(t, permissions, done + {key}, s, p) <==> Covered(t, permissions, done, s, p) {
    }
  }

  ghost predicate AllBindings(t: Tenant, guard: Guard, all: set<(SubjectID, RoleID)>) {
    forall key :: key in all <==> key in t.bindings && Eligible(guard, key.0)
  }

  lemma MalformedIs(t: Tenant, cfg: Config, guard: Guard, all: set<(SubjectID, RoleID)>, done: set<(SubjectID, RoleID)>)
    requires AllBindings(t, guard, all) && done <= all
    ensures MalformedRow(t, GuardPermissions(cfg, guard), done) ==> MalformedControl(t, cfg, guard)
    ensures done == all ==> (MalformedRow(t, GuardPermissions(cfg, guard), done) <==> MalformedControl(t, cfg, guard))
  {
    if MalformedRow(t, GuardPermissions(cfg, guard), done) {
      var key, g :| key in done && g in t.grants && key.1 == g.roleID && Live(t, g.roleID)
                    && g.permission in GuardPermissions(cfg, guard) && !(ValidID(key.0) && ValidGrant(g, g.permission));
      assert key in t.bindings && Holds(t, key.0, g);
    }
    if done == all && MalformedControl(t, cfg, guard) {
      var key, g :| key in t.bindings && g in t.grants && Holds(t, key.0, g) && key.1 == g.roleID
                    && g.permission in GuardPermissions(cfg, guard) && Eligible(guard, key.0)
                    && !(ValidID(key.0) && ValidGrant(g, g.permission));
      assert key in done;
    }
  }

  lemma CoveredIsHeld(t: Tenant, guard: Guard, permissions: set<PermissionKey>, all: set<(SubjectID, RoleID)>,
                      s: SubjectID, p: PermissionKey)
    requires AllBindings(t, guard, all) && p in permissions && Eligible(guard, s)
    ensures Covered(t, permissions, all, s, p) <==> HoldsTenantWide(t, s, p)
  {
    if HoldsTenantWide(t, s, p) {
      var g :| g in t.grants && Holds(t, s, g) && g.permission == p && g.scope == ScopeTenant;
      assert (s, g.roleID) in all;
    }
  }

  // Complete over all eligible bindings decides whether an administrator exists.
  lemma CompleteIs(t: Tenant, cfg: Config, guard: Guard, all: set<(SubjectID, RoleID)>)
    requires AllBindings(t, guard, all) && GuardPermissions(cfg, guard) != {}
    ensures (exists s :: CoveredAll(t, GuardPermissions(cfg, guard), all, s)) <==> HasAdministrator(t, cfg, guard)
  {
    var permissions := GuardPermissions(cfg, guard);
    var one :| one in permissions;
    if s :| CoveredAll(t, permissions, all, s) {
      assert Covered(t, permissions, all, s, one);
      var g :| g in t.grants && (s, g.roleID) in all;
      forall p | p in permissions ensures HoldsTenantWide(t, s, p) {
        CoveredIsHeld(t, guard, permissions, all, s, p);
      }
      assert (s, g.roleID) in t.bindings && IsAdministrator(t, permissions, s);
    }
    if HasAdministrator(t, cfg, guard) {
      var key :| key in t.bindings && Eligible(guard, key.0) && IsAdministrator(t, permissions, key.0);
      forall p | p in permissions ensures Covered(t, permissions, all, key.0, p) {
        CoveredIsHeld(t, guard, permissions, all, key.0, p);
      }
      assert CoveredAll(t, permissions, all, key.0);
    }
  }
}
