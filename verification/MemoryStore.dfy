/** The in-memory adapter: nested maps of one tenant, changed in place by transaction operations, each
    proved to do to the flat tables of Tenancy what its name says. */
module MemoryStore {
  import opened Wrappers
  import opened Text
  import opened Ordering
  import opened Policy
  import opened GrantGraph
  import opened Tenancy
  import Coverage = AdminCoverage

  datatype GrantKey = GrantKey(permission: PermissionKey, scope: Scope, roles: string)

  function KeyOf(g: Grant): GrantKey {
    GrantKey(g.permission, g.scope, Join(g.workspaceRoles, ','))
  }

  // The comma-joined key tells normal grants of one role apart.
  lemma KeyInjective(a: Grant, b: Grant)
    requires Normal(a) && Normal(b) && a.roleID == b.roleID && KeyOf(a) == KeyOf(b)
    ensures a == b
  {
    SegmentsJoinable(a.workspaceRoles, ',');
    SegmentsJoinable(b.workspaceRoles, ',');
    JoinInjective(a.workspaceRoles, b.workspaceRoles, ',');
  }

  // ---------- Nested maps as tables ----------

  type Perms = map<RoleID, map<GrantKey, Grant>>
  type Bindings = map<SubjectID, map<RoleID, Binding>>
  type Versions = map<RoleID, map<int, RoleVersion>>

  ghost predicate PermsValid(m: Perms) {
    forall r, k | r in m && k in m[r] :: m[r][k].roleID == r && KeyOf(m[r][k]) == k && Normal(m[r][k])
  }

  ghost function GrantSet(m: Perms): set<Grant> {
    set r, k | r in m && k in m[r] :: m[r][k]
  }

  ghost function BindingTable(m: Bindings): map<(SubjectID, RoleID), Binding> {
    map s, r | s in m && r in m[s] :: (s, r) := m[s][r]
  }

  ghost function VersionTable(m: Versions): map<(RoleID, int), RoleVersion> {
    map r, n | r in m && n in m[r] :: (r, n) := m[r][n]
  }

  lemma GrantSetHas(m: Perms, g: Grant)
    requires PermsValid(m) && Normal(g)
    ensures g in GrantSet(m) <==> g.roleID in m && KeyOf(g) in m[g.roleID]
  {
    if g.roleID in m && KeyOf(g) in m[g.roleID] {
      KeyInjective(g, m[g.roleID][KeyOf(g)]);
    }
  }

  lemma GrantSetInsert(m: Perms, g: Grant)
    requires PermsValid(m) && Normal(g) && g.roleID in m && KeyOf(g) !in m[g.roleID]
    ensures var next := m[g.roleID := m[g.roleID][KeyOf(g) := g]];
            PermsValid(next) && GrantSet(next) == GrantSet(m) + {g}
  {
    var next := m[g.roleID := m[g.roleID][KeyOf(g) := g]];
    forall x ensures x in GrantSet(next) <==> x in GrantSet(m) + {g} {
      if x in GrantSet(m) {
        var r, k :| r in m && k in m[r] && m[r][k] == x;
        assert r in next && k in next[r] && next[r][k] == x;
      }
      if x == g {
        assert next[g.roleID][KeyOf(g)] == g;
      }
    }
  }

  lemma GrantSetDelete(m: Perms, g: Grant)
    requires PermsValid(m) && Normal(g) && g.roleID in m && KeyOf(g) in m[g.roleID]
    ensures var next := m[g.roleID := m[g.roleID] - {KeyOf(g)}];
            PermsValid(next) && GrantSet(next) == GrantSet(m) - {g}
  {
    var next := m[g.roleID := m[g.roleID] - {KeyOf(g)}];
    KeyInjective(g, m[g.roleID][KeyOf(g)]);
    forall x ensures x in GrantSet(next) <==> x in GrantSet(m) - {g} {
      if x in GrantSet(m) && x != g {
        var r, k :| r in m && k in m[r] && m[r][k] == x;
        assert r in next && k in next[r] && next[r][k] == x;
      }
    }
  }

  lemma GrantSetNewRole(m: Perms, r: RoleID)
    requires PermsValid(m) && r !in m
    ensures PermsValid(m[r := map[]]) && GrantSet(m[r := map[]]) == GrantSet(m)
  {
    var next := m[r := map[]];
    forall x ensures x in GrantSet(next) <==> x in GrantSet(m) {
      if x in GrantSet(m) {
        var q, k :| q in m && k in m[q] && m[q][k] == x;
        assert q in next && k in next[q] && next[q][k] == x;
      }
    }
  }

  lemma BindingTableInsert(m: Bindings, s: SubjectID, r: RoleID, b: Binding)
    ensures var inner := if s in m then m[s] else map[];
            BindingTable(m[s := inner[r := b]]) == BindingTable(m)[(s, r) := b]
  {
    hide BindingTable;
    var inner := if s in m then m[s] else map[];
    var next := m[s := inner[r := b]];
    forall key: (SubjectID, RoleID) ensures key in BindingTable(next) <==> key in BindingTable(m)[(s, r) := b] {
      BindingTableAt(m, key.0, key.1);
      BindingTableAt(next, key.0, key.1);
    }
    forall key | key in BindingTable(next) ensures BindingTable(next)[key] == BindingTable(m)[(s, r) := b][key] {
      BindingTableAt(m, key.0, key.1);
      BindingTableAt(next, key.0, key.1);
    }
  }

  lemma BindingTableAt(m: Bindings, s: SubjectID, r: RoleID)
    ensures (s, r) in BindingTable(m) <==> s in m && r in m[s]
    ensures (s, r) in BindingTable(m) ==> BindingTable(m)[(s, r)] == m[s][r]
  {
  }

  lemma BindingTableDelete(m: Bindings, s: SubjectID, r: RoleID)
    requires s in m
    ensures BindingTable(m[s := m[s] - {r}]) == BindingTable(m) - {(s, r)}
  {
  }

  lemma BindingTableWithout(m: Bindings, s: SubjectID)
    ensures BindingTable(m - {s}) == BindingTable(m) - (set key | key in BindingTable(m) && key.0 == s)
  {
    hide BindingTable;
    var removed := set key | key in BindingTable(m) && key.0 == s;
    forall key: (SubjectID, RoleID) ensures key in BindingTable(m - {s}) <==> key in BindingTable(m) - removed {
      BindingTableAt(m, key.0, key.1);
      BindingTableAt(m - {s}, key.0, key.1);
    }
    forall key | key in BindingTable(m - {s}) ensures BindingTable(m - {s})[key] == BindingTable(m)[key] {
      BindingTableAt(m, key.0, key.1);
      BindingTableAt(m - {s}, key.0, key.1);
    }
  }

  lemma VersionTableInsert(m: Versions, r: RoleID, n: int, v: RoleVersion)
    requires r in m
    ensures VersionTable(m[r := m[r][n := v]]) == VersionTable(m)[(r, n) := v]
  {
  }

  lemma VersionTableNewRole(m: Versions, r: RoleID)
    requires r !in m
    ensures VersionTable(m[r := map[]]) == VersionTable(m)
  {
    hide VersionTable;
    var next: Versions := m[r := map[]];
    forall key: (RoleID, int) ensures key in VersionTable(next) <==> key in VersionTable(m) {
      VersionTableAt(m, key.0, key.1);
      VersionTableAt(next, key.0, key.1);
    }
    forall key | key in VersionTable(next) ensures VersionTable(next)[key] == VersionTable(m)[key] {
      VersionTableAt(m, key.0, key.1);
      VersionTableAt(next, key.0, key.1);
    }
  }

  lemma VersionTableAt(m: Versions, r: RoleID, n: int)
    ensures (r, n) in VersionTable(m) <==> r in m && n in m[r]
    ensures (r, n) in VersionTable(m) ==> VersionTable(m)[(r, n)] == m[r][n]
  {
  }

  // ---------- Maps and slices as objects ----------

  // A stored grant, with the slice of its workspace roles.
  datatype GrantRow = GrantRow(roleID: RoleID, permission: PermissionKey, scope: Scope, roles: array<string>)

  // A stored snapshot, with the slice of its grants.
  datatype VersionRow = VersionRow(
    roleID: RoleID, version: int, name: string, description: string, grants: array<GrantRow>,
    deleted: bool, createdBy: SubjectID, bootstrapInitiator: string)

  function GrantOf(row: GrantRow): Grant
    reads row.roles
  {
    Grant(row.roleID, row.permission, row.scope, row.roles[..])
  }

  function GrantsOf(rows: seq<GrantRow>): (grants: seq<Grant>)
    reads set i | 0 <= i < |rows| :: rows[i].roles
    ensures |grants| == |rows| && forall i | 0 <= i < |rows| :: grants[i] == GrantOf(rows[i])
  {
    if rows == [] then [] else [GrantOf(rows[0])] + GrantsOf(rows[1..])
  }

  function SnapshotOf(row: VersionRow): RoleVersion
    reads row.grants, set i | 0 <= i < row.grants.Length :: row.grants[i].roles
  {
    RoleVersion(row.roleID, row.version, row.name, row.description, GrantsOf(row.grants[..]),
                row.deleted, row.createdBy, row.bootstrapInitiator)
  }

  // The slices of a snapshot.
  ghost function SlicesOf(row: VersionRow): set<object>
    reads row.grants
  {
    {row.grants} + set i | 0 <= i < row.grants.Length :: row.grants[i].roles
  }

  // cloneGrant: the slice of workspace roles is a new one.
  method StoreGrant(g: Grant) returns (row: GrantRow)
    ensures fresh(row.roles) && GrantOf(row) == g
  {
    var roles := new string[|g.workspaceRoles|](i requires 0 <= i < |g.workspaceRoles| => g.workspaceRoles[i]);
    assert roles[..] == g.workspaceRoles;
    row := GrantRow(g.roleID, g.permission, g.scope, roles);
  }

  // cloneSnapshot: so are the slice of grants and the slices inside them.
  method StoreSnapshot(v: RoleVersion) returns (row: VersionRow)
    ensures fresh(SlicesOf(row)) && SnapshotOf(row) == v
  {
    hide GrantOf;
    var none := new string[0];
    var grants := new GrantRow[|v.grants|](_ => GrantRow("", "", ScopeTenant, none));
    for i := 0 to |v.grants|
      invariant fresh(grants) && grants.Length == |v.grants|
      invariant forall k | 0 <= k < grants.Length :: fresh(grants[k].roles)
      invariant forall k | 0 <= k < i :: GrantOf(grants[k]) == v.grants[k]
    {
      var row := StoreGrant(v.grants[i]);
      grants[i] := row;
    }
    row := VersionRow(v.roleID, v.version, v.name, v.description, grants, v.deleted, v.createdBy, v.bootstrapInitiator);
    assert GrantsOf(grants[..]) == v.grants;
  }

  // A copying loop has reached every key outside the rest.
  ghost predicate Copied<K(!new), V>(all: map<K, V>, part: map<K, V>, rest: set<K>) {
    part == map k | k in all && k !in rest :: all[k]
  }

  lemma NothingCopied<K(!new), V>(all: map<K, V>)
    ensures Copied(all, map[], all.Keys)
  {
  }

  lemma CopiedStep<K(!new), V>(all: map<K, V>, part: map<K, V>, rest: set<K>, k: K)
    requires Copied(all, part, rest) && k in rest && rest <= all.Keys
    ensures k !in part && Copied(all, part[k := all[k]], rest - {k})
  {
  }

  lemma AllCopied<K(!new), V>(all: map<K, V>, part: map<K, V>)
    requires Copied(all, part, {})
    ensures part == all
  {
  }

  lemma SomeMember(s: set<int>)
    ensures s == {} || exists n :: n in s
  {
    if !exists n :: n in s {
      assert s == {};
    }
  }

  // The grants of one role.
  class PermTable {
    var rows: map<GrantKey, GrantRow>
    ghost var Repr: set<object>

    ghost predicate Valid()
      reads this, Repr
      ensures Valid() ==> this in Repr
    {
      this in Repr && forall k | k in rows :: rows[k].roles in Repr
    }

    ghost function Value(): map<GrantKey, Grant>
      requires Valid()
      reads this, Repr
    {
      map k | k in rows :: GrantOf(rows[k])
    }

    constructor ()
      ensures Valid() && fresh(Repr) && Value() == map[] && rows == map[]
    {
      rows := map[];
      Repr := {this};
    }

    lemma RowsAre()
      requires Valid()
      ensures Value().Keys == rows.Keys && forall k | k in rows :: Value()[k] == GrantOf(rows[k])
    {
    }

    method Put(k: GrantKey, g: Grant)
      requires Valid()
      modifies this
      ensures Valid() && Repr >= old(Repr) && fresh(Repr - old(Repr)) && Value() == old(Value())[k := g]
      ensures rows.Keys == old(rows).Keys + {k}
    {
      var row := StoreGrant(g);
      rows := rows[k := row];
      Repr := Repr + {row.roles};
    }

    method Delete(k: GrantKey)
      requires Valid()
      modifies `rows
      ensures Valid() && Value() == old(Value()) - {k}
    {
      rows := rows - {k};
    }

    // Ranging over the map and cloning every row.
    method List() returns (out: seq<Grant>)
      requires Valid() && forall k | k in Value() :: KeyOf(Value()[k]) == k
      ensures NoDuplicates(out)
      ensures forall g :: g in out <==> KeyOf(g) in Value() && Value()[KeyOf(g)] == g
    {
      hide GrantOf, KeyOf;
      ghost var all := Value();
      out := [];
      var rest := rows.Keys;
      while rest != {}
        invariant rest <= all.Keys && NoDuplicates(out)
        invariant forall g :: g in out <==> KeyOf(g) in all && KeyOf(g) !in rest && all[KeyOf(g)] == g
        decreases rest
      {
        var k :| k in rest;
        rest := rest - {k};
        assert KeyOf(all[k]) == k && GrantOf(rows[k]) == all[k];
        out := out + [GrantOf(rows[k])];
      }
    }

    method Clone() returns (clone: PermTable)
      requires Valid()
      ensures clone.Valid() && fresh(clone.Repr) && clone.Value() == Value()
    {
      hide GrantOf, Valid, Value, Copied;
      RowsAre();
      ghost var all := Value();
      clone := new PermTable();
      var rest := rows.Keys;
      NothingCopied(all);
      while rest != {}
        invariant rest <= all.Keys && Valid() && Value() == all && clone.Valid() && fresh(clone.Repr)
        invariant Copied(all, clone.Value(), rest)
        decreases rest
      {
        var k :| k in rest;
        RowsAre();
        CopiedStep(all, clone.Value(), rest, k);
        rest := rest - {k};
        clone.Put(k, GrantOf(rows[k]));
      }
      AllCopied(all, clone.Value());
    }
  }

  // The grants of every role.
  class PermIndex {
    var rows: map<RoleID, PermTable>
    ghost var Repr: set<object>

    ghost predicate Valid()
      reads this, Repr
      ensures Valid() ==> this in Repr
    {
      && this in Repr
      && (forall r | r in rows ::
            rows[r] in Repr && rows[r] in rows[r].Repr && rows[r].Repr <= Repr && this !in rows[r].Repr)
      && (forall r | r in rows :: rows[r].Valid())
      && (forall r, q | r in rows && q in rows && r != q :: rows[r] !in rows[q].Repr)
    }

    ghost function Value(): Perms
      requires Valid()
      reads this, Repr
    {
      map r | r in rows :: rows[r].Value()
    }

    constructor ()
      ensures Valid() && fresh(Repr) && Value() == map[] && rows == map[]
    {
      rows := map[];
      Repr := {this};
    }

    lemma KeysAre()
      requires Valid()
      ensures Value().Keys == rows.Keys
    {
    }

    lemma RowsAre()
      requires Valid()
      ensures Value().Keys == rows.Keys && forall r | r in rows :: rows[r].Valid() && rows[r].Value() == Value()[r]
      ensures forall r | r in rows :: rows[r].rows.Keys == Value()[r].Keys
    {
    }

    method Place(roleID: RoleID, table: PermTable)
      requires Valid() && roleID !in rows && table.Valid() && table.Repr !! Repr
      modifies this
      ensures Valid() && Repr == old(Repr) + table.Repr && Value() == old(Value())[roleID := table.Value()]
      ensures rows == old(rows)[roleID := table]
    {
      hide PermTable.Valid, PermTable.Value;
      ghost var before := Value();
      rows := rows[roleID := table];
      Repr := Repr + table.Repr;
      assert forall r | r in before :: r != roleID && rows[r].Value() == before[r];
    }

    method NewRole(roleID: RoleID)
      requires Valid() && roleID !in Value()
      modifies this
      ensures Valid() && Repr >= old(Repr) && fresh(Repr - old(Repr)) && Value() == old(Value())[roleID := map[]]
    {
      hide Valid, Value, PermTable.Valid, PermTable.Value;
      KeysAre();
      var table := new PermTable();
      Place(roleID, table);
    }

    // One inner table changes in place, and the others are not reached by it.
    method PutBelow(roleID: RoleID, k: GrantKey, g: Grant)
      requires Valid() && roleID in rows
      modifies Repr
      ensures Valid() && Repr >= old(Repr) && fresh(Repr - old(Repr)) && rows == old(rows)
      ensures rows[roleID].Value() == old(rows[roleID].Value())[k := g]
      ensures forall r | r in rows && r != roleID :: rows[r].Value() == old(rows[r].Value())
    {
      hide PermTable.Valid, PermTable.Value;
      rows[roleID].Put(k, g);
      Repr := Repr + rows[roleID].Repr;
    }

    method Put(roleID: RoleID, k: GrantKey, g: Grant)
      requires Valid() && roleID in Value()
      modifies Repr
      ensures Valid() && Repr >= old(Repr) && fresh(Repr - old(Repr))
      ensures Value() == old(Value())[roleID := old(Value())[roleID][k := g]]
    {
      hide Valid, PermTable.Valid, PermTable.Value;
      PutBelow(roleID, k, g);
    }

    method Delete(roleID: RoleID, k: GrantKey)
      requires Valid() && roleID in Value()
      modifies Repr
      ensures Valid() && Repr == old(Repr)
      ensures Value() == old(Value())[roleID := old(Value())[roleID] - {k}]
    {
      hide PermTable.Valid, PermTable.Value;
      rows[roleID].Delete(k);
    }

    // One round of the copying loop.
    method CopyRole(clone: PermIndex, roleID: RoleID)
      requires Valid() && clone.Valid() && roleID in Value() && roleID !in clone.Value()
      modifies clone
      ensures clone.Valid() && clone.Repr >= old(clone.Repr) && fresh(clone.Repr - old(clone.Repr))
      ensures clone.Value() == old(clone.Value())[roleID := old(Value())[roleID]]
    {
      hide PermTable.Valid, PermTable.Value;
      var table := rows[roleID].Clone();
      clone.Place(roleID, table);
    }

    method Clone() returns (clone: PermIndex)
      requires Valid()
      ensures clone.Valid() && fresh(clone.Repr) && clone.Value() == Value()
    {
      hide Valid, Value, Copied;
      KeysAre();
      ghost var all := Value();
      clone := new PermIndex();
      var rest := rows.Keys;
      NothingCopied(all);
      while rest != {}
        invariant rest <= all.Keys && Valid() && Value() == all && clone.Valid() && fresh(clone.Repr)
        invariant Copied(all, clone.Value(), rest)
        decreases rest
      {
        var roleID :| roleID in rest;
        CopiedStep(all, clone.Value(), rest, roleID);
        rest := rest - {roleID};
        CopyRole(clone, roleID);
      }
      AllCopied(all, clone.Value());
    }
  }

  // The roles of one subject.
  class BindingsTable {
    var rows: map<RoleID, Binding>

    constructor (rows: map<RoleID, Binding>)
      ensures this.rows == rows
    {
      this.rows := rows;
    }
  }

  // The roles of every subject.
  class BindingsIndex {
    var rows: map<SubjectID, BindingsTable>
    ghost var Repr: set<object>

    ghost predicate Valid()
      reads this, Repr
      ensures Valid() ==> this in Repr
    {
      && this in Repr && (forall s | s in rows :: rows[s] in Repr)
      && (forall s, q | s in rows && q in rows && s != q :: rows[s] != rows[q])
    }

    ghost function Value(): Bindings
      requires Valid()
      reads this, Repr
    {
      map s | s in rows :: rows[s].rows
    }

    constructor ()
      ensures Valid() && fresh(Repr) && Value() == map[] && rows == map[]
    {
      rows := map[];
      Repr := {this};
    }

    lemma RowsAre()
      requires Valid()
      ensures Value().Keys == rows.Keys && forall s | s in rows :: rows[s].rows == Value()[s]
    {
    }

    method Place(subject: SubjectID, table: BindingsTable)
      requires Valid() && subject !in rows && table !in Repr
      modifies this
      ensures Valid() && Repr == old(Repr) + {table} && Value() == old(Value())[subject := table.rows]
      ensures rows == old(rows)[subject := table]
    {
      rows := rows[subject := table];
      Repr := Repr + {table};
    }

    method Put(b: Binding)
      requires Valid()
      modifies Repr
      ensures Valid() && Repr >= old(Repr) && fresh(Repr - old(Repr))
      ensures var inner := if b.subjectID in old(Value()) then old(Value())[b.subjectID] else map[];
              Value() == old(Value())[b.subjectID := inner[b.roleID := b]]
    {
      if b.subjectID !in rows {
        var table := new BindingsTable(map[]);
        Place(b.subjectID, table);
      }
      var table := rows[b.subjectID];
      table.rows := table.rows[b.roleID := b];
    }

    method Delete(subject: SubjectID, roleID: RoleID)
      requires Valid() && subject in Value()
      modifies Repr
      ensures Valid() && Repr == old(Repr)
      ensures Value() == old(Value())[subject := old(Value())[subject] - {roleID}]
    {
      rows[subject].rows := rows[subject].rows - {roleID};
    }

    method DeleteAll(subject: SubjectID)
      requires Valid()
      modifies this
      ensures Valid() && Repr == old(Repr) && Value() == old(Value()) - {subject}
    {
      rows := rows - {subject};
    }

    method Clone() returns (clone: BindingsIndex)
      requires Valid()
      ensures clone.Valid() && fresh(clone.Repr) && clone.Value() == Value()
    {
      clone := new BindingsIndex();
      var rest := rows.Keys;
      while rest != {}
        invariant rest <= rows.Keys && clone.Valid() && fresh(clone.Repr)
        invariant clone.rows.Keys == rows.Keys - rest
        invariant forall s | s in clone.rows :: clone.rows[s].rows == rows[s].rows
        decreases rest
      {
        var subject :| subject in rest;
        rest := rest - {subject};
        var table := new BindingsTable(rows[subject].rows);
        clone.Place(subject, table);
      }
    }
  }

  // The snapshots of one role.
  class VersionsTable {
    var rows: map<int, VersionRow>
    ghost var Repr: set<object>

    ghost predicate Valid()
      reads this, Repr
      ensures Valid() ==> this in Repr
    {
      this in Repr && forall n | n in rows :: rows[n].grants in Repr && SlicesOf(rows[n]) <= Repr
    }

    ghost function Value(): map<int, RoleVersion>
      requires Valid()
      reads this, Repr
    {
      map n | n in rows :: SnapshotOf(rows[n])
    }

    constructor ()
      ensures Valid() && fresh(Repr) && Value() == map[] && rows == map[]
    {
      rows := map[];
      Repr := {this};
    }

    lemma RowsAre()
      requires Valid()
      ensures Value().Keys == rows.Keys && forall n | n in rows :: Value()[n] == SnapshotOf(rows[n])
    {
    }

    method Put(n: int, v: RoleVersion)
      requires Valid()
      modifies this
      ensures Valid() && Repr >= old(Repr) && fresh(Repr - old(Repr)) && Value() == old(Value())[n := v]
      ensures rows.Keys == old(rows).Keys + {n}
    {
      hide SnapshotOf, GrantsOf, Valid;
      ghost var before := Value();
      var row := StoreSnapshot(v);
      assert Value() == before;
      Place(n, row);
      assert forall m | m in before && m != n :: m in rows && SnapshotOf(rows[m]) == before[m];
    }

    // The other rows are not reached by it.
    method Place(n: int, row: VersionRow)
      requires Valid()
      modifies this
      ensures Valid() && Repr == old(Repr) + SlicesOf(row) && rows == old(rows)[n := row]
      ensures forall m | m in old(rows) :: SnapshotOf(old(rows)[m]) == old(SnapshotOf(rows[m]))
      ensures SnapshotOf(row) == old(SnapshotOf(row))
    {
      hide SnapshotOf, GrantsOf;
      rows := rows[n := row];
      Repr := Repr + SlicesOf(row);
    }

    method Clone() returns (clone: VersionsTable)
      requires Valid()
      ensures clone.Valid() && fresh(clone.Repr) && clone.Value() == Value()
    {
      hide SnapshotOf, GrantsOf, SlicesOf;
      clone := new VersionsTable();
      var rest := rows.Keys;
      while rest != {}
        invariant rest <= rows.Keys && clone.Valid() && fresh(clone.Repr)
        invariant clone.rows.Keys == rows.Keys - rest
        invariant forall n | n in clone.rows :: clone.Value()[n] == Value()[n]
        decreases rest
      {
        SomeMember(rest);
        var n :| n in rest;
        rest := rest - {n};
        clone.Put(n, SnapshotOf(rows[n]));
      }
      assert clone.rows.Keys == rows.Keys;
      assert forall n | n in rows :: clone.Value()[n] == Value()[n];
    }
  }

  // The snapshots of every role.
  class VersionsIndex {
    var rows: map<RoleID, VersionsTable>
    ghost var Repr: set<object>

    ghost predicate Valid()
      reads this, Repr
      ensures Valid() ==> this in Repr
    {
      && this in Repr
      && (forall r | r in rows ::
            rows[r] in Repr && rows[r] in rows[r].Repr && rows[r].Repr <= Repr && this !in rows[r].Repr)
      && (forall r | r in rows :: rows[r].Valid())
      && (forall r, q | r in rows && q in rows && r != q :: rows[r] !in rows[q].Repr)
    }

    ghost function Value(): Versions
      requires Valid()
      reads this, Repr
    {
      map r | r in rows :: rows[r].Value()
    }

    constructor ()
      ensures Valid() && fresh(Repr) && Value() == map[] && rows == map[]
    {
      rows := map[];
      Repr := {this};
    }

    lemma KeysAre()
      requires Valid()
      ensures Value().Keys == rows.Keys
    {
    }

    lemma RowsAre()
      requires Valid()
      ensures Value().Keys == rows.Keys && forall r | r in rows :: rows[r].Valid() && rows[r].Value() == Value()[r]
      ensures forall r | r in rows :: rows[r].rows.Keys == Value()[r].Keys
    {
    }

    method Place(roleID: RoleID, table: VersionsTable)
      requires Valid() && roleID !in rows && table.Valid() && table.Repr !! Repr
      modifies this
      ensures Valid() && Repr == old(Repr) + table.Repr && Value() == old(Value())[roleID := table.Value()]
      ensures rows == old(rows)[roleID := table]
    {
      hide VersionsTable.Valid, VersionsTable.Value;
      ghost var before := Value();
      rows := rows[roleID := table];
      Repr := Repr + table.Repr;
      assert forall r | r in before :: r != roleID && rows[r].Value() == before[r];
    }

    method NewRole(roleID: RoleID)
      requires Valid() && roleID !in Value()
      modifies this
      ensures Valid() && Repr >= old(Repr) && fresh(Repr - old(Repr)) && Value() == old(Value())[roleID := map[]]
    {
      hide Valid, Value, VersionsTable.Valid, VersionsTable.Value;
      KeysAre();
      var table := new VersionsTable();
      Place(roleID, table);
    }

    // One inner table changes in place, and the others are not reached by it.
    method PutBelow(roleID: RoleID, n: int, v: RoleVersion)
      requires Valid() && roleID in rows
      modifies Repr
      ensures Valid() && Repr >= old(Repr) && fresh(Repr - old(Repr)) && rows == old(rows)
      ensures rows[roleID].Value() == old(rows[roleID].Value())[n := v]
      ensures forall r | r in rows && r != roleID :: rows[r].Value() == old(rows[r].Value())
    {
      hide VersionsTable.Valid, VersionsTable.Value;
      rows[roleID].Put(n, v);
      Repr := Repr + rows[roleID].Repr;
    }

    method Put(roleID: RoleID, n: int, v: RoleVersion)
      requires Valid() && roleID in Value()
      modifies Repr
      ensures Valid() && Repr >= old(Repr) && fresh(Repr - old(Repr))
      ensures Value() == old(Value())[roleID := old(Value())[roleID][n := v]]
    {
      hide Valid, VersionsTable.Valid, VersionsTable.Value;
      PutBelow(roleID, n, v);
    }

    // One round of the copying loop.
    method CopyRole(clone: VersionsIndex, roleID: RoleID)
      requires Valid() && clone.Valid() && roleID in Value() && roleID !in clone.Value()
      modifies clone
      ensures clone.Valid() && clone.Repr >= old(clone.Repr) && fresh(clone.Repr - old(clone.Repr))
      ensures clone.Value() == old(clone.Value())[roleID := old(Value())[roleID]]
    {
      hide VersionsTable.Valid, VersionsTable.Value;
      var table := rows[roleID].Clone();
      clone.Place(roleID, table);
    }

    method Clone() returns (clone: VersionsIndex)
      requires Valid()
      ensures clone.Valid() && fresh(clone.Repr) && clone.Value() == Value()
    {
      hide Valid, Value, Copied;
      KeysAre();
      ghost var all := Value();
      clone := new VersionsIndex();
      var rest := rows.Keys;
      NothingCopied(all);
      while rest != {}
        invariant rest <= all.Keys && Valid() && Value() == all && clone.Valid() && fresh(clone.Repr)
        invariant Copied(all, clone.Value(), rest)
        decreases rest
      {
        var roleID :| roleID in rest;
        CopiedStep(all, clone.Value(), rest, roleID);
        rest := rest - {roleID};
        CopyRole(clone, roleID);
      }
      AllCopied(all, clone.Value());
    }
  }

  class RoleTable {
    var rows: map<RoleID, Role>

    constructor (rows: map<RoleID, Role>)
      ensures this.rows == rows
    {
      this.rows := rows;
    }
  }

  class EdgeTable {
    var keys: set<EdgeKey>

    constructor (keys: set<EdgeKey>)
      ensures this.keys == keys
    {
      this.keys := keys;
    }
  }

  // A slice that is appended to.
  class EventLog {
    var events: seq<AuditEvent>

    constructor (events: seq<AuditEvent>)
      ensures this.events == events
    {
      this.events := events;
    }
  }

  // The objects of different tables are different.
  ghost predicate Apart(roles: RoleTable, edges: EdgeTable, audit: EventLog, perms: set<object>, bindings: set<object>,
                        versions: set<object>)
  {
    && roles !in perms && roles !in bindings && roles !in versions
    && edges !in perms && edges !in bindings && edges !in versions
    && audit !in perms && audit !in bindings && audit !in versions
    && perms !! bindings && perms !! versions && bindings !! versions
  }

  lemma EmptyTables()
    ensures PermsValid(map[]) && GrantSet(map[]) == {} && BindingTable(map[]) == map[] && VersionTable(map[]) == map[]
  {
  }

  // The rows stored under a role are the grants of that role.
  lemma ListedGrants(m: Perms, roleID: RoleID)
    requires PermsValid(m) && roleID in m
    ensures forall k | k in m[roleID] :: KeyOf(m[roleID][k]) == k
    ensures forall g :: KeyOf(g) in m[roleID] && m[roleID][KeyOf(g)] == g <==> g in GrantSet(m) && g.roleID == roleID
  {
    forall g ensures KeyOf(g) in m[roleID] && m[roleID][KeyOf(g)] == g <==> g in GrantSet(m) && g.roleID == roleID {
      if g in GrantSet(m) && g.roleID == roleID {
        var r, k :| r in m && k in m[r] && m[r][k] == g;
        assert r == roleID && k == KeyOf(g);
      }
    }
  }

  class TenantState {
    const roles: RoleTable
    const rolePerms: PermIndex
    const subjectRoles: BindingsIndex
    const grantEdges: EdgeTable
    const roleVersions: VersionsIndex
    const audit: EventLog
    var bootstrapped: bool
    var purged: bool
    // Every object that belongs to this state.
    ghost var Repr: set<object>

    // The parts belong to this state, and none of them reaches into another.
    ghost predicate Owned()
      reads this, Repr
      ensures Owned() ==>
        this in Repr && roles in Repr && rolePerms.Valid() && subjectRoles.Valid() && roleVersions.Valid()
    {
      && this in Repr && roles in Repr && grantEdges in Repr && audit in Repr
      && rolePerms in Repr && rolePerms.Repr <= Repr && rolePerms.Valid()
      && subjectRoles in Repr && subjectRoles.Repr <= Repr && subjectRoles.Valid()
      && roleVersions in Repr && roleVersions.Repr <= Repr && roleVersions.Valid()
      && this !in rolePerms.Repr && this !in subjectRoles.Repr && this !in roleVersions.Repr
      && Apart(roles, grantEdges, audit, rolePerms.Repr, subjectRoles.Repr, roleVersions.Repr)
    }

    ghost predicate Valid()
      reads this, Repr
      ensures Valid() ==> this in Repr
    {
      && Owned()
      && rolePerms.Value().Keys == roles.rows.Keys && roleVersions.Value().Keys == roles.rows.Keys
      && PermsValid(rolePerms.Value()) && forall r | r in roles.rows :: roles.rows[r].roleID == r
    }

    ghost function Value(): Tenant
      requires Valid()
      reads this, Repr
    {
      Tenant(roles.rows, GrantSet(rolePerms.Value()), BindingTable(subjectRoles.Value()), grantEdges.keys,
             VersionTable(roleVersions.Value()), audit.events, bootstrapped)
    }

    // Rows belong to stored roles, which are stored under their own identifiers.
    lemma GrantsBelong()
      requires Valid()
      ensures forall g | g in Value().grants :: g.roleID in Value().roles
      ensures forall r | r in Value().roles :: Value().roles[r].roleID == r
    {
    }

    lemma Parts()
      requires Valid()
      ensures rolePerms.Valid() && subjectRoles.Valid() && roleVersions.Valid()
      ensures rolePerms.Value().Keys == roles.rows.Keys && roleVersions.Value().Keys == roles.rows.Keys
      ensures PermsValid(rolePerms.Value()) && forall r | r in roles.rows :: roles.rows[r].roleID == r
      ensures Value() == Tenant(roles.rows, GrantSet(rolePerms.Value()), BindingTable(subjectRoles.Value()),
                                grantEdges.keys, VersionTable(roleVersions.Value()), audit.events, bootstrapped)
    {
    }

    lemma GrantsNormal()
      requires Valid()
      ensures forall g | g in Value().grants :: Normal(g)
    {
    }

    constructor Assemble(roles: RoleTable, rolePerms: PermIndex, subjectRoles: BindingsIndex, grantEdges: EdgeTable,
                         roleVersions: VersionsIndex, audit: EventLog, bootstrapped: bool, purged: bool)
      requires rolePerms.Valid() && subjectRoles.Valid() && roleVersions.Valid()
      requires Apart(roles, grantEdges, audit, rolePerms.Repr, subjectRoles.Repr, roleVersions.Repr)
      requires rolePerms.Value().Keys == roles.rows.Keys && roleVersions.Value().Keys == roles.rows.Keys
      requires PermsValid(rolePerms.Value()) && forall r | r in roles.rows :: roles.rows[r].roleID == r
      ensures Valid() && this.purged == purged
      ensures Repr == {this} + {roles, grantEdges, audit} + rolePerms.Repr + subjectRoles.Repr + roleVersions.Repr
      ensures Value() == Tenant(roles.rows, GrantSet(rolePerms.Value()), BindingTable(subjectRoles.Value()),
                                grantEdges.keys, VersionTable(roleVersions.Value()), audit.events, bootstrapped)
    {
      hide PermIndex.Valid, BindingsIndex.Valid, VersionsIndex.Valid, PermIndex.Value, BindingsIndex.Value,
           VersionsIndex.Value, GrantSet, BindingTable, VersionTable, PermsValid, Apart;
      this.roles, this.rolePerms, this.subjectRoles, this.grantEdges := roles, rolePerms, subjectRoles, grantEdges;
      this.roleVersions, this.audit, this.bootstrapped, this.purged := roleVersions, audit, bootstrapped, purged;
      Repr := {this} + {roles, grantEdges, audit} + rolePerms.Repr + subjectRoles.Repr + roleVersions.Repr;
    }

    // newTenantState
    static method New() returns (state: TenantState)
      ensures state.Valid() && fresh(state.Repr) && state.Value() == EMPTY_TENANT && !state.purged
    {
      hide TenantState.Valid, TenantState.Owned, TenantState.Value, PermIndex.Valid, BindingsIndex.Valid,
           VersionsIndex.Valid, PermIndex.Value, BindingsIndex.Value, VersionsIndex.Value, GrantSet, BindingTable,
           VersionTable, PermsValid;
      EmptyTables();
      var roles := new RoleTable(map[]);
      var edges := new EdgeTable({});
      var audit := new EventLog([]);
      var perms := new PermIndex();
      var bindings := new BindingsIndex();
      assert perms.Repr !! bindings.Repr;
      var versions := new VersionsIndex();
      assert perms.Repr !! versions.Repr && bindings.Repr !! versions.Repr;
      ghost var objects := {roles, edges, audit} + perms.Repr + bindings.Repr + versions.Repr;
      assert fresh(objects);
      state := new TenantState.Assemble(roles, perms, bindings, edges, versions, audit, false, false);
      assert state.Repr == {state} + objects;
    }

    // The nested tables of the clone, which share nothing among themselves either.
    method CloneNested() returns (perms: PermIndex, bindings: BindingsIndex, versions: VersionsIndex)
      requires rolePerms.Valid() && subjectRoles.Valid() && roleVersions.Valid()
      ensures perms.Valid() && fresh(perms.Repr) && perms.Value() == rolePerms.Value()
      ensures bindings.Valid() && fresh(bindings.Repr) && bindings.Value() == subjectRoles.Value()
      ensures versions.Valid() && fresh(versions.Repr) && versions.Value() == roleVersions.Value()
      ensures perms.Repr !! bindings.Repr && perms.Repr !! versions.Repr && bindings.Repr !! versions.Repr
    {
      hide PermIndex.Valid, BindingsIndex.Valid, VersionsIndex.Valid, PermIndex.Value, BindingsIndex.Value,
           VersionsIndex.Value;
      perms := rolePerms.Clone();
      bindings := subjectRoles.Clone();
      versions := roleVersions.Clone();
    }

    // cloneTenantState: the clone holds the same rows and shares no map and no slice with the original.
    method Clone() returns (clone: TenantState)
      requires Valid()
      ensures clone.Valid() && fresh(clone.Repr) && clone.Repr !! Repr
      ensures clone.Value() == Value() && clone.purged == purged
    {
      hide Valid, Owned, Value, PermIndex.Valid, BindingsIndex.Valid, VersionsIndex.Valid, PermIndex.Value,
           BindingsIndex.Value, VersionsIndex.Value, GrantSet, BindingTable, VersionTable, PermsValid;
      Parts();
      var newRoles := new RoleTable(roles.rows);
      var edges := new EdgeTable(grantEdges.keys);
      var events := new EventLog(audit.events);
      var perms, bindings, versions := CloneNested();
      ghost var objects := {newRoles, edges, events} + perms.Repr + bindings.Repr + versions.Repr;
      assert fresh(objects);
      clone := new TenantState.Assemble(newRoles, perms, bindings, edges, versions, events, bootstrapped, purged);
      assert clone.Repr == {clone} + objects;
    }

    // ---------- Readers ----------

    method ListEffectiveGrants(subject: SubjectID, permission: PermissionKey) returns (out: seq<Grant>)
      requires Valid()
      ensures forall g :: g in out <==> g in EffectiveGrants(Value(), subject, permission)
    {
      hide Valid, Owned, Value, PermIndex.Valid, BindingsIndex.Valid, VersionsIndex.Valid, PermIndex.Value,
           BindingsIndex.Value, VersionsIndex.Value, GrantSet, VersionTable, PermsValid;
      Parts();
      subjectRoles.RowsAre();
      ghost var t, bindings := Value(), subjectRoles.Value();
      out := [];
      if subject !in subjectRoles.rows {
        assert forall r :: (subject, r) !in BindingTable(bindings);
        return;
      }
      var held := subjectRoles.rows[subject].rows.Keys;
      assert held == bindings[subject].Keys;
      var rest := held;
      while rest != {}
        invariant rest <= held && Valid() && Value() == t
        invariant forall g :: g in out <==>
          g in t.grants && g.roleID in held - rest && Live(t, g.roleID) && g.permission == permission
        decreases rest
      {
        var roleID :| roleID in rest;
        ghost var done := held - rest;
        rest := rest - {roleID};
        assert held - rest == done + {roleID};
        if roleID in roles.rows && !roles.rows[roleID].deleted {
          var more := GrantsOfRole(roleID);
          var kept := [];
          for i := 0 to |more|
            invariant forall g :: g in kept <==> g in more[..i] && g.permission == permission
          {
            assert more[..i + 1] == more[..i] + [more[i]];
            if more[i].permission == permission {
              kept := kept + [more[i]];
            }
          }
          assert more[..|more|] == more;
          out := out + kept;
        }
      }
      assert held - rest == held;
      assert forall r :: (subject, r) in BindingTable(bindings) <==> r in bindings[subject];
    }

    // The rows of one role in some order, each once.
    method GrantsOfRole(roleID: RoleID) returns (out: seq<Grant>)
      requires Valid() && roleID in roles.rows
      ensures NoDuplicates(out)
      ensures forall g :: g in out <==> g in RoleGrants(Value(), roleID)
    {
      hide GrantSet, KeyOf;
      rolePerms.KeysAre();
      ListedGrants(rolePerms.Value(), roleID);
      out := rolePerms.rows[roleID].List();
    }

    // The rows of every role and the snapshots of every role, as clones.
    method AllGrants() returns (all: set<Grant>)
      requires Valid()
      ensures all == Value().grants
    {
      hide GrantOf, BindingTable, VersionTable, PermsValid, PermIndex.Valid, BindingsIndex.Valid, VersionsIndex.Valid,
           PermIndex.Value, BindingsIndex.Value, VersionsIndex.Value, PermTable.Valid, PermTable.Value;
      ghost var perms := rolePerms.Value();
      rolePerms.RowsAre();
      all := set r, k | r in rolePerms.rows && k in rolePerms.rows[r].rows :: GrantOf(rolePerms.rows[r].rows[k]);
      forall r | r in perms ensures forall k | k in perms[r] :: GrantOf(rolePerms.rows[r].rows[k]) == perms[r][k] {
        rolePerms.rows[r].RowsAre();
      }
    }

    method AllSnapshots() returns (all: set<RoleVersion>)
      requires Valid()
      ensures all == set r, n | r in roleVersions.Value() && n in roleVersions.Value()[r] :: roleVersions.Value()[r][n]
    {
      hide SnapshotOf, GrantSet, BindingTable, VersionTable, PermsValid, PermIndex.Valid, BindingsIndex.Valid,
           VersionsIndex.Valid, PermIndex.Value, BindingsIndex.Value, VersionsIndex.Value, VersionsTable.Valid,
           VersionsTable.Value;
      ghost var versions := roleVersions.Value();
      roleVersions.RowsAre();
      all := set r, n | r in roleVersions.rows && n in roleVersions.rows[r].rows ::
               SnapshotOf(roleVersions.rows[r].rows[n]);
      forall r | r in versions
        ensures forall n | n in versions[r] :: SnapshotOf(roleVersions.rows[r].rows[n]) == versions[r][n]
      {
        roleVersions.rows[r].RowsAre();
      }
    }

    // ListRolePermissionGrants; rows that the comparison there leaves tied are ordered by their role list.
    method ListRolePermissionGrants(roleID: RoleID) returns (result: Result<seq<Grant>, Error>)
      requires Valid()
      ensures Valid() && (roleID !in Value().roles ==> result == Err(NotFound))
      ensures roleID in Value().roles ==>
        result == Ok(SortedGrants(Value(), roleID)) && IsListing(result.value, RoleGrants(Value(), roleID), GrantOrder)
    {
      hide Valid, Owned, Value, PermIndex.Valid, BindingsIndex.Valid, VersionsIndex.Valid, PermIndex.Value,
           BindingsIndex.Value, VersionsIndex.Value, GrantSet, BindingTable, VersionTable, PermsValid;
      Parts();
      GrantsNormal();
      if roleID !in roles.rows {
        return Err(NotFound);
      }
      var out := GrantsOfRole(roleID);
      assert Elements(out) == RoleGrants(Value(), roleID);
      forall a, b | a in Elements(out) && b in Elements(out) && GrantOrder(a) == GrantOrder(b) ensures a == b {
        OrderInjective(a, b);
      }
      var sorted := SortByKey(out, GrantOrder);
      return Ok(sorted);
    }

    method GetRole(roleID: RoleID) returns (result: Result<Role, Error>)
      requires Valid()
      ensures result == if roleID in Value().roles then Ok(Value().roles[roleID]) else Err(NotFound)
    {
      if roleID !in roles.rows {
        return Err(NotFound);
      }
      return Ok(roles.rows[roleID]);
    }

    // Whether ListRoleSubjectIDs is non-empty.
    method RoleHasSubjects(roleID: RoleID) returns (found: bool)
      requires Valid()
      ensures found <==> HasSubjects(Value(), roleID)
    {
      ghost var bindings := subjectRoles.Value();
      var rest := subjectRoles.rows.Keys;
      while rest != {}
        invariant rest <= bindings.Keys
        invariant forall s | s in bindings.Keys - rest :: roleID !in bindings[s]
        decreases rest
      {
        var s :| s in rest;
        rest := rest - {s};
        if roleID in subjectRoles.rows[s].rows {
          assert (s, roleID) in BindingTable(bindings);
          return true;
        }
      }
      return false;
    }

    method IsBootstrapped() returns (already: bool)
      requires Valid()
      ensures already == Value().bootstrapped
    {
      return bootstrapped;
    }

    method HasPath(from: SubjectID, to: SubjectID) returns (found: bool)
      requires Valid()
      ensures found <==> Reach(Value().edges, from, to)
    {
      found := HasGrantPath(grantEdges.keys, from, to);
    }

    // The subject-role pairs that the administrator check visits.
    method EligibleBindings(guard: Guard) returns (all: set<(SubjectID, RoleID)>)
      requires Valid()
      ensures Coverage.AllBindings(Value(), guard, all)
    {
      ghost var bindings := subjectRoles.Value();
      all := set s, r | s in subjectRoles.rows && r in subjectRoles.rows[s].rows && Eligible(guard, s) :: (s, r);
      forall key: (SubjectID, RoleID) ensures key in all <==> key in Value().bindings && Eligible(guard, key.0) {
        BindingTableAt(bindings, key.0, key.1);
      }
    }

    // HasAdministrator of the kernel, and of the Core layer when the guard restricts it to active members.
    method CheckAdministrator(cfg: Config, guard: Guard) returns (result: Result<bool, Error>)
      requires Valid() && GuardPermissions(cfg, guard) != {}
      ensures result == if MalformedControl(Value(), cfg, guard) then Err(InvalidPolicyRow)
                        else Ok(HasAdministrator(Value(), cfg, guard))
    {
      hide Valid, Owned, Value, PermIndex.Valid, BindingsIndex.Valid, VersionsIndex.Valid, PermIndex.Value,
           BindingsIndex.Value, VersionsIndex.Value, GrantSet, BindingTable, VersionTable, PermsValid,
           Coverage.Covered, Coverage.CoveredAll, Coverage.MalformedRow, Coverage.AllBindings, MalformedControl,
           HasAdministrator, RoleGrants, GuardPermissions;
      Parts();
      ghost var t := Value();
      var permissions := GuardPermissions(cfg, guard);
      var all := EligibleBindings(guard);
      var coverage := new Coverage.Coverage();
      Coverage.NothingCovered(t, permissions);
      var rest := all;
      assert all - rest == {};
      while rest != {}
        invariant rest <= all && Valid() && Value() == t
        invariant coverage.Shows(t, permissions, all - rest)
        decreases rest
      {
        var key :| key in rest;
        ghost var done := all - rest;
        rest := rest - {key};
        assert all - rest == done + {key};
        if key.1 in roles.rows && !roles.rows[key.1].deleted {
          var grants := GrantsOfRole(key.1);
          var failed := coverage.AddRole(t, permissions, done, key, grants);
          if failed {
            Coverage.MalformedIs(t, cfg, guard, all, done + {key});
            return Err(InvalidPolicyRow);
          }
        } else {
          Coverage.DeadRole(t, permissions, done, key);
        }
      }
      assert all - rest == all;
      Coverage.MalformedIs(t, cfg, guard, all, all);
      var complete := coverage.Complete(permissions);
      coverage.CompleteMeans(t, permissions, all);
      Coverage.CompleteIs(t, cfg, guard, all);
      return Ok(complete);
    }

    // ---------- Changes of one table ----------

    // The flat tables are what they were.
    ghost predicate SameFlat(rows: map<RoleID, Role>, edges: set<EdgeKey>, events: seq<AuditEvent>)
      reads roles, grantEdges, audit
    {
      roles.rows == rows && grantEdges.keys == edges && audit.events == events
    }

    method AddTables(roleID: RoleID)
      requires Owned() && roleID !in rolePerms.Value() && roleID !in roleVersions.Value()
      modifies Repr
      ensures Owned() && fresh(Repr - old(Repr)) && SameFlat(old(roles.rows), old(grantEdges.keys), old(audit.events))
      ensures bootstrapped == old(bootstrapped) && purged == old(purged)
      ensures rolePerms.Value() == old(rolePerms.Value())[roleID := map[]]
      ensures subjectRoles.Value() == old(subjectRoles.Value())
      ensures roleVersions.Value() == old(roleVersions.Value())[roleID := map[]]
    {
      hide PermIndex.Valid, BindingsIndex.Valid, VersionsIndex.Valid, PermIndex.Value, BindingsIndex.Value,
           VersionsIndex.Value;
      rolePerms.NewRole(roleID);
      roleVersions.NewRole(roleID);
      Repr := Repr + rolePerms.Repr + roleVersions.Repr;
    }

    method PutRow(grant: Grant)
      requires Owned() && grant.roleID in rolePerms.Value()
      modifies Repr
      ensures Owned() && fresh(Repr - old(Repr)) && SameFlat(old(roles.rows), old(grantEdges.keys), old(audit.events))
      ensures bootstrapped == old(bootstrapped) && purged == old(purged)
      ensures rolePerms.Value() ==
                old(rolePerms.Value())[grant.roleID := old(rolePerms.Value())[grant.roleID][KeyOf(grant) := grant]]
      ensures subjectRoles.Value() == old(subjectRoles.Value())
      ensures roleVersions.Value() == old(roleVersions.Value())
    {
      hide PermIndex.Valid, BindingsIndex.Valid, VersionsIndex.Valid, PermIndex.Value, BindingsIndex.Value,
           VersionsIndex.Value;
      rolePerms.Put(grant.roleID, KeyOf(grant), grant);
      Repr := Repr + rolePerms.Repr;
    }

    method DeleteRow(roleID: RoleID, k: GrantKey)
      requires Owned() && roleID in rolePerms.Value()
      modifies Repr
      ensures Owned() && fresh(Repr - old(Repr)) && SameFlat(old(roles.rows), old(grantEdges.keys), old(audit.events))
      ensures bootstrapped == old(bootstrapped) && purged == old(purged)
      ensures rolePerms.Value() == old(rolePerms.Value())[roleID := old(rolePerms.Value())[roleID] - {k}]
      ensures subjectRoles.Value() == old(subjectRoles.Value())
      ensures roleVersions.Value() == old(roleVersions.Value())
    {
      hide PermIndex.Valid, BindingsIndex.Valid, VersionsIndex.Valid, PermIndex.Value, BindingsIndex.Value,
           VersionsIndex.Value;
      rolePerms.Delete(roleID, k);
    }

    method PutBinding(b: Binding)
      requires Owned()
      modifies Repr
      ensures Owned() && fresh(Repr - old(Repr)) && SameFlat(old(roles.rows), old(grantEdges.keys), old(audit.events))
      ensures bootstrapped == old(bootstrapped) && purged == old(purged)
      ensures rolePerms.Value() == old(rolePerms.Value())
      ensures subjectRoles.Value() ==
              var before := old(subjectRoles.Value());
              before[b.subjectID := (if b.subjectID in before then before[b.subjectID] else map[])[b.roleID := b]]
      ensures roleVersions.Value() == old(roleVersions.Value())
    {
      hide PermIndex.Valid, BindingsIndex.Valid, VersionsIndex.Valid, PermIndex.Value, BindingsIndex.Value,
           VersionsIndex.Value;
      subjectRoles.Put(b);
      Repr := Repr + subjectRoles.Repr;
    }

    method DeleteBinding(subject: SubjectID, roleID: RoleID)
      requires Owned() && subject in subjectRoles.Value()
      modifies Repr
      ensures Owned() && fresh(Repr - old(Repr)) && SameFlat(old(roles.rows), old(grantEdges.keys), old(audit.events))
      ensures bootstrapped == old(bootstrapped) && purged == old(purged)
      ensures rolePerms.Value() == old(rolePerms.Value())
      ensures subjectRoles.Value() ==
                old(subjectRoles.Value())[subject := old(subjectRoles.Value())[subject] - {roleID}]
      ensures roleVersions.Value() == old(roleVersions.Value())
    {
      hide PermIndex.Valid, BindingsIndex.Valid, VersionsIndex.Valid, PermIndex.Value, BindingsIndex.Value,
           VersionsIndex.Value;
      subjectRoles.Delete(subject, roleID);
    }

    method DeleteBindings(subject: SubjectID)
      requires Owned()
      modifies Repr
      ensures Owned() && fresh(Repr - old(Repr)) && SameFlat(old(roles.rows), old(grantEdges.keys), old(audit.events))
      ensures bootstrapped == old(bootstrapped) && purged == old(purged)
      ensures rolePerms.Value() == old(rolePerms.Value())
      ensures subjectRoles.Value() == old(subjectRoles.Value()) - {subject}
      ensures roleVersions.Value() == old(roleVersions.Value())
    {
      hide PermIndex.Valid, BindingsIndex.Valid, VersionsIndex.Valid, PermIndex.Value, BindingsIndex.Value,
           VersionsIndex.Value;
      subjectRoles.DeleteAll(subject);
    }

    method PutSnapshot(v: RoleVersion)
      requires Owned() && v.roleID in roleVersions.Value()
      modifies Repr
      ensures Owned() && fresh(Repr - old(Repr)) && SameFlat(old(roles.rows), old(grantEdges.keys), old(audit.events))
      ensures bootstrapped == old(bootstrapped) && purged == old(purged)
      ensures rolePerms.Value() == old(rolePerms.Value())
      ensures subjectRoles.Value() == old(subjectRoles.Value())
      ensures roleVersions.Value() ==
                old(roleVersions.Value())[v.roleID := old(roleVersions.Value())[v.roleID][v.version := v]]
    {
      hide PermIndex.Valid, BindingsIndex.Valid, VersionsIndex.Valid, PermIndex.Value, BindingsIndex.Value,
           VersionsIndex.Value;
      roleVersions.Put(v.roleID, v.version, v);
      Repr := Repr + roleVersions.Repr;
    }

    method SetRole(role: Role)
      requires Owned()
      modifies roles
      ensures Owned() && roles.rows == old(roles.rows)[role.roleID := role]
      ensures rolePerms.Value() == old(rolePerms.Value()) && subjectRoles.Value() == old(subjectRoles.Value())
      ensures roleVersions.Value() == old(roleVersions.Value())
    {
      hide PermIndex.Valid, BindingsIndex.Valid, VersionsIndex.Valid, PermIndex.Value, BindingsIndex.Value,
           VersionsIndex.Value;
      roles.rows := roles.rows[role.roleID := role];
    }

    method HasRow(grant: Grant) returns (found: bool)
      requires Owned()
      ensures found <==> grant.roleID in rolePerms.Value() && KeyOf(grant) in rolePerms.Value()[grant.roleID]
    {
      rolePerms.RowsAre();
      found := grant.roleID in rolePerms.rows && KeyOf(grant) in rolePerms.rows[grant.roleID].rows;
    }

    method FindBinding(subject: SubjectID, roleID: RoleID) returns (found: Option<Binding>)
      requires Owned()
      ensures var all := subjectRoles.Value();
              found == if subject in all && roleID in all[subject] then Some(all[subject][roleID]) else None
    {
      subjectRoles.RowsAre();
      if subject !in subjectRoles.rows || roleID !in subjectRoles.rows[subject].rows {
        return None;
      }
      return Some(subjectRoles.rows[subject].rows[roleID]);
    }

    // ---------- Changes ----------

    method InsertRole(role: Role) returns (error: Option<Error>)
      requires Valid()
      modifies Repr
      ensures Valid() && fresh(Repr - old(Repr)) && purged == old(purged)
      ensures error == if role.roleID in old(Value()).roles then Some(Conflict) else None
      ensures Value() == if error.Some? then old(Value())
                         else old(Value()).(roles := old(Value()).roles[role.roleID := role])
    {
      hide Owned, PermIndex.Valid, BindingsIndex.Valid, VersionsIndex.Valid, PermIndex.Value, BindingsIndex.Value,
           VersionsIndex.Value, GrantSet, BindingTable, VersionTable, PermsValid;
      if role.roleID in roles.rows {
        return Some(Conflict);
      }
      GrantSetNewRole(rolePerms.Value(), role.roleID);
      VersionTableNewRole(roleVersions.Value(), role.roleID);
      AddTables(role.roleID);
      SetRole(role);
      return None;
    }

    method UpdateRole(role: Role, expectedVersion: int) returns (error: Option<Error>)
      requires Valid()
      modifies Repr
      ensures Valid() && fresh(Repr - old(Repr)) && purged == old(purged)
      ensures error == if role.roleID !in old(Value()).roles then Some(NotFound)
                       else if old(Value()).roles[role.roleID].version != expectedVersion then Some(Conflict) else None
      ensures var t, next := old(Value()), role.(version := expectedVersion + 1);
              Value() == if error.Some? then t else t.(roles := t.roles[role.roleID := next])
    {
      hide PermIndex.Valid, BindingsIndex.Valid, VersionsIndex.Valid, PermIndex.Value, BindingsIndex.Value,
           VersionsIndex.Value, GrantSet, BindingTable, VersionTable, PermsValid;
      if role.roleID !in roles.rows {
        return Some(NotFound);
      }
      if roles.rows[role.roleID].version != expectedVersion {
        return Some(Conflict);
      }
      roles.rows := roles.rows[role.roleID := role.(version := expectedVersion + 1)];
      return None;
    }

    method TombstoneRole(roleID: RoleID, expectedVersion: int) returns (error: Option<Error>)
      requires Valid()
      modifies Repr
      ensures Valid() && fresh(Repr - old(Repr)) && purged == old(purged)
      ensures error == if roleID !in old(Value()).roles then Some(NotFound)
                       else if old(Value()).roles[roleID].version != expectedVersion then Some(Conflict) else None
      ensures error.Some? ==> Value() == old(Value())
      ensures error.None? ==>
        var t := old(Value());
        Value() == t.(roles := t.roles[roleID := t.roles[roleID].(deleted := true, version := expectedVersion + 1)])
    {
      hide PermIndex.Valid, BindingsIndex.Valid, VersionsIndex.Valid, PermIndex.Value, BindingsIndex.Value,
           VersionsIndex.Value, GrantSet, BindingTable, VersionTable, PermsValid;
      if roleID !in roles.rows {
        return Some(NotFound);
      }
      if roles.rows[roleID].version != expectedVersion {
        return Some(Conflict);
      }
      roles.rows := roles.rows[roleID := roles.rows[roleID].(deleted := true, version := expectedVersion + 1)];
      return None;
    }

    method InsertRolePermissionGrant(grant: Grant) returns (result: Result<bool, Error>)
      requires Valid() && Normal(grant)
      modifies Repr
      ensures Valid() && fresh(Repr - old(Repr)) && purged == old(purged)
      ensures result == if !Live(old(Value()), grant.roleID) then Err(NotFound) else Ok(grant !in old(Value()).grants)
      ensures Value() == if result.Ok? then old(Value()).(grants := old(Value()).grants + {grant}) else old(Value())
    {
      hide Owned, PermIndex.Valid, BindingsIndex.Valid, VersionsIndex.Valid, PermIndex.Value, BindingsIndex.Value,
           VersionsIndex.Value, GrantSet, BindingTable, VersionTable;
      ghost var perms := rolePerms.Value();
      GrantSetHas(perms, grant);
      if grant.roleID !in roles.rows || roles.rows[grant.roleID].deleted {
        return Err(NotFound);
      }
      var present := HasRow(grant);
      if present {
        assert GrantSet(perms) + {grant} == GrantSet(perms);
        return Ok(false);
      }
      GrantSetInsert(perms, grant);
      PutRow(grant);
      return Ok(true);
    }

    method DeleteRolePermissionGrant(grant: Grant) returns (changed: bool)
      requires Valid() && Normal(grant)
      modifies Repr
      ensures Valid() && fresh(Repr - old(Repr)) && purged == old(purged)
      ensures changed <==> grant in old(Value()).grants
      ensures Value() == old(Value()).(grants := old(Value()).grants - {grant})
    {
      hide Owned, PermIndex.Valid, BindingsIndex.Valid, VersionsIndex.Valid, PermIndex.Value, BindingsIndex.Value,
           VersionsIndex.Value, GrantSet, BindingTable, VersionTable;
      ghost var perms := rolePerms.Value();
      GrantSetHas(perms, grant);
      var present := HasRow(grant);
      if !present {
        assert GrantSet(perms) - {grant} == GrantSet(perms);
        return false;
      }
      GrantSetDelete(perms, grant);
      DeleteRow(grant.roleID, KeyOf(grant));
      return true;
    }

    method InsertSubjectRoleGrant(b: Binding) returns (result: Result<bool, Error>)
      requires Valid()
      modifies Repr
      ensures Valid() && fresh(Repr - old(Repr)) && purged == old(purged)
      ensures result == if b.roleID !in old(Value()).roles then Err(NotFound)
                        else Ok((b.subjectID, b.roleID) !in old(Value()).bindings)
      ensures Value() == if result == Ok(true) then
                           old(Value()).(bindings := old(Value()).bindings[(b.subjectID, b.roleID) := b])
                         else old(Value())
    {
      hide Owned, PermIndex.Valid, BindingsIndex.Valid, VersionsIndex.Valid, PermIndex.Value, BindingsIndex.Value,
           VersionsIndex.Value, GrantSet, BindingTable, VersionTable, PermsValid;
      ghost var bindings := subjectRoles.Value();
      if b.roleID !in roles.rows {
        return Err(NotFound);
      }
      BindingTableAt(bindings, b.subjectID, b.roleID);
      var found := FindBinding(b.subjectID, b.roleID);
      if found.Some? {
        return Ok(false);
      }
      BindingTableInsert(bindings, b.subjectID, b.roleID, b);
      PutBinding(b);
      return Ok(true);
    }

    method DeleteSubjectRoleGrant(subject: SubjectID, roleID: RoleID) returns (removed: Option<Binding>)
      requires Valid()
      modifies Repr
      ensures Valid() && fresh(Repr - old(Repr)) && purged == old(purged)
      ensures removed == if (subject, roleID) in old(Value()).bindings then
                           Some(old(Value()).bindings[(subject, roleID)])
                         else None
      ensures Value() == old(Value()).(bindings := old(Value()).bindings - {(subject, roleID)})
    {
      hide Owned, PermIndex.Valid, BindingsIndex.Valid, VersionsIndex.Valid, PermIndex.Value, BindingsIndex.Value,
           VersionsIndex.Value, GrantSet, BindingTable, VersionTable, PermsValid;
      ghost var bindings := subjectRoles.Value();
      BindingTableAt(bindings, subject, roleID);
      removed := FindBinding(subject, roleID);
      if removed.None? {
        assert BindingTable(bindings) - {(subject, roleID)} == BindingTable(bindings);
        return;
      }
      BindingTableDelete(bindings, subject, roleID);
      DeleteBinding(subject, roleID);
    }

    method InsertGrantEdge(edge: EdgeKey)
      requires Valid()
      modifies Repr
      ensures Valid() && fresh(Repr - old(Repr)) && purged == old(purged)
      ensures Value() == old(Value()).(edges := old(Value()).edges + {edge})
    {
      hide PermIndex.Valid, BindingsIndex.Valid, VersionsIndex.Valid, PermIndex.Value, BindingsIndex.Value,
           VersionsIndex.Value, GrantSet, BindingTable, VersionTable, PermsValid;
      grantEdges.keys := grantEdges.keys + {edge};
    }

    method DeleteGrantEdge(edge: EdgeKey)
      requires Valid()
      modifies Repr
      ensures Valid() && fresh(Repr - old(Repr)) && purged == old(purged)
      ensures Value() == old(Value()).(edges := old(Value()).edges - {edge})
    {
      hide PermIndex.Valid, BindingsIndex.Valid, VersionsIndex.Valid, PermIndex.Value, BindingsIndex.Value,
           VersionsIndex.Value, GrantSet, BindingTable, VersionTable, PermsValid;
      grantEdges.keys := grantEdges.keys - {edge};
    }

    // DELETE FROM grant_edges WHERE grantee_id = subject
    method DeleteEdgesTo(subject: SubjectID)
      requires Valid()
      modifies Repr
      ensures Valid() && fresh(Repr - old(Repr)) && purged == old(purged)
      ensures Value() == old(Value()).(edges := (set e | e in old(Value()).edges && e.grantee != subject))
    {
      hide PermIndex.Valid, BindingsIndex.Valid, VersionsIndex.Valid, PermIndex.Value, BindingsIndex.Value,
           VersionsIndex.Value, GrantSet, BindingTable, VersionTable, PermsValid;
      grantEdges.keys := set e | e in grantEdges.keys && e.grantee != subject;
    }

    // DELETE FROM subject_roles WHERE subject_id = subject
    method DeleteBindingsOf(subject: SubjectID)
      requires Valid()
      modifies Repr
      ensures Valid() && fresh(Repr - old(Repr)) && purged == old(purged)
      ensures var t := old(Value());
              Value() == t.(bindings := t.bindings - (set key | key in t.bindings && key.0 == subject))
    {
      hide Owned, PermIndex.Valid, BindingsIndex.Valid, VersionsIndex.Valid, PermIndex.Value, BindingsIndex.Value,
           VersionsIndex.Value, GrantSet, BindingTable, VersionTable, PermsValid;
      BindingTableWithout(subjectRoles.Value(), subject);
      DeleteBindings(subject);
    }

    method InsertRoleVersion(snapshot: RoleVersion)
      requires Valid() && snapshot.roleID in Value().roles
      modifies Repr
      ensures Valid() && fresh(Repr - old(Repr)) && purged == old(purged)
      ensures var t := old(Value());
              Value() == t.(versions := t.versions[(snapshot.roleID, snapshot.version) := snapshot])
    {
      hide Owned, PermIndex.Valid, BindingsIndex.Valid, VersionsIndex.Valid, PermIndex.Value, BindingsIndex.Value,
           VersionsIndex.Value, GrantSet, BindingTable, VersionTable, PermsValid;
      VersionTableInsert(roleVersions.Value(), snapshot.roleID, snapshot.version, snapshot);
      PutSnapshot(snapshot);
    }

    method InsertMutationAudit(event: AuditEvent)
      requires Valid()
      modifies Repr
      ensures Valid() && fresh(Repr - old(Repr)) && purged == old(purged)
      ensures Value() == old(Value()).(audit := old(Value()).audit + [event])
    {
      hide PermIndex.Valid, BindingsIndex.Valid, VersionsIndex.Valid, PermIndex.Value, BindingsIndex.Value,
           VersionsIndex.Value, GrantSet, BindingTable, VersionTable, PermsValid;
      audit.events := audit.events + [event];
    }

    method MarkBootstrapped()
      requires Valid()
      modifies Repr
      ensures Valid() && fresh(Repr - old(Repr)) && purged == old(purged)
      ensures Value() == old(Value()).(bootstrapped := true)
    {
      hide PermIndex.Valid, BindingsIndex.Valid, VersionsIndex.Valid, PermIndex.Value, BindingsIndex.Value,
           VersionsIndex.Value, GrantSet, BindingTable, VersionTable, PermsValid;
      bootstrapped := true;
    }
  }
}
