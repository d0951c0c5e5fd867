/** The canonical tenant export: collected from maps in any order, always the same bytes. */
module TenantExport {
  import opened Wrappers
  import opened Ordering
  import opened Policy
  import opened GrantGraph
  import opened Tenancy
  import opened TenantInvariants
  import Delegation
  import opened MemoryStore

  type Bytes = string

  datatype Snapshot = Snapshot(
    format: string, tenantID: string, roles: seq<Role>, grants: seq<Grant>, versions: seq<RoleVersion>,
    edges: seq<EdgeKey>, audit: seq<AuditEvent>)

  const FORMAT := "amsonia.tenant.v1"

  // ---------- The comparisons ----------

  datatype VersionKey = VersionKey(roleID: RoleID, version: int)

  function RoleKey(r: Role): Key { [r.roleID] }

  function GrantSortKey(g: Grant): Key { [g.roleID, g.permission, ScopeText(g.scope)] + g.workspaceRoles }

  function VersionSortKey(v: RoleVersion): VersionKey { VersionKey(v.roleID, v.version) }

  function EdgeSortKey(e: EdgeKey): Key { [e.grantor, e.grantee, e.roleID] }

  predicate VersionBefore(a: VersionKey, b: VersionKey) {
    StringLess(a.roleID, b.roleID) || (a.roleID == b.roleID && a.version < b.version)
  }

  lemma KeysOrdered()
    ensures StrictOrder(KeyLess) && StrictOrder(VersionBefore)
  {
    forall a, b, c: Key
      ensures !KeyLess(a, a)
      ensures KeyLess(a, b) && KeyLess(b, c) ==> KeyLess(a, c)
      ensures KeyLess(a, b) || a == b || KeyLess(b, a)
    {
      KeyOrder(a, b, c);
    }
    forall a, b, c: VersionKey
      ensures !VersionBefore(a, a)
      ensures VersionBefore(a, b) && VersionBefore(b, c) ==> VersionBefore(a, c)
      ensures VersionBefore(a, b) || a == b || VersionBefore(b, a)
    {
      StringOrder(a.roleID, b.roleID, c.roleID);
    }
  }

  predicate KnownScopes(grants: seq<Grant>) {
    forall g | g in grants :: !g.scope.ScopeUnknown?
  }

  // The comparison of grants covers every field, so it tells different grants apart.
  lemma GrantKeyInjective(a: Grant, b: Grant)
    requires !a.scope.ScopeUnknown? && !b.scope.ScopeUnknown? && GrantSortKey(a) == GrantSortKey(b)
    ensures a == b
  {
    var x, y := GrantSortKey(a), GrantSortKey(b);
    assert x[0] == y[0] && x[1] == y[1] && x[2] == y[2];
    assert x[3..] == a.workspaceRoles && y[3..] == b.workspaceRoles;
  }

  // ---------- The canonical form ----------

  function SortedGrantList(grants: seq<Grant>): seq<Grant> {
    SortedForm(grants, GrantSortKey, KeyLess)
  }

  function NormalVersion(v: RoleVersion): RoleVersion {
    v.(grants := SortedGrantList(v.grants))
  }

  function NormalVersions(versions: seq<RoleVersion>): (list: seq<RoleVersion>)
    ensures |list| == |versions| && forall i | 0 <= i < |list| :: list[i] == NormalVersion(versions[i])
  {
    seq(|versions|, i requires 0 <= i < |versions| => NormalVersion(versions[i]))
  }

  function Canonical(s: Snapshot): Snapshot {
    s.(roles := SortedForm(s.roles, RoleKey, KeyLess), grants := SortedGrantList(s.grants),
       versions := NormalVersions(SortedForm(s.versions, VersionSortKey, VersionBefore)), edges :=
                     SortedForm(s.edges, EdgeSortKey, KeyLess))
  }

  // Roles by identifier, versions by role and number, edges by their three ends, and grants, also those inside a
  // version, by role, permission, scope and role names; everything is there as often as before, and the audit log
  // keeps its order.
  ghost predicate CanonicalOf(c: Snapshot, s: Snapshot) {
    && c.format == s.format && c.tenantID == s.tenantID && c.audit == s.audit
    && multiset(c.roles) == multiset(s.roles) && multiset(c.edges) == multiset(s.edges)
    && SortedGrantsOf(c.grants, s.grants)
    && (forall i, j | 0 <= i < j < |c.roles| :: !StringLess(c.roles[j].roleID, c.roles[i].roleID))
    && (forall i, j | 0 <= i < j < |c.edges| ::
          !KeyLess([c.edges[j].grantor, c.edges[j].grantee, c.edges[j].roleID],
                   [c.edges[i].grantor, c.edges[i].grantee, c.edges[i].roleID]))
    && exists versions: seq<RoleVersion> | multiset(versions) == multiset(s.versions) ::
         && |c.versions| == |versions|
         && (forall i | 0 <= i < |versions| ::
               c.versions[i] == versions[i].(grants := c.versions[i].grants)
               && SortedGrantsOf(c.versions[i].grants, versions[i].grants))
         && (forall i, j | 0 <= i < j < |versions| ::
               StringLess(versions[i].roleID, versions[j].roleID)
               || (versions[i].roleID == versions[j].roleID && versions[i].version <= versions[j].version))
  }

  ghost predicate SortedGrantsOf(sorted: seq<Grant>, grants: seq<Grant>) {
    && multiset(sorted) == multiset(grants)
    && forall i, j | 0 <= i < j < |sorted| ::
         !KeyLess([sorted[j].roleID, sorted[j].permission, ScopeText(sorted[j].scope)] + sorted[j].workspaceRoles,
                  [sorted[i].roleID, sorted[i].permission, ScopeText(sorted[i].scope)] + sorted[i].workspaceRoles)
  }

  lemma SortedGrantsAre(grants: seq<Grant>)
    ensures SortedGrantsOf(SortedGrantList(grants), grants)
  {
    KeysOrdered();
    SortedFormSorts(grants, GrantSortKey, KeyLess);
    var sorted := SortedGrantList(grants);
    forall i, j | 0 <= i < j < |sorted| ensures !KeyLess(GrantSortKey(sorted[j]), GrantSortKey(sorted[i])) {
    }
  }

  lemma CanonicalExactly(s: Snapshot)
    ensures CanonicalOf(Canonical(s), s)
  {
    hide SortedForm, SortedGrantsOf, SortedGrantList;
    KeysOrdered();
    var c := Canonical(s);
    SortedFormSorts(s.roles, RoleKey, KeyLess);
    forall i, j | 0 <= i < j < |c.roles| ensures !StringLess(c.roles[j].roleID, c.roles[i].roleID) {
      assert !KeyLess(RoleKey(c.roles[j]), RoleKey(c.roles[i]));
      KeyOfOne(c.roles[j].roleID, c.roles[i].roleID);
    }
    SortedFormSorts(s.edges, EdgeSortKey, KeyLess);
    forall i, j | 0 <= i < j < |c.edges| ensures !KeyLess(EdgeSortKey(c.edges[j]), EdgeSortKey(c.edges[i])) {
    }
    SortedGrantsAre(s.grants);
    SortedFormSorts(s.versions, VersionSortKey, VersionBefore);
    var versions := SortedForm(s.versions, VersionSortKey, VersionBefore);
    forall i | 0 <= i < |versions| ensures SortedGrantsOf(c.versions[i].grants, versions[i].grants) {
      SortedGrantsAre(versions[i].grants);
    }
    forall i, j | 0 <= i < j < |versions|
      ensures StringLess(versions[i].roleID, versions[j].roleID)
              || (versions[i].roleID == versions[j].roleID && versions[i].version <= versions[j].version)
    {
      assert !VersionBefore(VersionSortKey(versions[j]), VersionSortKey(versions[i]));
      StringOrder(versions[i].roleID, versions[j].roleID, versions[i].roleID);
    }
  }

  // One role per identifier, one version per role and number, known scopes: what a tenant can hold.
  ghost predicate Reachable(s: Snapshot) {
    && (forall a, b | a in s.roles && b in s.roles && a.roleID == b.roleID :: a == b)
    && KnownScopes(s.grants) && Unambiguous(s.versions)
  }

  // No two versions have a number in common, and their grants have known scopes.
  ghost predicate Unambiguous(versions: seq<RoleVersion>) {
    && (forall a, b | a in versions && b in versions && VersionSortKey(a) == VersionSortKey(b) :: a == b)
    && forall v | v in versions :: KnownScopes(v.grants)
  }

  // ---------- Marshal ----------

  lemma GrantsSortOneWay(a: seq<Grant>, b: seq<Grant>)
    requires multiset(a) == multiset(b) && KnownScopes(a) && InOrder(b, GrantSortKey, KeyLess)
    ensures b == SortedGrantList(a)
  {
    KeysOrdered();
    SortedFormSorts(a, GrantSortKey, KeyLess);
    forall x, y | x in b && y in b && GrantSortKey(x) == GrantSortKey(y) ensures x == y {
      assert x in multiset(a) && y in multiset(a);
      GrantKeyInjective(x, y);
    }
    OneSortedForm(b, SortedGrantList(a), GrantSortKey, KeyLess);
  }

  // A version whose grants are a slice, which others may hold as well.
  datatype VersionSlice = VersionSlice(
    roleID: RoleID, version: int, name: string, description: string, grants: array<Grant>,
    deleted: bool, createdBy: SubjectID, bootstrapInitiator: string)

  function VersionAt(v: VersionSlice): RoleVersion
    reads v.grants
  {
    RoleVersion(v.roleID, v.version, v.name, v.description, v.grants[..], v.deleted, v.createdBy, v.bootstrapInitiator)
  }

  function VersionsAt(list: seq<VersionSlice>): (versions: seq<RoleVersion>)
    reads set i | 0 <= i < |list| :: list[i].grants
    ensures |versions| == |list| && forall i | 0 <= i < |list| :: versions[i] == VersionAt(list[i])
  {
    if list == [] then [] else [VersionAt(list[0])] + VersionsAt(list[1..])
  }

  function SliceKey(v: VersionSlice): VersionKey { VersionKey(v.roleID, v.version) }

  // sortedGrants sorts a clone.
  method SortGrants(grants: array<Grant>) returns (sorted: array<Grant>)
    requires KnownScopes(grants[..])
    ensures fresh(sorted) && sorted[..] == SortedGrantList(grants[..])
  {
    KeysOrdered();
    sorted := new Grant[grants.Length](i requires 0 <= i < grants.Length reads grants => grants[i]);
    assert sorted[..] == grants[..];
    SortSlice(sorted, GrantSortKey, KeyLess);
    GrantsSortOneWay(grants[..], sorted[..]);
  }

  // Sorts clones of the slices it is given and of those below them, so every array of the caller stays as it is.
  method Marshal(format: string, tenantID: string, roles: array<Role>, grants: array<Grant>,
                 versions: array<VersionSlice>, edges: array<EdgeKey>, audit: seq<AuditEvent>,
                 encode: Snapshot -> Bytes)
    returns (data: Bytes)
    requires Reachable(Snapshot(format, tenantID, roles[..], grants[..], VersionsAt(versions[..]), edges[..], audit))
    ensures data == encode(Canonical(Snapshot(format, tenantID, roles[..], grants[..], VersionsAt(versions[..]),
                                              edges[..], audit)))
  {
    hide SortedForm, StrictOrder, InOrder, VersionsAt, KnownScopes, SortedGrantList, NormalVersions;
    var sortedRoles := MarshalRoles(roles[..]);
    var sortedGrants := SortGrants(grants);
    var sortedVersions := MarshalVersions(versions);
    var sortedEdges := MarshalEdges(edges[..]);
    data := encode(Snapshot(format, tenantID, sortedRoles, sortedGrants[..], VersionsAt(sortedVersions[..]),
                            sortedEdges, audit));
  }

  method MarshalRoles(roles: seq<Role>) returns (sorted: seq<Role>)
    requires forall a, b | a in roles && b in roles && a.roleID == b.roleID :: a == b
    ensures sorted == SortedForm(roles, RoleKey, KeyLess)
  {
    KeysOrdered();
    var clone := new Role[|roles|](i requires 0 <= i < |roles| => roles[i]);
    assert clone[..] == roles;
    SortSlice(clone, RoleKey, KeyLess);
    sorted := clone[..];
    SortedFormSorts(roles, RoleKey, KeyLess);
    forall x, y | x in sorted && y in sorted && RoleKey(x) == RoleKey(y) ensures x == y {
      assert x in multiset(roles) && y in multiset(roles) && RoleKey(x)[0] == RoleKey(y)[0];
    }
    OneSortedForm(sorted, SortedForm(roles, RoleKey, KeyLess), RoleKey, KeyLess);
  }

  method MarshalEdges(edges: seq<EdgeKey>) returns (sorted: seq<EdgeKey>)
    ensures sorted == SortedForm(edges, EdgeSortKey, KeyLess)
  {
    KeysOrdered();
    var clone := new EdgeKey[|edges|](i requires 0 <= i < |edges| => edges[i]);
    assert clone[..] == edges;
    SortSlice(clone, EdgeSortKey, KeyLess);
    sorted := clone[..];
    SortedFormSorts(edges, EdgeSortKey, KeyLess);
    forall x, y | x in sorted && y in sorted && EdgeSortKey(x) == EdgeSortKey(y) ensures x == y {
      EdgeKeyInjective(x, y);
    }
    OneSortedForm(sorted, SortedForm(edges, EdgeSortKey, KeyLess), EdgeSortKey, KeyLess);
  }

  lemma EdgeKeyInjective(a: EdgeKey, b: EdgeKey)
    requires EdgeSortKey(a) == EdgeSortKey(b)
    ensures a == b
  {
    var x, y := EdgeSortKey(a), EdgeSortKey(b);
    assert x[0] == y[0] && x[1] == y[1] && x[2] == y[2];
  }

  // The clone of the outer slice shares the inner slices with the original until each is replaced by its sorted clone.
  method MarshalVersions(versions: array<VersionSlice>) returns (sorted: array<VersionSlice>)
    requires Unambiguous(VersionsAt(versions[..]))
    ensures fresh(sorted)
    ensures VersionsAt(sorted[..]) == NormalVersions(SortedForm(VersionsAt(versions[..]), VersionSortKey,
                                                                VersionBefore))
  {
    hide Unambiguous, SortedGrantList, SortedForm, InOrder, StrictOrder, NormalVersions;
    ghost var list := VersionsAt(versions[..]);
    sorted := SortByNumber(versions);
    assert VersionsAt(versions[..]) == list;
    SlicesSortOneWay(versions[..], sorted[..]);
    SortInner(sorted, VersionsAt(sorted[..]));
  }

  method SortByNumber(versions: array<VersionSlice>) returns (sorted: array<VersionSlice>)
    ensures fresh(sorted) && multiset(sorted[..]) == multiset(versions[..])
    ensures InOrder(sorted[..], SliceKey, VersionBefore)
  {
    hide VersionAt, VersionsAt, InOrder, StrictOrder;
    sorted := new VersionSlice[versions.Length](i requires 0 <= i < versions.Length reads versions => versions[i]);
    assert sorted[..] == versions[..];
    KeysOrdered();
    SortSlice(sorted, SliceKey, VersionBefore);
  }

  method SortInner(sorted: array<VersionSlice>, ghost ordered: seq<RoleVersion>)
    requires VersionsAt(sorted[..]) == ordered && Unambiguous(ordered)
    modifies sorted
    ensures VersionsAt(sorted[..]) == NormalVersions(ordered)
  {
    hide Unambiguous, KnownScopes, NormalVersion, NormalVersions, VersionsAt;
    for i := 0 to sorted.Length
      invariant forall k | 0 <= k < i :: VersionAt(sorted[k]) == NormalVersion(ordered[k])
      invariant forall k | i <= k < sorted.Length :: VersionAt(sorted[k]) == ordered[k]
    {
      assert KnownScopes(ordered[i].grants) by {
        KnownAt(ordered, i);
      }
      var version := SortBelow(sorted[i]);
      sorted[i] := version;
    }
  }

  lemma KnownAt(ordered: seq<RoleVersion>, i: nat)
    requires Unambiguous(ordered) && i < |ordered|
    ensures KnownScopes(ordered[i].grants)
  {
    assert ordered[i] in ordered;
  }

  method SortBelow(v: VersionSlice) returns (next: VersionSlice)
    requires KnownScopes(VersionAt(v).grants)
    ensures VersionAt(next) == NormalVersion(VersionAt(v))
  {
    var grants := SortGrants(v.grants);
    next := v.(grants := grants);
  }

  lemma SlicesSortOneWay(versions: seq<VersionSlice>, ordered: seq<VersionSlice>)
    requires Unambiguous(VersionsAt(versions))
    requires multiset(ordered) == multiset(versions) && InOrder(ordered, SliceKey, VersionBefore)
    ensures VersionsAt(ordered) == SortedForm(VersionsAt(versions), VersionSortKey, VersionBefore)
    ensures Unambiguous(VersionsAt(ordered))
  {
    hide KnownScopes, SortedForm, InOrder, VersionsAt, VersionAt;
    SameElements(ordered, versions);
    forall v | v in VersionsAt(ordered) ensures v in VersionsAt(versions) {
      assert v in multiset(VersionsAt(versions));
    }
    SlicesInOrder(ordered);
    VersionsSortOneWay(VersionsAt(versions), VersionsAt(ordered));
  }

  lemma SlicesInOrder(ordered: seq<VersionSlice>)
    requires InOrder(ordered, SliceKey, VersionBefore)
    ensures InOrder(VersionsAt(ordered), VersionSortKey, VersionBefore)
  {
    hide VersionBefore, VersionsAt;
    forall i, j | 0 <= i < j < |ordered|
      ensures !VersionBefore(VersionSortKey(VersionsAt(ordered)[j]), VersionSortKey(VersionsAt(ordered)[i]))
    {
      assert !VersionBefore(SliceKey(ordered[j]), SliceKey(ordered[i]));
    }
  }

  // A permutation of slices is a permutation of what they hold.
  lemma SameElements(a: seq<VersionSlice>, b: seq<VersionSlice>)
    requires multiset(a) == multiset(b)
    ensures multiset(VersionsAt(a)) == multiset(VersionsAt(b))
  {
    hide VersionsAt, VersionAt;
    forall v ensures v in a <==> v in b {
      assert v in a <==> v in multiset(a);
      assert v in b <==> v in multiset(b);
    }
    var held := map v | v in a :: VersionAt(v);
    assert Image(held, a) == VersionsAt(a);
    assert Image(held, b) == VersionsAt(b);
    ImagePermutes(held, a, b);
  }

  lemma VersionsSortOneWay(versions: seq<RoleVersion>, ordered: seq<RoleVersion>)
    requires forall a, b | a in versions && b in versions && VersionSortKey(a) == VersionSortKey(b) :: a == b
    requires multiset(ordered) == multiset(versions) && InOrder(ordered, VersionSortKey, VersionBefore)
    ensures ordered == SortedForm(versions, VersionSortKey, VersionBefore)
  {
    KeysOrdered();
    SortedFormSorts(versions, VersionSortKey, VersionBefore);
    forall x, y | x in ordered && y in ordered && VersionSortKey(x) == VersionSortKey(y) ensures x == y {
      assert x in multiset(versions) && y in multiset(versions);
    }
    OneSortedForm(ordered, SortedForm(versions, VersionSortKey, VersionBefore), VersionSortKey, VersionBefore);
  }

  // ---------- The result does not depend on any order ----------

  // The same version with its grants in another order.
  ghost predicate SameVersion(a: RoleVersion, b: RoleVersion) {
    b == a.(grants := b.grants) && multiset(a.grants) == multiset(b.grants) && KnownScopes(a.grants)
  }

  ghost predicate SameVersions(a: seq<RoleVersion>, b: seq<RoleVersion>) {
    |a| == |b| && forall i | 0 <= i < |a| :: SameVersion(a[i], b[i])
  }

  lemma {:induction false} SameInserted(a: seq<RoleVersion>, b: seq<RoleVersion>, x: RoleVersion, y: RoleVersion)
    requires SameVersions(a, b) && SameVersion(x, y)
    ensures SameVersions(Inserted(a, x, VersionSortKey, VersionBefore), Inserted(b, y, VersionSortKey, VersionBefore))
  {
    hide SameVersion, VersionBefore;
    SameKey(x, y);
    if a != [] {
      SameKey(a[0], b[0]);
      if VersionBefore(VersionSortKey(a[0]), VersionSortKey(x)) {
        SameInserted(a[1..], b[1..], x, y);
      }
    }
  }

  lemma SameKey(a: RoleVersion, b: RoleVersion)
    requires SameVersion(a, b)
    ensures VersionSortKey(a) == VersionSortKey(b)
  {
  }

  // Sorting versions looks at their keys only.
  lemma {:induction false} SameSorted(a: seq<RoleVersion>, b: seq<RoleVersion>)
    requires SameVersions(a, b)
    ensures SameVersions(SortedForm(a, VersionSortKey, VersionBefore), SortedForm(b, VersionSortKey, VersionBefore))
  {
    if a != [] {
      SameSorted(a[1..], b[1..]);
      SameInserted(SortedForm(a[1..], VersionSortKey, VersionBefore), SortedForm(b[1..], VersionSortKey, VersionBefore),
                   a[0], b[0]);
    }
  }

  lemma SameNormal(a: RoleVersion, b: RoleVersion)
    requires SameVersion(a, b)
    ensures NormalVersion(a) == NormalVersion(b)
  {
    KeysOrdered();
    SortedFormSorts(b.grants, GrantSortKey, KeyLess);
    GrantsSortOneWay(a.grants, SortedGrantList(b.grants));
  }

  // Two snapshots of the same rows: every list permuted, and within each version its grants.
  ghost predicate SameRows(s: Snapshot, t: Snapshot) {
    && t.format == s.format && t.tenantID == s.tenantID && t.audit == s.audit
    && multiset(t.roles) == multiset(s.roles) && multiset(t.grants) == multiset(s.grants)
    && multiset(t.edges) == multiset(s.edges)
    && exists middle :: SameVersions(s.versions, middle) && multiset(middle) == multiset(t.versions)
  }

  lemma ExportIgnoresOrder(s: Snapshot, t: Snapshot)
    requires Reachable(s) && Reachable(t) && SameRows(s, t)
    ensures Canonical(s) == Canonical(t)
  {
    hide KnownScopes, SortedForm, InOrder, SameVersion;
    RolesIgnoreOrder(s.roles, t.roles);
    EdgesIgnoreOrder(s.edges, t.edges);
    GrantsIgnoreOrder(s.grants, t.grants);
    var middle :| SameVersions(s.versions, middle) && multiset(middle) == multiset(t.versions);
    VersionsIgnoreOrder(s.versions, middle, t.versions);
  }

  lemma RolesIgnoreOrder(a: seq<Role>, b: seq<Role>)
    requires multiset(a) == multiset(b) && forall x, y | x in a && y in a && x.roleID == y.roleID :: x == y
    ensures SortedForm(a, RoleKey, KeyLess) == SortedForm(b, RoleKey, KeyLess)
  {
    KeysOrdered();
    SortedFormSorts(a, RoleKey, KeyLess);
    SortedFormSorts(b, RoleKey, KeyLess);
    var list := SortedForm(a, RoleKey, KeyLess);
    forall x, y | x in list && y in list && RoleKey(x) == RoleKey(y) ensures x == y {
      assert x in multiset(a) && y in multiset(a) && RoleKey(x)[0] == RoleKey(y)[0];
    }
    OneSortedForm(list, SortedForm(b, RoleKey, KeyLess), RoleKey, KeyLess);
  }

  lemma EdgesIgnoreOrder(a: seq<EdgeKey>, b: seq<EdgeKey>)
    requires multiset(a) == multiset(b)
    ensures SortedForm(a, EdgeSortKey, KeyLess) == SortedForm(b, EdgeSortKey, KeyLess)
  {
    KeysOrdered();
    SortedFormSorts(a, EdgeSortKey, KeyLess);
    SortedFormSorts(b, EdgeSortKey, KeyLess);
    var list := SortedForm(a, EdgeSortKey, KeyLess);
    forall x, y | x in list && y in list && EdgeSortKey(x) == EdgeSortKey(y) ensures x == y {
      EdgeKeyInjective(x, y);
    }
    OneSortedForm(list, SortedForm(b, EdgeSortKey, KeyLess), EdgeSortKey, KeyLess);
  }

  lemma GrantsIgnoreOrder(a: seq<Grant>, b: seq<Grant>)
    requires multiset(a) == multiset(b) && KnownScopes(a)
    ensures SortedGrantList(a) == SortedGrantList(b)
  {
    KeysOrdered();
    SortedFormSorts(b, GrantSortKey, KeyLess);
    GrantsSortOneWay(a, SortedGrantList(b));
  }

  lemma VersionsIgnoreOrder(a: seq<RoleVersion>, middle: seq<RoleVersion>, b: seq<RoleVersion>)
    requires SameVersions(a, middle) && multiset(middle) == multiset(b)
    requires forall x, y | x in b && y in b && VersionSortKey(x) == VersionSortKey(y) :: x == y
    ensures NormalVersions(SortedForm(a, VersionSortKey, VersionBefore)) ==
              NormalVersions(SortedForm(b, VersionSortKey, VersionBefore))
  {
    hide KnownScopes, SortedGrantList, SameVersion;
    KeysOrdered();
    SortedFormSorts(middle, VersionSortKey, VersionBefore);
    VersionsSortOneWay(b, SortedForm(middle, VersionSortKey, VersionBefore));
    SameSorted(a, middle);
    var x, y := SortedForm(a, VersionSortKey, VersionBefore), SortedForm(middle, VersionSortKey, VersionBefore);
    forall i | 0 <= i < |x| ensures NormalVersion(x[i]) == NormalVersion(y[i]) {
      SameNormal(x[i], y[i]);
    }
  }

  // ---------- Exporting a tenant ----------

  // The lists that ranging over the maps of this tenant can give: every row once, in any order.
  ghost predicate Collected(t: Tenant, s: Snapshot) {
    && s.format == FORMAT && s.audit == t.audit
    && multiset(s.roles) == multiset(set id | id in t.roles :: t.roles[id]) && multiset(s.grants) == multiset(t.grants)
    && multiset(s.versions) == multiset(set key | key in t.versions :: t.versions[key])
    && multiset(s.edges) == multiset(t.edges)
  }

  // Rows carry their own keys and known scopes.
  ghost predicate KeyedRows(t: Tenant) {
    && (forall id | id in t.roles :: t.roles[id].roleID == id)
    && (forall key | key in t.versions ::
          (t.versions[key].roleID, t.versions[key].version) == key && KnownScopes(t.versions[key].grants))
    && (forall g | g in t.grants :: !g.scope.ScopeUnknown?)
  }

  lemma CollectedIsReachable(t: Tenant, s: Snapshot)
    requires KeyedRows(t) && Collected(t, s)
    ensures Reachable(s)
  {
    forall g | g in s.grants ensures !g.scope.ScopeUnknown? {
      assert g in multiset(s.grants);
    }
    forall a, b | a in s.roles && b in s.roles && a.roleID == b.roleID ensures a == b {
      assert a in multiset(s.roles) && b in multiset(s.roles);
    }
    forall v | v in s.versions ensures KnownScopes(v.grants) && VersionOf(t, v) {
      assert v in multiset(s.versions);
    }
  }

  ghost predicate VersionOf(t: Tenant, v: RoleVersion) {
    (v.roleID, v.version) in t.versions && t.versions[(v.roleID, v.version)] == v
  }

  // The same tenant is always exported as the same bytes.
  lemma ExportIsDetermined(t: Tenant, s: Snapshot, other: Snapshot)
    requires KeyedRows(t) && Collected(t, s) && Collected(t, other) && s.tenantID == other.tenantID
    ensures Canonical(s) == Canonical(other)
  {
    CollectedIsReachable(t, s);
    CollectedIsReachable(t, other);
    assert SameVersions(s.versions, s.versions);
    ExportIgnoresOrder(s, other);
  }

  // Ranging over a map: every row once, in any order.
  method ListRows<T(==)>(rows: set<T>) returns (list: seq<T>)
    ensures multiset(list) == multiset(rows)
  {
    list := [];
    var rest := rows;
    while rest != {}
      invariant rest <= rows && multiset(list) == multiset(rows - rest)
      decreases |rest|
    {
      var row :| row in rest;
      assert rows - (rest - {row}) == (rows - rest) + {row};
      list := list + [row];
      rest := rest - {row};
    }
    assert rows - rest == rows;
  }

  lemma VersionRows(m: Versions)
    ensures (set r, n | r in m && n in m[r] :: m[r][n]) == set key | key in VersionTable(m) :: VersionTable(m)[key]
  {
    forall r, n | r in m && n in m[r] ensures m[r][n] in set key | key in VersionTable(m) :: VersionTable(m)[key] {
      VersionTableAt(m, r, n);
      assert (r, n) in VersionTable(m);
    }
  }

  method CollectRows(tx: TenantState, tenantID: string) returns (s: Snapshot)
    requires tx.Valid()
    ensures Collected(tx.Value(), s) && s.tenantID == tenantID
  {
    hide TenantState.Valid, TenantState.Owned, TenantState.Value, VersionTable, PermIndex.Valid, BindingsIndex.Valid,
         VersionsIndex.Valid, PermIndex.Value, BindingsIndex.Value, VersionsIndex.Value, GrantSet, BindingTable,
         PermsValid;
    tx.Parts();
    var roles := ListRows(set id | id in tx.roles.rows :: tx.roles.rows[id]);
    var stored := tx.AllGrants();
    var grants := ListRows(stored);
    var snapshots := tx.AllSnapshots();
    var versions := ListRows(snapshots);
    var edges := ListRows(tx.grantEdges.keys);
    VersionRows(tx.roleVersions.Value());
    s := Snapshot(FORMAT, tenantID, roles, grants, versions, edges, tx.audit.events);
  }

  // cloneSnapshot of every version.
  method SliceVersions(list: seq<RoleVersion>) returns (versions: array<VersionSlice>)
    ensures VersionsAt(versions[..]) == list
  {
    var none := new Grant[0];
    versions := new VersionSlice[|list|](_ => VersionSlice("", 0, "", "", none, false, "", ""));
    for i := 0 to |list|
      invariant fresh(versions) && versions.Length == |list|
      invariant forall k | 0 <= k < i :: VersionAt(versions[k]) == list[k]
    {
      var v := list[i];
      var grants := new Grant[|v.grants|](k requires 0 <= k < |v.grants| => v.grants[k]);
      assert grants[..] == v.grants;
      versions[i] := VersionSlice(v.roleID, v.version, v.name, v.description, grants, v.deleted, v.createdBy,
                                  v.bootstrapInitiator);
    }
  }

  method SliceOf<T>(list: seq<T>) returns (slice: array<T>)
    ensures slice[..] == list
  {
    slice := new T[|list|](i requires 0 <= i < |list| => list[i]);
  }

  // The collected rows as slices.
  method MarshalRows(s: Snapshot, encode: Snapshot -> Bytes) returns (data: Bytes)
    requires Reachable(s)
    ensures data == encode(Canonical(s))
  {
    hide Reachable, Canonical, VersionsAt;
    var roles := SliceOf(s.roles);
    var grants := SliceOf(s.grants);
    var edges := SliceOf(s.edges);
    var versions := SliceVersions(s.versions);
    data := Marshal(s.format, s.tenantID, roles, grants, versions, edges, s.audit, encode);
  }

  // ExportTenant of the memory store.
  method ExportTenant(tx: TenantState, tenantID: string, encode: Snapshot -> Bytes) returns (data: Option<Bytes>)
    requires tx.Valid() && KeyedRows(tx.Value())
    ensures data.None? <==> tx.purged
    ensures data.Some? ==>
      exists s :: Collected(tx.Value(), s) && s.tenantID == tenantID && data.value == encode(Canonical(s))
  {
    hide Collected, Reachable, KeyedRows, Canonical, TenantState.Valid, TenantState.Value;
    if tx.purged {
      return None;
    }
    var s := CollectRows(tx, tenantID);
    CollectedIsReachable(tx.Value(), s);
    var bytes := MarshalRows(s, encode);
    return Some(bytes);
  }

  // ---------- Every reachable tenant can be exported canonically ----------

  ghost predicate KeyedVersions(t: Tenant) {
    forall key | key in t.versions ::
      (t.versions[key].roleID, t.versions[key].version) == key && KnownScopes(t.versions[key].grants)
  }

  // A step stores at most one snapshot, under its own number and with the role's grants.
  ghost predicate AddsSnapshot(t: Tenant, u: Tenant) {
    u.versions == t.versions || exists v: RoleVersion :: Adds(t, u, v)
  }

  ghost predicate Adds(t: Tenant, u: Tenant, v: RoleVersion) {
    u.versions == t.versions[(v.roleID, v.version) := v] && v.grants == SortedGrants(u, v.roleID)
  }

  lemma WithRoleAdds(base: Tenant, role: Role, createdBy: SubjectID, audit: seq<AuditEvent>)
    ensures AddsSnapshot(base, WithRole(base, role, createdBy).(audit := audit))
  {
    var u := WithRole(base, role, createdBy).(audit := audit);
    var stored := base.(roles := base.roles[role.roleID := role]);
    TenantInvariants.SameSorted(u, stored, role.roleID);
    assert Adds(base, u, Tenancy.Snapshot(stored, role, createdBy));
  }

  lemma RoleStepsAdd(cfg: Config, t: Tenant, actor: Principal, meta: Metadata, c: Command)
    requires c.CreateRole? || c.CreateRoleWithPermissions? || c.UpdateRole? || c.DeleteRole?
    ensures forall guard ::
      Mutate(cfg, guard, t, actor, meta, c).Ok? ==> AddsSnapshot(t, Mutate(cfg, guard, t, actor, meta, c).value.0)
  {
    hide AddsSnapshot, WithRole, RequireControl, RequireCoverAll, ValidCommand;
    forall base: Tenant, role: Role, audit: seq<AuditEvent> | base.versions == t.versions
      ensures AddsSnapshot(t, WithRole(base, role, actor.subjectID).(audit := audit))
    {
      WithRoleAdds(base, role, actor.subjectID, audit);
      SameVersionsAdd(base, t, WithRole(base, role, actor.subjectID).(audit := audit));
    }
  }

  lemma SameVersionsAdd(base: Tenant, t: Tenant, u: Tenant)
    requires base.versions == t.versions && AddsSnapshot(base, u)
    ensures AddsSnapshot(t, u)
  {
    if u.versions != t.versions {
      var v :| Adds(base, u, v);
      assert Adds(t, u, v);
    }
  }

  lemma MutateAdds(cfg: Config, guard: Guard, t: Tenant, actor: Principal, meta: Metadata, c: Command)
    requires Mutate(cfg, guard, t, actor, meta, c).Ok?
    ensures AddsSnapshot(t, Mutate(cfg, guard, t, actor, meta, c).value.0)
  {
    hide AddsSnapshot, WithRole, RequireControl, RequireCover, RequireRoleCoverage, GuardLastAdministrator;
    NoSnapshot(t, Mutate(cfg, guard, t, actor, meta, c).value.0);
    match c
    case GrantPermission(roleID, expected, permission, scope, roles) =>
      var grant := GrantOfInput(cfg, roleID, permission, scope, roles).value;
      if grant !in t.grants {
        GrantStepAdds(t, t.(grants := t.grants + {grant}), t.roles[grant.roleID], actor.subjectID,
                      Mutate(cfg, guard, t, actor, meta, c).value.0.audit);
      }
    case RevokePermission(roleID, expected, permission, scope, roles) =>
      var grant := GrantOfInput(cfg, roleID, permission, scope, roles).value;
      if grant in t.grants {
        GrantStepAdds(t, t.(grants := t.grants - {grant}), t.roles[grant.roleID], actor.subjectID,
                      Mutate(cfg, guard, t, actor, meta, c).value.0.audit);
      }
    case AssignRole(_, _, _) =>
    case UnassignRole(_, _, _) =>
    case _ => RoleStepsAdd(cfg, t, actor, meta, c);
  }

  lemma NoSnapshot(t: Tenant, u: Tenant)
    ensures u.versions == t.versions ==> AddsSnapshot(t, u)
  {
  }

  lemma GrantStepAdds(t: Tenant, base: Tenant, role: Role, createdBy: SubjectID, audit: seq<AuditEvent>)
    requires base.versions == t.versions
    ensures AddsSnapshot(t, WithRole(base, role.(version := role.version + 1), createdBy).(audit := audit))
  {
    WithRoleAdds(base, role.(version := role.version + 1), createdBy, audit);
    SameVersionsAdd(base, t, WithRole(base, role.(version := role.version + 1), createdBy).(audit := audit));
  }

  lemma SortedGrantsKnown(t: Tenant, roleID: RoleID)
    requires Structure(t)
    ensures KnownScopes(SortedGrants(t, roleID))
  {
    var items := RoleGrants(t, roleID);
    forall a, b | a in items && b in items && GrantOrder(a) == GrantOrder(b) ensures a == b {
      OrderInjective(a, b);
    }
    ListingExists(items, GrantOrder);
  }

  lemma StepKeepsKeyed(cfg: Config, guard: Guard, t: Tenant, actor: Principal, meta: Metadata, c: Command)
    requires Structure(t) && KeyedVersions(t) && Mutate(cfg, guard, t, actor, meta, c).Ok?
    ensures KeyedVersions(Mutate(cfg, guard, t, actor, meta, c).value.0)
  {
    hide Mutate, Structure;
    MutateKeeps(cfg, guard, t, actor, meta, c);
    MutateAdds(cfg, guard, t, actor, meta, c);
    var u := Mutate(cfg, guard, t, actor, meta, c).value.0;
    if u.versions != t.versions {
      var v :| Adds(t, u, v);
      SortedGrantsKnown(u, v.roleID);
    }
  }

  lemma {:induction false} RunKeepsKeyed(cfg: Config, guard: Guard, t: Tenant, actions: seq<Delegation.Action>)
    requires Structure(t) && KeyedVersions(t)
    ensures Structure(Delegation.Run(cfg, guard, t, actions)) && KeyedVersions(Delegation.Run(cfg, guard, t, actions))
  {
    hide Structure, KeyedVersions, Mutate;
    if actions != [] {
      var (before, last) := (actions[..|actions| - 1], actions[|actions| - 1]);
      RunKeepsKeyed(cfg, guard, t, before);
      var u := Delegation.Run(cfg, guard, t, before);
      MutateKeeps(cfg, guard, u, last.actor, last.meta, last.command);
      if Mutate(cfg, guard, u, last.actor, last.meta, last.command).Ok? {
        StepKeepsKeyed(cfg, guard, u, last.actor, last.meta, last.command);
      }
    }
  }

  lemma StructureKeyed(t: Tenant)
    requires Structure(t) && KeyedVersions(t)
    ensures KeyedRows(t)
  {
    forall id | id in t.roles ensures t.roles[id].roleID == id {
      assert RoleHistoryExact(t, id);
    }
  }

  // After bootstrap and any operations, every way of collecting the tenant's rows exports the same bytes.
  lemma ReachableExportIsDetermined(cfg: Config, input: BootstrapInput, initiator: string,
                                    actions: seq<Delegation.Action>, s: Snapshot, other: Snapshot)
    requires BootstrapTenant(cfg, EMPTY_TENANT, input, initiator).Ok?
    requires var t := Delegation.Run(cfg, KernelGuard, BootstrapTenant(cfg, EMPTY_TENANT, input, initiator).value,
                                     actions);
             Collected(t, s) && Collected(t, other)
    requires s.tenantID == other.tenantID
    ensures Canonical(s) == Canonical(other)
  {
    hide BootstrapTenant, Structure, Collected, Canonical, KeyedRows;
    var t0 := BootstrapTenant(cfg, EMPTY_TENANT, input, initiator).value;
    Delegation.BootstrapStructure(cfg, input, initiator);
    BootstrapKeyed(cfg, input, initiator);
    RunKeepsKeyed(cfg, KernelGuard, t0, actions);
    StructureKeyed(Delegation.Run(cfg, KernelGuard, t0, actions));
    ExportIsDetermined(Delegation.Run(cfg, KernelGuard, t0, actions), s, other);
  }

  lemma BootstrapKeyed(cfg: Config, input: BootstrapInput, initiator: string)
    requires BootstrapTenant(cfg, EMPTY_TENANT, input, initiator).Ok?
    ensures KeyedVersions(BootstrapTenant(cfg, EMPTY_TENANT, input, initiator).value)
  {
    hide BootstrapGrants;
    Delegation.BootstrapListing(cfg, input);
    forall g | g in BootstrapGrants(input) ensures !g.scope.ScopeUnknown? {
      Delegation.BootstrapRows(cfg, input, g);
    }
  }
}
