/** Manifests and provenance records of internal/coresync: validation, reading, and the record a sync wants. */
module Manifests {
  import opened Wrappers
  import opened FileSystem
  import opened Paths
  import opened Publication
  import Ordering
  import Text

  const SCHEMA_VERSION := 1
  const LICENSE := "Apache-2.0"
  const FILE_MODE: nat := 0x1A4

  datatype Entry = Entry(source: Path, destination: Path)

  datatype Manifest = Manifest(schema: int, repository: string, license: string, entries: seq<Entry>)

  datatype Record = Record(source: Path, destination: Path, digest: string)

  datatype Provenance = Provenance(
    schema: int, repository: string, commit: string, license: string, entries: seq<Record>)

  const EMPTY := Provenance(0, "", "", "", [])

  // JSON and SHA-256, of which only what Lawful says is used.
  datatype Codec = Codec(encode: Provenance -> Bytes, decode: Bytes -> Option<Provenance>, digest: Bytes -> string)

  predicate ValidCommit(s: string) {
    HexDigits(s) && (|s| == 40 || |s| == 64)
  }

  predicate ValidDigest(s: string) {
    HexDigits(s) && |s| == 64
  }

  ghost predicate ValidEntries(entries: seq<Entry>) {
    && (forall i | 0 <= i < |entries| :: SafePath(entries[i].source) && SafePath(entries[i].destination))
    && (forall i, k | 0 <= i < k < |entries| ::
          entries[i].source != entries[k].source && entries[i].destination != entries[k].destination)
  }

  ghost predicate ValidManifest(m: Manifest) {
    && m.schema == SCHEMA_VERSION
    && Text.TrimSpace(m.repository) != ""
    && m.license == LICENSE
    && m.entries != []
    && ValidEntries(m.entries)
  }

  function EntriesOf(records: seq<Record>): (entries: seq<Entry>)
    ensures |entries| == |records|
    ensures forall i | 0 <= i < |records| :: entries[i] == Entry(records[i].source, records[i].destination)
  {
    seq(|records|, i requires 0 <= i < |records| => Entry(records[i].source, records[i].destination))
  }

  ghost predicate ValidProvenance(p: Provenance) {
    && p.schema == SCHEMA_VERSION && Text.TrimSpace(p.repository) != "" && ValidCommit(p.commit) && p.license == LICENSE
    && p.entries != []
    && ValidEntries(EntriesOf(p.entries)) && forall i | 0 <= i < |p.entries| :: ValidDigest(p.entries[i].digest)
  }

  // Decoding what was encoded gives it back; digests are 64 hexadecimal digits.
  ghost predicate Lawful(c: Codec) {
    && (forall p | ValidProvenance(p) :: c.decode(c.encode(p)) == Some(p))
    && (forall b :: ValidDigest(c.digest(b)))
  }

  function Destinations(entries: seq<Entry>): (paths: seq<Path>)
    ensures |paths| == |entries| && forall i | 0 <= i < |entries| :: paths[i] == entries[i].destination
  {
    seq(|entries|, i requires 0 <= i < |entries| => entries[i].destination)
  }

  // ---------- Validation ----------

  method ValidateEntries(entries: seq<Entry>) returns (ok: bool)
    ensures ok <==> ValidEntries(entries)
  {
    var sources: set<Path>, destinations: set<Path> := {}, {};
    for i := 0 to |entries|
      invariant sources == set k | 0 <= k < i :: entries[k].source
      invariant destinations == set k | 0 <= k < i :: entries[k].destination
      invariant ValidEntries(entries[..i])
    {
      var e := entries[i];
      if !SafePath(e.source) || !SafePath(e.destination) || e.source in sources || e.destination in destinations {
        return false;
      }
      sources, destinations := sources + {e.source}, destinations + {e.destination};
    }
    assert entries[..|entries|] == entries;
    ok := true;
  }

  method ValidateManifest(m: Manifest) returns (ok: bool)
    ensures ok <==> ValidManifest(m)
  {
    if m.schema != SCHEMA_VERSION || Text.TrimSpace(m.repository) == "" || m.license != LICENSE || m.entries == [] {
      return false;
    }
    ok := ValidateEntries(m.entries);
  }

  method ValidateProvenance(p: Provenance) returns (ok: bool)
    ensures ok <==> ValidProvenance(p)
  {
    if p.schema != SCHEMA_VERSION || Text.TrimSpace(p.repository) == "" || !ValidCommit(p.commit)
       || p.license != LICENSE || p.entries == [] {
      return false;
    }
    for i := 0 to |p.entries|
      invariant forall k | 0 <= k < i :: ValidDigest(p.entries[k].digest)
    {
      if !ValidDigest(p.entries[i].digest) {
        return false;
      }
    }
    ok := ValidateEntries(EntriesOf(p.entries));
  }

  // ---------- Reading ----------

  function ContentAt(t: Tree, root: Inode, p: Path): Option<Bytes> {
    match Look(t, root, p)
    case Regular(ino) => if ino in t.files then Some(t.files[ino].content) else None
    case _ => None
  }

  function ModeAt(t: Tree, root: Inode, p: Path): Option<nat> {
    match Look(t, root, p)
    case Regular(ino) => if ino in t.files then Some(t.files[ino].mode) else None
    case _ => None
  }

  // What reading found at a path of this tree.
  ghost predicate Snapshot(t: Tree, root: Inode, p: Path, previous: Previous) {
    match previous
    case Absent => Look(t, root, p) == Missing
    case Present(ino, content, mode) =>
      Look(t, root, p) == Regular(ino) && ino in t.files && t.files[ino] == File(content, mode)
  }

  datatype Loaded = Loaded(snapshot: Previous, provenance: Provenance)

  ghost predicate LoadedFrom(t: Tree, root: Inode, path: Path, c: Codec, l: Loaded) {
    && Snapshot(t, root, path, l.snapshot)
    && match l.snapshot
       case Absent => l.provenance == EMPTY
       case Present(_, content, _) =>
         c.decode(content) == Some(l.provenance) && ValidProvenance(l.provenance)
         && PrefixFree(Destinations(EntriesOf(l.provenance.entries)) + [path])
  }

  method LoadProvenance(disk: Disk, root: Inode, path: Path, c: Codec) returns (r: Result<Loaded, ()>)
    requires disk.Valid() && SafePath(path)
    modifies disk.oracle
    ensures disk.oracle.failures >= old(disk.oracle.failures)
    ensures r.Ok? ==> LoadedFrom(disk.tree, root, path, c, r.value)
    ensures r.Err? && disk.oracle.failures == old(disk.oracle.failures) ==>
      forall l :: !LoadedFrom(disk.tree, root, path, c, l)
  {
    hide PrefixFree;
    var snapshot := ReadPath(disk, root, path, true);
    if snapshot.Err? {
      return Err(());
    }
    if snapshot.value.Absent? {
      return Ok(Loaded(Absent, EMPTY));
    }
    var decoded := c.decode(snapshot.value.content);
    if decoded.None? {
      return Err(());
    }
    var valid := ValidateProvenance(decoded.value);
    if !valid {
      return Err(());
    }
    var paths := Destinations(EntriesOf(decoded.value.entries)) + [path];
    var free := ValidatePathCollisions(paths);
    if !free {
      return Err(());
    }
    r := Ok(Loaded(snapshot.value, decoded.value));
  }

  // ---------- The desired provenance ----------

  datatype Prepared = Prepared(entry: Entry, content: Bytes)

  function DestinationKey(p: Prepared): Ordering.Key {
    [PathText(p.entry.destination)]
  }

  function RecordOf(p: Prepared, c: Codec): Record {
    Record(p.entry.source, p.entry.destination, c.digest(p.content))
  }

  function RecordsOf(prepared: seq<Prepared>, c: Codec): (records: seq<Record>)
    ensures |records| == |prepared| && forall i | 0 <= i < |prepared| :: records[i] == RecordOf(prepared[i], c)
  {
    seq(|prepared|, i requires 0 <= i < |prepared| => RecordOf(prepared[i], c))
  }

  ghost predicate SourcesReadable(m: Manifest, source: Tree, root: Inode) {
    forall i | 0 <= i < |m.entries| :: ContentAt(source, root, m.entries[i].source).Some?
  }

  // Every entry with the content of its source file, in no order.
  ghost function PreparedSet(m: Manifest, source: Tree, root: Inode): set<Prepared>
    requires SourcesReadable(m, source, root)
  {
    set i | 0 <= i < |m.entries| :: Prepared(m.entries[i], ContentAt(source, root, m.entries[i].source).value)
  }

  // The provenance: one record for each entry, in the order of the destinations.
  ghost function Desired(m: Manifest, commit: string, source: Tree, root: Inode, c: Codec): Provenance
    requires SourcesReadable(m, source, root)
  {
    Provenance(SCHEMA_VERSION, m.repository, commit, m.license,
               RecordsOf(Ordering.Listing(PreparedSet(m, source, root), DestinationKey), c))
  }

  lemma DistinctDestinations(m: Manifest, source: Tree, root: Inode)
    requires ValidEntries(m.entries) && SourcesReadable(m, source, root)
    ensures Ordering.DistinctKeys(PreparedSet(m, source, root), DestinationKey)
  {
    forall p, q | p in PreparedSet(m, source, root) && q in PreparedSet(m, source, root)
    && DestinationKey(p) == DestinationKey(q)
      ensures p == q
    {
      assert PathText(p.entry.destination) == DestinationKey(p)[0] ==
                                                DestinationKey(q)[0] == PathText(q.entry.destination);
      TextDeterminesPath(p.entry.destination, q.entry.destination);
    }
  }

  // A record of this entry: its paths, and the digest of what its source holds.
  ghost predicate RecordsEntry(r: Record, e: Entry, source: Tree, root: Inode, c: Codec) {
    && r.source == e.source && r.destination == e.destination
    && exists content :: ContentAt(source, root, e.source) == Some(content) && r.digest == c.digest(content)
  }

  // What a provenance says of this manifest at this commit: one record for every entry and no others, by
  // destination.
  ghost predicate Attests(p: Provenance, m: Manifest, commit: string, source: Tree, root: Inode, c: Codec) {
    && p.schema == 1 && p.repository == m.repository && p.commit == commit && p.license == m.license
    && (forall e | e in m.entries :: exists r :: r in p.entries && RecordsEntry(r, e, source, root, c))
    && (forall r | r in p.entries :: exists e :: e in m.entries && RecordsEntry(r, e, source, root, c))
    && (forall i, k | 0 <= i < k < |p.entries| ::
          Ordering.StringLess(PathText(p.entries[i].destination), PathText(p.entries[k].destination)))
  }

  function RecordKey(r: Record): Ordering.Key {
    [PathText(r.destination)]
  }

  // Exactly one provenance does, and it is the desired one.
  lemma AttestsExactly(p: Provenance, m: Manifest, commit: string, source: Tree, root: Inode, c: Codec)
    requires ValidEntries(m.entries) && SourcesReadable(m, source, root)
    ensures Attests(p, m, commit, source, root, c) <==> p == Desired(m, commit, source, root, c)
  {
    var desired := Desired(m, commit, source, root, c);
    DesiredAttests(m, commit, source, root, c);
    if Attests(p, m, commit, source, root, c) {
      AttestedRecords(p, desired, m, commit, source, root, c);
      AttestedRecords(desired, p, m, commit, source, root, c);
      RecordsIncrease(p, m, commit, source, root, c);
      RecordsIncrease(desired, m, commit, source, root, c);
      Ordering.ListingUnique(p.entries, desired.entries, Ordering.Elements(p.entries), RecordKey);
    }
  }

  lemma DesiredAttests(m: Manifest, commit: string, source: Tree, root: Inode, c: Codec)
    requires ValidEntries(m.entries) && SourcesReadable(m, source, root)
    ensures Attests(Desired(m, commit, source, root, c), m, commit, source, root, c)
  {
    var p := Desired(m, commit, source, root, c);
    var prepared := Ordering.Listing(PreparedSet(m, source, root), DestinationKey);
    DistinctDestinations(m, source, root);
    Ordering.ListingExists(PreparedSet(m, source, root), DestinationKey);
    ListingEntries(m, source, root, prepared);
    forall e | e in m.entries ensures exists r :: r in p.entries && RecordsEntry(r, e, source, root, c) {
      var i :| 0 <= i < |prepared| && prepared[i].entry == e;
      assert p.entries[i] in p.entries && RecordsEntry(p.entries[i], e, source, root, c);
    }
    forall r | r in p.entries ensures exists e :: e in m.entries && RecordsEntry(r, e, source, root, c) {
      var i :| 0 <= i < |p.entries| && p.entries[i] == r;
      assert prepared[i].entry in m.entries && RecordsEntry(r, prepared[i].entry, source, root, c);
    }
    forall i, k | 0 <= i < k < |p.entries|
      ensures Ordering.StringLess(PathText(p.entries[i].destination), PathText(p.entries[k].destination))
    {
      Ordering.KeyOfOne(DestinationKey(prepared[i])[0], DestinationKey(prepared[k])[0]);
    }
  }

  lemma RecordsIncrease(p: Provenance, m: Manifest, commit: string, source: Tree, root: Inode, c: Codec)
    requires Attests(p, m, commit, source, root, c)
    ensures Ordering.Increasing(p.entries, RecordKey)
  {
    forall i, k | 0 <= i < k < |p.entries|
      ensures Ordering.KeyLess(RecordKey(p.entries[i]), RecordKey(p.entries[k]))
    {
      Ordering.KeyOfOne(PathText(p.entries[i].destination), PathText(p.entries[k].destination));
    }
  }

  lemma AttestedRecords(p: Provenance, q: Provenance, m: Manifest, commit: string, source: Tree, root: Inode,
                        c: Codec)
    requires Attests(p, m, commit, source, root, c) && Attests(q, m, commit, source, root, c)
    ensures forall r | r in p.entries :: r in q.entries
  {
    hide ContentAt, PathText;
    forall r | r in p.entries ensures r in q.entries {
      var e :| e in m.entries && RecordsEntry(r, e, source, root, c);
      var other :| other in q.entries && RecordsEntry(other, e, source, root, c);
      assert other == r;
    }
  }

  // The same entries in another order give the same provenance.
  lemma ProvenanceIgnoresOrder(m: Manifest, other: Manifest, commit: string, source: Tree, root: Inode, c: Codec)
    requires multiset(m.entries) == multiset(other.entries) && m == other.(entries := m.entries)
    requires SourcesReadable(m, source, root) && SourcesReadable(other, source, root)
    ensures Desired(m, commit, source, root, c) == Desired(other, commit, source, root, c)
  {
    forall p | p in PreparedSet(m, source, root) ensures p in PreparedSet(other, source, root) {
      assert p.entry in multiset(m.entries);
    }
    forall p | p in PreparedSet(other, source, root) ensures p in PreparedSet(m, source, root) {
      assert p.entry in multiset(other.entries);
    }
    assert PreparedSet(m, source, root) == PreparedSet(other, source, root);
  }

  method ReadSources(m: Manifest, source: Disk, root: Inode) returns (r: Result<seq<Prepared>, ()>)
    requires source.Valid() && ValidEntries(m.entries)
    modifies source.oracle
    ensures source.oracle.failures >= old(source.oracle.failures)
    ensures r.Ok? ==> SourcesReadable(m, source.tree, root) && |r.value| == |m.entries|
    ensures r.Ok? ==>
      forall i | 0 <= i < |r.value| ::
        r.value[i] == Prepared(m.entries[i], ContentAt(source.tree, root, m.entries[i].source).value)
    ensures r.Err? && source.oracle.failures == old(source.oracle.failures) ==> !SourcesReadable(m, source.tree, root)
  {
    var prepared: seq<Prepared> := [];
    for i := 0 to |m.entries|
      invariant |prepared| == i && source.oracle.failures >= old(source.oracle.failures)
      invariant forall k | 0 <= k < i :: ContentAt(source.tree, root, m.entries[k].source).Some?
      invariant forall k | 0 <= k < i ::
        prepared[k] == Prepared(m.entries[k], ContentAt(source.tree, root, m.entries[k].source).value)
    {
      var file := ReadPath(source, root, m.entries[i].source, false);
      if file.Err? {
        return Err(());
      }
      prepared := prepared + [Prepared(m.entries[i], file.value.content)];
    }
    r := Ok(prepared);
  }

  // Reads every source and sorts by destination.
  method Prepare(m: Manifest, source: Disk, root: Inode) returns (r: Result<seq<Prepared>, ()>)
    requires source.Valid() && ValidEntries(m.entries)
    modifies source.oracle
    ensures source.oracle.failures >= old(source.oracle.failures)
    ensures r.Ok? ==>
      && SourcesReadable(m, source.tree, root)
      && r.value == Ordering.Listing(PreparedSet(m, source.tree, root), DestinationKey)
    ensures r.Ok? ==> Ordering.IsListing(r.value, PreparedSet(m, source.tree, root), DestinationKey)
    ensures r.Err? && source.oracle.failures == old(source.oracle.failures) ==> !SourcesReadable(m, source.tree, root)
  {
    r := ReadSources(m, source, root);
    if r.Ok? {
      assert Ordering.Elements(r.value) == PreparedSet(m, source.tree, root);
      DistinctDestinations(m, source.tree, root);
      assert Ordering.NoDuplicates(r.value) by {
        forall i, k | 0 <= i < k < |r.value| ensures r.value[i] != r.value[k] {
          assert m.entries[i].source != m.entries[k].source;
        }
      }
      var sorted := Ordering.SortByKey(r.value, DestinationKey);
      r := Ok(sorted);
    }
  }

  // ---------- The desired provenance is valid ----------

  lemma PrefixFreeSubset(paths: seq<Path>, others: seq<Path>)
    requires PrefixFree(paths) && Distinct(others) && forall p | p in others :: p in paths
    ensures PrefixFree(others)
  {
    forall i, k | 0 <= i < |others| && 0 <= k < |others| && i != k ensures !(others[i] <= others[k]) {
      assert others[i] in paths && others[k] in paths && others[i] != others[k];
      var j :| 0 <= j < |paths| && paths[j] == others[i];
      var l :| 0 <= l < |paths| && paths[l] == others[k];
    }
  }

  // What a listing of the prepared entries looks like.
  lemma ListingEntries(m: Manifest, source: Tree, root: Inode, prepared: seq<Prepared>)
    requires ValidEntries(m.entries) && SourcesReadable(m, source, root)
    requires Ordering.IsListing(prepared, PreparedSet(m, source, root), DestinationKey)
    ensures forall i | 0 <= i < |prepared| ::
      prepared[i].entry in m.entries && ContentAt(source, root, prepared[i].entry.source) == Some(prepared[i].content)
    ensures forall i, k | 0 <= i < k < |prepared| ::
      && prepared[i].entry.source != prepared[k].entry.source
      && prepared[i].entry.destination != prepared[k].entry.destination
    ensures forall e | e in m.entries :: exists i :: 0 <= i < |prepared| && prepared[i].entry == e
  {
    forall i | 0 <= i < |prepared|
      ensures && prepared[i].entry in m.entries
              && ContentAt(source, root, prepared[i].entry.source) == Some(prepared[i].content)
    {
      assert prepared[i] in prepared;
      assert prepared[i] in PreparedSet(m, source, root);
    }
    forall i, k | 0 <= i < k < |prepared|
      ensures prepared[i].entry.source != prepared[k].entry.source
      ensures prepared[i].entry.destination != prepared[k].entry.destination
    {
      Ordering.KeyOrder(DestinationKey(prepared[i]), DestinationKey(prepared[k]), []);
      assert prepared[i].entry != prepared[k].entry;
      EntriesDiffer(m, prepared[i].entry, prepared[k].entry);
    }
    forall e | e in m.entries ensures exists i :: 0 <= i < |prepared| && prepared[i].entry == e {
      var j :| 0 <= j < |m.entries| && m.entries[j] == e;
      var p := Prepared(m.entries[j], ContentAt(source, root, m.entries[j].source).value);
      assert p in PreparedSet(m, source, root);
      assert p in prepared;
    }
  }

  lemma EntriesDiffer(m: Manifest, a: Entry, b: Entry)
    requires ValidEntries(m.entries) && a in m.entries && b in m.entries && a != b
    ensures a.source != b.source && a.destination != b.destination
  {
    var i :| 0 <= i < |m.entries| && m.entries[i] == a;
    var k :| 0 <= k < |m.entries| && m.entries[k] == b;
    assert i < k || k < i;
  }

  ghost predicate Accepted(m: Manifest, commit: string, path: Path) {
    ValidManifest(m) && ValidCommit(commit) && SafePath(path) && PrefixFree(Destinations(m.entries) + [path])
  }

  lemma DesiredValid(m: Manifest, commit: string, path: Path, source: Tree, root: Inode, c: Codec)
    requires Accepted(m, commit, path) && SourcesReadable(m, source, root) && Lawful(c)
    ensures ValidProvenance(Desired(m, commit, source, root, c))
    ensures PrefixFree(Destinations(EntriesOf(Desired(m, commit, source, root, c).entries)) + [path])
  {
    var prepared := Ordering.Listing(PreparedSet(m, source, root), DestinationKey);
    DistinctDestinations(m, source, root);
    Ordering.ListingExists(PreparedSet(m, source, root), DestinationKey);
    ListingEntries(m, source, root, prepared);
    var entries := EntriesOf(Desired(m, commit, source, root, c).entries);
    PreparedValid(m, entries, prepared);
    assert m.entries[0] in m.entries;
    PreparedPrefixFree(m, path, entries, prepared);
  }

  lemma PreparedValid(m: Manifest, entries: seq<Entry>, prepared: seq<Prepared>)
    requires ValidEntries(m.entries) && |entries| == |prepared|
    requires forall i | 0 <= i < |prepared| :: prepared[i].entry in m.entries && entries[i] == prepared[i].entry
    requires forall i, k | 0 <= i < k < |prepared| ::
      && prepared[i].entry.source != prepared[k].entry.source
      && prepared[i].entry.destination != prepared[k].entry.destination
    ensures ValidEntries(entries)
  {
  }

  lemma PreparedPrefixFree(m: Manifest, path: Path, entries: seq<Entry>, prepared: seq<Prepared>)
    requires PrefixFree(Destinations(m.entries) + [path]) && |entries| == |prepared|
    requires forall i | 0 <= i < |prepared| :: prepared[i].entry in m.entries && entries[i] == prepared[i].entry
    requires forall i, k | 0 <= i < k < |prepared| :: prepared[i].entry.destination != prepared[k].entry.destination
    ensures PrefixFree(Destinations(entries) + [path])
  {
    var paths, others := Destinations(m.entries) + [path], Destinations(entries) + [path];
    forall p | p in others ensures p in paths {
      var i :| 0 <= i < |others| && others[i] == p;
      if i < |entries| {
        var j :| 0 <= j < |m.entries| && m.entries[j] == prepared[i].entry;
        assert paths[j] == p;
      } else {
        assert paths[|m.entries|] == p;
      }
    }
    forall i, k | 0 <= i < k < |others| ensures others[i] != others[k] {
      if k == |entries| {
        var j :| 0 <= j < |m.entries| && m.entries[j] == prepared[i].entry;
        assert !(paths[j] <= paths[|m.entries|]) && others[i] == paths[j];
      }
    }
    PrefixFreeSubset(paths, others);
  }
}
