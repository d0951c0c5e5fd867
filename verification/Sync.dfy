/** Sync and Verify of internal/coresync, from the validated inputs to the published tree. */
module Sync {
  import opened Wrappers
  import opened FileSystem
  import opened Paths
  import opened Publication
  import opened Manifests
  import Ordering
  import Parents
  import Publisher

  // ---------- Before anything is written ----------

  // The inputs are valid, the existing provenance belongs to the same repository and names no
  // destination that the manifest dropped, and every source can be read.
  ghost predicate Begun(m: Manifest, commit: string, path: Path, l: Loaded, source: Tree, sourceRoot: Inode, t: Tree,
                        root: Inode, c: Codec)
  {
    && Accepted(m, commit, path) && LoadedFrom(t, root, path, c, l) && SourcesReadable(m, source, sourceRoot)
    && (l.snapshot.Present? ==> l.provenance.repository == m.repository)
    && NothingDropped(m, l.provenance)
  }

  ghost predicate NothingDropped(m: Manifest, p: Provenance) {
    forall i | 0 <= i < |p.entries| :: p.entries[i].destination in Destinations(m.entries)
  }

  method CheckNothingDropped(m: Manifest, p: Provenance) returns (ok: bool)
    ensures ok <==> NothingDropped(m, p)
  {
    var current := Destinations(m.entries);
    for i := 0 to |p.entries|
      invariant forall k | 0 <= k < i :: p.entries[k].destination in current
    {
      if p.entries[i].destination !in current {
        return false;
      }
    }
    ok := true;
  }

  // openContainedRoot: inspecting the directory, opening it, and inspecting it again.
  method OpenRoot(disk: Disk) returns (failed: bool)
    modifies disk.oracle
    ensures disk.oracle.failures >= old(disk.oracle.failures) + if failed then 1 else 0
  {
    failed := disk.Touch();
    if !failed {
      failed := disk.Touch();
    }
    if !failed {
      failed := disk.Touch();
    }
  }

  method Begin(m: Manifest, commit: string, path: Path, source: Disk, sourceRoot: Inode, disk: Disk, root: Inode,
               c: Codec)
    returns (r: Result<(Loaded, seq<Prepared>), ()>)
    requires disk.Valid() && source.Valid() && source.oracle == disk.oracle
    modifies disk.oracle
    ensures disk.oracle.failures >= old(disk.oracle.failures)
    ensures r.Ok? ==> Begun(m, commit, path, r.value.0, source.tree, sourceRoot, disk.tree, root, c)
    ensures r.Ok? ==> Ordering.IsListing(r.value.1, PreparedSet(m, source.tree, sourceRoot), DestinationKey)
    ensures r.Ok? ==> RecordsOf(r.value.1, c) == Desired(m, commit, source.tree, sourceRoot, c).entries
    ensures r.Err? && disk.oracle.failures == old(disk.oracle.failures) ==>
      forall l :: !Begun(m, commit, path, l, source.tree, sourceRoot, disk.tree, root, c)
  {
    hide LoadedFrom, PrefixFree, SourcesReadable;
    var ok := ValidateManifest(m);
    if !ok || !ValidCommit(commit) || !SafePath(path) {
      return Err(());
    }
    ok := ValidatePathCollisions(Destinations(m.entries) + [path]);
    if !ok {
      return Err(());
    }
    var failed := OpenRoot(source);
    if failed {
      return Err(());
    }
    failed := OpenRoot(disk);
    if failed {
      return Err(());
    }
    var loaded := LoadProvenance(disk, root, path, c);
    if loaded.Err? {
      return Err(());
    }
    LoadedOnce(disk.tree, root, path, c, loaded.value);
    if loaded.value.snapshot.Present? && loaded.value.provenance.repository != m.repository {
      return Err(());
    }
    ok := CheckNothingDropped(m, loaded.value.provenance);
    if !ok {
      return Err(());
    }
    var prepared := Manifests.Prepare(m, source, sourceRoot);
    if prepared.Err? {
      return Err(());
    }
    r := Ok((loaded.value, prepared.value));
  }

  // A tree determines what is loaded from it.
  lemma LoadedOnce(t: Tree, root: Inode, path: Path, c: Codec, l: Loaded)
    requires LoadedFrom(t, root, path, c, l)
    ensures forall other | LoadedFrom(t, root, path, c, other) :: other == l
  {
  }

  // ---------- The destinations ----------

  // What check mode wants of a destination, and what publishing wants of it.
  ghost predicate Current(t: Tree, root: Inode, p: Prepared, managed: map<Path, Record>, c: Codec) {
    && p.entry.destination in managed && ContentAt(t, root, p.entry.destination).Some?
    && c.digest(ContentAt(t, root, p.entry.destination).value) == c.digest(p.content)
  }

  ghost predicate Publishable(t: Tree, root: Inode, p: Prepared, managed: map<Path, Record>, c: Codec) {
    if p.entry.destination in managed then
      && ContentAt(t, root, p.entry.destination).Some?
      && c.digest(ContentAt(t, root, p.entry.destination).value) == managed[p.entry.destination].digest
    else Look(t, root, p.entry.destination) == Missing
  }

  method Inspect(disk: Disk, root: Inode, prepared: seq<Prepared>, managed: map<Path, Record>, check: bool, c: Codec)
    returns (r: Result<seq<Previous>, ()>)
    requires disk.Valid() && forall i | 0 <= i < |prepared| :: prepared[i].entry.destination != []
    modifies disk.oracle
    ensures disk.oracle.failures >= old(disk.oracle.failures)
    ensures r.Ok? && check ==> forall i | 0 <= i < |prepared| :: Current(disk.tree, root, prepared[i], managed, c)
    ensures r.Ok? && !check ==> forall i | 0 <= i < |prepared| :: Publishable(disk.tree, root, prepared[i], managed, c)
    ensures r.Ok? && !check ==> |r.value| == |prepared| && forall i | 0 <= i < |prepared| ::
      && Snapshot(disk.tree, root, prepared[i].entry.destination, r.value[i])
      && (r.value[i].Present? <==> prepared[i].entry.destination in managed)
    ensures r.Err? && disk.oracle.failures == old(disk.oracle.failures) ==>
      exists i | 0 <= i < |prepared| ::
        if check then !Current(disk.tree, root, prepared[i], managed, c)
        else !Publishable(disk.tree, root, prepared[i], managed, c)
  {
    var previous: seq<Previous> := [];
    for i := 0 to |prepared|
      invariant disk.oracle.failures >= old(disk.oracle.failures) && |previous| == i
      invariant check ==> forall k | 0 <= k < i :: Current(disk.tree, root, prepared[k], managed, c)
      invariant !check ==> forall k | 0 <= k < i :: Publishable(disk.tree, root, prepared[k], managed, c)
      invariant !check ==> forall k | 0 <= k < i ::
        && Snapshot(disk.tree, root, prepared[k].entry.destination, previous[k])
        && (previous[k].Present? <==> prepared[k].entry.destination in managed)
    {
      var path := prepared[i].entry.destination;
      var snapshot := ReadPath(disk, root, path, true);
      if snapshot.Err? {
        return Err(());
      }
      var present := snapshot.value.Present?;
      if present && path !in managed {
        return Err(());
      }
      if check {
        if !present || c.digest(snapshot.value.content) != c.digest(prepared[i].content) {
          return Err(());
        }
      } else if path in managed && (!present || c.digest(snapshot.value.content) != managed[path].digest) {
        return Err(());
      }
      previous := previous + [snapshot.value];
    }
    r := Ok(previous);
  }

  // managed[entry.Destination] = entry
  method ManagedFiles(p: Provenance) returns (managed: map<Path, Record>)
    requires p == EMPTY || ValidProvenance(p)
    ensures managed.Keys == set i | 0 <= i < |p.entries| :: p.entries[i].destination
    ensures forall i | 0 <= i < |p.entries| ::
      p.entries[i].destination in managed && managed[p.entries[i].destination] == p.entries[i]
  {
    managed := map[];
    DistinctRecords(p);
    hide ValidProvenance;
    for i := 0 to |p.entries|
      invariant managed.Keys == set k | 0 <= k < i :: p.entries[k].destination
      invariant forall k | 0 <= k < i ::
        p.entries[k].destination in managed && managed[p.entries[k].destination] == p.entries[k]
    {
      managed := managed[p.entries[i].destination := p.entries[i]];
    }
  }

  lemma DistinctRecords(p: Provenance)
    requires p == EMPTY || ValidProvenance(p)
    ensures forall i, k | 0 <= i < k < |p.entries| :: p.entries[i].destination != p.entries[k].destination
  {
    forall i, k | 0 <= i < k < |p.entries| ensures p.entries[i].destination != p.entries[k].destination {
      assert EntriesOf(p.entries)[i].destination != EntriesOf(p.entries)[k].destination;
    }
  }

  // ---------- Check mode and Verify ----------

  ghost predicate SameDigest(t: Tree, root: Inode, e: Manifests.Entry, source: Tree, sourceRoot: Inode, c: Codec)
    requires ContentAt(source, sourceRoot, e.source).Some?
  {
    && ContentAt(t, root, e.destination).Some?
    && c.digest(ContentAt(t, root, e.destination).value) == c.digest(ContentAt(source, sourceRoot, e.source).value)
  }

  // The file at the path is a provenance that says exactly this of the manifest at this commit.
  ghost predicate ShowsProvenance(m: Manifest, commit: string, path: Path, source: Tree, sourceRoot: Inode, t: Tree,
                                  root: Inode, c: Codec)
  {
    exists p :: ContentAt(t, root, path) == Some(c.encode(p)) && Attests(p, m, commit, source, sourceRoot, c)
  }

  lemma ShowsDesired(m: Manifest, commit: string, path: Path, source: Tree, sourceRoot: Inode, t: Tree, root: Inode,
                     c: Codec)
    requires ValidEntries(m.entries) && SourcesReadable(m, source, sourceRoot)
    ensures ShowsProvenance(m, commit, path, source, sourceRoot, t, root, c) <==>
      ContentAt(t, root, path) == Some(c.encode(Desired(m, commit, source, sourceRoot, c)))
  {
    hide ContentAt, Attests, Desired;
    AttestsExactly(Desired(m, commit, source, sourceRoot, c), m, commit, source, sourceRoot, c);
    forall p | Attests(p, m, commit, source, sourceRoot, c) ensures p == Desired(m, commit, source, sourceRoot, c) {
      AttestsExactly(p, m, commit, source, sourceRoot, c);
    }
  }

  // What decoding the file at the path gives.
  function DecodedAt(t: Tree, root: Inode, path: Path, c: Codec): Option<Provenance> {
    match ContentAt(t, root, path)
    case Some(content) => c.decode(content)
    case None => None
  }

  // A reader of the tree learns from it what was synced, and from where.
  lemma ProvenanceReads(m: Manifest, commit: string, path: Path, source: Tree, sourceRoot: Inode, t: Tree, root: Inode,
                        c: Codec)
    requires Lawful(c) && UpToDate(m, commit, path, source, sourceRoot, t, root, c)
    ensures exists p :: DecodedAt(t, root, path, c) == Some(p) && Attests(p, m, commit, source, sourceRoot, c)
  {
    hide ContentAt, PrefixFree, Attests, Desired;
    ShowsDesired(m, commit, path, source, sourceRoot, t, root, c);
    DesiredValid(m, commit, path, source, sourceRoot, c);
    AttestsExactly(Desired(m, commit, source, sourceRoot, c), m, commit, source, sourceRoot, c);
  }

  // So no tree is up to date for two commits, two repositories or two licenses, whatever manifests and sources.
  lemma OneCommit(m: Manifest, commit: string, source: Tree, sourceRoot: Inode, other: Manifest, otherCommit: string,
                  otherSource: Tree, otherRoot: Inode, path: Path, t: Tree, root: Inode, c: Codec)
    requires Lawful(c)
    requires UpToDate(m, commit, path, source, sourceRoot, t, root, c)
    requires UpToDate(other, otherCommit, path, otherSource, otherRoot, t, root, c)
    ensures commit == otherCommit && m.repository == other.repository && m.license == other.license
  {
    hide UpToDate;
    ProvenanceReads(m, commit, path, source, sourceRoot, t, root, c);
    ProvenanceReads(other, otherCommit, path, otherSource, otherRoot, t, root, c);
  }

  // The destination tree shows the source content, and the provenance of exactly this content.
  ghost predicate UpToDate(m: Manifest, commit: string, path: Path, source: Tree, sourceRoot: Inode, t: Tree,
                           root: Inode, c: Codec)
  {
    && Accepted(m, commit, path) && SourcesReadable(m, source, sourceRoot)
    && ShowsProvenance(m, commit, path, source, sourceRoot, t, root, c)
    && forall i | 0 <= i < |m.entries| :: SameDigest(t, root, m.entries[i], source, sourceRoot, c)
  }

  method Check(m: Manifest, commit: string, path: Path, source: Disk, sourceRoot: Inode, disk: Disk, root: Inode,
               c: Codec)
    returns (ok: bool)
    requires disk.Valid() && source.Valid() && source.oracle == disk.oracle && Lawful(c)
    modifies disk.oracle
    ensures disk.oracle.failures >= old(disk.oracle.failures)
    ensures ok ==> UpToDate(m, commit, path, source.tree, sourceRoot, disk.tree, root, c)
    ensures ok ==> exists p :: DecodedAt(disk.tree, root, path, c) == Some(p) && p.commit == commit
                               && Attests(p, m, commit, source.tree, sourceRoot, c)
    ensures disk.oracle.failures == old(disk.oracle.failures) ==>
      (ok <==> UpToDate(m, commit, path, source.tree, sourceRoot, disk.tree, root, c))
  {
    hide Begun, UpToDate, Current, Publishable, DecodedAt;
    var begun := Begin(m, commit, path, source, sourceRoot, disk, root, c);
    if begun.Err? {
      if UpToDate(m, commit, path, source.tree, sourceRoot, disk.tree, root, c) {
        ghost var own := UpToDateBegins(m, commit, path, source.tree, sourceRoot, disk.tree, root, c);
      }
      return false;
    }
    var (loaded, prepared) := begun.value;
    BegunFacts(m, commit, path, loaded, source.tree, sourceRoot, disk.tree, root, c, prepared);
    var managed := ManagedFiles(loaded.provenance);
    var inspected := Inspect(disk, root, prepared, managed, true, c);
    if inspected.Err? {
      if UpToDate(m, commit, path, source.tree, sourceRoot, disk.tree, root, c) {
        UpToDateIsCurrent(m, commit, path, source.tree, sourceRoot, disk.tree, root, c, loaded, prepared, managed);
      }
      return false;
    }
    var desired := Provenance(SCHEMA_VERSION, m.repository, commit, m.license, RecordsOf(prepared, c));
    ok := loaded.snapshot.Present? && loaded.snapshot.content == c.encode(desired);
    CurrentIsUpToDate(m, commit, path, source.tree, sourceRoot, disk.tree, root, c, loaded, prepared, managed);
    if ok {
      ProvenanceReads(m, commit, path, source.tree, sourceRoot, disk.tree, root, c);
    }
  }

  lemma BegunFacts(m: Manifest, commit: string, path: Path, l: Loaded, source: Tree, sourceRoot: Inode, t: Tree,
                   root: Inode, c: Codec, prepared: seq<Prepared>)
    requires Begun(m, commit, path, l, source, sourceRoot, t, root, c)
    requires Ordering.IsListing(prepared, PreparedSet(m, source, sourceRoot), DestinationKey)
    ensures l.provenance == EMPTY || ValidProvenance(l.provenance)
    ensures ValidEntries(m.entries) && SourcesReadable(m, source, sourceRoot)
    ensures forall i | 0 <= i < |prepared| ::
      SafePath(prepared[i].entry.source) && SafePath(prepared[i].entry.destination)
  {
    ListingEntries(m, source, sourceRoot, prepared);
    forall i | 0 <= i < |prepared|
      ensures SafePath(prepared[i].entry.source) && SafePath(prepared[i].entry.destination)
    {
      assert prepared[i].entry in m.entries;
    }
  }

  lemma UpToDateBegins(m: Manifest, commit: string, path: Path, source: Tree, sourceRoot: Inode, t: Tree, root: Inode,
                       c: Codec)
    returns (l: Loaded)
    requires Lawful(c) && UpToDate(m, commit, path, source, sourceRoot, t, root, c)
    ensures Begun(m, commit, path, l, source, sourceRoot, t, root, c)
    ensures l.snapshot.Present? && l.provenance == Desired(m, commit, source, sourceRoot, c)
  {
    hide PrefixFree;
    ShowsDesired(m, commit, path, source, sourceRoot, t, root, c);
    var desired := Desired(m, commit, source, sourceRoot, c);
    DesiredValid(m, commit, path, source, sourceRoot, c);
    var ino := Look(t, root, path).ino;
    l := Loaded(Present(ino, t.files[ino].content, t.files[ino].mode), desired);
    var prepared := Ordering.Listing(PreparedSet(m, source, sourceRoot), DestinationKey);
    DistinctDestinations(m, source, sourceRoot);
    Ordering.ListingExists(PreparedSet(m, source, sourceRoot), DestinationKey);
    ListingEntries(m, source, sourceRoot, prepared);
    forall i | 0 <= i < |desired.entries| ensures desired.entries[i].destination in Destinations(m.entries) {
      assert prepared[i].entry in m.entries;
      var j :| 0 <= j < |m.entries| && m.entries[j] == prepared[i].entry;
      assert Destinations(m.entries)[j] == desired.entries[i].destination;
    }
  }

  lemma UpToDateIsCurrent(m: Manifest, commit: string, path: Path, source: Tree, sourceRoot: Inode, t: Tree,
                          root: Inode, c: Codec, l: Loaded, prepared: seq<Prepared>, managed: map<Path, Record>)
    requires Lawful(c) && UpToDate(m, commit, path, source, sourceRoot, t, root, c)
    requires Begun(m, commit, path, l, source, sourceRoot, t, root, c)
    requires Ordering.IsListing(prepared, PreparedSet(m, source, sourceRoot), DestinationKey)
    requires RecordsOf(prepared, c) == Desired(m, commit, source, sourceRoot, c).entries
    requires managed.Keys == set i | 0 <= i < |l.provenance.entries| :: l.provenance.entries[i].destination
    ensures forall i | 0 <= i < |prepared| :: Current(t, root, prepared[i], managed, c)
  {
    hide PrefixFree;
    var own := UpToDateBegins(m, commit, path, source, sourceRoot, t, root, c);
    LoadedOnce(t, root, path, c, l);
    assert l.provenance == Desired(m, commit, source, sourceRoot, c);
    ListingEntries(m, source, sourceRoot, prepared);
    forall i | 0 <= i < |prepared| ensures Current(t, root, prepared[i], managed, c) {
      assert prepared[i].entry in m.entries;
      var j :| 0 <= j < |m.entries| && m.entries[j] == prepared[i].entry;
      assert SameDigest(t, root, m.entries[j], source, sourceRoot, c);
      assert l.provenance.entries[i].destination in managed;
    }
  }

  lemma CurrentIsUpToDate(m: Manifest, commit: string, path: Path, source: Tree, sourceRoot: Inode, t: Tree,
                          root: Inode, c: Codec, l: Loaded, prepared: seq<Prepared>, managed: map<Path, Record>)
    requires Begun(m, commit, path, l, source, sourceRoot, t, root, c)
    requires Ordering.IsListing(prepared, PreparedSet(m, source, sourceRoot), DestinationKey)
    requires forall i | 0 <= i < |prepared| :: Current(t, root, prepared[i], managed, c)
    ensures (l.snapshot.Present? && l.snapshot.content == c.encode(Desired(m, commit, source, sourceRoot, c)))
      <==> UpToDate(m, commit, path, source, sourceRoot, t, root, c)
  {
    hide PrefixFree, ShowsProvenance;
    ShowsDesired(m, commit, path, source, sourceRoot, t, root, c);
    ListingEntries(m, source, sourceRoot, prepared);
    forall i | 0 <= i < |m.entries| ensures SameDigest(t, root, m.entries[i], source, sourceRoot, c) {
      assert m.entries[i] in m.entries;
      var j :| 0 <= j < |prepared| && prepared[j].entry == m.entries[i];
      assert Current(t, root, prepared[j], managed, c);
    }
  }

  ghost predicate RecordHolds(t: Tree, root: Inode, r: Record, c: Codec) {
    ContentAt(t, root, r.destination).Some? && c.digest(ContentAt(t, root, r.destination).value) == r.digest
  }

  ghost predicate Verified(t: Tree, root: Inode, path: Path, c: Codec) {
    && SafePath(path)
    && exists l ::
         && LoadedFrom(t, root, path, c, l)
         && l.snapshot.Present?
         && forall i | 0 <= i < |l.provenance.entries| :: RecordHolds(t, root, l.provenance.entries[i], c)
  }

  method Verify(disk: Disk, root: Inode, path: Path, c: Codec) returns (ok: bool)
    requires disk.Valid()
    modifies disk.oracle
    ensures disk.oracle.failures >= old(disk.oracle.failures)
    ensures ok ==> Verified(disk.tree, root, path, c)
    ensures disk.oracle.failures == old(disk.oracle.failures) ==> (ok <==> Verified(disk.tree, root, path, c))
    ensures ok ==> exists p :: DecodedAt(disk.tree, root, path, c) == Some(p) && AllAsRecorded(p, disk.tree, root, c)
  {
    if !SafePath(path) {
      return false;
    }
    var failed := OpenRoot(disk);
    if failed {
      return false;
    }
    var loaded := LoadProvenance(disk, root, path, c);
    if loaded.Err? {
      return false;
    }
    LoadedOnce(disk.tree, root, path, c, loaded.value);
    if loaded.value.snapshot.Absent? {
      return false;
    }
    var records := loaded.value.provenance.entries;
    for i := 0 to |records|
      invariant disk.oracle.failures >= old(disk.oracle.failures)
      invariant forall k | 0 <= k < i :: RecordHolds(disk.tree, root, records[k], c)
    {
      assert SafePath(EntriesOf(records)[i].destination);
      var file := ReadPath(disk, root, records[i].destination, true);
      if file.Err? || file.value.Absent? || c.digest(file.value.content) != records[i].digest {
        assert disk.oracle.failures == old(disk.oracle.failures) ==> !RecordHolds(disk.tree, root, records[i], c);
        return false;
      }
    }
    ok := true;
    VerifiedMeans(disk.tree, root, path, c);
  }

  // Every recorded destination has a file with the recorded digest.
  ghost predicate AllAsRecorded(p: Provenance, t: Tree, root: Inode, c: Codec) {
    forall r | r in p.entries ::
      exists content :: ContentAt(t, root, r.destination) == Some(content) && c.digest(content) == r.digest
  }

  // Verify wants a valid provenance at the path, and all files as it records them.
  lemma VerifiedMeans(t: Tree, root: Inode, path: Path, c: Codec)
    ensures Verified(t, root, path, c) <==>
      SafePath(path) && exists p ::
        && DecodedAt(t, root, path, c) == Some(p) && ValidProvenance(p)
        && PrefixFree(Destinations(EntriesOf(p.entries)) + [path]) && AllAsRecorded(p, t, root, c)
  {
    hide PrefixFree, ValidProvenance, SafePath;
    if Verified(t, root, path, c) {
      var l :| LoadedFrom(t, root, path, c, l) && l.snapshot.Present?
               && forall i | 0 <= i < |l.provenance.entries| :: RecordHolds(t, root, l.provenance.entries[i], c);
      forall r | r in l.provenance.entries ensures RecordHolds(t, root, r, c) {
      }
      assert AllAsRecorded(l.provenance, t, root, c);
    }
    if p :| DecodedAt(t, root, path, c) == Some(p) && ValidProvenance(p)
            && PrefixFree(Destinations(EntriesOf(p.entries)) + [path]) && AllAsRecorded(p, t, root, c) {
      var ino := Look(t, root, path).ino;
      var l := Loaded(Present(ino, t.files[ino].content, t.files[ino].mode), p);
      assert LoadedFrom(t, root, path, c, l);
      forall i | 0 <= i < |p.entries| ensures RecordHolds(t, root, p.entries[i], c) {
        assert p.entries[i] in p.entries;
      }
    }
  }

  // What check mode accepts, Verify accepts.
  lemma UpToDateVerifies(m: Manifest, commit: string, path: Path, source: Tree, sourceRoot: Inode, t: Tree, root: Inode,
                         c: Codec)
    requires Lawful(c) && UpToDate(m, commit, path, source, sourceRoot, t, root, c)
    ensures Verified(t, root, path, c)
  {
    hide PrefixFree, LoadedFrom;
    var l := UpToDateBegins(m, commit, path, source, sourceRoot, t, root, c);
    var prepared := Ordering.Listing(PreparedSet(m, source, sourceRoot), DestinationKey);
    DistinctDestinations(m, source, sourceRoot);
    Ordering.ListingExists(PreparedSet(m, source, sourceRoot), DestinationKey);
    ListingEntries(m, source, sourceRoot, prepared);
    forall i | 0 <= i < |l.provenance.entries| ensures RecordHolds(t, root, l.provenance.entries[i], c) {
      assert prepared[i].entry in m.entries;
      var j :| 0 <= j < |m.entries| && m.entries[j] == prepared[i].entry;
      assert SameDigest(t, root, m.entries[j], source, sourceRoot, c);
    }
  }
}
