/** One run of Sync: what it publishes, and what it never touches. */
module SyncRun {
  import opened Wrappers
  import opened FileSystem
  import opened Paths
  import opened Publication
  import opened Manifests
  import opened Sync
  import Ordering
  import Parents
  import Publisher

  // ---------- From paths to plans ----------

  function PlanFor(o: Parents.Opening, target: Path, desired: Bytes, previous: Previous, provenance: bool): Plan
    requires target != [] && Parent(target) in o.byPath
  {
    Plan(o.byPath[Parent(target)], Base(target), desired, FILE_MODE, previous, provenance)
  }

  // Opening the parents does not create a target: a created directory lies above a target, and no target
  // lies above another one.
  lemma TargetNotCreated(t0: Tree, next0: Inode, t: Tree, next: Inode, root: Inode, o: Parents.Opening,
                         targets: seq<Path>, i: nat)
    requires Parents.Opened(t0, next0, t, next, root, o, targets) && PrefixFree(targets) && i < |targets|
    requires targets[i] != []
    requires Parent(targets[i]) in o.byPath && Look(t0, root, targets[i]) == Missing
    ensures Loc(o.byPath[Parent(targets[i])], Base(targets[i])) !in t.names
  {
    var p := targets[i];
    var loc := Loc(o.byPath[Parent(p)], Base(p));
    assert Look(t, root, Parent(p)) == Paths.Directory(loc.dir);
    if loc in t0.names {
      OldNameOldDirectory(t0, next0, t, next, root, o, targets, p);
    } else if loc in t.names {
      var k :| 0 <= k < |o.dirs| && o.dirs[k].created && Publisher.DirLoc(o.dirs[k]) == loc;
      assert Parents.Entered(o, k);
      assert Look(t, root, Parent(o.paths[k])) == Paths.Directory(loc.dir);
      OneLocation(t, next, root, p, o.paths[k]);
    }
  }

  // A name that was there before lies in a directory that was there before.
  lemma OldNameOldDirectory(t0: Tree, next0: Inode, t: Tree, next: Inode, root: Inode, o: Parents.Opening,
                            targets: seq<Path>, p: Path)
    requires Parents.Opened(t0, next0, t, next, root, o, targets) && p != [] && Parent(p) in o.byPath
    requires Loc(o.byPath[Parent(p)], Base(p)) in t0.names
    ensures Look(t0, root, p) != Missing
  {
    Parents.OldDirectory(t0, next0, t, next, root, o, targets, Parent(p));
  }

  lemma TargetMatches(t0: Tree, next0: Inode, t: Tree, next: Inode, root: Inode, o: Parents.Opening, targets: seq<Path>,
                      i: nat, desired: Bytes, previous: Previous, provenance: bool)
    requires Parents.Opened(t0, next0, t, next, root, o, targets) && PrefixFree(targets) && i < |targets|
    requires targets[i] != []
    requires Parent(targets[i]) in o.byPath && Snapshot(t0, root, targets[i], previous)
    ensures PlanMatches(t, PlanFor(o, targets[i], desired, previous, provenance))
  {
    if previous.Absent? {
      TargetNotCreated(t0, next0, t, next, root, o, targets, i);
    } else {
      assert Look(t0, root, Parent(targets[i])).Directory?;
      DirectoryStays(t0, t, root, Parent(targets[i]));
      assert Look(t, root, Parent(targets[i])) == Paths.Directory(o.byPath[Parent(targets[i])]);
    }
  }

  // One target: where it goes, what it shall hold, what was found there.
  datatype Job = Job(target: Path, desired: Bytes, previous: Previous, provenance: bool)

  function Targets(jobs: seq<Job>): (paths: seq<Path>)
    ensures |paths| == |jobs| && forall i | 0 <= i < |jobs| :: paths[i] == jobs[i].target
  {
    seq(|jobs|, i requires 0 <= i < |jobs| => jobs[i].target)
  }

  ghost predicate JobsReady(t: Tree, root: Inode, jobs: seq<Job>) {
    && PrefixFree(Targets(jobs))
    && (forall i | 0 <= i < |jobs| :: jobs[i].target != [] && Snapshot(t, root, jobs[i].target, jobs[i].previous))
  }

  ghost predicate Placed(o: Parents.Opening, jobs: seq<Job>) {
    forall i | 0 <= i < |jobs| :: jobs[i].target != [] && Parent(jobs[i].target) in o.byPath
  }

  function PlanOf(o: Parents.Opening, j: Job): Plan
    requires j.target != [] && Parent(j.target) in o.byPath
  {
    PlanFor(o, j.target, j.desired, j.previous, j.provenance)
  }

  ghost function PlansOf(o: Parents.Opening, jobs: seq<Job>): (plans: seq<Plan>)
    requires Placed(o, jobs)
    ensures |plans| == |jobs| && forall i | 0 <= i < |jobs| :: plans[i] == PlanOf(o, jobs[i])
  {
    seq(|jobs|, i requires 0 <= i < |jobs| => PlanOf(o, jobs[i]))
  }

  lemma PlansAreValid(t0: Tree, next0: Inode, t: Tree, next: Inode, root: Inode, o: Parents.Opening, jobs: seq<Job>)
    requires Parents.Opened(t0, next0, t, next, root, o, Targets(jobs)) && JobsReady(t0, root, jobs) && Placed(o, jobs)
    ensures PlansValid(t, PlansOf(o, jobs))
  {
    var plans := PlansOf(o, jobs);
    forall i | 0 <= i < |plans| ensures PlanMatches(t, plans[i]) {
      TargetMatches(t0, next0, t, next, root, o, Targets(jobs), i, jobs[i].desired, jobs[i].previous,
                    jobs[i].provenance);
    }
    forall i, k | 0 <= i < k < |plans| ensures Target(plans[i]) != Target(plans[k]) {
      TargetsApart(t0, next0, t, next, root, o, jobs, i, k);
    }
  }

  lemma TargetsApart(t0: Tree, next0: Inode, t: Tree, next: Inode, root: Inode, o: Parents.Opening, jobs: seq<Job>,
                     i: nat, k: nat)
    requires Parents.Opened(t0, next0, t, next, root, o, Targets(jobs)) && PrefixFree(Targets(jobs)) && Placed(o, jobs)
    requires i < k < |jobs|
    ensures Target(PlanOf(o, jobs[i])) != Target(PlanOf(o, jobs[k]))
  {
    var p, q := Targets(jobs)[i], Targets(jobs)[k];
    assert !(p <= q);
    assert Look(t, root, Parent(p)) == Paths.Directory(o.byPath[Parent(p)]);
    assert Look(t, root, Parent(q)) == Paths.Directory(o.byPath[Parent(q)]);
    if Base(p) == Base(q) && o.byPath[Parent(p)] == o.byPath[Parent(q)] {
      OneLocation(t, next, root, p, q);
    }
  }

  // ---------- A successful run ----------

  // Targets are files or free names, so every directory is still entered where it was.
  lemma TargetsAreNoDirectories(base: Tree, t: Tree, plans: seq<Plan>)
    requires PlansValid(base, plans) && OnlyTargetsAndArtifactsDiffer(base, t, plans)
    ensures DirectoriesKept(base, t)
  {
    forall loc | loc in base.names && base.names[loc].DirEntry?
      ensures loc in t.names && t.names[loc] == base.names[loc]
    {
      assert forall i | 0 <= i < |plans| :: PlanMatches(base, plans[i]);
      assert SameAt(t, base, loc);
    }
  }

  // Following the path of a target leads to the published file.
  lemma TargetHolds(t0: Tree, next0: Inode, base: Tree, next: Inode, t: Tree, root: Inode, o: Parents.Opening,
                    jobs: seq<Job>, i: nat)
    requires Parents.Opened(t0, next0, base, next, root, o, Targets(jobs)) && JobsReady(t0, root, jobs)
    requires Placed(o, jobs) && i < |jobs|
    requires CrashSafe(base, t, PlansOf(o, jobs), true)
    ensures ContentAt(t, root, jobs[i].target) == Some(jobs[i].desired)
    ensures ModeAt(t, root, jobs[i].target) == Some(0x1A4)
  {
    hide Parents.Indexed, Parents.Grown, Parents.AboveTargets, PrefixFree;
    PlansAreValid(t0, next0, base, next, root, o, jobs);
    TargetsAreNoDirectories(base, t, PlansOf(o, jobs));
    var p := jobs[i].target;
    assert Look(base, root, Parent(p)) == Paths.Directory(o.byPath[Parent(p)]);
    DirectoryStays(base, t, root, Parent(p));
    assert IsNew(base, t, PlansOf(o, jobs)[i]);
  }

  // ---------- What no run touches ----------

  // The name of a file that the existing provenance lists, or of that provenance itself.
  ghost predicate ManagedLoc(t: Tree, root: Inode, l: Loaded, path: Path, loc: Loc) {
    || (l.snapshot.Present? && LeadsTo(t, root, path, loc))
    || exists i | 0 <= i < |l.provenance.entries| :: LeadsTo(t, root, l.provenance.entries[i].destination, loc)
  }

  ghost predicate LeadsTo(t: Tree, root: Inode, p: Path, loc: Loc) {
    p != [] && Look(t, root, Parent(p)) == Paths.Directory(loc.dir) && Base(p) == loc.name
  }

  // Every file that existed keeps its content, and every name its entry unless sync manages it.
  ghost predicate Preserved(t0: Tree, t: Tree, root: Inode, l: Loaded, path: Path) {
    && KeepsFiles(t0, t)
    && forall loc | loc in t0.names ::
         loc in t.names && (t.names[loc] == t0.names[loc] || ManagedLoc(t0, root, l, path, loc))
  }

  // Only jobs with a previous file concern existing names, and those are managed.
  ghost predicate JobsManaged(l: Loaded, path: Path, jobs: seq<Job>) {
    forall i | 0 <= i < |jobs| && jobs[i].previous.Present? ::
      || (jobs[i].target == path && l.snapshot.Present?)
      || exists k | 0 <= k < |l.provenance.entries| :: l.provenance.entries[k].destination == jobs[i].target
  }

  // Every file that existed keeps its name, or a backup beside it has it.
  ghost predicate OriginalsKept(t0: Tree, t: Tree) {
    forall loc | loc in t0.names && t0.names[loc].FileEntry? :: KeptOrBackedUp(t0, t, loc)
  }

  ghost predicate KeptOrBackedUp(t0: Tree, t: Tree, loc: Loc)
    requires loc in t0.names
  {
    || (loc in t.names && t.names[loc] == t0.names[loc])
    || exists b :: b in t.names && b.dir == loc.dir && BackupName(b.name) && t.names[b] == t0.names[loc]
  }

  // Every destination shows the content of its source, readable for all and writable for the owner.
  ghost predicate Delivered(m: Manifest, source: Tree, sourceRoot: Inode, t: Tree, root: Inode) {
    forall e | e in m.entries :: SameContent(e, source, sourceRoot, t, root)
  }

  ghost predicate SameContent(e: Manifests.Entry, source: Tree, sourceRoot: Inode, t: Tree, root: Inode) {
    && ContentAt(t, root, e.destination).Some?
    && ContentAt(t, root, e.destination) == ContentAt(source, sourceRoot, e.source)
    && ModeAt(t, root, e.destination) == Some(0x1A4)
  }

  lemma StatePreserved(t0: Tree, next0: Inode, base: Tree, next: Inode, t: Tree, root: Inode, o: Parents.Opening,
                       jobs: seq<Job>, l: Loaded, path: Path)
    requires Parents.Opened(t0, next0, base, next, root, o, Targets(jobs)) && JobsReady(t0, root, jobs)
    requires Placed(o, jobs) && JobsManaged(l, path, jobs)
    requires Publisher.Confined(base, t, o.dirs, PlansOf(o, jobs))
    ensures Preserved(t0, t, root, l, path)
  {
    hide PrefixFree, ArtifactName;
    var plans := PlansOf(o, jobs);
    forall loc | loc in t0.names
      ensures loc in t.names && (t.names[loc] == t0.names[loc] || ManagedLoc(t0, root, l, path, loc))
    {
      assert loc in base.names && base.names[loc] == t0.names[loc];
      assert loc !in Publisher.CreatedLocs(o.dirs, 0);
      if !SameAt(t, base, loc) {
        var i :| 0 <= i < |plans| && loc == Target(plans[i]);
        ChangedIsManaged(t0, next0, base, next, root, o, jobs, l, path, i);
      }
    }
  }

  // An original that is linked for the transaction is kept from the caller's point of view.
  lemma StateKeepsOriginals(t0: Tree, next0: Inode, base: Tree, next: Inode, t: Tree, root: Inode, o: Parents.Opening,
                            jobs: seq<Job>)
    requires Parents.Opened(t0, next0, base, next, root, o, Targets(jobs)) && JobsReady(t0, root, jobs)
    requires Placed(o, jobs)
    requires Publisher.Recoverable(base, t, o.dirs, PlansOf(o, jobs), false)
    ensures OriginalsKept(t0, t)
  {
    hide PrefixFree, ArtifactName, BackupName, Snapshot;
    var plans := PlansOf(o, jobs);
    PlansAreValid(t0, next0, base, next, root, o, jobs);
    forall loc | loc in t0.names && t0.names[loc].FileEntry? ensures KeptOrBackedUp(t0, t, loc) {
      assert loc in base.names && base.names[loc] == t0.names[loc];
      assert loc !in Publisher.CreatedLocs(o.dirs, 0);
      if !SameAt(t, base, loc) {
        var i :| 0 <= i < |plans| && loc == Target(plans[i]);
        assert PlanMatches(base, plans[i]) && OriginalLinked(t, plans[i]);
        var b :| b in t.names && b.dir == plans[i].parent && t.names[b] == FileEntry(plans[i].previous.ino)
                 && (b == Target(plans[i]) || BackupName(b.name));
        assert b != loc;
      }
    }
  }

  lemma OpeningState(t0: Tree, t: Tree, root: Inode, l: Loaded, path: Path)
    requires Parents.OnlyDirectoriesAppeared(t0, t)
    ensures Preserved(t0, t, root, l, path) && OriginalsKept(t0, t)
  {
  }

  lemma StateDelivered(m: Manifest, t0: Tree, next0: Inode, base: Tree, next: Inode, t: Tree, source: Tree,
                       sourceRoot: Inode, root: Inode, o: Parents.Opening, jobs: seq<Job>, prepared: seq<Prepared>,
                       previous: seq<Previous>, path: Path, provenance: Bytes, snapshot: Previous)
    requires ValidEntries(m.entries) && SourcesReadable(m, source, sourceRoot) && |previous| == |prepared|
    requires Ordering.IsListing(prepared, PreparedSet(m, source, sourceRoot), DestinationKey)
    requires jobs == JobsFor(prepared, previous, path, provenance, snapshot)
    requires Parents.Opened(t0, next0, base, next, root, o, Targets(jobs)) && JobsReady(t0, root, jobs)
    requires Placed(o, jobs)
    requires CrashSafe(base, t, PlansOf(o, jobs), true)
    ensures Delivered(m, source, sourceRoot, t, root) && ContentAt(t, root, path) == Some(provenance)
  {
    hide Parents.Opened, JobsReady, PrefixFree, CrashSafe, Look, ContentAt, ModeAt;
    ListingEntries(m, source, sourceRoot, prepared);
    forall e | e in m.entries ensures SameContent(e, source, sourceRoot, t, root) {
      var i :| 0 <= i < |prepared| && prepared[i].entry == e;
      assert jobs[i].target == e.destination && jobs[i].desired == prepared[i].content;
      TargetHolds(t0, next0, base, next, t, root, o, jobs, i);
    }
    TargetHolds(t0, next0, base, next, t, root, o, jobs, |prepared|);
  }

  // The names after a rollback: those from before the run, and with nothing reported to fail no others, save a
  // staged file left behind.
  lemma NamesAfterRollback(t0: Tree, next0: Inode, base: Tree, next: Inode, t: Tree, root: Inode, o: Parents.Opening,
                           jobs: seq<Job>, leak: Option<Loc>)
    requires Parents.Opened(t0, next0, base, next, root, o, Targets(jobs)) && JobsReady(t0, root, jobs)
    requires Placed(o, jobs)
    ensures Publisher.AllBack(base, t, o.dirs, PlansOf(o, jobs)) ==>
      forall loc | loc in t0.names :: loc in t.names && t.names[loc] == t0.names[loc]
    ensures Publisher.NamesBack(base, t, o.dirs, leak) ==> Restored(t0, t, leak)
  {
    hide ArtifactName, PrefixFree;
    var created := Publisher.CreatedLocs(o.dirs, 0);
    forall loc | loc in t0.names ensures loc !in created && loc in base.names && base.names[loc] == t0.names[loc] {
    }
    if Publisher.AllBack(base, t, o.dirs, PlansOf(o, jobs)) {
      forall loc | loc in t0.names ensures loc in t.names && t.names[loc] == t0.names[loc] {
        assert SameAt(t, base, loc);
      }
    }
    assert forall loc | loc in base.names && loc !in created :: loc in t0.names;
    assert base.names - created == t0.names;
  }

  ghost predicate Restored(t0: Tree, t: Tree, leak: Option<Loc>) {
    if leak.Some? then leak.value !in t0.names && t.names - {leak.value} == t0.names else t.names == t0.names
  }

  lemma ChangedIsManaged(t0: Tree, next0: Inode, base: Tree, next: Inode, root: Inode, o: Parents.Opening,
                         jobs: seq<Job>, l: Loaded, path: Path, i: nat)
    requires Parents.Opened(t0, next0, base, next, root, o, Targets(jobs)) && JobsReady(t0, root, jobs)
    requires Placed(o, jobs) && JobsManaged(l, path, jobs)
    requires i < |jobs| && Target(PlanOf(o, jobs[i])) in t0.names
    ensures ManagedLoc(t0, root, l, path, Target(PlanOf(o, jobs[i])))
  {
    var p := jobs[i].target;
    OldNameOldDirectory(t0, next0, base, next, root, o, Targets(jobs), p);
    assert jobs[i].previous.Present?;
    assert Look(t0, root, Parent(p)).Directory?;
    DirectoryStays(t0, base, root, Parent(p));
    assert Look(base, root, Parent(p)) == Paths.Directory(o.byPath[Parent(p)]);
    assert LeadsTo(t0, root, p, Target(PlanOf(o, jobs[i])));
  }

  // ---------- The files of a run ----------

  // Rejected before the destination was touched, stopped while opening the parents, or published with this
  // outcome. Only Attempted(Publisher.SUCCESS) is a nil error.
  datatype RunResult = Rejected | NotOpened | Attempted(outcome: Publisher.Outcome)

  function JobsFor(prepared: seq<Prepared>, previous: seq<Previous>, path: Path, provenance: Bytes,
                   snapshot: Previous): (jobs: seq<Job>)
    requires |previous| == |prepared|
  {
    seq(|prepared|,
        i requires 0 <= i < |prepared| => Job(prepared[i].entry.destination, prepared[i].content, previous[i], false))
    + [Job(path, provenance, snapshot, true)]
  }

  lemma JobsAreReady(m: Manifest, commit: string, path: Path, l: Loaded, source: Tree, sourceRoot: Inode, t: Tree,
                     root: Inode, c: Codec, prepared: seq<Prepared>, previous: seq<Previous>,
                     managed: map<Path, Record>, provenance: Bytes)
    requires Begun(m, commit, path, l, source, sourceRoot, t, root, c) && |previous| == |prepared|
    requires Ordering.IsListing(prepared, PreparedSet(m, source, sourceRoot), DestinationKey)
    requires managed.Keys == set i | 0 <= i < |l.provenance.entries| :: l.provenance.entries[i].destination
    requires forall i | 0 <= i < |prepared| ::
      && Snapshot(t, root, prepared[i].entry.destination, previous[i])
      && (previous[i].Present? <==> prepared[i].entry.destination in managed)
    ensures JobsReady(t, root, JobsFor(prepared, previous, path, provenance, l.snapshot))
    ensures JobsManaged(l, path, JobsFor(prepared, previous, path, provenance, l.snapshot))
  {
    hide LoadedFrom, Snapshot, PrefixFree;
    var jobs := JobsFor(prepared, previous, path, provenance, l.snapshot);
    ListingEntries(m, source, sourceRoot, prepared);
    BegunFacts(m, commit, path, l, source, sourceRoot, t, root, c, prepared);
    LoadedSnapshot(t, root, path, c, l);
    var paths, others := Destinations(m.entries) + [path], Targets(jobs);
    forall p | p in others ensures p in paths {
      var i :| 0 <= i < |others| && others[i] == p;
      ListedTarget(m, path, prepared, previous, provenance, l.snapshot, source, sourceRoot, i);
    }
    forall i, k | 0 <= i < k < |others| ensures others[i] != others[k] {
      if k == |prepared| {
        assert prepared[i].entry in m.entries;
        var j :| 0 <= j < |m.entries| && m.entries[j] == prepared[i].entry;
        ApartFromProvenance(m, path, j);
      }
    }
    PrefixFreeSubset(paths, others);
  }

  lemma ApartFromProvenance(m: Manifest, path: Path, j: nat)
    requires PrefixFree(Destinations(m.entries) + [path]) && j < |m.entries|
    ensures m.entries[j].destination != path
  {
    var paths := Destinations(m.entries) + [path];
    assert !(paths[j] <= paths[|m.entries|]);
  }

  lemma LoadedSnapshot(t: Tree, root: Inode, path: Path, c: Codec, l: Loaded)
    requires LoadedFrom(t, root, path, c, l)
    ensures Snapshot(t, root, path, l.snapshot)
  {
  }

  lemma ListedTarget(m: Manifest, path: Path, prepared: seq<Prepared>, previous: seq<Previous>, provenance: Bytes,
                     snapshot: Previous, source: Tree, sourceRoot: Inode, i: nat)
    requires |previous| == |prepared| && i <= |prepared|
    requires forall k | 0 <= k < |prepared| :: prepared[k].entry in m.entries
    ensures Targets(JobsFor(prepared, previous, path, provenance, snapshot))[i] in Destinations(m.entries) + [path]
  {
    var paths := Destinations(m.entries) + [path];
    if i < |prepared| {
      var j :| 0 <= j < |m.entries| && m.entries[j] == prepared[i].entry;
      assert paths[j] == prepared[i].entry.destination;
    } else {
      assert paths[|m.entries|] == path;
    }
  }

  // What an entry's destination must be before a run: the file that the provenance records, or nothing.
  ghost predicate EntryRunnable(t: Tree, root: Inode, destination: Path, p: Provenance, c: Codec) {
    if exists i :: 0 <= i < |p.entries| && p.entries[i].destination == destination then
      exists i ::
        0 <= i < |p.entries| && p.entries[i].destination == destination && RecordHolds(t, root, p.entries[i], c)
    else Look(t, root, destination) == Missing
  }

  // The runs that succeed when nothing fails.
  ghost predicate Runnable(m: Manifest, commit: string, path: Path, source: Tree, sourceRoot: Inode, t: Tree,
                           root: Inode, c: Codec)
  {
    exists l ::
      && Begun(m, commit, path, l, source, sourceRoot, t, root, c)
      && forall i | 0 <= i < |m.entries| :: EntryRunnable(t, root, m.entries[i].destination, l.provenance, c)
  }

  // The tree belongs to this sync: there is no provenance and no destination yet, or a valid provenance of the same
  // repository whose files are all still listed and as recorded, and every other destination is free.
  ghost predicate Undrifted(m: Manifest, path: Path, t: Tree, root: Inode, c: Codec) {
    || (Look(t, root, path) == Missing && forall e | e in m.entries :: Look(t, root, e.destination) == Missing)
    || exists p :: DecodedAt(t, root, path, c) == Some(p) && Owns(p, m, path, t, root, c)
  }

  ghost predicate Owns(p: Provenance, m: Manifest, path: Path, t: Tree, root: Inode, c: Codec) {
    && ValidProvenance(p) && PrefixFree(Destinations(EntriesOf(p.entries)) + [path]) && p.repository == m.repository
    && (forall r | r in p.entries ::
          && (exists e :: e in m.entries && e.destination == r.destination)
          && exists content :: ContentAt(t, root, r.destination) == Some(content) && c.digest(content) == r.digest)
    && (forall e | e in m.entries ::
          || (exists r :: r in p.entries && r.destination == e.destination)
          || Look(t, root, e.destination) == Missing)
  }

  // A run can succeed exactly on such trees, for acceptable inputs and readable sources.
  lemma RunnableMeans(m: Manifest, commit: string, path: Path, source: Tree, sourceRoot: Inode, t: Tree, root: Inode,
                      c: Codec)
    ensures Runnable(m, commit, path, source, sourceRoot, t, root, c) <==>
      Accepted(m, commit, path) && SourcesReadable(m, source, sourceRoot) && Undrifted(m, path, t, root, c)
  {
    hide Accepted, SourcesReadable, Undrifted, LoadedFrom, Runnable, PrefixFree;
    if Runnable(m, commit, path, source, sourceRoot, t, root, c) {
      RunnableIsUndrifted(m, commit, path, source, sourceRoot, t, root, c);
    }
    if Accepted(m, commit, path) && SourcesReadable(m, source, sourceRoot) && Undrifted(m, path, t, root, c) {
      UndriftedIsRunnable(m, commit, path, source, sourceRoot, t, root, c);
    }
  }

  lemma RunnableIsUndrifted(m: Manifest, commit: string, path: Path, source: Tree, sourceRoot: Inode, t: Tree,
                            root: Inode, c: Codec)
    requires Runnable(m, commit, path, source, sourceRoot, t, root, c)
    ensures Accepted(m, commit, path) && SourcesReadable(m, source, sourceRoot) && Undrifted(m, path, t, root, c)
  {
    hide Accepted, SourcesReadable, PrefixFree, ValidProvenance;
    var l :| Begun(m, commit, path, l, source, sourceRoot, t, root, c)
             && forall i | 0 <= i < |m.entries| :: EntryRunnable(t, root, m.entries[i].destination, l.provenance, c);
    if l.snapshot.Absent? {
      forall e | e in m.entries ensures Look(t, root, e.destination) == Missing {
        var i :| 0 <= i < |m.entries| && m.entries[i] == e;
        assert EntryRunnable(t, root, m.entries[i].destination, l.provenance, c);
      }
    } else {
      BegunOwns(m, path, t, root, c, l);
    }
  }

  lemma BegunOwns(m: Manifest, path: Path, t: Tree, root: Inode, c: Codec, l: Loaded)
    requires LoadedFrom(t, root, path, c, l) && l.snapshot.Present? && l.provenance.repository == m.repository
    requires NothingDropped(m, l.provenance)
    requires forall i | 0 <= i < |m.entries| :: EntryRunnable(t, root, m.entries[i].destination, l.provenance, c)
    ensures DecodedAt(t, root, path, c) == Some(l.provenance) && Owns(l.provenance, m, path, t, root, c)
  {
    hide PrefixFree;
    var p := l.provenance;
    forall r | r in p.entries
      ensures exists e :: e in m.entries && e.destination == r.destination
      ensures RecordHolds(t, root, r, c)
    {
      var k :| 0 <= k < |p.entries| && p.entries[k] == r;
      assert r.destination in Destinations(m.entries);
      var i :| 0 <= i < |m.entries| && Destinations(m.entries)[i] == r.destination;
      assert m.entries[i] in m.entries && EntryRunnable(t, root, m.entries[i].destination, p, c);
      var j :| 0 <= j < |p.entries| && p.entries[j].destination == r.destination
               && RecordHolds(t, root, p.entries[j], c);
      assert EntriesOf(p.entries)[j].destination == EntriesOf(p.entries)[k].destination;
      assert j == k;
    }
    forall e | e in m.entries
      ensures (exists r :: r in p.entries && r.destination == e.destination) || Look(t, root, e.destination) == Missing
    {
      var i :| 0 <= i < |m.entries| && m.entries[i] == e;
      assert EntryRunnable(t, root, m.entries[i].destination, p, c);
      if k :| 0 <= k < |p.entries| && p.entries[k].destination == e.destination {
        assert p.entries[k] in p.entries;
      }
    }
  }

  lemma UndriftedIsRunnable(m: Manifest, commit: string, path: Path, source: Tree, sourceRoot: Inode, t: Tree,
                            root: Inode, c: Codec)
    requires Accepted(m, commit, path) && SourcesReadable(m, source, sourceRoot) && Undrifted(m, path, t, root, c)
    ensures Runnable(m, commit, path, source, sourceRoot, t, root, c)
  {
    hide Accepted, SourcesReadable, LoadedFrom, NothingDropped, EntryRunnable, Owns, DecodedAt, Look;
    var l;
    if Look(t, root, path) == Missing && forall e | e in m.entries :: Look(t, root, e.destination) == Missing {
      l := NothingLoaded(m, path, t, root, c);
    } else {
      var p :| DecodedAt(t, root, path, c) == Some(p) && Owns(p, m, path, t, root, c);
      l := OwnedLoads(p, m, path, t, root, c);
    }
    assert Begun(m, commit, path, l, source, sourceRoot, t, root, c);
  }

  lemma NothingLoaded(m: Manifest, path: Path, t: Tree, root: Inode, c: Codec) returns (l: Loaded)
    requires Look(t, root, path) == Missing && forall e | e in m.entries :: Look(t, root, e.destination) == Missing
    ensures LoadedFrom(t, root, path, c, l) && l.snapshot.Absent? && NothingDropped(m, l.provenance)
    ensures forall i | 0 <= i < |m.entries| :: EntryRunnable(t, root, m.entries[i].destination, l.provenance, c)
  {
    l := Loaded(Absent, EMPTY);
    forall i | 0 <= i < |m.entries| ensures EntryRunnable(t, root, m.entries[i].destination, l.provenance, c) {
      assert m.entries[i] in m.entries;
    }
  }

  lemma OwnedLoads(p: Provenance, m: Manifest, path: Path, t: Tree, root: Inode, c: Codec) returns (l: Loaded)
    requires DecodedAt(t, root, path, c) == Some(p) && Owns(p, m, path, t, root, c)
    ensures LoadedFrom(t, root, path, c, l) && l.provenance == p && p.repository == m.repository
    ensures NothingDropped(m, p)
    ensures forall i | 0 <= i < |m.entries| :: EntryRunnable(t, root, m.entries[i].destination, p, c)
  {
    hide PrefixFree, ValidProvenance;
    var ino := Look(t, root, path).ino;
    l := Loaded(Present(ino, t.files[ino].content, t.files[ino].mode), p);
    hide Look, Owns, DecodedAt, ContentAt, EntryRunnable;
    OwnedAreListed(p, m, path, t, root, c);
    forall i | 0 <= i < |m.entries| ensures EntryRunnable(t, root, m.entries[i].destination, p, c) {
      OwnedIsRunnable(p, m, path, t, root, c, i);
    }
  }

  lemma OwnedAreListed(p: Provenance, m: Manifest, path: Path, t: Tree, root: Inode, c: Codec)
    requires Owns(p, m, path, t, root, c)
    ensures NothingDropped(m, p)
  {
    hide PrefixFree, ValidProvenance, Look, ContentAt;
    forall i | 0 <= i < |p.entries| ensures p.entries[i].destination in Destinations(m.entries) {
      assert p.entries[i] in p.entries;
      var e :| e in m.entries && e.destination == p.entries[i].destination;
      var k :| 0 <= k < |m.entries| && m.entries[k] == e;
      assert Destinations(m.entries)[k] == p.entries[i].destination;
    }
  }

  lemma OwnedIsRunnable(p: Provenance, m: Manifest, path: Path, t: Tree, root: Inode, c: Codec, i: nat)
    requires Owns(p, m, path, t, root, c) && i < |m.entries|
    ensures EntryRunnable(t, root, m.entries[i].destination, p, c)
  {
    hide PrefixFree, ValidProvenance, Look, ContentAt;
    assert m.entries[i] in m.entries;
    if r :| r in p.entries && r.destination == m.entries[i].destination {
      var k :| 0 <= k < |p.entries| && p.entries[k] == r;
      assert RecordHolds(t, root, p.entries[k], c);
    } else {
      forall k | 0 <= k < |p.entries| ensures p.entries[k].destination != m.entries[i].destination {
        assert p.entries[k] in p.entries;
      }
    }
  }

  function PathKey(p: Path): Ordering.Key {
    [PathText(p)]
  }

  // The order of publication: the destinations by their text, and the provenance last.
  ghost function Order(m: Manifest, path: Path): seq<Path> {
    Ordering.Listing(set e | e in m.entries :: e.destination, PathKey) + [path]
  }

  // Which of these files the existing provenance already manages.
  ghost function ManagedBefore(order: seq<Path>, l: Loaded): (managed: seq<bool>)
    ensures |managed| == |order|
  {
    seq(|order|, i requires 0 <= i < |order| =>
      if i == |order| - 1 then l.snapshot.Present?
      else exists k :: 0 <= k < |l.provenance.entries| && l.provenance.entries[k].destination == order[i])
  }

  // A file that is new to its directory has the name of an artifact that exists there when it is published.
  ghost predicate NameTaken(order: seq<Path>, managed: seq<bool>, suffixes: nat -> Suffix, first: nat)
    requires |managed| == |order|
  {
    exists i, j :: 0 <= i < |order| && 0 <= j < |order| && !managed[i] && order[i] != [] && order[j] != []
                   && Parent(order[i]) == Parent(order[j])
                   && Base(order[i]) == Publisher.ArtifactFor(managed, suffixes, first, i, j)
  }

  // The random names to come get in the way of this run.
  ghost predicate Unlucky(m: Manifest, path: Path, t: Tree, root: Inode, c: Codec, suffixes: nat -> Suffix, first: nat)
  {
    exists l ::
      LoadedFrom(t, root, path, c, l) && NameTaken(Order(m, path), ManagedBefore(Order(m, path), l), suffixes, first)
  }

  lemma TargetsInOrder(m: Manifest, path: Path, source: Tree, sourceRoot: Inode, prepared: seq<Prepared>,
                       previous: seq<Previous>, provenance: Bytes, snapshot: Previous)
    requires ValidEntries(m.entries) && SourcesReadable(m, source, sourceRoot) && |previous| == |prepared|
    requires Ordering.IsListing(prepared, PreparedSet(m, source, sourceRoot), DestinationKey)
    ensures Targets(JobsFor(prepared, previous, path, provenance, snapshot)) == Order(m, path)
  {
    var items := set e | e in m.entries :: e.destination;
    var list := seq(|prepared|, i requires 0 <= i < |prepared| => prepared[i].entry.destination);
    ListingEntries(m, source, sourceRoot, prepared);
    assert Ordering.IsListing(list, items, PathKey) by {
      forall i, j | 0 <= i < j < |list| ensures Ordering.KeyLess(PathKey(list[i]), PathKey(list[j])) {
        assert Ordering.KeyLess(DestinationKey(prepared[i]), DestinationKey(prepared[j]));
      }
      forall p ensures p in list <==> p in items {
        if p in list {
          var i :| 0 <= i < |list| && list[i] == p;
          assert prepared[i].entry in m.entries;
        }
        if p in items {
          var e :| e in m.entries && e.destination == p;
          var i :| 0 <= i < |prepared| && prepared[i].entry == e;
          assert list[i] == p;
        }
      }
    }
    Ordering.ListingIs(list, items, PathKey);
    assert Targets(JobsFor(prepared, previous, path, provenance, snapshot)) == list + [path];
  }

  // Which of the jobs replace a file.
  function JobFlags(jobs: seq<Job>): (managed: seq<bool>)
    ensures |managed| == |jobs|
  {
    seq(|jobs|, i requires 0 <= i < |jobs| => jobs[i].previous.Present?)
  }

  lemma FlagsInOrder(m: Manifest, path: Path, l: Loaded, prepared: seq<Prepared>, previous: seq<Previous>,
                     provenance: Bytes, managed: map<Path, Record>)
    requires |previous| == |prepared|
    requires Targets(JobsFor(prepared, previous, path, provenance, l.snapshot)) == Order(m, path)
    requires managed.Keys == set i | 0 <= i < |l.provenance.entries| :: l.provenance.entries[i].destination
    requires forall i | 0 <= i < |prepared| :: previous[i].Present? <==> prepared[i].entry.destination in managed
    ensures JobFlags(JobsFor(prepared, previous, path, provenance, l.snapshot)) == ManagedBefore(Order(m, path), l)
  {
    var jobs := JobsFor(prepared, previous, path, provenance, l.snapshot);
    var flags, before := JobFlags(jobs), ManagedBefore(Order(m, path), l);
    forall i | 0 <= i < |jobs| ensures flags[i] == before[i] {
      assert Order(m, path)[i] == jobs[i].target;
      if i < |prepared| {
        assert prepared[i].entry.destination in managed <==>
          exists k :: 0 <= k < |l.provenance.entries| && l.provenance.entries[k].destination == jobs[i].target;
      }
    }
  }

  // Whether a name gets in the way shows on paths as on opened directories, for a directory has one path.
  lemma BlockedOnPaths(t0: Tree, next0: Inode, base: Tree, next: Inode, root: Inode, o: Parents.Opening, jobs: seq<Job>,
                       suffixes: nat -> Suffix, first: nat)
    requires Parents.Opened(t0, next0, base, next, root, o, Targets(jobs)) && Placed(o, jobs)
    ensures Publisher.Blocked(PlansOf(o, jobs), suffixes, first) <==>
      NameTaken(Targets(jobs), JobFlags(jobs), suffixes, first)
  {
    hide Publisher.Blocked, NameTaken, Parents.Opened;
    if Publisher.Blocked(PlansOf(o, jobs), suffixes, first) {
      BlockedIsTaken(t0, next0, base, next, root, o, jobs, suffixes, first);
    }
    if NameTaken(Targets(jobs), JobFlags(jobs), suffixes, first) {
      TakenIsBlocked(o, jobs, suffixes, first);
    }
  }

  lemma BlockedIsTaken(t0: Tree, next0: Inode, base: Tree, next: Inode, root: Inode, o: Parents.Opening, jobs: seq<Job>,
                       suffixes: nat -> Suffix, first: nat)
    requires Parents.Opened(t0, next0, base, next, root, o, Targets(jobs)) && Placed(o, jobs)
    requires Publisher.Blocked(PlansOf(o, jobs), suffixes, first)
    ensures NameTaken(Targets(jobs), JobFlags(jobs), suffixes, first)
  {
    hide Publisher.ArtifactFor, Parents.Opened;
    var plans, targets, managed := PlansOf(o, jobs), Targets(jobs), JobFlags(jobs);
    assert Publisher.ManagedFlags(plans) == managed;
    var i, j :| 0 <= i < |plans| && 0 <= j < |plans| && !Managed(plans[i])
                && Target(plans[i]) == Publisher.ArtifactOf(plans, suffixes, first, i, j);
    OpenedTree(t0, next0, base, next, root, o, targets);
    SameParent(base, next, root, o, targets[i], targets[j]);
    assert Base(targets[i]) == Publisher.ArtifactFor(managed, suffixes, first, i, j);
  }

  lemma TakenIsBlocked(o: Parents.Opening, jobs: seq<Job>, suffixes: nat -> Suffix, first: nat)
    requires Placed(o, jobs) && NameTaken(Targets(jobs), JobFlags(jobs), suffixes, first)
    ensures Publisher.Blocked(PlansOf(o, jobs), suffixes, first)
  {
    hide Publisher.ArtifactFor;
    var plans, targets, managed := PlansOf(o, jobs), Targets(jobs), JobFlags(jobs);
    assert Publisher.ManagedFlags(plans) == managed;
    var i, j :| 0 <= i < |targets| && 0 <= j < |targets| && !managed[i] && targets[i] != [] && targets[j] != []
                && Parent(targets[i]) == Parent(targets[j])
                && Base(targets[i]) == Publisher.ArtifactFor(managed, suffixes, first, i, j);
    assert Target(plans[i]) == Publisher.ArtifactOf(plans, suffixes, first, i, j);
  }

  lemma OpenedTree(t0: Tree, next0: Inode, base: Tree, next: Inode, root: Inode, o: Parents.Opening, targets: seq<Path>)
    requires Parents.Opened(t0, next0, base, next, root, o, targets)
    ensures DirectoryTree(base, next, root) && Parents.Located(base, root, o)
  {
  }

  lemma SameParent(t: Tree, next: Inode, root: Inode, o: Parents.Opening, p: Path, q: Path)
    requires DirectoryTree(t, next, root) && Parents.Located(t, root, o) && p != [] && q != []
    requires Parent(p) in o.byPath && Parent(q) in o.byPath && o.byPath[Parent(p)] == o.byPath[Parent(q)]
    ensures Parent(p) == Parent(q)
  {
    assert Look(t, root, Parent(p)) == Paths.Directory(o.byPath[Parent(p)]);
    OnePath(t, next, root, Parent(p), Parent(q));
  }

  lemma UnluckyExactly(m: Manifest, path: Path, t: Tree, root: Inode, c: Codec, l: Loaded, suffixes: nat -> Suffix,
                       first: nat)
    requires LoadedFrom(t, root, path, c, l)
    ensures Unlucky(m, path, t, root, c, suffixes, first) <==>
      NameTaken(Order(m, path), ManagedBefore(Order(m, path), l), suffixes, first)
  {
    hide LoadedFrom;
    LoadedOnce(t, root, path, c, l);
  }

  // ---------- The states passed ----------

  ghost predicate AllPreserved(t0: Tree, trace: seq<Tree>, n: nat, root: Inode, l: Loaded, path: Path) {
    forall k | n <= k < |trace| :: Preserved(t0, trace[k], root, l, path)
  }

  // The originals are kept until every destination shows its new content, and to the end when the publication
  // is not delivered.
  ghost predicate AllRecoverable(t0: Tree, trace: seq<Tree>, n: nat, delivered: bool, m: Manifest, source: Tree,
                                 sourceRoot: Inode, root: Inode)
    requires n <= |trace|
  {
    if delivered then exists k | n <= k <= |trace| :: SwitchesAt(t0, trace, n, k, m, source, sourceRoot, root)
    else forall k | n <= k < |trace| :: OriginalsKept(t0, trace[k])
  }

  ghost predicate SwitchesAt(t0: Tree, trace: seq<Tree>, n: nat, k: nat, m: Manifest, source: Tree, sourceRoot: Inode,
                             root: Inode)
    requires k <= |trace|
  {
    && (forall j | n <= j < k :: OriginalsKept(t0, trace[j]))
    && (forall j | k <= j < |trace| :: Delivered(m, source, sourceRoot, trace[j], root))
  }

  lemma OpeningTrace(t0: Tree, trace: seq<Tree>, n: nat, root: Inode, l: Loaded, path: Path, m: Manifest, source: Tree,
                     sourceRoot: Inode)
    requires n <= |trace| && forall k | n <= k < |trace| :: Parents.OnlyDirectoriesAppeared(t0, trace[k])
    ensures AllPreserved(t0, trace, n, root, l, path)
    ensures AllRecoverable(t0, trace, n, false, m, source, sourceRoot, root)
  {
    hide Preserved, OriginalsKept, Parents.OnlyDirectoriesAppeared;
    forall k | n <= k < |trace| ensures Preserved(t0, trace[k], root, l, path) && OriginalsKept(t0, trace[k]) {
      OpeningState(t0, trace[k], root, l, path);
    }
  }

  // A state that the transaction may leave behind keeps what the caller had.
  lemma RecoverableState(t0: Tree, next0: Inode, base: Tree, next: Inode, t: Tree, root: Inode, o: Parents.Opening,
                         jobs: seq<Job>, l: Loaded, path: Path, validated: bool)
    requires Parents.Opened(t0, next0, base, next, root, o, Targets(jobs)) && JobsReady(t0, root, jobs)
    requires Placed(o, jobs) && JobsManaged(l, path, jobs)
    requires Publisher.Recoverable(base, t, o.dirs, PlansOf(o, jobs), validated)
    ensures Preserved(t0, t, root, l, path) && (!validated ==> OriginalsKept(t0, t))
  {
    hide Parents.Opened, JobsReady, JobsManaged, Publisher.Confined, OnlyTargetsAndArtifactsDiffer, AllNew,
         OriginalsLinked, Preserved, OriginalsKept;
    if validated {
      SafeIsConfined(base, t, o.dirs, PlansOf(o, jobs));
    } else {
      StateKeepsOriginals(t0, next0, base, next, t, root, o, jobs);
    }
    StatePreserved(t0, next0, base, next, t, root, o, jobs, l, path);
  }

  lemma SafeIsConfined(base: Tree, t: Tree, dirs: seq<Publisher.Directory>, plans: seq<Plan>)
    requires OnlyTargetsAndArtifactsDiffer(base, t, plans)
    ensures Publisher.Confined(base, t, dirs, plans)
  {
    hide ArtifactName;
  }

  lemma StatesPreserved(t0: Tree, next0: Inode, base: Tree, next: Inode, root: Inode, o: Parents.Opening,
                        jobs: seq<Job>, l: Loaded, path: Path, trace: seq<Tree>, n: nat, k: nat, validated: bool,
                        ordered: bool, drawn: set<Loc>)
    requires Parents.Opened(t0, next0, base, next, root, o, Targets(jobs)) && JobsReady(t0, root, jobs)
    requires Placed(o, jobs) && JobsManaged(l, path, jobs)
    requires k <= |trace|
    requires Publisher.TraceRecoverable(base, o.dirs, PlansOf(o, jobs), trace, n, k, validated, ordered, drawn)
    ensures forall j | n <= j < k ::
      Preserved(t0, trace[j], root, l, path) && (!validated ==> OriginalsKept(t0, trace[j]))
  {
    hide Parents.Opened, JobsReady, JobsManaged, Publisher.Recoverable, Preserved, OriginalsKept, ProvenanceLast;
    forall j | n <= j < k
      ensures Preserved(t0, trace[j], root, l, path) && (!validated ==> OriginalsKept(t0, trace[j]))
    {
      RecoverableState(t0, next0, base, next, trace[j], root, o, jobs, l, path, validated);
    }
  }

  // The inputs of a run and what it read before opening the parents of its targets.
  datatype Prelude = Prelude(
    m: Manifest, path: Path, source: Tree, sourceRoot: Inode, root: Inode, l: Loaded, prepared: seq<Prepared>,
    previous: seq<Previous>, provenance: Bytes)

  function JobsOf(x: Prelude): seq<Job>
    requires |x.previous| == |x.prepared|
  {
    JobsFor(x.prepared, x.previous, x.path, x.provenance, x.l.snapshot)
  }

  ghost predicate Ready(x: Prelude, t0: Tree, next0: Inode, base: Tree, next: Inode, o: Parents.Opening) {
    && ValidEntries(x.m.entries) && SourcesReadable(x.m, x.source, x.sourceRoot) && |x.previous| == |x.prepared|
    && Ordering.IsListing(x.prepared, PreparedSet(x.m, x.source, x.sourceRoot), DestinationKey)
    && Parents.Opened(t0, next0, base, next, x.root, o, Targets(JobsOf(x))) && JobsReady(t0, x.root, JobsOf(x))
    && Placed(o, JobsOf(x))
    && JobsManaged(x.l, x.path, JobsOf(x))
  }

  lemma StatesDelivered(x: Prelude, t0: Tree, next0: Inode, base: Tree, next: Inode, o: Parents.Opening,
                        trace: seq<Tree>, n: nat, drawn: set<Loc>)
    requires Ready(x, t0, next0, base, next, o) && n <= |trace|
    requires Publisher.TraceRecoverable(base, o.dirs, PlansOf(o, JobsOf(x)), trace, n, |trace|, true, true, drawn)
    ensures forall j | n <= j < |trace| :: Delivered(x.m, x.source, x.sourceRoot, trace[j], x.root)
  {
    hide Parents.Opened, JobsReady, JobsManaged, CrashSafe, ProvenanceLast, Delivered, SourcesReadable, PreparedSet;
    forall j | n <= j < |trace| ensures Delivered(x.m, x.source, x.sourceRoot, trace[j], x.root) {
      StateDelivered(x.m, t0, next0, base, next, trace[j], x.source, x.sourceRoot, x.root, o, JobsOf(x), x.prepared,
                     x.previous, x.path, x.provenance, x.l.snapshot);
    }
  }

  lemma TransactionTrace(x: Prelude, t0: Tree, next0: Inode, base: Tree, next: Inode, o: Parents.Opening,
                         early: seq<Tree>, trace: seq<Tree>, n: nat, outcome: Publisher.Outcome, drawn: set<Loc>)
    requires Ready(x, t0, next0, base, next, o) && n <= |early| && early <= trace
    requires AllPreserved(t0, early, n, x.root, x.l, x.path)
    requires AllRecoverable(t0, early, n, false, x.m, x.source, x.sourceRoot, x.root)
    requires Publisher.Traced(base, o.dirs, PlansOf(o, JobsOf(x)), trace, |early|, outcome, drawn)
    ensures AllPreserved(t0, trace, n, x.root, x.l, x.path)
    ensures AllRecoverable(t0, trace, n, !outcome.publication, x.m, x.source, x.sourceRoot, x.root)
  {
    hide Parents.Opened, JobsReady, JobsManaged, Publisher.TraceRecoverable, Preserved, OriginalsKept, Delivered,
         SourcesReadable, PreparedSet;
    var plans, n1 := PlansOf(o, JobsOf(x)), |early|;
    assert forall k | n <= k < n1 :: trace[k] == early[k];
    if outcome.publication {
      StatesPreserved(t0, next0, base, next, x.root, o, JobsOf(x), x.l, x.path, trace, n1, |trace|, false,
                      !outcome.rollback, drawn);
    } else {
      var k :| n1 <= k <= |trace|
        && Publisher.TraceRecoverable(base, o.dirs, plans, trace, n1, k, false, true, drawn)
        && Publisher.TraceRecoverable(base, o.dirs, plans, trace, k, |trace|, true, true, drawn);
      StatesPreserved(t0, next0, base, next, x.root, o, JobsOf(x), x.l, x.path, trace, n1, k, false, true, drawn);
      StatesPreserved(t0, next0, base, next, x.root, o, JobsOf(x), x.l, x.path, trace, k, |trace|, true, true, drawn);
      StatesDelivered(x, t0, next0, base, next, o, trace, k, drawn);
      assert SwitchesAt(t0, trace, n, k, x.m, x.source, x.sourceRoot, x.root);
    }
  }

  // ---------- Provenance comes last ----------

  // The provenance path shows what it showed before the run, or every destination shows its new content. The
  // exception is a new provenance file whose name was drawn for an artifact in its directory.
  ghost predicate ProvenanceInTurn(t0: Tree, t: Tree, m: Manifest, source: Tree, sourceRoot: Inode, root: Inode,
                                   path: Path, drawn: set<Loc>)
  {
    || Parents.OnlyDirectoriesAppeared(t0, t)
    || ContentAt(t, root, path) == ContentAt(t0, root, path)
    || Delivered(m, source, sourceRoot, t, root)
    || (Look(t0, root, path) == Missing && exists loc :: loc in drawn && LeadsTo(t, root, path, loc))
  }

  ghost predicate AlwaysInTurn(t0: Tree, trace: seq<Tree>, n: nat, m: Manifest, source: Tree, sourceRoot: Inode,
                               root: Inode, path: Path, drawn: set<Loc>)
  {
    forall k | n <= k < |trace| :: ProvenanceInTurn(t0, trace[k], m, source, sourceRoot, root, path, drawn)
  }

  // Where the parent of a target leads in a state of the transaction.
  lemma ParentInState(t0: Tree, next0: Inode, base: Tree, next: Inode, t: Tree, root: Inode, o: Parents.Opening,
                      jobs: seq<Job>, i: nat)
    requires Parents.Opened(t0, next0, base, next, root, o, Targets(jobs)) && JobsReady(t0, root, jobs)
    requires Placed(o, jobs) && i < |jobs|
    requires Publisher.Confined(base, t, o.dirs, PlansOf(o, jobs))
    ensures var parent := Look(t, root, Parent(jobs[i].target));
            parent == Paths.Directory(PlansOf(o, jobs)[i].parent) || (parent == Missing && jobs[i].previous.Absent?)
  {
    hide PrefixFree, ArtifactName, Parents.Indexed, Parents.AboveTargets;
    var plans, p := PlansOf(o, jobs), jobs[i].target;
    PlansAreValid(t0, next0, base, next, root, o, jobs);
    forall loc | loc in base.names && base.names[loc].DirEntry? && loc in t.names
      ensures t.names[loc] == base.names[loc]
    {
      assert forall k | 0 <= k < |plans| :: PlanMatches(base, plans[k]);
    }
    assert Look(base, root, Parent(p)) == Paths.Directory(o.byPath[Parent(p)]);
    DirectoryStaysOrGoes(base, t, root, Parent(p));
    if jobs[i].previous.Present? {
      forall loc | loc in t0.names && t0.names[loc].DirEntry?
        ensures loc in t.names && t.names[loc] == t0.names[loc]
      {
        assert loc in base.names && base.names[loc] == t0.names[loc];
        assert loc !in Publisher.CreatedLocs(o.dirs, 0);
        assert forall k | 0 <= k < |plans| :: PlanMatches(base, plans[k]);
      }
      assert Look(t0, root, Parent(p)).Directory?;
      DirectoryStays(t0, t, root, Parent(p));
    }
  }

  // A target that is as it was shows what its path showed before the run.
  lemma ContentUnchanged(t0: Tree, next0: Inode, base: Tree, next: Inode, t: Tree, root: Inode, o: Parents.Opening,
                         jobs: seq<Job>, i: nat)
    requires Parents.Opened(t0, next0, base, next, root, o, Targets(jobs)) && JobsReady(t0, root, jobs)
    requires Placed(o, jobs) && i < |jobs|
    requires Publisher.Confined(base, t, o.dirs, PlansOf(o, jobs))
    requires SameAt(t, base, Target(PlansOf(o, jobs)[i]))
    ensures ContentAt(t, root, jobs[i].target) == ContentAt(t0, root, jobs[i].target)
  {
    hide Parents.Opened, PrefixFree, ArtifactName;
    PlansAreValid(t0, next0, base, next, root, o, jobs);
    assert PlanMatches(base, PlansOf(o, jobs)[i]);
    ParentInState(t0, next0, base, next, t, root, o, jobs, i);
  }

  // A state of the transaction in which provenance comes last.
  lemma StateInTurn(x: Prelude, t0: Tree, next0: Inode, base: Tree, next: Inode, t: Tree, o: Parents.Opening,
                    drawn: set<Loc>)
    requires Ready(x, t0, next0, base, next, o)
    requires Publisher.Confined(base, t, o.dirs, PlansOf(o, JobsOf(x)))
    requires ProvenanceFree(PlansOf(o, JobsOf(x)), drawn) && ProvenanceAtEnd(PlansOf(o, JobsOf(x))) ==>
      Publisher.InTurn(base, t, o.dirs, PlansOf(o, JobsOf(x)))
    ensures ProvenanceInTurn(t0, t, x.m, x.source, x.sourceRoot, x.root, x.path, drawn)
  {
    hide Parents.Opened, PrefixFree, ArtifactName, SourcesReadable, PreparedSet, AllNew, Delivered, ValidEntries,
         Publisher.CreatedLocs;
    var jobs, last := JobsOf(x), |x.prepared|;
    var plans := PlansOf(o, jobs);
    var loc := Target(plans[last]);
    assert jobs[last].target == x.path && plans[last].provenance;
    assert forall i | 0 <= i < last :: !plans[i].provenance;
    if SameAt(t, base, loc) {
      ContentUnchanged(t0, next0, base, next, t, x.root, o, jobs, last);
    } else if ProvenanceFree(plans, drawn) {
      StateDelivered(x.m, t0, next0, base, next, t, x.source, x.sourceRoot, x.root, o, jobs, x.prepared,
                     x.previous, x.path, x.provenance, x.l.snapshot);
    } else {
      ParentInState(t0, next0, base, next, t, x.root, o, jobs, last);
      assert loc in drawn;
      if Look(t, x.root, Parent(x.path)) != Missing {
        assert LeadsTo(t, x.root, x.path, loc);
      }
    }
  }

  lemma StatesInTurn(x: Prelude, t0: Tree, next0: Inode, base: Tree, next: Inode, o: Parents.Opening,
                     trace: seq<Tree>, n: nat, m: nat, validated: bool, drawn: set<Loc>)
    requires Ready(x, t0, next0, base, next, o) && m <= |trace|
    requires Publisher.TraceRecoverable(base, o.dirs, PlansOf(o, JobsOf(x)), trace, n, m, validated, true, drawn)
    ensures forall k | n <= k < m ::
      ProvenanceInTurn(t0, trace[k], x.m, x.source, x.sourceRoot, x.root, x.path, drawn)
  {
    hide Parents.Opened, JobsReady, JobsManaged, Publisher.Confined, Publisher.InTurn, OnlyTargetsAndArtifactsDiffer,
         AllNew, OriginalsLinked, ProvenanceInTurn, ProvenanceFree, ProvenanceAtEnd, SourcesReadable, PreparedSet;
    forall k | n <= k < m
      ensures ProvenanceInTurn(t0, trace[k], x.m, x.source, x.sourceRoot, x.root, x.path, drawn)
    {
      if validated {
        SafeIsConfined(base, trace[k], o.dirs, PlansOf(o, JobsOf(x)));
      }
      StateInTurn(x, t0, next0, base, next, trace[k], o, drawn);
    }
  }

  lemma OpeningInTurn(t0: Tree, trace: seq<Tree>, n: nat, x: Prelude, drawn: set<Loc>)
    requires forall k | n <= k < |trace| :: Parents.OnlyDirectoriesAppeared(t0, trace[k])
    ensures AlwaysInTurn(t0, trace, n, x.m, x.source, x.sourceRoot, x.root, x.path, drawn)
  {
    hide Parents.OnlyDirectoriesAppeared;
  }

  // The states of the opening and then those of the transaction.
  lemma RunInTurn(x: Prelude, t0: Tree, next0: Inode, base: Tree, next: Inode, o: Parents.Opening, early: seq<Tree>,
                  trace: seq<Tree>, n: nat, outcome: Publisher.Outcome, drawn: set<Loc>)
    requires Ready(x, t0, next0, base, next, o) && n <= |early| && early <= trace && !outcome.rollback
    requires forall k | n <= k < |early| :: Parents.OnlyDirectoriesAppeared(t0, early[k])
    requires Publisher.Traced(base, o.dirs, PlansOf(o, JobsOf(x)), trace, |early|, outcome, drawn)
    ensures AlwaysInTurn(t0, trace, n, x.m, x.source, x.sourceRoot, x.root, x.path, drawn)
  {
    hide Parents.Opened, JobsReady, JobsManaged, Publisher.TraceRecoverable, Parents.OnlyDirectoriesAppeared, LeadsTo,
         ContentAt, Look, Delivered, SourcesReadable, PreparedSet;
    var plans, n1 := PlansOf(o, JobsOf(x)), |early|;
    assert forall k | n <= k < n1 :: trace[k] == early[k];
    if outcome.publication {
      StatesInTurn(x, t0, next0, base, next, o, trace, n1, |trace|, false, drawn);
    } else {
      var k :| n1 <= k <= |trace|
        && Publisher.TraceRecoverable(base, o.dirs, plans, trace, n1, k, false, true, drawn)
        && Publisher.TraceRecoverable(base, o.dirs, plans, trace, k, |trace|, true, true, drawn);
      StatesInTurn(x, t0, next0, base, next, o, trace, n1, k, false, drawn);
      StatesInTurn(x, t0, next0, base, next, o, trace, k, |trace|, true, drawn);
    }
  }

  // ---------- The run ----------

  // publishTransaction together with the opening of the parents.
  method Deliver(disk: Disk, root: Inode, jobs: seq<Job>, ghost x: Prelude)
    returns (r: RunResult, ghost leak: Option<Loc>)
    requires disk.Valid() && DirectoryTree(disk.tree, disk.next, root) && root == x.root
    requires ValidEntries(x.m.entries) && SourcesReadable(x.m, x.source, x.sourceRoot) && |x.previous| == |x.prepared|
    requires Ordering.IsListing(x.prepared, PreparedSet(x.m, x.source, x.sourceRoot), DestinationKey)
    requires jobs == JobsOf(x) && JobsReady(disk.tree, root, jobs) && JobsManaged(x.l, x.path, jobs)
    modifies disk, disk.oracle, disk.random
    ensures disk.Valid() && old(disk.trace) <= disk.trace && !r.Rejected?
    ensures r.NotOpened? ==> Parents.OnlyDirectoriesAppeared(old(disk.tree), disk.tree)
    ensures Preserved(old(disk.tree), disk.tree, root, x.l, x.path)
    ensures AllPreserved(old(disk.tree), disk.trace, |old(disk.trace)|, root, x.l, x.path)
    ensures AllRecoverable(old(disk.tree), disk.trace, |old(disk.trace)|, r.Attempted? && !r.outcome.publication,
                           x.m, x.source, x.sourceRoot, root)
    ensures !(r.Attempted? && r.outcome.rollback) ==>
      AlwaysInTurn(old(disk.tree), disk.trace, |old(disk.trace)|, x.m, x.source, x.sourceRoot, root, x.path,
                   disk.random.drawn)
    ensures r.Attempted? && r.outcome.publication && !r.outcome.rollback ==>
      forall loc | loc in old(disk.tree).names ::
        loc in disk.tree.names && disk.tree.names[loc] == old(disk.tree).names[loc]
    ensures r == Attempted(Publisher.ROLLED_BACK) ==> Restored(old(disk.tree), disk.tree, leak)
    ensures disk.oracle.failures >= old(disk.oracle.failures)
    ensures disk.oracle.failures == old(disk.oracle.failures) ==> leak.None?
    ensures disk.oracle.failures == old(disk.oracle.failures) ==>
      r == Attempted(if NameTaken(Targets(jobs), JobFlags(jobs), disk.random.suffixes,
                                  old(disk.random.draws)) then Publisher.ROLLED_BACK else Publisher.SUCCESS)
    ensures r == Attempted(Publisher.SUCCESS) ==> Delivered(x.m, x.source, x.sourceRoot, disk.tree, root)
    ensures r == Attempted(Publisher.SUCCESS) ==> ContentAt(disk.tree, root, x.path) == Some(x.provenance)
  {
    hide JobsReady, JobsManaged, OriginalsKept, Delivered, Restored, Preserved, AllPreserved, AllRecoverable,
         Parents.Opened, PlansValid, Publisher.Concluded, Publisher.Traced, Publisher.Started, Publisher.Logged,
         Publisher.Blocked, NameTaken, Publisher.NoClash, Parents.OnlyDirectoriesAppeared, SourcesReadable,
         PreparedSet, ValidEntries, JobFlags, JobsOf, Publisher.Stuck, TargetsFree, ContentAt, ProvenanceInTurn;
    leak := None;
    ghost var t0, next0, n, first := disk.tree, disk.next, |disk.trace|, disk.random.draws;
    JobTargets(t0, root, jobs);
    NoneSpecial(t0, root, jobs);
    var opening := Parents.OpenParents(disk, root, Targets(jobs));
    OpeningTrace(t0, disk.trace, n, root, x.l, x.path, x.m, x.source, x.sourceRoot);
    if opening.Err? {
      OpeningState(t0, disk.tree, root, x.l, x.path);
      OpeningInTurn(t0, disk.trace, n, x, disk.random.drawn);
      return NotOpened, None;
    }
    var o := opening.value;
    assert Placed(o, jobs);
    ghost var base, next, early := disk.tree, disk.next, disk.trace;
    PlansAreValid(t0, next0, base, next, root, o, jobs);
    Parents.OpenedValid(t0, next0, base, next, root, o, Targets(jobs));
    var items := new Item[|jobs|](i requires 0 <= i < |jobs| => Item(PlanOf(o, jobs[i]), "", None, false, "", None,
                                                                     false, false));
    var outcome;
    outcome, leak := Publisher.PublishTransaction(disk, o.dirs, items, PlansOf(o, jobs));
    TransactionTrace(x, t0, next0, base, next, o, early, disk.trace, n, outcome, disk.random.drawn);
    if !outcome.rollback {
      RunInTurn(x, t0, next0, base, next, o, early, disk.trace, n, outcome, disk.random.drawn);
    }
    EndState(x, t0, next0, base, next, disk.tree, o, outcome, leak);
    BlockedOnPaths(t0, next0, base, next, root, o, jobs, disk.random.suffixes, first);
    r := Attempted(outcome);
  }

  // One run of Sync. A staged file that it leaves behind is the leak.
  method Run(m: Manifest, commit: string, path: Path, source: Disk, sourceRoot: Inode, disk: Disk, root: Inode,
             c: Codec)
    returns (r: RunResult, ghost leak: Option<Loc>)
    requires disk.Valid() && source.Valid() && source.oracle == disk.oracle && source != disk && Lawful(c)
    requires DirectoryTree(disk.tree, disk.next, root)
    modifies disk, disk.oracle, disk.random
    ensures disk.Valid() && old(disk.trace) <= disk.trace
    ensures r.Rejected? ==> disk.tree == old(disk.tree) && disk.trace == old(disk.trace)
    ensures r.NotOpened? ==> Parents.OnlyDirectoriesAppeared(old(disk.tree), disk.tree)
    ensures !r.Rejected? ==> Undrifted(m, path, old(disk.tree), root, c)
    ensures !r.Rejected? ==> exists l ::
      && LoadedFrom(old(disk.tree), root, path, c, l) && Preserved(old(disk.tree), disk.tree, root, l, path)
      && AllPreserved(old(disk.tree), disk.trace, |old(disk.trace)|, root, l, path)
    ensures AllRecoverable(old(disk.tree), disk.trace, |old(disk.trace)|, r.Attempted? && !r.outcome.publication,
                           m, source.tree, sourceRoot, root)
    ensures !(r.Attempted? && r.outcome.rollback) ==>
      AlwaysInTurn(old(disk.tree), disk.trace, |old(disk.trace)|, m, source.tree, sourceRoot, root, path,
                   disk.random.drawn)
    ensures r.Attempted? && r.outcome.publication && !r.outcome.rollback ==>
      forall loc | loc in old(disk.tree).names ::
        loc in disk.tree.names && disk.tree.names[loc] == old(disk.tree).names[loc]
    ensures r == Attempted(Publisher.ROLLED_BACK) ==> Restored(old(disk.tree), disk.tree, leak)
    ensures r == Attempted(Publisher.SUCCESS) ==>
      Runnable(m, commit, path, source.tree, sourceRoot, old(disk.tree), root, c)
    ensures disk.oracle.failures == old(disk.oracle.failures) ==> leak.None?
    ensures disk.oracle.failures == old(disk.oracle.failures) ==>
      (r == Attempted(Publisher.SUCCESS) <==>
         && Runnable(m, commit, path, source.tree, sourceRoot, old(disk.tree), root, c)
         && !Unlucky(m, path, old(disk.tree), root, c, disk.random.suffixes, old(disk.random.draws)))
    ensures r == Attempted(Publisher.SUCCESS) ==> UpToDate(m, commit, path, source.tree, sourceRoot, disk.tree, root, c)
    ensures r == Attempted(Publisher.SUCCESS) ==>
      exists p :: DecodedAt(disk.tree, root, path, c) == Some(p) && p.commit == commit
                  && Attests(p, m, commit, source.tree, sourceRoot, c)
    ensures r == Attempted(Publisher.SUCCESS) ==> Verified(disk.tree, root, path, c)
    ensures r == Attempted(Publisher.SUCCESS) ==> Delivered(m, source.tree, sourceRoot, disk.tree, root)
  {
    hide Begun, UpToDate, Verified, Publishable, Runnable, Unlucky, LoadedFrom, JobsReady, JobsManaged, OriginalsKept,
         Delivered, Restored, Preserved, AllPreserved, NameTaken, SourcesReadable, PreparedSet, ValidEntries, JobsFor,
         JobFlags, ProvenanceInTurn, Undrifted;
    leak := None;
    ghost var t0, first := disk.tree, disk.random.draws;
    var begun := Begin(m, commit, path, source, sourceRoot, disk, root, c);
    if begun.Err? {
      if disk.oracle.failures == old(disk.oracle.failures) {
        RunnableBegins(m, commit, path, source.tree, sourceRoot, t0, root, c);
      }
      return Rejected, None;
    }
    var (loaded, prepared) := begun.value;
    BegunFacts(m, commit, path, loaded, source.tree, sourceRoot, disk.tree, root, c, prepared);
    var managed := ManagedFiles(loaded.provenance);
    var inspected := Inspect(disk, root, prepared, managed, false, c);
    RunnableExactly(m, commit, path, loaded, source.tree, sourceRoot, t0, root, c, prepared, managed);
    if inspected.Err? {
      return Rejected, None;
    }
    RunnableMeans(m, commit, path, source.tree, sourceRoot, t0, root, c);
    var desired := Provenance(SCHEMA_VERSION, m.repository, commit, m.license, RecordsOf(prepared, c));
    var jobs := JobsFor(prepared, inspected.value, path, c.encode(desired), loaded.snapshot);
    ghost var x := Prelude(m, path, source.tree, sourceRoot, root, loaded, prepared, inspected.value,
                           c.encode(desired));
    BegunLoads(m, commit, path, loaded, source.tree, sourceRoot, t0, root, c);
    JobsAreReady(m, commit, path, loaded, source.tree, sourceRoot, t0, root, c, prepared, inspected.value, managed,
                 c.encode(desired));
    TakenExactly(x, t0, managed, c, disk.random.suffixes, first);
    r, leak := Deliver(disk, root, jobs, x);
    if r == Attempted(Publisher.SUCCESS) {
      SuccessIsUpToDate(x, commit, t0, disk.tree, c);
      UpToDateVerifies(m, commit, path, source.tree, sourceRoot, disk.tree, root, c);
      ProvenanceReads(m, commit, path, source.tree, sourceRoot, disk.tree, root, c);
    }
  }

  // What the conclusion of the transaction means for the names that were there before the run.
  lemma EndState(x: Prelude, t0: Tree, next0: Inode, base: Tree, next: Inode, t: Tree, o: Parents.Opening,
                 outcome: Publisher.Outcome, leak: Option<Loc>)
    requires Ready(x, t0, next0, base, next, o)
    requires Publisher.Concluded(base, t, o.dirs, PlansOf(o, JobsOf(x)), outcome, leak)
    ensures Preserved(t0, t, x.root, x.l, x.path)
    ensures outcome.publication && !outcome.rollback ==>
      forall loc | loc in t0.names :: loc in t.names && t.names[loc] == t0.names[loc]
    ensures outcome == Publisher.ROLLED_BACK ==> Restored(t0, t, leak)
    ensures outcome == Publisher.SUCCESS ==>
      Delivered(x.m, x.source, x.sourceRoot, t, x.root) && ContentAt(t, x.root, x.path) == Some(x.provenance)
  {
    hide Parents.Opened, JobsReady, JobsManaged, Publisher.Confined, CrashSafe, Publisher.AllBack, Publisher.NamesBack,
         Restored, Preserved, PublishedExactly, Delivered, ContentAt, SourcesReadable, PreparedSet;
    RecoverableState(t0, next0, base, next, t, x.root, o, JobsOf(x), x.l, x.path, !outcome.publication);
    if outcome == Publisher.SUCCESS {
      StateDelivered(x.m, t0, next0, base, next, t, x.source, x.sourceRoot, x.root, o, JobsOf(x), x.prepared,
                     x.previous, x.path, x.provenance, x.l.snapshot);
    }
    NamesAfterRollback(t0, next0, base, next, t, x.root, o, JobsOf(x), leak);
  }

  lemma TakenExactly(x: Prelude, t0: Tree, managed: map<Path, Record>, c: Codec, suffixes: nat -> Suffix, first: nat)
    requires ValidEntries(x.m.entries) && SourcesReadable(x.m, x.source, x.sourceRoot) && |x.previous| == |x.prepared|
    requires Ordering.IsListing(x.prepared, PreparedSet(x.m, x.source, x.sourceRoot), DestinationKey)
    requires LoadedFrom(t0, x.root, x.path, c, x.l)
    requires managed.Keys == set i | 0 <= i < |x.l.provenance.entries| :: x.l.provenance.entries[i].destination
    requires forall i | 0 <= i < |x.prepared| :: x.previous[i].Present? <==> x.prepared[i].entry.destination in managed
    ensures NameTaken(Targets(JobsOf(x)), JobFlags(JobsOf(x)), suffixes, first) <==>
      Unlucky(x.m, x.path, t0, x.root, c, suffixes, first)
  {
    hide LoadedFrom, NameTaken, Unlucky, Order, ManagedBefore, JobsFor, SourcesReadable, PreparedSet, JobFlags,
         ValidEntries;
    TargetsInOrder(x.m, x.path, x.source, x.sourceRoot, x.prepared, x.previous, x.provenance, x.l.snapshot);
    FlagsInOrder(x.m, x.path, x.l, x.prepared, x.previous, x.provenance, managed);
    UnluckyExactly(x.m, x.path, t0, x.root, c, x.l, suffixes, first);
  }

  lemma RunnableBegins(m: Manifest, commit: string, path: Path, source: Tree, sourceRoot: Inode, t: Tree, root: Inode,
                       c: Codec)
    requires forall l :: !Begun(m, commit, path, l, source, sourceRoot, t, root, c)
    ensures !Runnable(m, commit, path, source, sourceRoot, t, root, c)
  {
  }

  // The inspection of the destinations decides.
  lemma RunnableExactly(m: Manifest, commit: string, path: Path, l: Loaded, source: Tree, sourceRoot: Inode, t: Tree,
                        root: Inode, c: Codec, prepared: seq<Prepared>, managed: map<Path, Record>)
    requires Begun(m, commit, path, l, source, sourceRoot, t, root, c)
    requires Ordering.IsListing(prepared, PreparedSet(m, source, sourceRoot), DestinationKey)
    requires managed.Keys == set i | 0 <= i < |l.provenance.entries| :: l.provenance.entries[i].destination
    requires forall i | 0 <= i < |l.provenance.entries| ::
      && l.provenance.entries[i].destination in managed
      && managed[l.provenance.entries[i].destination] == l.provenance.entries[i]
    ensures (forall i | 0 <= i < |prepared| :: Publishable(t, root, prepared[i], managed, c)) <==>
      Runnable(m, commit, path, source, sourceRoot, t, root, c)
  {
    hide LoadedFrom, PrefixFree;
    ListingEntries(m, source, sourceRoot, prepared);
    LoadedOnce(t, root, path, c, l);
    forall i | 0 <= i < |prepared|
      ensures Publishable(t, root, prepared[i], managed, c) <==>
        EntryRunnable(t, root, prepared[i].entry.destination, l.provenance, c)
    {
      ManagedRecord(t, root, prepared[i], l.provenance, managed, c);
    }
    if forall i | 0 <= i < |prepared| :: Publishable(t, root, prepared[i], managed, c) {
      forall i | 0 <= i < |m.entries| ensures EntryRunnable(t, root, m.entries[i].destination, l.provenance, c) {
        assert m.entries[i] in m.entries;
        var j :| 0 <= j < |prepared| && prepared[j].entry == m.entries[i];
        assert Publishable(t, root, prepared[j], managed, c);
      }
    }
    if Runnable(m, commit, path, source, sourceRoot, t, root, c) {
      forall i | 0 <= i < |prepared| ensures Publishable(t, root, prepared[i], managed, c) {
        assert prepared[i].entry in m.entries;
        var j :| 0 <= j < |m.entries| && m.entries[j] == prepared[i].entry;
        assert EntryRunnable(t, root, m.entries[j].destination, l.provenance, c);
      }
    }
  }

  lemma ManagedRecord(t: Tree, root: Inode, p: Prepared, provenance: Provenance, managed: map<Path, Record>, c: Codec)
    requires managed.Keys == set i | 0 <= i < |provenance.entries| :: provenance.entries[i].destination
    requires forall i | 0 <= i < |provenance.entries| ::
      && provenance.entries[i].destination in managed
      && managed[provenance.entries[i].destination] == provenance.entries[i]
    ensures Publishable(t, root, p, managed, c) <==> EntryRunnable(t, root, p.entry.destination, provenance, c)
  {
    if p.entry.destination in managed {
      var i :| 0 <= i < |provenance.entries| && provenance.entries[i].destination == p.entry.destination;
      assert managed[p.entry.destination] == provenance.entries[i];
    }
  }

  // An inspected target is a file or missing.
  lemma NoneSpecial(t: Tree, root: Inode, jobs: seq<Job>)
    requires JobsReady(t, root, jobs)
    ensures forall k | 0 <= k < |jobs| :: Look(t, root, Targets(jobs)[k]) != Special
  {
    forall k | 0 <= k < |jobs| ensures Look(t, root, Targets(jobs)[k]) != Special {
      assert Snapshot(t, root, jobs[k].target, jobs[k].previous);
    }
  }

  lemma JobTargets(t: Tree, root: Inode, jobs: seq<Job>)
    requires JobsReady(t, root, jobs)
    ensures forall i | 0 <= i < |jobs| :: Targets(jobs)[i] != []
  {
  }

  lemma BegunLoads(m: Manifest, commit: string, path: Path, l: Loaded, source: Tree, sourceRoot: Inode, t: Tree,
                   root: Inode, c: Codec)
    requires Begun(m, commit, path, l, source, sourceRoot, t, root, c)
    ensures LoadedFrom(t, root, path, c, l)
  {
  }

  lemma SuccessIsUpToDate(x: Prelude, commit: string, t0: Tree, t: Tree, c: Codec)
    requires Begun(x.m, commit, x.path, x.l, x.source, x.sourceRoot, t0, x.root, c)
    requires x.provenance == c.encode(Desired(x.m, commit, x.source, x.sourceRoot, c))
    requires Delivered(x.m, x.source, x.sourceRoot, t, x.root) && ContentAt(t, x.root, x.path) == Some(x.provenance)
    ensures UpToDate(x.m, commit, x.path, x.source, x.sourceRoot, t, x.root, c)
  {
    hide LoadedFrom, PrefixFree, ContentAt, ShowsProvenance;
    ShowsDesired(x.m, commit, x.path, x.source, x.sourceRoot, t, x.root, c);
    forall i | 0 <= i < |x.m.entries| ensures SameDigest(t, x.root, x.m.entries[i], x.source, x.sourceRoot, c) {
      assert x.m.entries[i] in x.m.entries;
      assert SameContent(x.m.entries[i], x.source, x.sourceRoot, t, x.root);
    }
  }
}
