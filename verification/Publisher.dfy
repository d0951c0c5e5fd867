/** The publication transaction of internal/coresync/sync.go: staging, publishing with live backups,
    validation, rollback in reverse order and cleanup, with any primitive failing at any point. */
module Publisher {
  import opened Wrappers
  import opened FileSystem
  import opened Publication

  const MAX_NAME_ATTEMPTS := 100
  const STAGE_CREATE_MODE: nat := 0x180

  // ---------- Reading and validating ----------

  // readRootRegularFile for a name in an open directory.
  method ReadRegular(disk: Disk, loc: Loc, allowMissing: bool) returns (r: Result<Previous, ()>)
    requires disk.Valid()
    modifies disk.oracle
    ensures disk.oracle.failures >= old(disk.oracle.failures)
    ensures r == Ok(Absent) ==> allowMissing && loc !in disk.tree.names
    ensures r.Ok? && r.value.Present? ==>
      IsFile(disk.tree, loc, r.value.ino) && disk.tree.files[r.value.ino] == File(r.value.content, r.value.mode)
    ensures r.Err? ==>
      disk.oracle.failures > old(disk.oracle.failures) || (loc !in disk.tree.names && !allowMissing)
      || (loc in disk.tree.names && !disk.tree.names[loc].FileEntry?)
  {
    var component := disk.Lstat(loc);
    if component.Err? {
      return if component.error == NotExist && allowMissing then Ok(Absent) else Err(());
    }
    if component.value.OtherEntry? {
      return Err(());
    }
    var before := disk.Lstat(loc);
    if before.Err? {
      return if before.error == NotExist && allowMissing then Ok(Absent) else Err(());
    }
    if !before.value.FileEntry? {
      return Err(());
    }
    var failed := disk.Touch();
    if failed {
      return Err(());
    }
    var file := disk.ReadFile(before.value.ino);
    if file.Err? {
      return Err(());
    }
    var after := disk.Lstat(loc);
    if after.Err? || after.value != before.value {
      return Err(());
    }
    return Ok(Present(before.value.ino, file.value.content, file.value.mode));
  }

  // An expected inode is linked here with the expected content and mode.
  ghost predicate FileIs(t: Tree, loc: Loc, expected: Option<Inode>, content: Bytes, mode: nat) {
    && expected.Some?
    && IsFile(t, loc, expected.value)
    && expected.value in t.files
    && t.files[expected.value] == File(content, mode)
  }

  // validateArtifact and validatePublishedTarget: the expected inode with the expected content and mode.
  method ValidateFile(disk: Disk, loc: Loc, expected: Option<Inode>, content: Bytes, mode: nat) returns (failed: bool)
    requires disk.Valid()
    modifies disk.oracle
    ensures disk.oracle.failures >= old(disk.oracle.failures)
    ensures !failed ==> FileIs(disk.tree, loc, expected, content, mode)
    ensures failed ==>
      disk.oracle.failures > old(disk.oracle.failures) || !FileIs(disk.tree, loc, expected, content, mode)
  {
    var r := ReadRegular(disk, loc, false);
    return r.Err? || r.value.Absent? || expected != Some(r.value.ino)
           || r.value.content != content || r.value.mode != mode;
  }

  ghost predicate StagedIntact(t: Tree, it: Item) {
    it.stagedExists ==> FileIs(t, StagedLoc(it), it.stagedInfo, it.plan.desired, it.plan.mode)
  }

  ghost predicate BackupIntact(t: Tree, it: Item) {
    it.backupExists ==>
      && it.plan.previous.Present?
      && FileIs(t, BackupLoc(it), it.backupInfo, it.plan.previous.content, it.plan.previous.mode)
  }

  method ValidateStaged(disk: Disk, it: Item) returns (failed: bool)
    requires disk.Valid()
    modifies disk.oracle
    ensures disk.oracle.failures >= old(disk.oracle.failures)
    ensures !failed ==> StagedIntact(disk.tree, it)
    ensures failed ==> disk.oracle.failures > old(disk.oracle.failures) || !StagedIntact(disk.tree, it)
  {
    if !it.stagedExists {
      return false;
    }
    failed := ValidateFile(disk, StagedLoc(it), it.stagedInfo, it.plan.desired, it.plan.mode);
  }

  method ValidateBackup(disk: Disk, it: Item) returns (failed: bool)
    requires disk.Valid()
    modifies disk.oracle
    ensures disk.oracle.failures >= old(disk.oracle.failures)
    ensures !failed ==> BackupIntact(disk.tree, it)
    ensures failed ==> disk.oracle.failures > old(disk.oracle.failures) || !BackupIntact(disk.tree, it)
  {
    if !it.backupExists || it.plan.previous.Absent? {
      return it.backupExists;
    }
    failed := ValidateFile(disk, BackupLoc(it), it.backupInfo, it.plan.previous.content, it.plan.previous.mode);
  }

  // validateStablePublicationTarget: unchanged content and mode for a managed target, absence for a new one.
  method ValidateTarget(disk: Disk, p: Plan) returns (failed: bool)
    requires disk.Valid()
    modifies disk.oracle
    ensures disk.oracle.failures >= old(disk.oracle.failures)
    ensures !failed && p.previous.Absent? ==> Target(p) !in disk.tree.names
    ensures failed ==> disk.oracle.failures > old(disk.oracle.failures) || !PlanMatches(disk.tree, p)
  {
    var r := ReadRegular(disk, Target(p), true);
    if r.Err? {
      return true;
    }
    match p.previous {
      case Absent => return r.value.Present?;
      case Present(_, content, mode) => return r.value.Absent? || r.value.content != content || r.value.mode != mode;
    }
  }

  // A directory on the way to a target, opened and possibly created before the transaction.
  datatype Directory = Directory(parent: Inode, name: Name, ino: Inode, created: bool)

  function DirLoc(d: Directory): Loc { Loc(d.parent, d.name) }

  ghost predicate DirsPresent(t: Tree, dirs: seq<Directory>) {
    forall i | 0 <= i < |dirs| :: DirLoc(dirs[i]) in t.names && t.names[DirLoc(dirs[i])] == DirEntry(dirs[i].ino)
  }

  method ValidateDirectories(disk: Disk, dirs: seq<Directory>) returns (failed: bool)
    modifies disk.oracle
    ensures disk.oracle.failures >= old(disk.oracle.failures)
    ensures !failed ==> DirsPresent(disk.tree, dirs)
    ensures failed ==> disk.oracle.failures > old(disk.oracle.failures) || !DirsPresent(disk.tree, dirs)
  {
    for i := 0 to |dirs|
      invariant disk.oracle.failures >= old(disk.oracle.failures)
      invariant DirsPresent(disk.tree, dirs[..i])
    {
      var r := disk.Lstat(DirLoc(dirs[i]));
      if r.Err? || r.value != DirEntry(dirs[i].ino) {
        return true;
      }
    }
    return false;
  }

  // removeArtifactIfUnchanged
  method RemoveArtifactIfUnchanged(disk: Disk, loc: Loc, expected: Option<Inode>) returns (failed: bool)
    requires disk.Valid()
    modifies disk`tree, disk`trace, disk.oracle
    ensures disk.Valid() && disk.oracle.failures >= old(disk.oracle.failures)
    ensures failed ==> disk.tree == old(disk.tree) && disk.trace == old(disk.trace)
    ensures !failed && expected.Some? && loc.name != "" && loc in old(disk.tree).names ==>
      && disk.tree == old(disk.tree).(names := old(disk.tree).names - {loc})
      && disk.trace == old(disk.trace) + [disk.tree]
    ensures !failed && !(expected.Some? && loc.name != "" && loc in old(disk.tree).names) ==>
      disk.tree == old(disk.tree) && disk.trace == old(disk.trace)
    ensures failed ==>
      || disk.oracle.failures > old(disk.oracle.failures)
      || (expected.Some? && !IsFile(old(disk.tree), loc, expected.value))
    ensures disk.oracle.refused == old(disk.oracle.refused) || disk.oracle.refused == old(disk.oracle.refused) + [loc]
    ensures !failed ==> disk.oracle.refused == old(disk.oracle.refused)
    ensures failed && expected.Some? && IsFile(old(disk.tree), loc, expected.value) ==>
      disk.oracle.refused == old(disk.oracle.refused) + [loc]
    ensures old(disk.oracle.Quiet()) ==>
      disk.oracle.Quiet() && disk.oracle.failures == old(disk.oracle.failures)
  {
    if loc.name == "" || expected.None? {
      return false;
    }
    var r := disk.Lstat(loc);
    if r.Err? {
      return r.error != NotExist;
    }
    if r.value != FileEntry(expected.value) {
      return true;
    }
    var error := disk.Remove(loc);
    return error.Some?;
  }

  // ---------- Staging ----------

  // randomArtifactName
  method RandomArtifactName(disk: Disk, prefix: Name, ghost parent: Inode) returns (r: Option<Name>)
    modifies disk.oracle, disk.random
    ensures r.Some? <==> !disk.oracle.fate(old(disk.oracle.count))
    ensures disk.oracle.count == old(disk.oracle.count) + 1 && disk.oracle.refused == old(disk.oracle.refused)
    ensures disk.oracle.failures == old(disk.oracle.failures) + Count(r.None?)
    ensures disk.random.draws == old(disk.random.draws) + Count(r.Some?)
    ensures r.Some? ==>
      && r.value == prefix + disk.random.suffixes(old(disk.random.draws)) && Behind(prefix, r.value)
      && disk.random.drawn == old(disk.random.drawn) + {Loc(parent, r.value)}
    ensures r.None? ==> disk.random.drawn == old(disk.random.drawn)
  {
    var fails := disk.oracle.Fails();
    if fails {
      return None;
    }
    var name := disk.random.Draw(prefix, parent);
    assert name[|prefix|..] == disk.random.suffixes(old(disk.random.draws));
    return Some(name);
  }

  function Count(b: bool): nat {
    if b then 1 else 0
  }

  // The staged file at this name stays behind: it could not be inspected right after its creation, or a later
  // call on it failed and so did the removal that follows.
  ghost predicate LeftBehind(calls: seq<FileCall>, refused: seq<Loc>, loc: Loc) {
    || FileCall(Stat, loc) in calls
    || ((exists op: FileOp :: op != Stat && FileCall(op, loc) in calls) && loc in refused)
  }

  // The next name drawn for a staged file.
  function NextStaged(parent: Inode, suffixes: nat -> Suffix, draws: nat): Loc {
    Loc(parent, STAGE_PREFIX + suffixes(draws))
  }

  // The next two calls draw a name and create a file there.
  ghost predicate Creates(fate: nat -> bool, count: nat, loc: Loc, t: Tree) {
    !fate(count) && !fate(count + 1) && loc !in t.names
  }

  function Created(t: Tree, loc: Loc, ino: Inode): Tree {
    Tree(t.names[loc := FileEntry(ino)], t.files[ino := File("", STAGE_CREATE_MODE)])
  }

  // The third call, which inspects that file, fails and no later call does.
  ghost predicate OnlyInspectionFails(fate: nat -> bool, count: nat) {
    FailsLast(fate, count + 2)
  }

  ghost predicate FailsLast(fate: nat -> bool, count: nat) {
    fate(count) && forall k | k > count :: !fate(k)
  }

  // createStagedFile. The clean-up after a failure drops its own error, and a failed first inspection is
  // followed by none: these are the ways in which a staged file stays behind.
  method CreateStagedFile(disk: Disk, parent: Inode, content: Bytes, mode: nat)
    returns (r: Result<(Name, Inode), ()>, ghost leak: Option<Loc>)
    requires disk.Valid()
    modifies disk, disk.oracle, disk.random
    ensures disk.Valid() && old(disk.trace) <= disk.trace
    ensures forall k | |old(disk.trace)| <= k < |disk.trace| ::
      OnlyArtifactsAppeared(old(disk.tree), disk.trace[k], disk.random.drawn)
    ensures KeepsFiles(old(disk.tree), disk.tree) && old(disk.random.drawn) <= disk.random.drawn
    ensures r.Ok? ==> var (name, ino) := r.value;
      && leak.None? && StageName(name) && Loc(parent, name) !in old(disk.tree).names && ino !in old(disk.tree).files
      && disk.tree.names == old(disk.tree).names[Loc(parent, name) := FileEntry(ino)]
      && ino in disk.tree.files && disk.tree.files[ino] == File(content, mode)
      && Loc(parent, name) in disk.random.drawn
    ensures r.Ok? ==> disk.fileFailures == old(disk.fileFailures) && disk.oracle.refused == old(disk.oracle.refused)
    ensures r.Ok? && disk.oracle.failures == old(disk.oracle.failures) ==>
      && disk.random.draws == old(disk.random.draws) + 1
      && r.value.0 == STAGE_PREFIX + disk.random.suffixes(old(disk.random.draws))
      && disk.random.drawn == old(disk.random.drawn) + {Loc(parent, r.value.0)} && |disk.trace| > |old(disk.trace)|
      && disk.trace[|old(disk.trace)|].names
         == old(disk.tree).names[Loc(parent, r.value.0) := FileEntry(r.value.1)]
    ensures leak.Some? ==>
      && StageName(leak.value.name) && leak.value !in old(disk.tree).names && leak.value in disk.random.drawn
      && exists ino :: ino !in old(disk.tree).files
                       && disk.tree.names == old(disk.tree).names[leak.value := FileEntry(ino)]
    ensures r.Err? && leak.None? ==> disk.tree.names == old(disk.tree).names
    ensures disk.oracle.failures >= old(disk.oracle.failures) + Count(r.Err?)
    ensures Logged(old(disk.fileFailures), disk.fileFailures, old(disk.oracle.refused), disk.oracle.refused, leak)
    ensures forall k | |old(disk.fileFailures)| <= k < |disk.fileFailures| ::
      disk.fileFailures[k].loc !in Without(disk.tree, leak).names
    ensures var loc := NextStaged(parent, disk.random.suffixes, old(disk.random.draws));
      Creates(disk.oracle.fate, old(disk.oracle.count), loc, old(disk.tree)) ==>
        && |disk.trace| > |old(disk.trace)|
        && disk.trace[|old(disk.trace)|] == Created(old(disk.tree), loc, old(disk.next))
        && (r.Ok? ==> r.value.0 == loc.name) && loc in disk.random.drawn
        && (OnlyInspectionFails(disk.oracle.fate, old(disk.oracle.count)) ==>
              leak == Some(loc) && disk.oracle.failures == old(disk.oracle.failures) + 1 && disk.oracle.Quiet())
  {
    hide OnlyArtifactsAppeared, Behind, LeftBehind, KeepsOthers, Completing, FailsLast;
    leak := None;
    ghost var before := disk.tree;
    for attempt := 0 to MAX_NAME_ATTEMPTS
      invariant disk.Valid() && disk.tree == before && disk.next == old(disk.next) && disk.trace == old(disk.trace)
      invariant disk.fileFailures == old(disk.fileFailures) && disk.oracle.refused == old(disk.oracle.refused)
      invariant old(disk.random.drawn) <= disk.random.drawn
      invariant disk.oracle.failures >= old(disk.oracle.failures) + attempt
      invariant attempt == 0 ==>
        disk.oracle.count == old(disk.oracle.count) && disk.random.draws == old(disk.random.draws)
      invariant attempt == 0 ==>
        disk.oracle.failures == old(disk.oracle.failures) && disk.random.drawn == old(disk.random.drawn)
      invariant attempt > 0 ==>
        !Creates(disk.oracle.fate, old(disk.oracle.count),
                 NextStaged(parent, disk.random.suffixes, old(disk.random.draws)), before)
    {
      var random := RandomArtifactName(disk, STAGE_PREFIX, parent);
      if random.None? {
        return Err(()), leak;
      }
      var name := random.value;
      var loc := Loc(parent, name);
      var created := disk.CreateExclusive(loc, STAGE_CREATE_MODE);
      if created == Err(Exist) {
        disk.oracle.Collide();
        continue;
      }
      if created.Err? {
        return Err(()), leak;
      }
      var ino := created.value;
      CreationAppears(before, disk.tree, loc, ino, disk.random.drawn);
      ghost var start := disk.tree;
      var failed;
      failed, leak := CompleteStagedFile(disk, loc, ino, content, mode);
      CompletionAppears(before, start, loc, ino, disk.trace, |old(disk.trace)| + 1, disk.random.drawn);
      WithoutCreated(before, start, disk.tree, loc, ino, leak, failed);
      return if failed then Err(()) else Ok((name, ino)), leak;
    }
    return Err(()), leak;
  }

  // Which staged file stays behind follows from the calls that failed since the start.
  ghost predicate Logged(calls0: seq<FileCall>, calls: seq<FileCall>, refused0: seq<Loc>, refused: seq<Loc>,
                         leak: Option<Loc>)
  {
    || (calls == calls0 && leak.None?)
    || (calls0 < calls && refused0 <= refused
        && forall loc :: LeftBehind(calls[|calls0|..], refused[|refused0|..], loc) <==> leak == Some(loc))
  }

  // What follows the creation: an inspection, whose failure ends the attempt at once, and then filling the file,
  // whose failure ends it with an attempt to remove the file.
  method CompleteStagedFile(disk: Disk, loc: Loc, ino: Inode, content: Bytes, mode: nat)
    returns (failed: bool, ghost leak: Option<Loc>)
    requires disk.Valid() && IsFile(disk.tree, loc, ino) && loc.name != ""
    modifies disk`tree, disk`trace, disk`fileFailures, disk.oracle
    ensures disk.Valid() && old(disk.trace) <= disk.trace
    ensures Completing(old(disk.tree), disk.tree, loc, ino)
    ensures forall k | |old(disk.trace)| <= k < |disk.trace| :: Completing(old(disk.tree), disk.trace[k], loc, ino)
    ensures failed ==> disk.tree.names == old(disk.tree).names - if leak.Some? then {} else {loc}
    ensures leak.Some? ==> failed && leak == Some(loc)
    ensures !failed ==>
      && disk.tree.names == old(disk.tree).names && ino in disk.tree.files
      && disk.tree.files[ino] == File(content, mode)
      && disk.fileFailures == old(disk.fileFailures) && disk.oracle.refused == old(disk.oracle.refused)
    ensures disk.oracle.failures >= old(disk.oracle.failures) + Count(failed)
    ensures Logged(old(disk.fileFailures), disk.fileFailures, old(disk.oracle.refused), disk.oracle.refused, leak)
    ensures forall k | |old(disk.fileFailures)| <= k < |disk.fileFailures| :: disk.fileFailures[k].loc == loc
    ensures FailsLast(disk.oracle.fate, old(disk.oracle.count)) ==>
      leak == Some(loc) && disk.oracle.failures == old(disk.oracle.failures) + 1 && disk.oracle.Quiet()
  {
    failed := disk.OnFile(FileCall(Stat, loc));
    if failed {
      var ignored := disk.OnFile(FileCall(CloseFile, loc));
      InspectionFailed(old(disk.fileFailures), disk.fileFailures, disk.oracle.refused, loc);
      return true, Some(loc);
    }
    failed := FillStagedFile(disk, loc, ino, content, mode);
    if !failed {
      return false, None;
    }
    var dropped := RemoveArtifactIfUnchanged(disk, loc, Some(ino));
    FillingFailed(old(disk.fileFailures), disk.fileFailures, old(disk.oracle.refused), disk.oracle.refused, loc,
                  dropped);
    return true, if dropped then Some(loc) else None;
  }

  // A state on the way: the new file may be gone again, and no other file changed.
  ghost predicate Completing(t: Tree, u: Tree, loc: Loc, ino: Inode) {
    (u.names == t.names || u.names == t.names - {loc}) && KeepsOthers(t, u, ino)
  }

  lemma InspectionFailed(calls0: seq<FileCall>, calls: seq<FileCall>, refused: seq<Loc>, loc: Loc)
    requires || calls == calls0 + [FileCall(Stat, loc)]
             || calls == calls0 + [FileCall(Stat, loc), FileCall(CloseFile, loc)]
    ensures Logged(calls0, calls, refused, refused, Some(loc))
  {
    assert calls[|calls0|..][0] == FileCall(Stat, loc);
  }

  lemma FillingFailed(calls0: seq<FileCall>, calls: seq<FileCall>, refused0: seq<Loc>, refused: seq<Loc>, loc: Loc,
                      dropped: bool)
    requires FailedAt(calls0, calls, loc) && refused == refused0 + if dropped then [loc] else []
    ensures Logged(calls0, calls, refused0, refused, if dropped then Some(loc) else None)
  {
    var c := calls[|calls0|];
    assert calls[|calls0|..][0] == c && c == FileCall(c.op, loc);
    forall other ensures LeftBehind(calls[|calls0|..], refused[|refused0|..], other) <==> dropped && other == loc {
    }
  }

  lemma CreationAppears(before: Tree, t: Tree, loc: Loc, ino: Inode, drawn: set<Loc>)
    requires StageName(loc.name) && loc in drawn && loc !in before.names && ino !in before.files
    requires t == Created(before, loc, ino)
    ensures OnlyArtifactsAppeared(before, t, drawn)
  {
  }

  // The states between the creation and the result differ from the tree before by the new file at most.
  lemma CompletionAppears(before: Tree, start: Tree, loc: Loc, ino: Inode, trace: seq<Tree>, n: nat, drawn: set<Loc>)
    requires StageName(loc.name) && loc in drawn && loc !in before.names && ino !in before.files
    requires start == Created(before, loc, ino) && forall k | n <= k < |trace| :: Completing(start, trace[k], loc, ino)
    ensures forall k | n <= k < |trace| :: OnlyArtifactsAppeared(before, trace[k], drawn)
  {
    hide StageName;
  }

  lemma WithoutCreated(before: Tree, start: Tree, t: Tree, loc: Loc, ino: Inode, leak: Option<Loc>, failed: bool)
    requires loc !in before.names && ino !in before.files && start == Created(before, loc, ino)
    requires Completing(start, t, loc, ino) && (leak.Some? ==> failed && leak == Some(loc))
    requires failed ==> t.names == start.names - if leak.Some? then {} else {loc}
    ensures KeepsFiles(before, t)
    ensures failed ==> Without(t, leak).names == before.names && loc !in Without(t, leak).names
    ensures leak.Some? ==> t.names == before.names[loc := FileEntry(ino)]
  {
    assert before.names[loc := FileEntry(ino)] - {loc} == before.names;
  }

  ghost predicate KeepsOthers(a: Tree, b: Tree, ino: Inode) {
    forall other | other in a.files && other != ino :: other in b.files && b.files[other] == a.files[other]
  }

  // Only these calls failed since then, none of them the inspection after the creation.
  ghost predicate FailedAt(calls0: seq<FileCall>, calls: seq<FileCall>, loc: Loc) {
    && calls0 <= calls && |calls0| < |calls|
    && forall k | |calls0| <= k < |calls| :: calls[k].loc == loc && calls[k].op != Stat
  }

  method StoreContent(disk: Disk, loc: Loc, ino: Inode, content: Bytes, mode: nat) returns (failed: bool)
    requires disk.Valid() && ino in disk.tree.files
    modifies disk`tree, disk`trace, disk`fileFailures, disk.oracle`count, disk.oracle`failures
    ensures disk.Valid() && disk.tree.names == old(disk.tree).names && old(disk.trace) <= disk.trace
    ensures disk.tree.files.Keys == old(disk.tree).files.Keys
    ensures KeepsOthers(old(disk.tree), disk.tree, ino)
    ensures forall k | |old(disk.trace)| <= k < |disk.trace| ::
      disk.trace[k].names == old(disk.tree).names && KeepsOthers(old(disk.tree), disk.trace[k], ino)
    ensures disk.oracle.failures == old(disk.oracle.failures) + Count(failed)
    ensures !failed ==> disk.tree.files[ino] == File(content, mode) && disk.fileFailures == old(disk.fileFailures)
    ensures failed ==> FailedAt(old(disk.fileFailures), disk.fileFailures, loc)
  {
    var file := disk.tree.files[ino].(mode := mode);
    failed := disk.Store(FileCall(Chmod, loc), ino, file);
    if !failed {
      failed := disk.Store(FileCall(Write, loc), ino, file.(content := content));
    }
  }

  // Chmod, Write, Sync, Stat and Close on the new file; after a failure it is closed as well.
  method FillStagedFile(disk: Disk, loc: Loc, ino: Inode, content: Bytes, mode: nat) returns (failed: bool)
    requires disk.Valid() && ino in disk.tree.files
    modifies disk`tree, disk`trace, disk`fileFailures, disk.oracle`count, disk.oracle`failures
    ensures disk.Valid() && disk.tree.names == old(disk.tree).names && old(disk.trace) <= disk.trace
    ensures disk.tree.files.Keys == old(disk.tree).files.Keys
    ensures KeepsOthers(old(disk.tree), disk.tree, ino)
    ensures forall k | |old(disk.trace)| <= k < |disk.trace| ::
      disk.trace[k].names == old(disk.tree).names && KeepsOthers(old(disk.tree), disk.trace[k], ino)
    ensures disk.oracle.failures >= old(disk.oracle.failures) + Count(failed)
    ensures !failed ==> disk.tree.files[ino] == File(content, mode) && disk.fileFailures == old(disk.fileFailures)
    ensures failed ==> FailedAt(old(disk.fileFailures), disk.fileFailures, loc)
  {
    failed := StoreContent(disk, loc, ino, content, mode);
    if !failed {
      failed := disk.OnFile(FileCall(Sync, loc));
    }
    if !failed {
      failed := disk.OnFile(FileCall(StatAgain, loc));
    }
    if failed {
      var ignored := disk.OnFile(FileCall(CloseFile, loc));
      return;
    }
    failed := disk.OnFile(FileCall(CloseFile, loc));
  }
  // ---------- The state between steps ----------

  // The tree without a leaked staged file.
  function Without(t: Tree, leak: Option<Loc>): Tree {
    if leak.Some? then t.(names := t.names - {leak.value}) else t
  }

  ghost predicate LeakValid(base: Tree, t: Tree, leak: Option<Loc>) {
    leak.Some? ==> leak.value in t.names && leak.value !in base.names && StageName(leak.value.name)
  }

  // The artifacts have names that were drawn.
  predicate Accounted(items: seq<Item>, leak: Option<Loc>, drawn: set<Loc>) {
    NamesDrawn(items, drawn) && (leak.Some? ==> leak.value in drawn)
  }

  ghost predicate Ready(base: Tree, plans: seq<Plan>, disk: Disk, items: array<Item>, leak: Option<Loc>)
    reads disk, disk.random, items
  {
    && disk.Valid() && PlansValid(base, plans) && Follows(items[..], plans) && LeakValid(base, disk.tree, leak)
    && Related(base, Without(disk.tree, leak), items[..]) && Accounted(items[..], leak, disk.random.drawn)
  }

  // Every state from n on is safe to crash in, and if wanted shows new provenance only with all files new,
  // unless a new provenance file and an artifact share a name.
  ghost predicate TraceGood(base: Tree, plans: seq<Plan>, trace: seq<Tree>, n: nat, validated: bool, ordered: bool,
                            drawn: set<Loc>)
  {
    forall k | n <= k < |trace| ::
      && CrashSafe(base, trace[k], plans, validated)
      && (ordered && ProvenanceFree(plans, drawn) && ProvenanceAtEnd(plans) ==> ProvenanceLast(base, trace[k], plans))
  }

  // The flags say what a crash would leave behind.
  lemma StateGood(base: Tree, t: Tree, items: seq<Item>, plans: seq<Plan>, leak: Option<Loc>, validated: bool,
                  drawn: set<Loc>)
    requires PlansValid(base, plans) && Follows(items, plans) && LeakValid(base, t, leak)
    requires Related(base, Without(t, leak), items) && Accounted(items, leak, drawn)
    requires if validated then AllPublished(items) else BackupsKept(items)
    ensures CrashSafe(base, t, plans, validated)
    ensures PrefixPublished(items) && ProvenanceFree(plans, drawn) && ProvenanceAtEnd(plans) ==>
      ProvenanceLast(base, t, plans)
  {
    hide Related, PlansValid, ProvenanceLast, AllNew, OriginalsLinked, OnlyTargetsAndArtifactsDiffer, ArtifactName;
    var u := Without(t, leak);
    RelatedDifference(base, u, items, plans);
    if validated {
      AllPublishedIsNew(base, u, items, plans);
    } else {
      RelatedIsSafe(base, u, items, plans);
    }
    assert CrashSafe(base, u, plans, validated);
    if PrefixPublished(items) && ProvenanceFree(plans, drawn) && ProvenanceAtEnd(plans) {
      RelatedIsOrdered(base, u, items, plans, drawn);
    }
    LeakAppears(base, t, leak, drawn);
    ArtifactsAreHarmless(base, u, t, plans, validated, drawn);
  }

  lemma LeakAppears(base: Tree, t: Tree, leak: Option<Loc>, drawn: set<Loc>)
    requires LeakValid(base, t, leak) && (leak.Some? ==> leak.value in drawn)
    ensures OnlyArtifactsAppeared(Without(t, leak), t, drawn)
  {
  }

  // Only item i may differ.
  predicate OnlyItem(before: seq<Item>, after: seq<Item>, i: nat) {
    |after| == |before| && forall k | 0 <= k < |after| && k != i :: after[k] == before[k]
  }

  predicate SameStage(a: Item, b: Item) {
    a.plan == b.plan && a.stagedName == b.stagedName && a.stagedInfo == b.stagedInfo && a.stagedExists == b.stagedExists
  }

  // ---------- Backups ----------

  // uniqueUnusedArtifactName for a backup
  method UniqueUnusedName(disk: Disk, parent: Inode) returns (r: Option<Name>)
    modifies disk.oracle, disk.random
    ensures old(disk.random.drawn) <= disk.random.drawn
    ensures disk.oracle.failures >= old(disk.oracle.failures) + Count(r.None?)
    ensures r.Some? ==>
      BackupName(r.value) && Loc(parent, r.value) !in disk.tree.names && Loc(parent, r.value) in disk.random.drawn
    ensures disk.oracle.failures == old(disk.oracle.failures) ==>
      && disk.random.draws == old(disk.random.draws) + 1 && r.Some?
      && r.value == BACKUP_PREFIX + disk.random.suffixes(old(disk.random.draws))
      && disk.random.drawn == old(disk.random.drawn) + {Loc(parent, r.value)}
  {
    for attempt := 0 to MAX_NAME_ATTEMPTS
      invariant disk.oracle.failures >= old(disk.oracle.failures) + attempt
      invariant old(disk.random.drawn) <= disk.random.drawn
      invariant attempt == 0 ==>
        disk.random.draws == old(disk.random.draws) && disk.random.drawn == old(disk.random.drawn)
    {
      var random := RandomArtifactName(disk, BACKUP_PREFIX, parent);
      if random.None? {
        return None;
      }
      var found := disk.Lstat(Loc(parent, random.value));
      if found == Err(NotExist) {
        return random;
      }
      if found.Err? {
        return None;
      }
      disk.oracle.Collide();
    }
    return None;
  }

  // A backup that was never confirmed is inspected before it is removed.
  method InspectBackup(disk: Disk, items: array<Item>, i: nat, ghost base: Tree, ghost plans: seq<Plan>)
    returns (failed: bool)
    requires i < items.Length && Ready(base, plans, disk, items, None) && items[i].backupExists
    modifies disk.oracle, items
    ensures Ready(base, plans, disk, items, None) && OnlyItem(old(items[..]), items[..], i)
    ensures Managed(items[i].plan)
    ensures items[i] == if failed then old(items[i]) else old(items[i]).(backupInfo := Some(items[i].plan.previous.ino))
    ensures disk.oracle.failures >= old(disk.oracle.failures) + Count(failed)
  {
    hide Related, ItemStep, PlansValid;
    BackupFacts(base, disk.tree, items[..], plans, i);
    var info := disk.Lstat(BackupLoc(items[i]));
    if info.Err? {
      return true;
    }
    ghost var before := items[..];
    var known := items[i].(backupInfo := Some(info.value.ino));
    BackupInfoStep(base, disk.tree, before, i);
    StepKeepsRelation(base, disk.tree, before, plans, i, known, disk.tree);
    items[i] := known;
    assert items[..] == before[i := known];
    return false;
  }

  // discardManagedBackup
  method DiscardBackup(disk: Disk, items: array<Item>, i: nat, ghost base: Tree, ghost plans: seq<Plan>,
                       ghost ordered: bool)
    returns (failed: bool)
    requires i < items.Length && Ready(base, plans, disk, items, None) && BackupsKept(items[..]) && !items[i].published
    requires ordered ==> PrefixPublished(items[..])
    modifies disk`tree, disk`trace, disk.oracle, items
    ensures Ready(base, plans, disk, items, None) && BackupsKept(items[..]) && (ordered ==> PrefixPublished(items[..]))
    ensures OnlyItem(old(items[..]), items[..], i) && !items[i].published && SameStage(old(items[i]), items[i])
    ensures old(disk.trace) <= disk.trace
    ensures TraceGood(base, plans, disk.trace, |old(disk.trace)|, false, ordered, disk.random.drawn)
    ensures !failed ==> !items[i].backupExists
    ensures disk.oracle.failures >= old(disk.oracle.failures) + if failed then 1 else 0
  {
    hide Related, CrashSafe, ProvenanceLast, PlansValid;
    if !items[i].backupExists {
      return false;
    }
    if items[i].backupInfo.None? {
      failed := InspectBackup(disk, items, i, base, plans);
      if failed {
        return;
      }
    }
    failed := DropBackup(disk, items, i, base, plans, ordered);
  }

  // Its link is removed, and its name forgotten.
  method DropBackup(disk: Disk, items: array<Item>, i: nat, ghost base: Tree, ghost plans: seq<Plan>,
                    ghost ordered: bool)
    returns (failed: bool)
    requires i < items.Length && Ready(base, plans, disk, items, None) && BackupsKept(items[..]) && !items[i].published
    requires items[i].backupExists && items[i].backupInfo.Some? && (ordered ==> PrefixPublished(items[..]))
    modifies disk`tree, disk`trace, disk.oracle, items
    ensures Ready(base, plans, disk, items, None) && OnlyItem(old(items[..]), items[..], i)
    ensures items[i] == if failed then old(items[i]) else Discarded(old(items[i]))
    ensures old(disk.trace) <= disk.trace
    ensures TraceGood(base, plans, disk.trace, |old(disk.trace)|, false, ordered, disk.random.drawn)
    ensures disk.oracle.failures >= old(disk.oracle.failures) + Count(failed)
  {
    hide Related, ItemStep, CrashSafe, ProvenanceLast, PlansValid;
    BackupFacts(base, disk.tree, items[..], plans, i);
    ghost var t, before := disk.tree, items[..];
    failed := RemoveArtifactIfUnchanged(disk, BackupLoc(items[i]), items[i].backupInfo);
    if failed {
      return;
    }
    PlanAt(base, plans, i);
    DiscardStep(base, t, before, i, Discarded(before[i]), disk.tree);
    StepKeepsRelation(base, t, before, plans, i, Discarded(before[i]), disk.tree);
    items[i] := Discarded(items[i]);
    assert items[..] == before[i := Discarded(before[i])];
    StateGood(base, disk.tree, items[..], plans, None, false, disk.random.drawn);
  }

  lemma PlanAt(base: Tree, plans: seq<Plan>, i: nat)
    requires PlansValid(base, plans) && i < |plans|
    ensures PlanMatches(base, plans[i])
  {
  }

  // What the relation says about an existing backup.
  lemma BackupFacts(base: Tree, t: Tree, items: seq<Item>, plans: seq<Plan>, i: nat)
    requires Follows(items, plans) && Related(base, t, items) && i < |items| && items[i].backupExists
    ensures Managed(items[i].plan) && BackupLoc(items[i]) in t.names
    ensures IsFile(t, BackupLoc(items[i]), items[i].plan.previous.ino)
    ensures items[i].backupName != ""
    ensures (items[i].backupInfo.Some? ==> items[i].backupInfo.value == items[i].plan.previous.ino)
  {
    assert ItemValid(base, t, items[i]);
    assert BackupLoc(items[i]) in Own(items[i]);
  }

  // createManagedBackup: a hard link under an unused name, then a check that it is the expected file.
  method CreateBackup(disk: Disk, items: array<Item>, i: nat, ghost base: Tree, ghost plans: seq<Plan>)
    returns (failed: bool)
    requires i < items.Length && Ready(base, plans, disk, items, None) && BackupsKept(items[..])
    requires PrefixPublished(items[..])
    requires !items[i].published && !items[i].backupExists && Managed(items[i].plan)
    modifies disk`tree, disk`trace, disk.oracle, disk.random, items
    ensures old(disk.random.drawn) <= disk.random.drawn
    ensures Ready(base, plans, disk, items, None) && BackupsKept(items[..]) && PrefixPublished(items[..])
    ensures OnlyItem(old(items[..]), items[..], i) && !items[i].published && SameStage(old(items[i]), items[i])
    ensures old(disk.trace) <= disk.trace
    ensures TraceGood(base, plans, disk.trace, |old(disk.trace)|, false, true, disk.random.drawn)
    ensures !failed ==> items[i].backupExists && items[i].backupInfo.Some?
    ensures disk.oracle.failures >= old(disk.oracle.failures) + Count(failed) + Count(failed && items[i].backupExists)
    ensures disk.oracle.failures == old(disk.oracle.failures) ==> NextBackup(disk, items[i], old(disk.random.draws))
    ensures disk.oracle.failures == old(disk.oracle.failures) ==>
      Exposed(base, plans, disk.trace, |old(disk.trace)|, old(disk.random.drawn), disk.random.drawn)
  {
    hide Related, ItemStep, CrashSafe, ProvenanceLast, PlansValid, Follows;
    failed := LinkBackup(disk, items, i, base, plans);
    if failed {
      return;
    }
    ghost var linked := disk.trace;
    failed := ConfirmBackup(disk, items, i, base, plans);
    if failed {
      var dropped := DiscardBackup(disk, items, i, base, plans, true);
    }
  }

  // The backup has the name that was next to be drawn.
  predicate NextBackup(disk: Disk, it: Item, draws: nat)
    reads disk.random
  {
    disk.random.draws == draws + 1 && it.backupName == BACKUP_PREFIX + disk.random.suffixes(draws)
  }

  method LinkBackup(disk: Disk, items: array<Item>, i: nat, ghost base: Tree, ghost plans: seq<Plan>)
    returns (failed: bool)
    requires i < items.Length && Ready(base, plans, disk, items, None) && BackupsKept(items[..])
    requires PrefixPublished(items[..])
    requires !items[i].published && !items[i].backupExists && Managed(items[i].plan)
    modifies disk`tree, disk`trace, disk.oracle, disk.random, items
    ensures old(disk.random.drawn) <= disk.random.drawn
    ensures Ready(base, plans, disk, items, None) && BackupsKept(items[..]) && PrefixPublished(items[..])
    ensures OnlyItem(old(items[..]), items[..], i) && !items[i].published && SameStage(old(items[i]), items[i])
    ensures old(disk.trace) <= disk.trace
    ensures TraceGood(base, plans, disk.trace, |old(disk.trace)|, false, true, disk.random.drawn)
    ensures items[i].plan == old(items[i].plan) && (items[i].backupExists <==> !failed)
    ensures disk.oracle.failures >= old(disk.oracle.failures) + if failed then 1 else 0
    ensures disk.oracle.failures == old(disk.oracle.failures) ==> NextBackup(disk, items[i], old(disk.random.draws))
    ensures disk.oracle.failures == old(disk.oracle.failures) ==>
      Exposed(base, plans, disk.trace, |old(disk.trace)|, old(disk.random.drawn), disk.random.drawn)
  {
    hide Related, ItemStep, CrashSafe, ProvenanceLast, PlansValid, Exposed;
    var p := items[i].plan;
    ghost var drawn := disk.random.drawn;
    var name := UniqueUnusedName(disk, p.parent);
    if name.None? {
      return true;
    }
    ghost var t, before := disk.tree, items[..];
    UnpublishedTarget(base, t, before, plans, i);
    RenameBackupStep(base, t, before, plans, i, name.value);
    items[i] := items[i].(backupName := name.value);
    assert items[..] == before[i := before[i].(backupName := name.value)];
    before := items[..];
    var error := disk.Link(Target(p), BackupLoc(items[i]));
    if error.Some? {
      return true;
    }
    BackupStep(base, t, before, i, name.value, disk.tree);
    StepKeepsRelation(base, t, before, plans, i, BackedUp(before[i], name.value), disk.tree);
    items[i] := items[i].(backupInfo := None, backupExists := true);
    assert items[..] == before[i := BackedUp(before[i], name.value)];
    StateGood(base, disk.tree, items[..], plans, None, false, disk.random.drawn);
    BackedUpTooSoon(base, t, before, plans, i, BackupLoc(items[i]), disk.trace, |old(disk.trace)|, drawn);
    return false;
  }

  method ConfirmBackup(disk: Disk, items: array<Item>, i: nat, ghost base: Tree, ghost plans: seq<Plan>)
    returns (failed: bool)
    requires i < items.Length && Ready(base, plans, disk, items, None) && BackupsKept(items[..])
    requires PrefixPublished(items[..])
    requires !items[i].published && items[i].backupExists && Managed(items[i].plan)
    modifies disk.oracle, items
    ensures Ready(base, plans, disk, items, None) && BackupsKept(items[..]) && PrefixPublished(items[..])
    ensures OnlyItem(old(items[..]), items[..], i) && !items[i].published && SameStage(old(items[i]), items[i])
    ensures items[i].backupName == old(items[i].backupName)
    ensures items[i].backupExists && (!failed ==> items[i].backupInfo.Some?)
    ensures disk.oracle.failures >= old(disk.oracle.failures) + if failed then 1 else 0
  {
    hide Related, ItemStep, CrashSafe, ProvenanceLast, PlansValid;
    BackupFacts(base, disk.tree, items[..], plans, i);
    UnpublishedTarget(base, disk.tree, items[..], plans, i);
    OriginalKept(base, disk.tree, items[..], plans, i);
    var p := items[i].plan;
    var backup := ReadRegular(disk, BackupLoc(items[i]), false);
    if backup.Err? || backup.value.Absent? {
      return true;
    }
    ghost var before := items[..];
    BackupFacts(base, disk.tree, before, plans, i);
    BackupInfoStep(base, disk.tree, before, i);
    StepKeepsRelation(base, disk.tree, before, plans, i, before[i].(backupInfo := Some(p.previous.ino)), disk.tree);
    items[i] := items[i].(backupInfo := Some(backup.value.ino));
    assert items[..] == before[i := before[i].(backupInfo := Some(p.previous.ino))];
    var live := disk.Lstat(Target(p));
    failed := || live != Ok(FileEntry(backup.value.ino))
              || backup.value.content != p.previous.content
              || backup.value.mode != p.previous.mode;
  }

  // The original file of a managed target is stored as it was.
  lemma OriginalKept(base: Tree, t: Tree, items: seq<Item>, plans: seq<Plan>, i: nat)
    requires PlansValid(base, plans) && Follows(items, plans) && Related(base, t, items) && i < |items|
    requires Managed(items[i].plan)
    ensures var previous := items[i].plan.previous;
            previous.ino in t.files && t.files[previous.ino] == File(previous.content, previous.mode)
  {
    assert PlanMatches(base, plans[i]);
  }

  // Choosing a name for a backup that does not exist yet owns nothing new.
  lemma RenameBackupStep(base: Tree, t: Tree, items: seq<Item>, plans: seq<Plan>, i: nat, name: Name)
    requires PlansValid(base, plans) && Follows(items, plans) && Related(base, t, items) && i < |items|
    requires !items[i].backupExists
    ensures Related(base, t, items[i := items[i].(backupName := name)])
    ensures Follows(items[i := items[i].(backupName := name)], plans)
  {
    assert ItemValid(base, t, items[i]);
    StepKeepsRelation(base, t, items, plans, i, items[i].(backupName := name), t);
  }

  // ---------- Publishing one item ----------

  // A managed target is backed up, and the backup checked again.
  method SecureOriginal(disk: Disk, dirs: seq<Directory>, items: array<Item>, i: nat, ghost base: Tree,
                        ghost plans: seq<Plan>)
    returns (failed: bool)
    requires i < items.Length && Ready(base, plans, disk, items, None)
    requires BackupsKept(items[..]) && PrefixPublished(items[..])
    requires !items[i].published && !items[i].backupExists && Managed(items[i].plan)
    modifies disk`tree, disk`trace, disk.oracle, disk.random, items
    ensures old(disk.random.drawn) <= disk.random.drawn
    ensures Ready(base, plans, disk, items, None) && BackupsKept(items[..]) && PrefixPublished(items[..])
    ensures OnlyItem(old(items[..]), items[..], i) && !items[i].published && SameStage(old(items[i]), items[i])
    ensures old(disk.trace) <= disk.trace
    ensures TraceGood(base, plans, disk.trace, |old(disk.trace)|, false, true, disk.random.drawn)
    ensures !failed ==> items[i].backupExists && items[i].backupInfo.Some?
    ensures disk.oracle.failures >= old(disk.oracle.failures)
    ensures failed && UnconfirmedBackup(items[i]) ==> disk.oracle.failures >= old(disk.oracle.failures) + 2
    ensures failed && DirsPresent(base, dirs) ==> disk.oracle.failures > old(disk.oracle.failures)
    ensures disk.oracle.failures == old(disk.oracle.failures) ==> NextBackup(disk, items[i], old(disk.random.draws))
    ensures disk.oracle.failures == old(disk.oracle.failures) ==>
      Exposed(base, plans, disk.trace, |old(disk.trace)|, old(disk.random.drawn), disk.random.drawn)
  {
    hide Related, CrashSafe, ProvenanceLast, PlansValid, DirsPresent, BackupIntact, Exposed;
    failed := CreateBackup(disk, items, i, base, plans);
    if failed {
      return;
    }
    DirectoriesIntact(base, disk.tree, items[..], plans, dirs);
    BackupStands(base, disk.tree, items[..], plans, i);
    failed := ValidateDirectories(disk, dirs);
    if failed {
      return;
    }
    failed := ValidateBackup(disk, items[i]);
  }

  // Directories and target are as they were inspected, and then the directories once more.
  method ValidateUnpublished(disk: Disk, dirs: seq<Directory>, p: Plan) returns (failed: bool)
    requires disk.Valid()
    modifies disk.oracle
    ensures disk.oracle.failures >= old(disk.oracle.failures)
    ensures !failed && p.previous.Absent? ==> Target(p) !in disk.tree.names
    ensures failed && DirsPresent(disk.tree, dirs) && PlanMatches(disk.tree, p) ==>
      disk.oracle.failures > old(disk.oracle.failures)
  {
    hide DirsPresent, PlanMatches;
    failed := ValidateDirectories(disk, dirs);
    if failed {
      return;
    }
    failed := ValidateTarget(disk, p);
    if failed {
      return;
    }
    failed := ValidateDirectories(disk, dirs);
  }

  // publishStableItem. Without a mishap it fails only when the target of a new file is taken.
  method PublishItem(disk: Disk, dirs: seq<Directory>, items: array<Item>, i: nat, ghost base: Tree,
                     ghost plans: seq<Plan>)
    returns (failed: bool)
    requires i < items.Length && Ready(base, plans, disk, items, None)
    requires BackupsKept(items[..]) && PrefixPublished(items[..])
    requires !items[i].published && !items[i].backupExists && items[i].stagedExists
    requires forall k | 0 <= k < i :: items[k].published
    modifies disk`tree, disk`trace, disk.oracle, disk.random, items
    ensures old(disk.random.drawn) <= disk.random.drawn
    ensures Ready(base, plans, disk, items, None) && BackupsKept(items[..]) && PrefixPublished(items[..])
    ensures OnlyItem(old(items[..]), items[..], i) && (items[i].published <==> !failed)
    ensures items[i].stagedName == old(items[i].stagedName)
    ensures items[i].stagedExists == (failed || !Managed(plans[i]))
    ensures old(disk.trace) <= disk.trace
    ensures TraceGood(base, plans, disk.trace, |old(disk.trace)|, false, true, disk.random.drawn)
    ensures disk.oracle.failures == old(disk.oracle.failures) ==>
      Exposed(base, plans, disk.trace, |old(disk.trace)|, old(disk.random.drawn), disk.random.drawn)
    ensures !failed && !Managed(plans[i]) ==> Target(plans[i]) !in old(disk.tree).names
    ensures disk.oracle.failures >= old(disk.oracle.failures)
    ensures failed && UnconfirmedBackup(items[i]) ==> disk.oracle.failures >= old(disk.oracle.failures) + 2
    ensures failed && DirsPresent(base, dirs) && (Managed(plans[i]) || Target(plans[i]) !in old(disk.tree).names) ==>
      disk.oracle.failures > old(disk.oracle.failures)
    ensures !failed && disk.oracle.failures == old(disk.oracle.failures) ==>
      if Managed(plans[i]) then NextBackup(disk, items[i], old(disk.random.draws))
      else disk.random.draws == old(disk.random.draws)
  {
    hide Related, ItemStep, CrashSafe, ProvenanceLast, PlansValid, DirsPresent, BackupIntact, StagedIntact, PlanMatches,
         Exposed;
    DirectoriesIntact(base, disk.tree, items[..], plans, dirs);
    TargetIntact(base, disk.tree, items[..], plans, i);
    var p := items[i].plan;
    ghost var some, n := disk.random.drawn, |disk.trace|;
    NothingDrawn(base, plans, disk.trace, n, some);
    failed := ValidateUnpublished(disk, dirs, p);
    if failed {
      return;
    }
    if p.previous.Present? {
      failed := SecureOriginal(disk, dirs, items, i, base, plans);
      if failed {
        return;
      }
    }
    StagedStands(base, disk.tree, items[..], plans, i);
    failed := ValidateStaged(disk, items[i]);
    if failed {
      return;
    }
    ghost var early := disk.trace;
    failed := MoveIntoPlace(disk, items, i, base, plans);
    if disk.oracle.failures == old(disk.oracle.failures) {
      ExposedStays(base, plans, early, disk.trace, n, some, disk.random.drawn);
    }
  }

  // A backup that exists although it was never confirmed.
  predicate UnconfirmedBackup(it: Item) {
    it.backupExists && it.backupInfo.None?
  }

  // A transaction changes files only, so it finds its directories where it opened them.
  lemma DirectoriesIntact(base: Tree, t: Tree, items: seq<Item>, plans: seq<Plan>, dirs: seq<Directory>)
    requires PlansValid(base, plans) && Follows(items, plans) && Related(base, t, items)
    ensures DirsPresent(base, dirs) ==> DirsPresent(t, dirs)
  {
    if DirsPresent(base, dirs) {
      forall i | 0 <= i < |dirs|
        ensures DirLoc(dirs[i]) in t.names && t.names[DirLoc(dirs[i])] == DirEntry(dirs[i].ino)
      {
        DirectoryNotOwned(base, t, items, plans, DirLoc(dirs[i]));
      }
    }
  }

  lemma DirectoryNotOwned(base: Tree, t: Tree, items: seq<Item>, plans: seq<Plan>, loc: Loc)
    requires PlansValid(base, plans) && Follows(items, plans) && Related(base, t, items) && loc in base.names
    requires base.names[loc].DirEntry?
    ensures SameAt(t, base, loc)
  {
    forall k | 0 <= k < |items| ensures loc !in Own(items[k]) {
      assert ItemValid(base, t, items[k]) && PlanMatches(base, plans[k]);
    }
    assert !Owned(items, loc);
  }

  // So it finds the managed targets it has not published yet, and the new ones still free unless taken.
  lemma TargetIntact(base: Tree, t: Tree, items: seq<Item>, plans: seq<Plan>, i: nat)
    requires PlansValid(base, plans) && Follows(items, plans) && Related(base, t, items)
    requires i < |items| && !items[i].published
    ensures Managed(plans[i]) || Target(plans[i]) !in t.names ==> PlanMatches(t, items[i].plan)
  {
    if Managed(plans[i]) {
      UnpublishedTarget(base, t, items, plans, i);
      OriginalKept(base, t, items, plans, i);
    }
  }

  lemma BackupStands(base: Tree, t: Tree, items: seq<Item>, plans: seq<Plan>, i: nat)
    requires PlansValid(base, plans) && Follows(items, plans) && Related(base, t, items) && i < |items|
    ensures items[i].backupExists && items[i].backupInfo.Some? ==> BackupIntact(t, items[i])
  {
    if items[i].backupExists && items[i].backupInfo.Some? {
      BackupFacts(base, t, items, plans, i);
      OriginalKept(base, t, items, plans, i);
    }
  }

  lemma StagedStands(base: Tree, t: Tree, items: seq<Item>, plans: seq<Plan>, i: nat)
    requires PlansValid(base, plans) && Follows(items, plans) && Related(base, t, items) && i < |items|
    ensures StagedIntact(t, items[i])
  {
    if items[i].stagedExists {
      StagedFacts(base, t, items, plans, i);
      assert ItemValid(base, t, items[i]);
    }
  }

  // The rename of a managed item and the link of a new one.
  method MoveIntoPlace(disk: Disk, items: array<Item>, i: nat, ghost base: Tree, ghost plans: seq<Plan>)
    returns (failed: bool)
    requires i < items.Length && Ready(base, plans, disk, items, None) && BackupsKept(items[..])
    requires PrefixPublished(items[..])
    requires !items[i].published && items[i].stagedExists
    requires Managed(items[i].plan) ==> items[i].backupExists && items[i].backupInfo.Some?
    requires forall k | 0 <= k < i :: items[k].published
    modifies disk`tree, disk`trace, disk.oracle, items
    ensures Ready(base, plans, disk, items, None) && BackupsKept(items[..]) && PrefixPublished(items[..])
    ensures OnlyItem(old(items[..]), items[..], i) && (items[i].published <==> !failed)
    ensures old(disk.trace) <= disk.trace
    ensures TraceGood(base, plans, disk.trace, |old(disk.trace)|, false, true, disk.random.drawn)
    ensures disk.oracle.failures >= old(disk.oracle.failures)
    ensures failed && (Managed(plans[i]) || Target(plans[i]) !in old(disk.tree).names) ==>
      disk.oracle.failures > old(disk.oracle.failures)
    ensures failed ==> items[..] == old(items[..])
    ensures !failed ==> items[i] == Published(old(items[i]))
    ensures !failed && !Managed(plans[i]) ==> Target(plans[i]) !in old(disk.tree).names
  {
    hide Related, ItemStep, CrashSafe, ProvenanceLast, PlansValid;
    ghost var t, before := disk.tree, items[..];
    StagedFacts(base, t, before, plans, i);
    var p := items[i].plan;
    if p.previous.Present? {
      UnpublishedTarget(base, t, before, plans, i);
      var error := disk.Rename(StagedLoc(items[i]), Target(p));
      if error.Some? {
        return true;
      }
      PublishManagedStep(base, t, before, plans, i, disk.tree);
      items[i] := items[i].(stagedExists := false, published := true);
    } else {
      var error := disk.Link(StagedLoc(items[i]), Target(p));
      if error.Some? {
        return true;
      }
      PublishNewStep(base, t, before, plans, i, disk.tree);
      items[i] := items[i].(published := true);
    }
    StepKeepsRelation(base, t, before, plans, i, Published(before[i]), disk.tree);
    assert items[..] == before[i := Published(before[i])];
    StateGood(base, disk.tree, items[..], plans, None, false, disk.random.drawn);
    return false;
  }

  // What the relation says about an existing staged file.
  lemma StagedFacts(base: Tree, t: Tree, items: seq<Item>, plans: seq<Plan>, i: nat)
    requires PlansValid(base, plans) && Follows(items, plans) && Related(base, t, items) && i < |items|
    requires items[i].stagedExists
    ensures items[i].stagedInfo.Some? && IsFile(t, StagedLoc(items[i]), items[i].stagedInfo.value)
    ensures items[i].stagedName != "" && items[i].stagedInfo.value !in base.files
    ensures Managed(plans[i]) ==> plans[i].previous.ino in base.files
  {
    assert ItemValid(base, t, items[i]) && PlanMatches(base, plans[i]);
    assert StagedLoc(items[i]) in Own(items[i]);
  }

  // ---------- Rollback ----------

  // restoreManagedPublicationIfSafe
  method RestoreManaged(disk: Disk, items: array<Item>, i: nat, ghost base: Tree, ghost plans: seq<Plan>,
                        ghost ordered: bool)
    returns (failed: bool)
    requires i < items.Length && Ready(base, plans, disk, items, None) && BackupsKept(items[..])
    requires Managed(items[i].plan) && items[i].published
    requires ordered ==> PrefixPublished(items[..]) && forall k | i < k < items.Length :: !items[k].published
    modifies disk`tree, disk`trace, disk.oracle, items
    ensures Ready(base, plans, disk, items, None) && BackupsKept(items[..]) && (ordered ==> PrefixPublished(items[..]))
    ensures OnlyItem(old(items[..]), items[..], i) && (items[i].published <==> failed)
    ensures !failed ==> !items[i].backupExists
    ensures old(disk.trace) <= disk.trace
    ensures TraceGood(base, plans, disk.trace, |old(disk.trace)|, false, ordered, disk.random.drawn)
    ensures disk.oracle.failures >= old(disk.oracle.failures) + if failed then 1 else 0
  {
    hide Related, ItemStep, CrashSafe, ProvenanceLast, PlansValid;
    if !items[i].backupExists {
      return true;
    }
    BackupStands(base, disk.tree, items[..], plans, i);
    PublishedFacts(base, disk.tree, items[..], plans, i);
    var p := items[i].plan;
    failed := ValidateBackup(disk, items[i]);
    if failed {
      return;
    }
    var live := ReadRegular(disk, Target(p), true);
    if live.Err? || live.value.Absent? || items[i].stagedInfo != Some(live.value.ino) || live.value.content != p.desired
       || live.value.mode != p.mode {
      return true;
    }
    ghost var t, before := disk.tree, items[..];
    BackupFacts(base, t, before, plans, i);
    PublishedFacts(base, t, before, plans, i);
    var error := disk.Rename(BackupLoc(items[i]), Target(p));
    if error.Some? {
      return true;
    }
    RestoreStep(base, t, before, plans, i, disk.tree);
    StepKeepsRelation(base, t, before, plans, i, Restored(before[i]), disk.tree);
    items[i] := Discarded(items[i]).(published := false);
    assert items[..] == before[i := Restored(before[i])];
    StateGood(base, disk.tree, items[..], plans, None, false, disk.random.drawn);
    return false;
  }

  lemma PublishedFacts(base: Tree, t: Tree, items: seq<Item>, plans: seq<Plan>, i: nat)
    requires PlansValid(base, plans) && Follows(items, plans) && Related(base, t, items) && i < |items|
    requires items[i].published
    ensures items[i].stagedInfo.Some? && IsFile(t, Target(plans[i]), items[i].stagedInfo.value)
    ensures items[i].stagedInfo.value !in base.files && (Managed(plans[i]) ==> plans[i].previous.ino in base.files)
    ensures FileIs(t, Target(plans[i]), items[i].stagedInfo, plans[i].desired, plans[i].mode)
  {
    assert ItemValid(base, t, items[i]) && PlanMatches(base, plans[i]);
    assert Target(plans[i]) in Own(items[i]);
  }

  // removeNewPublishedTargetIfSafe
  method RemoveNewTarget(disk: Disk, items: array<Item>, i: nat, ghost base: Tree, ghost plans: seq<Plan>,
                         ghost ordered: bool)
    returns (failed: bool)
    requires i < items.Length && Ready(base, plans, disk, items, None) && BackupsKept(items[..])
    requires !Managed(items[i].plan) && items[i].published
    requires ordered ==> PrefixPublished(items[..]) && forall k | i < k < items.Length :: !items[k].published
    modifies disk`tree, disk`trace, disk.oracle, items
    ensures Ready(base, plans, disk, items, None) && BackupsKept(items[..]) && (ordered ==> PrefixPublished(items[..]))
    ensures OnlyItem(old(items[..]), items[..], i) && (items[i].published <==> failed)
    ensures items[i].backupExists == old(items[i].backupExists)
    ensures old(disk.trace) <= disk.trace
    ensures TraceGood(base, plans, disk.trace, |old(disk.trace)|, false, ordered, disk.random.drawn)
    ensures disk.oracle.failures >= old(disk.oracle.failures) + if failed then 1 else 0
  {
    hide Related, ItemStep, CrashSafe, ProvenanceLast, PlansValid;
    var p := items[i].plan;
    ghost var t, before := disk.tree, items[..];
    PublishedFacts(base, t, before, plans, i);
    var live := ReadRegular(disk, Target(p), true);
    if live.Err? {
      return true;
    }
    if live.value.Present? {
      if items[i].stagedInfo != Some(live.value.ino) || live.value.content != p.desired || live.value.mode != p.mode {
        return true;
      }
      var error := disk.Remove(Target(p));
      if error.Some? {
        return true;
      }
    }
    RemoveNewStep(base, t, before, plans, i, disk.tree);
    StepKeepsRelation(base, t, before, plans, i, before[i].(published := false), disk.tree);
    items[i] := items[i].(published := false);
    assert items[..] == before[i := before[i].(published := false)];
    StateGood(base, disk.tree, items[..], plans, None, false, disk.random.drawn);
    return false;
  }

  // discardUnpublishedManagedBackupIfSafe
  method DiscardUnpublished(disk: Disk, items: array<Item>, i: nat, ghost base: Tree, ghost plans: seq<Plan>,
                            ghost ordered: bool)
    returns (failed: bool)
    requires i < items.Length && Ready(base, plans, disk, items, None) && BackupsKept(items[..]) && !items[i].published
    requires Managed(items[i].plan) && items[i].backupExists && (ordered ==> PrefixPublished(items[..]))
    modifies disk`tree, disk`trace, disk.oracle, items
    ensures Ready(base, plans, disk, items, None) && BackupsKept(items[..]) && (ordered ==> PrefixPublished(items[..]))
    ensures OnlyItem(old(items[..]), items[..], i) && !items[i].published
    ensures !failed ==> !items[i].backupExists
    ensures old(disk.trace) <= disk.trace
    ensures TraceGood(base, plans, disk.trace, |old(disk.trace)|, false, ordered, disk.random.drawn)
    ensures disk.oracle.failures >=
      old(disk.oracle.failures) + Count(failed && !old(UnconfirmedBackup(items[i])))
  {
    hide Related, ItemStep, CrashSafe, ProvenanceLast, PlansValid;
    BackupStands(base, disk.tree, items[..], plans, i);
    UnpublishedTarget(base, disk.tree, items[..], plans, i);
    OriginalKept(base, disk.tree, items[..], plans, i);
    BackupFacts(base, disk.tree, items[..], plans, i);
    failed := ValidateBackup(disk, items[i]);
    if failed {
      return;
    }
    var p := items[i].plan;
    var live := ReadRegular(disk, Target(p), false);
    if live.Err? || live.value.Absent? || items[i].backupInfo != Some(live.value.ino)
       || live.value.content != p.previous.content || live.value.mode != p.previous.mode {
      return true;
    }
    failed := DiscardBackup(disk, items, i, base, plans, ordered);
  }

  predicate AnyUnconfirmed(items: seq<Item>) {
    exists k :: 0 <= k < |items| && UnconfirmedBackup(items[k])
  }

  // rollbackStableItems: the items in reverse order, every failure recorded and the rest still attempted.
  method RollbackItems(disk: Disk, items: array<Item>, ghost base: Tree, ghost plans: seq<Plan>) returns (failed: bool)
    requires Ready(base, plans, disk, items, None) && BackupsKept(items[..]) && PrefixPublished(items[..])
    modifies disk`tree, disk`trace, disk.oracle, items
    ensures Ready(base, plans, disk, items, None) && BackupsKept(items[..])
    ensures !failed ==> forall k | 0 <= k < items.Length :: !items[k].published && !items[k].backupExists
    ensures old(disk.trace) <= disk.trace
    ensures TraceGood(base, plans, disk.trace, |old(disk.trace)|, false, !failed, disk.random.drawn)
    ensures disk.oracle.failures >= old(disk.oracle.failures)
    ensures failed && !old(AnyUnconfirmed(items[..])) ==> disk.oracle.failures > old(disk.oracle.failures)
  {
    hide Related, CrashSafe, ProvenanceLast, PlansValid;
    failed := false;
    var i := items.Length;
    while i > 0
      invariant 0 <= i <= items.Length
      invariant disk.oracle.failures >= old(disk.oracle.failures)
      invariant failed && !old(AnyUnconfirmed(items[..])) ==> disk.oracle.failures > old(disk.oracle.failures)
      invariant forall k | 0 <= k < i :: items[k] == old(items[..])[k]
      invariant Ready(base, plans, disk, items, None) && BackupsKept(items[..])
      invariant !failed ==> PrefixPublished(items[..])
      invariant !failed ==> forall k | i <= k < items.Length :: !items[k].published && !items[k].backupExists
      invariant old(disk.trace) <= disk.trace
      invariant TraceGood(base, plans, disk.trace, |old(disk.trace)|, false, !failed, disk.random.drawn)
    {
      i := i - 1;
      var itemFailed := false;
      if items[i].plan.previous.Present? {
        if items[i].published {
          itemFailed := RestoreManaged(disk, items, i, base, plans, !failed);
        } else if items[i].backupExists {
          itemFailed := DiscardUnpublished(disk, items, i, base, plans, !failed);
        }
      } else {
        NewHasNoBackup(base, disk.tree, items[..], i);
        if items[i].published {
          itemFailed := RemoveNewTarget(disk, items, i, base, plans, !failed);
        }
      }
      failed := failed || itemFailed;
    }
  }

  lemma NewHasNoBackup(base: Tree, t: Tree, items: seq<Item>, i: nat)
    requires Related(base, t, items) && i < |items| && !Managed(items[i].plan)
    ensures !items[i].backupExists
  {
    assert ItemValid(base, t, items[i]);
  }

  // ---------- Cleanup ----------

  // Backups may go once everything is published and validated; staged files at any time.
  predicate Cleanable(items: seq<Item>, validated: bool) {
    && PrefixPublished(items)
    && (if validated then AllPublished(items)
        else forall i | 0 <= i < |items| :: !items[i].backupExists && (items[i].published ==> !Managed(items[i].plan)))
    && (forall i | 0 <= i < |items| && items[i].backupExists :: items[i].backupInfo.Some?)
  }

  // The failed inspections and removals since then concern names of this tree.
  ghost predicate RefusedWithin(before: seq<Loc>, after: seq<Loc>, t: Tree) {
    before <= after && forall k | |before| <= k < |after| :: after[k] in t.names
  }

  lemma WithoutLeak(base: Tree, t: Tree, leak: Option<Loc>, loc: Loc, u: Tree)
    requires LeakValid(base, t, leak) && loc in Without(t, leak).names && u == t.(names := t.names - {loc})
    ensures LeakValid(base, u, leak)
    ensures Without(u, leak) == Without(t, leak).(names := Without(t, leak).names - {loc})
  {
    if leak.Some? {
      assert t.names - {loc} - {leak.value} == t.names - {leak.value} - {loc};
    }
  }

  method RemoveBackupArtifact(disk: Disk, items: array<Item>, i: nat, ghost base: Tree, ghost plans: seq<Plan>,
                              ghost leak: Option<Loc>, ghost validated: bool)
    returns (failed: bool)
    requires i < items.Length && Ready(base, plans, disk, items, leak)
    requires Cleanable(items[..], validated) && items[i].backupExists
    modifies disk`tree, disk`trace, disk.oracle, items
    ensures disk.oracle.failures >= old(disk.oracle.failures) + Count(failed)
    ensures Ready(base, plans, disk, items, leak) && Cleanable(items[..], validated)
    ensures items[..] == old(items[..])[i := old(items[..])[i].(backupExists := failed)]
    ensures old(disk.trace) <= disk.trace
    ensures TraceGood(base, plans, disk.trace, |old(disk.trace)|, validated, true, disk.random.drawn)
    ensures RefusedWithin(old(disk.oracle.refused), disk.oracle.refused, Without(old(disk.tree), leak))
    ensures disk.tree.names.Keys <= old(disk.tree).names.Keys
    ensures old(disk.oracle.Quiet()) ==> disk.oracle.Quiet() && disk.oracle.failures == old(disk.oracle.failures)
  {
    hide Related, ItemStep, CrashSafe, ProvenanceLast, PlansValid;
    ghost var t, before := disk.tree, items[..];
    BackupFacts(base, Without(t, leak), before, plans, i);
    failed := RemoveArtifactIfUnchanged(disk, BackupLoc(items[i]), items[i].backupInfo);
    if failed {
      assert items[..] == before[i := before[i].(backupExists := true)];
      return;
    }
    PlanAt(base, plans, i);
    WithoutLeak(base, t, leak, BackupLoc(before[i]), disk.tree);
    var after := before[i].(backupExists := false);
    DiscardStep(base, Without(t, leak), before, i, after, Without(disk.tree, leak));
    StepKeepsRelation(base, Without(t, leak), before, plans, i, after, Without(disk.tree, leak));
    items[i] := items[i].(backupExists := false);
    assert items[..] == before[i := after];
    StateGood(base, disk.tree, items[..], plans, leak, validated, disk.random.drawn);
  }

  method RemoveStagedArtifact(disk: Disk, items: array<Item>, i: nat, ghost base: Tree, ghost plans: seq<Plan>,
                              ghost leak: Option<Loc>, ghost validated: bool)
    returns (failed: bool)
    requires i < items.Length && Ready(base, plans, disk, items, leak)
    requires Cleanable(items[..], validated) && items[i].stagedExists
    modifies disk`tree, disk`trace, disk.oracle, items
    ensures disk.oracle.failures >= old(disk.oracle.failures) + Count(failed)
    ensures Ready(base, plans, disk, items, leak) && Cleanable(items[..], validated)
    ensures items[..] == old(items[..])[i := old(items[..])[i].(stagedExists := failed)]
    ensures old(disk.trace) <= disk.trace
    ensures TraceGood(base, plans, disk.trace, |old(disk.trace)|, validated, true, disk.random.drawn)
    ensures RefusedWithin(old(disk.oracle.refused), disk.oracle.refused, Without(old(disk.tree), leak))
    ensures disk.tree.names.Keys <= old(disk.tree).names.Keys
    ensures old(disk.oracle.Quiet()) ==> disk.oracle.Quiet() && disk.oracle.failures == old(disk.oracle.failures)
  {
    hide Related, ItemStep, CrashSafe, ProvenanceLast, PlansValid;
    ghost var t, before := disk.tree, items[..];
    StagedFacts(base, Without(t, leak), before, plans, i);
    failed := RemoveArtifactIfUnchanged(disk, StagedLoc(items[i]), items[i].stagedInfo);
    if failed {
      assert items[..] == before[i := before[i].(stagedExists := true)];
      return;
    }
    WithoutLeak(base, t, leak, StagedLoc(before[i]), disk.tree);
    var after := before[i].(stagedExists := false);
    RemoveStagedStep(base, Without(t, leak), before, i, Without(disk.tree, leak));
    StepKeepsRelation(base, Without(t, leak), before, plans, i, after, Without(disk.tree, leak));
    items[i] := items[i].(stagedExists := false);
    assert items[..] == before[i := after];
    StateGood(base, disk.tree, items[..], plans, leak, validated, disk.random.drawn);
  }

  // Clean-up changes only the flags of the artifacts.
  predicate SameNames(a: Item, b: Item) {
    a.plan == b.plan && a.published == b.published && a.stagedName == b.stagedName && a.backupName == b.backupName
  }

  // One round of that loop.
  method RemoveItemArtifacts(disk: Disk, items: array<Item>, i: nat, ghost base: Tree, ghost plans: seq<Plan>,
                             ghost leak: Option<Loc>, ghost validated: bool)
    returns (failed: bool)
    requires i < items.Length && Ready(base, plans, disk, items, leak) && Cleanable(items[..], validated)
    modifies disk`tree, disk`trace, disk.oracle, items
    ensures disk.oracle.failures >= old(disk.oracle.failures) + Count(failed)
    ensures Ready(base, plans, disk, items, leak) && Cleanable(items[..], validated)
    ensures OnlyItem(old(items[..]), items[..], i) && SameNames(items[i], old(items[i]))
    ensures !failed ==> !items[i].stagedExists && !items[i].backupExists
    ensures old(disk.trace) <= disk.trace
    ensures TraceGood(base, plans, disk.trace, |old(disk.trace)|, validated, true, disk.random.drawn)
    ensures RefusedWithin(old(disk.oracle.refused), disk.oracle.refused, Without(old(disk.tree), leak))
    ensures disk.tree.names.Keys <= old(disk.tree).names.Keys
    ensures old(disk.oracle.Quiet()) ==> disk.oracle.Quiet() && disk.oracle.failures == old(disk.oracle.failures)
  {
    hide Related, CrashSafe, ProvenanceLast, PlansValid, Cleanable, Follows, LeakValid, NamesDrawn;
    failed := false;
    if items[i].backupExists {
      failed := RemoveBackupArtifact(disk, items, i, base, plans, leak, validated);
    }
    if items[i].stagedExists {
      var stagedFailed := RemoveStagedArtifact(disk, items, i, base, plans, leak, validated);
      failed := failed || stagedFailed;
    }
  }

  // removePublicationArtifacts
  method RemoveArtifacts(disk: Disk, items: array<Item>, ghost base: Tree, ghost plans: seq<Plan>,
                         ghost leak: Option<Loc>, ghost validated: bool)
    returns (failed: bool)
    requires Ready(base, plans, disk, items, leak) && Cleanable(items[..], validated)
    modifies disk`tree, disk`trace, disk.oracle, items
    ensures disk.oracle.failures >= old(disk.oracle.failures) + Count(failed)
    ensures Ready(base, plans, disk, items, leak) && Cleanable(items[..], validated)
    ensures forall k | 0 <= k < items.Length :: SameNames(items[k], old(items[..])[k])
    ensures !failed ==> forall k | 0 <= k < items.Length :: !items[k].stagedExists && !items[k].backupExists
    ensures old(disk.trace) <= disk.trace
    ensures TraceGood(base, plans, disk.trace, |old(disk.trace)|, validated, true, disk.random.drawn)
    ensures RefusedWithin(old(disk.oracle.refused), disk.oracle.refused, Without(old(disk.tree), leak))
    ensures old(disk.oracle.Quiet()) ==> disk.oracle.Quiet() && disk.oracle.failures == old(disk.oracle.failures)
  {
    hide Related, CrashSafe, ProvenanceLast, PlansValid, Cleanable;
    failed := false;
    for i := 0 to items.Length
      invariant disk.oracle.failures >= old(disk.oracle.failures) + Count(failed)
      invariant Ready(base, plans, disk, items, leak) && Cleanable(items[..], validated)
      invariant forall k | 0 <= k < items.Length :: SameNames(items[k], old(items[..])[k])
      invariant !failed ==> forall k | 0 <= k < i :: !items[k].stagedExists && !items[k].backupExists
      invariant old(disk.trace) <= disk.trace
      invariant TraceGood(base, plans, disk.trace, |old(disk.trace)|, validated, true, disk.random.drawn)
      invariant disk.tree.names.Keys <= old(disk.tree).names.Keys
      invariant RefusedWithin(old(disk.oracle.refused), disk.oracle.refused, Without(old(disk.tree), leak))
      invariant old(disk.oracle.Quiet()) ==> disk.oracle.Quiet() && disk.oracle.failures == old(disk.oracle.failures)
    {
      var itemFailed := RemoveItemArtifacts(disk, items, i, base, plans, leak, validated);
      failed := failed || itemFailed;
    }
  }

  // ---------- Directories ----------

  // The directories above the targets, each after its parent; one created for the transaction holds
  // nothing but directories created after it.
  ghost predicate DirsValid(base: Tree, dirs: seq<Directory>) {
    && (forall i | 0 <= i < |dirs| ::
          DirLoc(dirs[i]) in base.names && base.names[DirLoc(dirs[i])] == DirEntry(dirs[i].ino))
    && (forall i, k | 0 <= i < k < |dirs| :: DirLoc(dirs[i]) != DirLoc(dirs[k]))
    && (forall i, loc | 0 <= i < |dirs| && dirs[i].created && loc in base.names && loc.dir == dirs[i].ino ::
          exists k | i < k < |dirs| :: dirs[k].created && loc == DirLoc(dirs[k]))
  }

  function CreatedLocs(dirs: seq<Directory>, from: nat): set<Loc>
    requires from <= |dirs|
  {
    set k | from <= k < |dirs| && dirs[k].created :: DirLoc(dirs[k])
  }

  // Some created directories are gone and nothing else changed.
  ghost predicate OnlyDirsRemoved(t: Tree, u: Tree, dirs: seq<Directory>) {
    && u.files == t.files
    && (forall loc | loc in u.names :: loc in t.names && u.names[loc] == t.names[loc])
    && (forall loc | loc in t.names && loc !in u.names :: t.names[loc].DirEntry? && loc in CreatedLocs(dirs, 0))
  }

  // Only targets and artifacts differ from the base, and created directories may be gone.
  ghost predicate Confined(base: Tree, t: Tree, dirs: seq<Directory>, plans: seq<Plan>) {
    && KeepsFiles(base, t)
    && (forall loc | loc in base.names :: loc in t.names || loc in CreatedLocs(dirs, 0))
    && (forall loc | !SameAt(t, base, loc) ::
          || (exists i | 0 <= i < |plans| :: loc == Target(plans[i]))
          || (ArtifactName(loc.name) && loc !in base.names)
          || (loc in CreatedLocs(dirs, 0) && loc !in t.names))
  }

  // A state that a crash of the transaction may leave behind.
  ghost predicate Recoverable(base: Tree, t: Tree, dirs: seq<Directory>, plans: seq<Plan>, validated: bool) {
    if validated then CrashSafe(base, t, plans, true)
    else Confined(base, t, dirs, plans) && OriginalsLinked(t, plans)
  }

  lemma SafeIsRecoverable(base: Tree, t: Tree, dirs: seq<Directory>, plans: seq<Plan>, validated: bool)
    requires CrashSafe(base, t, plans, validated)
    ensures Recoverable(base, t, dirs, plans, validated)
  {
    hide ArtifactName, AllNew, OriginalsLinked;
  }

  lemma DirsAreHarmless(base: Tree, t: Tree, u: Tree, dirs: seq<Directory>, plans: seq<Plan>)
    requires DirsValid(base, dirs) && PlansValid(base, plans) && OnlyDirsRemoved(t, u, dirs)
    requires CrashSafe(base, t, plans, false)
    ensures Recoverable(base, u, dirs, plans, false)
    ensures ProvenanceLast(base, t, plans) ==> ProvenanceLast(base, u, plans)
  {
    hide OnlyDirsRemoved, OnlyTargetsAndArtifactsDiffer, Confined, OriginalsLinked, ProvenanceLast, DirsValid,
         PlansValid;
    OriginalsSurvive(t, u, dirs, plans);
    OrderSurvives(base, t, u, dirs, plans);
    ConfinedAfter(base, t, u, dirs, plans);
  }

  lemma OriginalsSurvive(t: Tree, u: Tree, dirs: seq<Directory>, plans: seq<Plan>)
    requires OnlyDirsRemoved(t, u, dirs) && OriginalsLinked(t, plans)
    ensures OriginalsLinked(u, plans)
  {
    forall i | 0 <= i < |plans| ensures OriginalLinked(u, plans[i]) {
      if Managed(plans[i]) {
        assert OriginalLinked(t, plans[i]);
        var loc :| loc in t.names && loc.dir == plans[i].parent && t.names[loc] == FileEntry(plans[i].previous.ino)
                   && (loc == Target(plans[i]) || BackupName(loc.name));
        assert loc in u.names;
      }
    }
  }

  lemma ConfinedAfter(base: Tree, t: Tree, u: Tree, dirs: seq<Directory>, plans: seq<Plan>)
    requires OnlyTargetsAndArtifactsDiffer(base, t, plans) && OnlyDirsRemoved(t, u, dirs)
    ensures Confined(base, u, dirs, plans)
  {
    hide ArtifactName, CreatedLocs;
    assert forall loc | !SameAt(u, base, loc) && SameAt(t, base, loc) :: loc in CreatedLocs(dirs, 0) && loc !in u.names;
  }

  lemma OrderSurvives(base: Tree, t: Tree, u: Tree, dirs: seq<Directory>, plans: seq<Plan>)
    requires DirsValid(base, dirs) && PlansValid(base, plans) && OnlyDirsRemoved(t, u, dirs)
    ensures ProvenanceLast(base, t, plans) ==> ProvenanceLast(base, u, plans)
  {
    assert forall i | 0 <= i < |plans| && IsNew(base, t, plans[i]) :: IsNew(base, u, plans[i]);
    forall i | 0 <= i < |plans| ensures SameAt(u, base, Target(plans[i])) == SameAt(t, base, Target(plans[i])) {
      assert PlanMatches(base, plans[i]);
    }
  }

  // Everything but the created directories from i on is still there.
  ghost predicate DirsGone(t: Tree, u: Tree, dirs: seq<Directory>, i: nat)
    requires i <= |dirs|
  {
    u.names == t.names - CreatedLocs(dirs, i)
  }

  lemma CreatedLocsStep(dirs: seq<Directory>, i: nat)
    requires i < |dirs|
    ensures CreatedLocs(dirs, i) == CreatedLocs(dirs, i + 1) + if dirs[i].created then {DirLoc(dirs[i])} else {}
  {
  }

  // The tree has everything of the base, and nothing else in a created directory.
  ghost predicate Unencumbered(base: Tree, t: Tree, dirs: seq<Directory>) {
    && (forall loc | loc in base.names :: loc in t.names && t.names[loc] == base.names[loc])
    && (forall loc, k | loc in t.names && loc !in base.names && 0 <= k < |dirs| && dirs[k].created ::
          loc.dir != dirs[k].ino)
  }

  // When the later directories are gone, a created directory is present and empty.
  lemma CreatedIsEmpty(base: Tree, t: Tree, u: Tree, dirs: seq<Directory>, i: nat)
    requires DirsValid(base, dirs) && i < |dirs| && dirs[i].created && Unencumbered(base, t, dirs)
    requires DirsGone(t, u, dirs, i + 1)
    ensures DirLoc(dirs[i]) in u.names && u.names[DirLoc(dirs[i])] == DirEntry(dirs[i].ino)
    ensures Removable(u, DirLoc(dirs[i]))
  {
    forall loc | loc in u.names ensures loc.dir != dirs[i].ino {
      assert loc in t.names;
    }
  }

  lemma OneDirRemoved(t: Tree, u: Tree, dirs: seq<Directory>, loc: Loc)
    requires OnlyDirsRemoved(t, u, dirs) && loc in CreatedLocs(dirs, 0) && loc in u.names && u.names[loc].DirEntry?
    ensures OnlyDirsRemoved(t, u.(names := u.names - {loc}), dirs)
  {
    hide CreatedLocs;
  }

  method RemoveDirectory(disk: Disk, dirs: seq<Directory>, i: nat, ghost base: Tree, ghost t: Tree)
    returns (failed: bool)
    requires disk.Valid() && DirsValid(base, dirs) && i < |dirs| && dirs[i].created
    requires OnlyDirsRemoved(t, disk.tree, dirs)
    modifies disk`tree, disk`trace, disk.oracle
    ensures disk.Valid() && old(disk.trace) <= disk.trace && OnlyDirsRemoved(t, disk.tree, dirs)
    ensures forall k | |old(disk.trace)| <= k < |disk.trace| :: OnlyDirsRemoved(t, disk.trace[k], dirs)
    ensures disk.oracle.failures >= old(disk.oracle.failures)
    ensures !failed && DirsGone(t, old(disk.tree), dirs, i + 1) ==> DirsGone(t, disk.tree, dirs, i)
    ensures failed && Unencumbered(base, t, dirs) && DirsGone(t, old(disk.tree), dirs, i + 1) ==>
      disk.oracle.failures > old(disk.oracle.failures)
    ensures RefusedWithin(old(disk.oracle.refused), disk.oracle.refused, base)
    ensures old(disk.oracle.Quiet()) ==> disk.oracle.Quiet() && disk.oracle.failures == old(disk.oracle.failures)
  {
    CreatedLocsStep(dirs, i);
    if Unencumbered(base, t, dirs) && DirsGone(t, disk.tree, dirs, i + 1) {
      CreatedIsEmpty(base, t, disk.tree, dirs, i);
    }
    var loc := DirLoc(dirs[i]);
    assert loc in base.names && loc in CreatedLocs(dirs, 0);
    hide DirsValid, Unencumbered, CreatedLocs, OnlyDirsRemoved;
    var info := disk.Lstat(loc);
    if info == Err(NotExist) {
      return false;
    }
    if info != Ok(DirEntry(dirs[i].ino)) {
      return true;
    }
    OneDirRemoved(t, disk.tree, dirs, loc);
    var error := disk.Remove(loc);
    return error.Some?;
  }

  // closeStableDirectories, from the deepest directory up; created ones are removed if asked for.
  method CloseDirectories(disk: Disk, dirs: seq<Directory>, removeCreated: bool, ghost base: Tree)
    returns (failed: bool)
    requires disk.Valid() && DirsValid(base, dirs)
    modifies disk`tree, disk`trace, disk.oracle
    ensures disk.oracle.failures >= old(disk.oracle.failures)
    ensures disk.Valid() && old(disk.trace) <= disk.trace && OnlyDirsRemoved(old(disk.tree), disk.tree, dirs)
    ensures !removeCreated ==> disk.tree == old(disk.tree) && disk.trace == old(disk.trace)
    ensures forall k | |old(disk.trace)| <= k < |disk.trace| :: OnlyDirsRemoved(old(disk.tree), disk.trace[k], dirs)
    ensures removeCreated && !failed ==> DirsGone(old(disk.tree), disk.tree, dirs, 0)
    ensures failed && (!removeCreated || Unencumbered(base, old(disk.tree), dirs)) ==>
      disk.oracle.failures > old(disk.oracle.failures)
    ensures RefusedWithin(old(disk.oracle.refused), disk.oracle.refused, base)
    ensures old(disk.oracle.Quiet()) ==> disk.oracle.Quiet() && disk.oracle.failures == old(disk.oracle.failures)
  {
    hide DirsValid, OnlyDirsRemoved, Unencumbered;
    failed := false;
    var i := |dirs|;
    ghost var t := disk.tree;
    OnlyDirsRemovedReflexive(t, dirs);
    while i > 0
      invariant 0 <= i <= |dirs|
      invariant disk.Valid() && old(disk.trace) <= disk.trace && OnlyDirsRemoved(t, disk.tree, dirs)
      invariant !removeCreated ==> disk.tree == t && disk.trace == old(disk.trace)
      invariant forall k | |old(disk.trace)| <= k < |disk.trace| :: OnlyDirsRemoved(t, disk.trace[k], dirs)
      invariant removeCreated && disk.oracle.failures == old(disk.oracle.failures) && Unencumbered(base, t, dirs) ==>
        DirsGone(t, disk.tree, dirs, i)
      invariant removeCreated && !failed ==> DirsGone(t, disk.tree, dirs, i)
      invariant disk.oracle.failures >= old(disk.oracle.failures)
      invariant failed && (!removeCreated || Unencumbered(base, t, dirs)) ==>
        disk.oracle.failures > old(disk.oracle.failures)
      invariant RefusedWithin(old(disk.oracle.refused), disk.oracle.refused, base)
      invariant old(disk.oracle.Quiet()) ==> disk.oracle.Quiet() && disk.oracle.failures == old(disk.oracle.failures)
    {
      i := i - 1;
      CreatedLocsStep(dirs, i);
      var closeFailed := disk.Touch();
      failed := failed || closeFailed;
      if removeCreated && dirs[i].created {
        var removeFailed := RemoveDirectory(disk, dirs, i, base, t);
        failed := failed || removeFailed;
      }
    }
  }

  lemma OnlyDirsRemovedReflexive(t: Tree, dirs: seq<Directory>)
    ensures OnlyDirsRemoved(t, t, dirs) && DirsGone(t, t, dirs, |dirs|)
  {
    assert CreatedLocs(dirs, |dirs|) == {};
  }

  // ---------- The end of a transaction ----------

  // Which parts of the joined error are present; none of them means a nil result.
  datatype Outcome = Outcome(publication: bool, rollback: bool, cleanup: bool, close: bool)

  const SUCCESS := Outcome(false, false, false, false)

  const ROLLED_BACK := Outcome(true, false, false, false)

  // How many parts the joined error has.
  function Errors(o: Outcome): nat {
    Count(o.publication) + Count(o.rollback) + Count(o.cleanup) + Count(o.close)
  }

  // Provenance comes last, and as long as it differs no directory of the transaction is gone.
  ghost predicate InTurn(base: Tree, t: Tree, dirs: seq<Directory>, plans: seq<Plan>) {
    && ProvenanceLast(base, t, plans)
    && (CreatedLocs(dirs, 0) <= t.names.Keys || ProvenanceUnchanged(base, t, plans))
  }

  ghost predicate ProvenanceUnchanged(base: Tree, t: Tree, plans: seq<Plan>) {
    forall i | 0 <= i < |plans| && plans[i].provenance :: SameAt(t, base, Target(plans[i]))
  }

  // The states from n up to m are recoverable, and if wanted show new provenance only with all files new,
  // unless a new provenance file and an artifact share a name.
  ghost predicate TraceRecoverable(base: Tree, dirs: seq<Directory>, plans: seq<Plan>, trace: seq<Tree>, n: nat, m: nat,
                                   validated: bool, ordered: bool, drawn: set<Loc>)
    requires m <= |trace|
  {
    forall k | n <= k < m ::
      && Recoverable(base, trace[k], dirs, plans, validated)
      && (ordered && ProvenanceFree(plans, drawn) && ProvenanceAtEnd(plans) ==> InTurn(base, trace[k], dirs, plans))
  }

  lemma GoodIsRecoverable(base: Tree, dirs: seq<Directory>, plans: seq<Plan>, trace: seq<Tree>, n: nat,
                          validated: bool, ordered: bool, drawn: set<Loc>)
    requires DirsValid(base, dirs) && TraceGood(base, plans, trace, n, validated, ordered, drawn)
    ensures TraceRecoverable(base, dirs, plans, trace, n, |trace|, validated, ordered, drawn)
  {
    hide CrashSafe, Recoverable, ProvenanceLast, DirsValid, InTurn;
    forall k | n <= k < |trace|
      ensures Recoverable(base, trace[k], dirs, plans, validated)
      ensures ProvenanceLast(base, trace[k], plans) ==> InTurn(base, trace[k], dirs, plans)
    {
      SafeIsRecoverable(base, trace[k], dirs, plans, validated);
      if ProvenanceLast(base, trace[k], plans) {
        SafeIsInTurn(base, trace[k], dirs, plans, validated);
      }
    }
  }

  lemma SafeIsInTurn(base: Tree, t: Tree, dirs: seq<Directory>, plans: seq<Plan>, validated: bool)
    requires DirsValid(base, dirs) && CrashSafe(base, t, plans, validated) && ProvenanceLast(base, t, plans)
    ensures InTurn(base, t, dirs, plans)
  {
    hide ProvenanceLast, AllNew, OriginalsLinked, ArtifactName;
  }

  // Without published items the provenance file is as it was, unless an artifact has its name.
  lemma ProvenanceWithdrawn(base: Tree, t: Tree, items: seq<Item>, plans: seq<Plan>, leak: Option<Loc>,
                            drawn: set<Loc>)
    requires PlansValid(base, plans) && Follows(items, plans) && LeakValid(base, t, leak)
    requires Related(base, Without(t, leak), items) && Accounted(items, leak, drawn)
    requires forall k | 0 <= k < |items| :: !items[k].published
    ensures ProvenanceFree(plans, drawn) ==> ProvenanceUnchanged(base, t, plans)
  {
    if ProvenanceFree(plans, drawn) {
      forall i | 0 <= i < |plans| && plans[i].provenance ensures SameAt(t, base, Target(plans[i])) {
        UnpublishedUnchanged(base, Without(t, leak), items, plans, drawn, i);
        assert PlanMatches(base, plans[i]);
      }
    }
  }

  lemma ClosingRecoverable(base: Tree, t: Tree, dirs: seq<Directory>, plans: seq<Plan>, trace: seq<Tree>, n: nat,
                           drawn: set<Loc>)
    requires DirsValid(base, dirs) && PlansValid(base, plans) && CrashSafe(base, t, plans, false)
    requires ProvenanceFree(plans, drawn) ==> ProvenanceUnchanged(base, t, plans)
    requires forall k | n <= k < |trace| :: OnlyDirsRemoved(t, trace[k], dirs)
    ensures TraceRecoverable(base, dirs, plans, trace, n, |trace|, false, true, drawn)
  {
    hide CrashSafe, Recoverable, PlansValid, DirsValid, OnlyDirsRemoved, ProvenanceUnchanged;
    forall k | n <= k < |trace|
      ensures Recoverable(base, trace[k], dirs, plans, false)
      ensures ProvenanceFree(plans, drawn) ==> InTurn(base, trace[k], dirs, plans)
    {
      DirsAreHarmless(base, t, trace[k], dirs, plans);
      if ProvenanceFree(plans, drawn) {
        UnchangedSurvives(base, t, trace[k], dirs, plans);
      }
    }
  }

  lemma UnchangedSurvives(base: Tree, t: Tree, u: Tree, dirs: seq<Directory>, plans: seq<Plan>)
    requires DirsValid(base, dirs) && PlansValid(base, plans) && OnlyDirsRemoved(t, u, dirs)
    requires ProvenanceUnchanged(base, t, plans)
    ensures ProvenanceUnchanged(base, u, plans) && InTurn(base, u, dirs, plans)
  {
    forall i | 0 <= i < |plans| && plans[i].provenance ensures SameAt(u, base, Target(plans[i])) {
      assert PlanMatches(base, plans[i]) && SameAt(t, base, Target(plans[i]));
    }
  }

  // Every target has its old file or none, and other names differ only by artifacts or created directories.
  ghost predicate AllBack(base: Tree, t: Tree, dirs: seq<Directory>, plans: seq<Plan>) {
    && AllOld(base, t, plans) && KeepsFiles(base, t)
    && (forall loc | !SameAt(t, base, loc) ::
          (ArtifactName(loc.name) && loc !in base.names) || (loc in CreatedLocs(dirs, 0) && loc !in t.names))
  }

  // The staged file left behind keeps a created directory from being removed.
  ghost predicate Stuck(dirs: seq<Directory>, leak: Option<Loc>) {
    leak.Some? && exists k :: 0 <= k < |dirs| && dirs[k].created && dirs[k].ino == leak.value.dir
  }

  // The names after a rollback in which nothing was reported to fail.
  ghost predicate NamesBack(base: Tree, t: Tree, dirs: seq<Directory>, leak: Option<Loc>) {
    if leak.Some? then t.names - {leak.value} == base.names - CreatedLocs(dirs, 0)
    else t.names == base.names - CreatedLocs(dirs, 0)
  }

  lemma BackAfterClosing(base: Tree, t: Tree, u: Tree, dirs: seq<Directory>, plans: seq<Plan>, leak: Option<Loc>)
    requires PlansValid(base, plans) && DirsValid(base, dirs) && LeakValid(base, t, leak)
    requires AllOld(base, Without(t, leak), plans) && KeepsFiles(base, t) && OnlyDirsRemoved(t, u, dirs)
    requires forall loc | !SameAt(Without(t, leak), base, loc) :: ArtifactName(loc.name) && loc !in base.names
    ensures AllBack(base, u, dirs, plans) && LeakValid(base, u, leak)
  {
    hide StageName, BackupName;
    forall i | 0 <= i < |plans| && Managed(plans[i]) ensures IsFile(u, Target(plans[i]), plans[i].previous.ino) {
      assert IsFile(Without(t, leak), Target(plans[i]), plans[i].previous.ino);
    }
    forall loc | !SameAt(u, base, loc)
      ensures (ArtifactName(loc.name) && loc !in base.names) || (loc in CreatedLocs(dirs, 0) && loc !in u.names)
    {
      if SameAt(u, t, loc) {
        assert leak == Some(loc) || !SameAt(Without(t, leak), base, loc);
      }
    }
  }

  lemma NamesAfterClosing(base: Tree, t: Tree, u: Tree, dirs: seq<Directory>, leak: Option<Loc>)
    requires DirsValid(base, dirs) && LeakValid(base, t, leak)
    requires Without(t, leak).names == base.names && DirsGone(t, u, dirs, 0)
    ensures NamesBack(base, u, dirs, leak)
  {
    if leak.Some? {
      assert leak.value !in CreatedLocs(dirs, 0);
      assert u.names - {leak.value} == t.names - {leak.value} - CreatedLocs(dirs, 0);
    }
  }

  lemma RestIsUnencumbered(base: Tree, t: Tree, dirs: seq<Directory>, leak: Option<Loc>)
    requires LeakValid(base, t, leak) && Without(t, leak).names == base.names && !Stuck(dirs, leak)
    ensures Unencumbered(base, t, dirs)
  {
  }

  // After nothing is published any more: remove the artifacts, then the created directories.
  method FinishRollback(disk: Disk, dirs: seq<Directory>, items: array<Item>, ghost base: Tree, ghost plans: seq<Plan>,
                        ghost leak: Option<Loc>)
    returns (cleanup: bool, close: bool)
    requires Ready(base, plans, disk, items, leak) && DirsValid(base, dirs)
    requires forall k | 0 <= k < items.Length :: !items[k].published && !items[k].backupExists
    modifies disk`tree, disk`trace, disk.oracle, items
    ensures disk.Valid() && old(disk.trace) <= disk.trace
    ensures TraceRecoverable(base, dirs, plans, disk.trace, |old(disk.trace)|, |disk.trace|, false, true,
                             disk.random.drawn)
    ensures Recoverable(base, disk.tree, dirs, plans, false)
    ensures AllBack(base, disk.tree, dirs, plans) && LeakValid(base, disk.tree, leak)
    ensures !cleanup && !close ==> NamesBack(base, disk.tree, dirs, leak)
    ensures disk.oracle.failures >=
      old(disk.oracle.failures) + Count(cleanup) + if Stuck(dirs, leak) && !cleanup then 0 else Count(close)
    ensures RefusedWithin(old(disk.oracle.refused), disk.oracle.refused, Without(old(disk.tree), leak))
    ensures old(disk.oracle.Quiet()) ==> disk.oracle.Quiet() && disk.oracle.failures == old(disk.oracle.failures)
  {
    hide Related, CrashSafe, ProvenanceLast, PlansValid, DirsValid, OnlyDirsRemoved, AllBack, AllOld, Recoverable,
         Unencumbered, Stuck, ArtifactName, NamesBack, ProvenanceUnchanged;
    BaseWithin(base, Without(disk.tree, leak), items[..]);
    cleanup := RemoveArtifacts(disk, items, base, plans, leak, false);
    ghost var t, n := disk.tree, |disk.trace|;
    GoodIsRecoverable(base, dirs, plans, disk.trace, |old(disk.trace)|, false, true, disk.random.drawn);
    StateGood(base, t, items[..], plans, leak, false, disk.random.drawn);
    ProvenanceWithdrawn(base, t, items[..], plans, leak, disk.random.drawn);
    RolledBack(base, Without(t, leak), items[..], plans);
    RelatedKeepsFiles(base, Without(t, leak), items[..]);
    if !cleanup {
      CleanRollback(base, Without(t, leak), items[..]);
      if !Stuck(dirs, leak) {
        RestIsUnencumbered(base, t, dirs, leak);
      }
    }
    close := CloseDirectories(disk, dirs, !cleanup, base);
    ClosingRecoverable(base, t, dirs, plans, disk.trace, n, disk.random.drawn);
    DirsAreHarmless(base, t, disk.tree, dirs, plans);
    BackAfterClosing(base, t, disk.tree, dirs, plans, leak);
    if !cleanup && !close {
      NamesAfterClosing(base, t, disk.tree, dirs, leak);
    }
  }

  lemma BaseWithin(base: Tree, t: Tree, items: seq<Item>)
    requires Related(base, t, items)
    ensures forall loc | loc in base.names :: loc in t.names
  {
    forall loc | loc in base.names ensures loc in t.names {
      BaseNamesStay(base, t, items, loc);
    }
  }

  lemma RelatedKeepsFiles(base: Tree, t: Tree, items: seq<Item>)
    requires Related(base, t, items)
    ensures KeepsFiles(base, t)
  {
  }

  // rollbackStableTransaction
  method Rollback(disk: Disk, dirs: seq<Directory>, items: array<Item>, ghost base: Tree, ghost plans: seq<Plan>)
    returns (o: Outcome)
    requires Ready(base, plans, disk, items, None) && DirsValid(base, dirs)
    requires BackupsKept(items[..]) && PrefixPublished(items[..])
    modifies disk`tree, disk`trace, disk.oracle, items
    ensures disk.Valid() && o.publication && old(disk.trace) <= disk.trace
    ensures TraceRecoverable(base, dirs, plans, disk.trace, |old(disk.trace)|, |disk.trace|, false, !o.rollback,
                             disk.random.drawn)
    ensures Recoverable(base, disk.tree, dirs, plans, false)
    ensures !o.rollback ==> AllBack(base, disk.tree, dirs, plans)
    ensures !o.rollback && !o.cleanup && !o.close ==> NamesBack(base, disk.tree, dirs, None)
    ensures o.rollback ==> CrashSafe(base, disk.tree, plans, false)
    ensures disk.oracle.failures >= old(disk.oracle.failures) + Count(o.cleanup) + Count(o.close)
    ensures !old(AnyUnconfirmed(items[..])) ==>
      disk.oracle.failures >= old(disk.oracle.failures) + Count(o.rollback) + Count(o.cleanup) + Count(o.close)
  {
    hide Related, CrashSafe, ProvenanceLast, PlansValid, DirsValid, OnlyDirsRemoved, Recoverable, NamesBack, AllBack;
    var rollback := RollbackItems(disk, items, base, plans);
    GoodIsRecoverable(base, dirs, plans, disk.trace, |old(disk.trace)|, false, !rollback, disk.random.drawn);
    if rollback {
      StateGood(base, disk.tree, items[..], plans, None, false, disk.random.drawn);
      SafeIsRecoverable(base, disk.tree, dirs, plans, false);
      var close := CloseDirectories(disk, dirs, false, base);
      return Outcome(true, true, false, close);
    }
    var cleanup, close := FinishRollback(disk, dirs, items, base, plans, None);
    return Outcome(true, false, cleanup, close);
  }

  // ---------- Staging all items ----------

  lemma NothingOwned(base: Tree, items: seq<Item>)
    requires forall i | 0 <= i < |items| :: Untouched(items[i])
    ensures Related(base, base, items) && BackupsKept(items) && PrefixPublished(items)
  {
    assert forall i | 0 <= i < |items| :: Own(items[i]) == map[];
    assert forall loc :: SameAt(base, base, loc);
  }

  // New stored files do not disturb the relation.
  lemma FilesGrow(base: Tree, t: Tree, u: Tree, items: seq<Item>)
    requires Related(base, t, items) && u.names == t.names && KeepsFiles(t, u)
    ensures Related(base, u, items)
  {
    forall i | 0 <= i < |items| ensures ItemValid(base, u, items[i]) {
      assert ItemValid(base, t, items[i]);
    }
    forall loc | !Owned(items, loc) ensures SameAt(u, base, loc) {
      assert SameAt(t, base, loc);
    }
  }

  // States that only gain artifacts are good when the state they start from is.
  lemma StagingTraceGood(base: Tree, t: Tree, plans: seq<Plan>, trace: seq<Tree>, n: nat, drawn: set<Loc>)
    requires CrashSafe(base, t, plans, false) && PlansValid(base, plans)
    requires ProvenanceFree(plans, drawn) && ProvenanceAtEnd(plans) ==> ProvenanceLast(base, t, plans)
    requires forall k | n <= k < |trace| :: OnlyArtifactsAppeared(t, trace[k], drawn)
    ensures TraceGood(base, plans, trace, n, false, true, drawn)
  {
    hide CrashSafe, ProvenanceLast, OnlyArtifactsAppeared, PlansValid;
    forall k | n <= k < |trace|
      ensures CrashSafe(base, trace[k], plans, false)
      ensures ProvenanceFree(plans, drawn) && ProvenanceAtEnd(plans) ==> ProvenanceLast(base, trace[k], plans)
    {
      ArtifactsAreHarmless(base, t, trace[k], plans, false, drawn);
    }
  }

  // How staging starts: what the first calls decide about the first state and the leak.
  ghost predicate Started(fate: nat -> bool, count: nat, loc: Loc, t: Tree, next: Inode, trace: seq<Tree>, n: nat,
                          leak: Option<Loc>, alone: bool, drawn: set<Loc>)
  {
    Creates(fate, count, loc, t) ==>
      && n < |trace| && trace[n] == Created(t, loc, next) && loc in drawn
      && (OnlyInspectionFails(fate, count) ==> leak == Some(loc) && alone)
  }

  // One round of the staging loop.
  method StageItem(disk: Disk, items: array<Item>, i: nat, ghost base: Tree, ghost plans: seq<Plan>)
    returns (failed: bool, ghost leak: Option<Loc>)
    requires i < items.Length && Ready(base, plans, disk, items, None) && Untouched(items[i])
    requires forall k | 0 <= k < items.Length :: !items[k].published && !items[k].backupExists
    modifies disk, disk.oracle, disk.random, items
    ensures old(disk.random.drawn) <= disk.random.drawn
    ensures disk.oracle.failures >= old(disk.oracle.failures) + Count(failed)
    ensures Ready(base, plans, disk, items, leak) && OnlyItem(old(items[..]), items[..], i)
    ensures forall k | 0 <= k < items.Length :: !items[k].published && !items[k].backupExists
    ensures !failed ==> items[i].stagedExists && leak.None?
    ensures !failed ==> disk.fileFailures == old(disk.fileFailures) && disk.oracle.refused == old(disk.oracle.refused)
    ensures !failed && disk.oracle.failures == old(disk.oracle.failures) ==>
      && disk.random.draws == old(disk.random.draws) + 1
      && items[i].stagedName == STAGE_PREFIX + disk.random.suffixes(old(disk.random.draws))
    ensures Logged(old(disk.fileFailures), disk.fileFailures, old(disk.oracle.refused), disk.oracle.refused, leak)
    ensures forall k | |old(disk.fileFailures)| <= k < |disk.fileFailures| ::
      disk.fileFailures[k].loc !in Without(disk.tree, leak).names
    ensures Started(disk.oracle.fate, old(disk.oracle.count),
                    NextStaged(plans[i].parent, disk.random.suffixes, old(disk.random.draws)),
                    old(disk.tree), old(disk.next), disk.trace, |old(disk.trace)|, leak,
                    failed && disk.oracle.Quiet() && disk.oracle.failures == old(disk.oracle.failures) + 1,
                    disk.random.drawn)
    ensures !failed && Creates(disk.oracle.fate, old(disk.oracle.count),
                               NextStaged(plans[i].parent, disk.random.suffixes,
                                          old(disk.random.draws)), old(disk.tree)) ==>
      items[i].stagedName == STAGE_PREFIX + disk.random.suffixes(old(disk.random.draws))
    ensures old(disk.trace) <= disk.trace
    ensures TraceGood(base, plans, disk.trace, |old(disk.trace)|, false, true, disk.random.drawn)
    ensures disk.oracle.failures == old(disk.oracle.failures) ==>
      Exposed(base, plans, disk.trace, |old(disk.trace)|, old(disk.random.drawn), disk.random.drawn)
  {
    hide Related, CrashSafe, ProvenanceLast, PlansValid, OnlyArtifactsAppeared, ItemStep, Logged, Creates,
         OnlyInspectionFails, StageName, Exposed;
    ghost var t, before, n, drawn := disk.tree, items[..], |disk.trace|, disk.random.drawn;
    var r, lost := CreateStagedFile(disk, items[i].plan.parent, items[i].plan.desired, items[i].plan.mode);
    leak := lost;
    StateGood(base, t, before, plans, None, false, disk.random.drawn);
    StagingTraceGood(base, t, plans, disk.trace, n, disk.random.drawn);
    if r.Err? {
      FilesGrow(base, t, Without(disk.tree, leak), before);
      if leak.Some? && leak.value in base.names {
        BaseNamesStay(base, t, before, leak.value);
      }
      return true, leak;
    }
    var (name, ino) := r.value;
    StageStep(base, t, before, i, name, ino, disk.tree);
    StepKeepsRelation(base, t, before, plans, i, Staged(before[i], name, ino), disk.tree);
    items[i] := Staged(items[i], name, ino);
    assert items[..] == before[i := Staged(before[i], name, ino)];
    if disk.oracle.failures == old(disk.oracle.failures) {
      StagedTooSoon(base, t, before, plans, Loc(before[i].plan.parent, name), ino, disk.trace, n, drawn);
    }
    return false, None;
  }

  // Every staged file has the name drawn for it when no call failed and no name was in use.
  ghost predicate StagedInOrder(items: seq<Item>, suffixes: nat -> Suffix, first: nat, n: nat)
    requires n <= |items|
  {
    forall k | 0 <= k < n :: items[k].stagedName == STAGE_PREFIX + suffixes(first + k)
  }

  // The staging loop.
  method StageAll(disk: Disk, items: array<Item>, ghost base: Tree, ghost plans: seq<Plan>)
    returns (failed: bool, ghost leak: Option<Loc>)
    requires Ready(base, plans, disk, items, None) && forall k | 0 <= k < items.Length :: Untouched(items[k])
    modifies disk, disk.oracle, disk.random, items
    ensures old(disk.random.drawn) <= disk.random.drawn
    ensures Ready(base, plans, disk, items, leak)
    ensures forall k | 0 <= k < items.Length ::
      !items[k].published && !items[k].backupExists && (!failed ==> items[k].stagedExists)
    ensures !failed ==> leak.None? && disk.fileFailures == old(disk.fileFailures)
    ensures disk.oracle.failures >= old(disk.oracle.failures) + Count(failed)
    ensures disk.oracle.failures == old(disk.oracle.failures) ==>
      && disk.random.draws == old(disk.random.draws) + items.Length
      && StagedInOrder(items[..], disk.random.suffixes, old(disk.random.draws), items.Length)
    ensures Logged(old(disk.fileFailures), disk.fileFailures, old(disk.oracle.refused), disk.oracle.refused, leak)
    ensures forall k | |old(disk.fileFailures)| <= k < |disk.fileFailures| ::
      disk.fileFailures[k].loc !in Without(disk.tree, leak).names
    ensures items.Length > 0 ==>
      Started(disk.oracle.fate, old(disk.oracle.count),
              NextStaged(plans[0].parent, disk.random.suffixes, old(disk.random.draws)),
              old(disk.tree), old(disk.next), disk.trace, |old(disk.trace)|, leak,
              failed && disk.oracle.Quiet() && disk.oracle.failures == old(disk.oracle.failures) + 1,
                    disk.random.drawn)
    ensures !failed && items.Length > 0
            && Creates(disk.oracle.fate, old(disk.oracle.count),
                       NextStaged(plans[0].parent, disk.random.suffixes, old(disk.random.draws)), old(disk.tree)) ==>
      items[0].stagedName == STAGE_PREFIX + disk.random.suffixes(old(disk.random.draws))
    ensures old(disk.trace) <= disk.trace
    ensures TraceGood(base, plans, disk.trace, |old(disk.trace)|, false, true, disk.random.drawn)
    ensures disk.oracle.failures == old(disk.oracle.failures) ==>
      Exposed(base, plans, disk.trace, |old(disk.trace)|, old(disk.random.drawn), disk.random.drawn)
  {
    hide Related, CrashSafe, ProvenanceLast, PlansValid, Creates, OnlyInspectionFails, Exposed;
    leak := None;
    NothingDrawn(base, plans, disk.trace, |disk.trace|, disk.random.drawn);
    for i := 0 to items.Length
      invariant Ready(base, plans, disk, items, None)
      invariant old(disk.random.drawn) <= disk.random.drawn
      invariant forall k | 0 <= k < items.Length :: !items[k].published && !items[k].backupExists
      invariant forall k | 0 <= k < i :: items[k].stagedExists
      invariant forall k | i <= k < items.Length :: Untouched(items[k])
      invariant old(disk.trace) <= disk.trace
      invariant TraceGood(base, plans, disk.trace, |old(disk.trace)|, false, true, disk.random.drawn)
      invariant disk.oracle.failures == old(disk.oracle.failures) ==>
        Exposed(base, plans, disk.trace, |old(disk.trace)|, old(disk.random.drawn), disk.random.drawn)
      invariant disk.fileFailures == old(disk.fileFailures) && disk.oracle.refused == old(disk.oracle.refused)
      invariant disk.oracle.failures >= old(disk.oracle.failures)
      invariant disk.oracle.failures == old(disk.oracle.failures) ==>
        && disk.random.draws == old(disk.random.draws) + i
        && StagedInOrder(items[..], disk.random.suffixes, old(disk.random.draws), i)
      invariant i == 0 ==>
        && disk.tree == old(disk.tree) && disk.next == old(disk.next) && disk.trace == old(disk.trace)
        && disk.oracle.count == old(disk.oracle.count) && disk.random.draws == old(disk.random.draws)
        && disk.oracle.failures == old(disk.oracle.failures)
      invariant i > 0 ==>
        Started(disk.oracle.fate, old(disk.oracle.count),
                NextStaged(plans[0].parent, disk.random.suffixes, old(disk.random.draws)),
                old(disk.tree), old(disk.next), disk.trace, |old(disk.trace)|, None, false, disk.random.drawn)
        && (Creates(disk.oracle.fate, old(disk.oracle.count),
                    NextStaged(plans[0].parent, disk.random.suffixes, old(disk.random.draws)), old(disk.tree)) ==>
              items[0].stagedName == STAGE_PREFIX + disk.random.suffixes(old(disk.random.draws)))
    {
      ghost var early, drawn := disk.trace, disk.random.drawn;
      failed, leak := StageItem(disk, items, i, base, plans);
      if failed {
        return;
      }
      if disk.oracle.failures == old(disk.oracle.failures) {
        ExposedJoins(base, plans, early, disk.trace, |old(disk.trace)|, old(disk.random.drawn), drawn,
                     disk.random.drawn);
      }
    }
    return false, None;
  }

  // ---------- Publishing all items ----------

  function ManagedFlags(plans: seq<Plan>): (managed: seq<bool>)
    ensures |managed| == |plans| && forall i | 0 <= i < |plans| :: managed[i] == Managed(plans[i])
  {
    seq(|plans|, i requires 0 <= i < |plans| => Managed(plans[i]))
  }

  // How many of the first j files are managed.
  function Rank(managed: seq<bool>, j: nat): nat
    requires j <= |managed|
  {
    if j == 0 then 0 else Rank(managed, j - 1) + Count(managed[j - 1])
  }

  // The name of the artifact of file j that exists when file i is published, in a transaction without mishaps
  // that has the given number of draws behind it: the backup of a managed file before i, else the staged file.
  function ArtifactFor(managed: seq<bool>, suffixes: nat -> Suffix, first: nat, i: nat, j: nat): Name
    requires j < |managed|
  {
    if j < i && managed[j] then BACKUP_PREFIX + suffixes(first + |managed| + Rank(managed, j))
    else STAGE_PREFIX + suffixes(first + j)
  }

  function ArtifactOf(plans: seq<Plan>, suffixes: nat -> Suffix, first: nat, i: nat, j: nat): Loc
    requires j < |plans|
  {
    Loc(plans[j].parent, ArtifactFor(ManagedFlags(plans), suffixes, first, i, j))
  }

  // The target of a new file is the name of an artifact that exists when the file is published.
  ghost predicate Blocked(plans: seq<Plan>, suffixes: nat -> Suffix, first: nat) {
    exists i, j :: 0 <= i < |plans| && 0 <= j < |plans| && !Managed(plans[i])
                   && Target(plans[i]) == ArtifactOf(plans, suffixes, first, i, j)
  }

  // The same in terms of the names that the items carry.
  function ArtifactLoc(items: seq<Item>, i: nat, j: nat): Loc
    requires i < |items| && j < |items|
  {
    if j < i && Managed(items[j].plan) then BackupLoc(items[j]) else StagedLoc(items[j])
  }

  // Item names follow the draws as long as nothing goes wrong.
  ghost predicate NamesInOrder(items: seq<Item>, plans: seq<Plan>, suffixes: nat -> Suffix, first: nat, n: nat)
    requires n <= |items| == |plans|
  {
    && StagedInOrder(items, suffixes, first, |items|)
    && forall k | 0 <= k < n && Managed(plans[k]) ::
         items[k].backupName == BACKUP_PREFIX + suffixes(first + |plans| + Rank(ManagedFlags(plans), k))
  }

  // No artifact that existed when a new file was published had the name of its target, for the first n files.
  ghost predicate NoClash(items: seq<Item>, n: nat)
    requires n <= |items|
  {
    forall i, j | 0 <= i < n && 0 <= j < |items| && !Managed(items[i].plan) ::
      ArtifactLoc(items, i, j) != Target(items[i].plan)
  }

  lemma ArtifactsInOrder(items: seq<Item>, plans: seq<Plan>, suffixes: nat -> Suffix, first: nat, i: nat, j: nat)
    requires Follows(items, plans) && i < |items| && j < |items| && NamesInOrder(items, plans, suffixes, first, i)
    ensures ArtifactLoc(items, i, j) == ArtifactOf(plans, suffixes, first, i, j)
  {
    hide Rank;
  }

  // A free name in the base is taken only by an artifact, and by any that exists.
  lemma TakenByArtifact(base: Tree, t: Tree, items: seq<Item>, plans: seq<Plan>, i: nat)
    requires PlansValid(base, plans) && Follows(items, plans) && Related(base, t, items) && BackupsKept(items)
    requires i < |items| && !Managed(plans[i])
    requires forall k | 0 <= k < i :: items[k].published && (items[k].stagedExists <==> !Managed(plans[k]))
    requires forall k | i <= k < |items| :: !items[k].published && !items[k].backupExists && items[k].stagedExists
    ensures Target(plans[i]) in t.names <==>
      exists j :: 0 <= j < |items| && ArtifactLoc(items, i, j) == Target(plans[i])
  {
    var loc := Target(plans[i]);
    assert PlanMatches(base, plans[i]);
    if loc in t.names {
      assert !SameAt(t, base, loc);
      var j :| 0 <= j < |items| && loc in Own(items[j]);
      assert ItemValid(base, t, items[j]);
      assert j != i ==> Target(plans[i]) != Target(plans[j]);
      assert ArtifactLoc(items, i, j) == loc;
    }
    if j :| 0 <= j < |items| && ArtifactLoc(items, i, j) == loc {
      assert ItemValid(base, t, items[j]);
      assert ArtifactLoc(items, i, j) in Own(items[j]);
    }
  }

  // At item i nothing before it was blocked, so the transaction is blocked here or not yet.
  ghost predicate BlockedAt(plans: seq<Plan>, suffixes: nat -> Suffix, first: nat, i: nat)
    requires i < |plans|
  {
    !Managed(plans[i]) && exists j :: 0 <= j < |plans| && ArtifactOf(plans, suffixes, first, i, j) == Target(plans[i])
  }

  lemma BlockedSomewhere(plans: seq<Plan>, suffixes: nat -> Suffix, first: nat)
    ensures Blocked(plans, suffixes, first) <==> exists i :: 0 <= i < |plans| && BlockedAt(plans, suffixes, first, i)
  {
    if Blocked(plans, suffixes, first) {
      var i, j :| 0 <= i < |plans| && 0 <= j < |plans| && !Managed(plans[i])
                  && Target(plans[i]) == ArtifactOf(plans, suffixes, first, i, j);
      assert BlockedAt(plans, suffixes, first, i);
    }
    if i :| 0 <= i < |plans| && BlockedAt(plans, suffixes, first, i) {
      var j :| 0 <= j < |plans| && ArtifactOf(plans, suffixes, first, i, j) == Target(plans[i]);
    }
  }

  lemma TakenIsBlocked(base: Tree, t: Tree, items: seq<Item>, plans: seq<Plan>, suffixes: nat -> Suffix, first: nat,
                       i: nat)
    requires PlansValid(base, plans) && Follows(items, plans) && Related(base, t, items) && BackupsKept(items)
    requires i < |items| && !Managed(plans[i]) && NamesInOrder(items, plans, suffixes, first, i)
    requires forall k | 0 <= k < i :: items[k].published && (items[k].stagedExists <==> !Managed(plans[k]))
    requires forall k | i <= k < |items| :: !items[k].published && !items[k].backupExists && items[k].stagedExists
    ensures Target(plans[i]) in t.names <==> BlockedAt(plans, suffixes, first, i)
  {
    hide Related, PlansValid, ArtifactLoc, ArtifactOf, NamesInOrder;
    TakenByArtifact(base, t, items, plans, i);
    forall j | 0 <= j < |items| ensures ArtifactLoc(items, i, j) == ArtifactOf(plans, suffixes, first, i, j) {
      ArtifactsInOrder(items, plans, suffixes, first, i, j);
    }
    if Target(plans[i]) in t.names {
      var j :| 0 <= j < |items| && ArtifactLoc(items, i, j) == Target(plans[i]);
      assert ArtifactOf(plans, suffixes, first, i, j) == Target(plans[i]);
    }
    if BlockedAt(plans, suffixes, first, i) {
      var j :| 0 <= j < |plans| && ArtifactOf(plans, suffixes, first, i, j) == Target(plans[i]);
      assert ArtifactLoc(items, i, j) == Target(plans[i]);
    }
  }

  lemma ManagedIsNotBlocked(plans: seq<Plan>, suffixes: nat -> Suffix, first: nat, i: nat)
    requires i < |plans| && Managed(plans[i])
    ensures !BlockedAt(plans, suffixes, first, i)
  {
  }

  // Before item i the names have followed the draws.
  ghost predicate InOrder(items: seq<Item>, plans: seq<Plan>, suffixes: nat -> Suffix, draws: nat, first: nat, i: nat)
    requires i <= |items| == |plans|
  {
    draws == first + |plans| + Rank(ManagedFlags(plans), i) && NamesInOrder(items, plans, suffixes, first, i)
  }

  // One round of the publishing loop.
  method PublishNext(disk: Disk, dirs: seq<Directory>, items: array<Item>, i: nat, ghost base: Tree,
                     ghost plans: seq<Plan>, ghost first: nat)
    returns (failed: bool)
    requires i < items.Length && Ready(base, plans, disk, items, None)
    requires BackupsKept(items[..]) && PrefixPublished(items[..])
    requires forall k | 0 <= k < i :: items[k].published && (items[k].stagedExists <==> !Managed(plans[k]))
    requires forall k | i <= k < items.Length ::
      !items[k].published && !items[k].backupExists && items[k].stagedExists
    modifies disk`tree, disk`trace, disk.oracle, disk.random, items
    ensures old(disk.random.drawn) <= disk.random.drawn
    ensures Ready(base, plans, disk, items, None) && BackupsKept(items[..]) && PrefixPublished(items[..])
    ensures OnlyItem(old(items[..]), items[..], i) && (items[i].published <==> !failed)
    ensures !failed ==> (items[i].stagedExists <==> !Managed(plans[i]))
    ensures !failed ==> items[i].stagedName == old(items[i].stagedName)
    ensures !failed && NoClash(old(items[..]), i) ==> NoClash(items[..], i + 1)
    ensures old(disk.trace) <= disk.trace
    ensures TraceGood(base, plans, disk.trace, |old(disk.trace)|, false, true, disk.random.drawn)
    ensures disk.oracle.failures == old(disk.oracle.failures) ==>
      Exposed(base, plans, disk.trace, |old(disk.trace)|, old(disk.random.drawn), disk.random.drawn)
    ensures disk.oracle.failures >= old(disk.oracle.failures) + if AnyUnconfirmed(items[..]) then 2 else 0
    ensures failed && DirsPresent(base, dirs) && TargetsFree(plans, old(disk.random.drawn)) ==>
      disk.oracle.failures > old(disk.oracle.failures)
    ensures disk.oracle.failures == old(disk.oracle.failures) && DirsPresent(base, dirs)
            && InOrder(old(items[..]), plans, disk.random.suffixes, old(disk.random.draws), first, i) ==>
      && (failed <==> BlockedAt(plans, disk.random.suffixes, first, i))
      && (!failed ==> InOrder(items[..], plans, disk.random.suffixes, disk.random.draws, first, i + 1))
  {
    hide Related, CrashSafe, ProvenanceLast, PlansValid, DirsPresent, TargetsFree, Rank, NamesInOrder, BlockedAt,
         ArtifactOf, ArtifactLoc, Exposed, NoClash;
    ghost var before, t, suffixes := items[..], disk.tree, disk.random.suffixes;
    ghost var orderly := InOrder(before, plans, suffixes, disk.random.draws, first, i);
    if Managed(plans[i]) {
      ManagedIsNotBlocked(plans, suffixes, first, i);
    } else {
      TakenByArtifact(base, t, before, plans, i);
    }
    if !Managed(plans[i]) && orderly {
      TakenIsBlocked(base, t, before, plans, suffixes, first, i);
    }
    FreeUnlessDrawn(base, t, before, plans, disk.random.drawn, i);
    failed := PublishItem(disk, dirs, items, i, base, plans);
    forall k | 0 <= k < items.Length && !Managed(items[k].plan) ensures !items[k].backupExists {
      NewHasNoBackup(base, disk.tree, items[..], k);
    }
    OnlyOneUnconfirmed(before, items[..], i);
    if !failed && NoClash(before, i) {
      NoClashContinues(before, items[..], i);
    }
    if !failed && orderly && disk.oracle.failures == old(disk.oracle.failures) {
      NamesContinue(before, items[..], plans, suffixes, first, i);
    }
  }

  lemma NoClashContinues(before: seq<Item>, after: seq<Item>, i: nat)
    requires i < |before| && OnlyItem(before, after, i) && NoClash(before, i)
    requires after[i].plan == before[i].plan && after[i].stagedName == before[i].stagedName
    requires !Managed(before[i].plan) ==>
      forall j | 0 <= j < |before| :: ArtifactLoc(before, i, j) != Target(before[i].plan)
    ensures NoClash(after, i + 1)
  {
    forall k, j | 0 <= k < i + 1 && 0 <= j < |after| && !Managed(after[k].plan)
      ensures ArtifactLoc(after, k, j) != Target(after[k].plan)
    {
      assert ArtifactLoc(after, k, j) == ArtifactLoc(before, k, j);
    }
  }

  lemma NoClashInNames(before: seq<Item>, after: seq<Item>)
    requires NoClash(before, |before|) && |after| == |before|
    requires forall k | 0 <= k < |after| :: SameNames(after[k], before[k])
    ensures NoClash(after, |after|)
  {
    forall k, j | 0 <= k < |after| && 0 <= j < |after| && !Managed(after[k].plan)
      ensures ArtifactLoc(after, k, j) != Target(after[k].plan)
    {
      assert ArtifactLoc(after, k, j) == ArtifactLoc(before, k, j);
    }
  }

  // The publishing loop. The names drawn for the staged files are those after the first draws.
  method PublishAll(disk: Disk, dirs: seq<Directory>, items: array<Item>, ghost base: Tree, ghost plans: seq<Plan>,
                    ghost first: nat)
    returns (failed: bool)
    requires Ready(base, plans, disk, items, None)
    requires forall k | 0 <= k < items.Length ::
      !items[k].published && !items[k].backupExists && items[k].stagedExists
    modifies disk`tree, disk`trace, disk.oracle, disk.random, items
    ensures old(disk.random.drawn) <= disk.random.drawn
    ensures Ready(base, plans, disk, items, None) && BackupsKept(items[..]) && PrefixPublished(items[..])
    ensures !failed ==> AllPublished(items[..]) && !AnyUnconfirmed(items[..]) && NoClash(items[..], items.Length)
    ensures !failed ==> forall k | 0 <= k < items.Length :: items[k].stagedName == old(items[..])[k].stagedName
    ensures disk.oracle.failures >= old(disk.oracle.failures) + if AnyUnconfirmed(items[..]) then 2 else 0
    ensures failed && DirsPresent(base, dirs) && TargetsFree(plans, disk.random.drawn) ==>
      disk.oracle.failures > old(disk.oracle.failures)
    ensures disk.oracle.failures == old(disk.oracle.failures) && DirsPresent(base, dirs)
            && old(disk.random.draws) == first + items.Length
            && old(StagedInOrder(items[..], disk.random.suffixes, first, items.Length)) ==>
      (failed <==> Blocked(plans, disk.random.suffixes, first))
    ensures old(disk.trace) <= disk.trace
    ensures TraceGood(base, plans, disk.trace, |old(disk.trace)|, false, true, disk.random.drawn)
    ensures disk.oracle.failures == old(disk.oracle.failures) ==>
      Exposed(base, plans, disk.trace, |old(disk.trace)|, old(disk.random.drawn), disk.random.drawn)
  {
    hide Ready, Related, CrashSafe, ProvenanceLast, PlansValid, DirsPresent, TargetsFree, Rank, NamesInOrder, Blocked,
         BlockedAt, StagedInOrder, NoClash, InOrder, Exposed, BackupsKept, PrefixPublished, LeakValid, Accounted,
         AnyUnconfirmed, ArtifactLoc;
    ghost var suffixes := disk.random.suffixes;
    ghost var orderly := DirsPresent(base, dirs) && old(disk.random.draws) == first + items.Length
                         && StagedInOrder(items[..], suffixes, first, items.Length);
    NothingPublished(base, plans, disk, items);
    NamesBegin(items[..], plans, suffixes, first);
    BlockedSomewhere(plans, suffixes, first);
    NothingDrawn(base, plans, disk.trace, |disk.trace|, disk.random.drawn);
    for i := 0 to items.Length
      invariant |plans| == items.Length
      invariant Ready(base, plans, disk, items, None) && BackupsKept(items[..]) && PrefixPublished(items[..])
      invariant old(disk.random.drawn) <= disk.random.drawn
      invariant forall k | 0 <= k < i :: items[k].published && (items[k].stagedExists <==> !Managed(plans[k]))
      invariant forall k | i <= k < items.Length ::
        !items[k].published && !items[k].backupExists && items[k].stagedExists
      invariant NoClash(items[..], i)
      invariant forall k | 0 <= k < items.Length :: items[k].stagedName == old(items[..])[k].stagedName
      invariant disk.oracle.failures >= old(disk.oracle.failures)
      invariant disk.oracle.failures == old(disk.oracle.failures) && orderly ==>
        && InOrder(items[..], plans, suffixes, disk.random.draws, first, i)
        && forall k | 0 <= k < i :: !BlockedAt(plans, suffixes, first, k)
      invariant old(disk.trace) <= disk.trace
      invariant TraceGood(base, plans, disk.trace, |old(disk.trace)|, false, true, disk.random.drawn)
      invariant disk.oracle.failures == old(disk.oracle.failures) ==>
        Exposed(base, plans, disk.trace, |old(disk.trace)|, old(disk.random.drawn), disk.random.drawn)
    {
      ghost var early, drawn := disk.trace, disk.random.drawn;
      failed := PublishNext(disk, dirs, items, i, base, plans, first);
      if disk.oracle.failures == old(disk.oracle.failures) {
        ExposedJoins(base, plans, early, disk.trace, |old(disk.trace)|, old(disk.random.drawn), drawn,
                     disk.random.drawn);
      }
      FreeSoFar(plans, drawn, disk.random.drawn);
      if failed {
        return;
      }
    }
    AllConfirmed(base, plans, disk, items);
    return false;
  }

  lemma NothingPublished(base: Tree, plans: seq<Plan>, disk: Disk, items: array<Item>)
    requires Ready(base, plans, disk, items, None) && forall k | 0 <= k < items.Length :: !items[k].published
    ensures BackupsKept(items[..]) && PrefixPublished(items[..]) && |plans| == items.Length
  {
  }

  lemma AllConfirmed(base: Tree, plans: seq<Plan>, disk: Disk, items: array<Item>)
    requires Ready(base, plans, disk, items, None) && BackupsKept(items[..])
    requires forall k | 0 <= k < items.Length :: items[k].published
    ensures AllPublished(items[..]) && !AnyUnconfirmed(items[..])
  {
    forall k | 0 <= k < items.Length && !Managed(items[k].plan) ensures !items[k].backupExists {
      NewHasNoBackup(base, disk.tree, items[..], k);
    }
  }

  lemma NamesBegin(items: seq<Item>, plans: seq<Plan>, suffixes: nat -> Suffix, first: nat)
    requires |items| == |plans|
    ensures NoClash(items, 0)
    ensures StagedInOrder(items, suffixes, first, |items|) ==>
      InOrder(items, plans, suffixes, first + |items|, first, 0)
  {
  }

  lemma NamesContinue(before: seq<Item>, after: seq<Item>, plans: seq<Plan>, suffixes: nat -> Suffix, first: nat,
                      i: nat)
    requires i < |before| == |plans| && OnlyItem(before, after, i) && after[i].stagedName == before[i].stagedName
    requires NamesInOrder(before, plans, suffixes, first, i)
    requires Managed(plans[i]) ==>
      after[i].backupName == BACKUP_PREFIX + suffixes(first + |plans| + Rank(ManagedFlags(plans), i))
    ensures NamesInOrder(after, plans, suffixes, first, i + 1)
    ensures Rank(ManagedFlags(plans), i + 1) == Rank(ManagedFlags(plans), i) + Count(Managed(plans[i]))
  {
    hide Rank;
    forall k | 0 <= k < |after| ensures after[k].stagedName == STAGE_PREFIX + suffixes(first + k) {
      assert before[k].stagedName == STAGE_PREFIX + suffixes(first + k);
    }
    RankStep(plans, i);
  }

  lemma RankStep(plans: seq<Plan>, i: nat)
    requires i < |plans|
    ensures Rank(ManagedFlags(plans), i + 1) == Rank(ManagedFlags(plans), i) + Count(Managed(plans[i]))
  {
  }

  // A new file's target is free as long as no artifact name that equals it was drawn.
  lemma FreeUnlessDrawn(base: Tree, t: Tree, items: seq<Item>, plans: seq<Plan>, drawn: set<Loc>, i: nat)
    requires PlansValid(base, plans) && Follows(items, plans) && Related(base, t, items) && NamesDrawn(items, drawn)
    requires i < |items| && !items[i].published
    ensures TargetsFree(plans, drawn) && !Managed(plans[i]) ==> Target(plans[i]) !in t.names
  {
    if TargetsFree(plans, drawn) && !Managed(plans[i]) {
      UnpublishedUnchanged(base, t, items, plans, drawn, i);
      assert PlanMatches(base, plans[i]);
    }
  }

  lemma FreeSoFar(plans: seq<Plan>, drawn: set<Loc>, more: set<Loc>)
    requires drawn <= more
    ensures TargetsFree(plans, more) ==> TargetsFree(plans, drawn)
  {
  }

  // Backups of published items were confirmed, so only the item at hand can have an unconfirmed one.
  lemma OnlyOneUnconfirmed(before: seq<Item>, after: seq<Item>, i: nat)
    requires OnlyItem(before, after, i) && i < |after| && BackupsKept(before)
    requires forall k | 0 <= k < i :: before[k].published
    requires forall k | i <= k < |before| :: !before[k].backupExists
    requires forall k | 0 <= k < |after| && !Managed(after[k].plan) :: !after[k].backupExists
    ensures AnyUnconfirmed(after) ==> UnconfirmedBackup(after[i])
  {
  }

  // ---------- Validation after publishing ----------

  // validatePublishedTransaction
  method ValidatePublished(disk: Disk, items: array<Item>, ghost base: Tree, ghost plans: seq<Plan>)
    returns (failed: bool)
    requires Ready(base, plans, disk, items, None) && BackupsKept(items[..])
    modifies disk.oracle
    ensures disk.oracle.failures >= old(disk.oracle.failures) + Count(failed)
  {
    hide Related, PlansValid, FileIs, StagedIntact, BackupIntact;
    for i := 0 to items.Length
      invariant disk.oracle.failures >= old(disk.oracle.failures)
    {
      if items[i].published {
        PublishedFacts(base, disk.tree, items[..], plans, i);
        StagedStands(base, disk.tree, items[..], plans, i);
        PublishedBackupStands(base, disk.tree, items[..], plans, i);
        var p := items[i].plan;
        failed := ValidateFile(disk, Target(p), items[i].stagedInfo, p.desired, p.mode);
        if failed {
          return;
        }
        failed := ValidateStaged(disk, items[i]);
        if failed {
          return;
        }
        failed := ValidateBackup(disk, items[i]);
        if failed {
          return;
        }
      }
    }
    return false;
  }

  lemma PublishedBackupStands(base: Tree, t: Tree, items: seq<Item>, plans: seq<Plan>, i: nat)
    requires PlansValid(base, plans) && Follows(items, plans) && Related(base, t, items) && BackupsKept(items)
    requires i < |items| && items[i].published
    ensures BackupIntact(t, items[i])
  {
    if items[i].backupExists {
      assert ItemValid(base, t, items[i]);
      BackupStands(base, t, items, plans, i);
    }
  }

  // ---------- publishTransaction ----------

  lemma AllPublishedCleanable(base: Tree, t: Tree, items: seq<Item>)
    requires Related(base, t, items) && BackupsKept(items) && AllPublished(items)
    ensures Cleanable(items, true)
  {
    forall i | 0 <= i < |items| && items[i].backupExists ensures items[i].backupInfo.Some? {
      assert ItemValid(base, t, items[i]);
    }
  }

  lemma ValidDirsPresent(base: Tree, dirs: seq<Directory>)
    requires DirsValid(base, dirs)
    ensures DirsPresent(base, dirs)
  {
  }

  // What a nil or non-nil result says about the tree that the transaction leaves behind.
  ghost predicate Concluded(base: Tree, t: Tree, dirs: seq<Directory>, plans: seq<Plan>, o: Outcome, leak: Option<Loc>)
  {
    && LeakValid(base, t, leak)
    && (leak.Some? ==> o.publication && !o.rollback)
    && (!o.publication ==> !o.rollback && CrashSafe(base, t, plans, true))
    && (o == SUCCESS ==> PublishedExactly(base, t, plans))
    && (o.publication ==> Recoverable(base, t, dirs, plans, false))
    && (o.publication && !o.rollback ==> AllBack(base, t, dirs, plans))
    && (o == ROLLED_BACK ==> NamesBack(base, t, dirs, leak))
    && (o.rollback ==> CrashSafe(base, t, plans, false))
  }

  // Every state of the transaction can be recovered from: the originals stay linked until every target is new
  // and validated, and to the end when the result is an error of publication.
  ghost predicate Traced(base: Tree, dirs: seq<Directory>, plans: seq<Plan>, trace: seq<Tree>, n: nat, o: Outcome,
                         drawn: set<Loc>)
    requires n <= |trace|
  {
    if o.publication then TraceRecoverable(base, dirs, plans, trace, n, |trace|, false, !o.rollback, drawn)
    else exists m | n <= m <= |trace| ::
      && TraceRecoverable(base, dirs, plans, trace, n, m, false, true, drawn)
      && TraceRecoverable(base, dirs, plans, trace, m, |trace|, true, true, drawn)
  }

  lemma TraceJoins(base: Tree, dirs: seq<Directory>, plans: seq<Plan>, early: seq<Tree>, trace: seq<Tree>, n: nat,
                   ordered: bool, some: set<Loc>, drawn: set<Loc>)
    requires DirsValid(base, dirs)
    requires TraceGood(base, plans, early, n, false, true, some) && some <= drawn && n <= |early| && early <= trace
    requires TraceRecoverable(base, dirs, plans, trace, |early|, |trace|, false, ordered, drawn)
    ensures TraceRecoverable(base, dirs, plans, trace, n, |trace|, false, ordered, drawn)
  {
    hide Recoverable, InTurn, CrashSafe, DirsValid;
    GoodIsRecoverable(base, dirs, plans, early, n, false, true, some);
    forall k | n <= k < |trace|
      ensures Recoverable(base, trace[k], dirs, plans, false)
      ensures ordered && ProvenanceFree(plans, drawn) && ProvenanceAtEnd(plans) ==>
        InTurn(base, trace[k], dirs, plans)
    {
      if k < |early| {
        assert trace[k] == early[k];
      }
    }
  }

  lemma TraceValidated(base: Tree, dirs: seq<Directory>, plans: seq<Plan>, early: seq<Tree>, trace: seq<Tree>, n: nat,
                       drawn: set<Loc>, o: Outcome)
    requires DirsValid(base, dirs)
    requires TraceGood(base, plans, early, n, false, true, drawn) && n <= |early| && early <= trace && !o.publication
    requires TraceGood(base, plans, trace, |early|, true, true, drawn)
    ensures Traced(base, dirs, plans, trace, n, o, drawn)
  {
    hide Recoverable, InTurn, CrashSafe, DirsValid;
    GoodIsRecoverable(base, dirs, plans, early, n, false, true, drawn);
    GoodIsRecoverable(base, dirs, plans, trace, |early|, true, true, drawn);
    assert TraceRecoverable(base, dirs, plans, trace, n, |early|, false, true, drawn) by {
      assert forall k | n <= k < |early| :: trace[k] == early[k];
    }
  }

  // The removals of the rollback concern other names than the failed staging did.
  lemma LeftBehindStands(calls: seq<FileCall>, refused: seq<Loc>, more: seq<Loc>, leak: Option<Loc>, t: Tree)
    requires forall loc :: LeftBehind(calls, refused, loc) <==> leak == Some(loc)
    requires forall c | c in calls :: c.loc !in t.names
    requires forall loc | loc in more :: loc in t.names
    ensures forall loc :: LeftBehind(calls, refused + more, loc) <==> leak == Some(loc)
  {
    forall loc ensures LeftBehind(calls, refused + more, loc) <==> LeftBehind(calls, refused, loc) {
      if op: FileOp :| op != Stat && FileCall(op, loc) in calls {
        assert loc !in more;
      }
    }
  }

  lemma LoggedStands(calls0: seq<FileCall>, calls: seq<FileCall>, refused0: seq<Loc>, refused: seq<Loc>, more: seq<Loc>,
                     leak: Option<Loc>, t: Tree)
    requires Logged(calls0, calls, refused0, refused, leak) && RefusedWithin(refused, more, t)
    requires forall k | |calls0| <= k < |calls| :: calls[k].loc !in t.names
    ensures Logged(calls0, calls, refused0, more, leak)
  {
    hide LeftBehind;
    if calls != calls0 {
      assert more[|refused0|..] == refused[|refused0|..] + more[|refused|..];
      LeftBehindStands(calls[|calls0|..], refused[|refused0|..], more[|refused|..], leak, t);
    }
  }

  lemma NothingAccounted(items: seq<Item>, drawn: set<Loc>)
    requires forall i | 0 <= i < |items| :: Untouched(items[i])
    ensures Accounted(items, None, drawn)
  {
  }

  // The part after staging.
  method PublishStaged(disk: Disk, dirs: seq<Directory>, items: array<Item>, ghost base: Tree, ghost plans: seq<Plan>,
                       ghost first: nat)
    returns (o: Outcome)
    requires Ready(base, plans, disk, items, None) && DirsValid(base, dirs)
    requires forall k | 0 <= k < items.Length ::
      !items[k].published && !items[k].backupExists && items[k].stagedExists
    modifies disk`tree, disk`trace, disk.oracle, disk.random, items
    ensures disk.Valid() && old(disk.trace) <= disk.trace && old(disk.random.drawn) <= disk.random.drawn
    ensures Concluded(base, disk.tree, dirs, plans, o, None)
    ensures !o.publication ==> Follows(items[..], plans) && NoClash(items[..], items.Length)
    ensures !o.publication ==>
      forall k | 0 <= k < items.Length :: items[k].stagedName == old(items[..])[k].stagedName
    ensures Traced(base, dirs, plans, disk.trace, |old(disk.trace)|, o, disk.random.drawn)
    ensures disk.oracle.failures == old(disk.oracle.failures) ==>
      Exposed(base, plans, disk.trace, |old(disk.trace)|, old(disk.random.drawn), disk.random.drawn)
    ensures disk.oracle.failures >= old(disk.oracle.failures)
    ensures TargetsFree(plans, disk.random.drawn) ==> disk.oracle.failures >= old(disk.oracle.failures) + Errors(o)
    ensures disk.oracle.failures == old(disk.oracle.failures)
            && old(disk.random.draws) == first + items.Length
            && old(StagedInOrder(items[..], disk.random.suffixes, first, items.Length)) ==>
      o == if Blocked(plans, disk.random.suffixes, first) then ROLLED_BACK else SUCCESS
  {
    hide Related, CrashSafe, ProvenanceLast, PlansValid, DirsValid, AllBack, PublishedExactly, Recoverable, NamesBack,
         DirsPresent, AnyUnconfirmed, TargetsFree, Blocked, StagedInOrder, TraceGood, TraceRecoverable, PrefixPublished,
         BackupsKept, LeakValid, NoClash, Exposed, Accounted;
    NoLeak(base, disk.tree);
    ghost var n, some := |disk.trace|, disk.random.drawn;
    ValidDirsPresent(base, dirs);
    var failed := PublishAll(disk, dirs, items, base, plans, first);
    ghost var published, drawn := disk.trace, disk.random.drawn;
    if !failed {
      DirectoriesIntact(base, disk.tree, items[..], plans, dirs);
      failed := ValidateDirectories(disk, dirs);
      if !failed {
        failed := ValidatePublished(disk, items, base, plans);
      }
    }
    if failed {
      o := Rollback(disk, dirs, items, base, plans);
      NoLeak(base, disk.tree);
      TraceJoins(base, dirs, plans, published, disk.trace, n, !o.rollback, drawn, drawn);
      if disk.oracle.failures == old(disk.oracle.failures) {
        ExposedStays(base, plans, published, disk.trace, n, some, drawn);
      }
      return;
    }
    AllPublishedCleanable(base, disk.tree, items[..]);
    ghost var before := items[..];
    var cleanup := RemoveArtifacts(disk, items, base, plans, None, true);
    NoClashInNames(before, items[..]);
    StateGood(base, disk.tree, items[..], plans, None, true, drawn);
    NoLeak(base, disk.tree);
    if !cleanup {
      CleanSuccess(base, disk.tree, items[..], plans);
    }
    var close := CloseDirectories(disk, dirs, false, base);
    o := Outcome(false, false, cleanup, close);
    TraceValidated(base, dirs, plans, published, disk.trace, n, drawn, o);
    if disk.oracle.failures == old(disk.oracle.failures) {
      ExposedStays(base, plans, published, disk.trace, n, some, drawn);
    }
  }

  lemma NoLeak(base: Tree, t: Tree)
    ensures LeakValid(base, t, None)
  {
  }

  lemma StagingConcluded(base: Tree, t: Tree, dirs: seq<Directory>, plans: seq<Plan>, trace: seq<Tree>, n: nat,
                         o: Outcome, leak: Option<Loc>, drawn: set<Loc>)
    requires o.publication && !o.rollback && LeakValid(base, t, leak) && n <= |trace|
    requires Recoverable(base, t, dirs, plans, false) && AllBack(base, t, dirs, plans)
    requires !o.cleanup && !o.close ==> NamesBack(base, t, dirs, leak)
    requires TraceRecoverable(base, dirs, plans, trace, n, |trace|, false, true, drawn)
    ensures Concluded(base, t, dirs, plans, o, leak) && Traced(base, dirs, plans, trace, n, o, drawn)
  {
    hide Recoverable, AllBack, NamesBack, TraceRecoverable;
  }

  lemma TracedFromStart(base: Tree, dirs: seq<Directory>, plans: seq<Plan>, early: seq<Tree>, trace: seq<Tree>, n: nat,
                        o: Outcome, some: set<Loc>, drawn: set<Loc>)
    requires DirsValid(base, dirs)
    requires TraceGood(base, plans, early, n, false, true, some) && some <= drawn && n <= |early| && early <= trace
    requires Traced(base, dirs, plans, trace, |early|, o, drawn)
    ensures Traced(base, dirs, plans, trace, n, o, drawn)
  {
    hide TraceGood, TraceRecoverable, DirsValid;
    if o.publication {
      TraceJoins(base, dirs, plans, early, trace, n, !o.rollback, some, drawn);
    } else {
      var m :| |early| <= m <= |trace|
        && TraceRecoverable(base, dirs, plans, trace, |early|, m, false, true, drawn)
        && TraceRecoverable(base, dirs, plans, trace, m, |trace|, true, true, drawn);
      UpTo(base, dirs, plans, trace, |early|, m, drawn);
      TraceJoins(base, dirs, plans, early, trace[..m], n, true, some, drawn);
      UpTo(base, dirs, plans, trace, n, m, drawn);
    }
  }

  lemma UpTo(base: Tree, dirs: seq<Directory>, plans: seq<Plan>, trace: seq<Tree>, n: nat, m: nat, drawn: set<Loc>)
    requires n <= m <= |trace|
    ensures TraceRecoverable(base, dirs, plans, trace, n, m, false, true, drawn)
            <==> TraceRecoverable(base, dirs, plans, trace[..m], n, m, false, true, drawn)
  {
    hide Recoverable, InTurn;
    assert forall k | n <= k < m :: trace[..m][k] == trace[k];
  }

  // If the name of a new provenance file was not drawn before, and another file waits for its own time: new
  // provenance is shown only with all files new exactly if that name was not drawn either.
  ghost predicate OrderedUnlessDrawn(base: Tree, plans: seq<Plan>, trace: seq<Tree>, n: nat, some: set<Loc>,
                                     drawn: set<Loc>)
  {
    ProvenanceAtEnd(plans) && Bystander(plans, drawn) && ProvenanceFree(plans, some) ==>
      (ProvenanceFree(plans, drawn) <==> forall k | n <= k < |trace| :: ProvenanceLast(base, trace[k], plans))
  }

  lemma OrderedExactly(base: Tree, dirs: seq<Directory>, plans: seq<Plan>, trace: seq<Tree>, n: nat, o: Outcome,
                       some: set<Loc>, drawn: set<Loc>)
    requires n <= |trace| && Traced(base, dirs, plans, trace, n, o, drawn) && !o.rollback
    requires Exposed(base, plans, trace, n, some, drawn)
    ensures OrderedUnlessDrawn(base, plans, trace, n, some, drawn)
  {
    hide ProvenanceLast, Recoverable;
  }

  // Stages every item, publishes them one by one, validates, and cleans up or rolls back. Every part of the
  // error, including a failed rollback, has a mishap of its own behind it, save two: the target of a new file
  // that is taken by an artifact, and a created directory that a staged file left behind keeps alive. Which file
  // is left behind follows from the calls that failed. Without mishaps the result is nil unless a target is
  // taken, and then everything is rolled back.
  method PublishTransaction(disk: Disk, dirs: seq<Directory>, items: array<Item>, ghost plans: seq<Plan>)
    returns (o: Outcome, ghost leak: Option<Loc>)
    requires disk.Valid() && PlansValid(disk.tree, plans) && DirsValid(disk.tree, dirs) && Follows(items[..], plans)
    requires forall i | 0 <= i < items.Length :: Untouched(items[i])
    modifies disk, disk.oracle, disk.random, items
    ensures disk.Valid() && old(disk.trace) <= disk.trace && old(disk.random.drawn) <= disk.random.drawn
    ensures Concluded(old(disk.tree), disk.tree, dirs, plans, o, leak)
    ensures !o.publication ==> Follows(items[..], plans) && NoClash(items[..], items.Length)
    ensures Traced(old(disk.tree), dirs, plans, disk.trace, |old(disk.trace)|, o, disk.random.drawn)
    ensures disk.oracle.failures == old(disk.oracle.failures) ==>
      OrderedUnlessDrawn(old(disk.tree), plans, disk.trace, |old(disk.trace)|, old(disk.random.drawn),
                         disk.random.drawn)
    ensures Logged(old(disk.fileFailures), disk.fileFailures, old(disk.oracle.refused), disk.oracle.refused, leak)
    ensures disk.oracle.failures >= old(disk.oracle.failures)
    ensures leak.Some? || TargetsFree(plans, disk.random.drawn) ==>
      disk.oracle.failures + Count(Stuck(dirs, leak)) >= old(disk.oracle.failures) + Errors(o)
    ensures disk.oracle.failures == old(disk.oracle.failures) ==>
      o == if Blocked(plans, disk.random.suffixes, old(disk.random.draws)) then ROLLED_BACK else SUCCESS
    ensures disk.oracle.failures == old(disk.oracle.failures) ==> leak.None?
    ensures items.Length > 0 ==>
      Started(disk.oracle.fate, old(disk.oracle.count),
              NextStaged(plans[0].parent, disk.random.suffixes, old(disk.random.draws)),
              old(disk.tree), old(disk.next), disk.trace, |old(disk.trace)|, leak,
              disk.oracle.failures == old(disk.oracle.failures) + 1, disk.random.drawn)
    ensures !o.publication && items.Length > 0
            && Creates(disk.oracle.fate, old(disk.oracle.count),
                       NextStaged(plans[0].parent, disk.random.suffixes, old(disk.random.draws)), old(disk.tree)) ==>
      items[0].stagedName == STAGE_PREFIX + disk.random.suffixes(old(disk.random.draws))
  {
    hide Related, PlansValid, DirsValid, Concluded, Traced, DirsPresent, TargetsFree, Stuck, Blocked, StagedInOrder,
         Creates, OnlyInspectionFails, TraceGood, TraceRecoverable, NoClash, Exposed, OrderedUnlessDrawn;
    ghost var base, n, draws, refused0 := disk.tree, |disk.trace|, disk.random.draws, disk.oracle.refused;
    ghost var calls0, some := disk.fileFailures, disk.random.drawn;
    NothingOwned(base, items[..]);
    NothingAccounted(items[..], disk.random.drawn);
    var failed;
    failed, leak := StageAll(disk, items, base, plans);
    ghost var staged, refused, early := disk.trace, disk.oracle.refused, disk.random.drawn;
    if failed {
      ghost var t := Without(disk.tree, leak);
      var cleanup, close := FinishRollback(disk, dirs, items, base, plans, leak);
      LoggedStands(calls0, disk.fileFailures, refused0, refused, disk.oracle.refused, leak, t);
      o := Outcome(true, false, cleanup, close);
      TraceJoins(base, dirs, plans, staged, disk.trace, n, true, early, disk.random.drawn);
      StagingConcluded(base, disk.tree, dirs, plans, disk.trace, n, o, leak, disk.random.drawn);
      return o, leak;
    }
    o := PublishStaged(disk, dirs, items, base, plans, draws);
    TracedFromStart(base, dirs, plans, staged, disk.trace, n, o, early, disk.random.drawn);
    if disk.oracle.failures == old(disk.oracle.failures) {
      ExposedJoins(base, plans, staged, disk.trace, n, some, early, disk.random.drawn);
      OrderedExactly(base, dirs, plans, disk.trace, n, o, some, disk.random.drawn);
    }
    return o, None;
  }
}
