/** Opening the directories above the targets of a publication, creating the missing ones. */
module Parents {
  import opened Wrappers
  import opened FileSystem
  import opened Paths
  import Publisher

  // The directories opened so far with their paths, in order and by path.
  datatype Opening = Opening(byPath: map<Path, Inode>, dirs: seq<Publisher.Directory>, paths: seq<Path>)

  ghost predicate Indexed(o: Opening, root: Inode) {
    && [] in o.byPath && o.byPath[[]] == root && |o.paths| == |o.dirs|
    && (forall p | p in o.byPath && p != [] :: p in o.paths)
    && (forall i | 0 <= i < |o.dirs| :: Entered(o, i))
    && (forall i, k | 0 <= i < k < |o.dirs| :: o.paths[i] != o.paths[k])
  }

  // Directory i is entered from the root or from a directory opened before it.
  ghost predicate Entered(o: Opening, i: nat)
    requires i < |o.dirs| == |o.paths|
  {
    var p, d := o.paths[i], o.dirs[i];
    && p != [] && p in o.byPath && Parent(p) in o.byPath
    && d.parent == o.byPath[Parent(p)] && d.name == Base(p) && d.ino == o.byPath[p]
    && (Parent(p) == [] || exists j :: 0 <= j < i && o.paths[j] == Parent(p))
  }

  ghost predicate Located(t: Tree, root: Inode, o: Opening) {
    forall p | p in o.byPath :: Look(t, root, p) == Paths.Directory(o.byPath[p])
  }

  // The tree has gained exactly the created directories.
  ghost predicate Grown(t0: Tree, next0: Inode, t: Tree, o: Opening) {
    && t.files == t0.files
    && (forall loc | loc in t0.names :: loc in t.names && t.names[loc] == t0.names[loc])
    && (forall loc | loc in t.names && loc !in t0.names ::
          exists i :: 0 <= i < |o.dirs| && o.dirs[i].created && Publisher.DirLoc(o.dirs[i]) == loc)
    && (forall i | 0 <= i < |o.dirs| && o.dirs[i].created ::
          Publisher.DirLoc(o.dirs[i]) !in t0.names && o.dirs[i].ino >= next0)
  }

  // Every opened directory lies above a target.
  ghost predicate AboveTargets(o: Opening, targets: seq<Path>) {
    forall i | 0 <= i < |o.paths| ::
      exists k :: 0 <= k < |targets| && o.paths[i] <= targets[k] && |o.paths[i]| < |targets[k]|
  }

  ghost predicate Opened(t0: Tree, next0: Inode, t: Tree, next: Inode, root: Inode, o: Opening, targets: seq<Path>) {
    && DirectoryTree(t0, next0, root) && next0 <= next && WellFormed(t, next)
    && DirectoryTree(t, next, root) && Indexed(o, root) && Located(t, root, o) && Grown(t0, next0, t, o)
    && AboveTargets(o, targets)
  }

  // openStableDirectoryComponent. A failure after Mkdir leaves the new directory behind, unrecorded.
  method OpenComponent(disk: Disk, parent: Inode, name: Name) returns (r: Result<Publisher.Directory, ()>)
    requires disk.Valid()
    modifies disk`tree, disk`next, disk`trace, disk.oracle
    ensures disk.Valid() && disk.oracle.failures >= old(disk.oracle.failures)
    ensures old(disk.trace) <= disk.trace
    ensures forall k | |old(disk.trace)| <= k < |disk.trace| :: disk.trace[k] == disk.tree
    ensures r.Ok? ==> r.value.parent == parent && r.value.name == name
    ensures r.Ok? && !r.value.created ==>
      && disk.tree == old(disk.tree)
      && disk.next == old(disk.next)
      && Loc(parent, name) in disk.tree.names
      && disk.tree.names[Loc(parent, name)] == DirEntry(r.value.ino)
    ensures (r.Ok? && r.value.created) || (r.Err? && disk.tree != old(disk.tree)) ==>
      && Loc(parent, name) !in old(disk.tree).names && disk.next == old(disk.next) + 1
      && disk.tree == old(disk.tree).(names := old(disk.tree).names[Loc(parent, name) := DirEntry(old(disk.next))])
    ensures r.Ok? && r.value.created ==> r.value.ino == old(disk.next)
    ensures r.Err? && disk.tree == old(disk.tree) ==> disk.next == old(disk.next)
    ensures r.Err? && disk.oracle.failures == old(disk.oracle.failures) ==>
      Loc(parent, name) in old(disk.tree).names && !old(disk.tree).names[Loc(parent, name)].DirEntry?
  {
    var loc := Loc(parent, name);
    var info := disk.Lstat(loc);
    var created := false;
    if info == Err(NotExist) {
      var error := disk.Mkdir(loc);
      if error.Some? {
        return Err(());
      }
      created := true;
      info := disk.Lstat(loc);
    }
    if info.Err? || !info.value.DirEntry? {
      return Err(());
    }
    var failed := disk.Touch();
    if failed {
      return Err(());
    }
    var after := disk.Lstat(loc);
    if after.Err? || after.value != info.value {
      return Err(());
    }
    r := Ok(Publisher.Directory(parent, name, info.value.ino, created));
  }

  // The opening after one more directory.
  function Extended(o: Opening, p: Path, d: Publisher.Directory): Opening {
    Opening(o.byPath[p := d.ino], o.dirs + [d], o.paths + [p])
  }

  ghost predicate Above(p: Path, targets: seq<Path>) {
    exists k :: 0 <= k < |targets| && p <= targets[k] && |p| < |targets[k]|
  }

  lemma IndexGrows(o: Opening, root: Inode, p: Path, d: Publisher.Directory)
    requires Indexed(o, root) && p != [] && p !in o.byPath && Parent(p) in o.byPath
    requires d.parent == o.byPath[Parent(p)] && d.name == Base(p)
    ensures Indexed(Extended(o, p, d), root)
  {
    var e := Extended(o, p, d);
    forall i | 0 <= i < |e.dirs| ensures Entered(e, i) {
      if i < |o.dirs| {
        assert Entered(o, i);
        if Parent(o.paths[i]) != [] {
          var j :| 0 <= j < i && o.paths[j] == Parent(o.paths[i]);
          assert e.paths[j] == Parent(e.paths[i]);
        }
      } else if Parent(p) != [] {
        assert Parent(p) in o.paths;
        var j :| 0 <= j < |o.paths| && o.paths[j] == Parent(p);
        assert e.paths[j] == Parent(p);
      }
    }
    forall i | 0 <= i < |o.paths| ensures o.paths[i] != p {
      assert Entered(o, i);
    }
  }

  lemma LocationsGrow(t: Tree, u: Tree, root: Inode, o: Opening, p: Path, d: Publisher.Directory)
    requires Located(t, root, o) && p != [] && Parent(p) in o.byPath && DirectoriesKept(t, u)
    requires d.parent == o.byPath[Parent(p)] && d.name == Base(p)
    requires Publisher.DirLoc(d) in u.names && u.names[Publisher.DirLoc(d)] == DirEntry(d.ino)
    ensures Located(u, root, Extended(o, p, d))
  {
    forall q | q in o.byPath ensures Look(u, root, q) == Paths.Directory(o.byPath[q]) {
      DirectoryStays(t, u, root, q);
    }
  }

  // Nothing lies in a directory that does not exist yet.
  lemma NewDirectoryFits(t: Tree, next: Inode, root: Inode, loc: Loc)
    requires DirectoryTree(t, next, root) && WellFormed(t, next) && loc.dir < next && loc !in t.names
    ensures var u := t.(names := t.names[loc := DirEntry(next)]);
            DirectoryTree(u, next + 1, root) && DirectoriesKept(t, u)
  {
  }

  lemma LocatedBelow(t: Tree, next: Inode, root: Inode, p: Path)
    requires DirectoryTree(t, next, root) && WellFormed(t, next) && Look(t, root, p).Directory?
    ensures Look(t, root, p).ino < next
  {
  }

  lemma GrowthExtends(t0: Tree, next0: Inode, t: Tree, u: Tree, o: Opening, p: Path, d: Publisher.Directory)
    requires Grown(t0, next0, t, o)
    requires !d.created ==> u == t
    requires d.created ==>
      && Publisher.DirLoc(d) !in t.names
      && d.ino >= next0
      && u == t.(names := t.names[Publisher.DirLoc(d) := DirEntry(d.ino)])
    ensures Grown(t0, next0, u, Extended(o, p, d))
  {
    var e := Extended(o, p, d);
    forall loc | loc in u.names && loc !in t0.names
      ensures exists i :: 0 <= i < |e.dirs| && e.dirs[i].created && Publisher.DirLoc(e.dirs[i]) == loc
    {
      if loc in t.names {
        var i :| 0 <= i < |o.dirs| && o.dirs[i].created && Publisher.DirLoc(o.dirs[i]) == loc;
        assert e.dirs[i] == o.dirs[i];
      } else {
        assert e.dirs[|o.dirs|] == d;
      }
    }
  }

  lemma OpeningExtends(t0: Tree, next0: Inode, t: Tree, next: Inode, u: Tree, next1: Inode, root: Inode, o: Opening,
                       targets: seq<Path>, p: Path, d: Publisher.Directory)
    requires Opened(t0, next0, t, next, root, o, targets) && p != [] && p !in o.byPath && Parent(p) in o.byPath
    requires Above(p, targets)
    requires d.parent == o.byPath[Parent(p)] && d.name == Base(p)
    requires !d.created ==>
      u == t && next1 == next && Publisher.DirLoc(d) in t.names && t.names[Publisher.DirLoc(d)] == DirEntry(d.ino)
    requires d.created ==>
      && Publisher.DirLoc(d) !in t.names
      && d.ino == next
      && next1 == next + 1
      && u == t.(names := t.names[Publisher.DirLoc(d) := DirEntry(next)])
    ensures Opened(t0, next0, u, next1, root, Extended(o, p, d), targets)
  {
    hide Indexed, Grown, Look;
    LocatedBelow(t, next, root, Parent(p));
    if d.created {
      NewDirectoryFits(t, next, root, Publisher.DirLoc(d));
    }
    IndexGrows(o, root, p, d);
    LocationsGrow(t, u, root, o, p, d);
    GrowthExtends(t0, next0, t, u, o, p, d);
    var e := Extended(o, p, d);
    forall i | 0 <= i < |e.paths|
      ensures exists k :: 0 <= k < |targets| && e.paths[i] <= targets[k] && |e.paths[i]| < |targets[k]|
    {
      assert i < |o.paths| ==> e.paths[i] == o.paths[i];
    }
  }

  // A directory entered without creating it was there before.
  lemma FoundDirectoryIsOld(t0: Tree, next0: Inode, t: Tree, next: Inode, root: Inode, o: Opening, targets: seq<Path>,
                            k: nat)
    requires Opened(t0, next0, t, next, root, o, targets) && k < |o.dirs| && !o.dirs[k].created
    requires Publisher.DirLoc(o.dirs[k]) in t.names
    ensures Publisher.DirLoc(o.dirs[k]) in t0.names
  {
    if Publisher.DirLoc(o.dirs[k]) !in t0.names {
      var j :| 0 <= j < |o.dirs| && o.dirs[j].created && Publisher.DirLoc(o.dirs[j]) == Publisher.DirLoc(o.dirs[k]);
      assert Entered(o, j) && Entered(o, k);
      var parent := Paths.Directory(o.dirs[j].parent);
      assert Look(t, root, Parent(o.paths[j])) == parent == Look(t, root, Parent(o.paths[k]));
      OneLocation(t, next, root, o.paths[j], o.paths[k]);
    }
  }

  lemma {:induction false} OldDirectory(t0: Tree, next0: Inode, t: Tree, next: Inode, root: Inode, o: Opening,
                                        targets: seq<Path>, q: Path)
    requires Opened(t0, next0, t, next, root, o, targets) && q in o.byPath && o.byPath[q] < next0
    ensures Look(t0, root, q) == Paths.Directory(o.byPath[q])
    decreases |q|
  {
    assert Look(t, root, q) == Paths.Directory(o.byPath[q]);
    if q != [] {
      assert q in o.paths;
      var k :| 0 <= k < |o.paths| && o.paths[k] == q;
      assert Entered(o, k);
      assert !o.dirs[k].created;
      var loc := Publisher.DirLoc(o.dirs[k]);
      assert Look(t, root, Parent(q)) == Paths.Directory(loc.dir);
      assert loc in t.names;
      FoundDirectoryIsOld(t0, next0, t, next, root, o, targets, k);
      OldDirectory(t0, next0, t, next, root, o, targets, Parent(q));
    }
  }

  // A directory that was created holds only directories created after it.
  lemma CreatedHoldCreated(t0: Tree, next0: Inode, t: Tree, next: Inode, root: Inode, o: Opening, targets: seq<Path>,
                           i: nat, loc: Loc)
    requires Opened(t0, next0, t, next, root, o, targets) && i < |o.dirs| && o.dirs[i].created && loc in t.names
    requires loc.dir == o.dirs[i].ino
    ensures exists k :: i < k < |o.dirs| && o.dirs[k].created && Publisher.DirLoc(o.dirs[k]) == loc
  {
    assert loc !in t0.names;
    var k :| 0 <= k < |o.dirs| && o.dirs[k].created && Publisher.DirLoc(o.dirs[k]) == loc;
    assert Entered(o, k) && Entered(o, i);
    OnePath(t, next, root, Parent(o.paths[k]), o.paths[i]);
    var j :| 0 <= j < k && o.paths[j] == Parent(o.paths[k]);
    assert j == i;
  }

  lemma OpenedValid(t0: Tree, next0: Inode, t: Tree, next: Inode, root: Inode, o: Opening, targets: seq<Path>)
    requires Opened(t0, next0, t, next, root, o, targets)
    ensures Publisher.DirsValid(t, o.dirs)
  {
    forall i | 0 <= i < |o.dirs|
      ensures Publisher.DirLoc(o.dirs[i]) in t.names && t.names[Publisher.DirLoc(o.dirs[i])] == DirEntry(o.dirs[i].ino)
    {
      assert Entered(o, i);
      assert Look(t, root, o.paths[i]) == Paths.Directory(o.dirs[i].ino);
      assert Look(t, root, Parent(o.paths[i])) == Paths.Directory(o.dirs[i].parent);
    }
    forall i, k | 0 <= i < k < |o.dirs| ensures Publisher.DirLoc(o.dirs[i]) != Publisher.DirLoc(o.dirs[k]) {
      assert Entered(o, i) && Entered(o, k);
      if Publisher.DirLoc(o.dirs[i]) == Publisher.DirLoc(o.dirs[k]) {
        OneLocation(t, next, root, o.paths[i], o.paths[k]);
      }
    }
    forall i, loc | 0 <= i < |o.dirs| && o.dirs[i].created && loc in t.names && loc.dir == o.dirs[i].ino
      ensures exists k :: i < k < |o.dirs| && o.dirs[k].created && loc == Publisher.DirLoc(o.dirs[k])
    {
      CreatedHoldCreated(t0, next0, t, next, root, o, targets, i, loc);
    }
  }

  lemma NothingOpened(t: Tree, next: Inode, root: Inode, targets: seq<Path>)
    requires DirectoryTree(t, next, root) && WellFormed(t, next)
    ensures Opened(t, next, t, next, root, Opening(map[[] := root], [], []), targets)
  {
  }

  // A failed run may have created directories, nothing else.
  ghost predicate OnlyDirectoriesAppeared(t0: Tree, t: Tree) {
    && t.files == t0.files
    && (forall loc | loc in t0.names :: loc in t.names && t.names[loc] == t0.names[loc])
    && (forall loc | loc in t.names && loc !in t0.names :: t.names[loc].DirEntry?)
  }

  // After a failure the opened directories are closed and the created ones removed.
  method Abandon(disk: Disk, dirs: seq<Publisher.Directory>, ghost o: Opening, ghost t0: Tree, ghost next0: Inode,
                 ghost t: Tree, ghost next: Inode, ghost root: Inode, ghost targets: seq<Path>)
    requires disk.Valid() && Opened(t0, next0, t, next, root, o, targets) && dirs == o.dirs
    requires disk.tree == t || exists loc :: loc !in t.names && disk.tree == t.(names := t.names[loc := DirEntry(next)])
    modifies disk`tree, disk`next, disk`trace, disk.oracle
    ensures old(disk.trace) <= disk.trace
    ensures forall k | |old(disk.trace)| <= k < |disk.trace| :: OnlyDirectoriesAppeared(t0, disk.trace[k])
    ensures disk.Valid() && OnlyDirectoriesAppeared(t0, disk.tree) && disk.oracle.failures >= old(disk.oracle.failures)
  {
    OpenedValid(t0, next0, t, next, root, o, targets);
    ghost var before := disk.tree;
    AppearedSoFar(t0, next0, t, next, root, o, targets, before);
    assert forall loc | loc in Publisher.CreatedLocs(dirs, 0) :: loc !in t0.names;
    var dropped := Publisher.CloseDirectories(disk, dirs, true, t);
  }

  lemma AppearedSoFar(t0: Tree, next0: Inode, t: Tree, next: Inode, root: Inode, o: Opening, targets: seq<Path>,
                      u: Tree)
    requires Opened(t0, next0, t, next, root, o, targets)
    requires u == t || exists loc :: loc !in t.names && u == t.(names := t.names[loc := DirEntry(next)])
    ensures OnlyDirectoriesAppeared(t0, u)
  {
    OpenedValid(t0, next0, t, next, root, o, targets);
    forall loc | loc in t.names && loc !in t0.names ensures t.names[loc].DirEntry? {
      var i :| 0 <= i < |o.dirs| && o.dirs[i].created && Publisher.DirLoc(o.dirs[i]) == loc;
    }
  }

  // A name that is there but no directory makes a target below it unreachable, and did so from the start.
  lemma Obstructed(t0: Tree, next0: Inode, t: Tree, next: Inode, root: Inode, o: Opening, targets: seq<Path>, k: nat,
                   n: nat)
    requires Opened(t0, next0, t, next, root, o, targets) && k < |targets| && 0 < n < |targets[k]|
    requires Parent(targets[k][..n]) in o.byPath
    ensures var loc := Loc(o.byPath[Parent(targets[k][..n])], targets[k][n - 1]);
      loc in t.names && !t.names[loc].DirEntry? ==> Look(t0, root, targets[k]) == Special
  {
    var p := targets[k][..n];
    var loc := Loc(o.byPath[Parent(p)], Base(p));
    if loc in t.names && !t.names[loc].DirEntry? {
      assert loc in t0.names by {
        if loc !in t0.names {
          AppearedSoFar(t0, next0, t, next, root, o, targets, t);
        }
      }
      OldDirectory(t0, next0, t, next, root, o, targets, Parent(p));
      LooksTheSame(t0, root, targets[k], n);
    }
  }

  method OpenParents(disk: Disk, root: Inode, targets: seq<Path>) returns (r: Result<Opening, ()>)
    requires disk.Valid() && DirectoryTree(disk.tree, disk.next, root)
    requires forall k | 0 <= k < |targets| :: targets[k] != []
    modifies disk`tree, disk`next, disk`trace, disk.oracle
    ensures disk.Valid() && disk.oracle.failures >= old(disk.oracle.failures)
    ensures old(disk.trace) <= disk.trace
    ensures forall k | |old(disk.trace)| <= k < |disk.trace| :: OnlyDirectoriesAppeared(old(disk.tree), disk.trace[k])
    ensures r.Err? ==> OnlyDirectoriesAppeared(old(disk.tree), disk.tree)
    ensures r.Err? && disk.oracle.failures == old(disk.oracle.failures) ==>
      exists k :: 0 <= k < |targets| && Look(old(disk.tree), root, targets[k]) == Special
    ensures r.Ok? ==> Opened(old(disk.tree), old(disk.next), disk.tree, disk.next, root, r.value, targets)
    ensures r.Ok? ==> forall k | 0 <= k < |targets| :: Parent(targets[k]) in r.value.byPath
  {
    hide Opened, OnlyDirectoriesAppeared;
    ghost var t0, next0 := disk.tree, disk.next;
    var o := Opening(map[[] := root], [], []);
    NothingOpened(t0, next0, root, targets);
    for k := 0 to |targets|
      invariant disk.Valid() && Opened(t0, next0, disk.tree, disk.next, root, o, targets)
      invariant disk.oracle.failures >= old(disk.oracle.failures)
      invariant old(disk.trace) <= disk.trace
      invariant forall j | |old(disk.trace)| <= j < |disk.trace| :: OnlyDirectoriesAppeared(t0, disk.trace[j])
      invariant forall j | 0 <= j < k :: Parent(targets[j]) in o.byPath
    {
      OpenedRoot(t0, next0, disk.tree, disk.next, root, o, targets);
      for n := 0 to |targets[k]| - 1
        invariant disk.Valid() && Opened(t0, next0, disk.tree, disk.next, root, o, targets)
        invariant disk.oracle.failures >= old(disk.oracle.failures)
        invariant old(disk.trace) <= disk.trace
        invariant forall j | |old(disk.trace)| <= j < |disk.trace| :: OnlyDirectoriesAppeared(t0, disk.trace[j])
        invariant forall j | 0 <= j < k :: Parent(targets[j]) in o.byPath
        invariant targets[k][..n] in o.byPath
      {
        var p := targets[k][..n + 1];
        assert Parent(p) == targets[k][..n] && Base(p) == targets[k][n];
        if p !in o.byPath {
          ghost var t, next := disk.tree, disk.next;
          var d := OpenComponent(disk, o.byPath[Parent(p)], Base(p));
          AppearedSoFar(t0, next0, t, next, root, o, targets, disk.tree);
          if d.Err? {
            Obstructed(t0, next0, t, next, root, o, targets, k, n + 1);
            Abandon(disk, o.dirs, o, t0, next0, t, next, root, targets);
            return Err(());
          }
          assert Above(p, targets);
          OpeningExtends(t0, next0, t, next, disk.tree, disk.next, root, o, targets, p, d.value);
          o := Extended(o, p, d.value);
        }
      }
      assert targets[k][..|targets[k]| - 1] == Parent(targets[k]);
    }
    OpenedValid(t0, next0, disk.tree, disk.next, root, o, targets);
    Publisher.ValidDirsPresent(disk.tree, o.dirs);
    var failed := Publisher.ValidateDirectories(disk, o.dirs);
    if failed {
      Abandon(disk, o.dirs, o, t0, next0, disk.tree, disk.next, root, targets);
      return Err(());
    }
    r := Ok(o);
  }

  lemma OpenedRoot(t0: Tree, next0: Inode, t: Tree, next: Inode, root: Inode, o: Opening, targets: seq<Path>)
    requires Opened(t0, next0, t, next, root, o, targets)
    ensures [] in o.byPath
  {
  }
}
