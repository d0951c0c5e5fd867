/** A small file system: directory entries that name inodes, and the primitives of os.Root that the
    publication code calls. Any call may fail, and a failed call changes nothing. */
module FileSystem {
  import opened Wrappers

  type Name = string
  type Inode = nat
  type Bytes = string

  datatype File = File(content: Bytes, mode: nat)

  // A name in an open directory.
  datatype Loc = Loc(dir: Inode, name: Name)

  // OtherEntry stands for symbolic links and special files.
  datatype Entry = FileEntry(ino: Inode) | DirEntry(ino: Inode) | OtherEntry(ino: Inode)

  datatype Tree = Tree(names: map<Loc, Entry>, files: map<Inode, File>)

  datatype IOError = NotExist | Exist | NotEmpty | Failed

  // Every entry refers to a stored inode below the next free number.
  ghost predicate WellFormed(t: Tree, next: Inode) {
    && (forall loc | loc in t.names ::
          t.names[loc].ino < next && (t.names[loc].FileEntry? ==> t.names[loc].ino in t.files))
    && (forall ino | ino in t.files :: ino < next)
  }

  predicate SameAt(a: Tree, b: Tree, loc: Loc) {
    (loc in a.names <==> loc in b.names) && (loc in a.names ==> a.names[loc] == b.names[loc])
  }

  // Whatever a stores, b stores unchanged.
  predicate KeepsFiles(a: Tree, b: Tree) {
    forall ino | ino in a.files :: ino in b.files && b.files[ino] == a.files[ino]
  }

  predicate IsFile(t: Tree, loc: Loc, ino: Inode) {
    loc in t.names && t.names[loc] == FileEntry(ino)
  }

  predicate EmptyDir(t: Tree, dir: Inode) {
    forall loc | loc in t.names :: loc.dir != dir
  }

  predicate Removable(t: Tree, loc: Loc) {
    loc in t.names && (t.names[loc].DirEntry? ==> EmptyDir(t, t.names[loc].ino))
  }

  // The random part of an artifact name: 16 bytes in hexadecimal digits.
  predicate HexDigits(s: string) {
    forall i | 0 <= i < |s| :: '0' <= s[i] <= '9' || 'a' <= s[i] <= 'f'
  }

  type Suffix = s: string | |s| == 32 && HexDigits(s)
    witness seq(32, i => '0')

  /** Which calls fail. The fate of every call is fixed but unknown, so a statement about every oracle is a
      statement about every course of events. */
  class Oracle {
    const fate: nat -> bool
    // The calls made so far.
    var count: nat
    // The calls that failed and the random names that were in use.
    var failures: nat
    // The names at which an inspection or a removal failed.
    ghost var refused: seq<Loc>

    constructor (fate: nat -> bool)
      ensures this.fate == fate && count == failures == 0 && refused == []
    {
      this.fate := fate;
      count, failures, refused := 0, 0, [];
    }

    // No call fails from here on.
    ghost predicate Quiet()
      reads this
    {
      forall k | k >= count :: !fate(k)
    }

    method Fails() returns (fails: bool)
      modifies `count, `failures
      ensures fails == fate(old(count)) && count == old(count) + 1
      ensures failures == old(failures) + if fails then 1 else 0
    {
      fails := fate(count);
      count := count + 1;
      if fails {
        failures := failures + 1;
      }
    }

    // The same for a call whose failure at a name is remembered.
    method FailsAt(loc: Loc) returns (fails: bool)
      modifies this
      ensures fails == fate(old(count)) && count == old(count) + 1
      ensures failures == old(failures) + if fails then 1 else 0
      ensures refused == old(refused) + if fails then [loc] else []
    {
      fails := Fails();
      if fails {
        refused := refused + [loc];
      }
    }

    // A random name was in use.
    method Collide()
      modifies `failures
      ensures failures == old(failures) + 1
    {
      failures := failures + 1;
    }
  }

  /** The random source, again fixed but unknown, and the names it gave out for each directory. */
  class RandomSource {
    const suffixes: nat -> Suffix
    var draws: nat
    ghost var drawn: set<Loc>

    constructor (suffixes: nat -> Suffix)
      ensures this.suffixes == suffixes && draws == 0 && drawn == {}
    {
      this.suffixes, draws, drawn := suffixes, 0, {};
    }

    method Draw(prefix: Name, ghost dir: Inode) returns (name: Name)
      modifies this
      ensures name == prefix + suffixes(old(draws)) && draws == old(draws) + 1
      ensures drawn == old(drawn) + {Loc(dir, name)}
    {
      name := prefix + suffixes(draws);
      draws := draws + 1;
      drawn := drawn + {Loc(dir, name)};
    }
  }

  // The calls on the open handle of a staged file.
  datatype FileOp = Stat | Chmod | Write | Sync | StatAgain | CloseFile

  datatype FileCall = FileCall(op: FileOp, loc: Loc)

  class Disk {
    const oracle: Oracle
    const random: RandomSource
    var tree: Tree
    var next: Inode
    // Every state since the disk was opened, so that a crash at any point can be described.
    ghost var trace: seq<Tree>
    // The calls on handles of staged files that failed.
    ghost var fileFailures: seq<FileCall>

    ghost predicate Valid()
      reads this
    {
      WellFormed(tree, next)
    }

    constructor (tree: Tree, next: Inode, oracle: Oracle, random: RandomSource)
      requires WellFormed(tree, next)
      ensures Valid() && this.tree == tree && this.next == next && trace == [tree] && fileFailures == []
      ensures this.oracle == oracle && this.random == random
    {
      this.oracle, this.random := oracle, random;
      this.tree, this.next, this.trace, this.fileFailures := tree, next, [tree], [];
    }

    method Lstat(loc: Loc) returns (r: Result<Entry, IOError>)
      modifies oracle
      ensures oracle.failures >= old(oracle.failures)
      ensures r.Ok? ==> loc in tree.names && r.value == tree.names[loc]
      ensures r.Err? ==>
        || (r.error == NotExist && loc !in tree.names)
        || (r.error == Failed && oracle.failures > old(oracle.failures))
      ensures oracle.refused == old(oracle.refused) + if r == Err(Failed) then [loc] else []
      ensures old(oracle.Quiet()) ==> oracle.Quiet() && oracle.failures == old(oracle.failures)
    {
      var fails := oracle.FailsAt(loc);
      if fails {
        return Err(Failed);
      }
      return if loc in tree.names then Ok(tree.names[loc]) else Err(NotExist);
    }

    // Reading the content and permission bits of an opened file.
    method ReadFile(ino: Inode) returns (r: Result<File, IOError>)
      requires ino in tree.files
      modifies oracle`count, oracle`failures
      ensures oracle.failures >= old(oracle.failures)
      ensures r.Ok? ==> r.value == tree.files[ino]
      ensures r.Err? ==> oracle.failures > old(oracle.failures)
    {
      var fails := oracle.Fails();
      return if fails then Err(Failed) else Ok(tree.files[ino]);
    }

    // A call that has no effect on the tree: opening or closing a handle.
    method Touch() returns (failed: bool)
      modifies oracle`count, oracle`failures
      ensures oracle.failures >= old(oracle.failures)
      ensures failed ==> oracle.failures > old(oracle.failures)
      ensures old(oracle.Quiet()) ==> oracle.Quiet() && oracle.failures == old(oracle.failures)
    {
      failed := oracle.Fails();
    }

    ghost predicate Stepped(before: Tree, traceBefore: seq<Tree>, changed: bool)
      reads this
    {
      trace == traceBefore + (if changed then [tree] else []) && (!changed ==> tree == before)
    }

    method Link(from: Loc, to: Loc) returns (error: Option<IOError>)
      requires Valid()
      modifies `tree, `trace, oracle`count, oracle`failures
      ensures oracle.failures >= old(oracle.failures)
      ensures Valid() && Stepped(old(tree), old(trace), error.None?)
      ensures error.None? ==> from in old(tree).names && old(tree).names[from].FileEntry? && to !in old(tree).names
      ensures error.None? ==> tree == old(tree).(names := old(tree).names[to := old(tree).names[from]])
      ensures error.Some? ==>
        || oracle.failures > old(oracle.failures)
        || from !in tree.names || !tree.names[from].FileEntry? || to in tree.names
    {
      var fails := oracle.Fails();
      if fails || (from in tree.names && !tree.names[from].FileEntry?) {
        return Some(Failed);
      }
      if from !in tree.names {
        return Some(NotExist);
      }
      if to in tree.names {
        return Some(Exist);
      }
      tree := tree.(names := tree.names[to := tree.names[from]]);
      trace := trace + [tree];
      return None;
    }

    // rename(2) of a file: replaces a file, and does nothing when both names are the same file already.
    method Rename(from: Loc, to: Loc) returns (error: Option<IOError>)
      requires Valid()
      modifies `tree, `trace, oracle`count, oracle`failures
      ensures oracle.failures >= old(oracle.failures)
      ensures Valid() && Stepped(old(tree), old(trace), error.None?)
      ensures error.None? ==> from in old(tree).names && old(tree).names[from].FileEntry?
      ensures error.None? ==> (to in old(tree).names ==> old(tree).names[to].FileEntry?)
      ensures error.Some? ==>
        || oracle.failures > old(oracle.failures)
        || from !in tree.names || !tree.names[from].FileEntry?
        || (to in tree.names && !tree.names[to].FileEntry?)
      ensures error.None? ==>
        tree == if to in old(tree).names && old(tree).names[to] == old(tree).names[from] then old(tree)
                else old(tree).(names := old(tree).names[to := old(tree).names[from]] - {from})
    {
      var fails := oracle.Fails();
      if fails || (from in tree.names && !tree.names[from].FileEntry?)
         || (to in tree.names && !tree.names[to].FileEntry?) {
        return Some(Failed);
      }
      if from !in tree.names {
        return Some(NotExist);
      }
      if !(to in tree.names && tree.names[to] == tree.names[from]) {
        tree := tree.(names := tree.names[to := tree.names[from]] - {from});
      }
      trace := trace + [tree];
      return None;
    }

    // Remove unlinks a file or removes an empty directory.
    method Remove(loc: Loc) returns (error: Option<IOError>)
      requires Valid()
      modifies `tree, `trace, oracle
      ensures oracle.failures >= old(oracle.failures)
      ensures Valid() && Stepped(old(tree), old(trace), error.None?)
      ensures error.None? ==> loc in old(tree).names && tree == old(tree).(names := old(tree).names - {loc})
      ensures error.None? && old(tree).names[loc].DirEntry? ==> EmptyDir(old(tree), old(tree).names[loc].ino)
      ensures error.Some? ==> oracle.failures > old(oracle.failures) || !Removable(tree, loc)
      ensures oracle.refused == old(oracle.refused) + if error == Some(Failed) then [loc] else []
      ensures error.Some? && Removable(tree, loc) ==> error == Some(Failed)
      ensures old(oracle.Quiet()) ==> oracle.Quiet() && oracle.failures == old(oracle.failures)
    {
      var fails := oracle.FailsAt(loc);
      if fails {
        return Some(Failed);
      }
      if loc !in tree.names {
        return Some(NotExist);
      }
      if tree.names[loc].DirEntry? && !EmptyDir(tree, tree.names[loc].ino) {
        return Some(NotEmpty);
      }
      tree := tree.(names := tree.names - {loc});
      trace := trace + [tree];
      return None;
    }

    method Mkdir(loc: Loc) returns (error: Option<IOError>)
      requires Valid()
      modifies `tree, `next, `trace, oracle`count, oracle`failures
      ensures oracle.failures >= old(oracle.failures)
      ensures Valid() && Stepped(old(tree), old(trace), error.None?)
      ensures error.Some? ==> next == old(next) && (oracle.failures > old(oracle.failures) || loc in tree.names)
      ensures error.None? ==> loc !in old(tree).names && next == old(next) + 1
      ensures error.None? ==> tree == old(tree).(names := old(tree).names[loc := DirEntry(old(next))])
    {
      var fails := oracle.Fails();
      if fails {
        return Some(Failed);
      }
      if loc in tree.names {
        return Some(Exist);
      }
      tree := tree.(names := tree.names[loc := DirEntry(next)]);
      next := next + 1;
      trace := trace + [tree];
      return None;
    }

    // OpenFile with O_CREATE and O_EXCL.
    method CreateExclusive(loc: Loc, mode: nat) returns (r: Result<Inode, IOError>)
      requires Valid()
      modifies `tree, `next, `trace, oracle`count, oracle`failures
      ensures oracle.count == old(oracle.count) + 1
      ensures oracle.failures == old(oracle.failures) + if oracle.fate(old(oracle.count)) then 1 else 0
      ensures Valid() && Stepped(old(tree), old(trace), r.Ok?)
      ensures r.Ok? <==> !oracle.fate(old(oracle.count)) && loc !in old(tree).names
      ensures r.Err? ==> next == old(next) && r.error == if oracle.fate(old(oracle.count)) then Failed else Exist
      ensures r.Ok? ==> r.value == old(next) && r.value !in old(tree).files && next == old(next) + 1
      ensures r.Ok? ==>
        tree == Tree(old(tree).names[loc := FileEntry(r.value)], old(tree).files[r.value := File("", mode)])
    {
      var fails := oracle.Fails();
      if fails {
        return Err(Failed);
      }
      if loc in tree.names {
        return Err(Exist);
      }
      var ino := next;
      tree := Tree(tree.names[loc := FileEntry(ino)], tree.files[ino := File("", mode)]);
      next := next + 1;
      trace := trace + [tree];
      return Ok(ino);
    }

    // A call on the handle of the file at this name that has no effect on the tree.
    method OnFile(call: FileCall) returns (failed: bool)
      modifies `fileFailures, oracle`count, oracle`failures
      ensures failed == oracle.fate(old(oracle.count)) && oracle.count == old(oracle.count) + 1
      ensures oracle.failures == old(oracle.failures) + if failed then 1 else 0
      ensures fileFailures == old(fileFailures) + if failed then [call] else []
    {
      failed := oracle.Fails();
      if failed {
        fileFailures := fileFailures + [call];
      }
    }

    // Chmod and Write on the handle.
    method Store(call: FileCall, ino: Inode, file: File) returns (failed: bool)
      requires Valid() && ino in tree.files
      modifies `tree, `trace, `fileFailures, oracle`count, oracle`failures
      ensures oracle.failures == old(oracle.failures) + if failed then 1 else 0
      ensures fileFailures == old(fileFailures) + if failed then [call] else []
      ensures Valid() && Stepped(old(tree), old(trace), !failed)
      ensures !failed ==> tree == old(tree).(files := old(tree).files[ino := file])
    {
      failed := OnFile(call);
      if !failed {
        tree := tree.(files := tree.files[ino := file]);
        trace := trace + [tree];
      }
    }
  }
}
