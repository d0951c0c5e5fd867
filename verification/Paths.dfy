/** Relative paths below a root directory: which ones a manifest may name, and what they lead to. */
module Paths {
  import opened Wrappers
  import opened FileSystem
  import Text
  import Publication
  import Publisher

  // The components of a slash-separated path.
  type Path = seq<Name>

  const FORBIDDEN := {'\\', '\0', '*', '?', '[', ']', '{', '}'}

  predicate Letter(c: char) {
    'a' <= c <= 'z' || 'A' <= c <= 'Z'
  }

  // A component of a clean relative path that stays inside its root.
  predicate SafeComponent(c: Name) {
    c != "" && c != "." && c != ".." && '/' !in c && forall i | 0 <= i < |c| :: c[i] !in FORBIDDEN
  }

  // isSafeRelativePath, on components: relative, clean, without wildcards and without a drive letter.
  predicate SafePath(p: Path) {
    && p != [] && (forall c | c in p :: SafeComponent(c))
    && !(|p[0]| >= 2 && p[0][1] == ':' && Letter(p[0][0]))
  }

  function Parent(p: Path): Path
    requires p != []
  {
    p[..|p| - 1]
  }

  function Base(p: Path): Name
    requires p != []
  {
    p[|p| - 1]
  }

  // Different safe paths have different texts, so comparing texts compares paths.
  function PathText(p: Path): string {
    Text.Join(p, '/')
  }

  lemma TextDeterminesPath(p: Path, q: Path)
    requires SafePath(p) && SafePath(q) && PathText(p) == PathText(q)
    ensures p == q
  {
    assert Text.Joinable(p, '/') && Text.Joinable(q, '/') by {
      assert forall c | c in p :: SafeComponent(c);
      assert forall c | c in q :: SafeComponent(c);
    }
    Text.JoinInjective(p, q, '/');
  }

  // No path is another one, or a directory on the way to another one.
  ghost predicate PrefixFree(paths: seq<Path>) {
    forall i, k | 0 <= i < |paths| && 0 <= k < |paths| && i != k :: !(paths[i] <= paths[k])
  }

  ghost predicate Distinct(paths: seq<Path>) {
    forall i, k | 0 <= i < k < |paths| :: paths[i] != paths[k]
  }

  // A proper ancestor other than the root is listed.
  ghost predicate AncestorListed(paths: seq<Path>, p: Path, from: nat) {
    exists n :: from <= n < |p| && 0 < n && p[..n] in paths
  }

  lemma PrefixCases(p: Path, q: Path)
    ensures p <= q <==> p == q || (|p| < |q| && q[..|p|] == p)
  {
    assert q[..|q|] == q;
  }

  lemma PrefixFreeExactly(paths: seq<Path>)
    requires forall i | 0 <= i < |paths| :: paths[i] != []
    ensures PrefixFree(paths) <==> Distinct(paths) && forall i | 0 <= i < |paths| :: !AncestorListed(paths, paths[i], 1)
  {
    if PrefixFree(paths) {
      forall i | 0 <= i < |paths| ensures !AncestorListed(paths, paths[i], 1) {
        forall n | 1 <= n < |paths[i]| ensures paths[i][..n] !in paths {
          forall k | 0 <= k < |paths| ensures paths[k] != paths[i][..n] {
            assert k != i ==> !(paths[k] <= paths[i]);
          }
        }
      }
      forall i, k | 0 <= i < k < |paths| ensures paths[i] != paths[k] {
        assert !(paths[i] <= paths[k]);
      }
    }
    if Distinct(paths) && forall i | 0 <= i < |paths| :: !AncestorListed(paths, paths[i], 1) {
      forall i, k | 0 <= i < |paths| && 0 <= k < |paths| && i != k ensures !(paths[i] <= paths[k]) {
        var n := |paths[i]|;
        assert paths[i] != paths[k] && !AncestorListed(paths, paths[k], 1);
        PrefixCases(paths[i], paths[k]);
        assert n < |paths[k]| ==> paths[k][..n] !in paths;
      }
    }
  }

  // validatePathCollisions: a set of the paths seen, then a walk up from each of them.
  method ValidatePathCollisions(paths: seq<Path>) returns (ok: bool)
    requires forall i | 0 <= i < |paths| :: paths[i] != []
    ensures ok <==> PrefixFree(paths)
  {
    PrefixFreeExactly(paths);
    hide PrefixFree;
    var seen: set<Path> := {};
    for i := 0 to |paths|
      invariant seen == set k | 0 <= k < i :: paths[k]
      invariant forall j, k | 0 <= j < k < i :: paths[j] != paths[k]
    {
      if paths[i] in seen {
        return false;
      }
      seen := seen + {paths[i]};
    }
    assert forall p :: p in seen <==> p in paths;
    for i := 0 to |paths|
      invariant forall k | 0 <= k < i :: !AncestorListed(paths, paths[k], 1)
    {
      var ancestor := Parent(paths[i]);
      while ancestor != []
        invariant ancestor <= paths[i] && |ancestor| < |paths[i]|
        invariant !AncestorListed(paths, paths[i], |ancestor| + 1)
        decreases |ancestor|
      {
        assert ancestor == paths[i][..|ancestor|];
        if ancestor in seen {
          assert AncestorListed(paths, paths[i], 1);
          return false;
        }
        ancestor := Parent(ancestor);
      }
    }
    ok := true;
  }

  // ---------- What a path leads to ----------

  datatype Seen = Missing | Directory(ino: Inode) | Regular(ino: Inode) | Special

  // Walking down from the root; only a directory leads further.
  function Look(t: Tree, root: Inode, p: Path): Seen {
    if p == [] then Directory(root)
    else
      match Look(t, root, Parent(p))
      case Missing => Missing
      case Directory(dir) =>
        if Loc(dir, Base(p)) !in t.names then Missing
        else (match t.names[Loc(dir, Base(p))]
              case FileEntry(ino) => Regular(ino)
              case DirEntry(ino) => Directory(ino)
              case OtherEntry(_) => Special)
      case _ => Special
  }

  // Directories form a tree below the root: none is entered twice, and names lie in existing directories.
  ghost predicate DirectoryTree(t: Tree, next: Inode, root: Inode) {
    && root < next
    && (forall loc | loc in t.names :: loc.dir < next && t.names[loc] != DirEntry(root))
    && (forall a, b | a in t.names && b in t.names && a != b && t.names[a].DirEntry? :: t.names[a] != t.names[b])
  }

  // A directory has one path.
  lemma {:induction false} OnePath(t: Tree, next: Inode, root: Inode, p: Path, q: Path)
    requires DirectoryTree(t, next, root) && Look(t, root, p).Directory? && Look(t, root, p) == Look(t, root, q)
    ensures p == q
    decreases |p|
  {
    if p != [] && q != [] {
      assert Look(t, root, Parent(p)).Directory? && Look(t, root, Parent(q)).Directory?;
      OnePath(t, next, root, Parent(p), Parent(q));
      assert p == Parent(p) + [Base(p)] && q == Parent(q) + [Base(q)];
    }
  }

  lemma OneLocation(t: Tree, next: Inode, root: Inode, p: Path, q: Path)
    requires DirectoryTree(t, next, root) && p != [] && q != [] && Base(p) == Base(q)
    requires Look(t, root, Parent(p)).Directory? && Look(t, root, Parent(p)) == Look(t, root, Parent(q))
    ensures p == q
  {
    OnePath(t, next, root, Parent(p), Parent(q));
    assert p == Parent(p) + [Base(p)] && q == Parent(q) + [Base(q)];
  }

  // Every directory on the way to a directory.
  lemma {:induction false} DirectoriesLeadThere(t: Tree, root: Inode, p: Path, n: nat)
    requires Look(t, root, p).Directory? && n <= |p|
    ensures Look(t, root, p[..n]).Directory?
    decreases |p|
  {
    if n < |p| {
      DirectoriesLeadThere(t, root, Parent(p), n);
      assert Parent(p)[..n] == p[..n];
    } else {
      assert p[..n] == p;
    }
  }

  // What was there is still there when directory entries stay.
  ghost predicate DirectoriesKept(t: Tree, u: Tree) {
    forall loc | loc in t.names && t.names[loc].DirEntry? :: loc in u.names && u.names[loc] == t.names[loc]
  }

  lemma {:induction false} DirectoryStays(t: Tree, u: Tree, root: Inode, p: Path)
    requires DirectoriesKept(t, u) && Look(t, root, p).Directory?
    ensures Look(u, root, p) == Look(t, root, p)
    decreases |p|
  {
    if p != [] {
      DirectoryStays(t, u, root, Parent(p));
    }
  }

  // Directories may be removed, but none is replaced.
  ghost predicate DirectoriesKeptOrGone(t: Tree, u: Tree) {
    forall loc | loc in t.names && t.names[loc].DirEntry? && loc in u.names :: u.names[loc] == t.names[loc]
  }

  lemma {:induction false} DirectoryStaysOrGoes(t: Tree, u: Tree, root: Inode, p: Path)
    requires DirectoriesKeptOrGone(t, u) && Look(t, root, p).Directory?
    ensures Look(u, root, p) == Look(t, root, p) || Look(u, root, p) == Missing
    decreases |p|
  {
    if p != [] {
      DirectoryStaysOrGoes(t, u, root, Parent(p));
    }
  }

  // ---------- Reading a file by its path ----------

  // readRootRegularFile: every component but the last must be a directory, the last a regular file.
  method ReadPath(disk: Disk, root: Inode, p: Path, allowMissing: bool) returns (r: Result<Publication.Previous, ()>)
    requires disk.Valid() && p != []
    modifies disk.oracle
    ensures disk.oracle.failures >= old(disk.oracle.failures)
    ensures r == Ok(Publication.Absent) ==> allowMissing && Look(disk.tree, root, p) == Missing
    ensures r.Ok? && r.value.Present? ==>
      && Look(disk.tree, root, p) == Regular(r.value.ino) && r.value.ino in disk.tree.files
      && disk.tree.files[r.value.ino] == File(r.value.content, r.value.mode)
    ensures r.Err? && disk.oracle.failures == old(disk.oracle.failures) ==>
      !Look(disk.tree, root, p).Regular? && !(allowMissing && Look(disk.tree, root, p) == Missing)
  {
    var dir := root;
    for i := 0 to |p| - 1
      invariant Look(disk.tree, root, p[..i]) == Directory(dir)
      invariant disk.oracle.failures >= old(disk.oracle.failures)
    {
      assert Parent(p[..i + 1]) == p[..i] && Base(p[..i + 1]) == p[i];
      var info := disk.Lstat(Loc(dir, p[i]));
      if info.Err? || !info.value.DirEntry? {
        if info.Err? && info.error == NotExist {
          LooksTheSame(disk.tree, root, p, i + 1);
          if allowMissing {
            var failed := disk.Touch();
            return if failed then Err(()) else Ok(Publication.Absent);
          }
        } else if info.Ok? {
          LooksTheSame(disk.tree, root, p, i + 1);
        }
        return Err(());
      }
      dir := info.value.ino;
    }
    r := Publisher.ReadRegular(disk, Loc(dir, Base(p)), allowMissing);
  }

  // A path through something missing is missing, a path through a file leads nowhere.
  lemma {:induction false} LooksTheSame(t: Tree, root: Inode, p: Path, n: nat)
    requires 0 < n <= |p| && !Look(t, root, p[..n]).Directory?
    ensures Look(t, root, p[..n]) == Missing <==> Look(t, root, p) == Missing
    ensures n < |p| && Look(t, root, p[..n]) != Missing ==> Look(t, root, p) == Special
    ensures !Look(t, root, p).Directory?
    decreases |p|
  {
    if n < |p| {
      assert Parent(p)[..n] == p[..n];
      LooksTheSame(t, root, Parent(p), n);
    } else {
      assert p[..n] == p;
    }
  }
}
