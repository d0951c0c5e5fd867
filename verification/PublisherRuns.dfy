/** Two runs in which a publication falls short: a staged file that a clean rollback leaves behind, and a new
    provenance file whose name is drawn for an artifact. */
module PublisherRuns {
  import opened Wrappers
  import opened FileSystem
  import opened Publication
  import opened Publisher

  const EMPTY := Tree(map[], map[])

  function Zeros(): Suffix {
    var zeros := seq(32, i => '0');
    assert HexDigits(zeros);
    zeros
  }

  function NewFile(name: Name, desired: Bytes, provenance: bool): Plan {
    Plan(1, name, desired, 0x1A4, Absent, provenance)
  }

  function NotStarted(p: Plan): Item {
    Item(p, "", None, false, "", None, false, false)
  }

  // One new file is to be published, and the inspection of the staged file right after its creation is the only
  // call that fails. The result reports the failed publication, but neither a failed rollback nor a failed
  // clean-up, and the staged file is still there.
  method LeavesStagedFile() returns (o: Outcome, after: Tree, failures: nat)
    ensures o == ROLLED_BACK && failures == 1
    ensures Loc(1, STAGE_PREFIX + Zeros()) in after.names && after.names != EMPTY.names
  {
    var oracle := new Oracle(k => k == 2);
    var random := new RandomSource(k => Zeros());
    var disk := new Disk(EMPTY, 2, oracle, random);
    var p := NewFile("roles.go", "package roles", true);
    var items := new Item[1](_ => NotStarted(p));
    ghost var plans := [p];
    assert items[..] == [NotStarted(p)];
    ghost var leak;
    o, leak := PublishTransaction(disk, [], items, plans);
    assert !Stuck([], leak);
    return o, disk.tree, oracle.failures;
  }

  function Colliding(): seq<Plan> {
    [NewFile("roles.go", "package roles", false), NewFile(STAGE_PREFIX + Zeros(), "{}", true)]
  }

  // No call fails, but the first artifact name drawn is that of the provenance file. The provenance file
  // appears while the other file is still missing.
  method ProvenanceFirst() returns (ghost trace: seq<Tree>, ghost drawn: set<Loc>)
    ensures ProvenanceAtEnd(Colliding()) && !ProvenanceFree(Colliding(), drawn)
    ensures exists k :: 0 <= k < |trace| && !ProvenanceLast(EMPTY, trace[k], Colliding())
  {
    hide Concluded, Traced, Logged, NoClash, TargetsFree, Blocked, Stuck, OnlyInspectionFails, ProvenanceLast;
    var plans := Colliding();
    var oracle := new Oracle(k => false);
    var random := new RandomSource(k => Zeros());
    var disk := new Disk(EMPTY, 2, oracle, random);
    var items := new Item[2](i => NotStarted(if i == 0 then plans[0] else plans[1]));
    assert items[..] == [NotStarted(plans[0]), NotStarted(plans[1])];
    var o, leak := PublishTransaction(disk, [], items, plans);
    NotLast(disk.trace[1]);
    return disk.trace, random.drawn;
  }

  lemma NotLast(t: Tree)
    requires t == Created(EMPTY, Loc(1, STAGE_PREFIX + Zeros()), 2)
    ensures !ProvenanceLast(EMPTY, t, Colliding())
  {
    assert !IsNew(EMPTY, t, Colliding()[0]);
    assert !SameAt(t, EMPTY, Target(Colliding()[1]));
  }

  // A new file whose own staged file is given its name is never published, although no call fails.
  method TargetTaken() returns (o: Outcome)
    ensures o.publication
  {
    hide Concluded, Traced, Logged, TargetsFree, Blocked, Stuck, OnlyInspectionFails;
    var p := NewFile(STAGE_PREFIX + Zeros(), "{}", true);
    var oracle := new Oracle(k => false);
    var random := new RandomSource(k => Zeros());
    var disk := new Disk(EMPTY, 2, oracle, random);
    var items := new Item[1](_ => NotStarted(p));
    assert items[..] == [NotStarted(p)];
    ghost var leak;
    o, leak := PublishTransaction(disk, [], items, [p]);
    assert !o.publication ==> ArtifactLoc(items[..], 0, 0) != Target(items[0].plan);
  }
}
