/** What a publication transaction owns in the tree, as a relation between the tree at its start, the
    current tree and the flags of its items, and how single steps keep that relation. */
module Publication {
  import opened Wrappers
  import opened FileSystem

  // The file that an item found at its target before the transaction.
  datatype Previous = Absent | Present(ino: Inode, content: Bytes, mode: nat)

  // The part of publicationItem that the transaction never changes.
  datatype Plan = Plan(parent: Inode, basename: Name, desired: Bytes, mode: nat, previous: Previous, provenance: bool)

  datatype Item = Item(
    plan: Plan,
    stagedName: Name, stagedInfo: Option<Inode>, stagedExists: bool,
    backupName: Name, backupInfo: Option<Inode>, backupExists: bool,
    published: bool)

  const STAGE_PREFIX: Name := ".coresync-stage-"
  const BACKUP_PREFIX: Name := ".coresync-backup-"

  // A prefix with 16 random bytes in hexadecimal digits behind it.
  predicate Behind(prefix: Name, name: Name) {
    |name| == |prefix| + 32 && prefix <= name && HexDigits(name[|prefix|..])
  }

  predicate StageName(name: Name) { Behind(STAGE_PREFIX, name) }

  predicate BackupName(name: Name) { Behind(BACKUP_PREFIX, name) }

  predicate ArtifactName(name: Name) { StageName(name) || BackupName(name) }

  function Target(p: Plan): Loc { Loc(p.parent, p.basename) }

  function StagedLoc(it: Item): Loc { Loc(it.plan.parent, it.stagedName) }

  function BackupLoc(it: Item): Loc { Loc(it.plan.parent, it.backupName) }

  predicate Managed(p: Plan) { p.previous.Present? }

  // Each plan agrees with the tree that Sync inspected.
  ghost predicate PlanMatches(base: Tree, p: Plan) {
    match p.previous
    case Absent => Target(p) !in base.names
    case Present(ino, content, mode) =>
      IsFile(base, Target(p), ino) && ino in base.files && base.files[ino] == File(content, mode)
  }

  ghost predicate PlansValid(base: Tree, plans: seq<Plan>) {
    && (forall i | 0 <= i < |plans| :: PlanMatches(base, plans[i]))
    && (forall i, k | 0 <= i < k < |plans| :: Target(plans[i]) != Target(plans[k]))
  }

  // The names that an item is responsible for, with the inode each of them has.
  function Own(it: Item): map<Loc, Entry> {
    var target := if it.published && it.stagedInfo.Some? then map[Target(it.plan) := FileEntry(it.stagedInfo.value)]
                  else map[];
    var staged := if it.stagedExists && it.stagedInfo.Some? then map[StagedLoc(it) := FileEntry(it.stagedInfo.value)]
                  else map[];
    var backup := if it.backupExists && Managed(it.plan) then map[BackupLoc(it) := FileEntry(it.plan.previous.ino)]
                  else map[];
    target + staged + backup
  }

  predicate Covers(t: Tree, own: map<Loc, Entry>) {
    forall loc | loc in own :: loc in t.names && t.names[loc] == own[loc]
  }

  // What the flags of one item promise about the tree.
  ghost predicate ItemValid(base: Tree, t: Tree, it: Item) {
    && Covers(t, Own(it))
    && (it.stagedInfo.Some? ==> it.stagedInfo.value !in base.files && it.stagedInfo.value in t.files
                                && t.files[it.stagedInfo.value] == File(it.plan.desired, it.plan.mode))
    && (it.stagedExists ==> it.stagedInfo.Some? && StagedLoc(it) !in base.names && StageName(it.stagedName)
                            && (it.published ==> StagedLoc(it) != Target(it.plan)))
    && (it.backupExists ==> Managed(it.plan) && BackupLoc(it) !in base.names && BackupName(it.backupName)
                            && (it.backupInfo.Some? ==> it.backupInfo.value == it.plan.previous.ino)
                            && (it.stagedExists ==> it.stagedName != it.backupName))
    && (it.published ==> it.stagedInfo.Some? && (Managed(it.plan) ==> !it.stagedExists))
  }

  ghost predicate Owned(items: seq<Item>, loc: Loc) {
    exists i | 0 <= i < |items| :: loc in Own(items[i])
  }

  ghost predicate Disjoint(items: seq<Item>) {
    forall i, k | 0 <= i < |items| && 0 <= k < |items| && i != k :: Own(items[i]).Keys !! Own(items[k]).Keys
  }

  // The relation itself: items own disjoint names, every other name is as it was, no stored file changed.
  ghost predicate Related(base: Tree, t: Tree, items: seq<Item>) {
    && (forall i | 0 <= i < |items| :: ItemValid(base, t, items[i]))
    && Disjoint(items)
    && (forall loc | !Owned(items, loc) :: SameAt(t, base, loc))
    && KeepsFiles(base, t)
  }

  ghost predicate Follows(items: seq<Item>, plans: seq<Plan>) {
    |items| == |plans| && forall i | 0 <= i < |items| :: items[i].plan == plans[i]
  }

  // ---------- One step of one item ----------

  // The tree changes only at names that item i owned or now owns; released names are as in the base;
  // newly owned names were free or the item's own managed target.
  ghost predicate ItemStep(base: Tree, t: Tree, items: seq<Item>, i: nat, after: Item, u: Tree)
    requires i < |items|
  {
    var before, next := Own(items[i]).Keys, Own(after).Keys;
    && after.plan == items[i].plan
    && ItemValid(base, u, after)
    && (forall loc | loc !in before && loc !in next :: SameAt(u, t, loc))
    && (forall loc | loc in before && loc !in next :: SameAt(u, base, loc))
    && (forall loc | loc in next && loc !in before ::
          loc !in t.names || (loc == Target(after.plan) && loc in base.names))
    && KeepsFiles(t, u)
  }

  lemma OthersKeepTheirNames(base: Tree, t: Tree, items: seq<Item>, plans: seq<Plan>, i: nat, k: nat, after: Item,
                             u: Tree)
    requires PlansValid(base, plans) && Follows(items, plans) && Related(base, t, items)
    requires i < |items| && k < |items| && i != k && ItemStep(base, t, items, i, after, u)
    ensures Own(items[k]).Keys !! Own(after).Keys
    ensures ItemValid(base, u, items[k])
  {
    assert ItemValid(base, t, items[k]) && ItemValid(base, t, items[i]);
    assert Target(plans[i]) != Target(plans[k]);
    assert PlanMatches(base, plans[i]);
    forall loc | loc in Own(items[k])
      ensures loc !in Own(after) && loc in u.names && u.names[loc] == Own(items[k])[loc]
    {
      assert loc !in Own(items[i]).Keys;
      if loc in Own(after) {
        // Newly owned, hence free or the managed target of i, neither of which k can own.
        assert loc in t.names;
        NotAnothersTarget(base, t, items, plans, i, k, loc);
        assert false;
      } else {
        assert SameAt(u, t, loc);
      }
    }
  }

  // An item owns another item's target only as an artifact on a name that the base does not have.
  lemma NotAnothersTarget(base: Tree, t: Tree, items: seq<Item>, plans: seq<Plan>, i: nat, k: nat, loc: Loc)
    requires PlansValid(base, plans) && Follows(items, plans) && Related(base, t, items)
    requires i < |items| && k < |items| && i != k && loc in Own(items[k])
    ensures loc == Target(plans[i]) ==> loc !in base.names
  {
    assert ItemValid(base, t, items[k]);
    assert Target(plans[i]) != Target(plans[k]);
  }

  // The relation survives such a step.
  lemma StepKeepsRelation(base: Tree, t: Tree, items: seq<Item>, plans: seq<Plan>, i: nat, after: Item, u: Tree)
    requires PlansValid(base, plans) && Follows(items, plans) && Related(base, t, items)
    requires i < |items| && ItemStep(base, t, items, i, after, u)
    ensures Related(base, u, items[i := after]) && Follows(items[i := after], plans)
  {
    var next := items[i := after];
    forall k | 0 <= k < |next| ensures ItemValid(base, u, next[k]) {
      if k != i {
        OthersKeepTheirNames(base, t, items, plans, i, k, after, u);
      }
    }
    forall j, k | 0 <= j < |next| && 0 <= k < |next| && j != k ensures Own(next[j]).Keys !! Own(next[k]).Keys {
      if j == i {
        OthersKeepTheirNames(base, t, items, plans, i, k, after, u);
      } else if k == i {
        OthersKeepTheirNames(base, t, items, plans, i, j, after, u);
      } else {
        assert Own(items[j]).Keys !! Own(items[k]).Keys;
      }
    }
    forall loc | !Owned(next, loc) ensures SameAt(u, base, loc) {
      assert loc !in Own(next[i]).Keys;
      if loc !in Own(items[i]) {
        forall k | 0 <= k < |items| ensures loc !in Own(items[k]) {
          assert k != i ==> items[k] == next[k];
        }
        assert !Owned(items, loc);
      }
    }
  }

  // ---------- The steps ----------

  lemma BaseNamesStay(base: Tree, t: Tree, items: seq<Item>, loc: Loc)
    requires Related(base, t, items) && loc in base.names
    ensures loc in t.names
  {
    if i :| 0 <= i < |items| && loc in Own(items[i]) {
      assert ItemValid(base, t, items[i]);
    } else {
      assert !Owned(items, loc);
      assert SameAt(t, base, loc);
    }
  }

  // An unpublished managed target is as it was.
  lemma UnpublishedTarget(base: Tree, t: Tree, items: seq<Item>, plans: seq<Plan>, i: nat)
    requires PlansValid(base, plans) && Follows(items, plans) && Related(base, t, items)
    requires i < |items| && !items[i].published && Managed(plans[i])
    ensures IsFile(t, Target(plans[i]), plans[i].previous.ino)
  {
    var loc := Target(plans[i]);
    assert PlanMatches(base, plans[i]) && ItemValid(base, t, items[i]);
    forall k | 0 <= k < |items| ensures loc !in Own(items[k]) {
      if k != i && loc in Own(items[k]) {
        NotAnothersTarget(base, t, items, plans, i, k, loc);
        assert false;
      }
    }
    assert !Owned(items, loc);
    assert SameAt(t, base, loc);
  }

  function Staged(it: Item, name: Name, ino: Inode): Item {
    it.(stagedName := name, stagedInfo := Some(ino), stagedExists := true)
  }

  predicate Untouched(it: Item) {
    it.stagedInfo.None? && !it.stagedExists && !it.backupExists && !it.published
  }

  lemma StageStep(base: Tree, t: Tree, items: seq<Item>, i: nat, name: Name, ino: Inode, u: Tree)
    requires Related(base, t, items) && i < |items| && Untouched(items[i])
    requires StageName(name) && Loc(items[i].plan.parent, name) !in t.names && ino !in t.files
    requires u.names == t.names[Loc(items[i].plan.parent, name) := FileEntry(ino)]
    requires KeepsFiles(t, u) && ino in u.files && u.files[ino] == File(items[i].plan.desired, items[i].plan.mode)
    ensures ItemStep(base, t, items, i, Staged(items[i], name, ino), u)
  {
    var loc := Loc(items[i].plan.parent, name);
    if loc in base.names {
      BaseNamesStay(base, t, items, loc);
      assert false;
    }
    assert ItemValid(base, t, items[i]);
  }

  function BackedUp(it: Item, name: Name): Item {
    it.(backupName := name, backupInfo := None, backupExists := true)
  }

  lemma BackupStep(base: Tree, t: Tree, items: seq<Item>, i: nat, name: Name, u: Tree)
    requires Related(base, t, items) && i < |items| && Managed(items[i].plan) && !items[i].published
    requires !items[i].backupExists
    requires BackupName(name) && Loc(items[i].plan.parent, name) !in t.names
    requires u == t.(names := t.names[Loc(items[i].plan.parent, name) := FileEntry(items[i].plan.previous.ino)])
    ensures ItemStep(base, t, items, i, BackedUp(items[i], name), u)
  {
    var loc := Loc(items[i].plan.parent, name);
    if loc in base.names {
      BaseNamesStay(base, t, items, loc);
      assert false;
    }
    assert ItemValid(base, t, items[i]);
    assert items[i].stagedExists ==> StagedLoc(items[i]) in Own(items[i]);
  }

  lemma BackupInfoStep(base: Tree, t: Tree, items: seq<Item>, i: nat)
    requires Related(base, t, items) && i < |items| && items[i].backupExists
    ensures ItemStep(base, t, items, i, items[i].(backupInfo := Some(items[i].plan.previous.ino)), t)
  {
    assert ItemValid(base, t, items[i]);
  }

  function Discarded(it: Item): Item {
    it.(backupName := "", backupInfo := None, backupExists := false)
  }

  // Removing the backup link, whether or not its name is forgotten as well.
  lemma DiscardStep(base: Tree, t: Tree, items: seq<Item>, i: nat, after: Item, u: Tree)
    requires Related(base, t, items) && i < |items| && items[i].backupExists
    requires after == Discarded(items[i]) || after == items[i].(backupExists := false)
    requires u == t.(names := t.names - {BackupLoc(items[i])})
    requires PlanMatches(base, items[i].plan)
    ensures ItemStep(base, t, items, i, after, u)
  {
    assert ItemValid(base, t, items[i]);
  }

  function Published(it: Item): Item {
    if Managed(it.plan) then it.(stagedExists := false, published := true) else it.(published := true)
  }

  lemma PublishManagedStep(base: Tree, t: Tree, items: seq<Item>, plans: seq<Plan>, i: nat, u: Tree)
    requires PlansValid(base, plans) && Follows(items, plans) && Related(base, t, items)
    requires i < |items| && Managed(plans[i]) && items[i].stagedExists && !items[i].published
    requires u == t.(names := t.names[Target(plans[i]) := FileEntry(items[i].stagedInfo.value)] - {StagedLoc(items[i])})
    ensures ItemStep(base, t, items, i, Published(items[i]), u)
  {
    assert ItemValid(base, t, items[i]) && PlanMatches(base, plans[i]);
  }

  lemma PublishNewStep(base: Tree, t: Tree, items: seq<Item>, plans: seq<Plan>, i: nat, u: Tree)
    requires PlansValid(base, plans) && Follows(items, plans) && Related(base, t, items)
    requires i < |items| && !Managed(plans[i]) && items[i].stagedExists && !items[i].published
    requires Target(plans[i]) !in t.names
    requires u == t.(names := t.names[Target(plans[i]) := FileEntry(items[i].stagedInfo.value)])
    ensures ItemStep(base, t, items, i, Published(items[i]), u)
  {
    assert ItemValid(base, t, items[i]);
    assert StagedLoc(items[i]) in Own(items[i]);
  }

  function Restored(it: Item): Item {
    Discarded(it).(published := false)
  }

  lemma RestoreStep(base: Tree, t: Tree, items: seq<Item>, plans: seq<Plan>, i: nat, u: Tree)
    requires PlansValid(base, plans) && Follows(items, plans) && Related(base, t, items)
    requires i < |items| && Managed(plans[i]) && items[i].published && items[i].backupExists
    requires u == t.(names := t.names[Target(plans[i]) := FileEntry(plans[i].previous.ino)] - {BackupLoc(items[i])})
    ensures ItemStep(base, t, items, i, Restored(items[i]), u)
  {
    assert ItemValid(base, t, items[i]) && PlanMatches(base, plans[i]);
  }

  lemma RemoveNewStep(base: Tree, t: Tree, items: seq<Item>, plans: seq<Plan>, i: nat, u: Tree)
    requires PlansValid(base, plans) && Follows(items, plans) && Related(base, t, items)
    requires i < |items| && !Managed(plans[i]) && items[i].published
    requires u == t.(names := t.names - {Target(plans[i])})
    ensures ItemStep(base, t, items, i, items[i].(published := false), u)
  {
    assert ItemValid(base, t, items[i]) && PlanMatches(base, plans[i]);
  }

  lemma RemoveStagedStep(base: Tree, t: Tree, items: seq<Item>, i: nat, u: Tree)
    requires Related(base, t, items) && i < |items| && items[i].stagedExists
    requires u == t.(names := t.names - {StagedLoc(items[i])})
    ensures ItemStep(base, t, items, i, items[i].(stagedExists := false), u)
  {
    assert ItemValid(base, t, items[i]);
  }

  // ---------- What a crash can leave behind ----------

  // The original file of a managed target is still linked, at the target or at a backup beside it.
  ghost predicate OriginalLinked(t: Tree, p: Plan) {
    Managed(p) ==> exists loc | loc in t.names ::
      loc.dir == p.parent && t.names[loc] == FileEntry(p.previous.ino) && (loc == Target(p) || BackupName(loc.name))
  }

  ghost predicate OriginalsLinked(t: Tree, plans: seq<Plan>) {
    forall i | 0 <= i < |plans| :: OriginalLinked(t, plans[i])
  }

  // The target shows a file that did not exist before, with the desired content and mode.
  ghost predicate IsNew(base: Tree, t: Tree, p: Plan) {
    && Target(p) in t.names && t.names[Target(p)].FileEntry?
    && var ino := t.names[Target(p)].ino;
       ino !in base.files && ino in t.files && t.files[ino] == File(p.desired, p.mode)
  }

  ghost predicate AllNew(base: Tree, t: Tree, plans: seq<Plan>) {
    forall i | 0 <= i < |plans| :: IsNew(base, t, plans[i])
  }

  // Only targets and artifacts differ from the base.
  ghost predicate OnlyTargetsAndArtifactsDiffer(base: Tree, t: Tree, plans: seq<Plan>) {
    && KeepsFiles(base, t)
    && (forall loc | loc in base.names :: loc in t.names)
    && (forall loc | !SameAt(t, base, loc) ::
          (exists i | 0 <= i < |plans| :: loc == Target(plans[i])) || (ArtifactName(loc.name) && loc !in base.names))
  }

  // A state to be found after a crash: nothing foreign was touched, and every original is still linked, or,
  // once the transaction has been validated, every target is new.
  ghost predicate CrashSafe(base: Tree, t: Tree, plans: seq<Plan>, validated: bool) {
    && OnlyTargetsAndArtifactsDiffer(base, t, plans)
    && (if validated then AllNew(base, t, plans) else OriginalsLinked(t, plans))
  }

  // The provenance file differs from its old state only when every managed file is new.
  ghost predicate ProvenanceLast(base: Tree, t: Tree, plans: seq<Plan>) {
    forall i | 0 <= i < |plans| && plans[i].provenance && !SameAt(t, base, Target(plans[i])) :: AllNew(base, t, plans)
  }

  predicate ProvenanceAtEnd(plans: seq<Plan>) {
    forall i | 0 <= i < |plans| && plans[i].provenance :: i == |plans| - 1
  }

  // No artifact name was drawn that is the target of a new provenance file.
  predicate ProvenanceFree(plans: seq<Plan>, drawn: set<Loc>) {
    forall i | 0 <= i < |plans| && plans[i].provenance && !Managed(plans[i]) :: Target(plans[i]) !in drawn
  }

  // No artifact name was drawn that is the target of a new file.
  predicate TargetsFree(plans: seq<Plan>, drawn: set<Loc>) {
    forall i | 0 <= i < |plans| && !Managed(plans[i]) :: Target(plans[i]) !in drawn
  }

  // Every artifact has a name that was drawn for its directory.
  predicate NamesDrawn(items: seq<Item>, drawn: set<Loc>) {
    forall i | 0 <= i < |items| ::
      && (items[i].stagedExists ==> StagedLoc(items[i]) in drawn)
      && (items[i].backupExists ==> BackupLoc(items[i]) in drawn)
  }

  predicate BackupsKept(items: seq<Item>) {
    forall i | 0 <= i < |items| && items[i].published && Managed(items[i].plan) ::
      items[i].backupExists && items[i].backupInfo.Some?
  }

  predicate AllPublished(items: seq<Item>) {
    forall i | 0 <= i < |items| :: items[i].published
  }

  // Exactly a prefix of the items is published.
  predicate PrefixPublished(items: seq<Item>) {
    forall i, k | 0 <= i < k < |items| && items[k].published :: items[i].published
  }

  lemma PublishedIsNew(base: Tree, t: Tree, items: seq<Item>, plans: seq<Plan>, i: nat)
    requires PlansValid(base, plans) && Follows(items, plans) && Related(base, t, items)
    requires i < |items| && items[i].published
    ensures IsNew(base, t, plans[i])
  {
    assert ItemValid(base, t, items[i]) && PlanMatches(base, plans[i]);
    assert Target(plans[i]) in Own(items[i]);
  }

  lemma RelatedIsSafe(base: Tree, t: Tree, items: seq<Item>, plans: seq<Plan>)
    requires PlansValid(base, plans) && Follows(items, plans) && Related(base, t, items) && BackupsKept(items)
    ensures OriginalsLinked(t, plans)
  {
    forall i | 0 <= i < |plans| ensures OriginalLinked(t, plans[i]) {
      if Managed(plans[i]) {
        assert ItemValid(base, t, items[i]);
        if items[i].published {
          assert BackupLoc(items[i]) in Own(items[i]);
          assert BackupLoc(items[i]) in t.names;
        } else {
          UnpublishedTarget(base, t, items, plans, i);
          assert Target(plans[i]) in t.names;
        }
      }
    }
  }

  // An unpublished target that no artifact has taken is as it was, whether managed or new.
  lemma UnpublishedUnchanged(base: Tree, t: Tree, items: seq<Item>, plans: seq<Plan>, drawn: set<Loc>, i: nat)
    requires PlansValid(base, plans) && Follows(items, plans) && Related(base, t, items) && NamesDrawn(items, drawn)
    requires i < |items| && !items[i].published && (Managed(plans[i]) || Target(plans[i]) !in drawn)
    ensures SameAt(t, base, Target(plans[i]))
  {
    var loc := Target(plans[i]);
    assert PlanMatches(base, plans[i]);
    forall k | 0 <= k < |items| ensures loc !in Own(items[k]) {
      assert ItemValid(base, t, items[k]);
      assert k != i ==> Target(plans[i]) != Target(plans[k]);
    }
    assert !Owned(items, loc);
  }

  lemma AllPublishedIsNew(base: Tree, t: Tree, items: seq<Item>, plans: seq<Plan>)
    requires PlansValid(base, plans) && Follows(items, plans) && Related(base, t, items) && AllPublished(items)
    ensures AllNew(base, t, plans)
  {
    forall i | 0 <= i < |plans| ensures IsNew(base, t, plans[i]) {
      PublishedIsNew(base, t, items, plans, i);
    }
  }

  lemma RelatedIsOrdered(base: Tree, t: Tree, items: seq<Item>, plans: seq<Plan>, drawn: set<Loc>)
    requires PlansValid(base, plans) && Follows(items, plans) && Related(base, t, items) && PrefixPublished(items)
    requires NamesDrawn(items, drawn) && ProvenanceFree(plans, drawn) && ProvenanceAtEnd(plans)
    ensures ProvenanceLast(base, t, plans)
  {
    forall i | 0 <= i < |plans| && plans[i].provenance && !SameAt(t, base, Target(plans[i]))
      ensures AllNew(base, t, plans)
    {
      if !items[i].published {
        UnpublishedUnchanged(base, t, items, plans, drawn, i);
        assert false;
      } else {
        AllPublishedIsNew(base, t, items, plans);
      }
    }
  }

  // A tree that differs only by artifacts that appeared at drawn names and by stored files that are new.
  ghost predicate OnlyArtifactsAppeared(t: Tree, u: Tree, drawn: set<Loc>) {
    && KeepsFiles(t, u)
    && (forall loc | loc in t.names :: loc in u.names && u.names[loc] == t.names[loc])
    && (forall loc | loc in u.names && loc !in t.names :: ArtifactName(loc.name) && loc in drawn)
  }

  lemma ArtifactsAreHarmless(base: Tree, t: Tree, u: Tree, plans: seq<Plan>, validated: bool, drawn: set<Loc>)
    requires OnlyArtifactsAppeared(t, u, drawn) && CrashSafe(base, t, plans, validated) && PlansValid(base, plans)
    ensures CrashSafe(base, u, plans, validated)
    ensures ProvenanceFree(plans, drawn) && ProvenanceLast(base, t, plans) ==> ProvenanceLast(base, u, plans)
  {
    hide ArtifactName;
    ArtifactsKeepOriginals(t, u, plans, drawn);
    assert forall i | 0 <= i < |plans| && IsNew(base, t, plans[i]) :: IsNew(base, u, plans[i]);
    assert forall loc | !SameAt(u, base, loc) && SameAt(t, base, loc) :: ArtifactName(loc.name) && loc !in base.names;
    if ProvenanceFree(plans, drawn) && ProvenanceLast(base, t, plans) {
      forall i | 0 <= i < |plans| && plans[i].provenance && !SameAt(u, base, Target(plans[i]))
        ensures AllNew(base, u, plans)
      {
        assert PlanMatches(base, plans[i]);
        assert !SameAt(t, base, Target(plans[i]));
        assert AllNew(base, t, plans);
      }
    }
  }

  lemma ArtifactsKeepOriginals(t: Tree, u: Tree, plans: seq<Plan>, drawn: set<Loc>)
    requires OnlyArtifactsAppeared(t, u, drawn)
    ensures OriginalsLinked(t, plans) ==> OriginalsLinked(u, plans)
  {
    forall i | 0 <= i < |plans| && OriginalLinked(t, plans[i]) ensures OriginalLinked(u, plans[i]) {
      if Managed(plans[i]) {
        var loc :| loc in t.names && loc.dir == plans[i].parent && t.names[loc] == FileEntry(plans[i].previous.ino)
                   && (loc == Target(plans[i]) || BackupName(loc.name));
        assert loc in u.names;
      }
    }
  }

  // ---------- When provenance appears too soon ----------

  // Some other file is managed or has a name that was never drawn, so it cannot look new before its time.
  predicate Bystander(plans: seq<Plan>, drawn: set<Loc>) {
    exists i :: 0 <= i < |plans| && Waits(plans[i], drawn)
  }

  predicate Waits(p: Plan, drawn: set<Loc>) {
    !p.provenance && (Managed(p) || Target(p) !in drawn)
  }

  // If the name of a new provenance file was drawn meanwhile, some state shows it too soon.
  ghost predicate Exposed(base: Tree, plans: seq<Plan>, trace: seq<Tree>, n: nat, some: set<Loc>, drawn: set<Loc>) {
    ProvenanceAtEnd(plans) && Bystander(plans, drawn) && ProvenanceFree(plans, some) && !ProvenanceFree(plans, drawn)
    ==> exists k :: n <= k < |trace| && !ProvenanceLast(base, trace[k], plans)
  }

  // An artifact takes the name of the provenance file while another file still waits.
  lemma TooSoon(base: Tree, t: Tree, items: seq<Item>, plans: seq<Plan>, i: nat, p: nat, u: Tree, some: set<Loc>)
    requires PlansValid(base, plans) && Follows(items, plans) && Related(base, t, items) && NamesDrawn(items, some)
    requires i < |plans| && p < |plans| && !items[i].published && Waits(plans[i], some)
    requires plans[p].provenance && !Managed(plans[p])
    requires Target(plans[p]) in u.names && forall loc | loc != Target(plans[p]) :: SameAt(u, t, loc)
    ensures !ProvenanceLast(base, u, plans)
  {
    UnpublishedUnchanged(base, t, items, plans, some, i);
    assert PlanMatches(base, plans[i]) && PlanMatches(base, plans[p]);
    assert Target(plans[i]) != Target(plans[p]);
    assert SameAt(u, t, Target(plans[i]));
    assert !IsNew(base, u, plans[i]);
  }

  lemma StagedTooSoon(base: Tree, t: Tree, items: seq<Item>, plans: seq<Plan>, loc: Loc, ino: Inode, trace: seq<Tree>,
                      n: nat, some: set<Loc>)
    requires PlansValid(base, plans) && Follows(items, plans) && Related(base, t, items) && NamesDrawn(items, some)
    requires forall k | 0 <= k < |items| :: !items[k].published
    requires n < |trace| && trace[n].names == t.names[loc := FileEntry(ino)]
    ensures Exposed(base, plans, trace, n, some, some + {loc})
  {
    hide Related, PlansValid, ProvenanceLast, NamesDrawn;
    if ProvenanceAtEnd(plans) && Bystander(plans, some + {loc}) && ProvenanceFree(plans, some)
       && !ProvenanceFree(plans, some + {loc}) {
      var i :| 0 <= i < |plans| && Waits(plans[i], some + {loc});
      var p :| 0 <= p < |plans| && plans[p].provenance && !Managed(plans[p]) && Target(plans[p]) == loc;
      TooSoon(base, t, items, plans, i, p, trace[n], some);
    }
  }

  // The file that is backed up waits itself.
  lemma BackedUpTooSoon(base: Tree, t: Tree, items: seq<Item>, plans: seq<Plan>, i: nat, loc: Loc, trace: seq<Tree>,
                        n: nat, some: set<Loc>)
    requires PlansValid(base, plans) && Follows(items, plans) && Related(base, t, items) && NamesDrawn(items, some)
    requires i < |plans| && !items[i].published && Managed(plans[i])
    requires n < |trace| && trace[n].names == t.names[loc := FileEntry(plans[i].previous.ino)]
    ensures Exposed(base, plans, trace, n, some, some + {loc})
  {
    hide Related, PlansValid, ProvenanceLast, NamesDrawn;
    if ProvenanceAtEnd(plans) && ProvenanceFree(plans, some) && !ProvenanceFree(plans, some + {loc}) {
      var p :| 0 <= p < |plans| && plans[p].provenance && !Managed(plans[p]) && Target(plans[p]) == loc;
      TooSoon(base, t, items, plans, i, p, trace[n], some);
    }
  }

  lemma NothingDrawn(base: Tree, plans: seq<Plan>, trace: seq<Tree>, n: nat, some: set<Loc>)
    ensures Exposed(base, plans, trace, n, some, some)
  {
  }

  lemma ExposedJoins(base: Tree, plans: seq<Plan>, early: seq<Tree>, trace: seq<Tree>, n: nat, some: set<Loc>,
                     more: set<Loc>, drawn: set<Loc>)
    requires n <= |early| && early <= trace && some <= more <= drawn
    requires Exposed(base, plans, early, n, some, more) && Exposed(base, plans, trace, |early|, more, drawn)
    ensures Exposed(base, plans, trace, n, some, drawn)
  {
    hide ProvenanceLast;
    if ProvenanceAtEnd(plans) && Bystander(plans, drawn) && ProvenanceFree(plans, some)
       && !ProvenanceFree(plans, drawn) {
      var i :| 0 <= i < |plans| && Waits(plans[i], drawn);
      assert Waits(plans[i], more);
      if !ProvenanceFree(plans, more) {
        var k :| n <= k < |early| && !ProvenanceLast(base, early[k], plans);
        assert trace[k] == early[k];
      }
    }
  }

  lemma ExposedStays(base: Tree, plans: seq<Plan>, early: seq<Tree>, trace: seq<Tree>, n: nat, some: set<Loc>,
                     drawn: set<Loc>)
    requires n <= |early| && early <= trace && some <= drawn && Exposed(base, plans, early, n, some, drawn)
    ensures Exposed(base, plans, trace, n, some, drawn)
  {
    NothingDrawn(base, plans, trace, |early|, drawn);
    ExposedJoins(base, plans, early, trace, n, some, drawn, drawn);
  }

  // ---------- The end states ----------

  lemma RelatedDifference(base: Tree, t: Tree, items: seq<Item>, plans: seq<Plan>)
    requires Follows(items, plans) && Related(base, t, items)
    ensures OnlyTargetsAndArtifactsDiffer(base, t, plans)
  {
    forall loc | !SameAt(t, base, loc)
      ensures (exists i | 0 <= i < |plans| :: loc == Target(plans[i])) || (ArtifactName(loc.name) && loc !in base.names)
    {
      assert Owned(items, loc);
      var i :| 0 <= i < |items| && loc in Own(items[i]);
      assert ItemValid(base, t, items[i]);
      assert loc == Target(plans[i]) || loc == StagedLoc(items[i]) || loc == BackupLoc(items[i]);
    }
    forall loc | loc in base.names ensures loc in t.names {
      BaseNamesStay(base, t, items, loc);
    }
  }

  // Every target new and every other name as before: nothing is left over.
  ghost predicate PublishedExactly(base: Tree, t: Tree, plans: seq<Plan>) {
    && AllNew(base, t, plans) && KeepsFiles(base, t)
    && (forall loc | !SameAt(t, base, loc) :: exists i | 0 <= i < |plans| :: loc == Target(plans[i]))
  }

  lemma CleanSuccess(base: Tree, t: Tree, items: seq<Item>, plans: seq<Plan>)
    requires PlansValid(base, plans) && Follows(items, plans) && Related(base, t, items)
    requires AllPublished(items) && forall i | 0 <= i < |items| :: !items[i].stagedExists && !items[i].backupExists
    ensures PublishedExactly(base, t, plans)
  {
    AllPublishedIsNew(base, t, items, plans);
    forall loc | !SameAt(t, base, loc) ensures exists i | 0 <= i < |plans| :: loc == Target(plans[i]) {
      assert Owned(items, loc);
      var i :| 0 <= i < |items| && loc in Own(items[i]);
      assert loc == Target(plans[i]);
    }
  }

  // With nothing published, every managed target has its original file.
  ghost predicate AllOld(base: Tree, t: Tree, plans: seq<Plan>) {
    forall i | 0 <= i < |plans| && Managed(plans[i]) :: IsFile(t, Target(plans[i]), plans[i].previous.ino)
  }

  lemma RolledBack(base: Tree, t: Tree, items: seq<Item>, plans: seq<Plan>)
    requires PlansValid(base, plans) && Follows(items, plans) && Related(base, t, items)
    requires forall i | 0 <= i < |items| :: !items[i].published
    ensures AllOld(base, t, plans)
    ensures forall loc | !SameAt(t, base, loc) :: ArtifactName(loc.name) && loc !in base.names
  {
    forall i | 0 <= i < |plans| && Managed(plans[i]) ensures IsFile(t, Target(plans[i]), plans[i].previous.ino) {
      UnpublishedTarget(base, t, items, plans, i);
    }
    forall loc | !SameAt(t, base, loc) ensures ArtifactName(loc.name) && loc !in base.names {
      assert Owned(items, loc);
      var i :| 0 <= i < |items| && loc in Own(items[i]);
      assert ItemValid(base, t, items[i]);
      assert loc == StagedLoc(items[i]) || loc == BackupLoc(items[i]);
    }
  }

  lemma CleanRollback(base: Tree, t: Tree, items: seq<Item>)
    requires Related(base, t, items)
    requires forall i | 0 <= i < |items| :: !items[i].published && !items[i].stagedExists && !items[i].backupExists
    ensures t.names == base.names && KeepsFiles(base, t)
  {
    forall loc ensures SameAt(t, base, loc) {
      forall i | 0 <= i < |items| ensures loc !in Own(items[i]) {
      }
      assert !Owned(items, loc);
    }
    forall loc | loc in t.names || loc in base.names
      ensures loc in t.names && loc in base.names && t.names[loc] == base.names[loc]
    {
      assert SameAt(t, base, loc);
    }
  }
}
