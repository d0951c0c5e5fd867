/** The schema migration runner: a version table, the migrations whose effect the schema holds, and a run
    that a failure or a crash can stop at any statement. */
module Migrations {
  import opened Wrappers

  datatype Migration = Migration(version: int, name: string, up: string, down: string, checksum: string)

  datatype Row = Row(name: string, checksum: Option<string>, dirty: bool)

  // The version table and the migrations that built the schema, in order of application.
  datatype Schema = Schema(table: bool, rows: map<int, Row>, applied: seq<string>, checksumRequired: bool)

  // A statement takes effect or not, and its caller is told or not: the connection can die in between.
  datatype Fate = Done | Refused | Unconfirmed

  predicate Numbered(ms: seq<Migration>) {
    forall i | 0 <= i < |ms| :: ms[i].version == i + 1
  }

  predicate NoneDirty(s: Schema) {
    forall v | v in s.rows :: !s.rows[v].dirty
  }

  predicate WellFormed(s: Schema) {
    !s.table ==> s.rows == map[]
  }

  function FreshRow(m: Migration): Row {
    Row(m.name, Some(m.checksum), true)
  }

  // ---------- What one committed statement of a run may do ----------

  predicate CreatesTable(s: Schema, t: Schema) {
    t == s.(table := true)
  }

  predicate Baselines(ms: seq<Migration>, s: Schema, t: Schema, v: int) {
    && 1 <= v <= |ms| && v in s.rows && s.rows[v].name == ms[v - 1].name && s.rows[v].checksum.None?
    && t == s.(rows := s.rows[v := s.rows[v].(checksum := Some(ms[v - 1].checksum))])
  }

  predicate Marks(ms: seq<Migration>, s: Schema, t: Schema, v: int) {
    && 1 <= v <= |ms| && v !in s.rows && NoneDirty(s) && (forall u | 1 <= u < v :: u in s.rows)
    && t == s.(rows := s.rows[v := FreshRow(ms[v - 1])])
  }

  predicate Applies(ms: seq<Migration>, s: Schema, t: Schema, v: int) {
    && 1 <= v <= |ms| && v in s.rows && s.rows[v] == FreshRow(ms[v - 1])
    && t == s.(rows := s.rows[v := s.rows[v].(dirty := false)], applied := s.applied + [ms[v - 1].up])
  }

  predicate RequiresChecksums(s: Schema, t: Schema) {
    (forall v | v in s.rows :: s.rows[v].checksum.Some?) && t == s.(checksumRequired := true)
  }

  ghost predicate Allowed(ms: seq<Migration>, s: Schema, t: Schema) {
    || CreatesTable(s, t)
    || RequiresChecksums(s, t)
    || exists v :: Baselines(ms, s, t, v) || Marks(ms, s, t, v) || Applies(ms, s, t, v)
  }

  // Consecutive states of a trace, from position first on.
  ghost predicate Chain(ms: seq<Migration>, trace: seq<Schema>, first: nat) {
    forall i | first <= i < |trace| - 1 :: Allowed(ms, trace[i], trace[i + 1])
  }

  // ---------- The runner ----------

  datatype Problem =
    | DirtyMigration(version: int) | FutureMigration(version: int) | NameChanged(version: int)
    | ChecksumMismatch(version: int) | StatementFailed

  // A recorded migration that the binary ships under the same name and with the same SQL.
  predicate RowMatches(row: Row, m: Migration) {
    row.name == m.name && (row.checksum.Some? ==> row.checksum.value == m.checksum)
  }

  // The databases that a binary accepts.
  predicate Compatible(s: Schema, ms: seq<Migration>) {
    && NoneDirty(s)
    && (forall v | v in s.rows :: v <= |ms|)
    && (forall v | v in s.rows && 1 <= v <= |ms| :: RowMatches(s.rows[v], ms[v - 1]))
    && (forall v | v in s.rows && v < 1 :: s.rows[v].checksum.Some?)
  }

  predicate HoldsRow(rows: map<int, Row>, m: Migration) {
    m.version in rows && rows[m.version] == Row(m.name, Some(m.checksum), false)
  }

  predicate Recorded(s: Schema, m: Migration) {
    HoldsRow(s.rows, m)
  }

  class Database {
    var schema: Schema
    // Every committed state.
    ghost var trace: seq<Schema>
    ghost var faulted: bool

    ghost predicate Valid()
      reads this
    {
      WellFormed(schema) && |trace| > 0 && trace[|trace| - 1] == schema
    }

    constructor (schema: Schema)
      requires WellFormed(schema)
      ensures Valid() && this.schema == schema && trace == [schema] && !faulted
    {
      this.schema, this.trace, this.faulted := schema, [schema], false;
    }

    // Commits a statement whose effect is the schema to, or not.
    method Commit(to: Schema) returns (failed: bool)
      requires Valid() && WellFormed(to)
      modifies this
      ensures Valid() && (faulted <==> old(faulted) || failed)
      ensures !failed ==> schema == to
      ensures (schema == to && trace == old(trace) + [to]) || (failed && schema == old(schema) && trace == old(trace))
    {
      var fate: Fate := *;
      if fate != Refused {
        schema := to;
        trace := trace + [to];
      }
      failed := fate != Done;
      faulted := faulted || failed;
    }

    // A query, or a statement inside an open transaction.
    method Attempt() returns (failed: bool)
      modifies this`faulted
      ensures faulted <==> old(faulted) || failed
    {
      failed := *;
      faulted := faulted || failed;
    }
  }

  predicate AtMost(u: int, v: int, descending: bool) {
    if descending then u <= v else v <= u
  }

  lemma Inhabited(versions: set<int>)
    requires versions != {}
    ensures exists v :: v in versions
  {
    assert (forall v :: v !in versions) ==> versions == {};
  }

  // SELECT version ... ORDER BY version [DESC] LIMIT 1
  method FirstVersion(versions: set<int>, descending: bool) returns (first: Option<int>)
    ensures first.None? <==> versions == {}
    ensures first.Some? ==> first.value in versions && forall u | u in versions :: AtMost(u, first.value, descending)
  {
    first := None;
    var rest := versions;
    while rest != {}
      invariant rest <= versions
      invariant first.None? <==> rest == versions
      invariant first.Some? ==>
        first.value in versions && forall u | u in versions && u !in rest :: AtMost(u, first.value, descending)
      decreases |rest|
    {
      Inhabited(rest);
      var u: int :| u in rest;
      if first.None? || !AtMost(u, first.value, descending) {
        first := Some(u);
      }
      rest := rest - {u};
    }
  }

  // A recorded version that stops the run.
  predicate Blocked(s: Schema, ms: seq<Migration>) {
    exists v :: v in s.rows && (s.rows[v].dirty || v > |ms|)
  }

  // Creates the version table and refuses a dirty database and one that a newer binary migrated.
  method Inspect(db: Database, ms: seq<Migration>) returns (error: Option<Problem>)
    requires db.Valid() && !db.faulted
    modifies db
    ensures db.Valid() && old(db.trace) <= db.trace && Chain(ms, db.trace, |old(db.trace)| - 1)
    ensures db.schema.(table := old(db.schema).table) == old(db.schema)
    ensures error.None? ==> !Blocked(old(db.schema), ms) && db.schema.table && !db.faulted
    ensures error.Some? && !db.faulted ==> Blocked(old(db.schema), ms)
  {
    var failed := db.Commit(db.schema.(table := true));
    if failed {
      return Some(StatementFailed);
    }
    failed := db.Attempt();
    if failed {
      return Some(StatementFailed);
    }
    var marked := set v | v in db.schema.rows && db.schema.rows[v].dirty;
    var dirty := FirstVersion(marked, true);
    if dirty.Some? {
      return Some(DirtyMigration(dirty.value));
    }
    failed := db.Attempt();
    if failed {
      return Some(StatementFailed);
    }
    var newer := set v | v in db.schema.rows && v > |ms|;
    var future := FirstVersion(newer, false);
    if future.Some? {
      return Some(FutureMigration(future.value));
    }
    assert forall v | v in db.schema.rows :: v !in marked && v !in newer;
    error := None;
  }

  // ALTER COLUMN checksum SET NOT NULL, which fails while a row has none.
  method RequireAllChecksums(db: Database, ms: seq<Migration>) returns (error: Option<Problem>)
    requires db.Valid() && !db.faulted
    modifies db
    ensures db.Valid() && old(db.trace) <= db.trace && Chain(ms, db.trace, |old(db.trace)| - 1)
    ensures error.None? ==> !db.faulted && RequiresChecksums(old(db.schema), db.schema)
    ensures error.Some? && !db.faulted ==> exists v :: v in old(db.schema).rows && old(db.schema).rows[v].checksum.None?
  {
    if exists v :: v in db.schema.rows && db.schema.rows[v].checksum.None? {
      return Some(StatementFailed);
    }
    ghost var before := db.schema;
    var failed := db.Commit(db.schema.(checksumRequired := true));
    assert db.schema != before ==> RequiresChecksums(before, db.schema);
    error := if failed then Some(StatementFailed) else None;
  }

  lemma ChainsJoin(ms: seq<Migration>, trace: seq<Schema>, longer: seq<Schema>, first: nat)
    requires 0 < |trace| && trace <= longer && Chain(ms, trace, first) && Chain(ms, longer, |trace| - 1)
    ensures Chain(ms, longer, first)
  {
    forall i | first <= i < |longer| - 1 ensures Allowed(ms, longer[i], longer[i + 1]) {
      if i < |trace| - 1 {
        assert longer[i] == trace[i] && longer[i + 1] == trace[i + 1];
      }
    }
  }

  // What the rounds before i have done.
  ghost predicate Progress(before: Schema, s: Schema, ms: seq<Migration>, i: nat)
    requires i <= |ms|
  {
    && NoneDirty(s) && s.table
    && (forall j | 0 <= j < i :: Recorded(s, ms[j]))
    && (forall v | v in s.rows && !(1 <= v <= i) :: v in before.rows && s.rows[v] == before.rows[v])
    && (forall v | v in before.rows :: v in s.rows)
    && (forall v | v in before.rows && 1 <= v <= i :: RowMatches(before.rows[v], ms[v - 1]))
  }

  // The rows after a round that did not fail.
  function Recording(s: Schema, m: Migration): Schema {
    s.(rows := s.rows[m.version := Row(m.name, Some(m.checksum), false)],
       applied := if m.version in s.rows then s.applied else s.applied + [m.up])
  }

  lemma RoundProgress(before: Schema, s: Schema, ms: seq<Migration>, i: nat)
    requires Numbered(ms) && i < |ms| && Progress(before, s, ms, i)
    requires i + 1 in s.rows ==> RowMatches(s.rows[i + 1], ms[i])
    ensures Progress(before, Recording(s, ms[i]), ms, i + 1)
  {
    var t := Recording(s, ms[i]);
    forall j | 0 <= j < i + 1 ensures Recorded(t, ms[j]) {
      assert j < i ==> Recorded(s, ms[j]);
    }
  }

  lemma MismatchIncompatible(before: Schema, s: Schema, ms: seq<Migration>, i: nat)
    requires i < |ms| && Progress(before, s, ms, i) && i + 1 in s.rows && !RowMatches(s.rows[i + 1], ms[i])
    ensures !Compatible(before, ms)
  {
  }

  lemma CompletionCompatible(before: Schema, s: Schema, ms: seq<Migration>)
    requires Progress(before, s, ms, |ms|) && Numbered(ms) && !Blocked(before, ms)
    ensures Compatible(before, ms) <==> forall v | v in s.rows :: s.rows[v].checksum.Some?
  {
    forall v | v in s.rows && 1 <= v <= |ms| ensures s.rows[v].checksum.Some? {
      assert Recorded(s, ms[v - 1]);
    }
  }

  method Migrate(db: Database, ms: seq<Migration>) returns (error: Option<Problem>)
    requires db.Valid() && Numbered(ms) && !db.faulted
    modifies db
    ensures db.Valid() && old(db.trace) <= db.trace && Chain(ms, db.trace, |old(db.trace)| - 1)
    ensures error.None? ==> Progress(old(db.schema), db.schema, ms, |ms|) && db.schema.checksumRequired
    ensures error.None? ==> forall v | 1 <= v <= |ms| ::
      v in db.schema.rows && db.schema.rows[v] == Row(ms[v - 1].name, Some(ms[v - 1].checksum), false)
    ensures error.None? && Consistent(old(db.schema), ms) ==>
      |db.schema.applied| == |ms| && forall i | 0 <= i < |ms| :: db.schema.applied[i] == ms[i].up
    ensures error.None? ==> Compatible(old(db.schema), ms) && !db.faulted
    ensures !db.faulted ==> (error.None? <==> Compatible(old(db.schema), ms))
    ensures !NoneDirty(old(db.schema)) ==> error.Some? && db.schema.(table := old(db.schema).table) == old(db.schema)
  {
    hide Chain, Progress, RowMatches, Consistent;
    ghost var before := db.schema;
    error := Inspect(db, ms);
    if error.Some? {
      return;
    }
    InspectedProgress(before, db.schema, ms);
    for i := 0 to |ms|
      invariant db.Valid() && old(db.trace) <= db.trace && Chain(ms, db.trace, |old(db.trace)| - 1)
      invariant !db.faulted && Progress(before, db.schema, ms, i)
    {
      ghost var start := db.trace;
      ghost var round := db.schema;
      ProgressFacts(before, round, ms, i);
      error := MigrateOne(db, ms, i);
      ChainsJoin(ms, start, db.trace, |old(db.trace)| - 1);
      if error.Some? {
        if !db.faulted {
          MismatchIncompatible(before, round, ms, i);
        }
        return;
      }
      RoundProgress(before, round, ms, i);
    }
    ghost var start := db.trace;
    ghost var done := db.schema;
    CompletionCompatible(before, done, ms);
    error := RequireAllChecksums(db, ms);
    ChainsJoin(ms, start, db.trace, |old(db.trace)| - 1);
    if error.None? {
      RequiringKeepsProgress(before, done, db.schema, ms);
      RowsOnSuccess(before, db.schema, ms);
      if Consistent(before, ms) {
        AppliedOnSuccess(before, db.schema, ms, db.trace, |old(db.trace)| - 1);
      }
    }
  }

  lemma RowsOnSuccess(before: Schema, s: Schema, ms: seq<Migration>)
    requires Numbered(ms) && Progress(before, s, ms, |ms|)
    ensures NoneDirty(s) && forall v | 1 <= v <= |ms| ::
      v in s.rows && s.rows[v] == Row(ms[v - 1].name, Some(ms[v - 1].checksum), false)
  {
    forall v | 1 <= v <= |ms|
      ensures v in s.rows && s.rows[v] == Row(ms[v - 1].name, Some(ms[v - 1].checksum), false)
    {
      assert Recorded(s, ms[v - 1]);
    }
  }

  // The schema then holds every shipped migration once, in order.
  lemma AppliedOnSuccess(before: Schema, s: Schema, ms: seq<Migration>, trace: seq<Schema>, first: nat)
    requires Numbered(ms) && Progress(before, s, ms, |ms|) && Consistent(before, ms)
    requires first < |trace| && trace[first] == before && trace[|trace| - 1] == s && Chain(ms, trace, first)
    ensures |s.applied| == |ms| && forall i | 0 <= i < |ms| :: s.applied[i] == ms[i].up
  {
    hide Progress, RecordedTo;
    SuffixConsistent(before, s, ms, trace, first);
    RowsOnSuccess(before, s, ms);
    var k: nat :| RecordedTo(s, ms, k);
    AllRecorded(s, ms, k);
  }

  lemma AllRecorded(s: Schema, ms: seq<Migration>, k: nat)
    requires RecordedTo(s, ms, k) && NoneDirty(s) && forall v | 1 <= v <= |ms| :: v in s.rows
    ensures |s.applied| == |ms| && forall i | 0 <= i < |ms| :: s.applied[i] == ms[i].up
  {
    assert k < |ms| ==> k + 1 in s.rows;
    assert k > 0 ==> k in s.rows;
  }

  lemma SuffixConsistent(before: Schema, s: Schema, ms: seq<Migration>, trace: seq<Schema>, first: nat)
    requires Consistent(before, ms) && first < |trace| && trace[first] == before && trace[|trace| - 1] == s
    requires Chain(ms, trace, first)
    ensures Consistent(s, ms)
  {
    hide Consistent, Allowed;
    var run := trace[first..];
    assert ms[..|ms|] == ms;
    forall i | 0 <= i < |run| - 1 ensures Allowed(ms, run[i], run[i + 1]) {
      assert Allowed(ms, trace[first + i], trace[first + i + 1]);
    }
    ChainConsistent(ms, |ms|, run, |run| - 1);
  }

  lemma InspectedProgress(before: Schema, s: Schema, ms: seq<Migration>)
    requires !Blocked(before, ms) && s.table && s.(table := before.table) == before
    ensures Progress(before, s, ms, 0)
  {
  }

  lemma ProgressFacts(before: Schema, s: Schema, ms: seq<Migration>, i: nat)
    requires i <= |ms| && Progress(before, s, ms, i)
    ensures s.table && NoneDirty(s) && forall j | 0 <= j < i :: Recorded(s, ms[j])
  {
  }

  lemma RequiringKeepsProgress(before: Schema, s: Schema, t: Schema, ms: seq<Migration>)
    requires Progress(before, s, ms, |ms|) && RequiresChecksums(s, t)
    ensures Progress(before, t, ms, |ms|)
  {
    forall j | 0 <= j < |ms| ensures Recorded(t, ms[j]) {
      assert Recorded(s, ms[j]);
    }
  }

  // One round of the loop: compare and baseline a recorded migration, or mark, apply and finish a new one.
  method MigrateOne(db: Database, ms: seq<Migration>, i: nat) returns (error: Option<Problem>)
    requires db.Valid() && Numbered(ms) && i < |ms| && !db.faulted && db.schema.table && NoneDirty(db.schema)
    requires forall j | 0 <= j < i :: Recorded(db.schema, ms[j])
    modifies db
    ensures db.Valid() && old(db.trace) <= db.trace && Chain(ms, db.trace, |old(db.trace)| - 1)
    ensures error.None? ==> !db.faulted && db.schema == Recording(old(db.schema), ms[i])
    ensures error.None? ==> i + 1 in old(db.schema).rows ==> RowMatches(old(db.schema).rows[i + 1], ms[i])
    ensures error.Some? && !db.faulted ==>
      i + 1 in old(db.schema).rows && !RowMatches(old(db.schema).rows[i + 1], ms[i])
  {
    var m := ms[i];
    var failed := db.Attempt();
    if failed {
      return Some(StatementFailed);
    }
    if m.version in db.schema.rows {
      var row := db.schema.rows[m.version];
      if row.name != m.name {
        return Some(NameChanged(m.version));
      }
      if row.checksum.Some? && row.checksum.value != m.checksum {
        return Some(ChecksumMismatch(m.version));
      }
      if row.checksum.None? {
        ghost var before := db.schema;
        failed := db.Commit(db.schema.(rows := db.schema.rows[m.version := row.(checksum := Some(m.checksum))]));
        assert db.schema != before ==> Baselines(ms, before, db.schema, i + 1);
        if failed {
          return Some(StatementFailed);
        }
      }
      return None;
    }
    ghost var before := db.schema;
    assert forall u | 1 <= u < i + 1 :: u in before.rows by {
      forall u | 1 <= u < i + 1 ensures u in before.rows {
        assert Recorded(before, ms[u - 1]);
      }
    }
    failed := db.Commit(db.schema.(rows := db.schema.rows[m.version := FreshRow(m)]));
    assert db.schema != before ==> Marks(ms, before, db.schema, i + 1);
    if failed {
      return Some(StatementFailed);
    }
    // The migration and the end of its dirty mark commit together.
    failed := db.Attempt();
    if failed {
      return Some(StatementFailed);
    }
    failed := db.Attempt();
    if failed {
      return Some(StatementFailed);
    }
    failed := db.Attempt();
    if failed {
      return Some(StatementFailed);
    }
    ghost var marked := db.schema;
    failed := db.Commit(db.schema.(rows := db.schema.rows[m.version := FreshRow(m).(dirty := false)],
                                   applied := db.schema.applied + [m.up]));
    assert db.schema != marked ==> Applies(ms, marked, db.schema, i + 1);
    if failed {
      return Some(StatementFailed);
    }
    return None;
  }

  // ---------- Every history ----------

  function Ups(ms: seq<Migration>, n: nat): (sql: seq<string>)
    requires n <= |ms|
  {
    seq(n, i requires 0 <= i < n => ms[i].up)
  }

  // The first k migrations are recorded; all of them are in the schema, but for the last if it is dirty.
  ghost predicate RecordedTo(s: Schema, ms: seq<Migration>, k: nat) {
    && k <= |ms|
    && (forall v :: v in s.rows <==> 1 <= v <= k)
    && (forall v | v in s.rows :: RowMatches(s.rows[v], ms[v - 1]))
    && (forall v | v in s.rows && s.rows[v].dirty :: v == k)
    && s.applied == Ups(ms, if k > 0 && s.rows[k].dirty then k - 1 else k)
  }

  ghost predicate Consistent(s: Schema, ms: seq<Migration>) {
    exists k :: RecordedTo(s, ms, k)
  }

  lemma EmptyConsistent(ms: seq<Migration>)
    ensures Consistent(Schema(false, map[], [], false), ms)
  {
    assert RecordedTo(Schema(false, map[], [], false), ms, 0);
  }

  // A binary ships the first n of all migrations there will ever be.
  lemma AllowedKeepsConsistent(all: seq<Migration>, n: nat, s: Schema, t: Schema)
    requires n <= |all| && Consistent(s, all) && Allowed(all[..n], s, t)
    ensures Consistent(t, all)
  {
    var k: nat :| RecordedTo(s, all, k);
    hide RecordedTo, RowMatches, NoneDirty;
    if CreatesTable(s, t) || RequiresChecksums(s, t) {
      SameRowsRecorded(s, t, all, k);
    } else {
      var v :| Baselines(all[..n], s, t, v) || Marks(all[..n], s, t, v) || Applies(all[..n], s, t, v);
      if Marks(all[..n], s, t, v) {
        MarkExtends(all, n, s, t, v, k);
      } else if Applies(all[..n], s, t, v) {
        ApplyFinishes(all, n, s, t, v, k);
      } else {
        BaselineKeeps(all, n, s, t, v, k);
      }
    }
  }

  lemma SameRowsRecorded(s: Schema, t: Schema, all: seq<Migration>, k: nat)
    requires RecordedTo(s, all, k) && t.rows == s.rows && t.applied == s.applied
    ensures RecordedTo(t, all, k)
  {
  }

  lemma BaselineKeeps(all: seq<Migration>, n: nat, s: Schema, t: Schema, v: int, k: nat)
    requires n <= |all| && RecordedTo(s, all, k) && Baselines(all[..n], s, t, v)
    ensures RecordedTo(t, all, k)
  {
  }

  lemma ApplyFinishes(all: seq<Migration>, n: nat, s: Schema, t: Schema, v: int, k: nat)
    requires n <= |all| && RecordedTo(s, all, k) && Applies(all[..n], s, t, v)
    ensures v == k && RecordedTo(t, all, k)
  {
    assert Ups(all, k) == Ups(all, k - 1) + [all[k - 1].up];
  }

  lemma MarkExtends(all: seq<Migration>, n: nat, s: Schema, t: Schema, v: int, k: nat)
    requires n <= |all| && RecordedTo(s, all, k) && Marks(all[..n], s, t, v)
    ensures v == k + 1 && RecordedTo(t, all, k + 1)
  {
    assert v == k + 1 by {
      assert v > k;
      assert v > k + 1 ==> k + 1 in s.rows;
    }
  }

  // One start of a binary that ships the first n migrations, from its first to its last committed state.
  datatype Run = Run(n: nat, trace: seq<Schema>)

  ghost predicate History(all: seq<Migration>, s: Schema, runs: seq<Run>)
    decreases |runs|
  {
    runs == [] ||
    (&& runs[0].n <= |all| && |runs[0].trace| > 0 && runs[0].trace[0] == s && Chain(all[..runs[0].n], runs[0].trace, 0)
     && History(all, runs[0].trace[|runs[0].trace| - 1], runs[1..]))
  }

  lemma {:induction false} ChainConsistent(all: seq<Migration>, n: nat, trace: seq<Schema>, i: nat)
    requires n <= |all| && i < |trace| && Consistent(trace[0], all) && Chain(all[..n], trace, 0)
    ensures Consistent(trace[i], all)
  {
    if i > 0 {
      ChainConsistent(all, n, trace, i - 1);
      assert Allowed(all[..n], trace[i - 1], trace[i - 1 + 1]);
      AllowedKeepsConsistent(all, n, trace[i - 1], trace[i]);
    }
  }

  // Whatever the binaries, wherever each run stopped: every state that was ever committed records a prefix of
  // the migrations, and the schema holds each clean one exactly once, in order.
  lemma {:induction false} EveryStateConsistent(all: seq<Migration>, s: Schema, runs: seq<Run>, r: nat, i: nat)
    requires Consistent(s, all) && History(all, s, runs) && r < |runs| && i < |runs[r].trace|
    ensures Consistent(runs[r].trace[i], all)
    decreases |runs|
  {
    if r == 0 {
      ChainConsistent(all, runs[0].n, runs[0].trace, i);
    } else {
      var last := |runs[0].trace| - 1;
      ChainConsistent(all, runs[0].n, runs[0].trace, last);
      EveryStateConsistent(all, runs[0].trace[last], runs[1..], r - 1, i);
    }
  }

  // For a binary that ships a prefix of the migrations, only a dirty or a newer database is incompatible.
  lemma CompatibleExactly(all: seq<Migration>, n: nat, s: Schema, k: nat)
    requires n <= |all| && RecordedTo(s, all, k)
    ensures Compatible(s, all[..n]) <==> k <= n && (k > 0 ==> !s.rows[k].dirty)
  {
    assert k > 0 ==> k in s.rows;
  }

  // ---------- The state check of the running service ----------

  // SELECT version, name, checksum, dirty ... ORDER BY version
  ghost predicate ListedByVersion(states: seq<(int, Row)>, rows: map<int, Row>) {
    && (forall i, j | 0 <= i < j < |states| :: states[i].0 < states[j].0)
    && (forall i | 0 <= i < |states| :: states[i].0 in rows && states[i].1 == rows[states[i].0])
    && (forall v | v in rows :: exists i :: 0 <= i < |states| && states[i].0 == v)
  }

  // The version table of a database that holds exactly these migrations.
  ghost predicate FullyMigrated(rows: map<int, Row>, ms: seq<Migration>) {
    (forall v | v in rows :: 1 <= v <= |ms|) && (forall i | 0 <= i < |ms| :: HoldsRow(rows, ms[i]))
  }

  // Strictly increasing positive numbers are at least 1, 2, 3, ...
  lemma {:induction false} AtLeast(versions: seq<int>, i: nat)
    requires (forall j, k | 0 <= j < k < |versions| :: versions[j] < versions[k])
    requires (forall j | 0 <= j < |versions| :: versions[j] >= 1)
    requires i < |versions|
    ensures versions[i] >= i + 1
  {
    if i > 0 {
      AtLeast(versions, i - 1);
    }
  }

  // And if none exceeds their count, they are exactly 1, 2, 3, ...
  lemma {:induction false} ExactlyNumbered(versions: seq<int>, i: nat)
    requires (forall j, k | 0 <= j < k < |versions| :: versions[j] < versions[k])
    requires (forall j | 0 <= j < |versions| :: 1 <= versions[j] <= |versions|)
    requires i < |versions|
    ensures versions[i] == i + 1
    decreases |versions| - i
  {
    AtLeast(versions, i);
    if i + 1 < |versions| {
      ExactlyNumbered(versions, i + 1);
    }
  }

  predicate StateMatches(state: (int, Row), m: Migration) {
    state == (m.version, Row(m.name, Some(m.checksum), false))
  }

  lemma ListedExactly(states: seq<(int, Row)>, rows: map<int, Row>, ms: seq<Migration>)
    requires Numbered(ms) && ListedByVersion(states, rows)
    ensures FullyMigrated(rows, ms) <==>
      |states| == |ms| && forall i | 0 <= i < |states| :: StateMatches(states[i], ms[i])
  {
    if FullyMigrated(rows, ms) {
      FullIsMatching(states, rows, ms);
    }
    if |states| == |ms| && forall i | 0 <= i < |states| :: StateMatches(states[i], ms[i]) {
      MatchingIsFull(states, rows, ms);
    }
  }

  lemma MatchingIsFull(states: seq<(int, Row)>, rows: map<int, Row>, ms: seq<Migration>)
    requires Numbered(ms) && ListedByVersion(states, rows) && |states| == |ms|
    requires forall i | 0 <= i < |states| :: StateMatches(states[i], ms[i])
    ensures FullyMigrated(rows, ms)
  {
    forall i | 0 <= i < |ms| ensures HoldsRow(rows, ms[i]) {
      assert StateMatches(states[i], ms[i]);
    }
    forall v | v in rows ensures 1 <= v <= |ms| {
      var i :| 0 <= i < |states| && states[i].0 == v;
      assert StateMatches(states[i], ms[i]);
    }
  }

  lemma FullIsMatching(states: seq<(int, Row)>, rows: map<int, Row>, ms: seq<Migration>)
    requires Numbered(ms) && ListedByVersion(states, rows) && FullyMigrated(rows, ms)
    ensures |states| == |ms| && forall i | 0 <= i < |states| :: StateMatches(states[i], ms[i])
  {
    var versions := seq(|states|, i requires 0 <= i < |states| => states[i].0);
    SameCount(versions, |ms|) by {
      forall v | 1 <= v <= |ms| ensures v in versions {
        assert HoldsRow(rows, ms[v - 1]);
        var i :| 0 <= i < |states| && states[i].0 == v;
        assert versions[i] == v;
      }
    }
    forall i | 0 <= i < |states| ensures StateMatches(states[i], ms[i]) {
      ExactlyNumbered(versions, i);
      assert HoldsRow(rows, ms[i]);
    }
  }

  lemma SameCount(versions: seq<int>, n: nat)
    requires forall j, k | 0 <= j < k < |versions| :: versions[j] < versions[k]
    requires (forall j | 0 <= j < |versions| :: 1 <= versions[j] <= n) && (forall v | 1 <= v <= n :: v in versions)
    ensures |versions| == n
  {
    if |versions| > 0 {
      AtLeast(versions, |versions| - 1);
    }
    if n > 0 {
      CoversTo(versions, n, n);
    }
  }

  // The number v is at most at position v - 1.
  lemma {:induction false} CoversTo(versions: seq<int>, n: nat, v: nat)
    requires (forall j, k | 0 <= j < k < |versions| :: versions[j] < versions[k])
    requires (forall u | 1 <= u <= n :: u in versions) && 1 <= v <= n
    ensures exists i :: v - 1 <= i < |versions| && versions[i] == v
  {
    assert v in versions;
    var i :| 0 <= i < |versions| && versions[i] == v;
    if v > 1 {
      CoversTo(versions, n, v - 1);
    }
  }

  // A NULL checksum cannot be read into a string, so it fails the check too.
  method VerifyMigrationState(states: seq<(int, Row)>, ms: seq<Migration>, ghost rows: map<int, Row>) returns (ok: bool)
    requires Numbered(ms) && ListedByVersion(states, rows)
    ensures ok <==> FullyMigrated(rows, ms)
  {
    ListedExactly(states, rows, ms);
    hide FullyMigrated, ListedByVersion;
    for i := 0 to |states|
    {
      if states[i].1.checksum.None? {
        assert i < |ms| ==> !StateMatches(states[i], ms[i]);
        return false;
      }
    }
    if |states| != |ms| {
      return false;
    }
    for i := 0 to |ms|
      invariant forall j | 0 <= j < i :: StateMatches(states[j], ms[j])
    {
      var (version, row) := states[i];
      if version != ms[i].version || row.name != ms[i].name || row.checksum != Some(ms[i].checksum) || row.dirty {
        assert !StateMatches(states[i], ms[i]);
        return false;
      }
    }
    ok := true;
  }

  // A run that reports success leaves a database that the service accepts.
  lemma SuccessVerifies(before: Schema, s: Schema, ms: seq<Migration>)
    requires Progress(before, s, ms, |ms|) && Compatible(before, ms) && (forall v | v in before.rows :: v >= 1)
    ensures FullyMigrated(s.rows, ms)
  {
    forall i | 0 <= i < |ms| ensures HoldsRow(s.rows, ms[i]) {
      assert Recorded(s, ms[i]);
    }
  }

  // ---------- The embedded files ----------

  // Up and down files of one version, as they were found; an absent or empty file is the empty string.
  datatype Pair = Pair(name: string, up: string, down: string)

  predicate Complete(files: map<int, Pair>) {
    && (forall v | v in files :: files[v].up != "" && files[v].down != "")
    && (forall v | v in files :: 1 <= v <= |files|)
  }

  datatype EmbeddedError = SequenceGap(version: int) | MissingFile(version: int)

  predicate Ships(files: map<int, Pair>, m: Migration, digest: string -> string) {
    && m.version in files && files[m.version].up != "" && files[m.version].down != ""
    && m == Migration(m.version, files[m.version].name, files[m.version].up, files[m.version].down,
                      digest(files[m.version].up))
  }

  // The files in version order, refused unless their versions are 1, 2, ..., n and each has both directions.
  method OrderMigrations(files: map<int, Pair>, versions: seq<int>, digest: string -> string)
    returns (r: Result<seq<Migration>, EmbeddedError>)
    requires (forall v | v in files :: v >= 1) && |versions| == |files| && (forall v :: v in versions <==> v in files)
    requires forall i, j | 0 <= i < j < |versions| :: versions[i] < versions[j]
    ensures r.Ok? <==> Complete(files)
    ensures r.Ok? ==> Numbered(r.value) && |r.value| == |files|
    ensures r.Ok? ==> forall i | 0 <= i < |r.value| :: Ships(files, r.value[i], digest)
  {
    hide Complete, Ships;
    var ms: seq<Migration> := [];
    CompleteIsNumbered(files, versions);
    for i := 0 to |versions|
      invariant |ms| == i && Numbered(ms)
      invariant forall j | 0 <= j < i :: versions[j] == j + 1
      invariant forall j | 0 <= j < i :: Ships(files, ms[j], digest)
    {
      var version := versions[i];
      if version != i + 1 {
        return Err(SequenceGap(version));
      }
      assert version in versions;
      var pair := files[version];
      if pair.up == "" || pair.down == "" {
        MissingFileIsIncomplete(files, version);
        return Err(MissingFile(version));
      }
      var m := Migration(version, pair.name, pair.up, pair.down, digest(pair.up));
      assert Ships(files, m, digest) by {
        CompletePairShips(files, version, digest);
      }
      ms := ms + [m];
    }
    ShippedIsComplete(files, versions, ms, digest);
    r := Ok(ms);
  }

  lemma MissingFileIsIncomplete(files: map<int, Pair>, v: int)
    requires v in files && (files[v].up == "" || files[v].down == "")
    ensures !Complete(files)
  {
  }

  lemma CompletePairShips(files: map<int, Pair>, v: int, digest: string -> string)
    requires v in files && files[v].up != "" && files[v].down != ""
    ensures Ships(files, Migration(v, files[v].name, files[v].up, files[v].down, digest(files[v].up)), digest)
  {
  }

  lemma CompleteIsNumbered(files: map<int, Pair>, versions: seq<int>)
    requires (forall v | v in files :: v >= 1) && |versions| == |files| && (forall v :: v in versions <==> v in files)
    requires forall i, j | 0 <= i < j < |versions| :: versions[i] < versions[j]
    ensures Complete(files) ==> forall i | 0 <= i < |versions| :: versions[i] == i + 1
  {
    if Complete(files) {
      forall j | 0 <= j < |versions| ensures 1 <= versions[j] <= |versions| {
        assert versions[j] in versions;
        assert versions[j] in files;
      }
      forall i | 0 <= i < |versions| ensures versions[i] == i + 1 {
        ExactlyNumbered(versions, i);
      }
    }
  }

  lemma ShippedIsComplete(files: map<int, Pair>, versions: seq<int>, ms: seq<Migration>, digest: string -> string)
    requires |versions| == |files| == |ms| && (forall v :: v in versions <==> v in files)
    requires forall i | 0 <= i < |ms| :: Ships(files, ms[i], digest) && versions[i] == i + 1 == ms[i].version
    ensures Complete(files)
  {
    forall v | v in files ensures files[v].up != "" && files[v].down != "" && 1 <= v <= |files| {
      var i :| 0 <= i < |versions| && versions[i] == v;
      assert Ships(files, ms[i], digest);
    }
  }
}
