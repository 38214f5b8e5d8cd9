/**
 * The schema-initialisation endpoint (api/init-db.js): create the table if
 * it is absent, then seed five sample rows when it is empty. Its SQL
 * statements are numbered in the order they run: 0 the CREATE, 1 the COUNT,
 * 2 + i the INSERT of sample i.
 */
module InitDb {
  import opened Wrappers
  import opened Strings
  import opened Store
  import opened Http

  const DefaultImages: seq<string> := [
    "https://picsum.photos/id/10/400/300",
    "https://picsum.photos/id/11/400/300",
    "https://picsum.photos/id/12/400/300",
    "https://picsum.photos/id/13/400/300",
    "https://picsum.photos/id/14/400/300"
  ]

  const SuccessMessage: string := "Database initialized successfully"

  /** The label of sample i: `Sample Image ${i + 1}`. */
  function SeedFilename(i: nat): string
  {
    "Sample Image " + NatToString(i + 1)
  }

  /** The first k sample rows, with ids from `first` on. */
  function SeedRows(first: nat, now: int, k: nat): (r: seq<Row>)
    requires k <= |DefaultImages|
    ensures |r| == k
    ensures forall i :: 0 <= i < k ==> r[i] == Row(first + i, DefaultImages[i], SeedFilename(i), now)
  {
    seq(k, i requires 0 <= i < k => Row(first + i, DefaultImages[i], SeedFilename(i), now))
  }

  /** Whether the seed loop runs: the table is empty once it exists. */
  predicate Seeds(t: Table)
  {
    Created(t).rows == []
  }

  /** How many statements a run issues when none fails. */
  function StatementCount(t: Table): nat
  {
    if Seeds(t) then 2 + |DefaultImages| else 2
  }

  /** The table after the first `done` statements of a run have succeeded. */
  function AfterStatements(t: Table, now: int, done: nat): (r: Table)
    requires done <= StatementCount(t)
    ensures done == 0 ==> r == t
    ensures done >= 1 ==> r.Present? && (!Seeds(t) ==> r == t)
    ensures Seeds(t) && done >= 2 ==> r.rows == SeedRows(Created(t).nextId, now, done - 2)
  {
    if done == 0 then t
    else
      var c := Created(t);
      if done <= 2 then c
      else Present(SeedRows(c.nextId, now, done - 2), c.nextId + (done - 2))
  }

  /** The table after a successful run. */
  function SeededTable(t: Table, now: int): (r: Table)
    ensures r.Present?
    ensures t.Present? && t.rows != [] ==> r == t
    ensures Seeds(t) ==> r.rows == SeedRows(Created(t).nextId, now, |DefaultImages|)
  {
    AfterStatements(t, now, StatementCount(t))
  }

  /** Whether the statement numbered `failAt` is among those the run issues. */
  predicate Fails(t: Table, failAt: Option<nat>)
  {
    failAt.Some? && failAt.value < StatementCount(t)
  }

  function FaultAt(failAt: Option<nat>, statement: nat, message: string): Option<string>
  {
    if failAt == Some(statement) then Some(message) else None
  }

  /** On an empty (or absent) table, a run leaves exactly the five samples, in order. */
  lemma SeedsFiveSamplesInOrder(t: Table, now: int)
    requires Seeds(t)
    ensures |SeededTable(t, now).rows| == 5
    ensures forall i :: 0 <= i < 5 ==>
              SeededTable(t, now).rows[i].url == DefaultImages[i]
              && SeededTable(t, now).rows[i].filename == "Sample Image " + NatToString(i + 1)
  {}

  /** The sample labels are "Sample Image 1" to "Sample Image 5". */
  lemma SeedFilenamesSpelledOut()
    ensures SeedFilename(0) == "Sample Image 1" && SeedFilename(4) == "Sample Image 5"
  {}

  /** On a table that already has rows, a run inserts nothing. */
  lemma PopulatedTableUntouched(t: Table, now: int)
    requires t.Present? && t.rows != []
    ensures SeededTable(t, now) == t
    ensures StatementCount(t) == 2
  {}

  /** Two successful runs leave the same table as one. */
  lemma InitIdempotent(t: Table, now1: int, now2: int)
    ensures SeededTable(SeededTable(t, now1), now2) == SeededTable(t, now1)
  {
    if Seeds(t) {
      var r := SeededTable(t, now1);
      assert r.rows != [] by { assert |r.rows| == 5; }
      PopulatedTableUntouched(r, now2);
    }
  }

  /**
   * A run that fails in the middle of seeding keeps the samples inserted
   * so far, and no later run completes them: the table is no longer empty.
   */
  lemma PartialSeedIsPermanent(t: Table, now: int, inserted: nat, later: int)
    requires Seeds(t) && 1 <= inserted < |DefaultImages|
    ensures var p := AfterStatements(t, now, 2 + inserted);
            |p.rows| == inserted && SeededTable(p, later) == p
  {
    var p := AfterStatements(t, now, 2 + inserted);
    assert |p.rows| == inserted;
    PopulatedTableUntouched(p, later);
  }

  /** A run, failed or not, keeps ids unique. */
  lemma RunKeepsWellFormed(t: Table, now: int, done: nat)
    requires WellFormed(t) && done <= StatementCount(t)
    ensures WellFormed(AfterStatements(t, now, done))
  {}

  /** Inserting sample i extends the seeded prefix by one row. */
  lemma InsertNextSample(t: Table, now: int, i: nat)
    requires Seeds(t) && i < |DefaultImages|
    ensures InsertInto(AfterStatements(t, now, 2 + i), DefaultImages[i], SeedFilename(i), now, None)
            == Success(AfterStatements(t, now, 3 + i))
  {
    var before := AfterStatements(t, now, 2 + i);
    var after := AfterStatements(t, now, 3 + i);
    assert before.rows + [Row(Created(t).nextId + i, DefaultImages[i], SeedFilename(i), now)] == after.rows;
  }

  /**
   * The seed loop: one INSERT per sample, in order, stopping at the first
   * that throws. Returns whether all five went in.
   */
  method InsertSamples(db: Database, ghost t0: Table, now: int, failAt: Option<nat>, message: string)
    returns (ok: bool)
    requires db.Valid() && Seeds(t0) && db.table == AfterStatements(t0, now, 2)
    requires failAt.None? || failAt.value >= 2
    modifies db
    ensures db.Valid()
    ensures ok <==> !Fails(t0, failAt)
    ensures db.table == AfterStatements(t0, now, if ok then StatementCount(t0) else failAt.value)
  {
    for i := 0 to |DefaultImages|
      invariant db.Valid()
      invariant failAt.None? || failAt.value >= 2 + i
      invariant db.table == AfterStatements(t0, now, 2 + i)
    {
      InsertNextSample(t0, now, i);
      var e := db.Insert(DefaultImages[i], SeedFilename(i), now, FaultAt(failAt, 2 + i, message));
      if e.Some? {
        return false;
      }
    }
    return true;
  }

  /**
   * The handler. `failAt` names the statement that throws `message`, if
   * any; a statement beyond those the run issues never fails.
   */
  method Handle(db: Database, verb: string, now: int, failAt: Option<nat>, message: string)
    returns (resp: Response)
    requires db.Valid()
    modifies db
    ensures db.Valid()
    ensures verb == "OPTIONS" ==> resp == Preflight && db.table == old(db.table)
    ensures verb != "OPTIONS" && verb != "POST" ==> resp == MethodNotAllowed && db.table == old(db.table)
    ensures verb == "POST" && Fails(old(db.table), failAt) ==>
              && resp == Response(500, Error("Failed to initialize database", Some(message)))
              && db.table == AfterStatements(old(db.table), now, failAt.value)
    ensures verb == "POST" && !Fails(old(db.table), failAt) ==>
              && resp == Response(200, Initialized(SuccessMessage))
              && db.table == SeededTable(old(db.table), now)
  {
    if verb == "OPTIONS" {
      return Preflight;
    }
    if verb != "POST" {
      return MethodNotAllowed;
    }
    ghost var t0 := db.table;
    var failure := Response(500, Error("Failed to initialize database", Some(message)));
    var success := Response(200, Initialized(SuccessMessage));
    var err := db.CreateIfAbsent(FaultAt(failAt, 0, message));
    if err.Some? {
      return failure;
    }
    var count := db.CountRows(FaultAt(failAt, 1, message));
    if count.Failure? {
      return failure;
    }
    assert db.table == AfterStatements(t0, now, 2);
    if count.value == 0 {
      var ok := InsertSamples(db, t0, now, failAt, message);
      resp := if ok then success else failure;
    } else {
      resp := success;
    }
  }
}
