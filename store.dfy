/**
 * The two managed services the handlers talk to, as abstract state: the
 * Postgres `images` table and the blob store. Their failures are given to
 * each operation as a fault (the error message the call would throw).
 */
module Store {
  import opened Wrappers

  /** A row of `images (id SERIAL PRIMARY KEY, url TEXT NOT NULL, filename TEXT, uploaded_at TIMESTAMP)`. */
  datatype Row = Row(id: nat, url: string, filename: string, uploadedAt: int)

  /** The table, or its absence; `nextId` is the SERIAL sequence's next value. */
  datatype Table = Missing | Present(rows: seq<Row>, nextId: nat)

  /** The message Postgres raises for a statement on the absent table. */
  const MissingTableMessage: string := "relation \"images\" does not exist"

  /** Ids are increasing in insertion order and below the sequence, hence unique. */
  ghost predicate WellFormed(t: Table)
  {
    t.Present? ==>
      && t.nextId >= 1
      && (forall i :: 0 <= i < |t.rows| ==> t.rows[i].id < t.nextId)
      && (forall i, j :: 0 <= i < j < |t.rows| ==> t.rows[i].id < t.rows[j].id)
  }

  /** `CREATE TABLE IF NOT EXISTS`: a new empty table, or the existing one untouched. */
  function Created(t: Table): (r: Table)
    ensures r.Present?
    ensures t.Present? ==> r == t
    ensures t.Missing? ==> r.rows == []
  {
    if t.Missing? then Present([], 1) else t
  }

  /** `INSERT INTO images (url, filename, uploaded_at)`: fails on a fault or an absent table, else appends one row. */
  function InsertInto(t: Table, url: string, filename: string, now: int, fault: Option<string>): (r: Result<Table, string>)
    ensures fault.Some? ==> r == Failure(fault.value)
    ensures fault.None? && t.Missing? ==> r == Failure(MissingTableMessage)
    ensures r.Success? ==>
              && t.Present? && r.value.Present?
              && |r.value.rows| == |t.rows| + 1
              && r.value.rows[..|t.rows|] == t.rows
              && r.value.rows[|t.rows|] == Row(t.nextId, url, filename, now)
  {
    if fault.Some? then Failure(fault.value)
    else if t.Missing? then Failure(MissingTableMessage)
    else Success(Present(t.rows + [Row(t.nextId, url, filename, now)], t.nextId + 1))
  }

  /** Inserting keeps ids unique. */
  lemma InsertKeepsWellFormed(t: Table, url: string, filename: string, now: int)
    requires WellFormed(t) && t.Present?
    ensures WellFormed(InsertInto(t, url, filename, now, None).value)
  {}

  /** No two rows share an id. */
  predicate IdsUnique(rows: seq<Row>)
  {
    forall i, j :: 0 <= i < j < |rows| ==> rows[i].id != rows[j].id
  }

  /** A row held at two positions is counted at least twice. */
  lemma CountedTwice(s: seq<Row>, i: nat, j: nat)
    requires i < j < |s| && s[i] == s[j]
    ensures multiset(s)[s[i]] >= 2
  {
    assert s == s[..i] + [s[i]] + s[i + 1..j] + [s[j]] + s[j + 1..];
  }

  /** In a list with unique ids every row is counted once. */
  lemma CountedOnce(s: seq<Row>, a: nat)
    requires IdsUnique(s) && a < |s|
    ensures multiset(s)[s[a]] == 1
  {
    assert s == s[..a] + [s[a]] + s[a + 1..];
    assert s[a] !in s[..a] by {
      forall k | 0 <= k < a ensures s[..a][k] != s[a] { assert s[k].id != s[a].id; }
    }
    var tail := s[a + 1..];
    assert s[a] !in tail by {
      forall k | 0 <= k < |tail| ensures tail[k] != s[a] { assert tail[k] == s[a + 1 + k]; }
    }
  }

  /** A reordering of rows with unique ids has unique ids. */
  lemma PermutationKeepsIdsUnique(rows: seq<Row>, listed: seq<Row>)
    requires IdsUnique(rows) && multiset(listed) == multiset(rows)
    ensures IdsUnique(listed)
  {
    forall i, j | 0 <= i < j < |listed| ensures listed[i].id != listed[j].id {
      if listed[i].id == listed[j].id {
        assert listed[i] in multiset(rows) && listed[j] in multiset(rows);
        var a :| 0 <= a < |rows| && rows[a] == listed[i];
        var b :| 0 <= b < |rows| && rows[b] == listed[j];
        assert a == b;
        CountedTwice(listed, i, j);
        CountedOnce(rows, a);
        assert false;
      }
    }
  }

  /** Rows ordered by non-increasing `uploaded_at`. */
  predicate SortedByUploadedDesc(rows: seq<Row>)
  {
    forall i, j :: 0 <= i < j < |rows| ==> rows[i].uploadedAt >= rows[j].uploadedAt
  }

  lemma ConsSorted(x: Row, rows: seq<Row>)
    requires SortedByUploadedDesc(rows)
    requires rows != [] ==> x.uploadedAt >= rows[0].uploadedAt
    ensures SortedByUploadedDesc([x] + rows)
  {
    var s := [x] + rows;
    forall i, j | 0 <= i < j < |s| ensures s[i].uploadedAt >= s[j].uploadedAt {
      if i == 0 && j > 1 {
        assert s[j] == rows[j - 1];
      }
    }
  }

  function InsertByUploadedDesc(r: Row, rows: seq<Row>): (res: seq<Row>)
    requires SortedByUploadedDesc(rows)
    ensures SortedByUploadedDesc(res)
    ensures multiset(res) == multiset(rows) + multiset{r}
    ensures res != [] && (res[0] == r || (rows != [] && res[0] == rows[0]))
  {
    if rows == [] || r.uploadedAt >= rows[0].uploadedAt then
      ConsSorted(r, rows);
      [r] + rows
    else
      var tail := InsertByUploadedDesc(r, rows[1..]);
      assert rows == [rows[0]] + rows[1..];
      ConsSorted(rows[0], tail);
      [rows[0]] + tail
  }

  /** `ORDER BY uploaded_at DESC`: the same rows, newest first (ties keep table order). */
  function SortByUploadedDesc(rows: seq<Row>): (res: seq<Row>)
    ensures SortedByUploadedDesc(res)
    ensures multiset(res) == multiset(rows)
  {
    if rows == [] then []
    else
      assert rows == [rows[0]] + rows[1..];
      InsertByUploadedDesc(rows[0], SortByUploadedDesc(rows[1..]))
  }

  /** `SELECT … FROM images ORDER BY uploaded_at DESC`: the single read of the listing endpoint. */
  function Query(t: Table, fault: Option<string>): (r: Result<seq<Row>, string>)
    ensures fault.Some? ==> r == Failure(fault.value)
    ensures fault.None? && t.Missing? ==> r == Failure(MissingTableMessage)
    ensures fault.None? && t.Present? ==>
              r.Success? && SortedByUploadedDesc(r.value) && multiset(r.value) == multiset(t.rows)
  {
    if fault.Some? then Failure(fault.value)
    else if t.Missing? then Failure(MissingTableMessage)
    else Success(SortByUploadedDesc(t.rows))
  }

  /** The database handle the serverless functions share. */
  class Database {
    var table: Table

    ghost predicate Valid()
      reads this
    {
      WellFormed(table)
    }

    /** A fresh deployment has no table yet. */
    constructor ()
      ensures Valid() && table == Missing
    {
      table := Missing;
    }

    method CreateIfAbsent(fault: Option<string>) returns (err: Option<string>)
      requires Valid()
      modifies this
      ensures Valid()
      ensures err == fault
      ensures table == if fault.Some? then old(table) else Created(old(table))
    {
      err := fault;
      if fault.None? {
        table := Created(table);
      }
    }

    /** `SELECT COUNT(*) FROM images`. */
    method CountRows(fault: Option<string>) returns (r: Result<nat, string>)
      ensures r == if fault.Some? then Failure(fault.value)
                   else if table.Missing? then Failure(MissingTableMessage)
                   else Success(|table.rows|)
    {
      if fault.Some? {
        r := Failure(fault.value);
      } else if table.Missing? {
        r := Failure(MissingTableMessage);
      } else {
        r := Success(|table.rows|);
      }
    }

    method Insert(url: string, filename: string, now: int, fault: Option<string>) returns (err: Option<string>)
      requires Valid()
      modifies this
      ensures Valid()
      ensures match InsertInto(old(table), url, filename, now, fault)
              case Success(t) => err == None && table == t
              case Failure(m) => err == Some(m) && table == old(table)
    {
      var r := InsertInto(table, url, filename, now, fault);
      match r
      case Success(t) =>
        InsertKeepsWellFormed(table, url, filename, now);
        table := t;
        err := None;
      case Failure(m) =>
        err := Some(m);
    }
  }

  /** A stored object: its pathname, its data and its content type. */
  datatype Blob = Blob(pathname: string, data: string, contentType: string)

  /** The blob store; `put` picks the public url, which the outcome carries. */
  class BlobStore {
    var blobs: map<string, Blob>

    constructor ()
      ensures blobs == map[]
    {
      blobs := map[];
    }

    method Put(pathname: string, data: string, contentType: string, outcome: Result<string, string>)
      returns (r: Result<string, string>)
      modifies this
      ensures r == outcome
      ensures blobs == if outcome.Success? then old(blobs)[outcome.value := Blob(pathname, data, contentType)]
                       else old(blobs)
    {
      r := outcome;
      if outcome.Success? {
        blobs := blobs[outcome.value := Blob(pathname, data, contentType)];
      }
    }
  }
}
