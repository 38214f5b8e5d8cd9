/**
 * The listing endpoint (api/images.js): the response is a function of the
 * request method and the outcome of its single SELECT.
 */
module Images {
  import opened Wrappers
  import opened Strings
  import opened Store
  import opened Http

  /** The response to a request with method `verb`, given what the SELECT returned or threw. */
  function ListImages(verb: string, read: Result<seq<Row>, string>): (r: Response)
    ensures r.status in {200, 405, 500}
    ensures r.status == 405 <==> verb != "OPTIONS" && verb != "GET"
    ensures r.status == 500 <==> verb == "GET" && read.Failure? && !Contains(read.error, "does not exist")
    ensures r.status == 500 ==> r.body == Error("Failed to fetch images", Some(read.error))
    ensures r.body.Listed? <==> verb == "GET" && r.status == 200
    ensures r.body.Listed? ==> (r.body.needsInit <==> read.Failure?)
    ensures r.body.Listed? && read.Success? ==> r.body.images == read.value
    ensures r.body.Listed? && read.Failure? ==> r.body.images == []
  {
    if verb == "OPTIONS" then Preflight
    else if verb != "GET" then MethodNotAllowed
    else match read
      case Success(rows) => Response(200, Listed(rows, false))
      case Failure(m) =>
        if Contains(m, "does not exist") then Response(200, Listed([], true))
        else Response(500, Error("Failed to fetch images", Some(m)))
  }

  /** Preflight gets 200 with no body; every method but GET and OPTIONS gets 405. */
  lemma MethodDispatch(verb: string, read: Result<seq<Row>, string>)
    ensures verb == "OPTIONS" ==> ListImages(verb, read) == Response(200, NoBody)
    ensures verb != "OPTIONS" && verb != "GET" ==>
              ListImages(verb, read) == Response(405, Error("Method not allowed", None))
  {}

  /** A listing of an existing table: every row exactly once, newest first. */
  lemma ListingIsOrderedPermutation(t: Table)
    requires t.Present?
    ensures var r := ListImages("GET", Query(t, None));
            && r.status == 200 && r.body.Listed? && !r.body.needsInit
            && multiset(r.body.images) == multiset(t.rows)
            && SortedByUploadedDesc(r.body.images)
  {}

  /** A read error is soft (200, empty, needsInit) exactly when its message says "does not exist". */
  lemma ErrorClassification(m: string)
    ensures var r := ListImages("GET", Failure(m));
            && (Contains(m, "does not exist") ==> r == Response(200, Listed([], true)))
            && (!Contains(m, "does not exist") ==> r == Response(500, Error("Failed to fetch images", Some(m))))
  {}

  /** Before initialisation the listing asks for it and is never an error. */
  lemma MissingTableNeedsInit()
    ensures ListImages("GET", Query(Missing, None)) == Response(200, Listed([], true))
  {
    assert OccursAt(MissingTableMessage, "does not exist", 18);
  }

  /** The SERIAL primary key keeps ids unique, so no listing shows a row twice. */
  lemma ListingIdsUnique(t: Table)
    requires WellFormed(t) && t.Present?
    ensures var r := ListImages("GET", Query(t, None));
            r.body.Listed? && IdsUnique(r.body.images)
  {
    PermutationKeepsIdsUnique(t.rows, Query(t, None).value);
  }

  /** A row just uploaded (the insert succeeded) is in the next listing. */
  lemma UploadedRowIsListed(t: Table, url: string, filename: string, now: int)
    requires InsertInto(t, url, filename, now, None).Success?
    ensures var r := ListImages("GET", Query(InsertInto(t, url, filename, now, None).value, None));
            r.body.Listed? && Row(t.nextId, url, filename, now) in r.body.images
  {
    var t' := InsertInto(t, url, filename, now, None).value;
    assert Row(t.nextId, url, filename, now) in multiset(t'.rows);
  }
}
