/**
 * The data flow across the three endpoints and the page: a first visit to
 * a fresh deployment, and an upload followed by a listing.
 */
module EndToEnd {
  import opened Wrappers
  import opened Store
  import opened Http
  import Strings
  import Upload
  import InitDb
  import Images
  import App

  lemma UrlsOfPermutation(a: seq<Row>, b: seq<Row>, u: string)
    requires multiset(a) == multiset(b)
    ensures u in App.Urls(a) <==> u in App.Urls(b)
  {
    if u in App.Urls(a) {
      var i :| 0 <= i < |a| && App.Urls(a)[i] == u;
      assert a[i] in multiset(b);
      var j :| 0 <= j < |b| && b[j] == a[i];
      assert App.Urls(b)[j] == u;
    }
    if u in App.Urls(b) {
      var j :| 0 <= j < |b| && App.Urls(b)[j] == u;
      assert b[j] in multiset(a);
      var i :| 0 <= i < |a| && a[i] == b[j];
      assert App.Urls(a)[i] == u;
    }
  }

  /**
   * First visit to a deployment with no table: the listing asks for
   * initialisation, the page posts to init-db once and lists again, and
   * shows the five sample urls.
   */
  lemma FirstVisitShowsSamples(now: int)
    ensures
      var first := Images.ListImages("GET", Query(Missing, None));
      var seeded := InitDb.SeededTable(Missing, now);
      var retry := Images.ListImages("GET", Query(seeded, None));
      var run := App.Fetch(App.Delivered(first.body), false, App.Delivered(retry.body));
      && run.sent == [App.GetImages, App.PostInitDb, App.GetImages]
      && |run.images| == |InitDb.DefaultImages|
      && forall u :: u in run.images <==> u in InitDb.DefaultImages
  {
    Images.MissingTableNeedsInit();
    var seeded := InitDb.SeededTable(Missing, now);
    InitDb.SeedsFiveSamplesInOrder(Missing, now);
    var listed := Query(seeded, None).value;
    assert |listed| == |seeded.rows| by {
      assert |multiset(listed)| == |multiset(seeded.rows)|;
    }
    forall u ensures u in App.Urls(listed) <==> u in InitDb.DefaultImages {
      UrlsOfPermutation(listed, seeded.rows, u);
      assert App.Urls(seeded.rows) == InitDb.DefaultImages;
    }
  }

  /** An upload that stores its blob and its row is in the next listing, under its file name. */
  lemma UploadedFilenameIsListed(t: Table, url: string, filename: string, now: nat)
    requires t.Present? && filename != ""
    ensures
      var inserted := InsertInto(t, url, Upload.RowFilename(Some(filename)), now, None);
      && inserted.Success?
      && var r := Images.ListImages("GET", Query(inserted.value, None));
         && r.status == 200 && r.body.Listed?
         && exists k :: 0 <= k < |r.body.images| && r.body.images[k].filename == filename
                                                && r.body.images[k].url == url
  {
    var inserted := InsertInto(t, url, filename, now, None);
    Images.UploadedRowIsListed(t, url, filename, now);
    var listed := Query(inserted.value, None).value;
    var row := Row(t.nextId, url, filename, now);
    var k :| 0 <= k < |listed| && listed[k] == row;
  }

  /** What the upload handler reads out of the example request body. */
  lemma ExampleBody()
    ensures Strings.Truthy(Some(PngUri)) && Strings.Truthy(Some("x.png"))
    ensures Upload.StripDataPrefix(PngUri) == "AAAA"
    ensures Upload.ContentType(PngUri) == "image/png"
    ensures Upload.RowFilename(Some("x.png")) == "x.png"
  {
    Upload.WellFormedDataUri("png", "AAAA");
    assert Upload.DataImage + "png" + Upload.Base64Marker + "AAAA" == PngUri;
  }

  const PngUri: string := "data:image/png;base64,AAAA"

  /**
   * The scenario end to end, on the handlers themselves: upload
   * `x.png` as a PNG data URL to an initialised table, then list.
   */
  method UploadThenList(db: Database, store: BlobStore, now: nat, url: string)
    returns (upload: Response, listing: Response)
    requires db.Valid() && db.table.Present?
    modifies db, store
    ensures upload == Response(200, Uploaded(url))
    ensures url in store.blobs && store.blobs[url] == Blob("x.png", "AAAA", "image/png")
    ensures listing.status == 200 && listing.body.Listed?
    ensures exists k :: 0 <= k < |listing.body.images| && listing.body.images[k].filename == "x.png"
  {
    ExampleBody();
    ghost var t0 := db.table;
    var body := Upload.UploadBody(Some(PngUri), Some("x.png"));
    upload := Upload.Handle(db, store, "POST", body, now, Success(url), None);
    UploadedFilenameIsListed(t0, url, "x.png", now);
    assert db.table == InsertInto(t0, url, "x.png", now, None).value;
    listing := Images.ListImages("GET", Query(db.table, None));
  }
}
