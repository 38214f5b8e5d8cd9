/**
 * The upload endpoint (api/upload.js): a data URL in, a stored blob and one
 * new row out. The prefix rules follow the `;base64` form of the data URL
 * syntax of section 3 of RFC 2397, restricted to `image/<word>` media types.
 */
module Upload {
  import opened Wrappers
  import opened Strings
  import opened Store
  import opened Http

  /** The regex class `\w`, without the `u` flag: ASCII letters, digits and `_`. */
  predicate IsWordChar(c: char)
  {
    'a' <= c <= 'z' || 'A' <= c <= 'Z' || '0' <= c <= '9' || c == '_'
  }

  predicate IsWord(s: string)
  {
    forall k :: 0 <= k < |s| ==> IsWordChar(s[k])
  }

  /** The length of the longest run of word characters at the start of `s`. */
  function WordRun(s: string): (n: nat)
    ensures n <= |s| && IsWord(s[..n])
    ensures n < |s| ==> !IsWordChar(s[n])
  {
    if s == [] || !IsWordChar(s[0]) then 0
    else
      var n := WordRun(s[1..]) + 1;
      assert s[..n] == [s[0]] + s[1..][..n - 1];
      n
  }

  const DataImage: string := "data:image/"
  const Base64Marker: string := ";base64,"

  /** The parts of `data:image/<subtype>;base64,<payload>`. */
  datatype DataUri = DataUri(subtype: string, payload: string)

  /**
   * The anchored match of `^data:image\/\w+;base64,`. Since `;` is not a
   * word character, `\w+` can only end where the run of word characters
   * ends, so the match, when there is one, is unique.
   */
  function MatchDataUri(image: string): (r: Option<DataUri>)
    ensures r.Some? ==>
              && |r.value.subtype| > 0 && IsWord(r.value.subtype)
              && image == DataImage + r.value.subtype + Base64Marker + r.value.payload
  {
    if |image| >= |DataImage| && image[..|DataImage|] == DataImage then
      var rest := image[|DataImage|..];
      var n := WordRun(rest);
      var after := rest[n..];
      if n > 0 && |after| >= |Base64Marker| && after[..|Base64Marker|] == Base64Marker then
        var d := DataUri(rest[..n], after[|Base64Marker|..]);
        assert rest == d.subtype + after;
        assert after == Base64Marker + d.payload;
        assert image == DataImage + rest;
        Some(d)
      else None
    else None
  }

  /** Every well-formed prefix is recognised, with its subtype and payload. */
  lemma MatchDataUriComplete(subtype: string, payload: string)
    requires |subtype| > 0 && IsWord(subtype)
    ensures MatchDataUri(DataImage + subtype + Base64Marker + payload) == Some(DataUri(subtype, payload))
  {
    var image := DataImage + subtype + Base64Marker + payload;
    var rest := image[|DataImage|..];
    assert image[..|DataImage|] == DataImage;
    assert rest == subtype + (Base64Marker + payload);
    assert !IsWordChar(rest[|subtype|]);
    assert rest[..|subtype|] == subtype;
    assert WordRun(rest) == |subtype| by {
      WordRunOfWord(subtype, Base64Marker + payload);
    }
    assert rest[|subtype|..] == Base64Marker + payload;
  }

  lemma {:induction false} WordRunOfWord(w: string, tail: string)
    requires IsWord(w)
    requires tail != [] && !IsWordChar(tail[0])
    ensures WordRun(w + tail) == |w|
  {
    if w != [] {
      assert (w + tail)[1..] == w[1..] + tail;
      WordRunOfWord(w[1..], tail);
    } else {
      assert w + tail == tail;
    }
  }

  /** `image.replace(/^data:image\/\w+;base64,/, '')`. */
  function StripDataPrefix(image: string): (r: string)
    ensures MatchDataUri(image).Some? ==> r == MatchDataUri(image).value.payload && |r| < |image|
    ensures MatchDataUri(image).None? ==> r == image
  {
    match MatchDataUri(image)
    case Some(d) => d.payload
    case None => image
  }

  /** `image.match(/^data:(image\/\w+);base64,/)?.[1] || 'image/jpeg'`. */
  function ContentType(image: string): (r: string)
    ensures |r| > |"image/"| && r[..|"image/"|] == "image/"
  {
    match MatchDataUri(image)
    case Some(d) => "image/" + d.subtype
    case None => "image/jpeg"
  }

  /** The payload and the content type of a well-formed data URL. */
  lemma WellFormedDataUri(subtype: string, payload: string)
    requires |subtype| > 0 && IsWord(subtype)
    ensures StripDataPrefix(DataImage + subtype + Base64Marker + payload) == payload
    ensures ContentType(DataImage + subtype + Base64Marker + payload) == "image/" + subtype
  {
    MatchDataUriComplete(subtype, payload);
  }

  /**
   * The two regular expressions agree: nothing is stripped exactly when
   * there is no match, and then the content type is the JPEG default.
   */
  lemma PrefixRulesAgree(image: string)
    ensures StripDataPrefix(image) == image <==> MatchDataUri(image).None?
    ensures StripDataPrefix(image) == image ==> ContentType(image) == "image/jpeg"
  {}

  /** The blob's pathname: the given file name, else a timestamped default. */
  function BlobPathname(filename: Option<string>, now: nat): (r: string)
    ensures r != ""
    ensures Truthy(filename) ==> r == filename.value
    ensures !Truthy(filename) ==> |r| > 10 && r[..6] == "image-" && r[|r| - 4..] == ".jpg"
  {
    if Truthy(filename) then filename.value else "image-" + NatToString(now) + ".jpg"
  }

  /** Uploads without a file name at different times get different pathnames. */
  lemma DefaultPathnamesDistinct(now1: nat, now2: nat)
    requires now1 != now2
    ensures BlobPathname(None, now1) != BlobPathname(None, now2)
  {
    var a, b := NatToString(now1), NatToString(now2);
    if BlobPathname(None, now1) == BlobPathname(None, now2) {
      assert a == BlobPathname(None, now1)[6..|BlobPathname(None, now1)| - 4];
      assert b == BlobPathname(None, now2)[6..|BlobPathname(None, now2)| - 4];
      NatToStringInjective(now1, now2);
    }
  }

  /** The filename stored in the row: the given file name, else "Untitled". */
  function RowFilename(filename: Option<string>): (r: string)
    ensures r != ""
    ensures Truthy(filename) ==> r == filename.value
    ensures !Truthy(filename) ==> r == "Untitled"
  {
    if Truthy(filename) then filename.value else "Untitled"
  }

  /** The two fields of the JSON request body. */
  datatype UploadBody = UploadBody(image: Option<string>, filename: Option<string>)

  /**
   * The handler. `put` is the blob store's answer (the public url, or the
   * error it throws) and `insertFault` the error the INSERT throws, if any.
   * The blob is written before the row is inserted, and nothing undoes the
   * blob when the insert fails.
   */
  method Handle(db: Database, store: BlobStore, verb: string, body: UploadBody, now: nat,
                put: Result<string, string>, insertFault: Option<string>)
    returns (resp: Response)
    requires db.Valid()
    modifies db, store
    ensures db.Valid()
    ensures verb == "OPTIONS" ==>
              resp == Preflight && db.table == old(db.table) && store.blobs == old(store.blobs)
    ensures verb != "OPTIONS" && verb != "POST" ==>
              resp == MethodNotAllowed && db.table == old(db.table) && store.blobs == old(store.blobs)
    ensures verb == "POST" && !Truthy(body.image) ==>
              && resp == Response(400, Error("No image provided", None))
              && db.table == old(db.table) && store.blobs == old(store.blobs)
    ensures verb == "POST" && Truthy(body.image) && put.Failure? ==>
              && resp == Response(500, Error("Failed to upload image", Some(put.error)))
              && db.table == old(db.table) && store.blobs == old(store.blobs)
    ensures verb == "POST" && Truthy(body.image) && put.Success? ==>
              && store.blobs == old(store.blobs)[put.value :=
                   Blob(BlobPathname(body.filename, now), StripDataPrefix(body.image.value),
                        ContentType(body.image.value))]
              && match InsertInto(old(db.table), put.value, RowFilename(body.filename), now, insertFault)
                 case Success(t) => db.table == t && resp == Response(200, Uploaded(put.value))
                 case Failure(m) =>
                   db.table == old(db.table) && resp == Response(500, Error("Failed to upload image", Some(m)))
  {
    if verb == "OPTIONS" {
      return Preflight;
    }
    if verb != "POST" {
      return MethodNotAllowed;
    }
    if !Truthy(body.image) {
      return Response(400, Error("No image provided", None));
    }
    var image := body.image.value;
    var data := StripDataPrefix(image);
    var blob := store.Put(BlobPathname(body.filename, now), data, ContentType(image), put);
    if blob.Failure? {
      return Response(500, Error("Failed to upload image", Some(blob.error)));
    }
    var err := db.Insert(blob.value, RowFilename(body.filename), now, insertFault);
    if err.Some? {
      return Response(500, Error("Failed to upload image", Some(err.value)));
    }
    resp := Response(200, Uploaded(blob.value));
  }
}
