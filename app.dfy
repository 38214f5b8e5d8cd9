/**
 * The page's image-list state (src/App.jsx): how `fetchImages` and
 * `handleUpload` update `images`, `loading` and `uploading`, given what
 * each network request returns or throws.
 */
module App {
  import opened Wrappers
  import opened Store
  import opened Http

  /** What a `fetch` followed by `response.json()` gives: a parsed body, or an exception. */
  datatype Reply = Threw | Delivered(body: Body)

  /** The requests the page sends, in order. */
  datatype Request = GetImages | PostInitDb | PostUpload(image: string, filename: string)

  /** A selected file: its name, and the data URL `FileReader.readAsDataURL` yields for it. */
  datatype File = File(name: string, dataUrl: string)

  const FallbackImages: seq<string> := [
    "https://picsum.photos/id/10/400/300",
    "https://picsum.photos/id/11/400/300",
    "https://picsum.photos/id/12/400/300",
    "https://picsum.photos/id/13/400/300",
    "https://picsum.photos/id/14/400/300"
  ]

  /** `rows.map(img => img.url)`. */
  function Urls(rows: seq<Row>): (r: seq<string>)
    ensures |r| == |rows|
    ensures forall i :: 0 <= i < |rows| ==> r[i] == rows[i].url
  {
    seq(|rows|, i requires 0 <= i < |rows| => rows[i].url)
  }

  /** `data.needsInit` is truthy only on the soft listing reply. */
  predicate NeedsInit(body: Body)
  {
    body.Listed? && body.needsInit
  }

  /** `data.images.map(…)`: defined on a listing, a TypeError on any other body. */
  function ListedUrls(body: Body): Option<seq<string>>
  {
    if body.Listed? then Some(Urls(body.images)) else None
  }

  /** The list a reply yields, or the fallback list when reading it throws. */
  function OrFallback(urls: Option<seq<string>>): seq<string>
  {
    if urls.Some? then urls.value else FallbackImages
  }

  /** What one run of `fetchImages` sets the list to, and the requests it sends. */
  datatype FetchRun = FetchRun(images: seq<string>, sent: seq<Request>)

  /**
   * `fetchImages` against the outcomes of its three possible requests: the
   * listing, the init POST (only whether it throws matters) and the retry.
   * Every exception, including a reply without a list, lands on the
   * fallback list.
   */
  function Fetch(first: Reply, initThrew: bool, retry: Reply): (r: FetchRun)
    ensures 1 <= |r.sent| <= 3 && r.sent[0] == GetImages
    ensures PostInitDb in r.sent <==> first.Delivered? && NeedsInit(first.body)
    ensures |r.sent| == 3 <==> first.Delivered? && NeedsInit(first.body) && !initThrew
    ensures |r.sent| == 3 ==> r.sent[2] == GetImages
  {
    match first
    case Threw => FetchRun(FallbackImages, [GetImages])
    case Delivered(body) =>
      if !NeedsInit(body) then
        FetchRun(OrFallback(ListedUrls(body)), [GetImages])
      else if initThrew then
        FetchRun(FallbackImages, [GetImages, PostInitDb])
      else
        var sent := [GetImages, PostInitDb, GetImages];
        match retry
        case Threw => FetchRun(FallbackImages, sent)
        case Delivered(b) => FetchRun(OrFallback(ListedUrls(b)), sent)
  }

  /** A normal listing sets the list to its rows' urls, in reply order, after one request. */
  lemma NormalListingShown(rows: seq<Row>, initThrew: bool, retry: Reply)
    ensures Fetch(Delivered(Listed(rows, false)), initThrew, retry) == FetchRun(Urls(rows), [GetImages])
  {}

  /** On `needsInit`, exactly one init POST and one refetch follow, and the refetch's urls are shown. */
  lemma NeedsInitRetriesOnce(rows: seq<Row>, soft: bool)
    ensures Fetch(Delivered(Listed([], true)), false, Delivered(Listed(rows, soft)))
            == FetchRun(Urls(rows), [GetImages, PostInitDb, GetImages])
  {}

  /** Whatever happens, the list is either urls from a listing reply or the fallback. */
  lemma FetchShowsServerOrFallback(first: Reply, initThrew: bool, retry: Reply)
    ensures var r := Fetch(first, initThrew, retry);
            || r.images == FallbackImages
            || (first.Delivered? && first.body.Listed? && r.images == Urls(first.body.images))
            || (retry.Delivered? && retry.body.Listed? && r.images == Urls(retry.body.images))
    ensures 1 <= |Fetch(first, initThrew, retry).sent| <= 3
  {}

  /** Any failure on the path (a throw, or a reply with no list) shows the fallback list. */
  lemma FailureShowsFallback(first: Reply, initThrew: bool, retry: Reply)
    requires || first.Threw?
             || (first.Delivered? && !NeedsInit(first.body) && !first.body.Listed?)
             || (first.Delivered? && NeedsInit(first.body) && initThrew)
             || (first.Delivered? && NeedsInit(first.body) && (retry.Threw? || !retry.body.Listed?))
    ensures Fetch(first, initThrew, retry).images == FallbackImages
  {}

  /** `data.success`: true on every reply body the endpoints send on success. */
  predicate Succeeded(body: Body)
  {
    body.Uploaded? || body.Listed? || body.Initialized?
  }

  /**
   * The value `data.url` stands for on a success reply that has no `url`
   * field: JavaScript's `undefined`, which the list then holds.
   */
  const UndefinedUrl: string := "undefined"

  /** What `[...prev, data.url]` appends when `data.success` holds. */
  function UploadedUrl(r: Reply): (u: Option<string>)
    ensures u.Some? <==> r.Delivered? && Succeeded(r.body)
    ensures r.Delivered? && r.body.Uploaded? ==> u == Some(r.body.url)
    ensures r.Delivered? && (r.body.Listed? || r.body.Initialized?) ==> u == Some(UndefinedUrl)
  {
    if r.Delivered? && Succeeded(r.body) then
      Some(if r.body.Uploaded? then r.body.url else UndefinedUrl)
    else None
  }

  /** What one upload reply appends: its url on success, nothing otherwise. */
  function Gained(r: Reply): seq<string>
  {
    match UploadedUrl(r)
    case Some(u) => [u]
    case None => []
  }

  /** The urls appended by the upload loop: successes, in order, up to the first exception. */
  function AppendedUrls(replies: seq<Reply>): (r: seq<string>)
    ensures |r| <= |replies|
  {
    if replies == [] || replies[0].Threw? then []
    else
      Gained(replies[0]) + AppendedUrls(replies[1..])
  }

  /** How many files the loop sends: up to and including the first that throws. */
  function Attempted(replies: seq<Reply>): (n: nat)
    ensures n <= |replies| && (replies != [] ==> n >= 1)
    ensures 0 < n < |replies| ==> replies[n - 1].Threw?
  {
    if replies == [] then 0
    else if replies[0].Threw? then 1
    else 1 + Attempted(replies[1..])
  }

  predicate NoThrow(replies: seq<Reply>)
  {
    forall k :: 0 <= k < |replies| ==> !replies[k].Threw?
  }

  /** One more reply at the end of a throw-free prefix appends at most its own url. */
  lemma {:induction false} AppendedUrlsSnoc(replies: seq<Reply>, r: Reply)
    requires NoThrow(replies) && !r.Threw?
    ensures AppendedUrls(replies + [r]) ==
              AppendedUrls(replies) + Gained(r)
    ensures Attempted(replies + [r]) == |replies| + 1
  {
    if replies != [] {
      assert (replies + [r])[1..] == replies[1..] + [r];
      AppendedUrlsSnoc(replies[1..], r);
    } else {
      assert [r][1..] == [];
    }
  }

  /** An exception keeps the appends before it and sends nothing after it. */
  lemma {:induction false} ThrowStopsUploads(before: seq<Reply>, after: seq<Reply>)
    requires NoThrow(before)
    ensures AppendedUrls(before + [Threw] + after) == AppendedUrls(before)
    ensures Attempted(before + [Threw] + after) == |before| + 1
  {
    if before != [] {
      assert (before + [Threw] + after)[1..] == before[1..] + [Threw] + after;
      ThrowStopsUploads(before[1..], after);
    }
  }

  /** With no exception every file is sent, and every success is appended in order. */
  lemma {:induction false} AllSentWithoutThrow(replies: seq<Reply>)
    requires NoThrow(replies)
    ensures Attempted(replies) == |replies|
  {
    if replies != [] {
      AllSentWithoutThrow(replies[1..]);
    }
  }

  /** The upload requests for some files: each file's data URL and name, in order. */
  function UploadRequests(files: seq<File>): (r: seq<Request>)
    ensures |r| == |files|
    ensures forall i :: 0 <= i < |files| ==> r[i] == PostUpload(files[i].dataUrl, files[i].name)
  {
    seq(|files|, i requires 0 <= i < |files| => PostUpload(files[i].dataUrl, files[i].name))
  }

  /** The loop's step: reply i did not throw, so the prefix grows by one. */
  lemma UploadStep(replies: seq<Reply>, i: nat)
    requires i < |replies| && NoThrow(replies[..i]) && !replies[i].Threw?
    ensures NoThrow(replies[..i + 1])
    ensures AppendedUrls(replies[..i + 1]) == AppendedUrls(replies[..i]) + Gained(replies[i])
    ensures Attempted(replies[..i + 1]) == i + 1
  {
    assert replies[..i + 1] == replies[..i] + [replies[i]];
    AppendedUrlsSnoc(replies[..i], replies[i]);
  }

  /** The loop's exit on an exception at reply i. */
  lemma UploadStop(replies: seq<Reply>, i: nat)
    requires i < |replies| && NoThrow(replies[..i]) && replies[i].Threw?
    ensures AppendedUrls(replies) == AppendedUrls(replies[..i])
    ensures Attempted(replies) == i + 1
    ensures !NoThrow(replies)
  {
    assert replies == replies[..i] + [Threw] + replies[i + 1..];
    ThrowStopsUploads(replies[..i], replies[i + 1..]);
  }

  lemma UploadRequestsSnoc(files: seq<File>, i: nat)
    requires i < |files|
    ensures UploadRequests(files[..i + 1]) == UploadRequests(files[..i]) + [PostUpload(files[i].dataUrl, files[i].name)]
  {}

  /** The page component's state. */
  class Page {
    var images: seq<string>
    var loading: bool
    var uploading: bool

    /** Initial state: no images, loading, not uploading. */
    constructor ()
      ensures images == [] && loading && !uploading
    {
      images := [];
      loading := true;
      uploading := false;
    }

    /** `fetchImages`: sets the list per `Fetch`, and clears `loading` on every path. */
    method FetchImages(first: Reply, initThrew: bool, retry: Reply) returns (sent: seq<Request>)
      modifies this
      ensures FetchRun(images, sent) == Fetch(first, initThrew, retry)
      ensures !loading && uploading == old(uploading)
    {
      sent := [GetImages];
      match first {
        case Threw =>
          images := FallbackImages;
        case Delivered(data) =>
          if NeedsInit(data) {
            sent := sent + [PostInitDb];
            if initThrew {
              images := FallbackImages;
            } else {
              sent := sent + [GetImages];
              match retry {
                case Threw =>
                  images := FallbackImages;
                case Delivered(retryData) =>
                  images := OrFallback(ListedUrls(retryData));
              }
            }
          } else {
            images := OrFallback(ListedUrls(data));
          }
      }
      loading := false;
    }

    /**
     * `handleUpload`: no files, no change at all. Otherwise the files are
     * sent one at a time; each success appends its url; the first
     * exception ends the loop (and raises the alert). `uploading` is
     * cleared on every path.
     */
    method HandleUpload(files: seq<File>, replies: seq<Reply>) returns (sent: seq<Request>, alerted: bool)
      requires |replies| == |files|
      modifies this
      ensures files == [] ==>
                images == old(images) && uploading == old(uploading) && sent == [] && !alerted
      ensures files != [] ==>
                && images == old(images) + AppendedUrls(replies)
                && !uploading
                && sent == UploadRequests(files[..Attempted(replies)])
                && alerted == !NoThrow(replies)
      ensures loading == old(loading)
    {
      sent, alerted := [], false;
      if |files| == 0 {
        return;
      }
      uploading := true;
      var i := 0;
      while i < |files|
        invariant 0 <= i <= |files|
        invariant NoThrow(replies[..i])
        invariant images == old(images) + AppendedUrls(replies[..i])
        invariant sent == UploadRequests(files[..i])
        invariant loading == old(loading) && !alerted
      {
        UploadRequestsSnoc(files, i);
        sent := sent + [PostUpload(files[i].dataUrl, files[i].name)];
        if replies[i].Threw? {
          UploadStop(replies, i);
          alerted := true;
          break;
        }
        UploadStep(replies, i);
        images := images + Gained(replies[i]);
        i := i + 1;
      }
      if !alerted {
        assert replies[..i] == replies;
        assert files[..i] == files;
        AllSentWithoutThrow(replies);
      }
      uploading := false;
    }
  }
}
