# CRT interactive album, modelled in Dafny

CRTinteractiveAlbum is a 3D photo album. A CRT monitor in the scene shows a
virtual "Windows XP" desktop. The pointer on the monitor's glass drives a
cursor on that desktop. Clicking the "My Pictures" icon opens a window whose
gallery shows the page's image list. Clicking an image enlarges it, and the
window's close button closes the window. The image list comes from three
serverless endpoints over a Postgres `images` table and a blob store:
`/api/images` lists the rows newest first, `/api/init-db` creates and seeds
the table, and `/api/upload` stores a data-URL image and records its row.

This project models:
- the click pipeline of the monitor, the desktop and the window, as classes
  whose methods update their state the way the React effects do;
- the three handlers, as methods over an abstract table and blob store;
- the page's `fetchImages` and `handleUpload`, as methods over the page's
  state, given the outcome of each network request.

Every method is proved against a pure specification. These are:
- `OSWindow.ClickEffect` and `OSDesktop.Step` for a click;
- `Store.InsertInto` and `Store.Query` for the SQL statements;
- `InitDb.AfterStatements` for a seeding run;
- `App.Fetch` and `App.AppendedUrls` for the page.

The lemmas beside these specifications state what the application promises.

## Modelling choices

- **Coordinates.** Coordinates are exact reals in virtual-screen units. A
  distance test `sqrt(dx² + dy²) < d` is written as `dx² + dy² < d²`.
  `OSWindow.CellAt` is an independent closed-form reference for the gallery's
  hit test: it rounds the cursor to the nearest row and column. The
  window's scan over every image, which keeps the last hit, is proved to
  agree with it.
- **React effects.** A change of `clickTrigger` runs the window's effect
  before the desktop's, because a child's effects run before its parent's.
  The desktop's effect therefore sees the window still open and returns. A
  window mounted by a click runs its mount effect with that same trigger.
  `OSDesktop.OpeningClickInertInWindow` proves that this replay does
  nothing. Effects rerun only when the trigger value changes, so a press in
  the same millisecond as the previous one clicks nothing.
- **Two desktops.** The monitor renders two separate `Desktop` instances,
  one into the glass surface and one into the shader overlay. Both receive
  the same props. `CRTMonitor.Monitor.Valid` keeps their states equal.
- **Server faults.** A failure of the blob store or of an SQL statement is a
  parameter of the handler: the error message the call would throw. The
  init-db handler's statements are numbered in the order they run (0
  CREATE, 1 COUNT, 2 + i the INSERT of sample i). `failAt` names the one
  that throws. A statement on the absent table fails with Postgres's
  message `relation "images" does not exist`. That message contains the
  substring the listing handler tests for.
- **Time and urls.** `Date.now()` and `NOW()` are a parameter `now`. The blob
  store's public url is part of the store's outcome.
- **Client requests.** The page's network calls are replaced by the replies
  they produce. A reply is either a parsed JSON body or `Threw`, which
  stands for an exception from `fetch` or from `response.json()`. The page
  reads replies the way the code does:
  - `data.images.map` on a body without `images` throws, so it leads to the
    fallback list.
  - The upload loop appends `data.url` whenever `data.success` holds. Every
    success body has that flag, including the listing and init-db bodies,
    which have no `url`. On those the list gains JavaScript's `undefined`,
    written `App.UndefinedUrl`.
- **Highlight vs click on the icon.** The icon is highlighted on the square
  |dx|, |dy| < 0.4 around its centre (Desktop.jsx:87), but a click opens the
  window only inside the disk of radius 0.5 (Desktop.jsx:19-22). The two
  regions differ:
  - `OSDesktop.HighlightedCornerMissesIcon` gives a highlighted point whose
    click opens nothing.
  - `OSDesktop.ClickableRimNotHighlighted` gives an unhighlighted point that
    opens the window.
  - `OSDesktop.IconCoreHighlightedAndClickable` proves that points within
    distance 0.4 of the icon's centre are both highlighted and clickable.
- **Empty strings.** JavaScript truthiness is written out. An empty
  `selectedImage`, `image` or `filename` counts as absent, as in the source.

## Model

| member | source | states |
|---|---|---|
| Strings.NatToString | api/init-db.js:50 | the decimal rendering of a number is non-empty, all digits, with no leading zero |
| Strings.DecimalRoundTrip | api/init-db.js:50 | reading the rendering back gives the number |
| Strings.NatToStringInjective | api/upload.js:43 | different numbers render to different strings |
| Strings.Contains | api/images.js:38 | `includes` holds exactly when the substring occurs at some position |
| OSWindow.ClickEffect | src/components/OS/Window.jsx:7-36 | one click effect, in priority order: a zero trigger does nothing, a shown image is dismissed, the close button closes, otherwise the grid picks. Its contract: a close keeps the selection, a new selection is one of the images, and a cleared selection was a shown image. The lemmas below state each branch |
| OSWindow.GalleryLayout | src/components/OS/Window.jsx:109-113 | one drawn position per image, each inside that image's own hit box |
| OSWindow.CellAtExact | src/components/OS/Window.jsx:25-31 | the cursor is in image i's box exactly when the closed-form cell is i |
| OSWindow.CellsDisjoint | src/components/OS/Window.jsx:25-31 | no point lies in two images' boxes |
| OSWindow.LayoutInjective | src/components/OS/Window.jsx:109-113 | no two images are drawn at the same position |
| OSWindow.CloseButtonClearOfGrid | src/components/OS/Window.jsx:16-31 | no point is both on the close button and in an image's box |
| OSWindow.ZeroTriggerInert | src/components/OS/Window.jsx:8 | the initial trigger 0 changes neither selection nor open state |
| OSWindow.DismissTakesWholeClick | src/components/OS/Window.jsx:10-13 | with an image shown, any click only clears it, never closes or reselects |
| OSWindow.CloseButtonCloses | src/components/OS/Window.jsx:15-21 | with nothing shown, a click closes exactly when it is on the close button, and then selects nothing |
| OSWindow.SelectsImageUnderCursor | src/components/OS/Window.jsx:24-33 | with nothing shown, a click in image i's box selects exactly image i |
| OSWindow.MissKeepsSelection | src/components/OS/Window.jsx:24-35 | a click on no box and not on the close button leaves the selection as it was |
| OSWindow.PlaceholderSelectsNothing | src/components/OS/Window.jsx:125-129 | with no images (the placeholder shown), no click selects an image |
| OSWindow.Window.constructor | src/components/OS/Window.jsx:5 | a mounted window has nothing selected |
| OSWindow.Window.Click | src/components/OS/Window.jsx:7-36 | the effect's early returns and its scan over every image yield exactly the selection and close request of `ClickEffect` |
| OSDesktop.VirtualCursor | src/components/OS/Desktop.jsx:9-13 | the cursor scaled by half the screen size: [-1,1]² maps onto [-3.25,3.25]×[-2.5,2.5], and dividing back recovers it |
| OSDesktop.IconHighlighted | src/components/OS/Desktop.jsx:87 | the highlight region is the open square (-2.9, -2.1) × (1.4, 2.2) |
| OSDesktop.Step | src/components/OS/Desktop.jsx:15-25 | one click on the desktop. Its contract: trigger 0 changes nothing, from closed only `Open(None)` is reachable, and a newly selected image is one of the list's. `OpensIffOnIcon`, `ClosesOnlyViaCloseButton` and `IconInertWhileOpen` state its branches |
| OSDesktop.ZeroTriggerKeepsState | src/components/OS/Desktop.jsx:16 | trigger 0 leaves the desktop as it is |
| OSDesktop.OpensIffOnIcon | src/components/OS/Desktop.jsx:15-25 | from closed, a click opens the window exactly when it is in the icon's disk, and opens it with nothing selected |
| OSDesktop.ClosesOnlyViaCloseButton | src/components/OS/Desktop.jsx:91-93 | an open window closes exactly on a click on its close button with no image shown |
| OSDesktop.IconClearOfCloseButton | src/components/OS/Desktop.jsx:19-22 | the icon's disk and the close button's disk are disjoint |
| OSDesktop.IconClearOfGrid | src/components/OS/Desktop.jsx:19-22 | the icon's disk meets no image's box |
| OSDesktop.IconInertWhileOpen | src/components/OS/Desktop.jsx:17 | clicking the icon while the window is open neither reopens nor closes it |
| OSDesktop.OpeningClickInertInWindow | src/components/OS/Desktop.jsx:91-99 | the opening click, replayed to the freshly mounted window, neither selects nor closes |
| OSDesktop.IconCoreHighlightedAndClickable | src/components/OS/Desktop.jsx:87 | every point within 0.4 of the icon's centre is both highlighted and clickable |
| OSDesktop.HighlightedCornerMissesIcon | src/components/OS/Desktop.jsx:87 | a highlighted point, (-2.11, 2.19), where a click does not open the window |
| OSDesktop.ClickableRimNotHighlighted | src/components/OS/Desktop.jsx:22 | an unhighlighted point, (-2.05, 1.8), where a click opens the window |
| OSDesktop.Desktop.constructor | src/components/OS/Desktop.jsx:7 | the desktop starts with the window closed |
| OSDesktop.Desktop.Click | src/components/OS/Desktop.jsx:15-25 | the window's effect and then the desktop's take the state to `Step` of the old state; the window is mounted exactly while open |
| CRTMonitor.UvToCursor | src/components/CRTMonitor.jsx:30-37 | texture coordinates in [0,1]² map onto cursor space [-1,1]², the centre to (0,0), and `CursorToUv` inverts the mapping |
| CRTMonitor.UvToCursorBijective | src/components/CRTMonitor.jsx:32-35 | each cursor position comes from exactly one texture coordinate |
| CRTMonitor.PointerLandsOnVirtualScreen | src/components/CRTMonitor.jsx:32-35 | a pointer on the screen mesh lands on the virtual screen |
| CRTMonitor.Monitor.constructor | src/components/CRTMonitor.jsx:9-11 | cursor (0,0), trigger 0, scroll (0,0), both desktops closed |
| CRTMonitor.Monitor.PointerMove | src/components/CRTMonitor.jsx:30-37 | a move with texture coordinates sets the cursor from them; one without changes nothing |
| CRTMonitor.Monitor.PointerDown | src/components/CRTMonitor.jsx:39-42 | the trigger becomes the time; when it changed, both desktops step with the click and stay equal |
| CRTMonitor.Monitor.Wheel | src/components/CRTMonitor.jsx:44-47 | records delta and time; cursor and trigger untouched |
| CRTMonitor.OpenSelectClose | src/components/CRTMonitor.jsx:105-110 | pressing the icon, the first image and the close button twice: open, image shown, dismissed, closed |
| Store.Created | api/init-db.js:24-31 | `CREATE TABLE IF NOT EXISTS` gives an empty table, or leaves an existing one untouched |
| Store.InsertInto | api/upload.js:49-52 | an insert fails on a fault or an absent table; otherwise it appends exactly one row with the next id, keeping the others |
| Store.InsertKeepsWellFormed | api/init-db.js:26 | inserting keeps the SERIAL ids increasing and unique |
| Store.PermutationKeepsIdsUnique | api/init-db.js:26 | reordering rows whose ids are unique keeps them unique |
| Store.InsertByUploadedDesc | api/images.js:27 | inserting a row into a newest-first list keeps it newest first and adds exactly that row |
| Store.SortByUploadedDesc | api/images.js:27 | `ORDER BY uploaded_at DESC` is newest first and a permutation of the rows |
| Store.Query | api/images.js:24-28 | the SELECT fails on a fault or an absent table, else returns every row exactly once, newest first |
| Store.Database.constructor | api/init-db.js:24-31 | a fresh deployment has no table |
| Store.Database.CreateIfAbsent | api/init-db.js:24-31 | the CREATE's effect on the table per `Created`, or nothing when it throws |
| Store.Database.CountRows | api/init-db.js:43 | the COUNT is the number of rows, or the error it throws |
| Store.Database.Insert | api/upload.js:49-52 | the table per `InsertInto`; a failed insert changes nothing |
| Store.BlobStore.constructor | api/upload.js:43-46 | the store starts empty |
| Store.BlobStore.Put | api/upload.js:43-46 | a successful put maps the url to the blob; a failed put stores nothing |
| Upload.WordRun | api/upload.js:39 | the longest run of `\w` characters at the start |
| Upload.MatchDataUri | api/upload.js:39 | a match of `^data:image\/\w+;base64,` splits the input into prefix, non-empty word subtype, marker and payload |
| Upload.MatchDataUriComplete | api/upload.js:39 | every well-formed data URL matches, with its own subtype and payload |
| Upload.WordRunOfWord | api/upload.js:39 | the `\w+` run of a word followed by a non-word character is exactly that word |
| Upload.StripDataPrefix | api/upload.js:39 | the payload after a matching prefix, else the input unchanged |
| Upload.ContentType | api/upload.js:45 | always an `image/…` type |
| Upload.WellFormedDataUri | api/upload.js:39-45 | for a well-formed data URL, the stored data is the payload and the content type is `image/<subtype>` |
| Upload.PrefixRulesAgree | api/upload.js:39-45 | nothing is stripped exactly when the prefix does not match, and then the type is `image/jpeg` |
| Upload.BlobPathname | api/upload.js:43 | the file name when given, else `image-<now>.jpg` |
| Upload.DefaultPathnamesDistinct | api/upload.js:43 | unnamed uploads at different times get different pathnames |
| Upload.RowFilename | api/upload.js:51 | the file name when given, else "Untitled" |
| Upload.Handle | api/upload.js:22-61 | 200 on OPTIONS, 405 on other methods, 400 with no image, 500 when the put or insert throws, else the blob stored, one row appended and 200 with its url; the blob stays when the insert fails |
| InitDb.AfterStatements | api/init-db.js:24-53 | the table after the first `done` statements of a run: unchanged before the CREATE, present after it, untouched on a populated table, and the first `done - 2` samples in order while seeding. `SeededTable`, `PartialSeedIsPermanent` and `InitDb.Handle` build on it |
| InitDb.SeedRows | api/init-db.js:47-51 | sample i has the next id plus i, url `defaultImages[i]` and label "Sample Image i+1" |
| InitDb.SeededTable | api/init-db.js:24-53 | a successful run leaves an existing non-empty table as it was and an empty or absent one holding exactly the five samples |
| InitDb.SeedsFiveSamplesInOrder | api/init-db.js:45-52 | on an empty or absent table, exactly five rows with the sample urls and labels, in order |
| InitDb.SeedFilenamesSpelledOut | api/init-db.js:50 | the labels run from "Sample Image 1" to "Sample Image 5" |
| InitDb.PopulatedTableUntouched | api/init-db.js:45 | on a table with rows, a run issues only the CREATE and COUNT and changes nothing |
| InitDb.InitIdempotent | api/init-db.js:24-53 | two successful runs leave the same table as one |
| InitDb.PartialSeedIsPermanent | api/init-db.js:45-52 | a run that fails while seeding keeps the samples inserted so far, and no later run completes them |
| InitDb.RunKeepsWellFormed | api/init-db.js:24-52 | any prefix of a run keeps ids unique |
| InitDb.InsertNextSample | api/init-db.js:47-51 | inserting sample i extends the seeded prefix by exactly that sample |
| InitDb.InsertSamples | api/init-db.js:47-52 | the loop inserts the samples in order and stops at the first that throws |
| InitDb.Handle | api/init-db.js:13-62 | 200 on OPTIONS, 405 on other methods; on POST, success with the seeded table, or 500 with the table as left by the statements before the failing one |
| Images.ListImages | api/images.js:12-47 | the whole response from the method and the SELECT's outcome: 405 exactly on other methods; 500 exactly on a read error without "does not exist", carrying its message; a listing exactly on a 200 GET, with `needsInit` exactly on a read error, and then no rows; otherwise the rows read |
| Images.MethodDispatch | api/images.js:13-20 | 200 with no body on OPTIONS, 405 on every method but GET |
| Images.ListingIsOrderedPermutation | api/images.js:24-33 | the listing of an existing table holds every row exactly once, newest first, without `needsInit` |
| Images.ErrorClassification | api/images.js:34-46 | a read error is a 200 with no rows and `needsInit` exactly when its message says "does not exist", else a 500 carrying the message |
| Images.MissingTableNeedsInit | api/images.js:38-44 | before initialisation the listing asks for it and is not an error |
| Images.ListingIdsUnique | api/images.js:24-33 | since the SERIAL key keeps ids unique (init-db.js:26), no listing holds two rows with the same id |
| Images.UploadedRowIsListed | api/images.js:24-33 | a row just inserted appears in the next listing |
| App.Urls | src/App.jsx:147 | one url per row, in row order |
| App.Fetch | src/App.jsx:134-162 | `fetchImages` from its three possible replies. Its contract: it sends one to three requests, GET first; POST init-db is sent exactly on a `needsInit` reply; the refetch happens exactly when the init POST did not throw. The lemmas below state which list it shows |
| App.NormalListingShown | src/App.jsx:147 | a normal listing shows its rows' urls after one request |
| App.NeedsInitRetriesOnce | src/App.jsx:139-145 | on `needsInit`, exactly one init POST and one refetch, whose urls are shown |
| App.FetchShowsServerOrFallback | src/App.jsx:134-162 | the list shown is a listing's urls or the fallback list; one to three requests are sent |
| App.FailureShowsFallback | src/App.jsx:149-158 | any throw on the path, and any reply without a list, shows the five fallback urls |
| App.UploadedUrl | src/App.jsx:193-197 | a reply appends something exactly when it is a delivered body with `success`: its url for an upload, `undefined` for the other success bodies |
| App.AppendedUrls | src/App.jsx:171-198 | the upload loop appends at most one url per reply |
| App.Attempted | src/App.jsx:171-200 | the loop sends at least one file and stops right after the first that throws |
| App.AppendedUrlsSnoc | src/App.jsx:195-198 | one more reply without a throw appends exactly its url on success and nothing otherwise |
| App.ThrowStopsUploads | src/App.jsx:200-202 | an exception keeps the urls appended before it and sends nothing after it |
| App.AllSentWithoutThrow | src/App.jsx:171-199 | with no exception every file is sent |
| App.UploadRequests | src/App.jsx:182-191 | one POST per file, carrying its data URL and name, in order |
| App.Page.constructor | src/App.jsx:125-127 | no images, loading, not uploading |
| App.Page.FetchImages | src/App.jsx:134-162 | the list and requests per `Fetch`; `loading` cleared on every path |
| App.Page.HandleUpload | src/App.jsx:164-206 | no files: no change. Otherwise successes appended in order up to the first throw, files sent up to and including it, alert exactly on a throw, `uploading` cleared |
| EndToEnd.FirstVisitShowsSamples | src/App.jsx:139-145 | on a deployment with no table the page sends GET, POST init-db, GET and shows exactly the five sample urls |
| EndToEnd.UploadedFilenameIsListed | api/upload.js:49-52 | an uploaded file's row is in the next listing under its file name and url |
| EndToEnd.UploadThenList | api/upload.js:31-57 | uploading `x.png` as a PNG data URL stores base64 text with type `image/png` and lists it under "x.png" |

## Left out

- Rendering is not modelled: the 3D scene, the CRT shader, render textures, fonts, the fullscreen view and the cursor drawing. Only the state they display is modelled.
- Scroll data is recorded by `CRTMonitor.Monitor.Wheel` only. The window receives it but never reads it.
- CORS headers are not modelled, because they are constant and affect no state.
- Base64 decoding (`Buffer.from(…, 'base64')`) is not modelled: the blob stores the stripped base64 text.
- The Postgres and blob-store libraries are abstract. Their failures are parameters, and the blob store picks the url.
- `Date.now()` and `NOW()` are a parameter. `uploaded_at` is that number.
- InitDb.SeededTable: all five sample rows get the same `now`. In the source each INSERT is its own statement, so Postgres gives each its own, later `NOW()`, and the real listing shows "Sample Image 5" first. In the model the samples tie and are listed in table order. No contract here states the listing order of the samples.
- FileReader, `fetch`, `console.error` and `alert` are not modelled. `alert` shows as the `alerted` result of `App.Page.HandleUpload`.
- Concurrency is not modelled: overlapping `fetchImages` or `handleUpload` calls, two init-db runs racing on an empty table, and two uploads with the same file name.
- JavaScript numbers are exact reals and unbounded integers here. Floating-point rounding at the edge of a hit disk or box is not modelled.
- Non-string JSON values for `image` or `filename`, and a missing request body, are not modelled.
- App.Page.HandleUpload: the intermediate `uploading == true` is not observable through the contract, because the method returns only after it is cleared.
- Store.SortByUploadedDesc: Postgres leaves the order of equal `uploaded_at` unspecified. The model's tie order keeps rows in table order, and the contracts state only newest-first and permutation.
- The remaining files of the repository (the room, the desk, the hero scene, the info card, the folder icon's drawing, the build configuration) are not part of this model.
