# Page conversion and request routing of the data-room application, in Dafny

This project models the document-processing core of a data-room application, a fork of Papermark. It models the following parts:

- **The internal page-conversion endpoint** (`pages/api/mupdf/convert-page.ts`). It turns one page of a stored PDF into one stored image and one page row. The steps are:
  - admit the request: POST only, bearer token equal to the internal API key;
  - download the PDF with up to three attempts. Before a retry it signs a fresh URL (when storage metadata is given), and it waits 1 s and then 2 s;
  - refuse content that does not start with `%PDF`;
  - open the document and the page, compute the page size in points, and reject a zero width or height;
  - record the version's orientation (page 1 only);
  - plan a raster scale that respects pixel ceilings;
  - refuse pages whose links contain a blocked keyword;
  - rasterise, with one fallback at a reduced scale;
  - keep the smaller of the PNG and JPEG encodings;
  - take the document id from the URL;
  - upload, with up to three attempts;
  - release the raster;
  - create the page row, or return the existing one.
- **The page-count endpoint** (`pages/api/mupdf/get-pages.ts`). It admits the request and downloads the same way, then answers with MuPDF's page count or with 500.
- **The edge middleware** (`middleware.ts`), the authentication redirects of application pages (`lib/middleware/app.ts`) and the webhook rewrite (`lib/middleware/incoming-webhooks.ts`).
- **Two plan-name rules:**
  - the browser-upload size limit and the endpoint's outcomes (`pages/api/file/browser-upload.ts`);
  - the conversion queue name (`lib/utils/trigger-utils.ts`).

The outside world is a set of explicit inputs:

| input | stands for |
|---|---|
| `net(k)` | what signing a URL and fetching it do at attempt `k` |
| `openPdf` and each page's `render` | MuPDF: the page list, the bounds, the links and the raster at a scale |
| `keywords` | the edge configuration's keyword list (None when reading it fails) |
| `put(k)` | the storage upload at attempt `k` |
| `PageStore.Database` | the two Prisma tables |
| the session token, the clock and the environment variables | themselves |

Delays are recorded in a trace, not slept.

Modules follow the sources:

| module | models |
|---|---|
| `Text` | string primitives of JavaScript |
| `UriComponent` | `encodeURIComponent` / `decodeURIComponent` |
| `RequestGate` | admission |
| `PdfFetch` and `Backoff` | the download loop, identical in both endpoints |
| `ScalePlanner` | `getOptimalScaleFactor` |
| `LinkScan` | the keyword scan |
| `Rendering` | the raster fallback and the format choice |
| `DocId` | the `docId` regular expression |
| `Upload` | the upload loop |
| `PageStore` | the page table and the version table |
| `ConvertPage` and `GetPages` | the two handlers |
| `EdgeMiddleware`, `AppAuth`, `IncomingWebhooks`, `BrowserUpload`, `TriggerUtils` | the other files |

The loops are modelled as loops:

- the download `for` loop (`PdfFetch.FetchWithRetry`);
- the upload `while` loop (`Upload.UploadWithRetry`);
- the early-return scan over links (`LinkScan.ScanLinks`).

Each is proved against a specification function or states its result outright. The database is a class whose methods are specified by functions on a `Store` value.

Behaviours of the code worth knowing:

- **Non-401/403 statuses are retried.** A reply that is neither ok nor 401/403 throws inside the attempt's `try`, and the `catch` retries it like 401/403. It is not fatal (`PdfFetch.BadStatusRetried`).
- **Backoff is 1 s, then 2 s.** The third delay of the "1 s, 2 s, 4 s" schedule is never taken, because no wait follows the last attempt (`PdfFetch.Waits`, `Upload.ExhaustedDelays`).
- **A tie picks JPEG.** When the two encodings have the same size, JPEG is chosen, not the lossless PNG (`Rendering.TieGivesJpeg`).
- **5000 × 5000 gives 1.1.** A 5000 × 5000 point page is rendered at scale 1.1. The area ceiling `sqrt(32e6 / 25e6) ≈ 1.13` binds before the side ceiling `8000 / 5000 = 1.6` (`ScalePlanner.SquarePosterScale`).
- **Orientation is written before the link scan.** The page-1 orientation is written before the scan and before the existing-row check. A blocked page 1 still records `isVertical` (`ConvertPage.Convert`).
- **Resources are released only when an upload returns.** Raster and page are released only after an upload returned (`ConvertPage.UploadAndSave`, field `released`). They are not released on the other fatal paths.
- **A redelivery re-renders and re-uploads.** For a page whose row exists, the existing row is returned and no second row is created (`PageStore.SaveIdempotent`).
- **An unset key admits header-less requests.** When the internal API key is not configured, a request with no `Authorization` header passes the token check: `undefined !== undefined` is false (`RequestGate.UnsetKeyAdmitsTokenless`).

## Model

| member | source | states |
|---|---|---|
| RequestGate.BearerToken | pages/api/mupdf/convert-page.ts:26-27 | the token is the text between the first and the second space of the header; absent exactly when the header is missing or has no space; it holds no space, follows a one-word scheme and its space, and ends at the end of the header or at the next space |
| RequestGate.Gate | pages/api/mupdf/convert-page.ts:20-33 | 405 exactly for a method other than POST; admitted exactly for POST with a token strictly equal to the configured key; 401 otherwise |
| RequestGate.BearerAdmitted | pages/api/mupdf/convert-page.ts:26-33 | `<scheme> <key>`, with anything after a further space, is admitted when the key is configured |
| RequestGate.WrongKeyRejected | pages/api/mupdf/convert-page.ts:30-33 | a POST whose token is not the configured key is refused with 401 |
| RequestGate.UnsetKeyAdmitsTokenless | pages/api/mupdf/convert-page.ts:27-30 | with no key configured, a header that is missing or has no space is admitted |
| RequestGate.MethodBeforeToken | pages/api/mupdf/get-pages.ts:9-22 | any non-POST request gets 405 before the token is looked at |
| Backoff.Pow2 | pages/api/mupdf/convert-page.ts:120 | `Math.pow(2, n)`: 1 for `n = 0`, each step doubles, and it exceeds `n` |
| Backoff.BackoffMs | pages/api/mupdf/convert-page.ts:120 | the delay `2^n * 1000` ms is at least one second |
| Backoff.BackoffDoubles | pages/api/mupdf/convert-page.ts:120 | each delay is twice the one before |
| Backoff.FirstDelays | pages/api/mupdf/convert-page.ts:119-123 | the first two delays are 1000 and 2000 ms |
| PdfFetch.ReplyOutcome | pages/api/mupdf/convert-page.ts:106-129 | a reply succeeds exactly when `response.ok` (200-299); otherwise it fails as 401/403 or as another status, keeping the status |
| PdfFetch.AttemptAt | pages/api/mupdf/convert-page.ts:66-140 | attempt `k` re-signs exactly when `k > 0` and both storage type and file key are set; unsigned attempts request the given URL; a signing or network exception fails the attempt; the wait after it is 2^k s only after a failure with `k < 2`, else 0 |
| PdfFetch.TryAttempt | pages/api/mupdf/convert-page.ts:66-140 | one pass of the loop body is the attempt `AttemptAt` describes; it downloads exactly when a reply arrived and was ok, and then keeps that reply's body |
| PdfFetch.FetchWithRetry | pages/api/mupdf/convert-page.ts:62-155 | the loop's attempts are exactly `Attempts(src, net, 0)` and its result is `Fetch(src, net)`: the body of the ok reply or the last attempt's error |
| PdfFetch.AttemptsFrom | pages/api/mupdf/convert-page.ts:66-141 | from attempt `k` the loop makes at most `3 - k` attempts, each as `AttemptAt` describes it; all but the last failed; stopping early means the last one downloaded |
| PdfFetch.AttemptsShape | pages/api/mupdf/get-pages.ts:36-99 | one to three attempts; all but the last failed; fewer than three only when the last one got an ok reply |
| PdfFetch.FirstAttemptUsesUrl | pages/api/mupdf/get-pages.ts:40 | the first attempt requests the URL as given, without re-signing |
| PdfFetch.RegenerationRule | pages/api/mupdf/get-pages.ts:42-56 | attempt `i` re-signs exactly when `i > 0` and storage type and file key are both set; without them every attempt requests the given URL |
| PdfFetch.Waits | pages/api/mupdf/get-pages.ts:78-82 | the waits are 1000 ms after a failed first attempt and 2000 ms after a failed second one; none after the last attempt or after a download |
| PdfFetch.FailureRetried | pages/api/mupdf/get-pages.ts:89-98 | any failed attempt other than the third is followed by another attempt |
| PdfFetch.BadStatusRetried | pages/api/mupdf/convert-page.ts:127-140 | a first reply with a status other than ok, 401 and 403 is retried after 1000 ms, as a bad-status failure |
| PdfFetch.OnlyThreeAttempts | pages/api/mupdf/convert-page.ts:64-66 | what the outside world would do at a fourth attempt never matters |
| PdfFetch.DownloadedIffSomeAttemptOk | pages/api/mupdf/convert-page.ts:143-155 | the download succeeds exactly when one of the three attempts gets an ok reply, and the body is that of the first such reply |
| ScalePlanner.BaselineScale | pages/api/mupdf/convert-page.ts:233 | the baseline is 2 exactly when the width is at least 1600, and 2.95 otherwise |
| ScalePlanner.FloorSqrt | pages/api/mupdf/convert-page.ts:249 | the integer square root: the natural `r` with `r² <= y < (r+1)²` |
| ScalePlanner.CeilingsMonotone | pages/api/mupdf/convert-page.ts:241-245 | every non-negative scale below one that keeps the three pixel ceilings keeps them too |
| ScalePlanner.CeilingTenths | pages/api/mupdf/convert-page.ts:247-258 | the number of tenths kept by flooring the reduced scale: that many tenths keep all ceilings, one more tenth breaks one |
| ScalePlanner.OptimalScaleFactor | pages/api/mupdf/convert-page.ts:226-266 | the scale is between 1 and the baseline, never exactly 3; the baseline is kept when it keeps the ceilings; otherwise the result is 1 or keeps all three ceilings |
| ScalePlanner.ScaleMatchesSqrtFormula | pages/api/mupdf/convert-page.ts:241-258 | for any `r >= 0` with `r² = 32e6 / (w·h)` (the value of `Math.sqrt`), the scale is the baseline when it fits and otherwise `max(1, floor(10·min(8000/w, 8000/h, r)) / 10)` |
| ScalePlanner.SqrtTenths | pages/api/mupdf/convert-page.ts:249-258 | flooring ten times the area ceiling gives the integer square root used in the model |
| ScalePlanner.FloorOfMin | pages/api/mupdf/convert-page.ts:251-258 | the floor of the minimum of three ceilings is the minimum of their floors |
| ScalePlanner.ReducedScaleIsLargestTenth | pages/api/mupdf/convert-page.ts:241-258 | for an oversized page, every multiple of a tenth above the result breaks a ceiling |
| ScalePlanner.OversizedPageAtScaleOne | pages/api/mupdf/convert-page.ts:257-258 | a page wider than 8000 points is rendered at scale 1 although even that breaks the side ceiling |
| ScalePlanner.SmallPageBaseline | pages/api/mupdf/convert-page.ts:233-245 | a 600 × 800 point page keeps the baseline 2.95 |
| ScalePlanner.SquarePosterScale | pages/api/mupdf/convert-page.ts:241-258 | a 5000 × 5000 point page is rendered at 1.1 |
| ConvertPage.PageSize | pages/api/mupdf/convert-page.ts:197-201 | width and height are the absolute differences of the bounds' x and y coordinates |
| ConvertPage.OpenPage | pages/api/mupdf/convert-page.ts:162-208 | content that does not start with `%PDF` (a body shorter than four bytes included) is refused before MuPDF opens it; a document MuPDF cannot open and a page number outside 1..pages fail; the page is `pages[pageNumber - 1]`, with its size, and a zero width or height fails |
| ConvertPage.HeaderCheckedFirst | pages/api/mupdf/convert-page.ts:164-184 | fewer than four bytes, or a first byte other than `%`, is refused as not a PDF whatever MuPDF would do |
| ConvertPage.PageZeroNotFound | pages/api/mupdf/convert-page.ts:194 | page number 0 asks for page index -1, which MuPDF does not have |
| ConvertPage.PageSizeSymmetric | pages/api/mupdf/convert-page.ts:197-201 | the size does not depend on which corner the bounds give first |
| ConvertPage.UploadFor | pages/api/mupdf/convert-page.ts:446-456 | the upload carries the name `page-<number>.<format>`, the chosen image's bytes, type `image/<format>`, the team and the document id the URL yields |
| ConvertPage.FileName | pages/api/mupdf/convert-page.ts:449 | the name is `page-`, the page number's decimal digits (they read back as the page number) and `.<format>` |
| ConvertPage.FileNameInjective | pages/api/mupdf/convert-page.ts:449 | two different pages of the same format are uploaded under different names |
| ConvertPage.FirstPagePngName | pages/api/mupdf/convert-page.ts:450-451 | page 1 as PNG is uploaded as `page-1.png` with type `image/png` |
| ConvertPage.Convert | pages/api/mupdf/convert-page.ts:18-523 | 405 and 401 exactly as the gate says, with nothing done; the attempts made are those of the download loop, which fails exactly when it is exhausted, and nothing else happens before a download; from the downloaded bytes on, `DownloadedOutcome`: a page that does not load is answered with its exception; for page 1 the orientation `height > width` is written once the page is loaded (a blocked page included), and a missing version throws; nothing is scanned, rendered or uploaded before the page is loaded; from the loaded page on, `LoadedOutcome` holds (scan, raster, upload and save); raster and page are released exactly when an upload returned; no row changes unless the answer is a row; an existing row is answered unchanged; otherwise exactly one row is added under the key, with the next id, the upload's `data` and `type`, the page's links and the metadata of the last raster |
| ConvertPage.ConvertDownloaded | pages/api/mupdf/convert-page.ts:162-513 | `DownloadedOutcome` for the given bytes, as `Convert` states it after a download |
| ConvertPage.ConvertLoadedPage | pages/api/mupdf/convert-page.ts:268-513 | `LoadedOutcome`: the keyword list is read exactly when the page has links; 400 exactly when the scan blocks a link, reporting the first blocked link and its first keyword, with nothing rendered, uploaded, released or saved; otherwise the raster at the planned scale and, only when that throws, at the reduced one; `RasterFailed` exactly when the last raster threw; otherwise the upload and the save of `UploadOutcome` for the smaller encoding, the page's links and the last raster's metadata; the versions do not change |
| ConvertPage.UploadAndSave | pages/api/mupdf/convert-page.ts:439-513 | `UploadOutcome`: the upload request for the chosen image; one to three calls, the earlier ones threw, `attempts - 1` waits of `2^k` s; the trace keeps the last reply; released exactly when a call returned; then `SaveOutcome`: three throws fail the page, a reply without `data` or `type` throws, otherwise the new store is that of `Save` and the answer is `Save`'s row; an existing row is answered unchanged; otherwise exactly one row is added with the next id and `file: data`, `storageType: type`, the links and the metadata |
| ConvertPage.SaveOutcomeRows | pages/api/mupdf/convert-page.ts:470-509 | what `SaveOutcome` means for the rows: the store stays well formed and keeps its versions; nothing changes unless the answer is a row; the save fails exactly when row and version are both missing; an existing row is answered as it is; otherwise exactly one row is added, with a fresh id and the upload's reply, the links and the metadata as its columns |
| ConvertPage.LoadedOutcomeRows | pages/api/mupdf/convert-page.ts:268-513 | after `LoadedOutcome`, raster and page are released exactly when an upload returned, and the rows are as `SaveOutcomeRows` states them, with the page's links and the last raster's metadata in a new row |
| ConvertPage.Status | pages/api/mupdf/convert-page.ts:21-513 | 405 exactly for a refused method, 401 exactly for a refused token, 400 exactly for a blocked page, 200 exactly for a converted one, 500 exactly for a rethrown exception |
| LinkScan.FindKeyword | pages/api/mupdf/convert-page.ts:290-293 | the first string keyword, in list order, that occurs in the URL; absent exactly when none does |
| LinkScan.ScanLinks | pages/api/mupdf/convert-page.ts:284-318 | blocked exactly when there are links, the keyword list was read and is a non-empty array, and some link is blocked; then the first blocked link in order, with its first matching keyword; a failed read of the list lets the page through |
| LinkScan.EmptyKeywordMasks | pages/api/mupdf/convert-page.ts:290-295 | an empty-string first keyword matches every URL and, being falsy, blocks nothing |
| LinkScan.FirstKeywordBlocks | pages/api/mupdf/convert-page.ts:289-295 | a non-empty keyword found in a link's URL blocks it, reported as that keyword, when no earlier entry matches |
| LinkScan.NonStringsIgnored | pages/api/mupdf/convert-page.ts:292 | an entry that is not a string never matches |
| LinkScan.NoTargetNeverBlocks | pages/api/mupdf/convert-page.ts:289 | a link without a URL, or with an empty one, is skipped |
| Rendering.ReducedScale | pages/api/mupdf/convert-page.ts:370 | the fallback scale `max(1, s/2)` is at least 1, at most `s` for `s >= 1`, and 1 for `s <= 2` |
| Rendering.RenderPage | pages/api/mupdf/convert-page.ts:321-393 | the raster is tried at the planned scale and, only if that throws, at the reduced one; the raster is that of the last scale tried; the metadata records the original size, the last scale and the size at that scale |
| Rendering.ChooseEncoding | pages/api/mupdf/convert-page.ts:401-418 | PNG exactly when it is strictly smaller than JPEG; the chosen bytes are that encoding's and no larger than either |
| Rendering.TieGivesJpeg | pages/api/mupdf/convert-page.ts:412-418 | encodings of equal size give JPEG |
| Rendering.RenderedScaleBounds | pages/api/mupdf/convert-page.ts:368-388 | whichever attempt succeeds, the scale used is between 1 and the planned one; for a planned scale of at most 2 the fallback scale is 1 |
| Rendering.NarrowFallback | pages/api/mupdf/convert-page.ts:370 | the fallback for the baseline 2.95 is 1.475 |
| DocId.SlashFreeRun | pages/api/mupdf/convert-page.ts:427 | the maximal run of characters other than `/` from a position, which is what the greedy `[^/]+` takes |
| DocId.ExtractDocId | pages/api/mupdf/convert-page.ts:427-428 | the group of the leftmost match of `doc_[^/]+/`: it starts with `doc_`, is longer than it and holds no `/`; absent exactly when the pattern matches nowhere |
| DocId.ExtractAfterPlainPrefix | pages/api/mupdf/convert-page.ts:427-428 | in a URL whose text before `doc_<id>/` has no underscore, the document id is `doc_<id>` |
| DocId.NoMatchInPlainPrefix | pages/api/mupdf/convert-page.ts:427 | `doc_` cannot start inside text without underscores that precedes a `doc_` |
| DocId.RunUpToSlash | pages/api/mupdf/convert-page.ts:427 | the run ends at the first `/` |
| DocId.NoTrailingSlashNoId | pages/api/mupdf/convert-page.ts:427-428 | a `doc_` segment not followed by `/` gives no match from there on |
| Upload.UploadWithRetry | pages/api/mupdf/convert-page.ts:439-468 | one to three attempts, stopping at the first that returns; the earlier ones threw; absent only after three throws; `attempts - 1` waits, the k-th being `2^k` s |
| Upload.ExhaustedDelays | pages/api/mupdf/convert-page.ts:462-466 | three attempts wait 1000 and then 2000 ms |
| Text.SplitHead | lib/utils/trigger-utils.ts:6 | `split(sep)[0]`: a prefix of the string without `sep`, ending at the first `sep` or at the end |
| Text.SplitSecond | pages/api/mupdf/convert-page.ts:27 | `split(sep)[1]`: absent exactly when `sep` does not occur; otherwise the `sep`-free field that follows the head and the first `sep` and runs to the next `sep` or the end of the string |
| Text.ReplaceFirst | pages/api/file/browser-upload.ts:50 | `replace` with a string pattern: unchanged without an occurrence; otherwise the first occurrence is replaced, and the length changes by the difference of the two lengths |
| Text.NatToDecimal | pages/api/mupdf/convert-page.ts:450 | the page number in the file name is written in decimal digits without leading zeros |
| Text.DecimalRoundTrip | pages/api/mupdf/convert-page.ts:450 | the decimal digits read back to the number |
| PageStore.SetOrientation | pages/api/mupdf/convert-page.ts:219-222 | the update succeeds exactly for an existing version; it sets that version's flag and keeps the other versions, the page rows and the next id |
| PageStore.Create | pages/api/mupdf/convert-page.ts:497-506 | a row is created exactly when the key is free and the version exists: the row under the next id, added under the key, the next id moved on; otherwise the store is unchanged |
| PageStore.Save | pages/api/mupdf/convert-page.ts:486-509 | an existing row is returned with the store unchanged; otherwise `Create`; a row comes back exactly when the key is taken or the version exists |
| PageStore.SetOrientationPreserves | pages/api/mupdf/convert-page.ts:215-223 | the orientation update succeeds exactly for an existing version and sets its flag, touching no page row and keeping the store well formed |
| PageStore.SavePreserves | pages/api/mupdf/convert-page.ts:483-509 | check-then-create keeps the store well formed; it succeeds exactly when the row exists or the version does; its row is the one then under the key; an existing row leaves the store unchanged; no other key's row changes |
| PageStore.SaveIdempotent | pages/api/mupdf/convert-page.ts:486-509 | saving the same key again returns the row saved first and changes nothing, so a redelivery creates no duplicate |
| PageStore.FreshId | pages/api/mupdf/convert-page.ts:495-506 | a created row's id differs from every existing one |
| PageStore.Database.UpdateVersionOrientation | pages/api/mupdf/convert-page.ts:219-222 | sets `isVertical` of an existing version as `SetOrientation` says; fails and changes nothing when the version is missing |
| PageStore.Database.FindPage | pages/api/mupdf/convert-page.ts:486-493 | the row under the unique key, absent exactly when there is none |
| PageStore.Database.CreatePage | pages/api/mupdf/convert-page.ts:497-506 | the new state and row are those of `Create`: a fresh id, or a failure on a taken key or a missing version |
| PageStore.Database.SavePage | pages/api/mupdf/convert-page.ts:483-509 | the new state and row are those of `Save`: the existing row if any, a created one otherwise |
| GetPages.GetPages | pages/api/mupdf/get-pages.ts:7-123 | 405 exactly for a method other than POST, and 401 exactly for a token mismatch, before any download; otherwise the attempts are those of the download loop; 200 with MuPDF's count exactly when the download succeeded and counting did not throw; 500 exactly when the download was exhausted or counting threw |
| GetPages.Status | pages/api/mupdf/get-pages.ts:10-121 | 405 exactly for a refused method, 401 exactly for a refused token, 200 exactly for a page count, 500 exactly for an internal error |
| EdgeMiddleware.IsAnalyticsPath | middleware.ts:12-19 | `^/ingest/.*` matches exactly when the path is `/ingest/` followed by anything |
| EdgeMiddleware.IsCustomDomain | middleware.ts:22-35 | in development a custom domain is a host containing `.local`; elsewhere it is any host that contains neither `localhost` nor `cscale.io` and does not end with `.vercel.app` |
| EdgeMiddleware.Middleware | middleware.ts:51-102 | analytics exactly for an `/ingest/` path; then the webhook host; then a custom domain; then the application pages (not `/view/`, `/verify`, `/unsubscribe`), decided by `AppMiddleware`; then 404 for a `/view/` path with a dot or a blocked name; everything else passes through |
| EdgeMiddleware.AnalyticsFirst | middleware.ts:63-66 | an `/ingest/` path goes to analytics on every host |
| EdgeMiddleware.LocalhostNotCustom | middleware.ts:22-35 | a host containing `localhost` and no dot is never custom, in development or not |
| EdgeMiddleware.OwnDomainNotCustom | middleware.ts:28-33 | outside development, a host starting with `cscale.io` or ending with `.vercel.app` is not custom |
| EdgeMiddleware.VerifyPassesThrough | middleware.ts:81-101 | a `/verify` or `/unsubscribe` path reaching the path tests passes through |
| EdgeMiddleware.ViewPathWithDotNotFound | middleware.ts:91-99 | a `/view/` path with a dot is rewritten to 404 |
| IncomingWebhooks.WebhookRewrite | lib/middleware/incoming-webhooks.ts:3-23 | a `/services/` path is rewritten, with no status, to a path that starts with `/api/webhooks/services/`, ends with the original path and is `/api/webhooks` followed by it; any other path becomes `/404` with status 404 |
| IncomingWebhooks.WebhookRewriteInjective | lib/middleware/incoming-webhooks.ts:12 | different service paths are rewritten to different paths |
| IncomingWebhooks.IsWebhookPath | lib/middleware/incoming-webhooks.ts:25-35 | false when the webhook host is unset or empty; otherwise true exactly when the host equals it |
| AppAuth.GetParam | lib/middleware/app.ts:64 | `searchParams.get`: the first value of the name, absent exactly when no parameter has it |
| AppAuth.NextParam | lib/middleware/app.ts:41-47 | `next` is omitted exactly for `/`; otherwise it decodes back to the page asked for: the path, with its query string for `/auth/confirm-email-change` |
| AppAuth.LoginTarget | lib/middleware/app.ts:64 | the first `next` value when it is non-empty; `/dashboard` when it is absent or empty; never empty |
| AppAuth.AppMiddleware | lib/middleware/app.ts:7-73 | to login exactly when there is no email and the path is not `/login`; to the welcome page exactly for a new user (created under 10 s ago) not on `/welcome` and not invited; for a signed-in user on `/login`, to the decoded `next` target, or the decode error; everything else passes through |
| AppAuth.DecodePlain | lib/middleware/app.ts:67 | a string without `%` decodes to itself |
| AppAuth.LoginDefaultsToDashboard | lib/middleware/app.ts:63-69 | a signed-in login without `next` goes to `/dashboard` |
| AppAuth.LoginRoundTrip | lib/middleware/app.ts:42-69 | the page a signed-out request asked for is the page the later signed-in login redirects to |
| AppAuth.WelcomeBeforeLogin | lib/middleware/app.ts:52-63 | the welcome rule precedes the login rule |
| AppAuth.SignedOutLoginPassesThrough | lib/middleware/app.ts:38-72 | a signed-out request for `/login` passes through |
| UriComponent.Encode | lib/middleware/app.ts:46 | `encodeURIComponent`: at least as long as its input |
| UriComponent.Decode | lib/middleware/app.ts:67 | `decodeURIComponent`: it fails only on a string holding `%`, and the decoded string is never longer than its input |
| UriComponent.DecodeEncode | lib/middleware/app.ts:46-67 | decoding the encoding of any string gives the string back |
| UriComponent.DecodeEncodedChar | lib/middleware/app.ts:46-67 | decoding the escapes of one character yields it and goes on after them |
| UriComponent.Utf8RoundTrip | lib/middleware/app.ts:46-67 | the UTF-8 octets of a character decode to it |
| UriComponent.EncodeUnreserved | lib/middleware/app.ts:46 | unreserved characters are left as they are |
| UriComponent.EncodeNonEmpty | lib/middleware/app.ts:46 | a non-empty path gives a non-empty `next` |
| BrowserUpload.StrippedPlan | pages/api/file/browser-upload.ts:50 | absent exactly without a team; a plan without `+old` is kept as it is; otherwise exactly its first `+old` is cut out |
| BrowserUpload.MaxUploadSize | pages/api/file/browser-upload.ts:49-56 | 100 MiB exactly when the plan, with its first `+old` removed, is `business`, `datarooms` or `datarooms-plus`; 30 MiB otherwise |
| BrowserUpload.NoTeamDefault | pages/api/file/browser-upload.ts:49-51 | without a team the limit is 30 MiB |
| BrowserUpload.PlusFreeWithoutOld | pages/api/file/browser-upload.ts:50 | a plan without `+` is not changed by removing `+old` |
| BrowserUpload.LegacyPlanSameLimit | pages/api/file/browser-upload.ts:50-56 | `<plan>+old` has the limit of `<plan>` |
| BrowserUpload.DoubleOldNotLarge | pages/api/file/browser-upload.ts:50 | only the first `+old` is removed, so a doubled suffix falls back to 30 MiB |
| BrowserUpload.OnBeforeGenerateToken | pages/api/file/browser-upload.ts:23-68 | no session exactly gives the unauthorised outcome; token options are issued exactly when there is a session and the team lookup did not fail, and carry the random suffix, the user id and the plan's limit; a failed lookup throws its own message |
| BrowserUpload.Handle | pages/api/file/browser-upload.ts:12-92 | 401 exactly for a token request without a session; a token is issued exactly when the callback issues one and `handleUpload` throws nothing; a completion is acknowledged exactly when `handleUpload` throws nothing; a failed team lookup is a 400 with its message, and any other error `handleUpload` throws is a 400 with that message |
| TriggerUtils.ConversionQueue | lib/utils/trigger-utils.ts:5-8 | `conversion-` followed by the plan's text before its first `+`, which holds no `+` |
| TriggerUtils.PlainPlanQueue | lib/utils/trigger-utils.ts:6-7 | a plan without `+` gives `conversion-<plan>` |
| TriggerUtils.SuffixIgnored | lib/utils/trigger-utils.ts:6 | anything after the first `+` does not change the queue |
| TriggerUtils.LegacyBusinessQueue | lib/utils/trigger-utils.ts:5-8 | `business+old` gives `conversion-business` |

## Left out

- MuPDF is not modelled. `PDFDocument`, `loadPage`, `getBounds`, `getLinks`, `toPixmap`, `asPNG`, `asJPEG` and `countPages` are a native library. They are inputs: a parse function, pages with bounds, links and a raster per scale, and a page count.
- The network is not modelled. `fetch`, `getFile`, `putFileServer` and the edge configuration `get("keywords")` are inputs indexed by attempt.
- Some MuPDF and network exceptions are not modelled. `asPNG()` and `asJPEG()` throwing, which the source sends straight to the outer `catch` with no fallback, cannot happen in the model: a raster always holds both encodings, and `render` returning None stands only for `toPixmap` throwing. `response.arrayBuffer()` throwing after an ok reply, and `getLinks`, `getURI` or `getBounds` throwing, are not modelled either: the body, the links and the bounds are given values. Each of these ends in the outer `catch`, that is, in status 500.
- Sleeps are not modelled. `setTimeout` delays are recorded values in the trace.
- Response bodies and headers of failed downloads are left out. The error text (`response.text()`, `statusText`) and the `content-type` in thrown messages are not modelled, so a failure keeps only its kind and status.
- Logging is left out. `console.*`, `log` and `waitUntil` are fire-and-forget side effects.
- Prisma is reduced to two maps. Ids are natural numbers handed out in order, not cuids. The race between `findUnique` and `create` of two concurrent invocations is concurrency, and each invocation is modelled alone. A unique-key violation on create exists in the model but cannot happen within one invocation.
- Floating point is not modelled. `Math.floor(x * 10) / 10`, `Math.sqrt`, `Math.abs` and the products of sizes and scales are over mathematical reals. NaN bounds and a non-integer `pageNumber` are not modelled.
- `Math.sqrt` is not a function of the model. `ScalePlanner.OptimalScaleFactor` uses an integer square root of `100 · 32e6 / (w·h)`, and `ScalePlanner.ScaleMatchesSqrtFormula` proves that this equals the source's formula for every `r >= 0` with `r² = 32e6 / (w·h)`.
- The memory estimate and the high-memory warning are left out. They only log.
- Freeing the encoding buffers is modelled only as the `released` flag of the trace.
- The outer `catch` and its rethrow become the response `Thrown`. The framework's 500 for it is the status mapping, not a model of Next.js.
- The request body is read outside the `try` in convert-page. A missing body, which throws there, is not modelled: the body's fields are inputs.
- The stored `pageLinks` is the list of links as MuPDF gives them. The join of the link bounds into a comma-separated string is taken as given text.
- The authentication library is not modelled. `getToken`, `getServerSession` and the session cookie are inputs: a token with email and creation time, and a session.
- `handleUpload` is reduced to its two request kinds and an optional error of its own. `onUploadCompleted` has an empty body and is modelled as nothing more than the acknowledgement.
- `URL` resolution and `URLSearchParams` serialisation of redirects are left out. A redirect carries its decoded target or the `next` value. The query string is taken as already parsed into ordered (name, value) pairs, so the extra encoding that `searchParams.set` applies to `next`, and its inverse in `searchParams.get`, are not modelled.
- `BLOCKED_PATHNAMES` and `SUPPORTED_DOCUMENT_MIME_TYPES` are constants defined outside the core. The first is an input; the second is not part of this model.
- The PostHog and domain middlewares are handlers outside the core. They appear only as the routes `Analytics` and `CustomDomain`.
- The Next.js route matcher is not modelled. Requests are assumed to reach the middleware.
- The tinybird, resend, email, `_app` and layout files are left out. They are schema declarations, SDK wrappers and UI composition.
