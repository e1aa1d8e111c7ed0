/**
 * The page conversion endpoint (pages/api/mupdf/convert-page.ts): one page
 * of an uploaded PDF becomes one stored image and one page row.  In order:
 * admission, download with retries, PDF header check, opening the document
 * and the page, the page's size, the orientation of the version (page 1
 * only), the scale, the blocked-keyword scan of the links, rasterising with
 * one fallback, choosing PNG or JPEG, the upload with retries, releasing
 * the raster, and the check-then-create of the page row.
 *
 * The outside world is the environment: the configured API key, the
 * network, MuPDF (`openPdf` and the pages it yields), the edge
 * configuration's keyword list and the storage upload.  An exception the
 * handler rethrows is the response `Thrown`; the framework answers it with
 * status 500.
 */
module ConvertPage {
  import opened Text
  import RequestGate
  import PdfFetch
  import ScalePlanner
  import LinkScan
  import Rendering
  import DocId
  import Upload
  import Backoff
  import PageStore

  /** `%PDF`, the first four bytes of every PDF file. */
  const PdfMagic: seq<Byte> := [0x25, 0x50, 0x44, 0x46]

  /** The request: method, `Authorization` header and the JSON body's fields. */
  datatype Request = Request(
    verb: string,
    authorization: Option<string>,
    documentVersionId: string,
    pageNumber: int,
    url: string,
    teamId: string,
    storageType: Option<string>,
    fileKey: Option<string>)

  /** `page.getBounds()`: the upper-left and lower-right corners. */
  datatype Bounds = Bounds(ulx: real, uly: real, lrx: real, lry: real)

  /** A page as MuPDF presents it: bounds, links, and its raster at a scale (None: `toPixmap` throws). */
  datatype PdfPage = PdfPage(bounds: Bounds, links: seq<LinkScan.Link>, render: real -> Option<Rendering.Pixmap>)

  datatype PdfDocument = PdfDocument(pages: seq<PdfPage>)

  datatype Env = Env(
    apiKey: Option<string>,
    net: nat -> PdfFetch.AttemptOracle,
    openPdf: seq<Byte> -> Option<PdfDocument>,
    keywords: Option<LinkScan.KeywordsValue>,
    put: nat -> Option<Upload.Stored>)

  /** The exceptions the handler rethrows. */
  datatype Failure =
    | FetchFailed(lastError: PdfFetch.FetchError)
    | NotPdf
    | OpenFailed
    | PageNotFound
    | InvalidDimensions
    | VersionNotFound
    | RasterFailed
    | UploadFailed
    | UploadIncomplete
    | SaveFailed

  datatype Response =
    | MethodNotAllowed
    | Unauthorized
    | ProcessingBlocked(matchedUrl: string, matchedKeyword: string, pageNumber: int)
    | Converted(documentPageId: nat)
    | Thrown(failure: Failure)

  /** The HTTP status each response is sent with. */
  function Status(r: Response): (status: nat)
    ensures status == 200 <==> r.Converted?
    ensures status == 400 <==> r.ProcessingBlocked?
    ensures status == 500 <==> r.Thrown?
    ensures status == 405 <==> r.MethodNotAllowed?
    ensures status == 401 <==> r.Unauthorized?
  {
    match r
    case MethodNotAllowed => 405
    case Unauthorized => 401
    case ProcessingBlocked(_, _, _) => 400
    case Converted(_) => 200
    case Thrown(_) => 500
  }

  /**
   * What the handler did on the way: the download attempts, the page's size
   * in points, whether the keyword list was read, the scales rasterised at,
   * the upload request with its attempts, delays and the last call's reply,
   * and whether the raster and the page were released.
   */
  datatype Trace = Trace(
    fetch: seq<PdfFetch.Attempt>,
    pageSize: Option<(real, real)>,
    keywordsRead: bool,
    renderScales: seq<real>,
    upload: Option<Upload.UploadRequest>,
    uploadAttempts: nat,
    uploadWaits: seq<nat>,
    stored: Option<Upload.Stored>,
    released: bool)

  const NoTrace: Trace := Trace([], None, false, [], None, 0, [], None, false)

  function Source(req: Request): PdfFetch.Source {
    PdfFetch.Source(req.url, req.storageType, req.fileKey)
  }

  function Key(req: Request): PageStore.PageKey {
    PageStore.PageKey(req.pageNumber, req.documentVersionId)
  }

  predicate Admitted(req: Request, env: Env) {
    RequestGate.Gate(req.verb, req.authorization, env.apiKey).Admitted?
  }

  /** The first four bytes spell `%PDF`. */
  predicate HasPdfHeader(body: seq<Byte>) {
    |body| >= 4 && body[..4] == PdfMagic
  }

  function Abs(x: real): real {
    if x < 0.0 then -x else x
  }

  /** The page's width and height in points: `Math.abs(lrx - ulx)` and `Math.abs(lry - uly)`. */
  function PageSize(b: Bounds): (size: (real, real))
    ensures size.0 >= 0.0 && size.1 >= 0.0
    ensures size.0 == b.lrx - b.ulx || size.0 == b.ulx - b.lrx
    ensures size.1 == b.lry - b.uly || size.1 == b.uly - b.lry
  {
    (Abs(b.lrx - b.ulx), Abs(b.lry - b.uly))
  }

  /** The page opened, with its size, or the exception that stopped the opening. */
  datatype Loaded = PageReady(page: PdfPage, width: real, height: real) | LoadFailed(failure: Failure)

  /**
   * From the downloaded bytes to the page: the header check, MuPDF's
   * parse, `loadPage(pageNumber - 1)` (which throws outside the document)
   * and the rejection of a zero width or height.
   */
  function OpenPage(body: seq<Byte>, pageNumber: int, openPdf: seq<Byte> -> Option<PdfDocument>): (r: Loaded)
    ensures r == LoadFailed(NotPdf) <==> !HasPdfHeader(body)
    ensures r == LoadFailed(OpenFailed) <==> HasPdfHeader(body) && openPdf(body).None?
    ensures r == LoadFailed(PageNotFound) <==>
      HasPdfHeader(body) && openPdf(body).Some? && !(1 <= pageNumber <= |openPdf(body).value.pages|)
    ensures r.LoadFailed? ==> r.failure in {NotPdf, OpenFailed, PageNotFound, InvalidDimensions}
    ensures r.PageReady? ==>
      && HasPdfHeader(body) && openPdf(body).Some?
      && 1 <= pageNumber <= |openPdf(body).value.pages|
      && r.page == openPdf(body).value.pages[pageNumber - 1]
      && (r.width, r.height) == PageSize(r.page.bounds)
      && r.width > 0.0 && r.height > 0.0
    ensures r == LoadFailed(InvalidDimensions) ==>
      var size := PageSize(openPdf(body).value.pages[pageNumber - 1].bounds);
      size.0 == 0.0 || size.1 == 0.0
  {
    if !HasPdfHeader(body) then LoadFailed(NotPdf)
    else match openPdf(body)
      case None => LoadFailed(OpenFailed)
      case Some(doc) =>
        if !(1 <= pageNumber <= |doc.pages|) then LoadFailed(PageNotFound)
        else
          var page := doc.pages[pageNumber - 1];
          var (w, h) := PageSize(page.bounds);
          if w <= 0.0 || h <= 0.0 then LoadFailed(InvalidDimensions)
          else PageReady(page, w, h)
  }

  /**
   * `page-<number>.<format>`, the name of the uploaded image: the page number
   * can be read back from the digits between `page-` and the extension.
   */
  function FileName(pageNumber: nat, format: Rendering.Format): (name: string)
    ensures var k := |name| - |Rendering.FormatName(format)| - 1;
      && 5 < k
      && name[..5] == "page-"
      && IsDigits(name[5..k])
      && DecimalValue(name[5..k]) == pageNumber
      && name[k..] == "." + Rendering.FormatName(format)
  {
    var digits, ext := NatToDecimal(pageNumber), Rendering.FormatName(format);
    DecimalRoundTrip(pageNumber);
    TemplateParts("page-", digits, "." + ext);
    assert "page-" + digits + "." + ext == "page-" + digits + ("." + ext);
    "page-" + digits + "." + ext
  }

  /** The three parts of a concatenation are its slices at their lengths. */
  lemma TemplateParts(prefix: string, middle: string, suffix: string)
    ensures var name := prefix + middle + suffix;
      && name[..|prefix|] == prefix
      && name[|prefix|..|prefix| + |middle|] == middle
      && name[|prefix| + |middle|..] == suffix
  {
  }

  /** Different pages are uploaded under different names. */
  lemma FileNameInjective(p: nat, q: nat, format: Rendering.Format)
    requires p != q
    ensures FileName(p, format) != FileName(q, format)
  {
  }

  /** The upload request for the chosen image. */
  function UploadFor(req: Request, pageNumber: nat, image: Rendering.Image): (u: Upload.UploadRequest)
    ensures u.bytes == image.bytes && u.teamId == req.teamId
    ensures u.docId == DocId.ExtractDocId(req.url)
    ensures u.contentType == "image/" + Rendering.FormatName(image.format)
    ensures u.name == "page-" + NatToDecimal(pageNumber) + "." + Rendering.FormatName(image.format)
  {
    var format := Rendering.FormatName(image.format);
    Upload.UploadRequest(FileName(pageNumber, image.format), "image/" + format, image.bytes, req.teamId, DocId.ExtractDocId(req.url))
  }

  /**
   * The page row the handler creates after an upload that returned
   * `stored`: `file: data`, `storageType: type`, the page's links and the
   * metadata.
   */
  function RowContent(stored: Upload.Stored, links: seq<LinkScan.Link>, metadata: Rendering.PageMetadata): PageStore.NewPage
    requires Upload.Usable(stored)
  {
    PageStore.NewPage(stored.data.value, stored.storageType.value, links, metadata)
  }

  /**
   * The handler's end once the upload loop returned `stored`: when every
   * call threw, it throws; when the reply lacks `data` or `type`, it throws;
   * otherwise the store goes from `before` to the store of `Save`, and the
   * answer is the id of the row `Save` gives, or an exception when it gives
   * none.
   */
  predicate SaveOutcome(before: PageStore.Store, after: PageStore.Store, key: PageStore.PageKey,
                        stored: Option<Upload.Stored>, links: seq<LinkScan.Link>,
                        metadata: Rendering.PageMetadata, resp: Response)
  {
    if stored.None? then resp == Thrown(UploadFailed) && after == before
    else if !Upload.Usable(stored.value) then resp == Thrown(UploadIncomplete) && after == before
    else
      var (t, row) := PageStore.Save(before, key, RowContent(stored.value, links, metadata));
      && after == t
      && (row.Some? ==> resp == Converted(row.value.id))
      && (row.None? ==> resp == Thrown(SaveFailed))
  }

  /**
   * Steps 7 and 8 as the trace and the store show them: the upload request
   * for `image`, the upload loop's calls, delays and last reply, the release
   * once a call returned, and the end `SaveOutcome` describes.
   */
  predicate UploadOutcome(before: PageStore.Store, after: PageStore.Store, req: Request, env: Env,
                          links: seq<LinkScan.Link>, metadata: Rendering.PageMetadata,
                          image: Rendering.Image, resp: Response, trace: Trace)
    requires req.pageNumber >= 1
  {
    && trace.upload == Some(UploadFor(req, req.pageNumber, image))
    && 1 <= trace.uploadAttempts <= Upload.MaxUploadAttempts
    && (forall k | 0 <= k < trace.uploadAttempts - 1 :: env.put(k).None?)
    && trace.stored == env.put(trace.uploadAttempts - 1)
    && (trace.stored.None? ==> trace.uploadAttempts == Upload.MaxUploadAttempts)
    && |trace.uploadWaits| == trace.uploadAttempts - 1
    && (forall k | 0 <= k < |trace.uploadWaits| :: trace.uploadWaits[k] == Backoff.BackoffMs(k))
    && (trace.released <==> trace.stored.Some?)
    && SaveOutcome(before, after, Key(req), trace.stored, links, metadata, resp)
  }

  /**
   * The handler from the loaded page on, as the trace and the store show
   * it: the keyword scan, whose first blocking link is reported with its
   * first keyword; otherwise the raster at the planned scale and, when that
   * throws, at the reduced one; and then `UploadOutcome` for the smaller
   * encoding of the last raster, the page's links and that raster's
   * metadata.  Nothing but the page rows changes.
   */
  predicate LoadedOutcome(before: PageStore.Store, after: PageStore.Store, req: Request, env: Env,
                          page: PdfPage, w: real, h: real, resp: Response, trace: Trace)
    requires req.pageNumber >= 1 && w > 0.0 && h > 0.0
  {
    && after.versions == before.versions
    && (trace.keywordsRead <==> |page.links| > 0)
    && (resp.ProcessingBlocked? <==>
         LinkScan.ScanApplies(page.links, env.keywords) &&
         exists i | 0 <= i < |page.links| :: LinkScan.LinkBlocked(page.links[i], env.keywords.value.items))
    && (resp.ProcessingBlocked? ==>
         && LinkScan.ReportsFirstBlocked(page.links, env.keywords.value.items, resp.matchedUrl, resp.matchedKeyword)
         && resp.pageNumber == req.pageNumber
         && trace.renderScales == [] && trace.upload.None? && !trace.released && after == before)
    && (!resp.ProcessingBlocked? ==>
         var s := ScalePlanner.OptimalScaleFactor(w, h);
         && trace.renderScales == (if page.render(s).Some? then [s] else [s, Rendering.ReducedScale(s)])
         && var last := trace.renderScales[|trace.renderScales| - 1];
            && (page.render(last).None? ==>
                 resp == Thrown(RasterFailed) && trace.upload.None? && !trace.released && after == before)
            && (page.render(last).Some? ==>
                 UploadOutcome(before, after, req, env, page.links, Rendering.Metadata(w, h, last),
                               Rendering.ChooseEncoding(page.render(last).value), resp, trace)))
  }

  /**
   * The handler from the downloaded `body` on, as the trace and the store
   * show it: a page that does not load is answered with its exception; page
   * 1's orientation is written, or the version is missing; and from then on
   * `LoadedOutcome` holds of the loaded page, which determines the page rows.
   */
  predicate DownloadedOutcome(before: PageStore.Store, after: PageStore.Store, req: Request, env: Env,
                              body: seq<Byte>, resp: Response, trace: Trace)
  {
    var loaded := OpenPage(body, req.pageNumber, env.openPdf);
    // the page
    && (loaded.LoadFailed? ==>
         resp == Thrown(loaded.failure) && trace == NoTrace.(fetch := trace.fetch) && after == before)
    && (loaded.PageReady? ==> trace.pageSize == Some((loaded.width, loaded.height)))
    // the orientation
    && (resp == Thrown(VersionNotFound) <==>
         loaded.PageReady? && req.pageNumber == 1 && req.documentVersionId !in before.versions)
    && (req.pageNumber != 1 || trace.pageSize.None? || resp == Thrown(VersionNotFound) ==>
         after.versions == before.versions)
    && (req.pageNumber == 1 && trace.pageSize.Some? && resp != Thrown(VersionNotFound) ==>
         after.versions == before.versions[req.documentVersionId := trace.pageSize.value.1 > trace.pageSize.value.0])
    // the rest
    && (LateResponse(resp) <==> loaded.PageReady? && resp != Thrown(VersionNotFound))
    && (!LateResponse(resp) ==>
         && trace == NoTrace.(fetch := trace.fetch, pageSize := trace.pageSize)
         && after.pages == before.pages && after.nextId == before.nextId)
    && (LateResponse(resp) ==>
         && loaded.PageReady?
         && LoadedOutcome(before.(versions := after.versions), after, req, env,
                          loaded.page, loaded.width, loaded.height, resp, trace))
    && (trace.released <==> resp.Converted? || resp == Thrown(UploadIncomplete) || resp == Thrown(SaveFailed))
    // the page row
    && (!resp.Converted? ==> after.pages == before.pages && after.nextId == before.nextId)
    && (resp.Converted? && Key(req) in before.pages ==>
         && after.pages == before.pages && after.nextId == before.nextId
         && resp.documentPageId == before.pages[Key(req)].id)
    && (resp.Converted? && Key(req) !in before.pages ==>
         && after.nextId == before.nextId + 1
         && resp.documentPageId == before.nextId
         && trace.stored.Some? && Upload.Usable(trace.stored.value) && trace.renderScales != []
         && loaded.PageReady?
         && after.pages == before.pages[Key(req) := PageStore.PageRow(before.nextId, Key(req),
              RowContent(trace.stored.value, loaded.page.links,
                         Rendering.Metadata(loaded.width, loaded.height, trace.renderScales[|trace.renderScales| - 1])))])
  }

  /** The response of the handler's last part: never one of the earlier answers. */
  predicate LateResponse(resp: Response) {
    match resp
    case ProcessingBlocked(_, _, _) => true
    case Converted(_) => true
    case Thrown(f) => f in {RasterFailed, UploadFailed, UploadIncomplete, SaveFailed}
    case _ => false
  }

  /** The handler. */
  method Convert(db: PageStore.Database, req: Request, env: Env) returns (resp: Response, trace: Trace)
    requires db.Valid()
    modifies db
    ensures db.Valid()
    // admission
    ensures resp.MethodNotAllowed? <==> req.verb != "POST"
    ensures resp.Unauthorized? <==> RequestGate.Gate(req.verb, req.authorization, env.apiKey).RejectToken?
    ensures !Admitted(req, env) ==> trace == NoTrace && db.Model() == old(db.Model())
    // download
    ensures Admitted(req, env) ==> trace.fetch == PdfFetch.Attempts(Source(req), env.net, 0)
    ensures (resp.Thrown? && resp.failure.FetchFailed?) <==>
      Admitted(req, env) && PdfFetch.Fetch(Source(req), env.net).Exhausted?
    ensures resp.Thrown? && resp.failure.FetchFailed? ==>
      resp.failure.lastError == PdfFetch.Fetch(Source(req), env.net).lastError
    // nothing else happens before the page is downloaded
    ensures !(Admitted(req, env) && PdfFetch.Fetch(Source(req), env.net).Downloaded?) ==>
      trace == NoTrace.(fetch := trace.fetch) && db.Model() == old(db.Model())
    // from the downloaded bytes on: the page, its orientation, the scan, the raster, the upload and the save
    ensures Admitted(req, env) && PdfFetch.Fetch(Source(req), env.net).Downloaded? ==>
      DownloadedOutcome(old(db.Model()), db.Model(), req, env, PdfFetch.Fetch(Source(req), env.net).body, resp, trace)
  {
    trace := NoTrace;
    var verdict := RequestGate.Gate(req.verb, req.authorization, env.apiKey);
    if verdict.RejectMethod? {
      return MethodNotAllowed, trace;
    }
    if verdict.RejectToken? {
      return Unauthorized, trace;
    }

    // Step 1: the download
    var fetched, attempts := PdfFetch.FetchWithRetry(Source(req), env.net);
    trace := trace.(fetch := attempts);
    if fetched.Exhausted? {
      return Thrown(FetchFailed(fetched.lastError)), trace;
    }

    resp, trace := ConvertDownloaded(db, req, env, fetched.body, trace);
  }

  /**
   * The handler from the downloaded bytes on: the header, the document, the
   * page and its size (steps 2 to 4), the orientation of page 1, and the
   * rest as `ConvertLoadedPage` does it.  `trace0` holds the download.
   */
  method ConvertDownloaded(db: PageStore.Database, req: Request, env: Env, body: seq<Byte>, trace0: Trace)
    returns (resp: Response, trace: Trace)
    requires db.Valid()
    requires trace0 == NoTrace.(fetch := trace0.fetch)
    modifies db
    ensures db.Valid()
    ensures trace.fetch == trace0.fetch
    ensures DownloadedOutcome(old(db.Model()), db.Model(), req, env, body, resp, trace)
  {
    trace := trace0;
    // Steps 2 to 4: the header, the document, the page and its size
    var loaded := OpenPage(body, req.pageNumber, env.openPdf);
    if loaded.LoadFailed? {
      return Thrown(loaded.failure), trace;
    }
    var page, w, h := loaded.page, loaded.width, loaded.height;
    trace := trace.(pageSize := Some((w, h)));
    if req.pageNumber == 1 {
      var updated := db.UpdateVersionOrientation(req.documentVersionId, h > w);
      if !updated {
        return Thrown(VersionNotFound), trace;
      }
    }
    ghost var mid := db.Model();
    assert mid.pages == old(db.pages) && mid.nextId == old(db.nextId);
    resp, trace := ConvertLoadedPage(db, req, env, page, w, h, trace);
    assert old(db.Model()).(versions := db.versions) == mid;
    LoadedOutcomeRows(mid, db.Model(), req, env, page, w, h, resp, trace);
  }

  /**
   * The handler from the loaded page on: the scale, the keyword scan, the
   * raster, the upload and the page row.  `trace0` is the trace so far.
   */
  method ConvertLoadedPage(db: PageStore.Database, req: Request, env: Env, page: PdfPage, w: real, h: real, trace0: Trace)
    returns (resp: Response, trace: Trace)
    requires db.Valid()
    requires w > 0.0 && h > 0.0
    requires req.pageNumber >= 1
    modifies db
    ensures db.Valid()
    ensures LateResponse(resp)
    ensures trace.fetch == trace0.fetch && trace.pageSize == trace0.pageSize
    ensures LoadedOutcome(old(db.Model()), db.Model(), req, env, page, w, h, resp, trace)
  {
    trace := trace0.(keywordsRead := false, renderScales := [], upload := None, uploadAttempts := 0, uploadWaits := [],
                     stored := None, released := false);
    var scaleFactor := ScalePlanner.OptimalScaleFactor(w, h);

    // the blocked-keyword scan
    var embeddedLinks := page.links;
    trace := trace.(keywordsRead := |embeddedLinks| > 0);
    var scan := LinkScan.ScanLinks(embeddedLinks, env.keywords);
    if scan.Blocked? {
      return ProcessingBlocked(scan.matchedUrl, scan.matchedKeyword, req.pageNumber), trace;
    }

    // Steps 5 and 6: the raster and its encoding
    var pixmap, metadata, scales := Rendering.RenderPage(w, h, scaleFactor, page.render);
    trace := trace.(renderScales := scales);
    if pixmap.None? {
      return Thrown(RasterFailed), trace;
    }
    var image := Rendering.ChooseEncoding(pixmap.value);
    resp, trace := UploadAndSave(db, req, env, embeddedLinks, metadata, image, trace);
  }

  /**
   * Steps 7 and 8: upload the chosen image, release the raster and the page
   * once the upload returned, and save the page row.
   */
  method UploadAndSave(db: PageStore.Database, req: Request, env: Env, links: seq<LinkScan.Link>,
                       metadata: Rendering.PageMetadata, image: Rendering.Image, trace0: Trace)
    returns (resp: Response, trace: Trace)
    requires db.Valid()
    requires req.pageNumber >= 1
    modifies db
    ensures db.Valid()
    ensures db.versions == old(db.versions)
    ensures && trace.fetch == trace0.fetch && trace.pageSize == trace0.pageSize
            && trace.keywordsRead == trace0.keywordsRead && trace.renderScales == trace0.renderScales
    ensures UploadOutcome(old(db.Model()), db.Model(), req, env, links, metadata, image, resp, trace)
    ensures resp.Converted? || resp == Thrown(UploadFailed) || resp == Thrown(UploadIncomplete) || resp == Thrown(SaveFailed)
    ensures !resp.Converted? ==> db.Model() == old(db.Model())
    // an existing row is answered as it is
    ensures resp.Converted? && Key(req) in old(db.pages) ==>
      db.Model() == old(db.Model()) && resp.documentPageId == old(db.pages)[Key(req)].id
    // otherwise exactly one row is added, holding the upload's reply, the links and the metadata
    ensures resp.Converted? && Key(req) !in old(db.pages) ==>
      && trace.stored.Some? && Upload.Usable(trace.stored.value)
      && db.pages == old(db.pages)[Key(req) := PageStore.PageRow(old(db.nextId), Key(req), RowContent(trace.stored.value, links, metadata))]
      && db.nextId == old(db.nextId) + 1
      && resp.documentPageId == old(db.nextId)
  {
    trace := trace0;
    var upload := UploadFor(req, req.pageNumber, image);
    trace := trace.(upload := Some(upload));
    var stored, uploadAttempts, waits := Upload.UploadWithRetry(env.put);
    trace := trace.(uploadAttempts := uploadAttempts, uploadWaits := waits, stored := stored, released := false);
    if stored.None? {
      return Thrown(UploadFailed), trace;
    }
    trace := trace.(released := true);
    if !Upload.Usable(stored.value) {
      return Thrown(UploadIncomplete), trace;
    }

    // Step 8: the page row
    var content := RowContent(stored.value, links, metadata);
    PageStore.SavePreserves(db.Model(), Key(req), content);
    var row := db.SavePage(Key(req), content);
    if row.None? {
      return Thrown(SaveFailed), trace;
    }
    return Converted(row.value.id), trace;
  }

  // ----- properties -----

  /**
   * What `SaveOutcome` means for the page rows: nothing changes unless the
   * answer is a row; an existing row is answered as it is; otherwise exactly
   * one row is added under the key, with a fresh id and the upload's reply,
   * the links and the metadata as its columns.  The save fails exactly when
   * the row is missing and so is its version.
   */
  lemma SaveOutcomeRows(before: PageStore.Store, after: PageStore.Store, key: PageStore.PageKey,
                        stored: Option<Upload.Stored>, links: seq<LinkScan.Link>,
                        metadata: Rendering.PageMetadata, resp: Response)
    requires PageStore.WellFormed(before)
    requires SaveOutcome(before, after, key, stored, links, metadata, resp)
    ensures PageStore.WellFormed(after) && after.versions == before.versions
    ensures !resp.Converted? ==> after == before
    ensures resp == Thrown(SaveFailed) <==>
      stored.Some? && Upload.Usable(stored.value) && key !in before.pages && key.versionId !in before.versions
    ensures resp.Converted? && key in before.pages ==>
      after == before && resp.documentPageId == before.pages[key].id
    ensures resp.Converted? && key !in before.pages ==>
      && stored.Some? && Upload.Usable(stored.value)
      && after.pages == before.pages[key := PageStore.PageRow(before.nextId, key, RowContent(stored.value, links, metadata))]
      && after.nextId == before.nextId + 1
      && resp.documentPageId == before.nextId
      && forall k | k in before.pages :: before.pages[k].id != resp.documentPageId
  {
    if stored.Some? && Upload.Usable(stored.value) {
      var content := RowContent(stored.value, links, metadata);
      PageStore.SavePreserves(before, key, content);
      if key !in before.pages && key.versionId in before.versions {
        PageStore.FreshId(before, key, content);
      }
    }
  }

  /**
   * The page rows after the handler's part from the loaded page on: as
   * `SaveOutcomeRows` states them, with the page's links and the metadata of
   * the last raster in a new row.
   */
  lemma LoadedOutcomeRows(before: PageStore.Store, after: PageStore.Store, req: Request, env: Env,
                          page: PdfPage, w: real, h: real, resp: Response, trace: Trace)
    requires PageStore.WellFormed(before)
    requires req.pageNumber >= 1 && w > 0.0 && h > 0.0
    requires LoadedOutcome(before, after, req, env, page, w, h, resp, trace)
    ensures trace.released <==> resp.Converted? || resp == Thrown(UploadIncomplete) || resp == Thrown(SaveFailed)
    ensures !resp.Converted? ==> after == before
    ensures resp.Converted? && Key(req) in before.pages ==>
      after == before && resp.documentPageId == before.pages[Key(req)].id
    ensures resp.Converted? && Key(req) !in before.pages ==>
      && trace.stored.Some? && Upload.Usable(trace.stored.value) && trace.renderScales != []
      && after.pages == before.pages[Key(req) := PageStore.PageRow(before.nextId, Key(req),
           RowContent(trace.stored.value, page.links, Rendering.Metadata(w, h, trace.renderScales[|trace.renderScales| - 1])))]
      && after.nextId == before.nextId + 1
      && resp.documentPageId == before.nextId
  {
    if !resp.ProcessingBlocked? {
      var last := trace.renderScales[|trace.renderScales| - 1];
      if page.render(last).Some? {
        SaveOutcomeRows(before, after, Key(req), trace.stored, page.links, Rendering.Metadata(w, h, last), resp);
      }
    }
  }

  /** Bytes that do not start with `%PDF` are refused before MuPDF sees them. */
  lemma HeaderCheckedFirst(body: seq<Byte>, pageNumber: int, openPdf: seq<Byte> -> Option<PdfDocument>)
    requires |body| < 4 || body[0] != 0x25
    ensures OpenPage(body, pageNumber, openPdf) == LoadFailed(NotPdf)
  {
  }

  /** Page numbers start at 1: page 0 is never found, in any document. */
  lemma PageZeroNotFound(body: seq<Byte>, openPdf: seq<Byte> -> Option<PdfDocument>)
    requires HasPdfHeader(body) && openPdf(body).Some?
    ensures OpenPage(body, 0, openPdf) == LoadFailed(PageNotFound)
  {
  }

  /** The size does not depend on which corners the bounds name first. */
  lemma PageSizeSymmetric(b: Bounds)
    ensures PageSize(b) == PageSize(Bounds(b.lrx, b.lry, b.ulx, b.uly))
  {
  }

  /** Example: the first page of a PNG is uploaded as `page-1.png` with type `image/png`. */
  lemma FirstPagePngName(req: Request, bytes: seq<Byte>)
    ensures UploadFor(req, 1, Rendering.Image(Rendering.Png, bytes)).name == "page-1.png"
    ensures UploadFor(req, 1, Rendering.Image(Rendering.Png, bytes)).contentType == "image/png"
  {
    assert NatToDecimal(1) == "1";
  }
}
