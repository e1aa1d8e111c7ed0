/**
 * The page-count endpoint (pages/api/mupdf/get-pages.ts): after the same
 * admission check and download loop as the conversion endpoint, MuPDF
 * counts the document's pages.  Every exception inside the handler,
 * including an exhausted download, is answered with status 500.  MuPDF is
 * an input: `countPages(bytes)` is the page count, None when parsing or
 * counting throws.
 */
module GetPages {
  import opened Text
  import RequestGate
  import PdfFetch

  datatype Request = Request(
    verb: string,
    authorization: Option<string>,
    url: string,
    storageType: Option<string>,
    fileKey: Option<string>)

  datatype Response =
    | MethodNotAllowed      // 405
    | Unauthorized          // 401
    | PageCount(numPages: nat)  // 200 `{ numPages }`
    | InternalError         // 500 `{ error: "Internal Server Error" }`

  /** The HTTP status each response is sent with. */
  function Status(r: Response): (status: nat)
    ensures status == 200 <==> r.PageCount?
    ensures status == 500 <==> r.InternalError?
    ensures status == 405 <==> r.MethodNotAllowed?
    ensures status == 401 <==> r.Unauthorized?
  {
    match r
    case MethodNotAllowed => 405
    case Unauthorized => 401
    case PageCount(_) => 200
    case InternalError => 500
  }

  function Source(req: Request): PdfFetch.Source {
    PdfFetch.Source(req.url, req.storageType, req.fileKey)
  }

  /** The handler; `attempts` are the download attempts made. */
  method GetPages(req: Request, apiKey: Option<string>, net: nat -> PdfFetch.AttemptOracle, countPages: seq<Byte> -> Option<nat>)
    returns (resp: Response, attempts: seq<PdfFetch.Attempt>)
    ensures resp.MethodNotAllowed? <==> req.verb != "POST"
    ensures resp.Unauthorized? <==> RequestGate.Gate(req.verb, req.authorization, apiKey).RejectToken?
    ensures var admitted := RequestGate.Gate(req.verb, req.authorization, apiKey).Admitted?;
      && (admitted ==> attempts == PdfFetch.Attempts(Source(req), net, 0))
      && (!admitted ==> attempts == [])
    ensures resp.PageCount? <==>
      && RequestGate.Gate(req.verb, req.authorization, apiKey).Admitted?
      && PdfFetch.Fetch(Source(req), net).Downloaded?
      && countPages(PdfFetch.Fetch(Source(req), net).body).Some?
    ensures resp.PageCount? ==> Some(resp.numPages) == countPages(PdfFetch.Fetch(Source(req), net).body)
    ensures resp.InternalError? <==>
      && RequestGate.Gate(req.verb, req.authorization, apiKey).Admitted?
      && (|| PdfFetch.Fetch(Source(req), net).Exhausted?
          || countPages(PdfFetch.Fetch(Source(req), net).body).None?)
  {
    attempts := [];
    var verdict := RequestGate.Gate(req.verb, req.authorization, apiKey);
    if verdict.RejectMethod? {
      return MethodNotAllowed, attempts;
    }
    if verdict.RejectToken? {
      return Unauthorized, attempts;
    }
    var fetched;
    fetched, attempts := PdfFetch.FetchWithRetry(Source(req), net);
    if fetched.Exhausted? {
      // `throw lastError`, caught by the handler's own catch
      return InternalError, attempts;
    }
    var n := countPages(fetched.body);
    if n.None? {
      return InternalError, attempts;
    }
    return PageCount(n.value), attempts;
  }
}
