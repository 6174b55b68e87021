/**
 * What `KATProvider.getURL` returns for each way the HTTP request can end.
 *
 * The request itself (opener, headers, socket) is not modelled: its outcome is
 * an input. The two decompressors are parameters standing for `gzip.GzipFile`
 * and `zlib.decompress`; `None` from one of them stands for the exception it
 * raises, which the catch-all handler turns into `None`.
 */
module KatFetch {
  import opened Wrappers

  /** The feed returned in place of a 404, which the site sends when no episode matches. */
  const NotFoundFeed: string :=
    "<?xml version=\"1.0\" encoding=\"utf-8\"?><rss version=\"2.0\"><channel></channel></rss>"

  /** The exceptions `getURL` catches, in the order of its handlers. */
  datatype TransportFailure =
    | HttpError(code: int)
    | UrlError(reason: string)
    | BadStatusLine
    | SocketTimeout
    | ValueError
    | OtherException

  /** How the request ended: a response with its `Content-Encoding` header, or an exception. */
  datatype FetchOutcome =
    | Delivered(contentEncoding: Option<string>, body: string)
    | Raised(failure: TransportFailure)

  /** The encodings that are decompressed; every other header value leaves the body as read. */
  predicate IsGzip(encoding: Option<string>) {
    encoding == Some("gzip") || encoding == Some("x-gzip")
  }

  predicate IsDeflate(encoding: Option<string>) {
    encoding == Some("deflate")
  }

  /** The body `getURL` returns, or `None`. */
  function GetUrl(outcome: FetchOutcome, gunzip: string -> Option<string>, inflate: string -> Option<string>)
    : (r: Option<string>)
    ensures outcome.Raised? ==> (r == Some(NotFoundFeed) <==> outcome.failure == HttpError(404))
    ensures outcome.Raised? && outcome.failure != HttpError(404) ==> r == None
    ensures outcome.Delivered? && !IsGzip(outcome.contentEncoding) && !IsDeflate(outcome.contentEncoding) ==>
      r == Some(outcome.body)
    ensures outcome.Delivered? && IsGzip(outcome.contentEncoding) ==> r == gunzip(outcome.body)
    ensures outcome.Delivered? && IsDeflate(outcome.contentEncoding) ==> r == inflate(outcome.body)
  {
    match outcome
    case Delivered(encoding, body) =>
      if IsGzip(encoding) then gunzip(body)
      else if IsDeflate(encoding) then inflate(body)
      else Some(body)
    case Raised(HttpError(code)) =>
      if code == 404 then Some(NotFoundFeed) else None
    case Raised(_) => None
  }

  /** A body compressed by the server comes back as the original content when the decompressor inverts the compressor. */
  lemma GzipRoundTrip(content: string, gzip: string -> string, gunzip: string -> Option<string>,
                      inflate: string -> Option<string>, encoding: string)
    requires gunzip(gzip(content)) == Some(content)
    requires encoding == "gzip" || encoding == "x-gzip"
    ensures GetUrl(Delivered(Some(encoding), gzip(content)), gunzip, inflate) == Some(content)
  {
  }

}
