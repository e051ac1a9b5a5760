/**
 * The HTTP handlers (interfaces/http/handler/handlers.go): content
 * negotiation for the listing, the mapping of proxy errors to status codes,
 * and the global error handler. A reply is modelled as a value; rendering
 * and writing it are left to the framework.
 */
module Handlers {
  import opened Wrappers
  import opened Text
  import opened ListUseCase
  import opened ProxyUseCase
  import opened Objects

  const StatusFound := 302
  const StatusBadRequest := 400
  const StatusForbidden := 403
  const StatusNotFound := 404
  const StatusMethodNotAllowed := 405
  const StatusInternalServerError := 500

  const ListFilesPrefix := "Failed to list files: "
  const ListViewPrefix := "Failed to prepare list view: "

  /** dto.ErrorResponseDTO. */
  datatype ErrorResponse = ErrorResponse(error: bool, message: string)

  /** What a handler sends back. */
  datatype Reply =
    | ListJson(list: ListResponse)
    | ViewHtml(view: ListViewModel)
    | ErrorJson(status: int, body: ErrorResponse)
    | Status(status: int)
    | Redirect(status: int, location: string)

  /** An error reaching the global handler: a framework error carries its own status. */
  datatype HandlerError = FrameworkError(code: int, message: string) | PlainError(message: string)

  /** The listing is rendered as HTML exactly when the Accept header mentions text/html. */
  predicate WantsHtml(accept: string)
  {
    Contains(accept, "text/html")
  }

  /** ProxyFile's status for each use-case error. */
  function ProxyStatus(e: Error): (status: int)
    ensures status == StatusNotFound <==> e == ObjectNotFound
    ensures status == StatusBadRequest <==> e == SuspiciousPath
    ensures status == StatusForbidden <==> e == InvalidHost
    ensures status == StatusInternalServerError <==> e.Other?
  {
    match e
    case ObjectNotFound => StatusNotFound
    case SuspiciousPath => StatusBadRequest
    case InvalidHost => StatusForbidden
    case Other(_) => StatusInternalServerError
  }

  /** ListFiles: HTML view or JSON list, each with its own failure message. */
  method ListFiles(accept: string, listing: Result<Collections.ObjectCollection, string>, baseURL: string,
                   escape: string -> string, htmlEscape: string -> string)
    returns (reply: Reply)
    ensures WantsHtml(accept) && listing.Failure? ==>
              reply == ErrorJson(StatusInternalServerError, ErrorResponse(true, ListViewPrefix + listing.error))
    ensures !WantsHtml(accept) && listing.Failure? ==>
              reply == ErrorJson(StatusInternalServerError, ErrorResponse(true, ListFilesPrefix + listing.error))
    ensures WantsHtml(accept) && listing.Success? ==>
              reply.ViewHtml? && IsView(Listable(listing.value.objects), reply.view.directories, baseURL, escape, htmlEscape)
    ensures !WantsHtml(accept) && listing.Success? ==>
              reply.ListJson? && !reply.list.error && reply.list.message == [] &&
              |reply.list.objects| == |Listable(listing.value.objects)| &&
              forall i :: 0 <= i < |reply.list.objects| ==>
                var o := Listable(listing.value.objects)[i];
                reply.list.objects[i] == ObjectDTO(o.key, ObjectURL(baseURL, o.key, escape), [])
  {
    var html := ContainsSubstring(accept, "text/html");
    if html {
      reply := RenderHTMLList(listing, baseURL, escape, htmlEscape);
      return;
    }
    var response, err := ListUseCase.Execute(listing, baseURL, escape);
    if err.Some? {
      return ErrorJson(StatusInternalServerError, ErrorResponse(true, ListFilesPrefix + err.value));
    }
    return ListJson(response);
  }

  /** renderHTMLList: the view model, or a JSON error when the listing fails. */
  method RenderHTMLList(listing: Result<Collections.ObjectCollection, string>, baseURL: string,
                        escape: string -> string, htmlEscape: string -> string)
    returns (reply: Reply)
    ensures listing.Failure? ==>
              reply == ErrorJson(StatusInternalServerError, ErrorResponse(true, ListViewPrefix + listing.error))
    ensures listing.Success? ==>
              reply.ViewHtml? && IsView(Listable(listing.value.objects), reply.view.directories, baseURL, escape, htmlEscape)
  {
    var viewModel := ExecuteForView(listing, baseURL, escape, htmlEscape);
    if viewModel.Failure? {
      return ErrorJson(StatusInternalServerError, ErrorResponse(true, ListViewPrefix + viewModel.error));
    }
    return ViewHtml(viewModel.value);
  }

  /** ProxyFile's reply to a use-case result. */
  function ProxyReply(result: Result<string, Error>): (reply: Reply)
    ensures reply.Redirect? <==> result.Success?
    ensures result.Success? ==> reply == Redirect(StatusFound, result.value)
    ensures result.Failure? ==> reply == Status(ProxyStatus(result.error))
  {
    if result.Failure? then Status(ProxyStatus(result.error)) else Redirect(StatusFound, result.value)
  }

  /** ProxyFile: a 302 redirect to exactly the presigned URL, or the error's status with no body. */
  method ProxyFile(useCase: ProxyFileUseCase, encodedPath: string, unescape: string -> Option<string>,
                   storage: Storage, hostname: string -> Result<string, Error>)
    returns (reply: Reply)
    ensures reply == ProxyReply(Outcome(encodedPath, unescape, storage, hostname, useCase.expiryMinutes))
    ensures Suspicious(encodedPath) || Suspicious(DecodedOrRaw(encodedPath, unescape)) ==>
              reply == Status(StatusBadRequest)
    ensures reply.Redirect? ==>
              var found := storage.findObject(DecodedOrRaw(encodedPath, unescape));
              found.Success? && storage.presign(found.value, useCase.expiryMinutes) == Success(reply.location)
  {
    var presignedURL, _ := useCase.Execute(encodedPath, unescape, storage, hostname);
    if presignedURL.Failure? {
      return Status(ProxyStatus(presignedURL.error));
    }
    return Redirect(StatusFound, presignedURL.value);
  }

  /**
   * The proxy endpoint's replies to a path that passed the traversal
   * filter: a presigned URL whose host is neither the endpoint host nor a
   * subdomain of it is answered 403 and never redirected to; an empty path
   * or an unresolved key is answered 404.
   */
  lemma ProxyFileRefusals(encodedPath: string, unescape: string -> Option<string>, storage: Storage,
                          hostname: string -> Result<string, Error>, expiry: int)
    requires !Suspicious(encodedPath) && !Suspicious(DecodedOrRaw(encodedPath, unescape))
    ensures (encodedPath == [] || DecodedOrRaw(encodedPath, unescape) == []) ==>
              ProxyReply(Outcome(encodedPath, unescape, storage, hostname, expiry)) == Status(StatusNotFound)
    ensures (encodedPath != [] && DecodedOrRaw(encodedPath, unescape) != [] &&
             storage.findObject(DecodedOrRaw(encodedPath, unescape)) == Success([])) ==>
              ProxyReply(Outcome(encodedPath, unescape, storage, hostname, expiry)) == Status(StatusNotFound)
    ensures (encodedPath != [] && DecodedOrRaw(encodedPath, unescape) != [] &&
             var found := storage.findObject(DecodedOrRaw(encodedPath, unescape));
             found.Success? && found.value != [] && storage.presign(found.value, expiry).Success? &&
             var url := storage.presign(found.value, expiry).value;
             hostname(url).Success? && !HostMatches(hostname(url).value, EndpointHost(storage.endpoint))) ==>
              ProxyReply(Outcome(encodedPath, unescape, storage, hostname, expiry)) == Status(StatusForbidden)
  {
  }

  /** ErrorHandler: the reply and whether the error is logged. */
  function ErrorHandler(err: HandlerError, userAgent: string, ip: string): (r: (Reply, bool))
    ensures r.0.ErrorJson? && r.0.body == ErrorResponse(true, err.message)
    ensures r.0.status == (if err.FrameworkError? then err.code else StatusInternalServerError)
    // not-found and method-not-allowed errors, and anonymous requests, are never logged
    ensures r.1 <==> userAgent != [] && ip != [] && r.0.status != StatusNotFound && r.0.status != StatusMethodNotAllowed
  {
    var code := if err.FrameworkError? then err.code else StatusInternalServerError;
    var logged := userAgent != [] && ip != [] && code != StatusNotFound && code != StatusMethodNotAllowed;
    (ErrorJson(code, ErrorResponse(true, err.message)), logged)
  }
}
