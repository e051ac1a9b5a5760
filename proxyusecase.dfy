/**
 * The proxy use case (application/usecase/proxyfileusecase.go): the
 * traversal filter before and after percent-decoding, the empty-path rule,
 * resolution, presigning with the configured expiry, and validation of the
 * presigned URL's host against the storage endpoint.
 *
 * The repository is reached through `Storage`, whose members stand for the
 * repository interface's `FindObject`, `GetPresignedURL` and `GetEndpoint`;
 * `unescape` stands for `url.QueryUnescape` and `hostname` for `url.Parse`
 * followed by `Hostname`.
 */
module ProxyUseCase {
  import opened Wrappers
  import opened Text
  import opened Objects
  import opened Collections
  import opened Repository

  /** The error kinds the use case reports; `Other` is any error passed through from a collaborator. */
  datatype Error = ObjectNotFound | SuspiciousPath | InvalidHost | Other(message: string)

  datatype Storage = Storage(
    findObject: string -> Result<string, Error>,
    presign: (string, int) -> Result<string, Error>,
    endpoint: string)

  /** A call made on the repository, recorded to state which calls a request reaches. */
  datatype Call = Find(path: string) | Presign(key: string, minutes: int)

  const DefaultExpiryMinutes := 60

  /** The path after decoding, or the raw path when decoding fails. */
  function DecodedOrRaw(encodedPath: string, unescape: string -> Option<string>): string
  {
    if unescape(encodedPath).Some? then unescape(encodedPath).value else encodedPath
  }

  /** The endpoint's host: the text before its first `:`. */
  function EndpointHost(endpoint: string): string
  {
    BeforeFirst(endpoint, ':')
  }

  /** The host rule: the host itself or any subdomain of it. */
  predicate HostMatches(hostname: string, host: string)
  {
    hostname == host || HasSuffix(hostname, "." + host)
  }

  /** The allowed-hosts loop: does some allowed host accept `hostname`? */
  method CheckHost(hostname: string, allowedHosts: seq<string>) returns (validHost: bool)
    ensures validHost <==> exists i :: 0 <= i < |allowedHosts| && HostMatches(hostname, allowedHosts[i])
  {
    validHost := false;
    var i := 0;
    while i < |allowedHosts|
      invariant 0 <= i <= |allowedHosts|
      invariant forall j :: 0 <= j < i ==> !HostMatches(hostname, allowedHosts[j])
    {
      var host := allowedHosts[i];
      if hostname == host || HasSuffix(hostname, "." + host) {
        validHost := true;
        return;
      }
      i := i + 1;
    }
  }

  /** The port is dropped from the endpoint. */
  lemma {:induction false} EndpointHostDropsPort(host: string, port: string)
    requires ':' !in host
    ensures EndpointHost(host + ":" + port) == host
  {
    if host != [] {
      assert (host + ":" + port)[1..] == host[1..] + ":" + port;
      EndpointHostDropsPort(host[1..], port);
    }
  }

  /** A subdomain of the endpoint host is accepted. */
  lemma SubdomainAccepted(sub: string, host: string)
    ensures HostMatches(sub + "." + host, host)
  {
    var h := sub + "." + host;
    assert h[|h| - |"." + host|..] == "." + host;
  }

  /** A host that merely ends with the endpoint host's text, without a `.` before it, is refused. */
  lemma LookalikeRefused(prefix: string, host: string)
    requires prefix != [] && prefix[|prefix| - 1] != '.'
    ensures !HostMatches(prefix + host, host)
  {
    var h := prefix + host;
    var tail := h[|prefix| - 1..];
    assert tail[0] == prefix[|prefix| - 1];
    assert |h| - |"." + host| == |prefix| - 1;
    assert tail != "." + host;
    assert |h| != |host|;
  }

  /** The outcome of a proxy request with the given expiry, tier by tier. */
  ghost function Outcome(encodedPath: string, unescape: string -> Option<string>, storage: Storage,
                         hostname: string -> Result<string, Error>, expiry: int): Result<string, Error>
  {
    var objectPath := DecodedOrRaw(encodedPath, unescape);
    if Suspicious(encodedPath) || Suspicious(objectPath) then Failure(SuspiciousPath)
    else if objectPath == [] || encodedPath == [] then Failure(ObjectNotFound)
    else match storage.findObject(objectPath)
      case Failure(e) => Failure(e)
      case Success(key) =>
        if key == [] then Failure(ObjectNotFound)
        else match storage.presign(key, expiry)
          case Failure(e) => Failure(e)
          case Success(url) =>
            match hostname(url)
              case Failure(e) => Failure(e)
              case Success(h) => if HostMatches(h, EndpointHost(storage.endpoint)) then Success(url) else Failure(InvalidHost)
  }

  /**
   * A request succeeds exactly when its raw and decoded paths are clean and
   * non-empty, the decoded path resolves to a non-empty key, presigning that
   * key succeeds, and the URL's host is the endpoint host or a subdomain of
   * it; the answer is then that URL.
   */
  lemma OutcomeSuccess(encodedPath: string, unescape: string -> Option<string>, storage: Storage,
                       hostname: string -> Result<string, Error>, expiry: int)
    ensures var objectPath := DecodedOrRaw(encodedPath, unescape);
      var found := storage.findObject(objectPath);
      Outcome(encodedPath, unescape, storage, hostname, expiry).Success? <==>
        && !Suspicious(encodedPath) && !Suspicious(objectPath)
        && encodedPath != [] && objectPath != []
        && found.Success? && found.value != []
        && storage.presign(found.value, expiry).Success?
        && hostname(storage.presign(found.value, expiry).value).Success?
        && HostMatches(hostname(storage.presign(found.value, expiry).value).value, EndpointHost(storage.endpoint))
    ensures var found := storage.findObject(DecodedOrRaw(encodedPath, unescape));
      Outcome(encodedPath, unescape, storage, hostname, expiry).Success? ==>
        Outcome(encodedPath, unescape, storage, hostname, expiry) == storage.presign(found.value, expiry)
  {
  }

  /**
   * The storage the service runs on: the repository's `FindObject` over the
   * bucket listing, which percent-decodes the path it is given once more.
   */
  ghost function RepositoryStorage(listing: seq<ListEntry>, unescape: string -> Option<string>,
                                   presign: (string, int) -> Result<string, Error>, endpoint: string): Storage
  {
    Storage(p => Success(Resolve(Converted(listing), p, unescape(p))), presign, endpoint)
  }

  /**
   * Over the repository, a clean non-empty request resolves its path decoded
   * once, with that path's own decode as the second path the repository
   * tries: the presigned key is the resolver's answer, and a request the
   * resolver cannot place is not found.
   */
  lemma RepositoryOutcome(encodedPath: string, unescape: string -> Option<string>, listing: seq<ListEntry>,
                          presign: (string, int) -> Result<string, Error>, endpoint: string,
                          hostname: string -> Result<string, Error>, expiry: int)
    requires var objectPath := DecodedOrRaw(encodedPath, unescape);
      !Suspicious(encodedPath) && !Suspicious(objectPath) && encodedPath != [] && objectPath != []
    ensures var objectPath := DecodedOrRaw(encodedPath, unescape);
      var key := Resolve(Converted(listing), objectPath, unescape(objectPath));
      var outcome := Outcome(encodedPath, unescape, RepositoryStorage(listing, unescape, presign, endpoint), hostname, expiry);
      && (key == [] ==> outcome == Failure(ObjectNotFound))
      && (outcome.Success? ==> key != [] && outcome == presign(key, expiry))
  {
  }

  /**
   * The double decode: `%2541` decodes to `%41` in the use case and to `A` in
   * the repository, so with only `A` listed the request is served `A`.
   */
  lemma DoubleDecode(unescape: string -> Option<string>)
    requires unescape("%2541") == Some("%41") && unescape("%41") == Some("A")
    ensures var objectPath := DecodedOrRaw("%2541", unescape);
      && objectPath == "%41"
      && RepositoryStorage([Listed("A", 1)], unescape, (k, m) => Failure(Other([])), "").findObject(objectPath) == Success("A")
  {
    var objs := Converted([Listed("A", 1)]);
    assert objs == [S3Object("A", 1)] by {
      assert Converted([Listed("A", 1)][..0]) == [];
    }
    assert ExactIndex(objs, "%41") == -1;
    assert ExactIndex(objs, "A") == 0;
  }

  class ProxyFileUseCase {
    var expiryMinutes: int

    /** NewProxyFileUseCase. */
    constructor ()
      ensures expiryMinutes == DefaultExpiryMinutes
    {
      expiryMinutes := DefaultExpiryMinutes;
    }

    method SetExpiryMinutes(minutes: int)
      modifies this
      ensures expiryMinutes == if minutes > 0 then minutes else old(expiryMinutes)
    {
      if minutes > 0 {
        expiryMinutes := minutes;
      }
    }

    /**
     * Execute. `calls` records the repository calls made, in order.
     */
    method Execute(encodedPath: string, unescape: string -> Option<string>, storage: Storage,
                   hostname: string -> Result<string, Error>)
      returns (result: Result<string, Error>, ghost calls: seq<Call>)
      ensures result == Outcome(encodedPath, unescape, storage, hostname, expiryMinutes)
      // Suspicious raw or decoded paths, and empty ones, never reach the repository.
      ensures Suspicious(encodedPath) ==> result == Failure(SuspiciousPath) && calls == []
      ensures !Suspicious(encodedPath) && Suspicious(DecodedOrRaw(encodedPath, unescape)) ==>
                result == Failure(SuspiciousPath) && calls == []
      ensures !Suspicious(encodedPath) && !Suspicious(DecodedOrRaw(encodedPath, unescape)) &&
              (encodedPath == [] || DecodedOrRaw(encodedPath, unescape) == []) ==>
                result == Failure(ObjectNotFound) && calls == []
      // Otherwise the decoded path is resolved first.
      ensures calls != [] ==> calls[0] == Find(DecodedOrRaw(encodedPath, unescape))
      ensures calls != [] && storage.findObject(calls[0].path).Failure? ==>
                result == storage.findObject(calls[0].path) && calls == calls[..1]
      ensures calls != [] && storage.findObject(calls[0].path) == Success([]) ==>
                result == Failure(ObjectNotFound) && calls == calls[..1]
      // A resolved key is presigned with the current expiry, and a presign error is passed through.
      ensures |calls| == 2 ==>
                (storage.findObject(calls[0].path).Success? &&
                 calls[1] == Presign(storage.findObject(calls[0].path).value, expiryMinutes) &&
                 calls[1].key != [])
      ensures |calls| == 2 && storage.presign(calls[1].key, calls[1].minutes).Failure? ==>
                result == storage.presign(calls[1].key, calls[1].minutes)
      // The URL is returned unchanged exactly when its host is the endpoint host or a subdomain of it.
      ensures |calls| == 2 && storage.presign(calls[1].key, calls[1].minutes).Success? ==>
                var url := storage.presign(calls[1].key, calls[1].minutes).value;
                && (hostname(url).Failure? ==> result == hostname(url))
                && (hostname(url).Success? && HostMatches(hostname(url).value, EndpointHost(storage.endpoint)) ==>
                      result == Success(url))
                && (hostname(url).Success? && !HostMatches(hostname(url).value, EndpointHost(storage.endpoint)) ==>
                      result == Failure(InvalidHost))
      ensures result.Success? ==> |calls| == 2 && result == storage.presign(calls[1].key, calls[1].minutes)
      ensures |calls| <= 2
    {
      calls := [];
      var rawDots := ContainsSubstring(encodedPath, "..");
      var rawSlashes := ContainsSubstring(encodedPath, "//");
      if rawDots || rawSlashes {
        return Failure(SuspiciousPath), calls;
      }
      var objectPath := encodedPath;
      var decoded := unescape(encodedPath);
      if decoded.Some? {
        objectPath := decoded.value;
      }
      var dots := ContainsSubstring(objectPath, "..");
      var slashes := ContainsSubstring(objectPath, "//");
      if dots || slashes {
        return Failure(SuspiciousPath), calls;
      }
      if objectPath == [] || encodedPath == [] {
        return Failure(ObjectNotFound), calls;
      }
      calls := calls + [Find(objectPath)];
      var found := storage.findObject(objectPath);
      if found.Failure? {
        return found, calls;
      }
      var objectKey := found.value;
      if objectKey == [] {
        return Failure(ObjectNotFound), calls;
      }
      calls := calls + [Presign(objectKey, expiryMinutes)];
      var presigned := storage.presign(objectKey, expiryMinutes);
      if presigned.Failure? {
        return presigned, calls;
      }
      var presignedURL := presigned.value;
      var parsed := hostname(presignedURL);
      if parsed.Failure? {
        return parsed, calls;
      }
      var s3Hostname := EndpointHost(storage.endpoint);
      var allowedHosts := [s3Hostname];
      var validHost := CheckHost(parsed.value, allowedHosts);
      assert allowedHosts[0] == s3Hostname;
      if !validHost {
        return Failure(InvalidHost), calls;
      }
      return Success(presignedURL), calls;
    }
  }
}
