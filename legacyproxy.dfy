/**
 * The legacy object endpoint (server/proxy.go): path checks, the bucket
 * taken from the path when none is configured, resolution, and the headers
 * of the streamed reply. The bucket setting is a mutable object standing for
 * the process-wide configuration; the store's listing, object metadata and
 * object fetch are parameters keyed by bucket.
 */
module LegacyProxy {
  import opened Wrappers
  import opened Text
  import opened Objects
  import opened Repository
  import opened ProxyUseCase
  import opened LegacyMinio

  const StatusOK := 200
  const StatusBadRequest := 400
  const StatusNotFound := 404
  const OctetStream := "application/octet-stream"

  /** What the store reports about an object. */
  datatype ObjectInfo = ObjectInfo(size: int, contentType: string)

  /** The reply: a bare status, or the object streamed with its headers. */
  datatype Reply =
    | Status(status: int)
    | Stream(status: int, key: string, contentType: string, contentDisposition: string, contentLength: int)

  /** The bucket setting; `emptyBucket` is the flag selecting bucket-from-path mode. */
  class Settings {
    var bucket: string
    const emptyBucket: bool

    constructor (bucket: string, emptyBucket: bool)
      ensures this.bucket == bucket && this.emptyBucket == emptyBucket
    {
      this.bucket := bucket;
      this.emptyBucket := emptyBucket;
    }
  }

  /** `strings.SplitN(path, "/", 2)`: the bucket before the first `/`, and the rest after it, or `""`. */
  function SplitBucket(path: string): (parts: (string, string))
    ensures '/' !in parts.0
    ensures '/' in path ==> path == parts.0 + "/" + parts.1
    ensures '/' !in path ==> parts == (path, [])
  {
    var bucket := BeforeFirst(path, '/');
    if |bucket| < |path| then
      assert path == bucket + "/" + path[|bucket| + 1..];
      (bucket, path[|bucket| + 1..])
    else (bucket, [])
  }

  /** The content-type table, by lowercased key suffix. */
  const ContentTypes: seq<(string, string)> := [
    (".jpg", "image/jpeg"), (".jpeg", "image/jpeg"), (".png", "image/png"), (".gif", "image/gif"),
    (".webp", "image/webp"), (".svg", "image/svg+xml"), (".pdf", "application/pdf")]

  /** A stored content type the gateway replaces from the key's suffix. */
  predicate Replaceable(stored: string)
  {
    stored == [] || stored == OctetStream
  }

  /** The content type sent: the stored one unless it is replaceable and the key's suffix is in the table. */
  function ContentTypeFor(stored: string, key: string): (contentType: string)
    ensures !Replaceable(stored) ==> contentType == stored
  {
    if !Replaceable(stored) then stored
    else
      var lowerKey := Lower(key);
      if HasSuffix(lowerKey, ".jpg") || HasSuffix(lowerKey, ".jpeg") then "image/jpeg"
      else if HasSuffix(lowerKey, ".png") then "image/png"
      else if HasSuffix(lowerKey, ".gif") then "image/gif"
      else if HasSuffix(lowerKey, ".webp") then "image/webp"
      else if HasSuffix(lowerKey, ".svg") then "image/svg+xml"
      else if HasSuffix(lowerKey, ".pdf") then "application/pdf"
      else stored
  }

  /** Two suffixes that differ `j` places from the end cannot both end the same string. */
  lemma SuffixesExclusive(k: string, a: string, b: string, j: nat)
    requires HasSuffix(k, a) && 1 <= j <= |a| && j <= |b| && a[|a| - j] != b[|b| - j]
    ensures !HasSuffix(k, b)
  {
    assert k[|k| - j] == a[|a| - j];
  }

  /**
   * The table is read by suffix alone: whichever entry's suffix the
   * lowercased key ends with decides the type, whatever the order of the
   * cases.
   */
  lemma ContentTypeByTable(stored: string, key: string, i: int)
    requires Replaceable(stored)
    requires 0 <= i < |ContentTypes| && HasSuffix(Lower(key), ContentTypes[i].0)
    ensures ContentTypeFor(stored, key) == ContentTypes[i].1
  {
    var k := Lower(key);
    var suffix := ContentTypes[i].0;
    if i == 2 {
      SuffixesExclusive(k, suffix, ".jpg", 3);
      SuffixesExclusive(k, suffix, ".jpeg", 2);
    } else if i == 3 {
      SuffixesExclusive(k, suffix, ".jpg", 1);
      SuffixesExclusive(k, suffix, ".jpeg", 1);
      SuffixesExclusive(k, suffix, ".png", 1);
    } else if i == 4 {
      SuffixesExclusive(k, suffix, ".jpg", 1);
      SuffixesExclusive(k, suffix, ".jpeg", 1);
      SuffixesExclusive(k, suffix, ".png", 1);
      SuffixesExclusive(k, suffix, ".gif", 1);
    } else if i == 5 {
      SuffixesExclusive(k, suffix, ".jpg", 3);
      SuffixesExclusive(k, suffix, ".jpeg", 2);
      SuffixesExclusive(k, suffix, ".png", 2);
      SuffixesExclusive(k, suffix, ".gif", 1);
      SuffixesExclusive(k, suffix, ".webp", 1);
    } else if i == 6 {
      SuffixesExclusive(k, suffix, ".jpg", 1);
      SuffixesExclusive(k, suffix, ".jpeg", 1);
      SuffixesExclusive(k, suffix, ".png", 1);
      SuffixesExclusive(k, suffix, ".gif", 3);
      SuffixesExclusive(k, suffix, ".webp", 1);
      SuffixesExclusive(k, suffix, ".svg", 1);
    }
  }

  /** A replaceable type stays when no suffix of the table matches. */
  lemma ContentTypeUnknown(stored: string, key: string)
    requires Replaceable(stored)
    requires forall i :: 0 <= i < |ContentTypes| ==> !HasSuffix(Lower(key), ContentTypes[i].0)
    ensures ContentTypeFor(stored, key) == stored
  {
    assert !HasSuffix(Lower(key), ContentTypes[0].0);
    assert !HasSuffix(Lower(key), ContentTypes[1].0);
    assert !HasSuffix(Lower(key), ContentTypes[2].0);
    assert !HasSuffix(Lower(key), ContentTypes[3].0);
    assert !HasSuffix(Lower(key), ContentTypes[4].0);
    assert !HasSuffix(Lower(key), ContentTypes[5].0);
    assert !HasSuffix(Lower(key), ContentTypes[6].0);
  }

  /** The suffix test ignores case: `.PDF` is served as a PDF. */
  lemma UpperCaseSuffix()
    ensures ContentTypeFor([], "Report.PDF") == "application/pdf"
  {
    assert Lower("Report.PDF") == "report.pdf";
    ContentTypeByTable([], "Report.PDF", 6);
  }

  /** The Content-Disposition header for a key. */
  function Disposition(key: string): string
  {
    "inline; filename=\"" + AfterLastSlash(key) + "\""
  }

  /** The file name in the header is the key's last component: no `/`, and the key ends with it. */
  lemma DispositionFilename(key: string)
    ensures var name := AfterLastSlash(key);
      && Disposition(key) == "inline; filename=\"" + name + "\""
      && '/' !in name
      && HasSuffix(key, name)
      && ('/' !in key ==> name == key)
  {
  }

  /** A request path that passes the checks: neither it nor its decoded form is suspicious or empty. */
  ghost predicate Admitted(encodedPath: string, unescape: string -> Option<string>)
  {
    && !Suspicious(encodedPath)
    && !Suspicious(DecodedOrRaw(encodedPath, unescape))
    && encodedPath != []
    && DecodedOrRaw(encodedPath, unescape) != []
  }

  /** The object path handed to the resolver: the decoded path, less its bucket when the bucket comes from the path. */
  function ObjectPathFor(path: string, emptyBucket: bool): string
  {
    if emptyBucket then SplitBucket(path).1 else path
  }

  /**
   * proxy: the checks answer 400 or 404 before anything else happens;
   * otherwise the bucket is taken from the path when none is configured,
   * the object is resolved in that bucket's listing, and it is streamed
   * with its headers, or 404 when it cannot be resolved, described or fetched.
   */
  method Proxy(settings: Settings, encodedPath: string, unescape: string -> Option<string>,
               listing: string -> seq<ListEntry>, stat: (string, string) -> Option<ObjectInfo>,
               fetch: (string, string) -> bool)
    returns (reply: Reply)
    modifies settings
    ensures Suspicious(encodedPath) ==> reply == Status(StatusBadRequest)
    ensures !Suspicious(encodedPath) && Suspicious(DecodedOrRaw(encodedPath, unescape)) ==>
              reply == Status(StatusBadRequest)
    ensures !Suspicious(encodedPath) && !Suspicious(DecodedOrRaw(encodedPath, unescape)) &&
            (encodedPath == [] || DecodedOrRaw(encodedPath, unescape) == []) ==>
              reply == Status(StatusNotFound)
    // the bucket setting changes only for an admitted path, and only in bucket-from-path mode
    ensures !Admitted(encodedPath, unescape) || !settings.emptyBucket ==> settings.bucket == old(settings.bucket)
    ensures Admitted(encodedPath, unescape) && settings.emptyBucket ==>
              settings.bucket == SplitBucket(DecodedOrRaw(encodedPath, unescape)).0
    ensures Admitted(encodedPath, unescape) ==>
              var objectPath := ObjectPathFor(DecodedOrRaw(encodedPath, unescape), settings.emptyBucket);
              var entries := listing(settings.bucket);
              var key := LegacyResolve(entries, entries, entries, objectPath, unescape(objectPath));
              && (key == [] ==> reply == Status(StatusNotFound))
              && (key != [] && (stat(settings.bucket, key).None? || !fetch(settings.bucket, key)) ==>
                    reply == Status(StatusNotFound))
              && (key != [] && stat(settings.bucket, key).Some? && fetch(settings.bucket, key) ==>
                    reply == Stream(StatusOK, key, ContentTypeFor(stat(settings.bucket, key).value.contentType, key),
                                    Disposition(key), stat(settings.bucket, key).value.size))
    // what is streamed is an object listed in the bucket
    ensures reply.Stream? ==>
              Admitted(encodedPath, unescape) &&
              exists e :: e in listing(settings.bucket) && e.Listed? && e.key == reply.key
  {
    var rawDots := ContainsSubstring(encodedPath, "..");
    var rawSlashes := ContainsSubstring(encodedPath, "//");
    if rawDots || rawSlashes {
      return Status(StatusBadRequest);
    }
    var objectPath := encodedPath;
    var decoded := unescape(encodedPath);
    if decoded.Some? {
      objectPath := decoded.value;
    }
    var dots := ContainsSubstring(objectPath, "..");
    var slashes := ContainsSubstring(objectPath, "//");
    if dots || slashes {
      return Status(StatusBadRequest);
    }
    if objectPath == [] || encodedPath == [] {
      return Status(StatusNotFound);
    }
    if settings.emptyBucket {
      var parts := SplitBucket(objectPath);
      settings.bucket := parts.0;
      objectPath := parts.1;
    }
    var entries := listing(settings.bucket);
    var objectKey := LegacyMinio.FindObject(objectPath, unescape(objectPath), entries, entries, entries);
    LegacyResolveListed(entries, entries, entries, objectPath, unescape(objectPath));
    if objectKey == [] {
      return Status(StatusNotFound);
    }
    var objectInfo := stat(settings.bucket, objectKey);
    if objectInfo.None? {
      return Status(StatusNotFound);
    }
    var fetched := fetch(settings.bucket, objectKey);
    if !fetched {
      return Status(StatusNotFound);
    }
    var contentType := ContentTypeFor(objectInfo.value.contentType, objectKey);
    var filename := AfterLastSlash(objectKey);
    reply := Stream(StatusOK, objectKey, contentType, "inline; filename=\"" + filename + "\"", objectInfo.value.size);
  }
}
