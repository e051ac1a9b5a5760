/**
 * The storage adapter's listing conversion and the tiered resolver
 * (infrastructure/repository/s3repository.go). The listing channel is a
 * sequence of entries; `url.QueryUnescape` is its result, passed in
 * (`None` when decoding failed).
 */
module Repository {
  import opened Wrappers
  import opened Text
  import opened Objects
  import opened Collections

  /** One item the store's listing channel yields: an object, or an error in its place. */
  datatype ListEntry = Listed(key: string, size: int) | Broken(message: string)

  /** The objects of a listing, error entries dropped, in channel order. */
  ghost function Converted(entries: seq<ListEntry>): seq<S3Object>
  {
    if entries == [] then []
    else
      var e := entries[|entries| - 1];
      Converted(entries[..|entries| - 1]) + (if e.Listed? then [S3Object(e.key, e.size)] else [])
  }

  lemma {:induction false} ConvertedMembers(entries: seq<ListEntry>, o: S3Object)
    ensures o in Converted(entries) <==> Listed(o.key, o.size) in entries
  {
    if entries != [] {
      ConvertedMembers(entries[..|entries| - 1], o);
      assert entries == entries[..|entries| - 1] + [entries[|entries| - 1]];
    }
  }

  /** A decode that succeeded and changed the path; only then are the decoded tiers tried. */
  predicate DistinctDecode(path: string, decoded: Option<string>)
  {
    decoded.Some? && decoded.value != path
  }

  /** The path the fuzzy tier analyses. */
  function AnalysisPath(path: string, decoded: Option<string>): string
  {
    if DistinctDecode(path, decoded) then decoded.value else path
  }

  /** The fuzzy acceptance threshold: a score must exceed it. */
  const FuzzyThreshold := 30

  /** The tiered resolution of `path` against a listing; `""` means not found. */
  function Resolve(objs: seq<S3Object>, path: string, decoded: Option<string>): (key: string)
    ensures path == [] ==> key == []
    ensures key != [] ==> exists i :: 0 <= i < |objs| && objs[i].key == key
  {
    if path == [] then []
    else if ExactIndex(objs, path) >= 0 then objs[ExactIndex(objs, path)].key
    else if DistinctDecode(path, decoded) && ExactIndex(objs, decoded.value) >= 0 then
      objs[ExactIndex(objs, decoded.value)].key
    else if FoldIndex(objs, path) >= 0 then objs[FoldIndex(objs, path)].key
    else if DistinctDecode(path, decoded) && FoldIndex(objs, decoded.value) >= 0 then
      objs[FoldIndex(objs, decoded.value)].key
    else FuzzyTier(objs, AnalysisPath(path, decoded))
  }

  /** The last tier: the fuzzy match's key when its score exceeds the threshold. */
  function FuzzyTier(objs: seq<S3Object>, analysisPath: string): (key: string)
    ensures key != [] ==> exists i :: 0 <= i < |objs| && objs[i].key == key
  {
    var m := Fuzzy(objs, analysisPath);
    if m.index >= 0 && m.score > FuzzyThreshold then objs[m.index].key else []
  }

  /** Exact match dominates: a listed key asked for verbatim resolves to itself. */
  lemma ExactDominates(objs: seq<S3Object>, path: string, decoded: Option<string>)
    requires path != [] && exists i :: 0 <= i < |objs| && objs[i].key == path
    ensures Resolve(objs, path, decoded) == path
  {
  }

  /**
   * The case-insensitive tier: a request that equals listed key `k` up to
   * case, with no exact match and no distinct decode, resolves to `k` when
   * no other entry equals the request up to case.
   */
  lemma CaseInsensitiveTier(objs: seq<S3Object>, path: string, decoded: Option<string>, i: int)
    requires 0 <= i < |objs| && path != [] && EqualFold(objs[i].key, path)
    requires forall j :: 0 <= j < |objs| && j != i ==> !EqualFold(objs[j].key, path)
    requires !DistinctDecode(path, decoded)
    ensures Resolve(objs, path, decoded) == objs[i].key
  {
    var e := ExactIndex(objs, path);
    if e >= 0 {
      assert EqualFold(objs[e].key, path);
    }
  }

  /** The decoded tiers change nothing unless decoding succeeded and changed the path. */
  lemma DecodeOnlyWhenDistinct(objs: seq<S3Object>, path: string, decoded: Option<string>)
    requires !DistinctDecode(path, decoded)
    ensures Resolve(objs, path, decoded) == Resolve(objs, path, None)
  {
  }

  /** No listed key equals `path` exactly, nor up to case. */
  predicate Unmatched(objs: seq<S3Object>, path: string)
  {
    ExactIndex(objs, path) < 0 && FoldIndex(objs, path) < 0
  }

  /**
   * The tier order. Each tier answers only when every earlier one found
   * nothing: exact raw, exact decoded, case-insensitive raw,
   * case-insensitive decoded, then fuzzy, whose answer is a candidate for
   * the analysed path scoring above the threshold.
   */
  lemma TierOrder(objs: seq<S3Object>, path: string, decoded: Option<string>)
    requires path != []
    ensures ExactIndex(objs, path) >= 0 ==> Resolve(objs, path, decoded) == path
    ensures (ExactIndex(objs, path) < 0 && DistinctDecode(path, decoded) && ExactIndex(objs, decoded.value) >= 0)
            ==> Resolve(objs, path, decoded) == decoded.value
    ensures (ExactIndex(objs, path) < 0 && !DistinctDecode(path, decoded) && FoldIndex(objs, path) >= 0)
            ==> EqualFold(Resolve(objs, path, decoded), path)
    ensures (ExactIndex(objs, path) < 0 && DistinctDecode(path, decoded) && ExactIndex(objs, decoded.value) < 0
             && FoldIndex(objs, path) >= 0)
            ==> EqualFold(Resolve(objs, path, decoded), path)
    ensures (Unmatched(objs, path) && DistinctDecode(path, decoded) && ExactIndex(objs, decoded.value) < 0
             && FoldIndex(objs, decoded.value) >= 0)
            ==> EqualFold(Resolve(objs, path, decoded), decoded.value)
    ensures (Unmatched(objs, path) && (!DistinctDecode(path, decoded) || Unmatched(objs, decoded.value)))
            ==> (Resolve(objs, path, decoded) != [] <==> Fuzzy(objs, AnalysisPath(path, decoded)).score > FuzzyThreshold)
    ensures (Unmatched(objs, path) && (!DistinctDecode(path, decoded) || Unmatched(objs, decoded.value))
             && Resolve(objs, path, decoded) != [])
            ==> exists j :: 0 <= j < |objs| && objs[j].key == Resolve(objs, path, decoded)
                            && Candidate(objs[j], AnalysisPath(path, decoded))
  {
    var a := AnalysisPath(path, decoded);
    FuzzySpec(objs, a);
  }

  /** A resolved key is the key of an object the listing holds. */
  lemma ResolvedIsListed(listing: seq<ListEntry>, path: string, decoded: Option<string>)
    ensures var key := Resolve(Converted(listing), path, decoded);
      key != [] ==> exists size :: Listed(key, size) in listing
  {
    var objs := Converted(listing);
    var key := Resolve(objs, path, decoded);
    if key != [] {
      var i :| 0 <= i < |objs| && objs[i].key == key;
      ConvertedMembers(listing, objs[i]);
    }
  }

  class S3Repository {
    const bucket: string
    const endpoint: string

    constructor (bucket: string, endpoint: string)
      ensures this.bucket == bucket && this.endpoint == endpoint
    {
      this.bucket := bucket;
      this.endpoint := endpoint;
    }

    function GetBucketName(): string
    {
      bucket
    }

    function GetEndpoint(): string
    {
      endpoint
    }

    /** Converts the listing; error entries are skipped and the error result is always nil (`None`). */
    method ListObjects(listing: seq<ListEntry>) returns (collection: ObjectCollection, err: Option<string>)
      ensures fresh(collection)
      ensures collection.objects == Converted(listing)
      ensures err == None
    {
      collection := new ObjectCollection();
      var i := 0;
      while i < |listing|
        invariant 0 <= i <= |listing|
        invariant fresh(collection)
        invariant collection.objects == Converted(listing[..i])
      {
        var entry := listing[i];
        assert listing[..i + 1][..i] == listing[..i];
        if entry.Listed? {
          collection.Add(S3Object(entry.key, entry.size));
        }
        i := i + 1;
      }
      assert listing[..i] == listing;
      err := None;
    }

    method FindObject(objectPath: string, decoded: Option<string>, listing: seq<ListEntry>)
      returns (key: string, err: Option<string>)
      ensures key == Resolve(Converted(listing), objectPath, decoded)
      ensures err == None
    {
      err := None;
      if objectPath == [] {
        return [], None;
      }
      var collection, listErr := ListObjects(listing);
      if listErr.Some? {
        return [], listErr;
      }
      ghost var objs := collection.objects;
      var obj := collection.FindByPath(objectPath);
      if obj.Some? {
        return obj.value.key, None;
      }
      var distinct := decoded.Some? && decoded.value != objectPath;
      if distinct {
        obj := collection.FindByPath(decoded.value);
        if obj.Some? {
          return obj.value.key, None;
        }
      }
      obj := collection.FindByCaseInsensitivePath(objectPath);
      if obj.Some? {
        return obj.value.key, None;
      }
      if distinct {
        obj := collection.FindByCaseInsensitivePath(decoded.value);
        if obj.Some? {
          return obj.value.key, None;
        }
      }
      var analysisPath := objectPath;
      if distinct {
        analysisPath := decoded.value;
      }
      var bestMatch, score := collection.FindByFilenameFuzzy(analysisPath);
      assert analysisPath == AnalysisPath(objectPath, decoded);
      if bestMatch.Some? && score > FuzzyThreshold {
        return bestMatch.value.key, None;
      }
      return [], None;
    }
  }
}
