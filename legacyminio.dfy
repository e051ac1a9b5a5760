/**
 * The legacy storage client (pkg/minio.go): the listing with its own
 * filtering rules, and the three-pass object resolver. Each pass of the
 * resolver reads the bucket listing afresh, so each takes its own listing.
 * `decoded` is the result of `url.QueryUnescape` on the request path
 * (`None` when decoding failed) and `escape` stands for `url.QueryEscape`.
 */
module LegacyMinio {
  import opened Wrappers
  import opened Text
  import opened Objects
  import opened Collections
  import opened Repository
  import opened LegacyTypes

  // ---------------------------------------------------------------------
  // Listing

  /**
   * The legacy keep rule: an object, not ending in `/`, not a zero-size
   * object whose file name is empty or has no dot, and without `..`.
   */
  ghost predicate Kept(e: ListEntry)
  {
    && e.Listed?
    && !HasSuffix(e.key, "/")
    && !(e.size == 0 && (AfterLastSlash(e.key) == [] || !Contains(AfterLastSlash(e.key), ".")))
    && !Contains(e.key, "..")
  }

  /** The item shown for a listed key. */
  function Item(key: string, baseURL: string, escape: string -> string): ListItem
  {
    ListItem(key, baseURL + "/" + escape(key))
  }

  /** The legacy listing: kept entries, in channel order. */
  ghost function Listing(entries: seq<ListEntry>, baseURL: string, escape: string -> string): seq<ListItem>
  {
    if entries == [] then []
    else
      var e := entries[|entries| - 1];
      Listing(entries[..|entries| - 1], baseURL, escape) + (if Kept(e) then [Item(e.key, baseURL, escape)] else [])
  }

  /** An item is listed exactly when some kept entry produces it. */
  lemma {:induction false} ListingMembers(entries: seq<ListEntry>, baseURL: string, escape: string -> string, x: ListItem)
    ensures x in Listing(entries, baseURL, escape) <==>
              exists e :: e in entries && Kept(e) && x == Item(e.key, baseURL, escape)
  {
    if entries != [] {
      ListingMembers(entries[..|entries| - 1], baseURL, escape, x);
      assert entries == entries[..|entries| - 1] + [entries[|entries| - 1]];
    }
  }

  /**
   * The legacy keep rule against the entity's rules: for a non-empty key it
   * keeps exactly the non-folders without `..`; the empty key is kept
   * exactly when its size is non-zero.
   */
  lemma KeptAgainstEntityRules(e: ListEntry)
    requires e.Listed?
    ensures e.key != [] ==> (Kept(e) <==> !FolderMarker(S3Object(e.key, e.size)) && !Contains(e.key, ".."))
    ensures e.key == [] ==> (Kept(e) <==> e.size != 0)
  {
    if e.key == [] {
      assert !HasSuffix(e.key, "/");
      assert !Contains(e.key, "..");
    }
  }

  /**
   * Where the legacy listing and the entity-based listing part: a key with
   * `//` and no `..` that the legacy rule otherwise keeps (no trailing `/`,
   * and a dotted file name when the size is zero) is listed, though the
   * entity rules call it suspicious.
   */
  lemma DoubleSlashKept(key: string, size: int)
    requires Contains(key, "//") && !Contains(key, "..") && !HasSuffix(key, "/")
    requires size != 0 || (AfterLastSlash(key) != [] && Contains(AfterLastSlash(key), "."))
    ensures Kept(Listed(key, size)) && Suspicious(key)
  {
  }

  /** For instance `a//b.txt`. */
  lemma DoubleSlashExample()
    ensures Kept(Listed("a//b.txt", 1)) && Suspicious("a//b.txt")
  {
    var k := "a//b.txt";
    assert OccursAt(k, "//", 1);
    ContainsDouble(k, '.');
    assert !Doubled(k, '.');
    assert !HasSuffix(k, "/");
    DoubleSlashKept(k, 1);
  }

  /** The checks of the listing loop for one entry. */
  method Keeps(e: ListEntry) returns (keep: bool)
    ensures keep == Kept(e)
  {
    if e.Broken? {
      return false;
    }
    if HasSuffix(e.key, "/") {
      return false;
    }
    if e.size == 0 {
      var filename := e.key;
      var lastSlashIndex := LastIndex(e.key, '/');
      if lastSlashIndex >= 0 {
        filename := e.key[lastSlashIndex + 1..];
      }
      var dotted := ContainsSubstring(filename, ".");
      if filename == [] || !dotted {
        return false;
      }
    }
    var suspicious := ContainsSubstring(e.key, "..");
    return !suspicious;
  }

  /** One more entry extends the listing by its item when it is kept. */
  lemma ListingStep(entries: seq<ListEntry>, i: nat, baseURL: string, escape: string -> string)
    requires i < |entries|
    ensures Listing(entries[..i + 1], baseURL, escape) ==
              Listing(entries[..i], baseURL, escape) + (if Kept(entries[i]) then [Item(entries[i].key, baseURL, escape)] else [])
  {
    assert entries[..i + 1][..i] == entries[..i];
  }

  /** List: keeps the entries `Kept` admits and links each to the gateway. */
  method List(entries: seq<ListEntry>, baseURL: string, escape: string -> string) returns (list: seq<ListItem>)
    ensures list == Listing(entries, baseURL, escape)
  {
    list := [];
    var i := 0;
    while i < |entries|
      invariant 0 <= i <= |entries|
      invariant list == Listing(entries[..i], baseURL, escape)
    {
      var obj := entries[i];
      ListingStep(entries, i, baseURL, escape);
      var keep := Keeps(obj);
      if keep {
        list := list + [ListItem(obj.key, baseURL + "/" + escape(obj.key))];
      }
      i := i + 1;
    }
    assert entries[..i] == entries;
  }

  // ---------------------------------------------------------------------
  // Resolver: exact and case-insensitive passes

  /** A key matches the request, or its decoded form when decoding succeeded, exactly or up to case. */
  predicate PassMatch(key: string, path: string, decoded: Option<string>, fold: bool)
  {
    if fold then EqualFold(key, path) || (decoded.Some? && EqualFold(key, decoded.value))
    else key == path || (decoded.Some? && key == decoded.value)
  }

  predicate Hit(e: ListEntry, path: string, decoded: Option<string>, fold: bool)
  {
    e.Listed? && PassMatch(e.key, path, decoded, fold)
  }

  /** The key of the first entry a pass accepts. */
  function FirstMatch(entries: seq<ListEntry>, path: string, decoded: Option<string>, fold: bool): Option<string>
  {
    if entries == [] then None
    else if Hit(entries[0], path, decoded, fold) then Some(entries[0].key)
    else FirstMatch(entries[1..], path, decoded, fold)
  }

  /**
   * A pass answers with the key of the first entry matching the raw or the
   * decoded path, whichever it matches; it answers nothing exactly when no
   * entry matches.
   */
  lemma {:induction false} FirstMatchSpec(entries: seq<ListEntry>, path: string, decoded: Option<string>, fold: bool)
    ensures FirstMatch(entries, path, decoded, fold).None? <==>
              forall i :: 0 <= i < |entries| ==> !Hit(entries[i], path, decoded, fold)
    ensures FirstMatch(entries, path, decoded, fold).Some? ==>
              exists i :: 0 <= i < |entries| && Hit(entries[i], path, decoded, fold) &&
                          entries[i].key == FirstMatch(entries, path, decoded, fold).value &&
                          forall j :: 0 <= j < i ==> !Hit(entries[j], path, decoded, fold)
  {
    if entries != [] && !Hit(entries[0], path, decoded, fold) {
      var rest := entries[1..];
      FirstMatchSpec(rest, path, decoded, fold);
      if FirstMatch(rest, path, decoded, fold).Some? {
        var i :| 0 <= i < |rest| && Hit(rest[i], path, decoded, fold) &&
                 rest[i].key == FirstMatch(rest, path, decoded, fold).value &&
                 forall j :: 0 <= j < i ==> !Hit(rest[j], path, decoded, fold);
        assert entries[i + 1] == rest[i];
        forall j | 0 <= j < i + 1 ensures !Hit(entries[j], path, decoded, fold) {
          if j > 0 {
            assert entries[j] == rest[j - 1];
          }
        }
      } else {
        forall i | 0 <= i < |entries| ensures !Hit(entries[i], path, decoded, fold) {
          if i > 0 {
            assert entries[i] == rest[i - 1];
          }
        }
      }
    }
  }

  /** One pass over the listing: the first accepted key. */
  method ScanPass(entries: seq<ListEntry>, path: string, decoded: Option<string>, fold: bool)
    returns (found: Option<string>)
    ensures found == FirstMatch(entries, path, decoded, fold)
  {
    var i := 0;
    while i < |entries|
      invariant 0 <= i <= |entries|
      invariant FirstMatch(entries, path, decoded, fold) == FirstMatch(entries[i..], path, decoded, fold)
    {
      var obj := entries[i];
      assert entries[i..][1..] == entries[i + 1..];
      if obj.Listed? {
        if fold {
          if EqualFold(obj.key, path) {
            return Some(obj.key);
          }
          if decoded.Some? && EqualFold(obj.key, decoded.value) {
            return Some(obj.key);
          }
        } else {
          if obj.key == path {
            return Some(obj.key);
          }
          if decoded.Some? && obj.key == decoded.value {
            return Some(obj.key);
          }
        }
      }
      i := i + 1;
    }
    return None;
  }

  // ---------------------------------------------------------------------
  // Resolver: fuzzy pass

  /** The object a listing entry stands for; an error entry stands for nothing a pass can accept. */
  function EntryObject(e: ListEntry): S3Object
  {
    if e.Listed? then S3Object(e.key, e.size) else S3Object([], 0)
  }

  function EligibleFor(path: string): ListEntry -> bool
  {
    (e: ListEntry) => e.Listed? && Candidate(EntryObject(e), path)
  }

  function EntryScoreFor(path: string): ListEntry -> int
  {
    (e: ListEntry) => CandidateScore(EntryObject(e), path)
  }

  /** The fuzzy scan over a listing: the same strict-improvement scan as the entity's, over entries. */
  function FuzzyEntries(entries: seq<ListEntry>, path: string, n: nat): FuzzyMatch
    requires n <= |entries|
  {
    BestPrefix(entries, EligibleFor(path), EntryScoreFor(path), n)
  }

  /** The key behind a scan result, `""` for none. */
  function MatchKey(entries: seq<ListEntry>, m: FuzzyMatch): string
    requires m.index < |entries|
  {
    if m.index >= 0 && entries[m.index].Listed? then entries[m.index].key else []
  }

  /** The fuzzy pass's best key and score agree with the scan over the first `i` entries. */
  predicate TracksEntries(entries: seq<ListEntry>, path: string, i: nat, bestMatch: string, bestMatchScore: int)
    requires i <= |entries|
  {
    bestMatchScore == FuzzyEntries(entries, path, i).score && bestMatch == MatchKey(entries, FuzzyEntries(entries, path, i))
  }

  /** One step of the fuzzy pass keeps its best key and score in step with the scan. */
  lemma EntriesAdvance(entries: seq<ListEntry>, path: string, i: nat, bestMatch: string, bestMatchScore: int,
                       candidate: bool, score: int)
    requires i < |entries| && TracksEntries(entries, path, i, bestMatch, bestMatchScore)
    requires candidate == (entries[i].Listed? && Candidate(EntryObject(entries[i]), path))
    requires candidate ==> score == CandidateScore(EntryObject(entries[i]), path)
    ensures if candidate && score > bestMatchScore
            then TracksEntries(entries, path, i + 1, entries[i].key, score)
            else TracksEntries(entries, path, i + 1, bestMatch, bestMatchScore)
  {
  }

  /** The fuzzy pass: the best-scoring candidate entry and its score; it runs only for a path with a `/`. */
  method FuzzyPass(entries: seq<ListEntry>, analysisPath: string) returns (bestMatch: string, bestMatchScore: int)
    requires '/' in analysisPath
    ensures bestMatchScore == FuzzyEntries(entries, analysisPath, |entries|).score
    ensures bestMatch == MatchKey(entries, FuzzyEntries(entries, analysisPath, |entries|))
  {
    var requestedFilename := AfterLastSlash(analysisPath);
    bestMatch, bestMatchScore := [], 0;
    var i := 0;
    while i < |entries|
      invariant 0 <= i <= |entries|
      invariant TracksEntries(entries, analysisPath, i, bestMatch, bestMatchScore)
    {
      var obj := entries[i];
      var candidate, score := false, 0;
      if obj.Listed? {
        candidate, score := ScoreObject(EntryObject(obj), analysisPath, requestedFilename);
      }
      EntriesAdvance(entries, analysisPath, i, bestMatch, bestMatchScore, candidate, score);
      if candidate && score > bestMatchScore {
        bestMatchScore := score;
        bestMatch := obj.key;
      }
      i := i + 1;
    }
  }


  // ---------------------------------------------------------------------
  // Resolver

  /** The legacy resolution; `""` means not found. */
  function LegacyResolve(exactEntries: seq<ListEntry>, foldEntries: seq<ListEntry>, fuzzyEntries: seq<ListEntry>,
                         path: string, decoded: Option<string>): string
  {
    if path == [] then []
    else if FirstMatch(exactEntries, path, decoded, false).Some? then FirstMatch(exactEntries, path, decoded, false).value
    else if FirstMatch(foldEntries, path, decoded, true).Some? then FirstMatch(foldEntries, path, decoded, true).value
    else
      var a := AnalysisPath(path, decoded);
      if '/' !in a then []
      else
        var m := FuzzyEntries(fuzzyEntries, a, |fuzzyEntries|);
        if m.score > FuzzyThreshold then MatchKey(fuzzyEntries, m) else []
  }

  /** FindObject: exact pass, case-insensitive pass, then the fuzzy pass above the threshold. */
  method FindObject(objectPath: string, decoded: Option<string>, exactEntries: seq<ListEntry>,
                    foldEntries: seq<ListEntry>, fuzzyEntries: seq<ListEntry>) returns (key: string)
    ensures key == LegacyResolve(exactEntries, foldEntries, fuzzyEntries, objectPath, decoded)
  {
    if objectPath == [] {
      return [];
    }
    var found := ScanPass(exactEntries, objectPath, decoded, false);
    if found.Some? {
      return found.value;
    }
    found := ScanPass(foldEntries, objectPath, decoded, true);
    if found.Some? {
      return found.value;
    }
    var analysisPath := objectPath;
    if decoded.Some? && decoded.value != objectPath {
      analysisPath := decoded.value;
    }
    if '/' !in analysisPath {
      return [];
    }
    var bestMatch, bestMatchScore := FuzzyPass(fuzzyEntries, analysisPath);
    if bestMatchScore > FuzzyThreshold {
      return bestMatch;
    }
    return [];
  }

  /**
   * What the fuzzy pass promises: a score in [0, 100], 0 exactly when
   * nothing is found; what is found is a listed candidate scoring exactly
   * that; no candidate scores more.
   */
  lemma FuzzyEntriesSpec(entries: seq<ListEntry>, path: string)
    ensures var m := FuzzyEntries(entries, path, |entries|);
      && 0 <= m.score <= 100
      && (m.index < 0 <==> m.score == 0)
      && (m.index >= 0 ==> entries[m.index].Listed? && Candidate(EntryObject(entries[m.index]), path) &&
                           CandidateScore(EntryObject(entries[m.index]), path) == m.score)
      && (forall j :: 0 <= j < |entries| && entries[j].Listed? && Candidate(EntryObject(entries[j]), path) ==>
                        CandidateScore(EntryObject(entries[j]), path) <= m.score)
  {
    var eligible, score := EligibleFor(path), EntryScoreFor(path);
    assert forall x :: 0 <= score(x) <= 100;
    BestScoreRange(entries, eligible, score, |entries|);
    BestWinner(entries, eligible, score, |entries|);
    BestMaximal(entries, eligible, score, |entries|);
  }

  /**
   * The legacy resolver's answers: nothing for an empty path; otherwise the
   * first exact hit, else the first case-insensitive hit, else a listed
   * fuzzy candidate of the analysed path scoring above the threshold and no
   * lower than any other candidate.
   */
  lemma LegacyResolveSpec(exactEntries: seq<ListEntry>, foldEntries: seq<ListEntry>, fuzzyEntries: seq<ListEntry>,
                          path: string, decoded: Option<string>)
    ensures path == [] ==> LegacyResolve(exactEntries, foldEntries, fuzzyEntries, path, decoded) == []
    ensures path != [] && FirstMatch(exactEntries, path, decoded, false).Some? ==>
              LegacyResolve(exactEntries, foldEntries, fuzzyEntries, path, decoded) ==
              FirstMatch(exactEntries, path, decoded, false).value
    ensures path != [] && FirstMatch(exactEntries, path, decoded, false).None? &&
            FirstMatch(foldEntries, path, decoded, true).Some? ==>
              LegacyResolve(exactEntries, foldEntries, fuzzyEntries, path, decoded) ==
              FirstMatch(foldEntries, path, decoded, true).value
    ensures path != [] && FirstMatch(exactEntries, path, decoded, false).None? &&
            FirstMatch(foldEntries, path, decoded, true).None? &&
            LegacyResolve(exactEntries, foldEntries, fuzzyEntries, path, decoded) != [] ==>
              var a := AnalysisPath(path, decoded);
              exists j :: 0 <= j < |fuzzyEntries| && fuzzyEntries[j].Listed? &&
                          fuzzyEntries[j].key == LegacyResolve(exactEntries, foldEntries, fuzzyEntries, path, decoded) &&
                          Candidate(EntryObject(fuzzyEntries[j]), a) &&
                          CandidateScore(EntryObject(fuzzyEntries[j]), a) > FuzzyThreshold &&
                          forall k :: 0 <= k < |fuzzyEntries| && fuzzyEntries[k].Listed? &&
                                      Candidate(EntryObject(fuzzyEntries[k]), a) ==>
                                        CandidateScore(EntryObject(fuzzyEntries[k]), a) <=
                                        CandidateScore(EntryObject(fuzzyEntries[j]), a)
  {
    FuzzyEntriesSpec(fuzzyEntries, AnalysisPath(path, decoded));
  }

  /**
   * Where the legacy resolver and the tiered one part: the legacy exact
   * pass takes the first entry matching either the raw or the decoded path,
   * so an earlier decoded match beats a later raw one; the tiered resolver
   * tries the raw path against the whole listing first.
   */
  lemma DecodedMatchFirst()
    ensures var entries := [Listed("a b", 1), Listed("a+b", 1)];
      && LegacyResolve(entries, entries, entries, "a+b", Some("a b")) == "a b"
      && Resolve(Converted(entries), "a+b", Some("a b")) == "a+b"
  {
    var entries := [Listed("a b", 1), Listed("a+b", 1)];
    assert Converted(entries[..1]) == [S3Object("a b", 1)];
    assert Converted(entries) == [S3Object("a b", 1), S3Object("a+b", 1)];
    var objs := Converted(entries);
    assert objs[0].key != "a+b";
    assert objs[1..] == [S3Object("a+b", 1)];
    assert ExactIndex(objs[1..], "a+b") == 0;
    assert ExactIndex(objs, "a+b") == 1;
  }

  /** `a b` folds equal to `A B` and not to `A+B`; `a+b` folds equal to `A+B`. */
  lemma SpaceAndPlusFold()
    ensures EqualFold("a b", "A B") && !EqualFold("a b", "A+B") && EqualFold("a+b", "A+B")
  {
    assert Lower("a b") == "a b" && Lower("A B") == "a b";
    assert Lower("a+b") == "a+b" && Lower("A+B") == "a+b";
  }

  /**
   * The case-insensitive passes disagree too: the legacy pass tries the raw
   * and the decoded path entry by entry, so an earlier entry folding equal to
   * the decoded path beats a later entry folding equal to the raw path, which
   * the layered resolver tries against the whole listing first.
   */
  lemma FoldDecodedMatchFirst()
    ensures var entries := [Listed("a b", 1), Listed("a+b", 1)];
      && LegacyResolve(entries, entries, entries, "A+B", Some("A B")) == "a b"
      && Resolve(Converted(entries), "A+B", Some("A B")) == "a+b"
  {
    var entries := [Listed("a b", 1), Listed("a+b", 1)];
    SpaceAndPlusFold();
    assert FirstMatch(entries[1..], "A+B", Some("A B"), false).None?;
    assert Converted(entries[..1]) == [S3Object("a b", 1)];
    var objs := Converted(entries);
    assert objs == [S3Object("a b", 1), S3Object("a+b", 1)];
    assert objs[1..] == [S3Object("a+b", 1)];
    assert FoldIndex(objs[1..], "A+B") == 0;
  }

  /** Any non-empty answer is the key of an object listed by one of the passes. */
  lemma LegacyResolveListed(exactEntries: seq<ListEntry>, foldEntries: seq<ListEntry>, fuzzyEntries: seq<ListEntry>,
                            path: string, decoded: Option<string>)
    ensures var key := LegacyResolve(exactEntries, foldEntries, fuzzyEntries, path, decoded);
      key != [] ==> exists e :: e in exactEntries + foldEntries + fuzzyEntries && e.Listed? && e.key == key
  {
    var key := LegacyResolve(exactEntries, foldEntries, fuzzyEntries, path, decoded);
    var all := exactEntries + foldEntries + fuzzyEntries;
    FirstMatchSpec(exactEntries, path, decoded, false);
    FirstMatchSpec(foldEntries, path, decoded, true);
    if key != [] {
      if FirstMatch(exactEntries, path, decoded, false).Some? {
        var i :| 0 <= i < |exactEntries| && Hit(exactEntries[i], path, decoded, false) &&
                 exactEntries[i].key == key;
        assert all[i] == exactEntries[i];
      } else if FirstMatch(foldEntries, path, decoded, true).Some? {
        var i :| 0 <= i < |foldEntries| && Hit(foldEntries[i], path, decoded, true) &&
                 foldEntries[i].key == key;
        assert all[|exactEntries| + i] == foldEntries[i];
      } else {
        var m := FuzzyEntries(fuzzyEntries, AnalysisPath(path, decoded), |fuzzyEntries|);
        assert all[|exactEntries| + |foldEntries| + m.index] == fuzzyEntries[m.index];
      }
    }
  }
}
