/**
 * A listing snapshot and the operations on it (domain/entity/collection.go):
 * the order-preserving filters, the first-match lookups, the
 * filename-anchored fuzzy lookup, and grouping by directory.
 */
module Collections {
  import opened Wrappers
  import opened Text
  import opened Sorting
  import opened Grouping
  import opened Objects

  function KeyOf(o: S3Object): string { o.key }

  /** The sort key of `OrganizeByDirectory`: the lowercased key. */
  function LowerKeyOf(o: S3Object): string { Lower(o.key) }

  function Id(s: string): string { s }

  // ---------------------------------------------------------------------
  // Filters

  /** The objects of `s` that are not folder markers, in listing order. */
  ghost function NonFolders(s: seq<S3Object>): seq<S3Object>
  {
    if s == [] then []
    else NonFolders(s[..|s| - 1]) + (if FolderMarker(s[|s| - 1]) then [] else [s[|s| - 1]])
  }

  /** The objects of `s` whose key is not suspicious, in listing order. */
  ghost function NonSuspicious(s: seq<S3Object>): seq<S3Object>
  {
    if s == [] then []
    else NonSuspicious(s[..|s| - 1]) + (if Suspicious(s[|s| - 1].key) then [] else [s[|s| - 1]])
  }

  lemma {:induction false} NonFoldersMembers(s: seq<S3Object>, o: S3Object)
    ensures o in NonFolders(s) <==> o in s && !FolderMarker(o)
    ensures |NonFolders(s)| <= |s|
  {
    if s != [] {
      NonFoldersMembers(s[..|s| - 1], o);
      assert s == s[..|s| - 1] + [s[|s| - 1]];
    }
  }

  lemma {:induction false} NonSuspiciousMembers(s: seq<S3Object>, o: S3Object)
    ensures o in NonSuspicious(s) <==> o in s && !Suspicious(o.key)
    ensures |NonSuspicious(s)| <= |s|
  {
    if s != [] {
      NonSuspiciousMembers(s[..|s| - 1], o);
      assert s == s[..|s| - 1] + [s[|s| - 1]];
    }
  }

  // ---------------------------------------------------------------------
  // First-match lookups

  /** Index of the first object whose key byte-equals `path`, or -1. */
  function ExactIndex(s: seq<S3Object>, path: string): (i: int)
    ensures -1 <= i < |s|
    ensures i >= 0 ==> s[i].key == path
    ensures forall j :: 0 <= j < |s| && (i < 0 || j < i) ==> s[j].key != path
  {
    if s == [] then -1
    else if s[0].key == path then 0
    else
      var k := ExactIndex(s[1..], path);
      if k < 0 then -1 else k + 1
  }

  /** Index of the first object whose key equals `path` up to case, or -1. */
  function FoldIndex(s: seq<S3Object>, path: string): (i: int)
    ensures -1 <= i < |s|
    ensures i >= 0 ==> EqualFold(s[i].key, path)
    ensures forall j :: 0 <= j < |s| && (i < 0 || j < i) ==> !EqualFold(s[j].key, path)
  {
    if s == [] then -1
    else if EqualFold(s[0].key, path) then 0
    else
      var k := FoldIndex(s[1..], path);
      if k < 0 then -1 else k + 1
  }

  /** The object at an index from `ExactIndex` or `FoldIndex`; `None` stands for Go's nil. */
  function At(s: seq<S3Object>, i: int): Option<S3Object>
    requires i < |s|
  {
    if i < 0 then None else Some(s[i])
  }

  /** Whenever the exact lookup succeeds the case-insensitive one does too, no later. */
  lemma ExactImpliesFold(s: seq<S3Object>, path: string)
    ensures ExactIndex(s, path) >= 0 ==> 0 <= FoldIndex(s, path) <= ExactIndex(s, path)
  {
  }

  // ---------------------------------------------------------------------
  // Fuzzy lookup

  function Min(a: int, b: int): int { if a < b then a else b }

  /** The number of positions below `n` where `a` and `b` hold the same character. */
  function Similar(a: string, b: string, n: nat): (c: nat)
    requires n <= |a| && n <= |b|
    ensures c <= n
  {
    if n == 0 then 0 else Similar(a, b, n - 1) + (if a[n - 1] == b[n - 1] then 1 else 0)
  }

  /** `(similar * 40) / maxLen` lies in [0, 40] whenever `similar <= maxLen`. */
  lemma ScaledBound(similar: nat, maxLen: nat)
    requires 0 < maxLen && similar <= maxLen
    ensures 0 <= (similar * 40) / maxLen <= 40
  {
    var q := (similar * 40) / maxLen;
    assert q * maxLen <= similar * 40 <= 40 * maxLen;
  }

  /** The positional branch: agreeing positions over the shorter length, scaled to 40. */
  function PositionalScore(req: string, obj: string): (score: int)
    ensures 0 <= score <= 40
  {
    var m := Min(|req|, |obj|);
    if m > 0 then
      var c := Similar(req, obj, m);
      ScaledBound(c, m);
      (c * 40) / m
    else 0
  }

  /** The folder similarity score: 100 equal, 50 containment, else scaled positional agreement. */
  function FolderScore(req: string, obj: string): (score: int)
    ensures 0 <= score <= 100
    ensures score == 100 <==> req == obj
    ensures score != 100 && score != 50 ==> score <= 40
  {
    if req == obj then 100
    else if Contains(obj, req) || Contains(req, obj) then 50
    else PositionalScore(req, obj)
  }

  /** The empty string occurs in every string. */
  lemma ContainsEmpty(s: string)
    ensures Contains(s, [])
  {
    assert OccursAt(s, [], 0);
  }

  /**
   * An empty folder is contained in the other, so its score is at least 50:
   * the `maxLen > 0` guard of the positional branch never fails.
   */
  lemma EmptyFolderScore(req: string, obj: string)
    requires req == [] || obj == []
    ensures FolderScore(req, obj) >= 50
  {
    ContainsEmpty(obj);
    ContainsEmpty(req);
  }

  /** The object is a fuzzy candidate: both paths have a `/` and their last components fold-equal. */
  predicate Candidate(o: S3Object, path: string)
  {
    '/' in path && '/' in o.key && EqualFold(AfterLastSlash(o.key), AfterLastSlash(path))
  }

  /** The score of a candidate: the lowercased folder prefixes compared. */
  function CandidateScore(o: S3Object, path: string): int
  {
    FolderScore(Lower(BeforeLastSlash(path)), Lower(BeforeLastSlash(o.key)))
  }

  /** The candidate test for one request path, as a function value. */
  function CandidateFor(path: string): S3Object -> bool
  {
    o => Candidate(o, path)
  }

  /** The candidate score for one request path, as a function value. */
  function ScoreFor(path: string): S3Object -> int
  {
    o => CandidateScore(o, path)
  }

  lemma ScoreForRange(path: string)
    ensures forall o :: 0 <= ScoreFor(path)(o) <= 100
  {
  }

  /** The state of the fuzzy scan: index of the best candidate so far (-1 for none) and its score. */
  datatype FuzzyMatch = FuzzyMatch(index: int, score: int)

  /**
   * The best-candidate scan over the first `n` items: an eligible item
   * replaces the current best only when its score is strictly greater.
   */
  function BestPrefix<T>(s: seq<T>, eligible: T -> bool, score: T -> int, n: nat): (m: FuzzyMatch)
    requires n <= |s|
    ensures -1 <= m.index < n
  {
    if n == 0 then FuzzyMatch(-1, 0)
    else
      var prev := BestPrefix(s, eligible, score, n - 1);
      var x := s[n - 1];
      if eligible(x) && score(x) > prev.score
      then FuzzyMatch(n - 1, score(x))
      else prev
  }

  /** The fuzzy scan over the first `n` objects. */
  function FuzzyPrefix(s: seq<S3Object>, path: string, n: nat): (m: FuzzyMatch)
    requires n <= |s|
    ensures -1 <= m.index < n
  {
    BestPrefix(s, CandidateFor(path), ScoreFor(path), n)
  }

  function Fuzzy(s: seq<S3Object>, path: string): (m: FuzzyMatch)
    ensures -1 <= m.index < |s|
  {
    FuzzyPrefix(s, path, |s|)
  }

  /** With scores in [0, 100], the best score lies in [0, 100] and is 0 exactly when nothing was found. */
  lemma {:induction false} BestScoreRange<T>(s: seq<T>, eligible: T -> bool, score: T -> int, n: nat)
    requires n <= |s|
    requires forall x :: 0 <= score(x) <= 100
    ensures 0 <= BestPrefix(s, eligible, score, n).score <= 100
    ensures BestPrefix(s, eligible, score, n).index < 0 <==> BestPrefix(s, eligible, score, n).score == 0
  {
    if n > 0 {
      BestScoreRange(s, eligible, score, n - 1);
    }
  }

  /** What is found is eligible, and the score returned is its own. */
  lemma {:induction false} BestWinner<T>(s: seq<T>, eligible: T -> bool, score: T -> int, n: nat)
    requires n <= |s|
    ensures var m := BestPrefix(s, eligible, score, n);
      m.index >= 0 ==> eligible(s[m.index]) && score(s[m.index]) == m.score
  {
    if n > 0 {
      BestWinner(s, eligible, score, n - 1);
    }
  }

  /** No eligible item scores above the score returned. */
  lemma {:induction false} BestMaximal<T>(s: seq<T>, eligible: T -> bool, score: T -> int, n: nat)
    requires n <= |s|
    ensures forall j :: 0 <= j < n && eligible(s[j]) ==> score(s[j]) <= BestPrefix(s, eligible, score, n).score
  {
    if n > 0 {
      BestMaximal(s, eligible, score, n - 1);
    }
  }

  /** Ties keep the earliest: every earlier eligible item scores strictly less than the one found. */
  lemma {:induction false} BestEarliest<T>(s: seq<T>, eligible: T -> bool, score: T -> int, n: nat)
    requires n <= |s|
    ensures var m := BestPrefix(s, eligible, score, n);
      m.index >= 0 ==> forall j :: 0 <= j < m.index && eligible(s[j]) ==> score(s[j]) < m.score
  {
    if n > 0 {
      BestEarliest(s, eligible, score, n - 1);
      BestMaximal(s, eligible, score, n - 1);
    }
  }

  /**
   * What the fuzzy lookup promises: a score in [0, 100] that is 0 exactly
   * when nothing is found; the object found is a candidate (a `/` in its key
   * and a last component equal to the request's up to case) scoring exactly
   * the score returned; no candidate scores more; every earlier candidate
   * scores less.
   */
  lemma FuzzySpec(s: seq<S3Object>, path: string)
    ensures var m := Fuzzy(s, path);
      && 0 <= m.score <= 100
      && (m.index < 0 <==> m.score == 0)
      && (m.index >= 0 ==> Candidate(s[m.index], path) && CandidateScore(s[m.index], path) == m.score)
      && (forall j :: 0 <= j < |s| && Candidate(s[j], path) ==> CandidateScore(s[j], path) <= m.score)
      && (m.index >= 0 ==>
            forall j :: 0 <= j < m.index && Candidate(s[j], path) ==> CandidateScore(s[j], path) < m.score)
  {
    ScoreForRange(path);
    BestScoreRange(s, CandidateFor(path), ScoreFor(path), |s|);
    BestWinner(s, CandidateFor(path), ScoreFor(path), |s|);
    BestMaximal(s, CandidateFor(path), ScoreFor(path), |s|);
    BestEarliest(s, CandidateFor(path), ScoreFor(path), |s|);
  }

  /** One step of the fuzzy scan. */
  lemma FuzzyStep(s: seq<S3Object>, path: string, i: nat)
    requires i < |s|
    ensures var prev := FuzzyPrefix(s, path, i);
      FuzzyPrefix(s, path, i + 1) ==
        if Candidate(s[i], path) && CandidateScore(s[i], path) > prev.score
        then FuzzyMatch(i, CandidateScore(s[i], path))
        else prev
  {
  }

  /** The fuzzy lookup's score lies in [0, 100] and is 0 exactly when nothing was found. */
  lemma FuzzyRange(s: seq<S3Object>, path: string)
    ensures 0 <= Fuzzy(s, path).score <= 100
    ensures Fuzzy(s, path).index < 0 <==> Fuzzy(s, path).score == 0
  {
    ScoreForRange(path);
    BestScoreRange(s, CandidateFor(path), ScoreFor(path), |s|);
  }

  /** A request path without `/` has no fuzzy match. */
  lemma {:induction false} FuzzyNeedsSlash(s: seq<S3Object>, path: string, n: nat)
    requires n <= |s| && '/' !in path
    ensures FuzzyPrefix(s, path, n) == FuzzyMatch(-1, 0)
  {
    if n > 0 {
      FuzzyNeedsSlash(s, path, n - 1);
    }
  }

  /** The scoring switch of the fuzzy lookup, with its positional-agreement loop. */
  method ScoreFolders(reqFolder: string, objFolder: string) returns (score: int)
    ensures score == FolderScore(reqFolder, objFolder)
  {
    score := 0;
    if reqFolder == objFolder {
      score := 100;
    } else if Contains(objFolder, reqFolder) || Contains(reqFolder, objFolder) {
      score := 50;
    } else {
      var similarChars := 0;
      var maxLen := Min(|reqFolder|, |objFolder|);
      var i := 0;
      while i < maxLen
        invariant 0 <= i <= maxLen
        invariant similarChars == Similar(reqFolder, objFolder, i)
      {
        if reqFolder[i] == objFolder[i] {
          similarChars := similarChars + 1;
        }
        i := i + 1;
      }
      if maxLen > 0 {
        score := (similarChars * 40) / maxLen;
      }
    }
  }

  /** The fuzzy loop's best match and score agree with the scan over the first `i` objects. */
  predicate Tracks(s: seq<S3Object>, path: string, i: nat, bestMatch: Option<S3Object>, bestMatchScore: int)
    requires i <= |s|
  {
    bestMatch == At(s, FuzzyPrefix(s, path, i).index) && bestMatchScore == FuzzyPrefix(s, path, i).score
  }

  /** One step of the fuzzy loop keeps its best match in step with the scan. */
  lemma FuzzyAdvance(s: seq<S3Object>, path: string, i: nat, bestMatch: Option<S3Object>, bestMatchScore: int,
                     candidate: bool, score: int)
    requires i < |s| && Tracks(s, path, i, bestMatch, bestMatchScore)
    requires candidate == Candidate(s[i], path)
    requires candidate ==> score == CandidateScore(s[i], path)
    ensures if candidate && score > bestMatchScore
            then Tracks(s, path, i + 1, Some(s[i]), score)
            else Tracks(s, path, i + 1, bestMatch, bestMatchScore)
  {
    FuzzyStep(s, path, i);
  }

  /** Once the loop has seen every object, its best match and score are the lookup's result. */
  lemma FuzzyFound(s: seq<S3Object>, path: string, bestMatch: Option<S3Object>, bestMatchScore: int)
    requires Tracks(s, path, |s|, bestMatch, bestMatchScore)
    ensures bestMatch == At(s, Fuzzy(s, path).index) && bestMatchScore == Fuzzy(s, path).score
    ensures 0 <= bestMatchScore <= 100
    ensures bestMatch.None? <==> bestMatchScore == 0
  {
    FuzzyRange(s, path);
  }

  /** One object of the fuzzy loop: whether it is a candidate for the path, and its score if so. */
  method ScoreObject(obj: S3Object, path: string, requestedFilename: string) returns (candidate: bool, score: int)
    requires '/' in path && requestedFilename == AfterLastSlash(path)
    ensures candidate == Candidate(obj, path)
    ensures candidate ==> score == CandidateScore(obj, path)
  {
    candidate, score := false, 0;
    if '/' !in obj.key {
      return;
    }
    var objectFilename := AfterLastSlash(obj.key);
    if EqualFold(objectFilename, requestedFilename) {
      var reqFolder := Lower(BeforeLastSlash(path));
      var objFolder := Lower(BeforeLastSlash(obj.key));
      score := ScoreFolders(reqFolder, objFolder);
      candidate := true;
    }
  }

  // ---------------------------------------------------------------------
  // The collection

  class ObjectCollection {
    var objects: seq<S3Object>

    /** NewObjectCollection. */
    constructor ()
      ensures objects == []
    {
      objects := [];
    }

    method Add(obj: S3Object)
      modifies this
      ensures objects == old(objects) + [obj]
    {
      objects := objects + [obj];
    }

    function Size(): nat
      reads this
    {
      |objects|
    }

    method FilterFolders() returns (result: ObjectCollection)
      ensures fresh(result)
      ensures result.objects == NonFolders(objects)
    {
      result := new ObjectCollection();
      var i := 0;
      while i < |objects|
        invariant 0 <= i <= |objects|
        invariant fresh(result)
        invariant result.objects == NonFolders(objects[..i])
      {
        var obj := objects[i];
        var folder := IsFolder(obj);
        if !folder {
          result.Add(obj);
        }
        assert objects[..i + 1][..i] == objects[..i];
        i := i + 1;
      }
      assert objects[..i] == objects;
    }

    method FilterSuspicious() returns (result: ObjectCollection)
      ensures fresh(result)
      ensures result.objects == NonSuspicious(objects)
    {
      result := new ObjectCollection();
      var i := 0;
      while i < |objects|
        invariant 0 <= i <= |objects|
        invariant fresh(result)
        invariant result.objects == NonSuspicious(objects[..i])
      {
        var obj := objects[i];
        var suspicious := IsSuspicious(obj);
        if !suspicious {
          result.Add(obj);
        }
        assert objects[..i + 1][..i] == objects[..i];
        i := i + 1;
      }
      assert objects[..i] == objects;
    }

    method FindByPath(path: string) returns (found: Option<S3Object>)
      ensures found == At(objects, ExactIndex(objects, path))
    {
      var i := 0;
      while i < |objects|
        invariant 0 <= i <= |objects|
        invariant forall j :: 0 <= j < i ==> objects[j].key != path
      {
        if objects[i].key == path {
          return Some(objects[i]);
        }
        i := i + 1;
      }
      return None;
    }

    method FindByCaseInsensitivePath(path: string) returns (found: Option<S3Object>)
      ensures found == At(objects, FoldIndex(objects, path))
    {
      var i := 0;
      while i < |objects|
        invariant 0 <= i <= |objects|
        invariant forall j :: 0 <= j < i ==> !EqualFold(objects[j].key, path)
      {
        if EqualFold(objects[i].key, path) {
          return Some(objects[i]);
        }
        i := i + 1;
      }
      return None;
    }

    method FindByFilenameFuzzy(path: string) returns (bestMatch: Option<S3Object>, bestMatchScore: int)
      ensures bestMatch == At(objects, Fuzzy(objects, path).index)
      ensures bestMatchScore == Fuzzy(objects, path).score
      ensures 0 <= bestMatchScore <= 100
      ensures bestMatch.None? <==> bestMatchScore == 0
      ensures '/' !in path ==> bestMatch.None?
    {
      var objs := objects;
      if '/' !in path {
        FuzzyNeedsSlash(objs, path, |objs|);
        return None, 0;
      }
      var requestedFilename := AfterLastSlash(path);
      bestMatch, bestMatchScore := None, 0;
      var i := 0;
      while i < |objs|
        invariant 0 <= i <= |objs|
        invariant Tracks(objs, path, i, bestMatch, bestMatchScore)
      {
        var obj := objs[i];
        var candidate, score := ScoreObject(obj, path, requestedFilename);
        FuzzyAdvance(objs, path, i, bestMatch, bestMatchScore, candidate, score);
        if candidate && score > bestMatchScore {
          bestMatchScore := score;
          bestMatch := Some(obj);
        }
        i := i + 1;
      }
      FuzzyFound(objs, path, bestMatch, bestMatchScore);
    }

    method OrganizeByDirectory() returns (organized: map<string, seq<S3Object>>)
      ensures organized.Keys == Dirs(objects, KeyOf)
      ensures forall d :: d in organized ==>
                multiset(organized[d]) == multiset(InDir(objects, KeyOf, d)) &&
                SortedBy(organized[d], LowerKeyOf)
    {
      var objs := objects;
      var groups: map<string, seq<S3Object>> := map[];
      var i := 0;
      while i < |objs|
        invariant 0 <= i <= |objs|
        invariant GroupsOf(groups, objs[..i], KeyOf)
      {
        var obj := objs[i];
        var dir := KeyDirectory(obj.key);
        assert objs[..i + 1] == objs[..i] + [obj];
        GroupsSnoc(groups, objs[..i], KeyOf, obj);
        groups := groups[dir := (if dir in groups then groups[dir] else []) + [obj]];
        i := i + 1;
      }
      assert objs[..i] == objs;
      organized := SortGroups(groups);
    }

    method DirectoryNames() returns (dirs: seq<string>)
      ensures (set d | d in dirs) == Dirs(objects, KeyOf)
      ensures forall i, j :: 0 <= i < j < |dirs| ==> Less(dirs[i], dirs[j])
    {
      var dirMap: map<string, bool> := map[];
      var i := 0;
      while i < |objects|
        invariant 0 <= i <= |objects|
        invariant dirMap.Keys == Dirs(objects[..i], KeyOf)
      {
        var obj := objects[i];
        var dir := RootDir;
        var lastSlashIndex := LastIndex(obj.key, '/');
        if lastSlashIndex >= 0 {
          dir := obj.key[..lastSlashIndex];
        }
        assert dir == DirOf(KeyOf(obj));
        assert objects[..i + 1] == objects[..i] + [obj];
        DirsSnoc(objects[..i], KeyOf, obj);
        dirMap := dirMap[dir := true];
        i := i + 1;
      }
      assert objects[..i] == objects;
      var unsorted := KeysOf(dirMap);
      dirs := SortStrictly(unsorted);
    }
  }


  /** `sort.Slice` applied to every group of a map, each by lowercased key. */
  method SortGroups(groups: map<string, seq<S3Object>>) returns (sorted: map<string, seq<S3Object>>)
    ensures sorted.Keys == groups.Keys
    ensures forall d :: d in sorted ==>
              multiset(sorted[d]) == multiset(groups[d]) && SortedBy(sorted[d], LowerKeyOf)
  {
    sorted := groups;
    var pending := groups.Keys;
    while pending != {}
      invariant pending <= groups.Keys
      invariant sorted.Keys == groups.Keys
      invariant forall d :: d in sorted ==> multiset(sorted[d]) == multiset(groups[d])
      invariant forall d :: d in sorted && d !in pending ==> SortedBy(sorted[d], LowerKeyOf)
      decreases |pending|
    {
      var d :| d in pending;
      SortByCorrect(groups[d], LowerKeyOf);
      sorted := sorted[d := SortBy(groups[d], LowerKeyOf)];
      pending := pending - {d};
    }
  }

  /** The keys of a map, in the order a range loop happens to visit them. */
  method KeysOf<V>(m: map<string, V>) returns (keys: seq<string>)
    ensures (set d | d in keys) == m.Keys
    ensures Distinct(keys)
  {
    keys := [];
    var pending := m.Keys;
    while pending != {}
      invariant pending <= m.Keys
      invariant (set d | d in keys) == m.Keys - pending
      invariant Distinct(keys)
      decreases |pending|
    {
      var d :| d in pending;
      assert (set x | x in keys + [d]) == (set x | x in keys) + {d};
      keys := keys + [d];
      pending := pending - {d};
    }
  }

  /** `sort.Strings` on duplicate-free input: the result ascends strictly and holds the same strings. */
  method SortStrictly(unsorted: seq<string>) returns (dirs: seq<string>)
    requires Distinct(unsorted)
    ensures (set d | d in dirs) == (set d | d in unsorted)
    ensures forall i, j :: 0 <= i < j < |dirs| ==> Less(dirs[i], dirs[j])
  {
    dirs := SortBy(unsorted, Id);
    SortByCorrect(unsorted, Id);
    DistinctPermutation(unsorted, dirs);
    forall d | d in dirs ensures d in unsorted {
      assert d in multiset(dirs);
    }
    forall d | d in unsorted ensures d in dirs {
      assert d in multiset(unsorted);
    }
    forall i, j | 0 <= i < j < |dirs| ensures Less(dirs[i], dirs[j]) {
      LeqDistinctIsLess(dirs[i], dirs[j]);
    }
  }
}
