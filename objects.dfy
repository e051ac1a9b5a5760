/**
 * One stored object of the bucket and its classifiers
 * (domain/entity/s3object.go). Only `Key` and `Size` take part in any
 * decision; the informational fields are left out.
 */
module Objects {
  import opened Text

  datatype S3Object = S3Object(key: string, size: int)

  /** The folder rule: a key ending in `/`, or a zero-byte object whose last path component is empty or has no `.`. */
  ghost predicate FolderMarker(o: S3Object)
  {
    o.key != [] &&
    (HasSuffix(o.key, "/") ||
     (o.size == 0 && (AfterLastSlash(o.key) == [] || !Contains(AfterLastSlash(o.key), "."))))
  }

  /** The traversal rule: the key holds `..` or `//`. */
  ghost predicate Suspicious(key: string)
  {
    Contains(key, "..") || Contains(key, "//")
  }

  /** Two equal characters `c` next to each other somewhere in `s`. */
  ghost predicate Doubled(s: string, c: char)
  {
    exists i :: 0 <= i < |s| - 1 && s[i] == c && s[i + 1] == c
  }

  /** A one-character string occurs exactly when that character does. */
  lemma ContainsSingle(s: string, c: char)
    ensures Contains(s, [c]) <==> c in s
  {
    if c in s {
      var i :| 0 <= i < |s| && s[i] == c;
      assert OccursAt(s, [c], i);
    }
    if Contains(s, [c]) {
      var i :| 0 <= i <= |s| - 1 && OccursAt(s, [c], i);
      assert s[i] == s[i..i + 1][0];
    }
  }

  /** A two-character string `cc` occurs exactly when `c` appears twice in a row. */
  lemma ContainsDouble(s: string, c: char)
    ensures Contains(s, [c, c]) <==> Doubled(s, c)
  {
    if Contains(s, [c, c]) {
      var i :| 0 <= i <= |s| - 2 && OccursAt(s, [c, c], i);
      assert s[i] == s[i..i + 2][0] && s[i + 1] == s[i..i + 2][1];
    }
    if Doubled(s, c) {
      var i :| 0 <= i < |s| - 1 && s[i] == c && s[i + 1] == c;
      assert s[i..i + 2] == [c, c];
      assert OccursAt(s, [c, c], i);
    }
  }

  /** The backwards scan for the last `/` that `IsFolder` and `GetFilename` share. */
  method ScanLastSlash(s: string) returns (lastSlashIndex: int)
    ensures lastSlashIndex == LastIndex(s, '/')
    ensures lastSlashIndex >= 0 ==> s[lastSlashIndex] == '/' && '/' !in s[lastSlashIndex + 1..]
    ensures lastSlashIndex < 0 ==> '/' !in s
  {
    lastSlashIndex := -1;
    var i := |s| - 1;
    while i >= 0
      invariant -1 <= i < |s|
      invariant forall j :: i < j < |s| ==> s[j] != '/'
    {
      if s[i] == '/' {
        lastSlashIndex := i;
        return;
      }
      i := i - 1;
    }
  }

  /** containsRune: a linear scan for one character. */
  method ContainsRune(s: string, r: char) returns (found: bool)
    ensures found <==> exists i :: 0 <= i < |s| && s[i] == r
  {
    var i := 0;
    while i < |s|
      invariant 0 <= i <= |s|
      invariant forall j :: 0 <= j < i ==> s[j] != r
    {
      if s[i] == r {
        return true;
      }
      i := i + 1;
    }
    return false;
  }

  /** containsSubstring: tries every start position in turn. */
  method ContainsSubstring(s: string, substr: string) returns (found: bool)
    ensures found <==> Contains(s, substr)
    ensures |s| < |substr| ==> !found
  {
    if |s| < |substr| {
      return false;
    }
    var i := 0;
    while i <= |s| - |substr|
      invariant 0 <= i <= |s| - |substr| + 1
      invariant forall j :: 0 <= j < i ==> !OccursAt(s, substr, j)
    {
      if s[i..i + |substr|] == substr {
        assert OccursAt(s, substr, i);
        return true;
      }
      i := i + 1;
    }
    return false;
  }

  /**
   * The folder rule case by case: never the empty key; always a trailing
   * `/`; otherwise only a zero-size object whose file name has no `.`.
   */
  lemma FolderMarkerCases(o: S3Object)
    ensures o.key == [] ==> !FolderMarker(o)
    ensures o.key != [] && o.key[|o.key| - 1] == '/' ==> FolderMarker(o)
    ensures o.key != [] && o.key[|o.key| - 1] != '/' && o.size != 0 ==> !FolderMarker(o)
    ensures o.key != [] && o.key[|o.key| - 1] != '/' && o.size == 0 ==>
              (FolderMarker(o) <==> '.' !in AfterLastSlash(o.key))
  {
    if o.key != [] {
      if o.key[|o.key| - 1] == '/' {
        assert HasSuffix(o.key, "/");
      } else {
        assert !HasSuffix(o.key, "/");
        ContainsSingle(AfterLastSlash(o.key), '.');
      }
    }
  }

  method IsFolder(o: S3Object) returns (folder: bool)
    ensures folder <==> FolderMarker(o)
  {
    if |o.key| == 0 {
      return false;
    }
    if o.key[|o.key| - 1] == '/' {
      assert HasSuffix(o.key, "/");
      return true;
    }
    assert !HasSuffix(o.key, "/");
    if o.size == 0 {
      folder := UndottedName(o.key);
      return;
    }
    return false;
  }

  /** The zero-size branch of `IsFolder`: the key's file name is empty or has no `.`. */
  method UndottedName(key: string) returns (undotted: bool)
    ensures undotted <==> AfterLastSlash(key) == [] || !Contains(AfterLastSlash(key), ".")
  {
    var filename := key;
    var lastSlashIndex := ScanLastSlash(key);
    if lastSlashIndex >= 0 {
      filename := key[lastSlashIndex + 1..];
    }
    var hasDot := ContainsRune(filename, '.');
    ContainsSingle(filename, '.');
    return filename == [] || !hasDot;
  }

  method GetFilename(o: S3Object) returns (name: string)
    ensures name == AfterLastSlash(o.key)
    ensures o.key == [] ==> name == []
    ensures '/' !in o.key ==> name == o.key
    ensures '/' in o.key ==> o.key == BeforeLastSlash(o.key) + "/" + name
    ensures HasSuffix(o.key, name) && '/' !in name
  {
    if o.key == [] {
      return [];
    }
    var lastSlashIndex := ScanLastSlash(o.key);
    if lastSlashIndex == -1 {
      return o.key;
    }
    name := o.key[lastSlashIndex + 1..];
    assert o.key == o.key[..lastSlashIndex] + "/" + name;
  }

  /** GetDisplayURL; `escape` stands for `url.QueryEscape`. */
  function GetDisplayURL(o: S3Object, baseURL: string, escape: string -> string): (url: string)
    ensures url == [] <==> o.key == []
    ensures o.key != [] ==> |url| > |baseURL| && url[..|baseURL| + 1] == baseURL + "/" && url[|baseURL| + 1..] == escape(o.key)
  {
    if o.key == [] then [] else baseURL + "/" + escape(o.key)
  }

  method IsSuspicious(o: S3Object) returns (suspicious: bool)
    ensures suspicious <==> Suspicious(o.key)
    ensures suspicious <==> Doubled(o.key, '.') || Doubled(o.key, '/')
  {
    var dots := ContainsSubstring(o.key, "..");
    var slashes := ContainsSubstring(o.key, "//");
    ContainsDouble(o.key, '.');
    ContainsDouble(o.key, '/');
    suspicious := dots || slashes;
  }
}
