/**
 * Grouping of a listing by directory, shared by the listing view
 * (domain/entity/collection.go, application/usecase/listfilesusecase.go) and
 * the legacy HTML listing (server/list.go). A key's directory is the text
 * before its last `/`, or the sentinel `Root` when it has none; a real
 * directory named `Root` therefore shares the sentinel's group.
 */
module Grouping {
  import opened Text

  const RootDir := "Root"

  /** The group a key belongs to. */
  function DirOf(key: string): string
  {
    var i := LastIndex(key, '/');
    if i >= 0 then key[..i] else RootDir
  }

  /** The directory computation of the grouping loops. */
  method KeyDirectory(key: string) returns (dir: string)
    ensures dir == DirOf(key)
  {
    dir := RootDir;
    var lastSlashIndex := LastIndex(key, '/');
    if lastSlashIndex >= 0 {
      dir := key[..lastSlashIndex];
    }
  }

  /** A key with a `/` is its directory, a `/`, and its file name; a key without one is in the root group. */
  lemma DirOfSplits(key: string)
    ensures '/' in key ==> key == DirOf(key) + "/" + AfterLastSlash(key)
    ensures '/' !in key ==> DirOf(key) == RootDir
  {
    var i := LastIndex(key, '/');
    if i >= 0 {
      assert key == key[..i] + "/" + key[i + 1..];
    }
  }

  /** The items of `s` in directory `d`, in their listing order. */
  function InDir<T>(s: seq<T>, name: T -> string, d: string): seq<T>
  {
    if s == [] then []
    else InDir(s[..|s| - 1], name, d) + (if DirOf(name(s[|s| - 1])) == d then [s[|s| - 1]] else [])
  }

  /** Every directory some item of `s` lies in. */
  ghost function Dirs<T>(s: seq<T>, name: T -> string): set<string>
  {
    set i | 0 <= i < |s| :: DirOf(name(s[i]))
  }

  ghost predicate Distinct(ds: seq<string>)
  {
    forall i, j :: 0 <= i < j < |ds| ==> ds[i] != ds[j]
  }

  /** The multiset union of the groups of `s` named by `ds`. */
  ghost function SumDirs<T>(s: seq<T>, name: T -> string, ds: seq<string>): multiset<T>
  {
    if ds == [] then multiset{} else multiset(InDir(s, name, ds[0])) + SumDirs(s, name, ds[1..])
  }

  function Concat<T>(groups: seq<seq<T>>): seq<T>
  {
    if groups == [] then [] else groups[0] + Concat(groups[1..])
  }

  /** The tail of a duplicate-free list is duplicate-free and lacks the head. */
  lemma DistinctTail(ds: seq<string>)
    requires ds != [] && Distinct(ds)
    ensures Distinct(ds[1..]) && ds[0] !in ds[1..]
  {
    var rest := ds[1..];
    forall i, j | 0 <= i < j < |rest| ensures rest[i] != rest[j] {
      assert rest[i] == ds[i + 1] && rest[j] == ds[j + 1];
    }
  }

  /** Appending an item outside every listed directory leaves their groups as they were. */
  lemma {:induction false} SumDirsAppendOutside<T>(s: seq<T>, name: T -> string, x: T, ds: seq<string>)
    requires DirOf(name(x)) !in ds
    ensures SumDirs(s + [x], name, ds) == SumDirs(s, name, ds)
  {
    if ds != [] {
      SumDirsAppendOutside(s, name, x, ds[1..]);
      InDirSnoc(s, name, x, ds[0]);
    }
  }

  /** Appending an item in one of a list of distinct directories adds it exactly once. */
  lemma {:induction false} SumDirsAppendInside<T>(s: seq<T>, name: T -> string, x: T, ds: seq<string>)
    requires Distinct(ds)
    requires DirOf(name(x)) in ds
    ensures SumDirs(s + [x], name, ds) == SumDirs(s, name, ds) + multiset{x}
  {
    var rest := ds[1..];
    DistinctTail(ds);
    var head := multiset(InDir(s, name, ds[0]));
    var tail := SumDirs(s, name, rest);
    if DirOf(name(x)) == ds[0] {
      assert multiset(InDir(s + [x], name, ds[0])) == head + multiset{x} by {
        InDirSnoc(s, name, x, ds[0]);
      }
      assert SumDirs(s + [x], name, rest) == tail by {
        SumDirsAppendOutside(s, name, x, rest);
      }
    } else {
      assert multiset(InDir(s + [x], name, ds[0])) == head by {
        InDirSnoc(s, name, x, ds[0]);
      }
      assert SumDirs(s + [x], name, rest) == tail + multiset{x} by {
        SumDirsAppendInside(s, name, x, rest);
      }
    }
  }

  /**
   * The partition property: groups over a duplicate-free list of directories
   * that covers every directory of `s` together hold each item of `s` exactly
   * as often as `s` does.
   */
  lemma {:induction false} PartitionByDirs<T>(s: seq<T>, name: T -> string, ds: seq<string>)
    requires Distinct(ds)
    requires Dirs(s, name) <= set d | d in ds
    ensures SumDirs(s, name, ds) == multiset(s)
  {
    if s == [] {
      EmptyGroups(s, name, ds);
    } else {
      var init := s[..|s| - 1];
      var x := s[|s| - 1];
      assert s == init + [x];
      DirsOfInit(s, name);
      assert DirOf(name(s[|s| - 1])) in Dirs(s, name);
      PartitionByDirs(init, name, ds);
      SumDirsAppendInside(init, name, x, ds);
    }
  }

  lemma {:induction false} EmptyGroups<T>(s: seq<T>, name: T -> string, ds: seq<string>)
    requires s == []
    ensures SumDirs(s, name, ds) == multiset{}
  {
    if ds != [] {
      EmptyGroups(s, name, ds[1..]);
    }
  }

  /** Concatenating groups that are permutations of the named directories' groups gives back `SumDirs`. */
  lemma {:induction false} ConcatGroups<T>(s: seq<T>, name: T -> string, ds: seq<string>, groups: seq<seq<T>>)
    requires |groups| == |ds|
    requires forall i :: 0 <= i < |ds| ==> multiset(groups[i]) == multiset(InDir(s, name, ds[i]))
    ensures multiset(Concat(groups)) == SumDirs(s, name, ds)
  {
    if ds != [] {
      ConcatGroups(s, name, ds[1..], groups[1..]);
    }
  }

  /** A directory no item lies in has an empty group. */
  lemma {:induction false} InDirAbsent<T>(s: seq<T>, name: T -> string, d: string)
    requires d !in Dirs(s, name)
    ensures InDir(s, name, d) == []
  {
    if s != [] {
      var init := s[..|s| - 1];
      DirsOfInit(s, name);
      assert DirOf(name(s[|s| - 1])) in Dirs(s, name);
      InDirAbsent(init, name, d);
    }
  }

  /** A duplicate-free sequence holds each value at most once. */
  lemma {:induction false} DistinctCount(a: seq<string>, x: string)
    requires Distinct(a)
    ensures multiset(a)[x] <= 1
  {
    if a != [] {
      assert a == [a[0]] + a[1..];
      assert a[0] !in a[1..];
      DistinctCount(a[1..], x);
    }
  }

  /** Reordering keeps a sequence duplicate-free. */
  lemma DistinctPermutation(a: seq<string>, b: seq<string>)
    requires multiset(a) == multiset(b) && Distinct(a)
    ensures Distinct(b)
  {
    forall i, j | 0 <= i < j < |b| ensures b[i] != b[j] {
      if b[i] == b[j] {
        assert b == b[..i] + [b[i]] + b[i + 1..j] + [b[j]] + b[j + 1..];
        assert multiset(b)[b[i]] >= 2;
        DistinctCount(a, b[i]);
      }
    }
  }

  /** Dropping the last item adds no directory. */
  lemma DirsOfInit<T>(s: seq<T>, name: T -> string)
    requires s != []
    ensures Dirs(s[..|s| - 1], name) <= Dirs(s, name)
  {
    forall d | d in Dirs(s[..|s| - 1], name) ensures d in Dirs(s, name) {
      var i :| 0 <= i < |s| - 1 && DirOf(name(s[..|s| - 1][i])) == d;
      assert s[i] == s[..|s| - 1][i];
    }
  }

  /** Appending an item adds its directory. */
  lemma DirsSnoc<T>(s: seq<T>, name: T -> string, x: T)
    ensures Dirs(s + [x], name) == Dirs(s, name) + {DirOf(name(x))}
  {
    var t := s + [x];
    assert t[..|t| - 1] == s;
    DirsOfInit(t, name);
    assert t[|s|] == x;
    forall d | d in Dirs(t, name) ensures d in Dirs(s, name) + {DirOf(name(x))} {
      var k :| 0 <= k < |t| && DirOf(name(t[k])) == d;
      if k < |s| {
        assert t[k] == s[k];
      }
    }
  }

  /** Appending an item extends its own directory's group and no other. */
  lemma InDirSnoc<T>(s: seq<T>, name: T -> string, x: T, d: string)
    ensures InDir(s + [x], name, d) == InDir(s, name, d) + (if DirOf(name(x)) == d then [x] else [])
  {
    var t := s + [x];
    assert t[..|t| - 1] == s;
  }

  /** The groups of a listing, as a map from directory to its items in listing order. */
  ghost predicate GroupsOf<T>(groups: map<string, seq<T>>, s: seq<T>, name: T -> string)
  {
    groups.Keys == Dirs(s, name) && forall d :: d in groups ==> groups[d] == InDir(s, name, d)
  }

  /** Appending an item to its directory's group keeps the map equal to the groups of the longer listing. */
  lemma GroupsSnoc<T>(groups: map<string, seq<T>>, s: seq<T>, name: T -> string, x: T)
    requires GroupsOf(groups, s, name)
    ensures var d := DirOf(name(x));
      GroupsOf(groups[d := (if d in groups then groups[d] else []) + [x]], s + [x], name)
  {
    var dir := DirOf(name(x));
    var prior := if dir in groups then groups[dir] else [];
    assert prior == InDir(s, name, dir) by {
      if dir !in groups {
        InDirAbsent(s, name, dir);
      }
    }
    DirsSnoc(s, name, x);
    var g := groups[dir := prior + [x]];
    assert g.Keys == Dirs(s + [x], name);
    forall d | d in g ensures g[d] == InDir(s + [x], name, d) {
      InDirSnoc(s, name, x, d);
      if d != dir {
        assert g[d] == groups[d];
      }
    }
  }

  /**
   * Groups taken in the order of a strictly ascending list naming every
   * directory of `s` exactly once partition `s`.
   */
  lemma GroupsPartition<T>(s: seq<T>, name: T -> string, ds: seq<string>, groups: seq<seq<T>>)
    requires forall i, j :: 0 <= i < j < |ds| ==> Less(ds[i], ds[j])
    requires (set d | d in ds) == Dirs(s, name)
    requires |groups| == |ds|
    requires forall i :: 0 <= i < |ds| ==> multiset(groups[i]) == multiset(InDir(s, name, ds[i]))
    ensures multiset(Concat(groups)) == multiset(s)
  {
    forall a, b | 0 <= a < b < |ds| ensures ds[a] != ds[b] {
      LessIrreflexive(ds[a]);
    }
    ConcatGroups(s, name, ds, groups);
    PartitionByDirs(s, name, ds);
  }
}
