/**
 * The listing use case (application/usecase/listfilesusecase.go): the JSON
 * list of listable objects and the directory-grouped view model. The
 * repository's listing arrives as a `Result`; `escape` stands for
 * `url.QueryEscape` and `htmlEscape` for `html.EscapeString`.
 */
module ListUseCase {
  import opened Wrappers
  import opened Text
  import opened Sorting
  import opened Grouping
  import opened Objects
  import opened Collections

  /** dto.ObjectDTO; `displayName` is empty where the source leaves it unset. */
  datatype ObjectDTO = ObjectDTO(name: string, url: string, displayName: string)

  /** dto.ListResponseDTO. */
  datatype ListResponse = ListResponse(error: bool, message: string, objects: seq<ObjectDTO>)

  /** dto.DirectoryDTO. */
  datatype DirectoryDTO = DirectoryDTO(name: string, fileCount: int, files: seq<ObjectDTO>)

  /** dto.ListViewModelDTO. */
  datatype ListViewModel = ListViewModel(directories: seq<DirectoryDTO>)

  const ListFailurePrefix := "Failed to list objects: "
  const RootLabel := "Root Directory"

  /** What the listing endpoints show: folders dropped, then suspicious keys dropped. */
  ghost function Listable(objs: seq<S3Object>): seq<S3Object>
  {
    NonSuspicious(NonFolders(objs))
  }

  /** An object is listed exactly when it is in the listing, is no folder marker and has no suspicious key. */
  lemma ListableMembers(objs: seq<S3Object>, o: S3Object)
    ensures o in Listable(objs) <==> o in objs && !FolderMarker(o) && !Suspicious(o.key)
  {
    NonFoldersMembers(objs, o);
    NonSuspiciousMembers(NonFolders(objs), o);
  }

  /** The link to an object through the gateway. */
  function ObjectURL(baseURL: string, key: string, escape: string -> string): string
  {
    baseURL + "/" + escape(key)
  }

  /** A file entry of the view: full key, link, and the escaped file name for display. */
  function FileDTO(o: S3Object, baseURL: string, escape: string -> string, htmlEscape: string -> string): ObjectDTO
  {
    ObjectDTO(o.key, ObjectURL(baseURL, o.key, escape), htmlEscape(AfterLastSlash(o.key)))
  }

  /** The label of a directory group. */
  function DirectoryLabel(dir: string, htmlEscape: string -> string): string
  {
    if dir == RootDir then RootLabel else htmlEscape(dir)
  }

  /** The file entries of one group, in the group's order. */
  method BuildFiles(files: seq<S3Object>, baseURL: string, escape: string -> string, htmlEscape: string -> string)
    returns (fileDTOs: seq<ObjectDTO>)
    ensures |fileDTOs| == |files|
    ensures forall k :: 0 <= k < |files| ==> fileDTOs[k] == FileDTO(files[k], baseURL, escape, htmlEscape)
  {
    fileDTOs := [];
    var j := 0;
    while j < |files|
      invariant 0 <= j <= |files|
      invariant |fileDTOs| == j
      invariant forall k :: 0 <= k < j ==> fileDTOs[k] == FileDTO(files[k], baseURL, escape, htmlEscape)
    {
      var file := files[j];
      var filename := GetFilename(file);
      fileDTOs := fileDTOs + [ObjectDTO(file.key, baseURL + "/" + escape(file.key), htmlEscape(filename))];
      j := j + 1;
    }
  }

  /** Execute: the JSON listing. */
  method Execute(listing: Result<ObjectCollection, string>, baseURL: string, escape: string -> string)
    returns (response: ListResponse, err: Option<string>)
    ensures listing.Failure? ==>
              response == ListResponse(true, ListFailurePrefix + listing.error, []) && err == Some(listing.error)
    ensures listing.Success? ==>
              err == None && !response.error && response.message == [] &&
              |response.objects| == |Listable(listing.value.objects)| &&
              forall i :: 0 <= i < |response.objects| ==>
                var o := Listable(listing.value.objects)[i];
                response.objects[i] == ObjectDTO(o.key, ObjectURL(baseURL, o.key, escape), [])
  {
    if listing.Failure? {
      return ListResponse(true, ListFailurePrefix + listing.error, []), Some(listing.error);
    }
    var withoutFolders := listing.value.FilterFolders();
    var collection := withoutFolders.FilterSuspicious();
    var objects: seq<ObjectDTO> := [];
    var i := 0;
    while i < |collection.objects|
      invariant 0 <= i <= |collection.objects|
      invariant |objects| == i
      invariant forall k :: 0 <= k < i ==>
                  objects[k] == ObjectDTO(collection.objects[k].key, ObjectURL(baseURL, collection.objects[k].key, escape), [])
    {
      var obj := collection.objects[i];
      objects := objects + [ObjectDTO(obj.key, baseURL + "/" + escape(obj.key), [])];
      i := i + 1;
    }
    return ListResponse(false, [], objects), None;
  }

  /** A directory entry of the view built from directory `dir` and its objects `group`. */
  predicate DirectoryEntry(entry: DirectoryDTO, dir: string, group: seq<S3Object>, baseURL: string,
                           escape: string -> string, htmlEscape: string -> string)
  {
    && entry.name == DirectoryLabel(dir, htmlEscape)
    && entry.fileCount == |entry.files| == |group|
    && forall k :: 0 <= k < |group| ==> entry.files[k] == FileDTO(group[k], baseURL, escape, htmlEscape)
  }

  /** The directory entries, one per name, in the order of `names`. */
  method BuildDirectories(names: seq<string>, organizedFiles: map<string, seq<S3Object>>, baseURL: string,
                          escape: string -> string, htmlEscape: string -> string)
    returns (directories: seq<DirectoryDTO>)
    requires forall k :: 0 <= k < |names| ==> names[k] in organizedFiles
    ensures |directories| == |names|
    ensures forall k :: 0 <= k < |names| ==>
              DirectoryEntry(directories[k], names[k], organizedFiles[names[k]], baseURL, escape, htmlEscape)
  {
    directories := [];
    var i := 0;
    while i < |names|
      invariant 0 <= i <= |names|
      invariant |directories| == i
      invariant forall k :: 0 <= k < i ==>
                  DirectoryEntry(directories[k], names[k], organizedFiles[names[k]], baseURL, escape, htmlEscape)
    {
      var dirName := names[i];
      var files := organizedFiles[dirName];
      var fileDTOs := BuildFiles(files, baseURL, escape, htmlEscape);
      var displayDirName := dirName;
      if dirName == RootDir {
        displayDirName := RootLabel;
      } else {
        displayDirName := htmlEscape(displayDirName);
      }
      directories := directories + [DirectoryDTO(displayDirName, |files|, fileDTOs)];
      i := i + 1;
    }
  }

  /**
   * The view of a filtered listing: one entry per distinct directory in
   * ascending order, each group a sorted permutation of its directory's
   * objects, the groups a partition of the listing, and each entry built
   * from its directory and group.
   */
  ghost predicate ViewOf(listed: seq<S3Object>, dirNames: seq<string>, groups: seq<seq<S3Object>>,
                         directories: seq<DirectoryDTO>, baseURL: string,
                         escape: string -> string, htmlEscape: string -> string)
  {
    && (set d | d in dirNames) == Dirs(listed, KeyOf)
    && (forall i, j :: 0 <= i < j < |dirNames| ==> Less(dirNames[i], dirNames[j]))
    && |groups| == |dirNames| == |directories|
    && (forall i :: 0 <= i < |groups| ==>
          multiset(groups[i]) == multiset(InDir(listed, KeyOf, dirNames[i])) && SortedBy(groups[i], LowerKeyOf))
    && multiset(Concat(groups)) == multiset(listed)
    && (forall i :: 0 <= i < |groups| ==>
          DirectoryEntry(directories[i], dirNames[i], groups[i], baseURL, escape, htmlEscape))
  }

  /** `directories` is a view of `listed`: some directory names and groups make up `ViewOf`. */
  ghost predicate IsView(listed: seq<S3Object>, directories: seq<DirectoryDTO>, baseURL: string,
                         escape: string -> string, htmlEscape: string -> string)
  {
    exists dirNames, groups :: ViewOf(listed, dirNames, groups, directories, baseURL, escape, htmlEscape)
  }

  /** The groups of a map, in the order of `names`. */
  ghost function GroupsAt(names: seq<string>, organized: map<string, seq<S3Object>>): (groups: seq<seq<S3Object>>)
    requires forall k :: 0 <= k < |names| ==> names[k] in organized
    ensures |groups| == |names|
    ensures forall k :: 0 <= k < |names| ==> groups[k] == organized[names[k]]
  {
    if names == [] then [] else [organized[names[0]]] + GroupsAt(names[1..], organized)
  }

  /**
   * The grouped map, the ascending directory list and the entries built from
   * them make up the view of the listing.
   */
  lemma AssembledView(listed: seq<S3Object>, organized: map<string, seq<S3Object>>, names: seq<string>,
                      directories: seq<DirectoryDTO>, baseURL: string,
                      escape: string -> string, htmlEscape: string -> string)
    requires organized.Keys == Dirs(listed, KeyOf)
    requires forall d :: d in organized ==>
               multiset(organized[d]) == multiset(InDir(listed, KeyOf, d)) && SortedBy(organized[d], LowerKeyOf)
    requires (set d | d in names) == Dirs(listed, KeyOf)
    requires forall i, j :: 0 <= i < j < |names| ==> Less(names[i], names[j])
    requires forall k :: 0 <= k < |names| ==> names[k] in organized
    requires |directories| == |names|
    requires forall k :: 0 <= k < |names| ==>
               DirectoryEntry(directories[k], names[k], organized[names[k]], baseURL, escape, htmlEscape)
    ensures ViewOf(listed, names, GroupsAt(names, organized), directories, baseURL, escape, htmlEscape)
  {
    GroupsPartition(listed, KeyOf, names, GroupsAt(names, organized));
  }

  /** The view built from an already filtered collection. */
  method BuildView(collection: ObjectCollection, baseURL: string, escape: string -> string, htmlEscape: string -> string)
    returns (directories: seq<DirectoryDTO>)
    ensures IsView(collection.objects, directories, baseURL, escape, htmlEscape)
  {
    var organizedFiles := collection.OrganizeByDirectory();
    var names := collection.DirectoryNames();
    assert forall k :: 0 <= k < |names| ==> names[k] in organizedFiles;
    directories := BuildDirectories(names, organizedFiles, baseURL, escape, htmlEscape);
    AssembledView(collection.objects, organizedFiles, names, directories, baseURL, escape, htmlEscape);
  }

  /** ExecuteForView: the directory-grouped view of the listable objects. */
  method ExecuteForView(listing: Result<ObjectCollection, string>, baseURL: string,
                        escape: string -> string, htmlEscape: string -> string)
    returns (view: Result<ListViewModel, string>)
    ensures listing.Failure? ==> view == Failure(listing.error)
    ensures listing.Success? ==>
              view.Success? && IsView(Listable(listing.value.objects), view.value.directories, baseURL, escape, htmlEscape)
  {
    if listing.Failure? {
      return Failure(listing.error);
    }
    var withoutFolders := listing.value.FilterFolders();
    var collection := withoutFolders.FilterSuspicious();
    var directories := BuildView(collection, baseURL, escape, htmlEscape);
    view := Success(ListViewModel(directories));
  }
}
