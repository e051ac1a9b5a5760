/**
 * The legacy listing endpoint (server/list.go): JSON or an HTML view
 * grouped by directory. `html.EscapeString` is the parameter `htmlEscape`.
 */
module LegacyList {
  import opened Text
  import opened Sorting
  import opened Grouping
  import opened Collections
  import opened Repository
  import opened Objects
  import opened ListUseCase
  import opened Handlers
  import opened LegacyTypes
  import opened LegacyMinio

  /** The sort key of a file entry: its lowercased name. */
  function LowerNameOf(f: FileInfo): string
  {
    Lower(f.item.name)
  }

  /** The file entry of a listed item: the item and its escaped file name. */
  function Info(item: ListItem, htmlEscape: string -> string): FileInfo
  {
    FileInfo(item, htmlEscape(AfterLastSlash(item.name)))
  }

  /** The file entries of a listing, in listing order. */
  function Infos(files: seq<ListItem>, htmlEscape: string -> string): (infos: seq<FileInfo>)
    ensures |infos| == |files|
  {
    seq(|files|, i requires 0 <= i < |files| => Info(files[i], htmlEscape))
  }

  /** The entries of each group. */
  function FilesOf(directories: seq<Directory>): (groups: seq<seq<FileInfo>>)
    ensures |groups| == |directories|
    ensures forall i :: 0 <= i < |groups| ==> groups[i] == directories[i].files
  {
    if directories == [] then [] else [directories[0].files] + FilesOf(directories[1..])
  }

  /** The reply of the legacy listing endpoint. */
  datatype Reply = Json(response: Response) | Html(directories: seq<Directory>)

  /** A group of the view: its label, its count, and its entries. */
  predicate DirectoryOf(directory: Directory, dir: string, htmlEscape: string -> string)
  {
    directory.name == DirectoryLabel(dir, htmlEscape) && directory.fileCount == |directory.files|
  }

  /** list: JSON of the legacy listing, or the HTML view of it when the Accept header asks for HTML. */
  method List(accept: string, entries: seq<ListEntry>, baseURL: string, escape: string -> string,
              htmlEscape: string -> string)
    returns (reply: Reply)
    ensures !WantsHtml(accept) ==> reply == Json(Response(false, [], Listing(entries, baseURL, escape)))
    ensures WantsHtml(accept) ==>
              reply.Html? && IsView(Infos(Listing(entries, baseURL, escape), htmlEscape), reply.directories, htmlEscape)
  {
    var list := LegacyMinio.List(entries, baseURL, escape);
    var html := ContainsSubstring(accept, "text/html");
    if html {
      var directories := RenderHTMLList(list, htmlEscape);
      return Html(directories);
    }
    return Json(Response(false, [], list));
  }

  /** The directory of one listed item and its file entry. */
  method FileEntry(file: ListItem, htmlEscape: string -> string) returns (dir: string, fileInfo: FileInfo)
    ensures fileInfo == Info(file, htmlEscape)
    ensures dir == DirOf(NameOf(fileInfo))
  {
    dir := RootDir;
    var lastSlashIndex := LastIndex(file.name, '/');
    if lastSlashIndex >= 0 {
      dir := file.name[..lastSlashIndex];
    }
    var filename := file.name;
    if lastSlashIndex >= 0 {
      filename := file.name[lastSlashIndex + 1..];
    }
    fileInfo := FileInfo(file, htmlEscape(filename));
  }

  /** Groups the entries by directory: the map from each directory to its entries, in listing order. */
  method GroupFiles(files: seq<ListItem>, htmlEscape: string -> string)
    returns (organizedFiles: map<string, seq<FileInfo>>)
    ensures GroupsOf(organizedFiles, Infos(files, htmlEscape), NameOf)
  {
    ghost var infos := Infos(files, htmlEscape);
    organizedFiles := map[];
    var i := 0;
    while i < |files|
      invariant 0 <= i <= |files|
      invariant GroupsOf(organizedFiles, infos[..i], NameOf)
    {
      var dir, fileInfo := FileEntry(files[i], htmlEscape);
      assert fileInfo == infos[i];
      assert infos[..i + 1] == infos[..i] + [fileInfo];
      GroupsSnoc(organizedFiles, infos[..i], NameOf, fileInfo);
      organizedFiles := organizedFiles[dir := (if dir in organizedFiles then organizedFiles[dir] else []) + [fileInfo]];
      i := i + 1;
    }
    assert infos[..i] == infos;
  }

  /** One group per directory name, in the order given, each sorted by lowercased name. */
  method BuildDirectories(dirs: seq<string>, organizedFiles: map<string, seq<FileInfo>>, htmlEscape: string -> string)
    returns (directories: seq<Directory>)
    requires forall k :: 0 <= k < |dirs| ==> dirs[k] in organizedFiles
    ensures |directories| == |dirs|
    ensures forall k :: 0 <= k < |dirs| ==>
              DirectoryOf(directories[k], dirs[k], htmlEscape) &&
              multiset(directories[k].files) == multiset(organizedFiles[dirs[k]]) &&
              SortedBy(directories[k].files, LowerNameOf)
  {
    directories := [];
    var i := 0;
    while i < |dirs|
      invariant 0 <= i <= |dirs|
      invariant |directories| == i
      invariant forall k :: 0 <= k < i ==>
                  DirectoryOf(directories[k], dirs[k], htmlEscape) &&
                  multiset(directories[k].files) == multiset(organizedFiles[dirs[k]]) &&
                  SortedBy(directories[k].files, LowerNameOf)
    {
      var dir := dirs[i];
      var files := SortBy(organizedFiles[dir], LowerNameOf);
      SortByCorrect(organizedFiles[dir], LowerNameOf);
      var dirName := dir;
      if dir == RootDir {
        dirName := RootLabel;
      } else {
        dirName := htmlEscape(dirName);
      }
      directories := directories + [Directory(dirName, |files|, files)];
      i := i + 1;
    }
  }

  /**
   * The HTML view of the entries: one group per distinct directory in
   * ascending order, each holding that directory's entries sorted by
   * lowercased name, the groups a partition of the entries.
   */
  ghost predicate ViewOf(infos: seq<FileInfo>, dirNames: seq<string>, directories: seq<Directory>,
                         htmlEscape: string -> string)
  {
    && (set d | d in dirNames) == Dirs(infos, NameOf)
    && (forall i, j :: 0 <= i < j < |dirNames| ==> Less(dirNames[i], dirNames[j]))
    && |directories| == |dirNames|
    && (forall i :: 0 <= i < |directories| ==>
          && DirectoryOf(directories[i], dirNames[i], htmlEscape)
          && multiset(directories[i].files) == multiset(InDir(infos, NameOf, dirNames[i]))
          && SortedBy(directories[i].files, LowerNameOf))
    && multiset(Concat(FilesOf(directories))) == multiset(infos)
  }

  /** `directories` is a view of `infos` for some list of directory names. */
  ghost predicate IsView(infos: seq<FileInfo>, directories: seq<Directory>, htmlEscape: string -> string)
  {
    exists dirNames :: ViewOf(infos, dirNames, directories, htmlEscape)
  }

  /** The grouped map, the ascending directory list and the groups built from them make up the view. */
  lemma AssembledView(infos: seq<FileInfo>, organizedFiles: map<string, seq<FileInfo>>, dirs: seq<string>,
                      directories: seq<Directory>, htmlEscape: string -> string)
    requires GroupsOf(organizedFiles, infos, NameOf)
    requires (set d | d in dirs) == organizedFiles.Keys
    requires forall i, j :: 0 <= i < j < |dirs| ==> Less(dirs[i], dirs[j])
    requires |directories| == |dirs|
    requires forall k :: 0 <= k < |dirs| ==>
               DirectoryOf(directories[k], dirs[k], htmlEscape) &&
               multiset(directories[k].files) == multiset(organizedFiles[dirs[k]]) &&
               SortedBy(directories[k].files, LowerNameOf)
    ensures ViewOf(infos, dirs, directories, htmlEscape)
  {
    var groups := FilesOf(directories);
    forall i | 0 <= i < |dirs|
      ensures multiset(directories[i].files) == multiset(InDir(infos, NameOf, dirs[i]))
      ensures multiset(groups[i]) == multiset(InDir(infos, NameOf, dirs[i]))
    {
      assert organizedFiles[dirs[i]] == InDir(infos, NameOf, dirs[i]);
    }
    GroupsPartition(infos, NameOf, dirs, groups);
  }

  /** renderHTMLList: the view of the listing's file entries. */
  method RenderHTMLList(files: seq<ListItem>, htmlEscape: string -> string)
    returns (directories: seq<Directory>)
    ensures IsView(Infos(files, htmlEscape), directories, htmlEscape)
  {
    var organizedFiles := GroupFiles(files, htmlEscape);
    var unsorted := KeysOf(organizedFiles);
    var dirs := SortStrictly(unsorted);
    assert forall k :: 0 <= k < |dirs| ==> dirs[k] in organizedFiles;
    directories := BuildDirectories(dirs, organizedFiles, htmlEscape);
    AssembledView(Infos(files, htmlEscape), organizedFiles, dirs, directories, htmlEscape);
  }
}
