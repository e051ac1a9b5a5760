/** The value types of the legacy server (types/types.go). */
module LegacyTypes {
  /** types.Response: the JSON listing reply. */
  datatype Response = Response(error: bool, message: string, list: seq<ListItem>)

  /** types.List: one listed object, its key and its link. */
  datatype ListItem = ListItem(name: string, url: string)

  /** types.Directory: one group of the HTML listing. */
  datatype Directory = Directory(name: string, fileCount: int, files: seq<FileInfo>)

  /** types.FileInfo: a listed object with the name shown for it. */
  datatype FileInfo = FileInfo(item: ListItem, displayName: string)

  function NameOf(f: FileInfo): string
  {
    f.item.name
  }
}
