/** Values that several components of the patch engine share (internal/applypatch/hunk.go). */
module PatchTypes {

  datatype Option<+T> = None | Some(value: T) {
    function GetOr(default: T): T {
      if Some? then value else default
    }
  }

  datatype Result<+T, +E> = Ok(value: T) | Err(error: E)

  /** A contiguous change block of an update. */
  datatype UpdateFileChunk = UpdateFileChunk(
    changeContext: Option<string>,
    oldLines: seq<string>,
    newLines: seq<string>,
    isEndOfFile: bool)

  /** A parsed change; paths are spelled as in the patch. */
  datatype Hunk =
    | AddFile(path: string, contents: string)
    | DeleteFile(path: string)
    | UpdateFile(path: string, movePath: Option<string>, chunks: seq<UpdateFileChunk>)
}
