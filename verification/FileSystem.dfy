/**
 The filesystem that patches are applied to (internal/applypatch/filesystem.go),
 reduced to what its interface promises.

 Nothing is assumed about when calls fail. A disk carries a list of answers, one
 per call, chosen by an adversary: each answer fixes whether the call fails and,
 for a call that changes the disk, what the disk looks like afterwards. An
 answer is taken whenever the contract of the call allows it, so "for every
 answer list" means "for every filesystem that keeps the contract". Without an
 answer, a call does what an ordinary filesystem does.
 */
module FileSystem {

  import opened PatchTypes

  /** A resolved absolute path, as its components. */
  type Path = seq<string>

  /** File contents are text exactly when they are valid UTF-8. */
  datatype Content = Text(text: string) | Binary(bytes: seq<int>)

  datatype Node = File(content: Content) | Directory | Symlink | Special

  type Tree = map<Path, Node>

  datatype FileMetadata = FileMetadata(isFile: bool, isDirectory: bool, isSymlink: bool)

  datatype ErrorKind = NotFound | OtherError

  datatype Answer = Answer(
    text: Result<string, ErrorKind>,
    metadata: Result<FileMetadata, ErrorKind>,
    status: Option<ErrorKind>,
    tree: Tree)

  datatype Disk = Disk(tree: Tree, answers: seq<Answer>)

  function MetadataOf(node: Node): FileMetadata {
    FileMetadata(node.File?, node.Directory?, node.Symlink?)
  }

  // ----- The contract of each call

  /** A plain path: nothing is there, or a regular file. */
  predicate Plain(tree: Tree, path: Path) {
    path in tree ==> tree[path].File?
  }

  predicate SameElsewhere(before: Tree, after: Tree, path: Path) {
    forall p :: p in before.Keys + after.Keys && p != path ==> p in before && p in after && before[p] == after[p]
  }

  /** A plain path reads as its text; links and special files may read as anything. */
  predicate ReadAllowed(tree: Tree, path: Path, r: Result<string, ErrorKind>) {
    Plain(tree, path) ==>
      && (r.Ok? ==> path in tree && tree[path] == File(Text(r.value)))
      && (r == Err(NotFound) ==> path !in tree)
  }

  predicate MetadataAllowed(tree: Tree, path: Path, r: Result<FileMetadata, ErrorKind>) {
    && (r.Ok? ==> path in tree && r.value == MetadataOf(tree[path]))
    && (r == Err(NotFound) ==> path !in tree)
  }

  /** A write to a plain path touches nothing else; if it fails, it may leave any contents, or none. */
  predicate WriteAllowed(before: Tree, path: Path, text: string, status: Option<ErrorKind>, after: Tree) {
    Plain(before, path) ==>
      && SameElsewhere(before, after, path)
      && Plain(after, path)
      && (status.None? ==> path in after && after[path] == File(Text(text)))
  }

  /** Likewise for a removal, which succeeds only if it removes. */
  predicate RemoveAllowed(before: Tree, path: Path, status: Option<ErrorKind>, after: Tree) {
    Plain(before, path) ==>
      && SameElsewhere(before, after, path)
      && Plain(after, path)
      && (status.None? ==> path in before && path !in after)
  }

  /** Creating directories adds directories, on the way to `dir` only, failing or not. */
  predicate CreateAllowed(before: Tree, dir: Path, after: Tree) {
    && (forall p :: p in before ==> p in after && after[p] == before[p])
    && (forall p :: p in after && p !in before ==> after[p] == Directory && p <= dir)
  }

  // ----- An ordinary filesystem

  function ParentDir(path: Path): Option<Path> {
    if path == [] then None else Some(path[..|path| - 1])
  }

  predicate IsDirectory(tree: Tree, path: Path) {
    path in tree && tree[path].Directory?
  }

  /** Why a write is refused, if it is. */
  function WriteRefused(tree: Tree, path: Path): Option<ErrorKind> {
    if path != [] && path[..|path| - 1] !in tree then Some(NotFound)
    else if (path != [] && !IsDirectory(tree, path[..|path| - 1])) || !Plain(tree, path) then Some(OtherError)
    else None
  }

  function RemoveRefused(tree: Tree, path: Path): Option<ErrorKind> {
    if path !in tree then Some(NotFound) else if tree[path].Directory? then Some(OtherError) else None
  }

  /** Something on the way to `dir` is not a directory. */
  predicate Blocked(tree: Tree, dir: Path) {
    exists p :: p in Prefixes(dir) && p in tree && !tree[p].Directory?
  }

  /** The tree with all directories on the way to `dir`. */
  function WithDirectories(tree: Tree, dir: Path): Tree {
    map p | p in tree.Keys + Prefixes(dir) :: if p in tree then tree[p] else Directory
  }

  // ----- The calls

  function Rest(disk: Disk): Disk {
    disk.(answers := if disk.answers == [] then [] else disk.answers[1..])
  }

  /** The disk after a call that left it with this tree. */
  function Become(disk: Disk, tree: Tree): Disk {
    Rest(disk).(tree := tree)
  }

  function ReadFileText(disk: Disk, path: Path): (r: (Result<string, ErrorKind>, Disk))
    ensures ReadAllowed(disk.tree, path, r.0) && r.1.tree == disk.tree
  {
    var usual :=
      if path !in disk.tree then Err(NotFound)
      else if disk.tree[path].File? && disk.tree[path].content.Text? then Ok(disk.tree[path].content.text)
      else Err(OtherError);
    if disk.answers != [] && ReadAllowed(disk.tree, path, disk.answers[0].text)
    then (disk.answers[0].text, Rest(disk))
    else (usual, Rest(disk))
  }

  function Metadata(disk: Disk, path: Path): (r: (Result<FileMetadata, ErrorKind>, Disk))
    ensures MetadataAllowed(disk.tree, path, r.0) && r.1.tree == disk.tree
  {
    var usual := if path in disk.tree then Ok(MetadataOf(disk.tree[path])) else Err(NotFound);
    if disk.answers != [] && MetadataAllowed(disk.tree, path, disk.answers[0].metadata)
    then (disk.answers[0].metadata, Rest(disk))
    else (usual, Rest(disk))
  }

  function WriteFile(disk: Disk, path: Path, text: string): (r: (Option<ErrorKind>, Disk))
    ensures WriteAllowed(disk.tree, path, text, r.0, r.1.tree)
  {
    if disk.answers != [] && WriteAllowed(disk.tree, path, text, disk.answers[0].status, disk.answers[0].tree)
    then (disk.answers[0].status, Become(disk, disk.answers[0].tree))
    else
      var refused := WriteRefused(disk.tree, path);
      if refused.Some? then (refused, Rest(disk)) else (None, Become(disk, disk.tree[path := File(Text(text))]))
  }

  function Remove(disk: Disk, path: Path): (r: (Option<ErrorKind>, Disk))
    ensures RemoveAllowed(disk.tree, path, r.0, r.1.tree)
  {
    if disk.answers != [] && RemoveAllowed(disk.tree, path, disk.answers[0].status, disk.answers[0].tree)
    then (disk.answers[0].status, Become(disk, disk.answers[0].tree))
    else
      var refused := RemoveRefused(disk.tree, path);
      if refused.Some? then (refused, Rest(disk)) else (None, Become(disk, disk.tree - {path}))
  }

  function CreateDirAll(disk: Disk, dir: Path): (r: (Option<ErrorKind>, Disk))
    ensures CreateAllowed(disk.tree, dir, r.1.tree)
  {
    if disk.answers != [] && CreateAllowed(disk.tree, dir, disk.answers[0].tree)
    then (disk.answers[0].status, Become(disk, disk.answers[0].tree))
    else if Blocked(disk.tree, dir) then (Some(OtherError), Rest(disk))
    else (None, Become(disk, WithDirectories(disk.tree, dir)))
  }

  /** The directories on the way to `dir`, itself included. */
  function Prefixes(dir: Path): (r: set<Path>)
    ensures forall p :: p in r ==> p <= dir
  {
    set i | 0 <= i <= |dir| :: dir[..i]
  }

  /** Every outcome that the contract allows is the outcome for some answer list. */
  lemma EveryAllowedOutcomeHappens(tree: Tree, path: Path, text: string, answer: Answer, rest: seq<Answer>)
    ensures var disk := Disk(tree, [answer] + rest);
            && (ReadAllowed(tree, path, answer.text) ==> ReadFileText(disk, path) == (answer.text, Disk(tree, rest)))
            && (MetadataAllowed(tree, path, answer.metadata) ==> Metadata(disk, path) == (answer.metadata, Disk(tree, rest)))
            && (WriteAllowed(tree, path, text, answer.status, answer.tree) ==>
                  WriteFile(disk, path, text) == (answer.status, Disk(answer.tree, rest)))
            && (RemoveAllowed(tree, path, answer.status, answer.tree) ==>
                  Remove(disk, path) == (answer.status, Disk(answer.tree, rest)))
            && (CreateAllowed(tree, path, answer.tree) ==>
                  CreateDirAll(disk, path) == (answer.status, Disk(answer.tree, rest)))
  {
    assert ([answer] + rest)[1..] == rest;
  }

  // ----- What the disk holds

  /** The regular files, which are what a patch is about. */
  function Files(tree: Tree): map<Path, Content> {
    map p | p in tree && tree[p].File? :: tree[p].content
  }

  lemma WriteSetsFile(before: Tree, path: Path, text: string, after: Tree)
    requires Plain(before, path) && WriteAllowed(before, path, text, None, after)
    ensures Files(after) == Files(before)[path := Text(text)]
  {
  }

  lemma RemoveDropsFile(before: Tree, path: Path, after: Tree)
    requires Plain(before, path) && RemoveAllowed(before, path, None, after)
    ensures Files(after) == Files(before) - {path}
  {
  }

  // ----- The store that calls change

  class Store {
    var disk: Disk

    constructor (initial: Disk)
      ensures disk == initial
    {
      disk := initial;
    }

    method ReadText(path: Path) returns (r: Result<string, ErrorKind>)
      modifies this
      ensures (r, disk) == ReadFileText(old(disk), path)
    {
      var reply := ReadFileText(disk, path);
      r, disk := reply.0, reply.1;
    }

    method Stat(path: Path) returns (r: Result<FileMetadata, ErrorKind>)
      modifies this
      ensures (r, disk) == Metadata(old(disk), path)
    {
      var reply := Metadata(disk, path);
      r, disk := reply.0, reply.1;
    }

    method Write(path: Path, text: string) returns (r: Option<ErrorKind>)
      modifies this
      ensures (r, disk) == WriteFile(old(disk), path, text)
    {
      var reply := WriteFile(disk, path, text);
      r, disk := reply.0, reply.1;
    }

    method Delete(path: Path) returns (r: Option<ErrorKind>)
      modifies this
      ensures (r, disk) == Remove(old(disk), path)
    {
      var reply := Remove(disk, path);
      r, disk := reply.0, reply.1;
    }

    method MakeDirs(dir: Path) returns (r: Option<ErrorKind>)
      modifies this
      ensures (r, disk) == CreateDirAll(old(disk), dir)
    {
      var reply := CreateDirAll(disk, dir);
      r, disk := reply.0, reply.1;
    }
  }
}
