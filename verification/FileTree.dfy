/**
 The part of a file system that captures see: a flat map of absolute paths, where a path may hold a readable file, a
 file that can be written but not read, a symbolic link, or something that can be neither read nor overwritten.

 Directories on the way to a path are not modelled; they are taken to exist, or to be made.  What is modelled is
 what a restore can get wrong: writing follows links, keeps the mode of a file that is there, and gives a new file
 the mode that the umask leaves, which is taken to be readable.
 */
module FileTree {
  import opened Text

  datatype Node =
    | File(content: string, mode: nat)
    | WriteOnly(content: string, mode: nat)
    | Link(target: string)
    | Unreadable

  type Files = map<string, Node>

  /**
   What the model leaves to its surroundings: the checksum, what the umask leaves of a mode, and the path that a
   link found at a path leads to.
   */
  datatype World = World(hash: string -> string, masked: nat -> nat, follow: (string, string) -> string)

  ghost predicate Injective(hash: string -> string) {
    forall x, y :: hash(x) == hash(y) ==> x == y
  }

  ghost function Lookup(files: Files, path: string): Option<Node> {
    if path in files then Some(files[path]) else None
  }

  /** How many links in a row the kernel follows. */
  const MAX_LINKS: nat := 40

  /** Where a path leads when links are followed; nothing when there are too many. */
  function Resolve(world: World, files: Files, path: string, hops: nat): Option<string>
    decreases hops
  {
    if path !in files || !files[path].Link? then Some(path)
    else if hops == 0 then None
    else Resolve(world, files, world.follow(path, files[path].target), hops - 1)
  }

  /** `os.WriteFile`: follows links, keeps the mode of a file that is there, and applies the umask to a new one. */
  function WriteFile(world: World, files: Files, path: string, content: string, mode: nat): Option<Files> {
    var target := Resolve(world, files, path, MAX_LINKS);
    if target.None? then None
    else if target.value !in files then Some(files[target.value := File(content, world.masked(mode))])
    else if files[target.value].Unreadable? || files[target.value].Link? then None
    else Some(files[target.value := files[target.value].(content := content)])
  }

  /** `os.Symlink`: fails where anything is. */
  function Symlink(files: Files, path: string, target: string): Option<Files> {
    if path in files then None else Some(files[path := Link(target)])
  }

  /** What `stateOf` tells about a path: nothing readable, or a kind and a fingerprint. */
  datatype State =
    | Empty
    | FileState(sha: string)
    | LinkState(target: string)

  function StateOf(world: World, files: Files, path: string): State {
    if path !in files then Empty
    else
      match files[path]
      case File(content, _) => FileState(world.hash(content))
      case Link(target) => LinkState(target)
      case _ => Empty
  }

  predicate Readable(files: Files, path: string) {
    path !in files || files[path].File? || files[path].Link?
  }

  function Bytes(node: Node): Option<string> {
    match node
    case File(content, _) => Some(content)
    case WriteOnly(content, _) => Some(content)
    case _ => None
  }

  /** The same kind and the same content; modes aside, whatever they allow. */
  predicate SameContent(a: Option<Node>, b: Option<Node>) {
    match (a, b)
    case (None, None) => true
    case (Some(Link(x)), Some(Link(y))) => x == y
    case (Some(Unreadable), Some(Unreadable)) => true
    case (Some(x), Some(y)) => Bytes(x).Some? && Bytes(x) == Bytes(y)
    case _ => false
  }
}
