/** Maps paths to dense ids (crates/vfs/src/path_interner.rs). Ids are never reused
    and paths are never removed. */
module PathInterner {
  import opened Repeats
  import opened Wrappers

  type Path = string

  /** Where `path` stands, if it was ever interned. */
  function IndexOf(paths: seq<Path>, path: Path): (id: Option<nat>)
    ensures id.Some? <==> path in paths
    ensures id.Some? ==> id.value < |paths| && paths[id.value] == path
  {
    if paths == [] then None
    else if paths[|paths| - 1] == path then Some(|paths| - 1)
    else IndexOf(paths[..|paths| - 1], path)
  }

  class PathInterner {
    var paths: seq<Path>

    ghost predicate Valid()
      reads this
    {
      NoRepeats(paths)
    }

    constructor ()
      ensures Valid() && paths == []
    {
      paths := [];
    }

    function Get(path: Path): (id: Option<nat>)
      reads this
      ensures id.Some? <==> path in paths
      ensures id.Some? ==> id.value < |paths| && paths[id.value] == path
    {
      IndexOf(paths, path)
    }

    /** A known path keeps its id and changes nothing; a new one gets the next id, and
        every id given out before still names its path. */
    method Intern(path: Path) returns (id: nat)
      requires Valid()
      modifies this
      ensures Valid()
      ensures id < |paths| && paths[id] == path
      ensures paths == if path in old(paths) then old(paths) else old(paths) + [path]
    {
      match IndexOf(paths, path)
      case Some(known) =>
        id := known;
      case None =>
        id := |paths|;
        paths := paths + [path];
    }
  }
}
