/** The virtual file system's pending-change log (crates/vfs/src/lib.rs).

    A pending change is relative to the last drain, a new one relative to the
    current state. The log is proved to always carry the drained snapshot to the
    accepted state, whatever the interleaving of writes and drains. */
module Vfs {
  import opened Repeats
  import opened Wrappers
  import opened PathInterner

  newtype byte = x: int | 0 <= x < 256
  type Contents = seq<byte>

  /** What the file system believes about a path: a content hash, or absent. */
  datatype FileState = Exists(hash: nat) | Deleted

  datatype Change = Create(contents: Contents) | Modify(contents: Contents) | Delete

  datatype ChangedFile = ChangedFile(fileId: nat, change: Change)

  // ---- changes and their merge ----

  /** `change` is what takes a file from `before` to `after` (None: absent). */
  predicate Takes(change: Change, before: Option<Contents>, after: Option<Contents>) {
    match change
    case Create(contents) => before.None? && after == Some(contents)
    case Modify(contents) => before.Some? && after == Some(contents)
    case Delete => before.Some? && after.None?
  }

  /** The merge table of `record`, dead arms included. None: the entry vanishes. */
  function Merge(pending: Change, change: Change): Option<Change> {
    match (pending, change)
    case (Create(_), Delete) => None
    case (Create(_), Modify(latest)) => Some(Create(latest))
    case (Create(_), Create(latest)) => Some(Create(latest))
    case (Modify(_), Modify(latest)) => Some(Modify(latest))
    case (Modify(_), Delete) => Some(Delete)
    case (Delete, Create(latest)) => Some(Modify(latest))
    case (Delete, Modify(latest)) => Some(Modify(latest))
    case (Delete, Delete) => Some(Delete)
    case (Modify(_), Create(latest)) => Some(Modify(latest))
  }

  /** Merging is composition: two steps in a row become the one step between their
      ends, and no step exactly when the file was absent at both. Only five of the
      nine arms can be reached. */
  lemma MergeComposes(pending: Change, change: Change,
                      before: Option<Contents>, between: Option<Contents>, after: Option<Contents>)
    requires Takes(pending, before, between) && Takes(change, between, after)
    ensures match Merge(pending, change)
            case Some(merged) => Takes(merged, before, after)
            case None => before == None && after == None
    ensures Merge(pending, change).None? <==> before == None && after == None
    ensures || (pending.Create? && change.Delete?) || (pending.Create? && change.Modify?)
            || (pending.Modify? && change.Modify?) || (pending.Modify? && change.Delete?)
            || (pending.Delete? && change.Create?)
  {
  }

  // ---- the log ----

  function At(files: map<nat, Contents>, id: nat): Option<Contents> {
    if id in files then Some(files[id]) else None
  }

  function Ids(changes: seq<ChangedFile>): seq<nat> {
    seq(|changes|, i requires 0 <= i < |changes| => changes[i].fileId)
  }

  /** The batch takes `base` to `current`: one entry per file it names, tagged by
      whether the file was present before and after, and no other file differs. */
  ghost predicate Carries(changes: seq<ChangedFile>, base: map<nat, Contents>, current: map<nat, Contents>) {
    && NoRepeats(Ids(changes))
    && (forall i :: 0 <= i < |changes| ==>
          Takes(changes[i].change, At(base, changes[i].fileId), At(current, changes[i].fileId)))
    && (forall id :: id !in Ids(changes) ==> At(base, id) == At(current, id))
  }

  /** Position of a file's entry in the batch. */
  function EntryOf(changes: seq<ChangedFile>, id: nat): (k: Option<nat>)
    ensures k.Some? <==> id in Ids(changes)
    ensures k.Some? ==> k.value < |changes| && changes[k.value].fileId == id
  {
    if changes == [] then None
    else if changes[|changes| - 1].fileId == id then
      assert Ids(changes)[|changes| - 1] == id;
      Some(|changes| - 1)
    else
      assert Ids(changes) == Ids(changes[..|changes| - 1]) + [changes[|changes| - 1].fileId];
      EntryOf(changes[..|changes| - 1], id)
  }

  function Updated(files: map<nat, Contents>, id: nat, contents: Option<Contents>): map<nat, Contents> {
    match contents
    case Some(bytes) => files[id := bytes]
    case None => files - {id}
  }

  /** `record`, as a function of the batch: append, replace in place, or drop the
      entry and close the gap. */
  function Recorded(changes: seq<ChangedFile>, id: nat, change: Change): seq<ChangedFile> {
    match EntryOf(changes, id)
    case None => changes + [ChangedFile(id, change)]
    case Some(k) =>
      match Merge(changes[k].change, change)
      case Some(merged) => changes[k := ChangedFile(id, merged)]
      case None => changes[..k] + changes[k + 1..]
  }

  /** A file touched for the first time goes to the end; every other entry keeps its
      place, and an entry that vanishes leaves the order of the rest alone. */
  lemma RecordedOrder(changes: seq<ChangedFile>, id: nat, change: Change)
    ensures EntryOf(changes, id).None? ==> Ids(Recorded(changes, id, change)) == Ids(changes) + [id]
    ensures EntryOf(changes, id).Some? ==>
              var k := EntryOf(changes, id).value;
              Ids(Recorded(changes, id, change))
              == if changes[k].change.Create? && change.Delete? then Ids(changes)[..k] + Ids(changes)[k + 1..]
                 else Ids(changes)
  {
  }

  /** The log keeps carrying the drained snapshot to the accepted state. */
  lemma RecordedCarries(changes: seq<ChangedFile>, base: map<nat, Contents>, current: map<nat, Contents>,
                        id: nat, change: Change, contents: Option<Contents>)
    requires Carries(changes, base, current) && Takes(change, At(current, id), contents)
    ensures Carries(Recorded(changes, id, change), base, Updated(current, id, contents))
  {
    var after, next := Recorded(changes, id, change), Updated(current, id, contents);
    assert At(next, id) == contents && forall other :: other != id ==> At(next, other) == At(current, other);
    hide At, Ids, Updated;
    match EntryOf(changes, id)
    case None =>
      AppendCarries(changes, base, current, id, change, next);
    case Some(k) =>
      MergeComposes(changes[k].change, change, At(base, id), At(current, id), contents);
      if Merge(changes[k].change, change).Some? {
        ReplaceCarries(changes, base, current, k, Merge(changes[k].change, change).value, next);
      } else {
        DropCarries(changes, base, current, k, next);
      }
  }

  lemma AppendCarries(changes: seq<ChangedFile>, base: map<nat, Contents>, current: map<nat, Contents>,
                      id: nat, change: Change, next: map<nat, Contents>)
    requires Carries(changes, base, current) && id !in Ids(changes)
    requires Takes(change, At(base, id), At(next, id))
    requires forall other :: other != id ==> At(next, other) == At(current, other)
    ensures Carries(changes + [ChangedFile(id, change)], base, next)
  {
    hide Takes, At;
    var after := changes + [ChangedFile(id, change)];
    assert Ids(after) == Ids(changes) + [id];
    forall i | 0 <= i < |changes|
      ensures after[i].fileId == changes[i].fileId != id
    {
      assert Ids(changes)[i] == changes[i].fileId;
    }
    forall other | other !in Ids(after)
      ensures other !in Ids(changes) && other != id
    {
      assert Ids(after)[|changes|] == id;
    }
  }

  lemma ReplaceCarries(changes: seq<ChangedFile>, base: map<nat, Contents>, current: map<nat, Contents>,
                       k: nat, change: Change, next: map<nat, Contents>)
    requires k < |changes| && Carries(changes, base, current)
    requires Takes(change, At(base, changes[k].fileId), At(next, changes[k].fileId))
    requires forall other :: other != changes[k].fileId ==> At(next, other) == At(current, other)
    ensures Carries(changes[k := ChangedFile(changes[k].fileId, change)], base, next)
  {
    hide Takes, At;
    var after, id := changes[k := ChangedFile(changes[k].fileId, change)], changes[k].fileId;
    assert Ids(after) == Ids(changes);
    forall i | 0 <= i < |after|
      ensures Takes(after[i].change, At(base, after[i].fileId), At(next, after[i].fileId))
    {
      assert i != k ==> Ids(changes)[i] != Ids(changes)[k];
    }
    forall other | other !in Ids(after)
      ensures At(base, other) == At(next, other)
    {
      assert Ids(changes)[k] == id;
    }
  }

  lemma DropCarries(changes: seq<ChangedFile>, base: map<nat, Contents>, current: map<nat, Contents>,
                    k: nat, next: map<nat, Contents>)
    requires k < |changes| && Carries(changes, base, current)
    requires At(base, changes[k].fileId) == At(next, changes[k].fileId)
    requires forall other :: other != changes[k].fileId ==> At(next, other) == At(current, other)
    ensures Carries(changes[..k] + changes[k + 1..], base, next)
  {
    hide Takes, At;
    var after, gone := changes[..k] + changes[k + 1..], changes[k].fileId;
    assert Ids(after) == Ids(changes)[..k] + Ids(changes)[k + 1..];
    forall i | 0 <= i < |after|
      ensures Takes(after[i].change, At(base, after[i].fileId), At(next, after[i].fileId))
    {
      var j := if i < k then i else i + 1;
      assert after[i] == changes[j] && Ids(changes)[j] != Ids(changes)[k];
    }
    forall id | id !in Ids(after)
      ensures At(base, id) == At(next, id)
    {
      assert id != gone ==> id !in Ids(changes);
    }
  }

  // ---- the file system ----

  class Vfs {
    /** The content hash, an abstract function here. */
    const hash: Contents -> nat
    const interner: PathInterner
    var state: seq<FileState>
    var changes: seq<ChangedFile>
    var revision: nat

    /** Contents at the last drain, and contents as accepted since. */
    ghost var base: map<nat, Contents>
    ghost var current: map<nat, Contents>

    ghost predicate Valid()
      reads this, interner
    {
      && interner.Valid() && |state| == |interner.paths|
      && Carries(changes, base, current)
      && (forall id :: id in current ==> id < |state|)
      && (forall id :: 0 <= id < |state| ==>
            state[id] == if id in current then Exists(hash(current[id])) else Deleted)
    }

    constructor (hash: Contents -> nat)
      ensures Valid() && fresh(interner) && this.hash == hash
      ensures interner.paths == [] && changes == [] && revision == 0 && base == map[] && current == map[]
    {
      this.hash := hash;
      interner := new PathInterner();
      state, changes, revision := [], [], 0;
      base, current := map[], map[];
    }

    /** `file_id`: the id of a path that is present; deleted and never-seen paths have none. */
    function FileId(path: Path): (id: Option<nat>)
      requires Valid()
      reads this, interner
      ensures id.Some? <==> exists i :: 0 <= i < |interner.paths| && interner.paths[i] == path && i in current
      ensures id.Some? ==> id.value < |interner.paths| && interner.paths[id.value] == path && id.value in current
    {
      match interner.Get(path)
      case None => None
      case Some(id) => if state[id].Exists? then Some(id) else None
    }

    /** `set_file_contents`: a write whose hash matches the current state is dropped, as
        is a delete of something absent; anything else is accepted, logged and counted. */
    method SetFileContents(path: Path, contents: Option<Contents>) returns (changed: bool)
      requires Valid()
      modifies this, interner
      ensures Valid()
      ensures interner.paths == if path in old(interner.paths) then old(interner.paths) else old(interner.paths) + [path]
      ensures base == old(base)
      ensures var id := IndexOf(interner.paths, path).value;
              && changed == Accepts(hash, At(old(current), id), contents)
              && current == (if changed then Updated(old(current), id, contents) else old(current))
              && (changed ==> exists change :: Takes(change, At(old(current), id), contents)
                                               && changes == Recorded(old(changes), id, change))
      ensures changed ==> revision == old(revision) + 1
      ensures !changed ==> changes == old(changes) && revision == old(revision)
    {
      hide Carries, Recorded, IndexOf;
      var id := AllocFileId(path);
      assert id == IndexOf(interner.paths, path).value;
      var change;
      var newState;
      match (state[id], contents) {
        case (Deleted, None) => return false;
        case (Deleted, Some(bytes)) =>
          change, newState := Create(bytes), Exists(hash(bytes));
        case (Exists(_), None) =>
          change, newState := Delete, Deleted;
        case (Exists(oldHash), Some(bytes)) =>
          if hash(bytes) == oldHash {
            return false;
          }
          change, newState := Modify(bytes), Exists(hash(bytes));
      }
      RecordedCarries(changes, base, current, id, change, contents);
      state := state[id := newState];
      Record(id, change);
      revision := revision + 1;
      current := Updated(current, id, contents);
      changed := true;
    }

    /** `record`: looks the file's entry up, then inserts, overwrites or removes it. */
    method Record(id: nat, change: Change)
      modifies this`changes
      ensures changes == Recorded(old(changes), id, change)
    {
      var pending := EntryOf(changes, id);
      if pending.None? {
        changes := changes + [ChangedFile(id, change)];
        return;
      }
      var k := pending.value;
      var merged := Merge(changes[k].change, change);
      if merged.None? {
        changes := changes[..k] + changes[k + 1..];
      } else {
        changes := changes[k := ChangedFile(id, merged.value)];
      }
    }

    /** `alloc_file_id`: a new path starts out absent. */
    method AllocFileId(path: Path) returns (id: nat)
      requires Valid()
      modifies this`state, interner
      ensures Valid()
      ensures id < |interner.paths| && interner.paths[id] == path
      ensures interner.paths == if path in old(interner.paths) then old(interner.paths) else old(interner.paths) + [path]
    {
      id := interner.Intern(path);
      if |state| < id + 1 {
        state := state + [Deleted];
      }
    }

    /** `take_changes`: hands over the batch and starts an empty one. */
    method TakeChanges() returns (batch: seq<ChangedFile>)
      requires Valid()
      modifies this
      ensures Valid() && changes == [] && batch == old(changes)
      ensures Carries(batch, old(base), current)
      ensures base == current == old(current) && state == old(state) && revision == old(revision)
    {
      batch := changes;
      changes := [];
      base := current;
    }
  }

  /** Whether a write changes the accepted state. */
  predicate Accepts(hash: Contents -> nat, present: Option<Contents>, contents: Option<Contents>) {
    match (present, contents)
    case (None, None) => false
    case (Some(held), Some(bytes)) => hash(held) != hash(bytes)
    case _ => true
  }
}
