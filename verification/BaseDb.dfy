/** The database side of the change log (crates/base-db/src/lib.rs:145-181, 262-286),
    as a plain map from file id to text. */
module BaseDb {
  import opened Repeats
  import opened Wrappers
  import opened PathInterner
  import opened Vfs

  /** `String::from_utf8`, an abstract partial function here; None: not UTF-8. */
  type Decoder = Contents -> Option<string>

  /** The text a file with these contents has: absent and mis-encoded files are empty. */
  function TextOf(decode: Decoder, contents: Option<Contents>): string {
    match contents
    case None => ""
    case Some(bytes) => (match decode(bytes) case Some(text) => text case None => "")
  }

  function NewContents(change: Change): Option<Contents> {
    match change
    case Create(bytes) => Some(bytes)
    case Modify(bytes) => Some(bytes)
    case Delete => None
  }

  /** The database shows `drained`: every file in it has its text, and a file the
      database still remembers but that is gone has become empty. */
  ghost predicate Shows(files: map<nat, string>, decode: Decoder, drained: map<nat, Contents>) {
    && drained.Keys <= files.Keys
    && forall id :: id in files ==> files[id] == TextOf(decode, At(drained, id))
  }

  /** The files after a batch, entry by entry. */
  function Applied(files: map<nat, string>, decode: Decoder, changes: seq<ChangedFile>): map<nat, string> {
    if changes == [] then files else
    var last := |changes| - 1;
    Applied(files, decode, changes[..last])[changes[last].fileId := TextOf(decode, NewContents(changes[last].change))]
  }

  /** A batch sets exactly the files it names. */
  lemma {:induction false} AppliedSets(files: map<nat, string>, decode: Decoder, changes: seq<ChangedFile>)
    ensures forall id :: id in Applied(files, decode, changes) <==> id in files || id in Ids(changes)
    ensures forall id :: id in files && id !in Ids(changes) ==> Applied(files, decode, changes)[id] == files[id]
  {
    if changes != [] {
      var last := |changes| - 1;
      AppliedSets(files, decode, changes[..last]);
      assert Ids(changes) == Ids(changes[..last]) + [changes[last].fileId];
    }
  }

  lemma {:induction false} AppliedAt(files: map<nat, string>, decode: Decoder, changes: seq<ChangedFile>, k: nat)
    requires k < |changes| && NoRepeats(Ids(changes))
    ensures changes[k].fileId in Applied(files, decode, changes)
    ensures Applied(files, decode, changes)[changes[k].fileId] == TextOf(decode, NewContents(changes[k].change))
  {
    var last := |changes| - 1;
    if k < last {
      assert Ids(changes)[k] != Ids(changes)[last];
      assert Ids(changes[..last]) == Ids(changes)[..last];
      AppliedAt(files, decode, changes[..last], k);
    }
  }

  /** A database that shows the drained snapshot before a batch shows the one after. */
  lemma AppliedShows(files: map<nat, string>, decode: Decoder, changes: seq<ChangedFile>,
                     before: map<nat, Contents>, after: map<nat, Contents>)
    requires Shows(files, decode, before) && Carries(changes, before, after)
    ensures Shows(Applied(files, decode, changes), decode, after)
  {
    hide TextOf, Takes;
    var next := Applied(files, decode, changes);
    AppliedSets(files, decode, changes);
    forall id | id in next
      ensures next[id] == TextOf(decode, At(after, id))
    {
      if id in Ids(changes) {
        var k :| 0 <= k < |changes| && Ids(changes)[k] == id;
        AppliedAt(files, decode, changes, k);
        TakesContents(changes[k].change, At(before, id), At(after, id));
      } else {
        assert At(before, id) == At(after, id);
      }
    }
    forall id | id in after
      ensures id in next
    {
      assert id !in Ids(changes) ==> At(before, id) == At(after, id);
    }
  }

  lemma TakesContents(change: Change, before: Option<Contents>, after: Option<Contents>)
    requires Takes(change, before, after)
    ensures NewContents(change) == after
  {
  }

  class RootDatabase {
    const decode: Decoder
    var files: map<nat, string>

    constructor (decode: Decoder)
      ensures this.decode == decode && files == map[]
    {
      this.decode := decode;
      files := map[];
    }

    /** `set_file_text`: creates the input or overwrites it. */
    method SetFileText(id: nat, text: string)
      modifies this
      ensures files == old(files)[id := text]
    {
      files := files[id := text];
    }

    /** `apply_vfs_changes`. Deleted files keep their id and become empty. */
    method ApplyVfsChanges(changes: seq<ChangedFile>)
      modifies this
      ensures files == Applied(old(files), decode, changes)
    {
      for n := 0 to |changes|
        invariant files == Applied(old(files), decode, changes[..n])
      {
        var changed := changes[n];
        assert changes[..n + 1][..n] == changes[..n];
        match changed.change {
          case Create(bytes) => RecordText(changed.fileId, bytes);
          case Modify(bytes) => RecordText(changed.fileId, bytes);
          case Delete => SetFileText(changed.fileId, "");
        }
      }
      assert changes[..|changes|] == changes;
    }

    /** Bytes that are not UTF-8 are recorded as the empty text. */
    method RecordText(id: nat, bytes: Contents)
      modifies this
      ensures files == old(files)[id := TextOf(decode, Some(bytes))]
    {
      match decode(bytes)
      case Some(text) => SetFileText(id, text);
      case None => SetFileText(id, "");
    }
  }
}
