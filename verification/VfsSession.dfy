/** Whole sessions of writes and drains, with the database fed from every drained
    batch (crates/vfs/src/lib.rs:212-270, crates/base-db/src/lib.rs:262-286). */
module VfsSession {
  import opened Repeats
  import opened Wrappers
  import opened PathInterner
  import opened Vfs
  import opened BaseDb

  datatype Op = Write(path: Path, contents: Option<Contents>) | Drain

  function Held(files: map<Path, Contents>, path: Path): Option<Contents> {
    if path in files then Some(files[path]) else None
  }

  function Put(files: map<Path, Contents>, path: Path, contents: Option<Contents>): map<Path, Contents> {
    match contents
    case Some(bytes) => files[path := bytes]
    case None => files - {path}
  }

  /** Apply everything: the last contents written to each path. */
  function LastWritten(ops: seq<Op>): map<Path, Contents> {
    if ops == [] then map[] else
    var before := LastWritten(ops[..|ops| - 1]);
    match ops[|ops| - 1]
    case Write(path, contents) => Put(before, path, contents)
    case Drain => before
  }

  /** The contents accepted: a write whose hash matches what is held is dropped. */
  function Accepted(hash: Contents -> nat, ops: seq<Op>): map<Path, Contents> {
    if ops == [] then map[] else
    var before := Accepted(hash, ops[..|ops| - 1]);
    match ops[|ops| - 1]
    case Write(path, contents) => if Accepts(hash, Held(before, path), contents) then Put(before, path, contents) else before
    case Drain => before
  }

  function AcceptedWrites(hash: Contents -> nat, ops: seq<Op>): nat {
    if ops == [] then 0 else
    AcceptedWrites(hash, ops[..|ops| - 1]) +
    match ops[|ops| - 1]
    case Write(path, contents) => if Accepts(hash, Held(Accepted(hash, ops[..|ops| - 1]), path), contents) then 1 else 0
    case Drain => 0
  }

  predicate SameHash(hash: Contents -> nat, a: Option<Contents>, b: Option<Contents>) {
    && (a.Some? <==> b.Some?)
    && (a.Some? ==> hash(a.value) == hash(b.value))
  }

  /** Dropping writes loses nothing but hash collisions: the same paths are present,
      and what is held always hashes like what was last written. */
  lemma {:induction false} AcceptedHashesAsWritten(hash: Contents -> nat, ops: seq<Op>, path: Path)
    ensures SameHash(hash, Held(Accepted(hash, ops), path), Held(LastWritten(ops), path))
  {
    if ops != [] {
      AcceptedHashesAsWritten(hash, ops[..|ops| - 1], path);
    }
  }

  /** Two different contents with one hash are never written to the same path. */
  ghost predicate NoCollision(hash: Contents -> nat, ops: seq<Op>) {
    forall i, j :: 0 <= i < |ops| && 0 <= j < |ops| ==> Apart(hash, ops[i], ops[j])
  }

  ghost predicate Apart(hash: Contents -> nat, a: Op, b: Op) {
    (a.Write? && b.Write? && a.path == b.path && a.contents.Some? && b.contents.Some?
     && hash(a.contents.value) == hash(b.contents.value)) ==> a.contents == b.contents
  }

  /** Everything held was written by some operation. */
  lemma {:induction false} AcceptedWasWritten(hash: Contents -> nat, ops: seq<Op>, path: Path)
    requires path in Accepted(hash, ops)
    ensures exists i :: 0 <= i < |ops| && ops[i] == Write(path, Some(Accepted(hash, ops)[path]))
  {
    var last := |ops| - 1;
    if ops[last] != Write(path, Some(Accepted(hash, ops)[path])) {
      AcceptedWasWritten(hash, ops[..last], path);
      var i :| 0 <= i < last && ops[..last][i] == Write(path, Some(Accepted(hash, ops[..last])[path]));
      assert ops[i] == ops[..last][i];
    }
  }

  /** Without collisions, dropping writes is the same as applying everything. */
  lemma {:induction false} AcceptedIsLastWritten(hash: Contents -> nat, ops: seq<Op>)
    requires NoCollision(hash, ops)
    ensures Accepted(hash, ops) == LastWritten(ops)
  {
    if ops != [] {
      var last := |ops| - 1;
      forall i, j | 0 <= i < last && 0 <= j < last
        ensures Apart(hash, ops[..last][i], ops[..last][j])
      {
        assert Apart(hash, ops[i], ops[j]);
      }
      AcceptedIsLastWritten(hash, ops[..last]);
      var held := Accepted(hash, ops[..last]);
      if ops[last].Write? && ops[last].path in held {
        AcceptedWasWritten(hash, ops[..last], ops[last].path);
        var i :| 0 <= i < last && ops[..last][i] == Write(ops[last].path, Some(held[ops[last].path]));
        assert Apart(hash, ops[i], ops[last]);
      }
    }
  }

  /** The accepted state by id is the accepted state by path. */
  ghost predicate Agrees(paths: seq<Path>, current: map<nat, Contents>, accepted: map<Path, Contents>) {
    && (forall i :: 0 <= i < |paths| ==> At(current, i) == Held(accepted, paths[i]))
    && (forall path :: path in accepted ==> path in paths)
  }

  /** Any interleaving of writes and drains, ended by a drain: the database gives each
      file the text of its accepted contents, and the empty text once it is gone; ids
      are dense and distinct; the revision counts the accepted writes. */
  method Session(hash: Contents -> nat, decode: Decoder, ops: seq<Op>)
    returns (paths: seq<Path>, files: map<nat, string>, revision: nat)
    ensures NoRepeats(paths)
    ensures forall path :: path in Accepted(hash, ops) ==> path in paths
    ensures forall i :: 0 <= i < |paths| && paths[i] in Accepted(hash, ops) ==> i in files
    ensures forall i :: 0 <= i < |paths| && i in files ==>
              files[i] == TextOf(decode, Held(Accepted(hash, ops), paths[i]))
    ensures revision == AcceptedWrites(hash, ops)
  {
    var vfs := new Vfs(hash);
    var db := new RootDatabase(decode);
    ghost var accepted := map[];
    hide Agrees, Shows, Accepts, Put;
    StartAgrees(decode);
    for n := 0 to |ops|
      invariant fresh(vfs) && fresh(vfs.interner) && fresh(db) && vfs.Valid()
      invariant vfs.hash == hash && db.decode == decode
      invariant accepted == Accepted(hash, ops[..n])
      invariant Agrees(vfs.interner.paths, vfs.current, accepted)
      invariant Shows(db.files, decode, vfs.base)
      invariant vfs.revision == AcceptedWrites(hash, ops[..n])
    {
      assert ops[..n + 1][..n] == ops[..n];
      match ops[n] {
        case Write(path, contents) =>
          WriteInto(vfs, accepted, path, contents);
          accepted := if Accepts(hash, Held(accepted, path), contents) then Put(accepted, path, contents) else accepted;
        case Drain =>
          DrainInto(vfs, db);
      }
    }
    assert ops[..|ops|] == ops;
    DrainInto(vfs, db);
    SessionEnds(vfs.interner.paths, db.files, decode, vfs.current, accepted);
    paths, files, revision := vfs.interner.paths, db.files, vfs.revision;
  }

  lemma StartAgrees(decode: Decoder)
    ensures Agrees([], map[], map[]) && Shows(map[], decode, map[])
  {
  }

  lemma SessionEnds(paths: seq<Path>, files: map<nat, string>, decode: Decoder,
                    current: map<nat, Contents>, accepted: map<Path, Contents>)
    requires Agrees(paths, current, accepted) && Shows(files, decode, current)
    ensures forall path :: path in accepted ==> path in paths
    ensures forall i :: 0 <= i < |paths| && paths[i] in accepted ==> i in files
    ensures forall i :: 0 <= i < |paths| && i in files ==> files[i] == TextOf(decode, Held(accepted, paths[i]))
  {
  }

  /** One drain: the batch goes into the database, which then shows the current state. */
  method DrainInto(vfs: Vfs, db: RootDatabase)
    requires vfs.Valid() && Shows(db.files, db.decode, vfs.base)
    modifies vfs, db
    ensures vfs.Valid() && vfs.changes == []
    ensures vfs.base == vfs.current == old(vfs.current) && vfs.revision == old(vfs.revision)
    ensures Shows(db.files, db.decode, vfs.base)
  {
    AppliedShows(db.files, db.decode, vfs.changes, vfs.base, vfs.current);
    var batch := vfs.TakeChanges();
    db.ApplyVfsChanges(batch);
  }

  /** One write: the accepted state follows, by path as by id. */
  method WriteInto(vfs: Vfs, ghost accepted: map<Path, Contents>, path: Path, contents: Option<Contents>)
    requires vfs.Valid() && Agrees(vfs.interner.paths, vfs.current, accepted)
    modifies vfs, vfs.interner
    ensures vfs.Valid() && vfs.base == old(vfs.base)
    ensures var accepts := Accepts(vfs.hash, Held(accepted, path), contents);
            && Agrees(vfs.interner.paths, vfs.current, if accepts then Put(accepted, path, contents) else accepted)
            && vfs.revision == old(vfs.revision) + (if accepts then 1 else 0)
  {
    hide Agrees, Accepts, Put, Updated, Carries, Recorded;
    InternAgrees(vfs.interner.paths, vfs.current, accepted, path);
    ghost var current := vfs.current;
    var changed := vfs.SetFileContents(path, contents);
    ghost var id := IndexOf(vfs.interner.paths, path).value;
    if changed {
      PutAgrees(vfs.interner.paths, current, accepted, id, contents);
    }
  }

  /** A path seen for the first time starts out absent on both sides. */
  lemma InternAgrees(paths: seq<Path>, current: map<nat, Contents>, accepted: map<Path, Contents>, path: Path)
    requires NoRepeats(paths) && Agrees(paths, current, accepted)
    requires forall id :: id in current ==> id < |paths|
    ensures var known := if path in paths then paths else paths + [path];
            && Agrees(known, current, accepted)
            && At(current, IndexOf(known, path).value) == Held(accepted, path)
  {
    var known := if path in paths then paths else paths + [path];
    if path !in paths {
      assert known[|paths|] == path;
      assert At(current, |paths|) == None == Held(accepted, path);
    }
  }

  lemma PutAgrees(paths: seq<Path>, current: map<nat, Contents>, accepted: map<Path, Contents>,
                  id: nat, contents: Option<Contents>)
    requires NoRepeats(paths) && id < |paths| && Agrees(paths, current, accepted)
    ensures Agrees(paths, Updated(current, id, contents), Put(accepted, paths[id], contents))
  {
  }
}
