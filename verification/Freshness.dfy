/** Open buffers, what the virtual file system holds for them, and which of them are
    newer than the index (crates/jabar-server/src/server.rs:708-714, 2012-2028,
    2245-2335). Disk reads are inputs. */
module Freshness {
  import LineIndex
  import opened Text
  import opened Repeats
  import opened Wrappers
  import opened PathInterner
  import opened Vfs
  import opened VfsSession
  import Documents

  /** What the VFS holds for a path. */
  function HeldFor(paths: seq<Path>, current: map<nat, Contents>, path: Path): Option<Contents> {
    match IndexOf(paths, path)
    case Some(id) => At(current, id)
    case None => None
  }

  lemma IndexOfUnique(paths: seq<Path>, id: nat)
    requires NoRepeats(paths) && id < |paths|
    ensures IndexOf(paths, paths[id]) == Some(id)
  {
  }

  /** One write changes what is held for its own path only. */
  lemma WriteIsLocal(paths: seq<Path>, current: map<nat, Contents>, path: Path, next: map<nat, Contents>, other: Path)
    requires NoRepeats(paths) && other != path && forall id :: id in current ==> id < |paths|
    requires var known := if path in paths then paths else paths + [path];
             forall id :: id != IndexOf(known, path).value ==> At(next, id) == At(current, id)
    ensures var known := if path in paths then paths else paths + [path];
            HeldFor(known, next, other) == HeldFor(paths, current, other)
  {
    var known := if path in paths then paths else paths + [path];
    var at := IndexOf(known, path).value;
    if other in paths {
      var id := IndexOf(paths, other).value;
      IndexOfUnique(known, id);
      assert id != at;
    } else {
      assert IndexOf(known, other) == None && IndexOf(paths, other) == None;
    }
  }

  /** Whatever a write does, what is held afterwards hashes like what was written. */
  lemma AcceptedHash(hash: Contents -> nat, held: Option<Contents>, contents: Option<Contents>)
    ensures SameHash(hash, if Accepts(hash, held, contents) then contents else held, contents)
  {
  }

  ghost predicate Mirrors(paths: seq<Path>, current: map<nat, Contents>, held: map<Path, Contents>) {
    forall path :: HeldFor(paths, current, path) == Held(held, path)
  }

  /** After a write, what is held by id is still what is held by path. */
  lemma WriteMirrors(paths: seq<Path>, current: map<nat, Contents>, path: Path, held: map<Path, Contents>,
                     hash: Contents -> nat, contents: Option<Contents>)
    requires NoRepeats(paths) && (forall id :: id in current ==> id < |paths|) && Mirrors(paths, current, held)
    ensures var known := if path in paths then paths else paths + [path];
            var id := IndexOf(known, path).value;
            var changed := Accepts(hash, At(current, id), contents);
            && At(current, id) == Held(held, path)
            && Mirrors(known, if changed then Updated(current, id, contents) else current,
                       if changed then Put(held, path, contents) else held)
  {
    hide Accepts;
    var known := if path in paths then paths else paths + [path];
    var id := IndexOf(known, path).value;
    assert HeldFor(paths, current, path) == Held(held, path);
    var changed := Accepts(hash, At(current, id), contents);
    var next := if changed then Updated(current, id, contents) else current;
    var held' := if changed then Put(held, path, contents) else held;
    forall other
      ensures HeldFor(known, next, other) == Held(held', other)
    {
      assert HeldFor(paths, current, other) == Held(held, other);
      if other != path {
        WriteIsLocal(paths, current, path, next, other);
      }
    }
  }

  function Written(held: map<Path, Contents>, path: Path, contents: Option<Contents>,
                   hash: Contents -> nat): map<Path, Contents> {
    if Accepts(hash, Held(held, path), contents) then Put(held, path, contents) else held
  }

  // ---- agreement, path by path ----

  /** Open documents; what the VFS holds by path; the stale paths; and the disk text read
      when a path was last opened or last looked at by an install. */
  datatype Look = Look(open: map<Path, Documents.Document>, held: map<Path, Contents>, stale: set<Path>,
                       lastDisk: map<Path, string>)

  /** How contents are hashed and encoded, and which paths are real files. */
  datatype World = World(hash: Contents -> nat, encode: string -> Contents, onDisk: Path -> bool)

  /** The VFS holds a content that hashes like the buffer. */
  predicate HeldAt(v: Look, w: World, path: Path)
    requires path in v.open
  {
    SameHash(w.hash, Held(v.held, path), Some(w.encode(v.open[path].text)))
  }

  /** A real file that is not stale has a buffer that hashes like the disk text last read
      for it. */
  predicate FreshAt(v: Look, w: World, path: Path)
    requires path in v.open
  {
    w.onDisk(path) && path !in v.stale ==>
      path in v.lastDisk && w.hash(w.encode(v.lastDisk[path])) == w.hash(w.encode(v.open[path].text))
  }

  /** The open documents for which one of the two fails. */
  function Torn(v: Look, w: World): set<Path> {
    set path | path in v.open && !(HeldAt(v, w, path) && FreshAt(v, w, path))
  }

  /** Nothing but `path` differs. */
  ghost predicate SameElsewhere(v: Look, u: Look, path: Path) {
    && v.open - {path} == u.open - {path}
    && (forall other :: other != path ==> Held(v.held, other) == Held(u.held, other))
    && v.stale - {path} == u.stale - {path}
    && v.lastDisk - {path} == u.lastDisk - {path}
  }

  lemma TornElsewhere(v: Look, u: Look, w: World, path: Path)
    requires SameElsewhere(v, u, path)
    ensures Torn(u, w) - {path} == Torn(v, w) - {path}
  {
    hide SameHash;
    forall other | other != path
      ensures other in Torn(u, w) <==> other in Torn(v, w)
    {
      SameAt(v, u, path, other);
    }
  }

  lemma SameAt(v: Look, u: Look, path: Path, other: Path)
    requires SameElsewhere(v, u, path) && other != path
    ensures other in u.open <==> other in v.open
    ensures other in u.open ==> u.open[other] == v.open[other]
    ensures other in u.stale <==> other in v.stale
    ensures other in u.lastDisk <==> other in v.lastDisk
    ensures other in u.lastDisk ==> u.lastDisk[other] == v.lastDisk[other]
  {
    assert other in u.open - {path} <==> other in v.open - {path};
    assert other in u.stale - {path} <==> other in v.stale - {path};
    assert other in u.lastDisk - {path} <==> other in v.lastDisk - {path};
    assert other in u.open ==> (u.open - {path})[other] == u.open[other];
    assert other in v.open ==> (v.open - {path})[other] == v.open[other];
    assert other in u.lastDisk ==> (u.lastDisk - {path})[other] == u.lastDisk[other];
    assert other in v.lastDisk ==> (v.lastDisk - {path})[other] == v.lastDisk[other];
  }

  lemma WrittenElsewhere(held: map<Path, Contents>, path: Path, contents: Option<Contents>, hash: Contents -> nat)
    ensures forall other :: other != path ==> Held(Written(held, path, contents, hash), other) == Held(held, other)
    ensures SameHash(hash, Held(Written(held, path, contents, hash), path), contents)
  {
    AcceptedHash(hash, Held(held, path), contents);
  }

  /** An opened document agrees, whatever was wrong with its path before. */
  lemma TornAfterOpen(v: Look, w: World, path: Path, doc: Documents.Document, disk: Option<string>)
    ensures var u := Look(v.open[path := doc], Written(v.held, path, Some(w.encode(doc.text)), w.hash),
                          if w.onDisk(path) && disk == Some(doc.text) then v.stale else v.stale + {path},
                          if disk.Some? then v.lastDisk[path := disk.value] else v.lastDisk - {path});
            Torn(u, w) == Torn(v, w) - {path}
  {
    var u := Look(v.open[path := doc], Written(v.held, path, Some(w.encode(doc.text)), w.hash),
                  if w.onDisk(path) && disk == Some(doc.text) then v.stale else v.stale + {path},
                  if disk.Some? then v.lastDisk[path := disk.value] else v.lastDisk - {path});
    WrittenElsewhere(v.held, path, Some(w.encode(doc.text)), w.hash);
    hide Written;
    assert SameElsewhere(v, u, path);
    TornElsewhere(v, u, w, path);
    assert path !in Torn(u, w);
  }

  lemma TornAfterClose(v: Look, w: World, path: Path, disk: Option<Contents>)
    ensures Torn(v.(open := v.open - {path}, held := Written(v.held, path, disk, w.hash)), w) == Torn(v, w) - {path}
  {
    var u := v.(open := v.open - {path}, held := Written(v.held, path, disk, w.hash));
    WrittenElsewhere(v.held, path, disk, w.hash);
    hide Written;
    assert SameElsewhere(v, u, path);
    TornElsewhere(v, u, w, path);
  }

  /** A change that goes through: the VFS notices it, and the path turns stale, exactly
      when its hash is not the one held. It leaves an agreeing path agreeing, and what is
      held is right again in any case. */
  lemma TornAfterChange(v: Look, w: World, path: Path, doc: Documents.Document)
    requires path in v.open
    ensures var changed := Accepts(w.hash, Held(v.held, path), Some(w.encode(doc.text)));
            var u := v.(open := v.open[path := doc], held := Written(v.held, path, Some(w.encode(doc.text)), w.hash),
                        stale := if changed then v.stale + {path} else v.stale);
            && Torn(u, w) - {path} == Torn(v, w) - {path} && HeldAt(u, w, path)
            && (path !in Torn(v, w) ==>
                  && Torn(u, w) == Torn(v, w)
                  && (changed <==> w.hash(w.encode(v.open[path].text)) != w.hash(w.encode(doc.text))))
  {
    var changed := Accepts(w.hash, Held(v.held, path), Some(w.encode(doc.text)));
    var u := v.(open := v.open[path := doc], held := Written(v.held, path, Some(w.encode(doc.text)), w.hash),
                stale := if changed then v.stale + {path} else v.stale);
    WrittenElsewhere(v.held, path, Some(w.encode(doc.text)), w.hash);
    hide Written;
    assert SameElsewhere(v, u, path);
    TornElsewhere(v, u, w, path);
    assert path !in Torn(v, w) ==> path !in Torn(u, w);
  }

  /** A change whose batch panicked half-way: neither the VFS nor the stale set hears of
      it. An agreeing path still agrees exactly when the half that was applied leaves the
      buffer hashing as it did. */
  lemma TornAfterPanic(v: Look, w: World, path: Path, doc: Documents.Document)
    requires path in v.open
    ensures var u := v.(open := v.open[path := doc]);
            && Torn(u, w) - {path} == Torn(v, w) - {path}
            && (path !in Torn(v, w) ==>
                  (path !in Torn(u, w) <==> w.hash(w.encode(doc.text)) == w.hash(w.encode(v.open[path].text))))
  {
    var u := v.(open := v.open[path := doc]);
    assert SameElsewhere(v, u, path);
    TornElsewhere(v, u, w, path);
  }

  /** An install compares buffers with the disk again: only what is held can be wrong. */
  lemma TornAfterInstall(v: Look, w: World, disk: map<Path, string>, stale: set<Path>)
    requires forall path :: path in v.open && w.onDisk(path) && !(path in disk && disk[path] == v.open[path].text) ==>
               path in stale
    ensures var u := v.(stale := stale, lastDisk := disk);
            && Torn(u, w) == (set path | path in v.open && !HeldAt(v, w, path))
            && Torn(u, w) <= Torn(v, w)
  {
    hide SameHash;
  }

  /** The batch that panics after inserting before one wide character: an open file that
      agreed with disk and VFS is changed, and neither knows. */
  lemma HalfBatchTears(v: Look, w: World, path: Path, version: int)
    requires path in v.open && v.open[path].text == "\U{E9}" && path !in Torn(v, w)
    requires w.hash(w.encode("x\U{E9}")) != w.hash(w.encode("\U{E9}"))
    ensures Documents.EditedAll("\U{E9}", Documents.HalfBatch(), Utf16, LineIndex.Checked) == None
    ensures var t := Documents.EditedUntilPanic("\U{E9}", Documents.HalfBatch(), Utf16, LineIndex.Checked);
            path in Torn(v.(open := v.open[path := Documents.Document(version, t)]), w)
  {
    Documents.BatchIsHalfApplied();
    hide Documents.EditedAll, Documents.EditedUntilPanic;
    TornAfterPanic(v, w, path, Documents.Document(version, "x\U{E9}"));
  }

  class Buffers {
    const documents: Documents.Documents
    const vfs: Vfs
    const onDisk: Path -> bool
    const encode: string -> Contents
    var stale: set<Path>

    /** What the VFS holds by path, and the disk text read when a path was last opened
        or last looked at by an install. */
    ghost var held: map<Path, Contents>
    ghost var lastDisk: map<Path, string>

    /** The VFS is in order, and `held` is what it holds. */
    ghost predicate Valid()
      reads `held, vfs, vfs.interner
    {
      vfs.Valid() && vfs.changes == [] && Mirrors(vfs.interner.paths, vfs.current, held)
    }

    ghost function Looks(): Look
      reads `held, `stale, `lastDisk, documents
    {
      Look(documents.open, held, stale, lastDisk)
    }

    ghost function Outside(): World {
      World(vfs.hash, encode, onDisk)
    }

    /** The open documents that do not agree with the VFS and the stale set. */
    ghost function Tears(): set<Path>
      reads `held, `stale, `lastDisk, documents
    {
      Torn(Looks(), Outside())
    }

    constructor (hash: Contents -> nat, onDisk: Path -> bool, encode: string -> Contents)
      ensures Valid() && Tears() == {} && stale == {} && fresh(documents) && fresh(vfs) && fresh(vfs.interner)
      ensures documents.open == map[] && held == map[] && lastDisk == map[]
      ensures vfs.hash == hash && this.onDisk == onDisk && this.encode == encode
    {
      documents := new Documents.Documents();
      vfs := new Vfs(hash);
      this.onDisk := onDisk;
      this.encode := encode;
      stale, held, lastDisk := {}, map[], map[];
    }

    /** `record_vfs_contents`: writes, then drops the batch nobody consumes. */
    method RecordVfsContents(path: Path, contents: Option<Contents>) returns (changed: bool)
      requires Valid()
      modifies `held, vfs, vfs.interner
      ensures Valid()
      ensures changed == Accepts(vfs.hash, Held(old(held), path), contents)
      ensures held == Written(old(held), path, contents, vfs.hash)
    {
      hide Mirrors, Carries, Recorded, IndexOf, Takes, Updated, Accepts;
      WriteMirrors(vfs.interner.paths, vfs.current, path, held, vfs.hash, contents);
      changed := vfs.SetFileContents(path, contents);
      var _ := vfs.TakeChanges();
      held := if changed then Put(held, path, contents) else held;
    }

    /** `did_open`. The path becomes stale unless it is a real file whose disk text is
        the text the client sent; it agrees from now on. */
    method DidOpen(path: Path, version: int, text: string, disk: Option<string>)
      requires Valid()
      modifies this, documents, vfs, vfs.interner
      ensures Valid() && Tears() == old(Tears()) - {path}
      ensures documents.open == old(documents.open)[path := Documents.Document(version, text)]
      ensures stale == old(stale) + (if onDisk(path) && disk == Some(text) then {} else {path})
    {
      hide Valid, Torn, Accepts, Written;
      TornAfterOpen(Looks(), Outside(), path, Documents.Document(version, text), disk);
      var differs := !onDisk(path) || disk.None? || disk.value != text;
      if differs {
        stale := stale + {path};
      }
      var _ := documents.Open(path, version, text);
      var _ := RecordVfsContents(path, Some(encode(text)));
      lastDisk := if disk.Some? then lastDisk[path := disk.value] else lastDisk - {path};
    }

    /** `did_change`. A document that is not open is ignored; an edit the VFS notices
        makes the path stale. When the batch panics, the panic is caught and the session
        goes on with the half that was applied, of which VFS and stale set hear nothing. */
    method DidChange(path: Path, version: int, changes: seq<Documents.Change>, enc: Encoding, build: LineIndex.Build)
      returns (panicked: bool)
      requires Valid()
      modifies `held, `stale, documents, vfs, vfs.interner
      ensures Valid() && Tears() - {path} == old(Tears()) - {path}
      ensures path !in old(documents.open) ==>
                !panicked && documents.open == old(documents.open) && stale == old(stale) && Tears() == old(Tears())
      ensures path in old(documents.open) ==>
                var before := old(documents.open)[path].text;
                var after := Documents.EditedUntilPanic(before, changes, enc, build);
                var same := vfs.hash(encode(before)) == vfs.hash(encode(after));
                && panicked == Documents.EditedAll(before, changes, enc, build).None?
                && documents.open == old(documents.open)[path := Documents.Document(version, after)]
                && (panicked ==> held == old(held) && stale == old(stale))
                && (!panicked ==> HeldAt(Looks(), Outside(), path))
                && (path !in old(Tears()) ==>
                      if panicked then path !in Tears() <==> same
                      else Tears() == old(Tears()) && stale == old(stale) + (if same then {} else {path}))
    {
      hide Valid, Torn, Accepts, Written, SameHash, Documents.EditedAll, Documents.EditedUntilPanic;
      ghost var v := Looks();
      var text: Option<string>;
      text, panicked := documents.ApplyChanges(path, version, changes, enc, build);
      if text.None? {
        if panicked {
          TornAfterPanic(v, Outside(), path, documents.open[path]);
        }
        return;
      }
      TornAfterChange(v, Outside(), path, documents.open[path]);
      var changed := RecordVfsContents(path, Some(encode(text.value)));
      if changed {
        stale := stale + {path};
      }
    }

    /** `did_close`: the disk is authoritative again; staleness survives. */
    method DidClose(path: Path, disk: Option<Contents>)
      requires Valid()
      modifies `held, documents, vfs, vfs.interner
      ensures Valid() && documents.open == old(documents.open) - {path} && Tears() == old(Tears()) - {path}
      ensures path in old(documents.open) ==> SameHash(vfs.hash, Held(held, path), disk)
    {
      hide Valid, Accepts, Written, SameHash, Torn;
      ghost var v := Looks();
      TornAfterClose(v, Outside(), path, disk);
      WrittenElsewhere(held, path, disk, vfs.hash);
      var closed := documents.Close(path);
      if closed.None? {
        assert documents.open == old(documents.open);
        NotTorn(v, Outside(), path);
        return;
      }
      var _ := RecordVfsContents(path, disk);
    }

    /** `refresh_document_freshness`, run when a generation is installed: exactly the
        open real files whose buffer is not what the disk says are stale, and only what
        the VFS holds can still disagree. */
    method RefreshDocumentFreshness(disk: map<Path, string>)
      requires Valid()
      modifies `stale, `lastDisk
      ensures Valid() && Tears() <= old(Tears())
      ensures Tears() == set path | path in documents.open && !HeldAt(Looks(), Outside(), path)
      ensures stale == set path | path in documents.open && onDisk(path)
                                  && !(path in disk && disk[path] == documents.open[path].text)
      ensures lastDisk == disk
    {
      hide Valid, SameHash;
      ghost var v := Looks();
      stale := set path | path in documents.open && onDisk(path)
                          && !(path in disk && disk[path] == documents.open[path].text);
      lastDisk := disk;
      TornAfterInstall(v, Outside(), disk, stale);
    }

    /** The startup generation: buffers are compared with the disk as at any install, but it
        cannot have seen edits made while it was loading, so whatever was stale stays stale. */
    method InstallAtStartup(disk: map<Path, string>)
      requires Valid()
      modifies `stale, `lastDisk
      ensures Valid() && Tears() <= old(Tears())
      ensures stale == old(stale) + set path | path in documents.open && onDisk(path)
                                               && !(path in disk && disk[path] == documents.open[path].text)
      ensures lastDisk == disk
    {
      hide Valid, Torn;
      ghost var v := Looks();
      var staleDuringStartup := stale;
      RefreshDocumentFreshness(disk);
      stale := stale + staleDuringStartup;
      TornAfterInstall(v, Outside(), disk, stale);
    }

    /** A buffer that agrees and is not stale is the disk text last read for it, and the
        VFS holds its bytes, up to a hash collision between the two. */
    lemma FreshBufferIsDiskText(path: Path)
      requires Valid() && path in documents.open && path !in Tears() && onDisk(path) && path !in stale
      ensures path in lastDisk
      ensures SameHash(vfs.hash, Held(held, path), Some(encode(lastDisk[path])))
      ensures (forall a, b :: vfs.hash(encode(a)) == vfs.hash(encode(b)) ==> a == b) ==>
                lastDisk[path] == documents.open[path].text
    {
      hide Valid;
      assert HeldAt(Looks(), Outside(), path) && FreshAt(Looks(), Outside(), path);
    }
  }

  lemma NotTorn(v: Look, w: World, path: Path)
    requires path !in v.open
    ensures Torn(v, w) - {path} == Torn(v, w)
  {
  }
}
