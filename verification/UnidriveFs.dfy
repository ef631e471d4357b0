/** The filesystem object: its operations update the shared maps in place, each to
    the state that `MountState` gives for it. The outcomes of IPC calls and local
    file operations are arguments. */
module UnidriveFilesystem {
  import opened Options
  import opened PathText
  import opened PathMaps
  import opened PathMapLaws
  import opened MountState
  import opened MountLaws

  /** An entry of a listing with the inode it is interned under. */
  datatype Seen = Seen(ino: nat, e: ListEntry)

  function Representables(listing: seq<ListEntry>): seq<ListEntry> {
    if listing == [] then []
    else
      var e := listing[|listing| - 1];
      Representables(listing[..|listing| - 1]) + if Representable(Basename(e.path)) then [e] else []
  }

  lemma PopulatedNothing(fs: Fs)
    ensures Populated(fs, []) == fs
  {
  }

  lemma PopulatedSnoc(fs: Fs, es: seq<ListEntry>, e: ListEntry)
    ensures Populated(fs, es + [e]) == Listed(Populated(fs, es), e)
  {
    hide Listed, Representable;
    assert (es + [e])[..|es|] == es;
  }

  /** Dropping the unrepresentable entries first makes no difference. */
  lemma {:induction false} PopulatedByRepresentables(fs: Fs, listing: seq<ListEntry>)
    ensures Populated(fs, Representables(listing)) == Populated(fs, listing)
    ensures forall e :: e in Representables(listing) ==> Representable(Basename(e.path))
  {
    hide Representable, Basename;
    if listing != [] {
      var front, e := listing[..|listing| - 1], listing[|listing| - 1];
      PopulatedByRepresentables(fs, front);
      assert listing == front + [e];
      PopulatedSnoc(fs, front, e);
      if Representable(Basename(e.path)) {
        PopulatedSnoc(fs, Representables(front), e);
      } else {
        assert Representables(listing) == Representables(front);
      }
    }
  }

  /** `readdir` shows the representable entries, in the listing's order. */
  lemma {:induction false} ShownByRepresentables(fs: Fs, listing: seq<ListEntry>)
    ensures Shown(fs, listing) == seq(|Representables(listing)|, i requires 0 <= i < |Representables(listing)| =>
              var path := Representables(listing)[i].path; DirEntry(InodeOf(fs.names, path), VisibleName(fs.raw, path)))
  {
    hide Representable, Basename, VisibleName;
    if listing != [] {
      ShownByRepresentables(fs, listing[..|listing| - 1]);
    }
  }

  lemma DropsAllBut(fs: Fs)
    ensures Applied(fs, All).attrs == map ino | ino in fs.attrs && ino in Kept(fs) :: fs.attrs[ino]
  {
    hide Kept;
  }

  lemma DropsBelow(fs: Fs, roots: seq<string>, below: seq<nat>)
    requires forall i :: i in below <==> i in fs.names.toPath && Covered(fs.names.toPath[i], set r | r in roots)
    ensures Applied(fs, Paths(roots)).attrs ==
            map ino | ino in fs.attrs && (ino in Kept(fs) || ino !in below) :: fs.attrs[ino]
  {
    hide Kept, Covered;
  }

  class UnidriveFs {
    const nfc: string -> string
    const paths: PathMap
    var attrs: map<nat, Attr>
    var openHandles: map<nat, Handle>
    var rawNames: map<string, string>
    var nextFh: nat
    var nextHandleId: nat
    ghost var world: World

    ghost predicate Valid()
      reads this, paths
    {
      paths.Valid() && NamesInv(paths.View())
    }

    ghost function State(): Fs
      reads this, paths
    {
      Fs(paths.View(), attrs, openHandles, rawNames, nextFh, nextHandleId, world)
    }

    constructor (nfc: string -> string, ghost root: string)
      ensures Valid() && fresh(paths) && State() == NewFs(root) && this.nfc == nfc
    {
      this.nfc := nfc;
      paths := new PathMap();
      attrs, openHandles, rawNames := map[], map[], map[];
      nextFh, nextHandleId := 1, 1;
      world := NewFs(root).world;
    }

    // -------------------------------------------------------------- listings and names

    method PopulateFromList(listing: seq<ListEntry>) returns (out: seq<Seen>)
      requires Valid()
      modifies this`attrs, paths
      ensures Valid() && State() == Populated(old(State()), listing)
      ensures |out| == |Representables(listing)|
      ensures forall i :: 0 <= i < |out| ==> out[i].e == Representables(listing)[i] && Interns(out[i])
    {
      hide Representable, Basename, Populated, Bijective, Interns;
      var representable := SkipUnrepresentable(listing);
      PopulatedByRepresentables(old(State()), listing);
      out := InternAll(representable);
    }

    method SkipUnrepresentable(listing: seq<ListEntry>) returns (representable: seq<ListEntry>)
      ensures representable == Representables(listing)
    {
      hide Representable, Basename;
      representable := [];
      for k := 0 to |listing|
        invariant representable == Representables(listing[..k])
      {
        assert listing[..k + 1][..k] == listing[..k];
        if Representable(Basename(listing[k].path)) {
          representable := representable + [listing[k]];
        }
      }
      assert listing[..|listing|] == listing;
    }

    ghost predicate Interns(s: Seen)
      reads paths
    {
      s.e.path in paths.pathToInode && s.ino == paths.pathToInode[s.e.path]
    }

    method InternAll(es: seq<ListEntry>) returns (out: seq<Seen>)
      requires Valid() && forall e :: e in es ==> Representable(Basename(e.path))
      modifies this`attrs, paths
      ensures Valid() && State() == Populated(old(State()), es)
      ensures |out| == |es| && forall i :: 0 <= i < |out| ==> out[i].e == es[i] && Interns(out[i])
    {
      hide Representable, Basename, Populated, Bijective;
      PopulatedNothing(old(State()));
      out := [];
      for k := 0 to |es|
        invariant Valid() && State() == Populated(old(State()), es[..k])
        invariant |out| == k && forall i :: 0 <= i < k ==> out[i].e == es[i] && Interns(out[i])
      {
        assert es[..k + 1] == es[..k] + [es[k]];
        assert es[k] in es;
        PopulatedSnoc(old(State()), es[..k], es[k]);
        InternKeeps(paths.View(), es[k].path);
        var ino := paths.Intern(es[k].path);
        attrs := attrs[ino := AttrOf(es[k])];
        out := out + [Seen(ino, es[k])];
      }
      assert es[..|es|] == es;
    }

    /** The entry at `cp`, whose last component is the normal form of `name`, is shown
        under `name` from now on, and every other entry as before. */
    method RecordRawName(cp: string, name: string)
      modifies this`rawNames
      ensures rawNames == Recorded(nfc, old(rawNames), cp, name)
      ensures nfc(name) == Basename(cp) ==> VisibleName(rawNames, cp) == name
      ensures forall k :: k != cp ==> VisibleName(rawNames, k) == VisibleName(old(rawNames), k)
    {
      if nfc(name) == name {
        rawNames := rawNames - {cp};
      } else {
        rawNames := rawNames[cp := name];
      }
    }

    /** Entries at and below `cp` are shown under the last component of their path from
        now on, all others as before. */
    method ForgetRawNames(cp: string)
      modifies this`rawNames
      ensures rawNames == ForgottenRaw(old(rawNames), cp)
      ensures forall k :: VisibleName(rawNames, k) ==
                          if AtOrBelow(k, cp) then Basename(k) else VisibleName(old(rawNames), k)
    {
      rawNames := map k | k in rawNames && !(k == cp || cp + "/" <= k) :: rawNames[k];
    }

    method RenameRawNames(src: string, dst: string)
      modifies this`rawNames
      ensures rawNames == RenamedRaw(old(rawNames), src, dst)
    {
      hide MovedRaw;
      var moved := MovedNames(src, dst);
      var kept := map k | k in rawNames && !(k == src || src + "/" <= k) :: rawNames[k];
      assert kept == ForgottenRaw(rawNames, src);
      rawNames := kept + moved;
    }

    method MovedNames(src: string, dst: string) returns (moved: map<string, string>)
      ensures moved == MovedRaw(rawNames, src, dst)
    {
      hide MovedRaw, MovedSoFar, Moved;
      moved := map[];
      var rest := rawNames.Keys;
      MovedNone(rawNames, src, dst);
      while rest != {}
        invariant rest <= rawNames.Keys
        invariant MovedSoFar(rawNames, rawNames.Keys - rest, src, dst, moved)
        decreases rest
      {
        var k :| k in rest;
        MovedOneMore(rawNames, rawNames.Keys - rest, k, src, dst, moved);
        assert rawNames.Keys - (rest - {k}) == rawNames.Keys - rest + {k};
        rest := rest - {k};
        if src + "/" <= k {
          moved := moved[Moved(k, src, dst) := rawNames[k]];
        }
      }
      assert rawNames.Keys - rest == rawNames.Keys;
      MovedAll(rawNames, src, dst, moved);
    }

    method RefuseNfcCollision(cp: string, name: string, listing: Option<seq<ListEntry>>) returns (err: Errno)
      requires Valid()
      modifies this`attrs, paths
      ensures Valid() && Step(State(), err) == CollisionCheck(old(State()), cp, name, listing)
      ensures err == Barred(old(State()), cp, name, listing)
    {
      hide Representable, Basename, LastSlash, Utf8Length, Populated, Representables, InListing, VisibleName, Barred;
      CheckLaw(State(), cp, name, listing);
      var visible := VisibleName(rawNames, cp);
      if visible == name {
        return OK;
      }
      if cp in paths.pathToInode && paths.pathToInode[cp] in attrs {
        return EEXIST;
      }
      if listing.None? {
        return EngineError;
      }
      var out := PopulateFromList(listing.value);
      var seen := FindListed(out, cp);
      SeenIsListed(listing.value, out, cp);
      err := if seen.Some? then EEXIST else OK;
    }

    method FindListed(out: seq<Seen>, cp: string) returns (ino: Option<nat>)
      ensures ino.Some? <==> Mentioned(out, cp)
      ensures ino.Some? ==> exists i :: 0 <= i < |out| && out[i].e.path == cp && out[i].ino == ino.value
    {
      for i := 0 to |out|
        invariant forall j :: 0 <= j < i ==> out[j].e.path != cp
      {
        if out[i].e.path == cp {
          return Some(out[i].ino);
        }
      }
      return None;
    }

    /** A name is found exactly if it is the one an entry is shown under and the entry is
        cached or, if not, in the listing; the inode has the entry's path. */
    method LookupName(parent: nat, name: string, listing: Option<seq<ListEntry>>) returns (ino: Option<nat>)
      requires Valid()
      modifies this`attrs, paths
      ensures Valid() && Found(State(), ino) == Lookup(nfc, old(State()), parent, name, listing)
      ensures LookupTells(nfc, old(State()), State(), ino, parent, name, listing)
    {
      hide Representable, Basename, LastSlash, Utf8Length, Populated, Representables, InListing, VisibleName, ChildPath,
           LookupTells;
      LookupLaw(nfc, State(), parent, name, listing);
      if parent !in paths.inodeToPath {
        return None;
      }
      var cp := ChildPath(nfc, paths.inodeToPath[parent], name);
      var visible := VisibleName(rawNames, cp);
      if visible != name {
        return None;
      }
      if cp in paths.pathToInode && paths.pathToInode[cp] in attrs {
        return Some(paths.pathToInode[cp]);
      }
      if listing.None? {
        return None;
      }
      var out := PopulateFromList(listing.value);
      ino := FindListed(out, cp);
      SeenIsListed(listing.value, out, cp);
    }

    /** Succeeds exactly if the inode has an attribute afterwards (the root needs none);
        one that is cached is not fetched again, and no inode loses its path. */
    method GetOrFetchAttr(ino: nat, listing: Option<seq<ListEntry>>) returns (err: Errno)
      requires Valid()
      modifies this`attrs, paths
      ensures Valid() && Step(State(), err) == Getattr(old(State()), ino, listing)
      ensures GetattrTells(old(State()), State(), err, ino, listing)
    {
      hide Representable, Basename, LastSlash, Utf8Length, Populated, Representables, GetattrTells;
      GetattrLaw(State(), ino, listing);
      if ino == ROOT_INODE || ino in attrs {
        return OK;
      }
      if ino !in paths.inodeToPath {
        return ENOENT;
      }
      if listing.None? {
        return EngineError;
      }
      var _ := PopulateFromList(listing.value);
      return if ino in attrs then OK else ENOENT;
    }

    /** The entries after `.` and `..`, and the inode shown for `..`. */
    method ReadDirectory(dir: nat, listing: Option<seq<ListEntry>>)
      returns (err: Errno, entries: seq<DirEntry>, dotdot: nat)
      requires Valid()
      modifies this`attrs, paths
      ensures Valid() && Step(State(), err) == Readdir(old(State()), dir, listing)
      ensures ReaddirTells(old(State()), State(), err, dir, listing)
      ensures err == OK ==> entries == Shown(State(), listing.value) && |entries| == |Representables(listing.value)|
      ensures err == OK ==> forall i :: 0 <= i < |entries| ==>
                var path := Representables(listing.value)[i].path;
                && entries[i].ino in paths.inodeToPath && paths.inodeToPath[entries[i].ino] == path
                && entries[i].name == VisibleName(rawNames, path)
      ensures err == OK && dir == ROOT_INODE ==> dotdot == ROOT_INODE
      ensures err == OK && dir != ROOT_INODE ==>
                dotdot in paths.inodeToPath && paths.inodeToPath[dotdot] == ParentPrefix(old(paths.inodeToPath)[dir])
    {
      hide Representable, Basename, LastSlash, Utf8Length, Populated, Representables, VisibleName, ParentPrefix, Shown,
           ReaddirTells;
      ReaddirLaw(State(), dir, listing);
      entries, dotdot := [], dir;
      if dir !in paths.inodeToPath {
        return ENOENT, [], dir;
      }
      var dirPath := paths.inodeToPath[dir];
      if listing.None? {
        return EngineError, [], dir;
      }
      var listed := PopulateFromList(listing.value);
      if dir == ROOT_INODE {
        dotdot := ROOT_INODE;
      } else {
        dotdot := paths.Intern(ParentPrefix(dirPath));
      }
      ShownByRepresentables(State(), listing.value);
      for i := 0 to |listed|
        invariant |entries| == i
        invariant forall j :: 0 <= j < i ==> entries[j] == Shown(State(), listing.value)[j]
      {
        entries := entries + [DirEntry(listed[i].ino, VisibleName(rawNames, listed[i].e.path))];
      }
      err := OK;
    }

    // -------------------------------------------------------------- open files

    /** A handle that succeeds to open is on the inode's path, dirty exactly if the file
        was emptied for it, registered at the engine, and the cached size is that of
        the cache file. A failure opens nothing. */
    method OpenFile(ino: nat, writable: bool, trunc: bool, reply: Option<(string, Bytes)>, local: bool, now: int)
      returns (err: Errno)
      requires Valid()
      modifies this
      ensures Valid() && Step(State(), err) == Open(old(State()), ino, writable, trunc, reply, local, now)
      ensures OpenTells(old(State()), State(), err, ino, writable, trunc, reply, local, now)
    {
      hide OpenTells, Hydrated, Registered, Restamped, Bijective, Placed, Told, NamesInv;
      OpenLaw(State(), ino, writable, trunc, reply, local, now);
      if ino !in paths.inodeToPath {
        return ENOENT;
      }
      var path := paths.inodeToPath[ino];
      if path == "" {
        return EISDIR;
      }
      var truncating := writable && trunc;
      var id := Minted(if writable then "wh" else "rh", nextHandleId);
      nextHandleId := nextHandleId + 1;
      if reply.None? {
        return EngineError;
      }
      var (cachePath, content) := reply.value;
      if truncating {
        world := Placed(world, ino, path, "");
      } else {
        world := Hydrated(world, ino, path, content);
      }
      world := Registered(world, id);
      if truncating {
        if ino in attrs {
          attrs := attrs[ino := Restamped(attrs[ino], 0, now)];
        }
      } else if ino in attrs {
        attrs := attrs[ino := attrs[ino].(hydrated := true, remoteMtime := None)];
      }
      if !local {
        if truncating {
          world := Told(world, ino, path);
        }
        return EIO;
      }
      if !truncating && ino in attrs {
        attrs := attrs[ino := attrs[ino].(size := |content|)];
      }
      var _ := AddHandle(ino, Handle(id, path, cachePath, truncating));
      return OK;
    }

    method AddHandle(ghost ino: nat, h: Handle) returns (fh: nat)
      modifies this
      ensures paths.View() == old(paths.View()) && State() == WithHandle(old(State()), ino, h) && fh == old(nextFh)
    {
      fh := nextFh;
      nextFh := nextFh + 1;
      openHandles := openHandles[fh := h];
      world := world.(inodeOf := world.inodeOf[fh := ino]);
    }

    /** A write that succeeds leaves its handle dirty, the bytes readable where they were
        written, and the cached size no smaller than their end. */
    method WriteAt(ino: nat, fh: nat, offset: nat, data: Bytes, written: Option<nat>, now: int) returns (err: Errno)
      requires written.Some? ==> written.value <= |data|
      modifies this
      ensures paths.View() == old(paths.View())
      ensures Step(State(), err) == Write(old(State()), ino, fh, offset, data, written, now)
      ensures WriteTells(old(State()), State(), err, ino, fh, offset, data, written, now)
    {
      hide Patched, WriteTells;
      WriteLaw(State(), ino, fh, offset, data, written, now);
      if fh !in openHandles {
        return EBADF;
      }
      if written.None? {
        return EIO;
      }
      world := world.(files := world.files[ino := Patched(FileOf(world, ino), offset, data[..written.value])]);
      openHandles := openHandles[fh := openHandles[fh].(dirty := true)];
      var newEnd := offset + written.value;
      if ino in attrs {
        var a := attrs[ino];
        attrs := attrs[ino := a.(size := Max(a.size, newEnd), mtime := now, remoteMtime := None)];
      }
      return OK;
    }

    /** Claims the dirty bit before the upload and restores it when that fails. */
    method FsyncFile(ghost ino: nat, fh: nat, synced: bool, upload: Upload) returns (err: Errno)
      modifies this
      ensures paths.View() == old(paths.View()) && Step(State(), err) == Fsync(old(State()), ino, fh, synced, upload)
      ensures FsyncTells(old(State()), State(), err, ino, fh, synced, upload)
    {
      hide FsyncTells, Uploaded;
      FsyncLaw(State(), ino, fh, synced, upload);
      if fh !in openHandles {
        return EBADF;
      }
      if !synced {
        return EIO;
      }
      var wasDirty := openHandles[fh].dirty;
      openHandles := openHandles[fh := openHandles[fh].(dirty := false)];
      if !wasDirty {
        return OK;
      }
      var h := openHandles[fh];
      world := Uploaded(Registered(world, h.id), ino, h.remotePath, h.cachePath, upload);
      if !upload.Stored? {
        if fh in openHandles {
          openHandles := openHandles[fh := openHandles[fh].(dirty := true)];
        }
        return EngineError;
      }
      return OK;
    }

    /** The handle is gone and its id closed; the writes of a dirty one are in the cloud,
        or their failure is told. */
    method ReleaseFile(ghost ino: nat, fh: nat, upload: Upload)
      modifies this
      ensures paths.View() == old(paths.View()) && State() == Release(old(State()), ino, fh, upload)
      ensures ReleaseTells(old(State()), State(), ino, fh, upload)
    {
      hide ReleaseTells, UploadedOrTold;
      ReleaseLaw(State(), ino, fh, upload);
      if fh !in openHandles {
        return;
      }
      var h := openHandles[fh];
      openHandles := openHandles - {fh};
      if h.dirty {
        world := UploadedOrTold(Registered(world, h.id), ino, h.remotePath, h.cachePath, upload);
      }
      world := Closed(world, h.id);
      world := world.(inodeOf := world.inodeOf - {fh});
    }

    /** `setattr` of a size: through a handle, or without one. When it succeeds, file and
        cached size have it, and the file is in the cloud or its handle dirty. */
    method SetSize(ino: nat, fh: Option<nat>, size: nat, begun: Option<string>, hydrated: Option<(string, Bytes)>,
                   local: bool, upload: Upload, now: int)
      returns (err: Errno)
      modifies this
      ensures paths.View() == old(paths.View())
      ensures fh.Some? ==> Step(State(), err) == TruncateHandle(old(State()), ino, fh.value, size, local, now)
      ensures fh.None? && size == 0 ==> Step(State(), err) == TruncateBareZero(old(State()), ino, begun, upload, now)
      ensures fh.None? && size > 0 ==>
                Step(State(), err) == TruncateBareTo(old(State()), ino, size, hydrated, local, upload, now)
      ensures fh.Some? ==> TruncateHandleTells(old(State()), State(), err, ino, fh.value, size, local, now)
      ensures fh.None? ==> TruncatesBare(old(State()), State(), err, ino, size, begun, hydrated, local, upload, now)
    {
      hide TruncateBareZero, TruncateBareTo, Resized, SizedAttrs, BareTells, TruncateHandleTells;
      if fh.Some? {
        TruncateHandleLaw(State(), ino, fh.value, size, local, now);
      }
      if fh.None? {
        if size == 0 {
          err := SetBareZero(ino, begun, upload, now);
        } else {
          err := SetBareSize(ino, size, hydrated, local, upload, now);
        }
        return;
      }
      if ino !in paths.inodeToPath {
        return ENOENT;
      }
      if fh.value !in openHandles {
        return EBADF;
      }
      if !local {
        return EIO;
      }
      world := world.(files := world.files[ino := Resized(FileOf(world, ino), size)]);
      openHandles := openHandles[fh.value := openHandles[fh.value].(dirty := true)];
      SizeAttr(ino, size, now);
      return OK;
    }

    /** Uploads the emptied file under an id of its own and closes that id, whether or
        not the upload succeeds. A success means an empty file in the cloud; the
        cached attribute changes only then. */
    method SetBareZero(ino: nat, begun: Option<string>, upload: Upload, now: int) returns (err: Errno)
      modifies this
      ensures paths.View() == old(paths.View())
      ensures Step(State(), err) == TruncateBareZero(old(State()), ino, begun, upload, now)
      ensures TruncatesBare(old(State()), State(), err, ino, 0, begun, None, false, upload, now)
    {
      hide SizedAttrs, BareTells, UploadedOrTold;
      TruncateZeroLaw(State(), ino, begun, upload, now);
      if ino !in paths.inodeToPath {
        return ENOENT;
      }
      if begun.None? {
        return EngineError;
      }
      var path := paths.inodeToPath[ino];
      world := Placed(world, ino, path, "");
      var id := Minted("trunc0", nextHandleId);
      nextHandleId := nextHandleId + 1;
      world := UploadedOrTold(Registered(world, id), ino, path, begun.value, upload);
      world := Closed(world, id);
      if !upload.Stored? {
        return EngineError;
      }
      SizeAttr(ino, 0, now);
      return OK;
    }

    /** Hydrates under an id of its own, resizes, uploads, and closes the id on every
        branch. A success means a file of that size in the cloud; the cached
        attribute changes only then. */
    method SetBareSize(ino: nat, size: nat, hydrated: Option<(string, Bytes)>, local: bool, upload: Upload,
                       now: int) returns (err: Errno)
      modifies this
      ensures paths.View() == old(paths.View())
      ensures Step(State(), err) == TruncateBareTo(old(State()), ino, size, hydrated, local, upload, now)
      ensures size > 0 ==> TruncatesBare(old(State()), State(), err, ino, size, None, hydrated, local, upload, now)
    {
      hide Resized, SizedAttrs, BareTells, Hydrated, UploadedOrTold;
      TruncateToLaw(State(), ino, size, hydrated, local, upload, now);
      if ino !in paths.inodeToPath {
        return ENOENT;
      }
      var id := Minted("truncN", nextHandleId);
      nextHandleId := nextHandleId + 1;
      if hydrated.None? {
        return EngineError;
      }
      var path := paths.inodeToPath[ino];
      var (cachePath, content) := hydrated.value;
      world := Registered(Hydrated(world, ino, path, content), id);
      if !local {
        world := Closed(world, id);
        return EIO;
      }
      world := world.(files := world.files[ino := Resized(content, size)]);
      world := UploadedOrTold(world, ino, path, cachePath, upload);
      world := Closed(world, id);
      if !upload.Stored? {
        return EngineError;
      }
      SizeAttr(ino, size, now);
      return OK;
    }

    method SizeAttr(ino: nat, size: nat, now: int)
      modifies this`attrs
      ensures attrs == SizedAttrs(old(attrs), ino, size, now)
      ensures ino in attrs ==> attrs[ino].size == size
    {
      if ino in attrs {
        attrs := attrs[ino := attrs[ino].(size := size, mtime := now, remoteMtime := None)];
        if size > 0 {
          attrs := attrs[ino := attrs[ino].(hydrated := true)];
        }
      }
    }

    // -------------------------------------------------------------- namespace operations

    /** A new entry is mapped, cached as `attr` and shown under `name`. */
    method Enter(cp: string, name: string, attr: Attr) returns (ino: nat)
      requires Valid()
      modifies this`attrs, this`rawNames, paths
      ensures Valid() && State() == Entered(nfc, old(State()), cp, name, attr)
      ensures ino == InodeOf(old(paths.View()), cp)
    {
      hide Recorded, VisibleName, Basename, InodeOf, Interned, Bijective, NamesInv;
      InternKeeps(paths.View(), cp);
      ino := paths.Intern(cp);
      RecordRawName(cp, name);
      attrs := attrs[ino := attr];
    }

    /** A create that succeeds has an empty, dirty file open at the child's path, known to
        the engine, cached as new, and visible under the name it was given. One that
        fails opens nothing and remembers no name. */
    method CreateInternal(parent: nat, name: string, listing: Option<seq<ListEntry>>, reply: Option<(string, HandleId)>,
                          local: bool, now: int) returns (err: Errno, fh: nat)
      requires Valid()
      modifies this, paths
      ensures Valid() && Step(State(), err) == Create(nfc, old(State()), parent, name, listing, reply, local, now)
      ensures CreateTells(nfc, old(State()), State(), err, parent, name, listing, reply, local, now)
      ensures err == OK ==> fh == old(nextFh) && nextFh == fh + 1 && fh in world.inodeOf
    {
      hide Representable, Basename, Representables, InListing, VisibleName, ChildPath, CollisionCheck, Recorded,
           InodeOf, Interned, CreateTells, Placed, Bijective, Entered, Barred, NamesInv;
      CreateLaw(nfc, State(), parent, name, listing, reply, local, now);
      fh := 0;
      if parent !in paths.inodeToPath {
        return ENOENT, 0;
      }
      var cp := ChildPath(nfc, paths.inodeToPath[parent], name);
      err := RefuseNfcCollision(cp, name, listing);
      if err != OK {
        return;
      }
      nextHandleId := nextHandleId + 1;
      if reply.None? {
        return EngineError, 0;
      }
      var (cachePath, id) := reply.value;
      world := Registered(world, id);
      if !local {
        return EIO, 0;
      }
      var ino := Enter(cp, name, Attr(0, now, None, false, true, true));
      world := Placed(world, ino, cp, "");
      fh := AddHandle(ino, Handle(id, cp, cachePath, true));
    }

    /** A node that is made leaves no handle open and no id registered, and is in the
        cloud, empty, or the failure is told. */
    method MakeNode(parent: nat, name: string, regular: bool, listing: Option<seq<ListEntry>>,
                    reply: Option<(string, HandleId)>,
                    local: bool, upload: Upload, now: int) returns (err: Errno)
      requires Valid()
      modifies this, paths
      ensures Valid()
      ensures Step(State(), err) == Mknod(nfc, old(State()), parent, name, regular, listing, reply, local, upload, now)
      ensures MknodTells(nfc, old(State()), State(), err, parent, name, regular, listing, reply, local, upload, now)
    {
      hide Create, ChildPath, CreateTells, MknodTells, Release, NamesInv, ReleaseTells;
      MknodLaw(nfc, State(), parent, name, regular, listing, reply, local, upload, now);
      if !regular {
        return EPERM;
      }
      var fh;
      err, fh := CreateInternal(parent, name, listing, reply, local, now);
      if err != OK {
        return;
      }
      ghost var ino := world.inodeOf[fh];
      ReleaseFile(ino, fh, upload);
    }

    /** A directory that is made is mapped, cached as a folder, and visible under the name
        it was given; no handle and no file is touched either way. */
    method MakeDirectory(parent: nat, name: string, listing: Option<seq<ListEntry>>, made: bool,
                         now: int) returns (err: Errno)
      requires Valid()
      modifies this, paths
      ensures Valid() && Step(State(), err) == Mkdir(nfc, old(State()), parent, name, listing, made, now)
      ensures MkdirTells(nfc, old(State()), State(), err, parent, name, listing, made, now)
    {
      hide Representable, Basename, Representables, InListing, VisibleName, ChildPath, CollisionCheck, Recorded,
           InodeOf, Interned, MkdirTells, Bijective, Entered, Barred, NamesInv;
      MkdirLaw(nfc, State(), parent, name, listing, made, now);
      if parent !in paths.inodeToPath {
        return ENOENT;
      }
      var cp := ChildPath(nfc, paths.inodeToPath[parent], name);
      err := RefuseNfcCollision(cp, name, listing);
      if err != OK {
        return;
      }
      if !made {
        return EngineError;
      }
      var _ := Enter(cp, name, Attr(0, now, None, true, false, false));
    }

    /** `unlink` and `rmdir`: the path has no inode any more, its inode no path and no
        attribute, and no name is remembered at or below it. Handles stay open. A
        failure changes nothing. */
    method RemoveEntry(parent: nat, name: string, removed: bool) returns (err: Errno)
      requires Valid()
      modifies this, paths
      ensures Valid() && Step(State(), err) == Remove(nfc, old(State()), parent, name, removed)
      ensures RemoveTells(nfc, old(State()), State(), err, parent, name, removed)
    {
      hide ChildPath, RemoveTells;
      RemoveLaw(nfc, State(), parent, name, removed);
      if parent !in paths.inodeToPath {
        return ENOENT;
      }
      var cp := ChildPath(nfc, paths.inodeToPath[parent], name);
      if !removed {
        return EngineError;
      }
      ChildPathNotRoot(nfc, paths.inodeToPath[parent], name);
      ForgetKeeps(paths.View(), cp);
      world := Unlinked(world, cp);
      var known, ino := paths.Forget(cp);
      ForgetRawNames(cp);
      if known {
        attrs := attrs - {ino};
      }
      return OK;
    }

    method RenameEntry(srcParent: nat, srcName: string, dstParent: nat, dstName: string,
                       listing: Option<seq<ListEntry>>, renamed: bool)
      returns (err: Errno)
      requires Valid()
      modifies this, paths
      ensures Valid()
      ensures Step(State(), err) == Rename(nfc, old(State()), srcParent, srcName, dstParent, dstName, listing, renamed)
      ensures RenameTells(nfc, old(State()), State(), err, srcParent, srcName, dstParent, dstName, listing, renamed)
    {
      hide Representable, Basename, LastSlash, Utf8Length, Populated, Representables, InListing, VisibleName, ChildPath,
           CollisionCheck, Recorded, Renamed, RenamedRaw, FollowRename, Followed, RenameTells, Barred,
           NamesInv, Bijective, MovedStore;
      RenameLaw(nfc, State(), srcParent, srcName, dstParent, dstName, listing, renamed);
      if srcParent !in paths.inodeToPath || dstParent !in paths.inodeToPath {
        return ENOENT;
      }
      var src := ChildPath(nfc, paths.inodeToPath[srcParent], srcName);
      var dst := ChildPath(nfc, paths.inodeToPath[dstParent], dstName);
      ChildPathNotRoot(nfc, paths.inodeToPath[srcParent], srcName);
      ChildPathNotRoot(nfc, paths.inodeToPath[dstParent], dstName);
      err := RefuseNfcCollision(dst, dstName, listing);
      if err != OK {
        return;
      }
      if !renamed {
        return EngineError;
      }
      world := world.(store := MovedStore(world.store, src, dst));
      RenameKeeps(paths.View(), src, dst);
      paths.Rename(src, dst);
      FollowRenames(src, dst);
      RenameRawNames(src, dst);
      RecordRawName(dst, dstName);
    }

    method FollowRenames(src: string, dst: string)
      modifies this`openHandles
      ensures openHandles == Followed(old(openHandles), src, dst)
    {
      var rest := openHandles.Keys;
      while rest != {}
        invariant rest <= openHandles.Keys == old(openHandles).Keys
        invariant forall fh :: fh in openHandles ==>
                    openHandles[fh] ==
                    if fh in rest then old(openHandles)[fh] else FollowRename(old(openHandles)[fh], src, dst)
        decreases rest
      {
        var fh :| fh in rest;
        rest := rest - {fh};
        openHandles := openHandles[fh := FollowRename(openHandles[fh], src, dst)];
      }
    }

    // -------------------------------------------------------------- change events (`ViewCache`)

    /** Drops the cached attributes a change describes, but for entries with unsent
        local writes; touches neither the inode map nor any other attribute. */
    method Apply(change: Invalidation)
      requires Valid()
      modifies this`attrs
      ensures State() == Applied(old(State()), change)
      ensures Spares(old(State()), State(), [change])
    {
      hide Kept, Covered, Spares, NamesInv, Bijective, Drops;
      AppliedSpares(State(), change);
      var keep := Unsent();
      match change
      case All =>
        DropsAllBut(State());
        attrs := map ino | ino in attrs && ino in keep :: attrs[ino];
      case Paths(roots) =>
        var rootSet := set r | r in roots;
        var below := paths.InodesAtOrBelow(rootSet);
        for k := 0 to |below|
          invariant attrs == map ino | ino in old(attrs) && (ino in keep || ino !in below[..k]) :: old(attrs)[ino]
        {
          assert below[..k + 1] == below[..k] + [below[k]];
          if below[k] !in keep {
            attrs := attrs - {below[k]};
          }
        }
        assert below[..|below|] == below;
        DropsBelow(old(State()), roots, below);
    }

    method Unsent() returns (keep: set<nat>)
      ensures keep == Kept(State())
    {
      keep := {};
      var rest := openHandles.Keys;
      while rest != {}
        invariant rest <= openHandles.Keys
        invariant keep == set fh | fh in openHandles && fh !in rest && openHandles[fh].dirty &&
                                   openHandles[fh].remotePath in paths.pathToInode ::
                            paths.pathToInode[openHandles[fh].remotePath]
        decreases rest
      {
        var fh :| fh in rest;
        rest := rest - {fh};
        if openHandles[fh].dirty && openHandles[fh].remotePath in paths.pathToInode {
          keep := keep + {paths.pathToInode[openHandles[fh].remotePath]};
        }
      }
    }

    /** The applier task: every queued change, in order. */
    method DrainPending(pending: seq<Invalidation>)
      requires Valid()
      modifies this`attrs
      ensures State() == AppliedAll(old(State()), pending)
      ensures Spares(old(State()), State(), pending)
    {
      hide Spares;
      NothingSpares(State());
      assert pending[..0] == [];
      for k := 0 to |pending|
        invariant paths.View() == old(paths.View())
        invariant State() == AppliedAll(old(State()), pending[..k])
        invariant Spares(old(State()), State(), pending[..k])
      {
        assert pending[..k + 1][..k] == pending[..k] && pending[..k + 1] == pending[..k] + [pending[k]];
        ghost var before := State();
        Apply(pending[k]);
        SparesMore(old(State()), before, pending[..k], State(), pending[k]);
      }
      assert pending[..|pending|] == pending;
    }
  }

  ghost function AppliedAll(fs: Fs, pending: seq<Invalidation>): Fs {
    if pending == [] then fs else Applied(AppliedAll(fs, pending[..|pending| - 1]), pending[|pending| - 1])
  }

  ghost predicate Mentioned(out: seq<Seen>, cp: string) {
    exists i :: 0 <= i < |out| && out[i].e.path == cp
  }

  lemma SeenIsListed(listing: seq<ListEntry>, out: seq<Seen>, cp: string)
    requires |out| == |Representables(listing)| && forall i :: 0 <= i < |out| ==> out[i].e == Representables(listing)[i]
    ensures Mentioned(out, cp) <==> InListing(listing, cp)
  {
    hide Representable, Basename, Representables;
    RepresentablesAre(listing);
    if i :| 0 <= i < |out| && out[i].e.path == cp {
      assert Representables(listing)[i] in listing;
    }
    if e :| e in listing && e.path == cp && Representable(Basename(e.path)) {
      var j :| 0 <= j < |Representables(listing)| && Representables(listing)[j] == e;
      assert out[j].e.path == cp;
    }
  }

  lemma {:induction false} RepresentablesAre(listing: seq<ListEntry>)
    ensures forall e :: e in Representables(listing) <==> e in listing && Representable(Basename(e.path))
  {
    hide Representable, Basename;
    if listing != [] {
      RepresentablesAre(listing[..|listing| - 1]);
      assert listing == listing[..|listing| - 1] + [listing[|listing| - 1]];
    }
  }

  ghost predicate Below(k: string, src: string) {
    k != src && AtOrBelow(k, src)
  }

  /** `moved` holds the names of those keys in `done` that lie below `src`. */
  ghost predicate MovedSoFar(raw: map<string, string>, done: set<string>, src: string, dst: string,
                             moved: map<string, string>)
    requires done <= raw.Keys
  {
    && (forall k :: k in done && Below(k, src) ==> Moved(k, src, dst) in moved && moved[Moved(k, src, dst)] == raw[k])
    && (forall q :: q in moved ==> AtOrBelow(q, dst) && Moved(q, dst, src) in done && Below(Moved(q, dst, src), src))
  }

  lemma MovedNone(raw: map<string, string>, src: string, dst: string)
    ensures MovedSoFar(raw, raw.Keys - raw.Keys, src, dst, map[])
  {
  }

  lemma MovedOneMore(raw: map<string, string>, done: set<string>, k: string, src: string, dst: string,
                     moved: map<string, string>)
    requires done <= raw.Keys && k in raw && k !in done && MovedSoFar(raw, done, src, dst, moved)
    ensures MovedSoFar(raw, done + {k}, src, dst, if Below(k, src) then moved[Moved(k, src, dst) := raw[k]] else moved)
  {
    if Below(k, src) {
      MovedStaysBelow(k, src, dst);
      forall j | j in done && Below(j, src) ensures Moved(j, src, dst) != Moved(k, src, dst) {
        MovedStaysBelow(j, src, dst);
      }
    }
  }

  lemma MovedAll(raw: map<string, string>, src: string, dst: string, moved: map<string, string>)
    requires MovedSoFar(raw, raw.Keys, src, dst, moved)
    ensures moved == MovedRaw(raw, src, dst)
  {
    forall k | k in raw && Below(k, src) {
      MovedStaysBelow(k, src, dst);
    }
    forall q | q in moved
      ensures q in MovedRaw(raw, src, dst) && MovedRaw(raw, src, dst)[q] == moved[q]
    {
      MovedStaysBelow(q, dst, src);
    }
  }
}
