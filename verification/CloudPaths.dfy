/** The cloud by path, over every run: a cache file whose inode has a path lies under that
    path in the engine's cache, and what it holds is in the cloud under that path. */
module CloudPaths {
  import opened Options
  import opened PathText
  import opened PathMaps
  import opened PathMapLaws
  import opened MountState
  import opened MountRuns
  import opened CachePaths
  import opened CloudContents
  import C = CachedSizes

  /** What the engine's replies say: the cache file of a path lies where the path has it. */
  ghost predicate EnginePlaces(nfc: string -> string, fs: Fs, op: Op) {
    var root, toPath := fs.world.store.root, fs.names.toPath;
    match op
    case DoOpen(ino, _, _, reply, _, _) => reply.Some? && ino in toPath ==> reply.value.0 == CacheOf(root, toPath[ino])
    case DoTruncateZero(ino, begun, _, _) => begun.Some? && ino in toPath ==> begun.value == CacheOf(root, toPath[ino])
    case DoTruncateTo(ino, _, reply, _, _, _) =>
      reply.Some? && ino in toPath ==> reply.value.0 == CacheOf(root, toPath[ino])
    case DoCreate(parent, name, _, reply, _, _) =>
      reply.Some? && parent in toPath ==> reply.value.0 == CacheOf(root, ChildPath(nfc, toPath[parent], name))
    case DoMknod(parent, name, _, _, reply, _, _, _) =>
      reply.Some? && parent in toPath ==> reply.value.0 == CacheOf(root, ChildPath(nfc, toPath[parent], name))
    case _ => true
  }

  /** What the kernel does: it renames only what it has looked up. */
  ghost predicate KernelLooksUp(nfc: string -> string, fs: Fs, op: Op) {
    op.DoRename? && op.renamed && op.srcParent in fs.names.toPath ==>
      ChildPath(nfc, fs.names.toPath[op.srcParent], op.srcName) in fs.names.toInode
  }

  // ---------------------------------------------------------------- what every operation keeps

  ghost predicate Lies(st: Store, path: string, ino: nat) {
    path in st.cache && st.cache[path] == ino
  }

  /** What the cache file of `ino` holds is in the cloud under `path`. */
  ghost predicate CloudHas(w: World, path: string, ino: nat) {
    path in w.store.remote && ino in w.files && w.store.remote[path] == w.files[ino]
  }

  /** The cache file of a mapped inode lies under its path, and the cloud has it there
      unless a handle is dirty or a failure was told. */
  ghost predicate Held(fs: Fs, ino: nat)
    requires ino in fs.names.toPath
  {
    var path := fs.names.toPath[ino];
    && Lies(fs.world.store, path, ino)
    && (CloudHas(fs.world, path, ino) || path in fs.world.store.missed || DirtyOn(fs, ino))
  }

  /** The cache files were made for inodes that were handed out. */
  ghost predicate Known(fs: Fs) {
    forall ino :: ino in fs.world.files ==> ino < fs.names.next
  }

  ghost predicate AllMirror(fs: Fs) {
    forall fh :: fh in fs.handles ==> Mirrors(fs.world.store.root, fs.handles[fh])
  }

  ghost predicate PathInv(fs: Fs) {
    && Known(fs) && AllMirror(fs)
    && forall ino :: ino in fs.names.toPath && ino in fs.world.files ==> Held(fs, ino)
  }

  /** What happens at `path` is nothing to other paths. */
  ghost predicate SameElsewhere(st: Store, st': Store, path: string) {
    && st'.root == st.root
    && forall q :: q != path ==>
         && (q in st.cache ==> q in st'.cache && st'.cache[q] == st.cache[q])
         && (q in st.remote ==> q in st'.remote && st'.remote[q] == st.remote[q])
         && (q in st.missed ==> q in st'.missed)
  }

  /** Files other than that of `ino` and their dirty handles are as they were. */
  ghost predicate OtherFilesSame(fs: Fs, r: Fs, ino: nat) {
    && (forall i :: i != ino ==> (i in r.world.files <==> i in fs.world.files) &&
                                 (i in fs.world.files ==> r.world.files[i] == fs.world.files[i]))
    && (forall i :: i != ino && DirtyOn(fs, i) ==> DirtyOn(r, i))
  }

  lemma StaysHeld(fs: Fs, r: Fs, ino: nat, path: string)
    requires ino in fs.names.toPath && fs.names.toPath[ino] != path && ino in fs.world.files && Held(fs, ino)
    requires ino in r.names.toPath && r.names.toPath[ino] == fs.names.toPath[ino]
    requires SameElsewhere(fs.world.store, r.world.store, path)
    requires ino in r.world.files && r.world.files[ino] == fs.world.files[ino] && (DirtyOn(fs, ino) ==> DirtyOn(r, ino))
    ensures Held(r, ino)
  {
    hide DirtyOn;
  }

  /** An operation on the file of `ino`, at `path`: what is left to show is that the file
      now mapped there is held. */
  lemma OneFileHeld(fs: Fs, r: Fs, ino: nat, path: string)
    requires NamesInv(fs.names) && PathInv(fs) && r.names == fs.names && ino < fs.names.next
    requires SameElsewhere(fs.world.store, r.world.store, path) && OtherFilesSame(fs, r, ino) && AllMirror(r)
    requires ino in fs.names.toPath ==> fs.names.toPath[ino] == path
    requires path in fs.names.toInode && fs.names.toInode[path] in r.world.files ==> Held(r, fs.names.toInode[path])
    ensures PathInv(r)
  {
    hide DirtyOn, Held, SameElsewhere, AllMirror;
    forall i | i in r.names.toPath && i in r.world.files
      ensures Held(r, i)
    {
      if fs.names.toPath[i] != path {
        StaysHeld(fs, r, i, path);
      }
    }
  }

  // ---------------------------------------------------------------- uploads by path

  /** An upload that the cloud gets puts the file that lies under the path there. */
  lemma UploadPuts(w: World, ino: nat, path: string, cachePath: string, upload: Upload, held: nat)
    requires cachePath == CacheOf(w.store.root, path) && Lies(w.store, path, held) && held in w.files
    ensures var r := Uploaded(w, ino, path, cachePath, upload);
            Lies(r.store, path, held) && if upload.Failed? then r == w else CloudHas(r, path, held)
    ensures var r := UploadedOrTold(w, ino, path, cachePath, upload);
            Lies(r.store, path, held) && (CloudHas(r, path, held) || path in r.store.missed)
  {
    hide CacheOf;
  }

  lemma UploadStays(w: World, ino: nat, path: string, cachePath: string, upload: Upload)
    ensures var r := Uploaded(w, ino, path, cachePath, upload);
            SameElsewhere(w.store, r.store, path) && r.store.root == w.store.root
    ensures var r := UploadedOrTold(w, ino, path, cachePath, upload);
            SameElsewhere(w.store, r.store, path) && r.store.root == w.store.root
  {
    hide CacheOf;
  }

  lemma HydratedHolds(w: World, ino: nat, path: string, content: Bytes)
    requires MayHold(w, ino, content)
    ensures var r := Hydrated(w, ino, path, content);
            && SameElsewhere(w.store, r.store, path) && Lies(r.store, path, ino) && r.files == w.files[ino := content]
            && r.inodeOf == w.inodeOf && r.store.root == w.store.root
            && (path in w.store.missed ==> path in r.store.missed)
            && (CloudHas(r, path, ino) ||
                (ino in w.files && r.files[ino] == w.files[ino] && (CloudHas(w, path, ino) ==> CloudHas(r, path, ino))))
  {
  }

  // ---------------------------------------------------------------- the operations on open files

  /** A dirty handle stays what it stands for unless it is `but`. */
  lemma DirtStays(fs: Fs, r: Fs, ino: nat)
    requires forall fh ::
               fh in fs.handles && fs.handles[fh].dirty && fh in fs.world.inodeOf && fs.world.inodeOf[fh] == ino ==>
                 fh in r.handles && r.handles[fh].dirty && fh in r.world.inodeOf && r.world.inodeOf[fh] == ino
    ensures DirtyOn(fs, ino) ==> DirtyOn(r, ino)
  {
    if DirtyOn(fs, ino) {
      StillDirty(fs, r, ino);
    }
  }

  lemma WriteHolds(fs: Fs, ino: nat, fh: nat, offset: nat, data: Bytes, written: Option<nat>, now: int)
    requires Ordered(fs) && Backed(fs) && PathInv(fs) && (written.Some? ==> written.value <= |data|)
    requires fh in fs.world.inodeOf ==> fs.world.inodeOf[fh] == ino
    ensures PathInv(Write(fs, ino, fh, offset, data, written, now).fs)
  {
    hide Patched, WithAttr;
    if fh in fs.handles && written.Some? {
      EditHolds(fs, Write(fs, ino, fh, offset, data, written, now).fs, ino, fh);
    }
  }

  lemma TruncateHandleHolds(fs: Fs, ino: nat, fh: nat, size: nat, local: bool, now: int)
    requires Ordered(fs) && Backed(fs) && PathInv(fs) && (fh in fs.world.inodeOf ==> fs.world.inodeOf[fh] == ino)
    ensures PathInv(TruncateHandle(fs, ino, fh, size, local, now).fs)
  {
    hide Resized, SizedAttrs;
    if ino in fs.names.toPath && fh in fs.handles && local {
      EditHolds(fs, TruncateHandle(fs, ino, fh, size, local, now).fs, ino, fh);
    }
  }

  /** A change of the file through a handle, which becomes dirty. */
  lemma EditHolds(fs: Fs, r: Fs, ino: nat, fh: nat)
    requires Ordered(fs) && Backed(fs) && PathInv(fs) && fh in fs.handles && fs.world.inodeOf[fh] == ino
    requires r.names == fs.names && r.handles == fs.handles[fh := fs.handles[fh].(dirty := true)]
    requires ino in r.world.files && r.world == fs.world.(files := fs.world.files[ino := r.world.files[ino]])
    ensures PathInv(r)
  {
    assert r.handles[fh].dirty && r.world.inodeOf[fh] == ino;
    var path := fs.handles[fh].remotePath;
    assert OnItsFile(fs.names, ino, fs.handles[fh]);
    forall i ensures DirtyOn(fs, i) ==> DirtyOn(r, i) {
      DirtStays(fs, r, i);
    }
    OneFileHeld(fs, r, ino, path);
  }

  lemma NamesOf(fs: Fs, fh: nat)
    requires Ordered(fs) && PathInv(fs)
    ensures NamesInv(fs.names)
    ensures fh in fs.handles ==>
              && fh in fs.world.inodeOf && fs.world.inodeOf[fh] < fs.names.next
              && OnItsFile(fs.names, fs.world.inodeOf[fh], fs.handles[fh])
              && fs.handles[fh].cachePath == CacheOf(fs.world.store.root, fs.handles[fh].remotePath)
  {
  }

  lemma FsyncHolds(fs: Fs, ino: nat, fh: nat, synced: bool, upload: Upload)
    requires Ordered(fs) && PathInv(fs) && (fh in fs.world.inodeOf ==> fs.world.inodeOf[fh] == ino)
    ensures PathInv(Fsync(fs, ino, fh, synced, upload).fs)
  {
    hide Uploaded, CacheOf, DirtyOn, SameElsewhere;
    var r := Fsync(fs, ino, fh, synced, upload).fs;
    if fh in fs.handles && synced && fs.handles[fh].dirty {
      var h, w := fs.handles[fh], Registered(fs.world, fs.handles[fh].id);
      NamesOf(fs, fh);
      UploadLeaves(w, ino, h.remotePath, h.cachePath, upload);
      UploadStays(w, ino, h.remotePath, h.cachePath, upload);
      forall i | i != ino || !upload.Stored? ensures DirtyOn(fs, i) ==> DirtyOn(r, i) {
        DirtStays(fs, r, i);
      }
      if h.remotePath in fs.names.toInode && fs.names.toInode[h.remotePath] in fs.world.files {
        assert Held(fs, fs.names.toInode[h.remotePath]);
        UploadPuts(w, ino, h.remotePath, h.cachePath, upload, fs.names.toInode[h.remotePath]);
      }
      OneFileHeld(fs, r, ino, h.remotePath);
    }
  }

  lemma ReleaseHolds(fs: Fs, ino: nat, fh: nat, upload: Upload)
    requires Ordered(fs) && PathInv(fs) && (fh in fs.world.inodeOf ==> fs.world.inodeOf[fh] == ino)
    ensures PathInv(Release(fs, ino, fh, upload))
  {
    hide UploadedOrTold, CacheOf, DirtyOn, SameElsewhere;
    var r := Release(fs, ino, fh, upload);
    if fh in fs.handles {
      var h, w := fs.handles[fh], Registered(fs.world, fs.handles[fh].id);
      NamesOf(fs, fh);
      UploadLeaves(w, ino, h.remotePath, h.cachePath, upload);
      UploadStays(w, ino, h.remotePath, h.cachePath, upload);
      SameIsElsewhere(fs.world.store, h.remotePath);
      forall i | i != ino || !h.dirty ensures DirtyOn(fs, i) ==> DirtyOn(r, i) {
        DirtStays(fs, r, i);
      }
      if h.remotePath in fs.names.toInode && fs.names.toInode[h.remotePath] in fs.world.files {
        assert Held(fs, fs.names.toInode[h.remotePath]);
        UploadPuts(w, ino, h.remotePath, h.cachePath, upload, fs.names.toInode[h.remotePath]);
      }
      OneFileHeld(fs, r, ino, h.remotePath);
    }
  }

  lemma SameIsElsewhere(st: Store, path: string)
    ensures SameElsewhere(st, st, path)
  {
  }

  /** The file of a mapped inode changed, as it is in `w`, and uploaded at once. */
  lemma FinalUploadHolds(fs: Fs, r: Fs, w: World, ino: nat, content: Bytes, cachePath: string, upload: Upload)
    requires NamesInv(fs.names) && PathInv(fs) && ino in fs.names.toPath
    requires cachePath == CacheOf(fs.world.store.root, fs.names.toPath[ino])
    requires r.names == fs.names && r.handles == fs.handles && r.world.inodeOf == fs.world.inodeOf
    requires SameElsewhere(fs.world.store, w.store, fs.names.toPath[ino]) && Lies(w.store, fs.names.toPath[ino], ino)
    requires w.files == fs.world.files[ino := content] && w.inodeOf == fs.world.inodeOf
    requires var sent := UploadedOrTold(w, ino, fs.names.toPath[ino], cachePath, upload);
             r.world.files == sent.files && r.world.store == sent.store
    ensures PathInv(r)
  {
    hide UploadedOrTold, CacheOf, DirtyOn;
    var path := fs.names.toPath[ino];
    UploadLeaves(w, ino, path, cachePath, upload);
    UploadStays(w, ino, path, cachePath, upload);
    UploadPuts(w, ino, path, cachePath, upload, ino);
    forall i ensures DirtyOn(fs, i) ==> DirtyOn(r, i) {
      DirtStays(fs, r, i);
    }
    OneFileHeld(fs, r, ino, path);
  }

  lemma PlacedHolds(w: World, ino: nat, path: string, content: Bytes)
    ensures var r := Placed(w, ino, path, content);
            && SameElsewhere(w.store, r.store, path) && Lies(r.store, path, ino) && r.store.root == w.store.root
            && r.files == w.files[ino := content] && r.inodeOf == w.inodeOf
  {
  }

  lemma TruncateZeroHolds(fs: Fs, ino: nat, begun: Option<string>, upload: Upload, now: int)
    requires NamesInv(fs.names) && PathInv(fs)
    requires begun.Some? && ino in fs.names.toPath ==> begun.value == CacheOf(fs.world.store.root, fs.names.toPath[ino])
    ensures PathInv(TruncateBareZero(fs, ino, begun, upload, now).fs)
  {
    hide SizedAttrs, PathInv, NamesInv, CacheOf, Placed, UploadedOrTold, SameElsewhere, Lies;
    if ino in fs.names.toPath && begun.Some? {
      var w := Registered(Placed(fs.world, ino, fs.names.toPath[ino], ""), Minted("trunc0", fs.nextId));
      PlacedHolds(fs.world, ino, fs.names.toPath[ino], "");
      UploadLeaves(w, ino, fs.names.toPath[ino], begun.value, upload);
      UploadStays(w, ino, fs.names.toPath[ino], begun.value, upload);
      FinalUploadHolds(fs, TruncateBareZero(fs, ino, begun, upload, now).fs, w, ino, "", begun.value, upload);
    }
  }

  lemma HydrationHolds(fs: Fs, ino: nat, content: Bytes)
    requires NamesInv(fs.names) && PathInv(fs) && ino in fs.names.toPath && MayHold(fs.world, ino, content)
    ensures PathInv(fs.(world := Hydrated(fs.world, ino, fs.names.toPath[ino], content)))
  {
    hide Hydrated, MayHold, DirtyOn, SameElsewhere;
    var path := fs.names.toPath[ino];
    var r := fs.(world := Hydrated(fs.world, ino, path, content));
    HydratedHolds(fs.world, ino, path, content);
    forall i ensures DirtyOn(fs, i) ==> DirtyOn(r, i) {
      DirtStays(fs, r, i);
    }
    OneFileHeld(fs, r, ino, path);
  }

  /** The invariant is about names, handles, files and the engine's books only. */
  lemma SameHolds(fs: Fs, r: Fs)
    requires PathInv(fs) && r.names == fs.names && r.handles == fs.handles && r.world.inodeOf == fs.world.inodeOf
    requires r.world.files == fs.world.files && r.world.store == fs.world.store
    ensures PathInv(r)
  {
    hide DirtyOn;
    forall i ensures DirtyOn(fs, i) ==> DirtyOn(r, i) {
      DirtStays(fs, r, i);
    }
  }

  lemma TruncateToHolds(fs: Fs, ino: nat, size: nat, reply: Option<(string, Bytes)>, local: bool, upload: Upload,
                        now: int)
    requires NamesInv(fs.names) && PathInv(fs) && (reply.Some? ==> MayHold(fs.world, ino, reply.value.1))
    requires reply.Some? && ino in fs.names.toPath ==>
               reply.value.0 == CacheOf(fs.world.store.root, fs.names.toPath[ino])
    ensures PathInv(TruncateBareTo(fs, ino, size, reply, local, upload, now).fs)
  {
    hide SizedAttrs, Resized, PathInv, NamesInv, CacheOf, MayHold, Hydrated, UploadedOrTold, SameElsewhere, Lies;
    var r := TruncateBareTo(fs, ino, size, reply, local, upload, now).fs;
    if ino in fs.names.toPath && reply.Some? {
      var path, content := fs.names.toPath[ino], Resized(reply.value.1, size);
      HydrationHolds(fs, ino, reply.value.1);
      HydratedHolds(fs.world, ino, path, reply.value.1);
      var hydrated := fs.(world := Hydrated(fs.world, ino, path, reply.value.1));
      if local {
        var id := Minted("truncN", fs.nextId);
        var w := Registered(hydrated.world, id).(files := hydrated.world.files[ino := content]);
        SameIsElsewhere(w.store, path);
        UploadLeaves(w, ino, path, reply.value.0, upload);
        UploadStays(w, ino, path, reply.value.0, upload);
        FinalUploadHolds(hydrated, r, w, ino, content, reply.value.0, upload);
      } else {
        SameHolds(hydrated, r);
      }
    } else {
      SameHolds(fs, r);
    }
  }

  /** A new handle on the mapped file of `ino`, on an empty file if it is dirty. */
  lemma NewHandleHolds(fs: Fs, r: Fs, ino: nat, h: Handle)
    requires NamesInv(fs.names) && PathInv(fs) && ino in fs.names.toPath && h.remotePath == fs.names.toPath[ino]
    requires Mirrors(fs.world.store.root, h) && forall fh :: fh in fs.handles ==> fh < fs.nextFh
    requires r.names == fs.names && r.handles == fs.handles[fs.nextFh := h]
    requires r.world.inodeOf == fs.world.inodeOf[fs.nextFh := ino]
    requires var w := if h.dirty then Placed(fs.world, ino, h.remotePath, "") else fs.world;
             r.world.files == w.files && r.world.store == w.store
    ensures PathInv(r)
  {
    hide Mirrors;
    assert r.handles[fs.nextFh] == h;
    forall i ensures DirtyOn(fs, i) ==> DirtyOn(r, i) {
      DirtStays(fs, r, i);
    }
    if !h.dirty && ino in fs.world.files {
      assert Held(fs, ino);
    }
    OneFileHeld(fs, r, ino, h.remotePath);
  }

  lemma TruncatingOpenHolds(fs: Fs, ino: nat, reply: Option<(string, Bytes)>, local: bool, now: int)
    requires Ordered(fs) && PathInv(fs)
    requires reply.Some? && ino in fs.names.toPath ==>
               reply.value.0 == CacheOf(fs.world.store.root, fs.names.toPath[ino])
    ensures PathInv(Open(fs, ino, true, true, reply, local, now).fs)
  {
    hide WithAttr, PathInv, NamesInv, CacheOf, SameElsewhere, Lies;
    var r := Open(fs, ino, true, true, reply, local, now).fs;
    if ino in fs.names.toPath && fs.names.toPath[ino] != "" && reply.Some? {
      if local {
        NewHandleHolds(fs, r, ino, r.handles[fs.nextFh]);
      } else {
        PlacedHolds(fs.world, ino, fs.names.toPath[ino], "");
        var w := Registered(Placed(fs.world, ino, fs.names.toPath[ino], ""), Minted("wh", fs.nextId));
        FinalUploadHolds(fs, r, w, ino, "", reply.value.0, Failed);
      }
    } else {
      SameHolds(fs, r);
    }
  }

  lemma OpenHolds(fs: Fs, ino: nat, writable: bool, trunc: bool, reply: Option<(string, Bytes)>, local: bool, now: int)
    requires Ordered(fs) && PathInv(fs) && EngineHydrates(fs, DoOpen(ino, writable, trunc, reply, local, now))
    requires reply.Some? && ino in fs.names.toPath ==>
               reply.value.0 == CacheOf(fs.world.store.root, fs.names.toPath[ino])
    ensures PathInv(Open(fs, ino, writable, trunc, reply, local, now).fs)
  {
    if writable && trunc {
      TruncatingOpenHolds(fs, ino, reply, local, now);
    } else {
      hide WithAttr, PathInv, NamesInv, CacheOf, MayHold, Hydrated, SameElsewhere, Lies;
      var r := Open(fs, ino, writable, trunc, reply, local, now).fs;
      if ino in fs.names.toPath && fs.names.toPath[ino] != "" && reply.Some? {
        HydrationHolds(fs, ino, reply.value.1);
        HydratedHolds(fs.world, ino, fs.names.toPath[ino], reply.value.1);
        var hydrated := fs.(world := Hydrated(fs.world, ino, fs.names.toPath[ino], reply.value.1));
        if local {
          NewHandleHolds(hydrated, r, ino, r.handles[fs.nextFh]);
        } else {
          SameHolds(hydrated, r);
        }
      } else {
        SameHolds(fs, r);
      }
    }
  }

  // ---------------------------------------------------------------- the namespace operations

  /** More names: a new inode has no cache file. */
  lemma NamesGrow(fs: Fs, r: Fs)
    requires PathInv(fs) && Extends(fs.names, r.names) && r.handles == fs.handles && r.world.inodeOf == fs.world.inodeOf
    requires r.world.files == fs.world.files && r.world.store == fs.world.store
    ensures PathInv(r)
  {
    hide DirtyOn, NamesInv;
    forall i ensures DirtyOn(fs, i) ==> DirtyOn(r, i) {
      DirtStays(fs, r, i);
    }
    forall i | i in r.names.toPath && i in r.world.files
      ensures Held(r, i)
    {
      assert i in fs.names.toPath && Held(fs, i);
    }
  }

  lemma QuietGrows(nfc: string -> string, fs: Fs, op: Op)
    requires NamesInv(fs.names) && KernelKeepsTo(fs, op) && Quiet(op) && !op.DoRemove?
    ensures var r := Do(nfc, fs, op); Extends(fs.names, r.names) && r.world == fs.world
  {
    hide LastSlash, Basename, ChildPath, VisibleName, InListing, HasAttr, Representable, Utf8Length, Populated,
         CollisionCheck, Interned, InodeOf, Forgotten, Recorded, ForgottenRaw, ParentPrefix, Drops, NamesInv;
    match op
    case DoLookup(_, _, listing) => if listing.Some? { PopulatedExtends(fs, listing.value); }
    case DoGetattr(_, listing) => if listing.Some? { PopulatedExtends(fs, listing.value); }
    case DoReaddir(dir, listing) =>
      if listing.Some? && dir in fs.names.toPath {
        PopulatedExtends(fs, listing.value);
        InternKeeps(Populated(fs, listing.value).names, ParentPrefix(fs.names.toPath[dir]));
      }
    case DoMkdir(parent, name, listing, _, _) =>
      if parent in fs.names.toPath {
        var cp := ChildPath(nfc, fs.names.toPath[parent], name);
        CheckExtends(fs, cp, name, listing);
        InternKeeps(CollisionCheck(fs, cp, name, listing).fs.names, cp);
      }
    case _ =>
  }

  lemma CreateHolds(nfc: string -> string, fs: Fs, parent: nat, name: string, listing: Option<seq<ListEntry>>,
                    reply: Option<(string, HandleId)>, local: bool, now: int)
    requires Ordered(fs) && PathInv(fs)
    requires reply.Some? && parent in fs.names.toPath ==>
               reply.value.0 == CacheOf(fs.world.store.root, ChildPath(nfc, fs.names.toPath[parent], name))
    ensures PathInv(Create(nfc, fs, parent, name, listing, reply, local, now).fs)
  {
    hide ChildPath, CollisionCheck, Recorded, Interned, InodeOf, PathInv, CacheOf;
    var r := Create(nfc, fs, parent, name, listing, reply, local, now);
    if parent in fs.names.toPath {
      var cp := ChildPath(nfc, fs.names.toPath[parent], name);
      CheckExtends(fs, cp, name, listing);
      var fs1 := CollisionCheck(fs, cp, name, listing).fs;
      NamesGrow(fs, fs1);
      if r.err == OK {
        InternKeeps(fs1.names, cp);
        var fs2 := fs1.(names := Interned(fs1.names, cp));
        NamesGrow(fs1, fs2);
        NewHandleHolds(fs2, r.fs, InodeOf(fs1.names, cp), Handle(reply.value.1, cp, reply.value.0, true));
      } else {
        SameHolds(fs1, r.fs);
      }
    } else {
      SameHolds(fs, r.fs);
    }
  }

  lemma MknodHolds(nfc: string -> string, fs: Fs, op: Op)
    requires op.DoMknod? && Ordered(fs) && PathInv(fs) && KernelKeepsTo(fs, op) && EnginePlaces(nfc, fs, op)
    ensures PathInv(Do(nfc, fs, op))
  {
    hide Create, Release, PathInv, Ordered, CacheOf, ChildPath;
    if op.regular {
      CreateHolds(nfc, fs, op.parent, op.name, op.listing, op.reply, op.local, op.now);
      CreateKeepsOrder(nfc, fs, op.parent, op.name, op.listing, op.reply, op.local, op.now);
      var created := Create(nfc, fs, op.parent, op.name, op.listing, op.reply, op.local, op.now);
      if created.err == OK {
        var fh := created.fs.nextFh - 1;
        ReleaseHolds(created.fs, created.fs.world.inodeOf[fh], fh, op.upload);
      }
    }
  }

  lemma RemoveHolds(nfc: string -> string, fs: Fs, parent: nat, name: string, removed: bool)
    requires NamesInv(fs.names) && PathInv(fs)
    ensures PathInv(Remove(nfc, fs, parent, name, removed).fs)
  {
    hide DirtyOn, ChildPath, Forgotten;
    var r := Remove(nfc, fs, parent, name, removed).fs;
    if parent in fs.names.toPath && removed {
      var cp := ChildPath(nfc, fs.names.toPath[parent], name);
      ForgetKeeps(fs.names, cp);
      forall i ensures DirtyOn(fs, i) ==> DirtyOn(r, i) {
        DirtStays(fs, r, i);
      }
      forall i | i in r.names.toPath && i in r.world.files
        ensures Held(r, i)
      {
        StaysHeld(fs, r, i, cp);
      }
    }
  }

  // ---------------------------------------------------------------- renames

  lemma CarriedAt<T>(m: map<string, T>, src: string, dst: string, p: string)
    requires p in m && Survives(p, src, dst)
    ensures var q := MovedIfBelow(p, src, dst); q in Carried(m, src, dst) && Carried(m, src, dst)[q] == m[p]
  {
    hide AtOrBelow, Moved;
    var q := MovedIfBelow(p, src, dst);
    assert q in Arrivals(m, src, dst);
    RewrittenApart(p, Origin(m, src, dst, q), src, dst);
  }

  /** What the engine keeps under the path of an inode moves as the inode's path does. */
  lemma RenamingHolds(nfc: string -> string, fs: Fs, src: string, dst: string, name: string)
    requires NamesInv(fs.names) && PathInv(fs) && AnyAtOrBelow(fs.names, src)
    ensures PathInv(MovedTo(nfc, fs, src, dst, name))
  {
    hide Renamed, Carried, Followed, FollowRename, Mirrors, DirtyOn, Survives, MovedIfBelow, Recorded, RenamedRaw;
    var r := MovedTo(nfc, fs, src, dst, name);
    RenameKeeps(fs.names, src, dst);
    FollowKeepsDirt(fs.handles, src, dst);
    forall i ensures DirtyOn(fs, i) ==> DirtyOn(r, i) {
      DirtStays(fs, r, i);
    }
    forall fh | fh in r.handles ensures Mirrors(r.world.store.root, r.handles[fh]) {
      FollowedAt(fs.handles, src, dst, fh);
      FollowKeepsBase(fs.handles[fh], src, dst, fs.world.store.root);
    }
    forall i | i in r.names.toPath && i in r.world.files
      ensures Held(r, i)
    {
      PathMoves(fs.names, src, dst, i);
      assert Held(fs, i);
      MovesAlong(fs.world.store, src, dst, fs.names.toPath[i]);
    }
  }

  lemma FollowedAt(handles: map<nat, Handle>, src: string, dst: string, fh: nat)
    requires fh in Followed(handles, src, dst)
    ensures fh in handles && Followed(handles, src, dst)[fh] == FollowRename(handles[fh], src, dst)
  {
  }

  lemma PathMoves(n: Names, src: string, dst: string, i: nat)
    requires Bijective(n) && AnyAtOrBelow(n, src) && i in Renamed(n, src, dst).toPath
    ensures i in n.toPath && Survives(n.toPath[i], src, dst)
    ensures Renamed(n, src, dst).toPath[i] == MovedIfBelow(n.toPath[i], src, dst)
  {
    RenameByInode(n, src, dst, i);
  }

  lemma MovesAlong(st: Store, src: string, dst: string, p: string)
    requires Survives(p, src, dst)
    ensures var st', q := MovedStore(st, src, dst), MovedIfBelow(p, src, dst);
            && (p in st.cache ==> q in st'.cache && st'.cache[q] == st.cache[p])
            && (p in st.remote ==> q in st'.remote && st'.remote[q] == st.remote[p])
            && (p in st.missed ==> q in st'.missed)
  {
    hide Carried, Survives, MovedIfBelow;
    if p in st.cache {
      CarriedAt(st.cache, src, dst, p);
    }
    if p in st.remote {
      CarriedAt(st.remote, src, dst, p);
    }
  }

  lemma RenameHolds(nfc: string -> string, fs: Fs, op: Op)
    requires op.DoRename? && Ordered(fs) && PathInv(fs) && KernelLooksUp(nfc, fs, op)
    ensures PathInv(Rename(nfc, fs, op.srcParent, op.srcName, op.dstParent, op.dstName, op.listing, op.renamed).fs)
  {
    hide MovedTo, CollisionCheck, ChildPath, PathInv;
    if op.srcParent in fs.names.toPath && op.dstParent in fs.names.toPath {
      var src := ChildPath(nfc, fs.names.toPath[op.srcParent], op.srcName);
      var dst := ChildPath(nfc, fs.names.toPath[op.dstParent], op.dstName);
      CheckExtends(fs, dst, op.dstName, op.listing);
      var checked := CollisionCheck(fs, dst, op.dstName, op.listing);
      NamesGrow(fs, checked.fs);
      if checked.err == OK && op.renamed {
        assert fs.names.toInode[src] in fs.names.toPath && src in checked.fs.names.toInode;
        assert AtOrBelow(src, src);
        RenamingHolds(nfc, checked.fs, src, dst, op.dstName);
      }
    }
  }

  // ---------------------------------------------------------------- every operation, every run

  lemma OpHolds(nfc: string -> string, fs: Fs, op: Op)
    requires Ordered(fs) && Backed(fs) && PathInv(fs) && KernelKeepsTo(fs, op) && KernelLooksUp(nfc, fs, op)
    requires EngineHydrates(fs, op) && EnginePlaces(nfc, fs, op)
    ensures PathInv(Do(nfc, fs, op))
  {
    hide Create, Mknod, Rename, Lookup, Getattr, Readdir, Mkdir, Open, Write, Fsync, TruncateHandle, TruncateBareZero,
         TruncateBareTo, Applied, Remove, Release, PathInv, Backed, CacheOf, ChildPath, Tracked, NamesInv, MayHold;
    match op
    case DoOpen(ino, writable, trunc, reply, local, now) => OpenHolds(fs, ino, writable, trunc, reply, local, now);
    case DoWrite(ino, fh, offset, data, written, now) => WriteHolds(fs, ino, fh, offset, data, written, now);
    case DoFsync(ino, fh, synced, upload) => FsyncHolds(fs, ino, fh, synced, upload);
    case DoRelease(ino, fh, upload) => ReleaseHolds(fs, ino, fh, upload);
    case DoTruncateHandle(ino, fh, size, local, now) => TruncateHandleHolds(fs, ino, fh, size, local, now);
    case DoTruncateZero(ino, begun, upload, now) => TruncateZeroHolds(fs, ino, begun, upload, now);
    case DoTruncateTo(ino, size, reply, local, upload, now) =>
      TruncateToHolds(fs, ino, size, reply, local, upload, now);
    case DoCreate(parent, name, listing, reply, local, now) =>
      CreateHolds(nfc, fs, parent, name, listing, reply, local, now);
    case DoMknod(_, _, _, _, _, _, _, _) => MknodHolds(nfc, fs, op);
    case DoRemove(parent, name, removed) => RemoveHolds(nfc, fs, parent, name, removed);
    case DoRename(_, _, _, _, _, _) => RenameHolds(nfc, fs, op);
    case _ =>
      QuietLeavesHandles(nfc, fs, op);
      QuietGrows(nfc, fs, op);
      NamesGrow(fs, Do(nfc, fs, op));
  }

  lemma StartHolds(fs: Fs)
    requires Started(fs)
    ensures Ordered(fs) && CloudInv(fs) && PathInv(fs)
  {
  }

  ghost predicate Sound(nfc: string -> string, fs: Fs, op: Op) {
    EngineHydrates(fs, op) && EnginePlaces(nfc, fs, op) && KernelLooksUp(nfc, fs, op)
  }

  /** A run of the mount in which the kernel and the engine do as they promise. */
  ghost predicate SoundRun(nfc: string -> string, states: seq<Fs>, ops: seq<Op>) {
    Run(nfc, states, ops) && forall i :: 0 <= i < |ops| ==> Sound(nfc, states[i], ops[i])
  }

  lemma {:induction false} RunHolds(nfc: string -> string, states: seq<Fs>, ops: seq<Op>, k: nat)
    requires SoundRun(nfc, states, ops) && Ordered(states[0]) && CloudInv(states[0]) && PathInv(states[0]) && k <= |ops|
    ensures PathInv(states[k])
  {
    hide Do, EngineHydrates, EnginePlaces, KernelLooksUp, PathInv, CloudInv;
    if k > 0 {
      RunHolds(nfc, states, ops, k - 1);
      RunKeepsOrder(nfc, states, ops, k - 1);
      RunKeepsCloud(nfc, states, ops, k - 1);
      CloudSays(states[k - 1]);
      assert Takes(nfc, states[k - 1], ops[k - 1], states[k]);
      OpHolds(nfc, states[k - 1], ops[k - 1]);
    }
  }

  /** After any run, whatever was renamed, removed or replaced on the way: a cache file
      whose inode has a path, without a dirty handle and without a failure told for that
      path, has its content in the cloud under that path, and lies in the cache there. */
  lemma MappedFileIsInCloud(nfc: string -> string, states: seq<Fs>, ops: seq<Op>, k: nat, ino: nat)
    requires SoundRun(nfc, states, ops) && Started(states[0]) && k <= |ops|
    requires ino in states[k].names.toPath && ino in states[k].world.files
    requires states[k].names.toPath[ino] !in states[k].world.store.missed
    requires forall fh :: fh in states[k].handles && states[k].handles[fh].dirty && fh in states[k].world.inodeOf ==>
               states[k].world.inodeOf[fh] != ino
    ensures var path, st := states[k].names.toPath[ino], states[k].world.store;
            && path in st.cache && st.cache[path] == ino
            && path in st.remote && st.remote[path] == states[k].world.files[ino]
  {
    StartHolds(states[0]);
    RunHolds(nfc, states, ops, k);
    assert Held(states[k], ino);
  }

  /** An fsync that returns Ok on a dirty handle has put the file's content in the cloud
      under the path its inode has now. */
  lemma FsyncOkIsUnderPath(nfc: string -> string, states: seq<Fs>, ops: seq<Op>, k: nat)
    requires SoundRun(nfc, states, ops) && Started(states[0]) && k < |ops| && ops[k].DoFsync?
    requires ops[k].fh in states[k].handles && states[k].handles[ops[k].fh].dirty
    requires ErrorOf(nfc, states[k], ops[k]) == OK && ops[k].ino in states[k].names.toPath
    ensures var path, st := states[k].names.toPath[ops[k].ino], states[k + 1].world.store;
            && ops[k].ino in states[k + 1].world.files
            && path in st.remote && st.remote[path] == states[k + 1].world.files[ops[k].ino]
  {
    var fs, ino, h := states[k], ops[k].ino, states[k].handles[ops[k].fh];
    StartHolds(states[0]);
    RunHolds(nfc, states, ops, k);
    RunKeepsOrder(nfc, states, ops, k);
    RunKeepsCloud(nfc, states, ops, k);
    CloudSays(fs);
    NamesOf(fs, ops[k].fh);
    assert Takes(nfc, fs, ops[k], states[k + 1]);
    assert Held(fs, ino);
    UploadPuts(Registered(fs.world, h.id), ino, h.remotePath, h.cachePath, Stored, ino);
  }

  const WRITE_XY := DoWrite(2, 1, 0, "xy", Some(2), 0)
  const RENAME_A := DoRename(ROOT_INODE, "a", ROOT_INODE, "b", None, true)
  const FSYNC_A := DoFsync(2, 1, true, Stored)

  lemma PathsOfAB()
    ensures ChildPath(Plain, "", "a") == "/a" && ChildPath(Plain, "", "b") == "/b" && Basename("/b") == "b"
    ensures CacheOf("/c/", "/a") == "/c/a" && AtOrBelow("/a", "/a") && Moved("/a", "/a", "/b") == "/b"
  {
    hide LastSlash, Basename;
    LastSlashIs("/b", 0);
    assert TrimStart("/a") == "a";
  }

  lemma RenameIsMove(fs: Fs)
    requires fs == C.TWO_BYTES
    ensures Takes(Plain, fs, RENAME_A, MovedTo(Plain, fs, "/a", "/b", "b")) && Sound(Plain, fs, RENAME_A)
  {
    hide Basename, ChildPath, MovedTo;
    PathsOfAB();
  }

  lemma MovedAB(fs: Fs)
    requires fs == C.TWO_BYTES
    ensures var r := MovedTo(Plain, fs, "/a", "/b", "b");
            && 2 in r.names.toPath && r.names.toPath[2] == "/b" && r.world.files == map[2 := "xy"]
            && 1 in r.handles && r.handles[1].dirty && r.world.inodeOf == map[1 := 2]
  {
    hide Renamed, RenamedRaw, Recorded, MovedStore, Followed;
    PathsOfAB();
    RenameByInode(fs.names, "/a", "/b", 2);
    FollowKeepsDirt(fs.handles, "/a", "/b");
    assert "/b" + "/a"[2..] == "/b";
  }

  lemma FirstStepsAreSound()
    ensures Sound(Plain, NEW_MOUNT, CREATE_A) && Sound(Plain, FIRST_FILE, WRITE_XY)
    ensures Takes(Plain, FIRST_FILE, WRITE_XY, C.TWO_BYTES)
  {
    hide ChildPath, CacheOf;
    PathsOfAB();
    C.TwoBytesWritten();
    hide Write;
  }

  lemma FsyncTaken(fs: Fs)
    requires 1 in fs.handles && fs.handles[1].dirty && fs.world.inodeOf == map[1 := 2]
    ensures Takes(Plain, fs, FSYNC_A, Do(Plain, fs, FSYNC_A)) && Sound(Plain, fs, FSYNC_A)
    ensures ErrorOf(Plain, fs, FSYNC_A) == OK && Do(Plain, fs, FSYNC_A).world.files == fs.world.files
  {
    hide SentTo;
  }

  /** Such a run: a file is created and written, renamed while it is open, and then synced
      through the old handle. What was written is in the cloud under the new path. */
  lemma RenamedFileIsStoredThere() returns (states: seq<Fs>, ops: seq<Op>)
    ensures |states| == 5 && ops == [CREATE_A, WRITE_XY, RENAME_A, FSYNC_A]
    ensures SoundRun(Plain, states, ops) && states[0] == NEW_MOUNT
    ensures var st := states[4].world.store; "/b" in st.remote && st.remote["/b"] == "xy"
  {
    hide Takes, Sound, Do, MovedTo, ErrorOf;
    FirstFileIsCreated();
    FirstStepsAreSound();
    RenameIsMove(C.TWO_BYTES);
    MovedAB(C.TWO_BYTES);
    var renamed := MovedTo(Plain, C.TWO_BYTES, "/a", "/b", "b");
    FsyncTaken(renamed);
    ops := [CREATE_A, WRITE_XY, RENAME_A, FSYNC_A];
    states := [NEW_MOUNT, FIRST_FILE, C.TWO_BYTES, renamed, Do(Plain, renamed, FSYNC_A)];
    FsyncOkIsUnderPath(Plain, states, ops, 3);
  }
}
