/** Runs of the mount: every sequence of operations with every outcome, and what
    they keep of the inode map, the open handles and the visible names. */
module MountRuns {
  import opened Options
  import opened PathText
  import opened PathMaps
  import opened PathMapLaws
  import opened MountState

  datatype Op =
    | DoLookup(parent: nat, name: string, listing: Option<seq<ListEntry>>)
    | DoGetattr(ino: nat, listing: Option<seq<ListEntry>>)
    | DoReaddir(dir: nat, listing: Option<seq<ListEntry>>)
    | DoOpen(ino: nat, writable: bool, trunc: bool, hydrated: Option<(string, Bytes)>, local: bool, now: int)
    | DoWrite(ino: nat, fh: nat, offset: nat, data: Bytes, written: Option<nat>, now: int)
    | DoFsync(ino: nat, fh: nat, synced: bool, upload: Upload)
    | DoRelease(ino: nat, fh: nat, upload: Upload)
    | DoTruncateHandle(ino: nat, fh: nat, size: nat, local: bool, now: int)
    | DoTruncateZero(ino: nat, begun: Option<string>, upload: Upload, now: int)
    | DoTruncateTo(ino: nat, size: nat, hydrated: Option<(string, Bytes)>, local: bool, upload: Upload, now: int)
    | DoCreate(parent: nat, name: string, listing: Option<seq<ListEntry>>, reply: Option<(string, HandleId)>,
               local: bool, now: int)
    | DoMknod(parent: nat, name: string, regular: bool, listing: Option<seq<ListEntry>>,
              reply: Option<(string, HandleId)>, local: bool, upload: Upload, now: int)
    | DoMkdir(parent: nat, name: string, listing: Option<seq<ListEntry>>, made: bool, now: int)
    | DoRemove(parent: nat, name: string, removed: bool)
    | DoRename(srcParent: nat, srcName: string, dstParent: nat, dstName: string, listing: Option<seq<ListEntry>>,
               renamed: bool)
    | DoApply(change: Invalidation)

  /** What the kernel promises: names are single components, and an operation on
      a handle names the inode the handle was opened for. */
  ghost predicate KernelKeepsTo(fs: Fs, op: Op) {
    match op
    case DoLookup(_, name, _) => '/' !in name
    case DoCreate(_, name, _, _, _, _) => '/' !in name
    case DoMknod(_, name, _, _, _, _, _, _) => '/' !in name
    case DoMkdir(_, name, _, _, _) => '/' !in name
    case DoRemove(_, name, _) => '/' !in name
    case DoRename(_, srcName, _, dstName, _, _) => '/' !in srcName && '/' !in dstName
    case DoWrite(ino, fh, _, data, written, _) =>
      (written.Some? ==> written.value <= |data|) && (fh in fs.world.inodeOf ==> fs.world.inodeOf[fh] == ino)
    case DoTruncateHandle(ino, fh, _, _, _) => fh in fs.world.inodeOf ==> fs.world.inodeOf[fh] == ino
    case DoFsync(ino, fh, _, _) => fh in fs.world.inodeOf ==> fs.world.inodeOf[fh] == ino
    case DoRelease(ino, fh, _) => fh in fs.world.inodeOf ==> fs.world.inodeOf[fh] == ino
    case _ => true
  }

  ghost function Do(nfc: string -> string, fs: Fs, op: Op): Fs
    requires KernelKeepsTo(fs, op)
  {
    match op
    case DoLookup(parent, name, listing) => Lookup(nfc, fs, parent, name, listing).fs
    case DoGetattr(ino, listing) => Getattr(fs, ino, listing).fs
    case DoReaddir(dir, listing) => Readdir(fs, dir, listing).fs
    case DoOpen(ino, writable, trunc, hydrated, local, now) => Open(fs, ino, writable, trunc, hydrated, local, now).fs
    case DoWrite(ino, fh, offset, data, written, now) => Write(fs, ino, fh, offset, data, written, now).fs
    case DoFsync(ino, fh, synced, upload) => Fsync(fs, ino, fh, synced, upload).fs
    case DoRelease(ino, fh, upload) => Release(fs, ino, fh, upload)
    case DoTruncateHandle(ino, fh, size, local, now) => TruncateHandle(fs, ino, fh, size, local, now).fs
    case DoTruncateZero(ino, begun, upload, now) => TruncateBareZero(fs, ino, begun, upload, now).fs
    case DoTruncateTo(ino, size, content, local, upload, now) =>
      TruncateBareTo(fs, ino, size, content, local, upload, now).fs
    case DoCreate(parent, name, listing, reply, local, now) =>
      Create(nfc, fs, parent, name, listing, reply, local, now).fs
    case DoMknod(parent, name, regular, listing, reply, local, upload, now) =>
      Mknod(nfc, fs, parent, name, regular, listing, reply, local, upload, now).fs
    case DoMkdir(parent, name, listing, made, now) => Mkdir(nfc, fs, parent, name, listing, made, now).fs
    case DoRemove(parent, name, removed) => Remove(nfc, fs, parent, name, removed).fs
    case DoRename(srcParent, srcName, dstParent, dstName, listing, renamed) =>
      Rename(nfc, fs, srcParent, srcName, dstParent, dstName, listing, renamed).fs
    case DoApply(change) => Applied(fs, change)
  }

  /** What the engine promises: it leaves alone a cache file that holds what the cloud
      has not. */
  ghost predicate EngineHydrates(fs: Fs, op: Op) {
    match op
    case DoOpen(ino, writable, trunc, reply, _, _) =>
      reply.Some? && !(writable && trunc) ==> MayHold(fs.world, ino, reply.value.1)
    case DoTruncateTo(ino, _, reply, _, _, _) => reply.Some? ==> MayHold(fs.world, ino, reply.value.1)
    case _ => true
  }

  ghost predicate MayHold(w: World, ino: nat, content: Bytes) {
    ino in w.files && !InCloud(w, ino) ==> content == w.files[ino]
  }

  ghost predicate Takes(nfc: string -> string, fs: Fs, op: Op, fs': Fs) {
    KernelKeepsTo(fs, op) && fs' == Do(nfc, fs, op)
  }

  /** `states` are the states a run of `ops` goes through. */
  ghost predicate Run(nfc: string -> string, states: seq<Fs>, ops: seq<Op>) {
    && |states| == |ops| + 1
    && forall i :: 0 <= i < |ops| ==> Takes(nfc, states[i], ops[i], states[i + 1])
  }

  // ---------------------------------------------------------------- the inode map and the handles

  /** The handle's inode was handed out, and if it still has a path, the handle
      uploads under that path. */
  ghost predicate OnItsFile(n: Names, ino: nat, h: Handle) {
    ino < n.next && (ino in n.toPath ==> n.toPath[ino] == h.remotePath)
  }

  ghost predicate Tracked(fs: Fs) {
    forall fh :: fh in fs.handles ==>
      fh < fs.nextFh && fh in fs.world.inodeOf && OnItsFile(fs.names, fs.world.inodeOf[fh], fs.handles[fh])
  }

  ghost predicate Ordered(fs: Fs) {
    NamesInv(fs.names) && Tracked(fs)
  }

  /** `n'` knows at least what `n` knows. */
  ghost predicate Extends(n: Names, n': Names) {
    && NamesInv(n') && Later(n, n')
    && forall i :: i in n.toPath ==> i in n'.toPath && n'.toPath[i] == n.toPath[i]
  }

  lemma {:induction false} PopulatedExtends(fs: Fs, listing: seq<ListEntry>)
    requires NamesInv(fs.names)
    ensures Extends(fs.names, Populated(fs, listing).names)
    ensures Populated(fs, listing) == fs.(names := Populated(fs, listing).names, attrs := Populated(fs, listing).attrs)
  {
    if listing != [] {
      PopulatedExtends(fs, listing[..|listing| - 1]);
      InternKeeps(Populated(fs, listing[..|listing| - 1]).names, listing[|listing| - 1].path);
    }
  }

  lemma CheckExtends(fs: Fs, cp: string, name: string, listing: Option<seq<ListEntry>>)
    requires NamesInv(fs.names)
    ensures var r := CollisionCheck(fs, cp, name, listing);
            && Extends(fs.names, r.fs.names)
            && r.fs == fs.(names := r.fs.names, attrs := r.fs.attrs)
            && (Tracked(fs) ==> Tracked(r.fs))
  {
    hide LastSlash, Basename, ChildPath, VisibleName, InListing, HasAttr, Representable, Utf8Length, Populated;
    if listing.Some? {
      PopulatedExtends(fs, listing.value);
    }
  }

  lemma EnteredKeepsOrder(nfc: string -> string, fs: Fs, cp: string, name: string, attr: Attr)
    requires Ordered(fs)
    ensures Ordered(Entered(nfc, fs, cp, name, attr)) && Later(fs.names, Entered(nfc, fs, cp, name, attr).names)
    ensures var n := Entered(nfc, fs, cp, name, attr).names;
            InodeOf(fs.names, cp) in n.toPath && n.toPath[InodeOf(fs.names, cp)] == cp
  {
    InternKeeps(fs.names, cp);
  }

  lemma WithHandleKeepsOrder(fs: Fs, ino: nat, h: Handle)
    requires Ordered(fs) && OnItsFile(fs.names, ino, h)
    ensures Ordered(WithHandle(fs, ino, h))
  {
  }

  /** Marking handles changes no name, and no handle's path. */
  lemma MarkKeepsTracked(fs: Fs, r: Fs)
    requires Tracked(fs) && r.names == fs.names && r.nextFh == fs.nextFh && r.world.inodeOf == fs.world.inodeOf
    requires r.handles.Keys <= fs.handles.Keys
    requires forall fh :: fh in r.handles ==> r.handles[fh].remotePath == fs.handles[fh].remotePath
    ensures Tracked(r)
  {
  }

  lemma ReleaseKeepsOrder(fs: Fs, ino: nat, fh: nat, upload: Upload)
    requires Ordered(fs)
    ensures Ordered(Release(fs, ino, fh, upload)) && Release(fs, ino, fh, upload).names == fs.names
  {
    hide NamesInv, OnItsFile;
  }

  lemma CreatedKeepsOrder(nfc: string -> string, fs: Fs, cp: string, name: string, id: HandleId, cachePath: string,
                          now: int)
    requires Ordered(fs)
    ensures Ordered(Created(nfc, fs, cp, name, id, cachePath, now))
    ensures Later(fs.names, Created(nfc, fs, cp, name, id, cachePath, now).names)
    ensures var r := Created(nfc, fs, cp, name, id, cachePath, now); r.nextFh > 0 && r.nextFh - 1 in r.world.inodeOf
  {
    hide Entered;
    var attr := Attr(0, now, None, false, true, true);
    EnteredKeepsOrder(nfc, fs, cp, name, attr);
    var fs1 := Entered(nfc, fs, cp, name, attr);
    var fs2 := fs1.(world := Placed(fs1.world, InodeOf(fs.names, cp), cp, ""));
    WithHandleKeepsOrder(fs2, InodeOf(fs.names, cp), Handle(id, cp, cachePath, true));
  }

  lemma CreateKeepsOrder(nfc: string -> string, fs: Fs, parent: nat, name: string, listing: Option<seq<ListEntry>>,
                         reply: Option<(string, HandleId)>, local: bool, now: int)
    requires Ordered(fs)
    ensures var r := Create(nfc, fs, parent, name, listing, reply, local, now);
            && Ordered(r.fs) && Later(fs.names, r.fs.names)
            && (r.err == OK ==> r.fs.nextFh > 0 && r.fs.nextFh - 1 in r.fs.world.inodeOf)
  {
    hide ChildPath, CollisionCheck, Created, NamesInv, Tracked, OnItsFile;
    if parent in fs.names.toPath {
      var cp := ChildPath(nfc, fs.names.toPath[parent], name);
      CheckExtends(fs, cp, name, listing);
      var checked := CollisionCheck(fs, cp, name, listing).fs;
      var fs1 := checked.(nextId := checked.nextId + 1);
      MarkKeepsTracked(checked, fs1);
      if reply.Some? {
        var fs2 := fs1.(world := Registered(fs1.world, reply.value.1));
        MarkKeepsTracked(fs1, fs2);
        CreatedKeepsOrder(nfc, fs2, cp, name, reply.value.1, reply.value.0, now);
      }
    }
  }

  lemma MknodKeepsOrder(nfc: string -> string, fs: Fs, parent: nat, name: string, regular: bool,
                        listing: Option<seq<ListEntry>>, reply: Option<(string, HandleId)>, local: bool,
                        upload: Upload, now: int)
    requires Ordered(fs)
    ensures var r := Mknod(nfc, fs, parent, name, regular, listing, reply, local, upload, now).fs;
            Ordered(r) && Later(fs.names, r.names)
  {
    hide Create, Release;
    CreateKeepsOrder(nfc, fs, parent, name, listing, reply, local, now);
    var created := Create(nfc, fs, parent, name, listing, reply, local, now);
    if created.err == OK {
      var fh := created.fs.nextFh - 1;
      ReleaseKeepsOrder(created.fs, created.fs.world.inodeOf[fh], fh, upload);
    }
  }

  /** The handles follow a rename exactly as the inode map does. */
  lemma MovedToKeepsOrder(nfc: string -> string, fs: Fs, src: string, dst: string, name: string)
    requires Ordered(fs) && src != "" && dst != ""
    ensures Ordered(MovedTo(nfc, fs, src, dst, name)) && Later(fs.names, MovedTo(nfc, fs, src, dst, name).names)
  {
    RenameKeeps(fs.names, src, dst);
    forall fh | fh in fs.handles
      ensures OnItsFile(Renamed(fs.names, src, dst), fs.world.inodeOf[fh], FollowRename(fs.handles[fh], src, dst))
    {
      FollowStaysOnFile(fs.names, fs.world.inodeOf[fh], fs.handles[fh], src, dst);
    }
  }

  lemma FollowStaysOnFile(n: Names, ino: nat, h: Handle, src: string, dst: string)
    requires Bijective(n) && OnItsFile(n, ino, h)
    ensures OnItsFile(Renamed(n, src, dst), ino, FollowRename(h, src, dst))
  {
    RenameByInode(n, src, dst, ino);
  }

  lemma RenameKeepsOrder(nfc: string -> string, fs: Fs, srcParent: nat, srcName: string, dstParent: nat,
                         dstName: string,
                         listing: Option<seq<ListEntry>>, renamed: bool)
    requires Ordered(fs)
    ensures var r := Rename(nfc, fs, srcParent, srcName, dstParent, dstName, listing, renamed).fs;
            Ordered(r) && Later(fs.names, r.names)
  {
    hide MovedTo, CollisionCheck, Renamed, LastSlash, Populated;
    if srcParent in fs.names.toPath && dstParent in fs.names.toPath {
      var src := ChildPath(nfc, fs.names.toPath[srcParent], srcName);
      var dst := ChildPath(nfc, fs.names.toPath[dstParent], dstName);
      CheckExtends(fs, dst, dstName, listing);
      MovedToKeepsOrder(nfc, CollisionCheck(fs, dst, dstName, listing).fs, src, dst, dstName);
    }
  }

  lemma LookupKeepsOrder(nfc: string -> string, fs: Fs, parent: nat, name: string, listing: Option<seq<ListEntry>>)
    requires Ordered(fs)
    ensures var r := Lookup(nfc, fs, parent, name, listing).fs; Ordered(r) && Later(fs.names, r.names)
  {
    hide LastSlash, Basename, ChildPath, VisibleName, InListing, HasAttr, Representable, Utf8Length, Populated;
    if listing.Some? {
      PopulatedExtends(fs, listing.value);
    }
  }

  lemma GetattrKeepsOrder(fs: Fs, ino: nat, listing: Option<seq<ListEntry>>)
    requires Ordered(fs)
    ensures var r := Getattr(fs, ino, listing).fs; Ordered(r) && Later(fs.names, r.names)
  {
    hide LastSlash, Basename, ChildPath, VisibleName, InListing, HasAttr, Representable, Utf8Length, Populated;
    if listing.Some? {
      PopulatedExtends(fs, listing.value);
    }
  }

  lemma ReaddirKeepsOrder(fs: Fs, dir: nat, listing: Option<seq<ListEntry>>)
    requires Ordered(fs)
    ensures var r := Readdir(fs, dir, listing).fs; Ordered(r) && Later(fs.names, r.names)
  {
    hide LastSlash, Basename, ChildPath, VisibleName, InListing, HasAttr, Representable, Utf8Length, ParentPrefix,
         Populated, Interned;
    if listing.Some? && dir in fs.names.toPath {
      PopulatedExtends(fs, listing.value);
      InternKeeps(Populated(fs, listing.value).names, ParentPrefix(fs.names.toPath[dir]));
    }
  }

  lemma MkdirKeepsOrder(nfc: string -> string, fs: Fs, parent: nat, name: string, listing: Option<seq<ListEntry>>,
                        made: bool, now: int)
    requires Ordered(fs)
    ensures var r := Mkdir(nfc, fs, parent, name, listing, made, now).fs; Ordered(r) && Later(fs.names, r.names)
  {
    hide LastSlash, Basename, ChildPath, VisibleName, InListing, HasAttr, Representable, Utf8Length, CollisionCheck,
         Entered, Populated;
    if parent in fs.names.toPath {
      var cp := ChildPath(nfc, fs.names.toPath[parent], name);
      CheckExtends(fs, cp, name, listing);
      var checked := CollisionCheck(fs, cp, name, listing).fs;
      EnteredKeepsOrder(nfc, checked, cp, name, Attr(0, now, None, true, false, false));
    }
  }

  lemma RemoveKeepsOrder(nfc: string -> string, fs: Fs, parent: nat, name: string, removed: bool)
    requires Ordered(fs)
    ensures var r := Remove(nfc, fs, parent, name, removed).fs; Ordered(r) && Later(fs.names, r.names)
  {
    hide LastSlash, Forgotten;
    if parent in fs.names.toPath {
      ForgetKeeps(fs.names, ChildPath(nfc, fs.names.toPath[parent], name));
    }
  }

  lemma OpenKeepsOrder(nfc: string -> string, fs: Fs, op: Op)
    requires Ordered(fs) && KernelKeepsTo(fs, op) && op.DoOpen?
    ensures Do(nfc, fs, op).names == fs.names && Tracked(Do(nfc, fs, op))
  {
    hide Hydrated, WithAttr;
    if op.ino in fs.names.toPath && op.hydrated.Some? {
      HydrationLeaves(fs.world, op.ino, fs.names.toPath[op.ino], op.hydrated.value.1);
    }
  }

  lemma MarkKeepsOrder(nfc: string -> string, fs: Fs, op: Op)
    requires Ordered(fs) && KernelKeepsTo(fs, op) && (op.DoWrite? || op.DoFsync? || op.DoTruncateHandle?)
    ensures Do(nfc, fs, op).names == fs.names && Tracked(Do(nfc, fs, op))
  {
    hide NamesInv, Tracked, OnItsFile, Patched, Resized, SizedAttrs, WithAttr, Uploaded;
    assert Tracked(fs);
    if op.DoFsync? && op.fh in fs.handles {
      var h := fs.handles[op.fh];
      UploadLeaves(Registered(fs.world, h.id), op.ino, h.remotePath, h.cachePath, op.upload);
    }
    MarkKeepsTracked(fs, Do(nfc, fs, op));
  }

  /** What a truncation without a handle leaves alone on every branch. */
  ghost predicate LeavesHandles(fs: Fs, r: Fs) {
    && r.names == fs.names && r.raw == fs.raw && r.handles == fs.handles && r.nextFh == fs.nextFh
    && fs.nextId <= r.nextId && r.world.inodeOf == fs.world.inodeOf
  }

  /** An id of its own that an operation registers is closed again. */
  ghost predicate ClosesId(fs: Fs, r: Fs, id: HandleId) {
    var ids := fs.world.registered;
    r.world.registered == ids || r.world.registered == ids + {id} - {id}
  }

  lemma TruncateZeroLeaves(fs: Fs, ino: nat, begun: Option<string>, upload: Upload, now: int)
    ensures var r := TruncateBareZero(fs, ino, begun, upload, now).fs;
            LeavesHandles(fs, r) && ClosesId(fs, r, Minted("trunc0", fs.nextId))
  {
    hide SizedAttrs, UploadedOrTold;
    if ino in fs.names.toPath && begun.Some? {
      var id, path := Minted("trunc0", fs.nextId), fs.names.toPath[ino];
      UploadLeaves(Registered(Placed(fs.world, ino, path, ""), id), ino, path, begun.value, upload);
    }
  }

  lemma TruncateToLeaves(fs: Fs, ino: nat, size: nat, content: Option<(string, Bytes)>, local: bool, upload: Upload,
                         now: int)
    ensures var r := TruncateBareTo(fs, ino, size, content, local, upload, now).fs;
            LeavesHandles(fs, r) && ClosesId(fs, r, Minted("truncN", fs.nextId))
  {
    hide SizedAttrs, Resized, UploadedOrTold, Hydrated;
    if ino in fs.names.toPath && content.Some? {
      var id, path := Minted("truncN", fs.nextId), fs.names.toPath[ino];
      HydrationLeaves(fs.world, ino, path, content.value.1);
      var w := Registered(Hydrated(fs.world, ino, path, content.value.1), id);
      UploadLeaves(w.(files := w.files[ino := Resized(content.value.1, size)]), ino, path, content.value.0, upload);
    }
  }

  lemma OtherKeepsOrder(nfc: string -> string, fs: Fs, op: Op)
    requires Ordered(fs) && KernelKeepsTo(fs, op)
    requires op.DoTruncateZero? || op.DoTruncateTo? || op.DoApply?
    ensures Do(nfc, fs, op).names == fs.names && Tracked(Do(nfc, fs, op))
  {
    hide NamesInv, Tracked, OnItsFile, Drops, TruncateBareZero, TruncateBareTo;
    assert Tracked(fs);
    match op {
      case DoTruncateZero(ino, begun, upload, now) => TruncateZeroLeaves(fs, ino, begun, upload, now);
      case DoTruncateTo(ino, size, content, local, upload, now) =>
        TruncateToLeaves(fs, ino, size, content, local, upload, now);
      case DoApply(_) =>
    }
    MarkKeepsTracked(fs, Do(nfc, fs, op));
  }

  /** One operation keeps the inode map in order and the handles on their files. */
  lemma OpKeepsOrder(nfc: string -> string, fs: Fs, op: Op)
    requires Ordered(fs) && KernelKeepsTo(fs, op)
    ensures Ordered(Do(nfc, fs, op)) && Later(fs.names, Do(nfc, fs, op).names)
  {
    hide Lookup, Getattr, Readdir, Create, Mknod, Mkdir, Remove, Rename, Release;
    match op
    case DoLookup(parent, name, listing) => LookupKeepsOrder(nfc, fs, parent, name, listing);
    case DoGetattr(ino, listing) => GetattrKeepsOrder(fs, ino, listing);
    case DoReaddir(dir, listing) => ReaddirKeepsOrder(fs, dir, listing);
    case DoCreate(parent, name, listing, reply, local, now) =>
      CreateKeepsOrder(nfc, fs, parent, name, listing, reply, local, now);
    case DoMknod(parent, name, regular, listing, reply, local, upload, now) =>
      MknodKeepsOrder(nfc, fs, parent, name, regular, listing, reply, local, upload, now);
    case DoMkdir(parent, name, listing, made, now) => MkdirKeepsOrder(nfc, fs, parent, name, listing, made, now);
    case DoRemove(parent, name, removed) => RemoveKeepsOrder(nfc, fs, parent, name, removed);
    case DoRename(srcParent, srcName, dstParent, dstName, listing, renamed) =>
      RenameKeepsOrder(nfc, fs, srcParent, srcName, dstParent, dstName, listing, renamed);
    case DoOpen(_, _, _, _, _, _) => OpenKeepsOrder(nfc, fs, op);
    case DoWrite(_, _, _, _, _, _) => MarkKeepsOrder(nfc, fs, op);
    case DoFsync(_, _, _, _) => MarkKeepsOrder(nfc, fs, op);
    case DoRelease(ino, fh, upload) => ReleaseKeepsOrder(fs, ino, fh, upload);
    case DoTruncateHandle(_, _, _, _, _) => MarkKeepsOrder(nfc, fs, op);
    case _ => OtherKeepsOrder(nfc, fs, op);
  }

  /** Over every run the two maps stay inverse, the root stays inode 1 and the
      empty path, inodes are handed out upwards and never name a path again once
      dropped, and every handle whose inode has a path holds that path. */
  lemma {:induction false} RunKeepsOrder(nfc: string -> string, states: seq<Fs>, ops: seq<Op>, k: nat)
    requires Run(nfc, states, ops) && Ordered(states[0]) && k <= |ops|
    ensures Ordered(states[k]) && Later(states[0].names, states[k].names)
  {
    hide Do;
    if k > 0 {
      RunKeepsOrder(nfc, states, ops, k - 1);
      assert Takes(nfc, states[k - 1], ops[k - 1], states[k]);
      OpKeepsOrder(nfc, states[k - 1], ops[k - 1]);
    }
  }

  // ---------------------------------------------------------------- what the namespace operations leave alone

  /** The peers but for the engine's books. */
  ghost predicate SameButStore(w: World, w': World) {
    w'.(store := w.store) == w
  }

  /** Operations that open, close and write nothing. */
  predicate Quiet(op: Op) {
    op.DoLookup? || op.DoGetattr? || op.DoReaddir? || op.DoMkdir? || op.DoRemove? || op.DoApply?
  }

  lemma QuietLeavesHandles(nfc: string -> string, fs: Fs, op: Op)
    requires NamesInv(fs.names) && KernelKeepsTo(fs, op) && Quiet(op)
    ensures var r := Do(nfc, fs, op);
            r.handles == fs.handles && SameButStore(fs.world, r.world) && r.nextFh == fs.nextFh && r.nextId == fs.nextId
  {
    hide LastSlash, Basename, ChildPath, VisibleName, InListing, HasAttr, Representable, Utf8Length, Populated,
         CollisionCheck, Interned, InodeOf, Forgotten, Recorded, ForgottenRaw, ParentPrefix, Drops, NamesInv;
    match op
    case DoLookup(_, _, listing) => if listing.Some? { PopulatedExtends(fs, listing.value); }
    case DoGetattr(_, listing) => if listing.Some? { PopulatedExtends(fs, listing.value); }
    case DoReaddir(_, listing) => if listing.Some? { PopulatedExtends(fs, listing.value); }
    case DoMkdir(parent, name, listing, _, _) =>
      if parent in fs.names.toPath { CheckExtends(fs, ChildPath(nfc, fs.names.toPath[parent], name), name, listing); }
    case _ =>
  }

  lemma RenameFollows(nfc: string -> string, fs: Fs, srcParent: nat, srcName: string, dstParent: nat, dstName: string,
                      listing: Option<seq<ListEntry>>, renamed: bool)
    requires NamesInv(fs.names)
    ensures var r := Rename(nfc, fs, srcParent, srcName, dstParent, dstName, listing, renamed).fs;
            && SameButStore(fs.world, r.world) && r.nextFh == fs.nextFh && r.nextId == fs.nextId
            && (r.handles == fs.handles || exists src, dst :: r.handles == Followed(fs.handles, src, dst))
  {
    hide LastSlash, ChildPath, CollisionCheck, Recorded, RenamedRaw, Renamed, Followed;
    if srcParent in fs.names.toPath && dstParent in fs.names.toPath {
      CheckExtends(fs, ChildPath(nfc, fs.names.toPath[dstParent], dstName), dstName, listing);
    }
  }

  /** A failed create leaves the handles and files as they were, and at most the
      id registered that the engine picked before the local disk failed. */
  ghost predicate NothingCreated(fs: Fs, id: Option<HandleId>, local: bool, r: Fs) {
    && r.handles == fs.handles && r.nextFh == fs.nextFh && fs.nextId <= r.nextId <= fs.nextId + 1
    && (r.world == fs.world ||
        (id.Some? && !local && r.nextId == fs.nextId + 1 && r.world == Registered(fs.world, id.value)))
  }

  /** A successful one adds a dirty handle on an empty file of inode `ino`. */
  ghost predicate FileCreated(fs: Fs, ino: nat, h: Handle, now: int, r: Fs) {
    && r.handles == fs.handles[fs.nextFh := h] && r.nextFh == fs.nextFh + 1 && r.nextId == fs.nextId + 1
    && r.world == Placed(fs.world, ino, h.remotePath, "").(inodeOf := fs.world.inodeOf[fs.nextFh := ino],
                                                           registered := fs.world.registered + {h.id})
    && h.dirty && ino in r.attrs && r.attrs[ino] == Attr(0, now, None, false, true, true)
  }

  lemma CreateAddsHandle(nfc: string -> string, fs: Fs, parent: nat, name: string, listing: Option<seq<ListEntry>>,
                         reply: Option<(string, HandleId)>, local: bool, now: int)
    requires NamesInv(fs.names)
    ensures var r := Create(nfc, fs, parent, name, listing, reply, local, now);
            if r.err == OK
            then reply.Some? && local &&
                 exists ino: nat, h: Handle :: h.id == reply.value.1 && FileCreated(fs, ino, h, now, r.fs)
            else NothingCreated(fs, if reply.Some? then Some(reply.value.1) else None, local, r.fs)
  {
    hide LastSlash, ChildPath, CollisionCheck, Recorded, Interned, InodeOf, NamesInv;
    if parent in fs.names.toPath {
      var cp := ChildPath(nfc, fs.names.toPath[parent], name);
      CheckExtends(fs, cp, name, listing);
      var fs1 := CollisionCheck(fs, cp, name, listing).fs;
      var r := Create(nfc, fs, parent, name, listing, reply, local, now);
      if r.err == OK {
        assert FileCreated(fs, InodeOf(fs1.names, cp), Handle(reply.value.1, cp, reply.value.0, true), now, r.fs);
      }
    }
  }

  lemma FollowKeepsDirt(handles: map<nat, Handle>, src: string, dst: string)
    ensures Followed(handles, src, dst).Keys == handles.Keys
    ensures forall fh :: fh in handles ==> Followed(handles, src, dst)[fh].dirty == handles[fh].dirty
  {
  }

  // ---------------------------------------------------------------- a first file, for concrete runs

  /** Normalisation, on names that are normal already. */
  function Plain(s: string): string {
    s
  }

  const NEW_MOUNT := NewFs("/c/")

  const CREATE_A := DoCreate(ROOT_INODE, "a", None, Some(("/c/a", Given("h"))), true, 0)

  const FIRST_FILE :=
    Fs(Names(3, map["" := 1, "/a" := 2], map[1 := "", 2 := "/a"]),
       map[2 := Attr(0, 0, None, false, true, true)], map[1 := Handle(Given("h"), "/a", "/c/a", true)], map[], 2, 2,
       World(map[1 := 2], map[2 := ""], {Given("h")}, map[], {}, Store("/c/", map["/a" := 2], map[], {})))

  lemma FirstFileIsCreated()
    ensures Takes(Plain, NEW_MOUNT, CREATE_A, FIRST_FILE)
  {
    hide LastSlash, Basename;
    LastSlashIs("/a", 0);
    assert ChildPath(Plain, "", "a") == "/a";
  }
}
