/** The cached size of a file the mount has opened is the length of its cache file. */
module CachedSizes {
  import opened Options
  import opened PathText
  import opened PathMaps
  import opened MountState
  import opened MountRuns

  /** The cached size of `ino`, if there is one and it is not a folder's, is `n`. */
  ghost predicate Reads(attrs: map<nat, Attr>, ino: nat, n: nat) {
    ino !in attrs || attrs[ino].folder || attrs[ino].size == n
  }

  ghost predicate SizesAgree(fs: Fs) {
    && (forall ino :: ino in fs.world.files ==> Reads(fs.attrs, ino, |fs.world.files[ino]|))
    && (forall fh :: fh in fs.handles ==>
          fh < fs.nextFh && fh in fs.world.inodeOf && fs.world.inodeOf[fh] in fs.world.files)
  }

  /** The operation does not get a listing, which overwrites cached sizes. */
  predicate ListsNothing(op: Op) {
    match op
    case DoLookup(_, _, listing) => listing.None?
    case DoGetattr(_, listing) => listing.None?
    case DoReaddir(_, listing) => listing.None?
    case DoCreate(_, _, listing, _, _, _) => listing.None?
    case DoMknod(_, _, _, listing, _, _, _, _) => listing.None?
    case DoMkdir(_, _, listing, _, _) => listing.None?
    case DoRename(_, _, _, _, listing, _) => listing.None?
    case _ => true
  }

  /** When an operation leaves cached sizes right: always, unless it fails after
      the cache file has already changed, or writes nothing beyond the end. */
  ghost predicate SizeSafe(fs: Fs, op: Op) {
    match op
    case DoOpen(ino, writable, trunc, hydrated, local, _) =>
      ino in fs.names.toPath && fs.names.toPath[ino] != "" && hydrated.Some? && !local && !(writable && trunc) ==>
        Reads(fs.attrs, ino, |hydrated.value.1|)
    case DoWrite(ino, fh, offset, data, written, _) =>
      fh in fs.handles && written == Some(0) && ino in fs.attrs && !fs.attrs[ino].folder ==>
        offset <= fs.attrs[ino].size
    case DoTruncateZero(ino, begun, upload, _) =>
      ino in fs.names.toPath && begun.Some? && !upload.Stored? ==> Reads(fs.attrs, ino, 0)
    case DoTruncateTo(ino, size, content, local, upload, _) =>
      ino in fs.names.toPath && content.Some? && !(local && upload.Stored?) ==>
        Reads(fs.attrs, ino, if local then size else |content.value.1|)
    case _ => true
  }

  /** Without a listing, such an operation caches no size but that of a new folder. */
  lemma QuietCachesFolders(nfc: string -> string, fs: Fs, op: Op)
    requires KernelKeepsTo(fs, op) && Quiet(op) && ListsNothing(op)
    ensures var attrs := Do(nfc, fs, op).attrs;
            forall i :: i in attrs ==> attrs[i].folder || (i in fs.attrs && attrs[i] == fs.attrs[i])
  {
    hide LastSlash, Basename, ChildPath, VisibleName, HasAttr, Interned, InodeOf, Forgotten, Recorded, ForgottenRaw,
         Unlinked, Drops;
  }

  lemma QuietAndSizes(nfc: string -> string, fs: Fs, op: Op)
    requires NamesInv(fs.names) && SizesAgree(fs) && KernelKeepsTo(fs, op) && Quiet(op) && ListsNothing(op)
    ensures SizesAgree(Do(nfc, fs, op))
  {
    hide Do, KernelKeepsTo, NamesInv;
    QuietLeavesHandles(nfc, fs, op);
    QuietCachesFolders(nfc, fs, op);
  }

  lemma CreateAndSizes(nfc: string -> string, fs: Fs, parent: nat, name: string, reply: Option<(string, HandleId)>,
                       local: bool, now: int)
    requires NamesInv(fs.names) && SizesAgree(fs)
    ensures SizesAgree(Create(nfc, fs, parent, name, None, reply, local, now).fs)
  {
    hide LastSlash, Basename, ChildPath, VisibleName, HasAttr, Interned, Recorded, ForgottenRaw;
  }

  lemma ReleaseAndSizes(fs: Fs, ino: nat, fh: nat, upload: Upload)
    requires SizesAgree(fs)
    ensures SizesAgree(Release(fs, ino, fh, upload))
  {
  }

  lemma FsyncAndSizes(fs: Fs, ino: nat, fh: nat, synced: bool, upload: Upload)
    requires SizesAgree(fs)
    ensures SizesAgree(Fsync(fs, ino, fh, synced, upload).fs)
  {
  }

  lemma RenameAndSizes(nfc: string -> string, fs: Fs, srcParent: nat, srcName: string, dstParent: nat,
                       dstName: string, renamed: bool)
    requires NamesInv(fs.names) && SizesAgree(fs)
    ensures SizesAgree(Rename(nfc, fs, srcParent, srcName, dstParent, dstName, None, renamed).fs)
  {
    hide LastSlash, Basename, ChildPath, VisibleName, HasAttr, Recorded, RenamedRaw, Renamed, Followed, Carried,
         MovedStore, Reads;
    RenameFollows(nfc, fs, srcParent, srcName, dstParent, dstName, None, renamed);
    var r := Rename(nfc, fs, srcParent, srcName, dstParent, dstName, None, renamed).fs;
    assert r.attrs == fs.attrs;
    if src, dst :| r.handles == Followed(fs.handles, src, dst) {
      FollowKeepsDirt(fs.handles, src, dst);
    }
  }

  lemma OpenAndSizes(fs: Fs, ino: nat, writable: bool, trunc: bool, hydrated: Option<(string, Bytes)>, local: bool,
                     now: int)
    requires SizesAgree(fs)
    ensures SizesAgree(Open(fs, ino, writable, trunc, hydrated, local, now).fs) <==>
            SizeSafe(fs, DoOpen(ino, writable, trunc, hydrated, local, now))
  {
    var r := Open(fs, ino, writable, trunc, hydrated, local, now);
    if r.err == EIO {
      assert ino in r.fs.world.files;
    }
  }

  lemma WriteAndSizes(fs: Fs, ino: nat, fh: nat, offset: nat, data: Bytes, written: Option<nat>, now: int)
    requires SizesAgree(fs) && (written.Some? ==> written.value <= |data|)
    requires fh in fs.world.inodeOf ==> fs.world.inodeOf[fh] == ino
    ensures SizesAgree(Write(fs, ino, fh, offset, data, written, now).fs) <==>
            SizeSafe(fs, DoWrite(ino, fh, offset, data, written, now))
  {
    hide Patched;
    var r := Write(fs, ino, fh, offset, data, written, now);
    if r.err == OK {
      assert |r.fs.world.files[ino]| ==
             if written.value == 0 then |fs.world.files[ino]| else Max(|fs.world.files[ino]|, offset + written.value);
    }
  }

  lemma TruncateHandleAndSizes(fs: Fs, ino: nat, fh: nat, size: nat, local: bool, now: int)
    requires SizesAgree(fs) && (fh in fs.world.inodeOf ==> fs.world.inodeOf[fh] == ino)
    ensures SizesAgree(TruncateHandle(fs, ino, fh, size, local, now).fs)
  {
    hide Resized;
  }

  lemma TruncateZeroAndSizes(fs: Fs, ino: nat, begun: Option<string>, upload: Upload, now: int)
    requires SizesAgree(fs)
    ensures SizesAgree(TruncateBareZero(fs, ino, begun, upload, now).fs) <==>
              SizeSafe(fs, DoTruncateZero(ino, begun, upload, now))
  {
    if ino in fs.names.toPath && begun.Some? {
      assert ino in TruncateBareZero(fs, ino, begun, upload, now).fs.world.files;
    }
  }

  lemma TruncateToSizes(fs: Fs, ino: nat, size: nat, content: Option<(string, Bytes)>, local: bool, upload: Upload,
                        now: int)
    requires ino in fs.names.toPath && content.Some?
    ensures var r := TruncateBareTo(fs, ino, size, content, local, upload, now).fs;
            && (exists file: Bytes ::
                  |file| == (if local then size else |content.value.1|) && r.world.files == fs.world.files[ino := file])
            && r.attrs == if local && upload.Stored? then SizedAttrs(fs.attrs, ino, size, now) else fs.attrs
  {
    hide Resized, SizedAttrs;
    var file := if local then Resized(content.value.1, size) else content.value.1;
    assert TruncateBareTo(fs, ino, size, content, local, upload, now).fs.world.files == fs.world.files[ino := file];
  }

  lemma TruncateToAndSizes(fs: Fs, ino: nat, size: nat, content: Option<(string, Bytes)>, local: bool, upload: Upload,
                           now: int)
    requires SizesAgree(fs)
    ensures SizesAgree(TruncateBareTo(fs, ino, size, content, local, upload, now).fs) <==>
            SizeSafe(fs, DoTruncateTo(ino, size, content, local, upload, now))
  {
    var r := TruncateBareTo(fs, ino, size, content, local, upload, now).fs;
    TruncateToLeaves(fs, ino, size, content, local, upload, now);
    if ino in fs.names.toPath && content.Some? {
      hide TruncateBareTo, ClosesId;
      TruncateToSizes(fs, ino, size, content, local, upload, now);
      assert ino in r.world.files;
    } else {
      assert r.attrs == fs.attrs && r.world == fs.world;
    }
  }

  /** An operation keeps cached sizes right exactly when it is safe. */
  lemma OpKeepsSizes(nfc: string -> string, fs: Fs, op: Op)
    requires NamesInv(fs.names) && SizesAgree(fs) && KernelKeepsTo(fs, op) && ListsNothing(op)
    ensures SizesAgree(Do(nfc, fs, op)) <==> SizeSafe(fs, op)
  {
    hide Lookup, Getattr, Readdir, Mkdir, Remove, Applied, Create, Rename, Open, Write, TruncateHandle,
         TruncateBareZero, TruncateBareTo, Release, Fsync;
    if Quiet(op) {
      QuietAndSizes(nfc, fs, op);
    } else {
      match op
      case DoCreate(parent, name, _, reply, local, now) => CreateAndSizes(nfc, fs, parent, name, reply, local, now);
      case DoMknod(parent, name, regular, _, reply, local, upload, now) =>
        if regular {
          CreateAndSizes(nfc, fs, parent, name, reply, local, now);
          CreateAddsHandle(nfc, fs, parent, name, None, reply, local, now);
          var created := Create(nfc, fs, parent, name, None, reply, local, now);
          if created.err == OK {
            var fh := created.fs.nextFh - 1;
            ReleaseAndSizes(created.fs, created.fs.world.inodeOf[fh], fh, upload);
          }
        }
      case DoRename(srcParent, srcName, dstParent, dstName, _, renamed) =>
        RenameAndSizes(nfc, fs, srcParent, srcName, dstParent, dstName, renamed);
      case DoOpen(ino, writable, trunc, hydrated, local, now) =>
        OpenAndSizes(fs, ino, writable, trunc, hydrated, local, now);
      case DoWrite(ino, fh, offset, data, written, now) => WriteAndSizes(fs, ino, fh, offset, data, written, now);
      case DoRelease(ino, fh, upload) => ReleaseAndSizes(fs, ino, fh, upload);
      case DoFsync(ino, fh, synced, upload) => FsyncAndSizes(fs, ino, fh, synced, upload);
      case DoTruncateHandle(ino, fh, size, local, now) => TruncateHandleAndSizes(fs, ino, fh, size, local, now);
      case DoTruncateZero(ino, begun, upload, now) => TruncateZeroAndSizes(fs, ino, begun, upload, now);
      case DoTruncateTo(ino, size, content, local, upload, now) =>
        TruncateToAndSizes(fs, ino, size, content, local, upload, now);
    }
  }

  /** Over every run of safe operations, whatever handles they go through, every
      cached size of a file once opened is the length of its cache file. */
  lemma {:induction false} RunKeepsSizes(nfc: string -> string, states: seq<Fs>, ops: seq<Op>, k: nat)
    requires Run(nfc, states, ops) && Ordered(states[0]) && SizesAgree(states[0]) && k <= |ops|
    requires forall i :: 0 <= i < |ops| ==> ListsNothing(ops[i]) && SizeSafe(states[i], ops[i])
    ensures SizesAgree(states[k])
  {
    hide Do, SizesAgree, ListsNothing, SizeSafe;
    if k > 0 {
      RunKeepsSizes(nfc, states, ops, k - 1);
      RunKeepsOrder(nfc, states, ops, k - 1);
      assert Takes(nfc, states[k - 1], ops[k - 1], states[k]);
      OpKeepsSizes(nfc, states[k - 1], ops[k - 1]);
    }
  }

  lemma NothingWritten()
    ensures var r := Write(FIRST_FILE, 2, 1, 5, "", Some(0), 0).fs;
            r.attrs == map[2 := Attr(5, 0, None, false, true, true)] && r.world.files == map[2 := ""]
    ensures SizesAgree(FIRST_FILE)
  {
    assert Patched("", 5, "") == "";
  }

  /** A write that is not safe: no bytes, at offset 5 of an empty file just created.
      The file stays empty, the cached size becomes 5. */
  lemma EmptyWriteBeyondTheEnd() returns (states: seq<Fs>, ops: seq<Op>)
    ensures |states| == 3 && ops == [CREATE_A, DoWrite(2, 1, 5, "", Some(0), 0)]
    ensures Run(Plain, states, ops) && states[0] == NEW_MOUNT && SizesAgree(states[1])
    ensures states[2].attrs == map[2 := Attr(5, 0, None, false, true, true)] && states[2].world.files == map[2 := ""]
  {
    FirstFileIsCreated();
    NothingWritten();
    hide Write, Create, SizesAgree;
    var write := DoWrite(2, 1, 5, "", Some(0), 0);
    ops, states := [CREATE_A, write], [NEW_MOUNT, FIRST_FILE, Do(Plain, FIRST_FILE, write)];
  }

  const TWO_BYTES := FIRST_FILE.(attrs := map[2 := Attr(2, 0, None, false, true, true)],
                                 world := FIRST_FILE.world.(files := map[2 := "xy"]))

  lemma TwoBytesWritten()
    ensures Write(FIRST_FILE, 2, 1, 0, "xy", Some(2), 0).fs == TWO_BYTES && SizesAgree(TWO_BYTES)
  {
    assert "xy"[..2] == "xy" && Patched("", 0, "xy") == "xy";
  }

  lemma TruncationFails()
    ensures var r := TruncateBareZero(TWO_BYTES, 2, Some("/c/a"), Failed, 0).fs;
            r.attrs == TWO_BYTES.attrs && r.world.files == map[2 := ""]
  {
  }

  /** An operation that fails after the cache file has changed: two bytes are written,
      then a truncation without a handle empties the file and its upload fails. */
  lemma FailedTruncationKeepsSize() returns (states: seq<Fs>, ops: seq<Op>)
    ensures |states| == 4
    ensures ops == [CREATE_A, DoWrite(2, 1, 0, "xy", Some(2), 0), DoTruncateZero(2, Some("/c/a"), Failed, 0)]
    ensures Run(Plain, states, ops) && states[0] == NEW_MOUNT && SizesAgree(states[2])
    ensures states[3].attrs == map[2 := Attr(2, 0, None, false, true, true)] && states[3].world.files == map[2 := ""]
  {
    FirstFileIsCreated();
    TwoBytesWritten();
    TruncationFails();
    hide Write, TruncateBareZero, Create, SizesAgree;
    ops := [CREATE_A, DoWrite(2, 1, 0, "xy", Some(2), 0), DoTruncateZero(2, Some("/c/a"), Failed, 0)];
    states := [NEW_MOUNT, FIRST_FILE, TWO_BYTES, TruncateBareZero(TWO_BYTES, 2, Some("/c/a"), Failed, 0).fs];
  }
}
