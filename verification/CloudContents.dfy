/** What the cloud has of each file, over every run of the mount's operations: a cache
    file without a dirty handle, and without a failure that was told, is in the cloud. */
module CloudContents {
  import opened Options
  import opened PathMaps
  import opened MountState
  import opened MountRuns

  /** The handles go to cache files. */
  ghost predicate Backed(fs: Fs) {
    forall fh :: fh in fs.handles ==> fh < fs.nextFh && fh in fs.world.inodeOf && fs.world.inodeOf[fh] in fs.world.files
  }

  ghost predicate DirtyOn(fs: Fs, ino: nat) {
    exists fh :: fh in fs.handles && fs.handles[fh].dirty && fh in fs.world.inodeOf && fs.world.inodeOf[fh] == ino
  }

  ghost predicate Safe(fs: Fs, ino: nat) {
    InCloud(fs.world, ino) || DirtyOn(fs, ino) || ino in fs.world.told
  }

  ghost predicate CloudInv(fs: Fs) {
    Backed(fs) && forall ino :: ino in fs.world.files ==> Safe(fs, ino)
  }

  /** A dirty handle still stands for what it stood for. */
  lemma StillDirty(fs: Fs, r: Fs, ino: nat)
    requires DirtyOn(fs, ino)
    requires forall fh ::
               fh in fs.handles && fs.handles[fh].dirty && fh in fs.world.inodeOf && fs.world.inodeOf[fh] == ino ==>
                 fh in r.handles && r.handles[fh].dirty && fh in r.world.inodeOf && r.world.inodeOf[fh] == ino
    ensures DirtyOn(r, ino)
  {
    var fh :| fh in fs.handles && fs.handles[fh].dirty && fh in fs.world.inodeOf && fs.world.inodeOf[fh] == ino;
    assert r.handles[fh].dirty;
  }

  /** What an operation on the file of `ino` leaves alone. */
  ghost predicate OthersSame(fs: Fs, r: Fs, ino: nat) {
    && (forall i :: i != ino ==> (i in r.world.files <==> i in fs.world.files)
                                 && (i in r.world.told <==> i in fs.world.told)
                                 && (i in r.world.files && InCloud(fs.world, i) ==> InCloud(r.world, i)))
    && (forall fh ::
          fh in fs.handles && fs.handles[fh].dirty && fh in fs.world.inodeOf && fs.world.inodeOf[fh] != ino ==>
            && fh in r.handles && r.handles[fh].dirty
            && fh in r.world.inodeOf && r.world.inodeOf[fh] == fs.world.inodeOf[fh])
  }

  lemma OneFileChanges(fs: Fs, r: Fs, ino: nat)
    requires CloudInv(fs) && Backed(r) && OthersSame(fs, r, ino) && (ino in r.world.files ==> Safe(r, ino))
    ensures CloudInv(r)
  {
    forall i | i in r.world.files && i != ino
      ensures Safe(r, i)
    {
      assert Safe(fs, i);
      if DirtyOn(fs, i) {
        StillDirty(fs, r, i);
      }
    }
  }

  lemma WriteKeepsCloud(fs: Fs, ino: nat, fh: nat, offset: nat, data: Bytes, written: Option<nat>, now: int)
    requires CloudInv(fs) && (written.Some? ==> written.value <= |data|)
    requires fh in fs.world.inodeOf ==> fs.world.inodeOf[fh] == ino
    ensures CloudInv(Write(fs, ino, fh, offset, data, written, now).fs)
  {
    hide Patched, WithAttr, CloudInv, Safe;
    var r := Write(fs, ino, fh, offset, data, written, now).fs;
    if fh in fs.handles && written.Some? {
      assert Backed(fs) by { CloudSays(fs); }
      assert r.handles[fh].dirty && r.world.inodeOf[fh] == ino;
      assert Safe(r, ino) by { DirtyIsSafe(r, ino); }
      OneFileChanges(fs, r, ino);
    }
  }

  lemma CloudSays(fs: Fs)
    requires CloudInv(fs)
    ensures Backed(fs)
  {
  }

  lemma DirtyIsSafe(fs: Fs, ino: nat)
    requires DirtyOn(fs, ino)
    ensures Safe(fs, ino)
  {
  }

  lemma TruncateHandleKeepsCloud(fs: Fs, ino: nat, fh: nat, size: nat, local: bool, now: int)
    requires CloudInv(fs) && (fh in fs.world.inodeOf ==> fs.world.inodeOf[fh] == ino)
    ensures CloudInv(TruncateHandle(fs, ino, fh, size, local, now).fs)
  {
    hide Resized, SizedAttrs, CloudInv, Safe;
    var r := TruncateHandle(fs, ino, fh, size, local, now).fs;
    if ino in fs.names.toPath && fh in fs.handles && local {
      assert Backed(fs) by { CloudSays(fs); }
      assert r.handles[fh].dirty && r.world.inodeOf[fh] == ino;
      assert Safe(r, ino) by { DirtyIsSafe(r, ino); }
      OneFileChanges(fs, r, ino);
    }
  }

  lemma FsyncKeepsCloud(fs: Fs, ino: nat, fh: nat, synced: bool, upload: Upload)
    requires CloudInv(fs) && (fh in fs.world.inodeOf ==> fs.world.inodeOf[fh] == ino)
    ensures CloudInv(Fsync(fs, ino, fh, synced, upload).fs)
  {
    hide CloudInv;
    var r := Fsync(fs, ino, fh, synced, upload).fs;
    if fh in fs.handles && synced && fs.handles[fh].dirty {
      assert Backed(fs) by { CloudSays(fs); }
      assert !upload.Stored? ==> r.handles[fh].dirty && r.world.inodeOf[fh] == ino;
      OneFileChanges(fs, r, ino);
    }
  }

  lemma ReleaseKeepsCloud(fs: Fs, ino: nat, fh: nat, upload: Upload)
    requires CloudInv(fs) && (fh in fs.world.inodeOf ==> fs.world.inodeOf[fh] == ino)
    ensures CloudInv(Release(fs, ino, fh, upload))
  {
    hide CloudInv;
    var r := Release(fs, ino, fh, upload);
    if fh in fs.handles {
      assert Backed(fs) by { CloudSays(fs); }
      if !fs.handles[fh].dirty {
        CleanReleaseKeepsSafe(fs, r, fh, ino);
      }
      OneFileChanges(fs, r, ino);
    }
  }

  lemma CleanReleaseKeepsSafe(fs: Fs, r: Fs, fh: nat, ino: nat)
    requires CloudInv(fs) && fh in fs.handles && !fs.handles[fh].dirty && ino in fs.world.files
    requires r.handles == fs.handles - {fh} && r.world.inodeOf == fs.world.inodeOf - {fh}
    requires r.world.files == fs.world.files && r.world.cloud == fs.world.cloud && r.world.told == fs.world.told
    ensures Safe(r, ino)
  {
    assert Safe(fs, ino);
    if DirtyOn(fs, ino) {
      StillDirty(fs, r, ino);
    }
  }

  lemma TruncateZeroKeepsCloud(fs: Fs, ino: nat, begun: Option<string>, upload: Upload, now: int)
    requires CloudInv(fs)
    ensures CloudInv(TruncateBareZero(fs, ino, begun, upload, now).fs)
  {
    hide SizedAttrs, CloudInv;
    if ino in fs.names.toPath && begun.Some? {
      CloudSays(fs);
      OneFileChanges(fs, TruncateBareZero(fs, ino, begun, upload, now).fs, ino);
    }
  }

  /** Hydration leaves alone what the cloud has not and makes another file what the
      cloud has. */
  lemma HydrationKeepsCloud(fs: Fs, ino: nat, path: string, content: Bytes)
    requires CloudInv(fs) && MayHold(fs.world, ino, content)
    ensures CloudInv(fs.(world := Hydrated(fs.world, ino, path, content)))
  {
    hide CloudInv;
    var r := fs.(world := Hydrated(fs.world, ino, path, content));
    CloudSays(fs);
    if ino in fs.world.files && !InCloud(fs.world, ino) {
      SameWorld(fs, r);
    } else {
      OneFileChanges(fs, r, ino);
    }
  }

  /** The invariant is about the handles and the peers only, not about ids. */
  lemma SameWorld(fs: Fs, r: Fs)
    requires CloudInv(fs) && r.handles == fs.handles && r.nextFh >= fs.nextFh && r.world.inodeOf == fs.world.inodeOf
    requires r.world.files == fs.world.files && r.world.cloud == fs.world.cloud && r.world.told == fs.world.told
    ensures CloudInv(r)
  {
    forall ino | ino in fs.world.files
      ensures Safe(r, ino)
    {
      assert Safe(fs, ino);
      if DirtyOn(fs, ino) {
        StillDirty(fs, r, ino);
      }
    }
  }

  /** A file changed and uploaded at once is in the cloud, or its failure is told. */
  lemma FinalUploadKeepsCloud(fs: Fs, r: Fs, ino: nat, path: string, cachePath: string, content: Bytes, upload: Upload)
    requires CloudInv(fs) && r.handles == fs.handles && r.nextFh == fs.nextFh && r.world.inodeOf == fs.world.inodeOf
    requires var w := UploadedOrTold(fs.world.(files := fs.world.files[ino := content]), ino, path, cachePath, upload);
             r.world.files == w.files && r.world.cloud == w.cloud && r.world.told == w.told
    ensures CloudInv(r)
  {
    hide CloudInv;
    CloudSays(fs);
    OneFileChanges(fs, r, ino);
  }

  lemma TruncateToKeepsCloud(fs: Fs, ino: nat, size: nat, reply: Option<(string, Bytes)>, local: bool, upload: Upload,
                             now: int)
    requires CloudInv(fs) && (reply.Some? ==> MayHold(fs.world, ino, reply.value.1))
    ensures CloudInv(TruncateBareTo(fs, ino, size, reply, local, upload, now).fs)
  {
    hide SizedAttrs, Resized, CloudInv;
    var r := TruncateBareTo(fs, ino, size, reply, local, upload, now).fs;
    if ino !in fs.names.toPath || reply.None? {
      SameWorld(fs, r);
    } else {
      var path := fs.names.toPath[ino];
      HydrationKeepsCloud(fs, ino, path, reply.value.1);
      var hydrated := fs.(world := Hydrated(fs.world, ino, path, reply.value.1));
      if local {
        FinalUploadKeepsCloud(hydrated, r, ino, path, reply.value.0, Resized(reply.value.1, size), upload);
      } else {
        SameWorld(hydrated, r);
      }
    }
  }

  /** A new handle, on a file it makes if it is dirty. */
  lemma NewHandleKeepsCloud(fs: Fs, r: Fs, ino: nat, h: Handle)
    requires CloudInv(fs) && r.handles == fs.handles[fs.nextFh := h] && r.nextFh == fs.nextFh + 1
    requires r.world.inodeOf == fs.world.inodeOf[fs.nextFh := ino] && r.world.cloud == fs.world.cloud
    requires r.world.told == fs.world.told
    requires r.world.files == (if h.dirty then fs.world.files[ino := ""] else fs.world.files) && ino in r.world.files
    ensures CloudInv(r)
  {
    assert Backed(r);
    assert h.dirty ==> r.handles[fs.nextFh].dirty && r.world.inodeOf[fs.nextFh] == ino;
    if !h.dirty {
      assert Safe(fs, ino);
      if DirtyOn(fs, ino) {
        StillDirty(fs, r, ino);
      }
    }
    OneFileChanges(fs, r, ino);
  }

  lemma TruncatingOpenKeepsCloud(fs: Fs, ino: nat, reply: Option<(string, Bytes)>, local: bool, now: int)
    requires CloudInv(fs)
    ensures CloudInv(Open(fs, ino, true, true, reply, local, now).fs)
  {
    hide CloudInv, WithAttr;
    var r := Open(fs, ino, true, true, reply, local, now).fs;
    if ino in fs.names.toPath && fs.names.toPath[ino] != "" && reply.Some? {
      if local {
        NewHandleKeepsCloud(fs, r, ino, r.handles[fs.nextFh]);
      } else {
        FinalUploadKeepsCloud(fs, r, ino, fs.names.toPath[ino], reply.value.0, "", Failed);
      }
    } else {
      SameWorld(fs, r);
    }
  }

  lemma OpenKeepsCloud(fs: Fs, ino: nat, writable: bool, trunc: bool, reply: Option<(string, Bytes)>, local: bool,
                       now: int)
    requires CloudInv(fs) && EngineHydrates(fs, DoOpen(ino, writable, trunc, reply, local, now))
    ensures CloudInv(Open(fs, ino, writable, trunc, reply, local, now).fs)
  {
    if writable && trunc {
      TruncatingOpenKeepsCloud(fs, ino, reply, local, now);
    } else {
      hide CloudInv, WithAttr;
      var r := Open(fs, ino, writable, trunc, reply, local, now).fs;
      if ino in fs.names.toPath && fs.names.toPath[ino] != "" && reply.Some? {
        HydrationKeepsCloud(fs, ino, fs.names.toPath[ino], reply.value.1);
        var hydrated := fs.(world := Hydrated(fs.world, ino, fs.names.toPath[ino], reply.value.1));
        if local {
          NewHandleKeepsCloud(hydrated, r, ino, r.handles[fs.nextFh]);
        } else {
          SameWorld(hydrated, r);
        }
      } else {
        SameWorld(fs, r);
      }
    }
  }

  lemma CreateKeepsCloud(nfc: string -> string, fs: Fs, parent: nat, name: string, listing: Option<seq<ListEntry>>,
                         reply: Option<(string, HandleId)>, local: bool, now: int)
    requires NamesInv(fs.names) && CloudInv(fs)
    ensures CloudInv(Create(nfc, fs, parent, name, listing, reply, local, now).fs)
  {
    hide Create, CloudInv;
    CreateAddsHandle(nfc, fs, parent, name, listing, reply, local, now);
    var r := Create(nfc, fs, parent, name, listing, reply, local, now);
    if r.err == OK {
      var ino: nat, h: Handle :| h.id == reply.value.1 && FileCreated(fs, ino, h, now, r.fs);
      NewHandleKeepsCloud(fs, r.fs, ino, h);
    } else {
      SameWorld(fs, r.fs);
    }
  }

  lemma MknodKeepsCloud(nfc: string -> string, fs: Fs, parent: nat, name: string, regular: bool,
                        listing: Option<seq<ListEntry>>,
                        reply: Option<(string, HandleId)>, local: bool, upload: Upload, now: int)
    requires NamesInv(fs.names) && CloudInv(fs)
    ensures CloudInv(Mknod(nfc, fs, parent, name, regular, listing, reply, local, upload, now).fs)
  {
    hide Create, Release, CloudInv;
    if regular {
      CreateKeepsCloud(nfc, fs, parent, name, listing, reply, local, now);
      CreateAddsHandle(nfc, fs, parent, name, listing, reply, local, now);
      var created := Create(nfc, fs, parent, name, listing, reply, local, now);
      if created.err == OK {
        var fh := created.fs.nextFh - 1;
        ReleaseKeepsCloud(created.fs, created.fs.world.inodeOf[fh], fh, upload);
      }
    }
  }

  lemma FollowingKeepsCloud(fs: Fs, r: Fs, src: string, dst: string)
    requires CloudInv(fs) && SameButStore(fs.world, r.world) && r.nextFh == fs.nextFh
    requires r.handles == Followed(fs.handles, src, dst)
    ensures CloudInv(r)
  {
    FollowKeepsDirt(fs.handles, src, dst);
    forall ino | ino in fs.world.files
      ensures Safe(r, ino)
    {
      assert Safe(fs, ino);
      if DirtyOn(fs, ino) {
        StillDirty(fs, r, ino);
      }
    }
  }

  lemma OpKeepsCloud(nfc: string -> string, fs: Fs, op: Op)
    requires NamesInv(fs.names) && CloudInv(fs) && KernelKeepsTo(fs, op) && EngineHydrates(fs, op)
    ensures CloudInv(Do(nfc, fs, op))
  {
    hide Create, Mknod, Rename, Lookup, Getattr, Readdir, Mkdir, Open, Write, Fsync, TruncateHandle, TruncateBareZero,
         TruncateBareTo, Applied, Remove, Release, CloudInv, NamesInv, Followed;
    if Quiet(op) {
      QuietLeavesHandles(nfc, fs, op);
      SameWorld(fs, Do(nfc, fs, op));
    } else {
      match op
      case DoOpen(ino, writable, trunc, hydrated, local, now) =>
        OpenKeepsCloud(fs, ino, writable, trunc, hydrated, local, now);
      case DoWrite(ino, fh, offset, data, written, now) => WriteKeepsCloud(fs, ino, fh, offset, data, written, now);
      case DoFsync(ino, fh, synced, upload) => FsyncKeepsCloud(fs, ino, fh, synced, upload);
      case DoRelease(ino, fh, upload) => ReleaseKeepsCloud(fs, ino, fh, upload);
      case DoTruncateHandle(ino, fh, size, local, now) => TruncateHandleKeepsCloud(fs, ino, fh, size, local, now);
      case DoTruncateZero(ino, begun, upload, now) => TruncateZeroKeepsCloud(fs, ino, begun, upload, now);
      case DoTruncateTo(ino, size, content, local, upload, now) =>
        TruncateToKeepsCloud(fs, ino, size, content, local, upload, now);
      case DoCreate(parent, name, listing, reply, local, now) =>
        CreateKeepsCloud(nfc, fs, parent, name, listing, reply, local, now);
      case DoMknod(parent, name, regular, listing, reply, local, upload, now) =>
        MknodKeepsCloud(nfc, fs, parent, name, regular, listing, reply, local, upload, now);
      case DoRename(srcParent, srcName, dstParent, dstName, listing, renamed) =>
        RenameFollows(nfc, fs, srcParent, srcName, dstParent, dstName, listing, renamed);
        var r := Do(nfc, fs, op);
        if r.handles == fs.handles {
          SameWorld(fs, r);
        } else {
          var src, dst :| r.handles == Followed(fs.handles, src, dst);
          FollowingKeepsCloud(fs, r, src, dst);
        }
    }
  }

  lemma {:induction false} RunKeepsCloud(nfc: string -> string, states: seq<Fs>, ops: seq<Op>, k: nat)
    requires Run(nfc, states, ops) && Ordered(states[0]) && CloudInv(states[0]) && k <= |ops|
    requires forall i :: 0 <= i < |ops| ==> EngineHydrates(states[i], ops[i])
    ensures CloudInv(states[k])
  {
    hide Do, EngineHydrates, CloudInv;
    if k > 0 {
      RunKeepsCloud(nfc, states, ops, k - 1);
      RunKeepsOrder(nfc, states, ops, k - 1);
      assert Takes(nfc, states[k - 1], ops[k - 1], states[k]);
      OpKeepsCloud(nfc, states[k - 1], ops[k - 1]);
    }
  }

  /** The mount loses no write: after any run, what a cache file holds is in the cloud
      unless one of its handles is dirty or a failure was told. */
  lemma MountLosesNoWrite(nfc: string -> string, states: seq<Fs>, ops: seq<Op>, k: nat, ino: nat)
    requires Run(nfc, states, ops) && Started(states[0]) && k <= |ops|
    requires forall i :: 0 <= i < |ops| ==> EngineHydrates(states[i], ops[i])
    requires ino in states[k].world.files && ino !in states[k].world.told
    requires forall fh :: fh in states[k].handles && states[k].handles[fh].dirty && fh in states[k].world.inodeOf ==>
               states[k].world.inodeOf[fh] != ino
    ensures InCloud(states[k].world, ino)
  {
    RunKeepsCloud(nfc, states, ops, k);
    assert Safe(states[k], ino);
  }

  // ---------------------------------------------------------------- what is reported

  /** The error an operation returns. */
  function ErrorOf(nfc: string -> string, fs: Fs, op: Op): Errno
    requires op.DoOpen? || op.DoWrite? || op.DoFsync? || op.DoTruncateHandle? || op.DoTruncateZero? || op.DoTruncateTo?
    requires op.DoWrite? && op.written.Some? ==> op.written.value <= |op.data|
  {
    match op
    case DoOpen(ino, writable, trunc, hydrated, local, now) => Open(fs, ino, writable, trunc, hydrated, local, now).err
    case DoWrite(ino, fh, offset, data, written, now) => Write(fs, ino, fh, offset, data, written, now).err
    case DoFsync(ino, fh, synced, upload) => Fsync(fs, ino, fh, synced, upload).err
    case DoTruncateHandle(ino, fh, size, local, now) => TruncateHandle(fs, ino, fh, size, local, now).err
    case DoTruncateZero(ino, begun, upload, now) => TruncateBareZero(fs, ino, begun, upload, now).err
    case DoTruncateTo(ino, size, content, local, upload, now) =>
      TruncateBareTo(fs, ino, size, content, local, upload, now).err
  }

  /** Of these operations only one that returns an error counts as telling a failure. */
  lemma FileOpTells(nfc: string -> string, fs: Fs, op: Op, ino: nat)
    requires op.DoOpen? || op.DoTruncateZero? || op.DoTruncateTo?
    requires ino in Do(nfc, fs, op).world.told && ino !in fs.world.told
    ensures ErrorOf(nfc, fs, op) != OK
  {
    hide WithAttr, SizedAttrs, Resized, Hydrated, SentTo;
    match op
    case DoOpen(i, _, _, reply, _, _) =>
      if i in fs.names.toPath && reply.Some? {
        HydrationLeaves(fs.world, i, fs.names.toPath[i], reply.value.1);
      }
    case DoTruncateTo(i, _, reply, _, _, _) =>
      if i in fs.names.toPath && reply.Some? {
        HydrationLeaves(fs.world, i, fs.names.toPath[i], reply.value.1);
      }
    case _ =>
  }

  /** A failure counts as told only when the operation returns an error, or when it is
      the upload of a `release`, whose caller is gone, and is logged. */
  lemma ToldMeansReported(nfc: string -> string, fs: Fs, op: Op, ino: nat)
    requires NamesInv(fs.names) && KernelKeepsTo(fs, op) && ino in Do(nfc, fs, op).world.told && ino !in fs.world.told
    ensures if op.DoRelease? || op.DoMknod? then !op.upload.Stored?
            else (op.DoOpen? || op.DoTruncateZero? || op.DoTruncateTo?) && ErrorOf(nfc, fs, op) != OK
  {
    hide Create, Rename, Lookup, Getattr, Readdir, Mkdir, Applied, Remove, NamesInv, Followed, WithAttr, SizedAttrs,
         Patched, Resized, SentTo, Open, TruncateBareZero, TruncateBareTo;
    if Quiet(op) {
      QuietLeavesHandles(nfc, fs, op);
    } else {
      match op
      case DoCreate(parent, name, listing, reply, local, now) =>
        CreateAddsHandle(nfc, fs, parent, name, listing, reply, local, now);
      case DoMknod(parent, name, regular, listing, reply, local, upload, now) =>
        CreateAddsHandle(nfc, fs, parent, name, listing, reply, local, now);
      case DoRename(srcParent, srcName, dstParent, dstName, listing, renamed) =>
        RenameFollows(nfc, fs, srcParent, srcName, dstParent, dstName, listing, renamed);
      case DoOpen(_, _, _, _, _, _) => FileOpTells(nfc, fs, op, ino);
      case DoTruncateZero(_, _, _, _) => FileOpTells(nfc, fs, op, ino);
      case DoTruncateTo(_, _, _, _, _, _) => FileOpTells(nfc, fs, op, ino);
      case _ =>
    }
  }

  ghost predicate AnotherDirty(fs: Fs, ino: nat, fh: nat) {
    exists g :: g in fs.handles && g != fh && fs.handles[g].dirty && g in fs.world.inodeOf && fs.world.inodeOf[g] == ino
  }

  /** An fsync that returns Ok on a dirty handle has put the file's content in the
      cloud; on a clean one the content is there unless another handle of the file is
      dirty or a failure was told. */
  lemma FsyncOkMeansInCloud(nfc: string -> string, states: seq<Fs>, ops: seq<Op>, k: nat)
    requires Run(nfc, states, ops) && Started(states[0]) && k < |ops| && ops[k].DoFsync?
    requires forall i :: 0 <= i < |ops| ==> EngineHydrates(states[i], ops[i])
    requires ErrorOf(nfc, states[k], ops[k]) == OK
    ensures ops[k].fh in states[k].handles && states[k + 1].world.files == states[k].world.files
    ensures states[k].handles[ops[k].fh].dirty ==> InCloud(states[k + 1].world, ops[k].ino)
    ensures InCloud(states[k + 1].world, ops[k].ino) || ops[k].ino in states[k + 1].world.told ||
            AnotherDirty(states[k + 1], ops[k].ino, ops[k].fh)
  {
    var ino, fh := ops[k].ino, ops[k].fh;
    RunKeepsCloud(nfc, states, ops, k);
    RunKeepsCloud(nfc, states, ops, k + 1);
    assert Takes(nfc, states[k], ops[k], states[k + 1]);
    assert Backed(states[k]) && fh in states[k].handles && states[k].world.inodeOf[fh] == ino;
    assert !states[k + 1].handles[fh].dirty;
    assert Safe(states[k + 1], ino);
    if DirtyOn(states[k + 1], ino) {
      var g :| g in states[k + 1].handles && states[k + 1].handles[g].dirty && g in states[k + 1].world.inodeOf &&
               states[k + 1].world.inodeOf[g] == ino;
      assert g != fh;
    }
  }
}
