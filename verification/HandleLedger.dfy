/** The ids registered at the engine are those of the open-handle table. */
module HandleLedger {
  import opened Options
  import opened PathText
  import opened PathMaps
  import opened MountState
  import opened MountRuns

  function OpenIds(handles: map<nat, Handle>): (ids: set<HandleId>)
    ensures forall fh :: fh in handles ==> handles[fh].id in ids
    ensures forall id :: id in ids ==> exists fh :: fh in handles && handles[fh].id == id
  {
    set fh | fh in handles :: handles[fh].id
  }

  ghost predicate Ledger(fs: Fs) {
    && fs.world.registered == OpenIds(fs.handles)
    && (forall f, g :: f in fs.handles && g in fs.handles && fs.handles[f].id == fs.handles[g].id ==> f == g)
    && (forall fh :: fh in fs.handles && fs.handles[fh].id.Minted? ==> fs.handles[fh].id.n < fs.nextId)
    && (forall fh :: fh in fs.handles ==> fh < fs.nextFh)
  }

  /** An id the engine picks is its own and unused, or the one it was offered. */
  ghost predicate FreshId(fs: Fs, id: HandleId) {
    id !in fs.world.registered && (id.Given? || id == Minted("create", fs.nextId))
  }

  ghost predicate EngineKeepsTo(fs: Fs, op: Op) {
    && (op.DoCreate? && op.reply.Some? ==> FreshId(fs, op.reply.value.1))
    && (op.DoMknod? && op.reply.Some? ==> FreshId(fs, op.reply.value.1))
  }

  /** The engine has opened the file and the local open of its cache file fails. */
  ghost predicate Leaks(nfc: string -> string, fs: Fs, op: Op) {
    match op
    case DoOpen(ino, _, _, hydrated, local, _) =>
      ino in fs.names.toPath && fs.names.toPath[ino] != "" && hydrated.Some? && !local
    case DoCreate(parent, name, listing, reply, local, _) => LeaksCreating(nfc, fs, parent, name, listing, reply, local)
    case DoMknod(parent, name, regular, listing, reply, local, _, _) =>
      regular && LeaksCreating(nfc, fs, parent, name, listing, reply, local)
    case _ => false
  }

  ghost predicate LeaksCreating(nfc: string -> string, fs: Fs, parent: nat, name: string,
                                listing: Option<seq<ListEntry>>,
                                reply: Option<(string, HandleId)>, local: bool)
  {
    && parent in fs.names.toPath && reply.Some? && !local
    && CollisionCheck(fs, ChildPath(nfc, fs.names.toPath[parent], name), name, listing).err == OK
  }

  lemma AddingKeepsLedger(fs: Fs, h: Handle, r: Fs)
    requires Ledger(fs) && h.id !in fs.world.registered && (h.id.Minted? ==> h.id.n < r.nextId) && fs.nextId <= r.nextId
    requires r.handles == fs.handles[fs.nextFh := h] && r.nextFh == fs.nextFh + 1
    requires r.world.registered == fs.world.registered + {h.id}
    ensures Ledger(r)
  {
    hide OpenIds;
    forall id
      ensures id in OpenIds(r.handles) <==> id in OpenIds(fs.handles) + {h.id}
    {
      assert r.handles[fs.nextFh].id == h.id;
      if fh :| fh in fs.handles && fs.handles[fh].id == id {
        assert r.handles[fh].id == id;
      }
    }
  }

  lemma ReleasingKeepsLedger(fs: Fs, ino: nat, fh: nat, upload: Upload)
    requires Ledger(fs)
    ensures Ledger(Release(fs, ino, fh, upload))
  {
    if fh in fs.handles {
      forall id
        ensures id in OpenIds(fs.handles - {fh}) <==> id in OpenIds(fs.handles) - {fs.handles[fh].id}
      {
        if g :| g in fs.handles && fs.handles[g].id == id && g != fh {
          assert (fs.handles - {fh})[g].id == id;
        }
      }
    }
  }

  /** Marking or moving handles leaves their ids alone. */
  lemma SameIdsKeepLedger(fs: Fs, r: Fs)
    requires Ledger(fs) && r.world.registered == fs.world.registered && r.nextId >= fs.nextId && r.nextFh >= fs.nextFh
    requires r.handles.Keys == fs.handles.Keys && forall fh :: fh in fs.handles ==>
               r.handles[fh].id == fs.handles[fh].id
    ensures Ledger(r)
  {
    assert OpenIds(r.handles) == OpenIds(fs.handles);
  }

  lemma MintedIsFresh(fs: Fs, id: HandleId)
    requires Ledger(fs) && id.Minted? && id.n == fs.nextId
    ensures id !in fs.world.registered
  {
  }

  /** Both truncations without a handle close the id they use, whether or not the
      engine, the local disk and the upload do their part. */
  lemma BareTruncationClosesItsId(nfc: string -> string, fs: Fs, op: Op)
    requires Ledger(fs) && KernelKeepsTo(fs, op) && (op.DoTruncateZero? || op.DoTruncateTo?)
    ensures Do(nfc, fs, op).world.registered == fs.world.registered && LeavesHandles(fs, Do(nfc, fs, op))
  {
    hide TruncateBareZero, TruncateBareTo, Ledger, LeavesHandles;
    match op
    case DoTruncateZero(ino, begun, upload, now) =>
      MintedIsFresh(fs, Minted("trunc0", fs.nextId));
      TruncateZeroLeaves(fs, ino, begun, upload, now);
    case DoTruncateTo(ino, size, content, local, upload, now) =>
      MintedIsFresh(fs, Minted("truncN", fs.nextId));
      TruncateToLeaves(fs, ino, size, content, local, upload, now);
  }

  lemma FsyncKeepsIds(fs: Fs, ino: nat, fh: nat, synced: bool, upload: Upload)
    requires Ledger(fs)
    ensures Ledger(Fsync(fs, ino, fh, synced, upload).fs)
  {
    hide Ledger;
    LedgerSays(fs);
    SameIdsKeepLedger(fs, Fsync(fs, ino, fh, synced, upload).fs);
  }

  lemma MarkingKeepsIds(nfc: string -> string, fs: Fs, op: Op)
    requires Ledger(fs) && KernelKeepsTo(fs, op) && (op.DoWrite? || op.DoTruncateHandle?)
    ensures Ledger(Do(nfc, fs, op))
  {
    hide WithAttr, SizedAttrs, Patched, Resized, FileOf, Ledger;
    SameIdsKeepLedger(fs, Do(nfc, fs, op));
  }

  lemma LedgerSays(fs: Fs)
    requires Ledger(fs)
    ensures fs.world.registered == OpenIds(fs.handles)
  {
  }

  lemma CreatingAndLedger(nfc: string -> string, fs: Fs, parent: nat, name: string, listing: Option<seq<ListEntry>>,
                          reply: Option<(string, HandleId)>, local: bool, now: int)
    requires NamesInv(fs.names) && Ledger(fs) && (reply.Some? ==> FreshId(fs, reply.value.1))
    ensures Ledger(Create(nfc, fs, parent, name, listing, reply, local, now).fs) <==>
            !LeaksCreating(nfc, fs, parent, name, listing, reply, local)
  {
    hide LastSlash, ChildPath, CollisionCheck, Recorded, Interned, InodeOf;
    CreateAddsHandle(nfc, fs, parent, name, listing, reply, local, now);
    var r := Create(nfc, fs, parent, name, listing, reply, local, now);
    if r.err == OK {
      var ino: nat, h: Handle :| h.id == reply.value.1 && FileCreated(fs, ino, h, now, r.fs);
      AddingKeepsLedger(fs, h, r.fs);
    } else if parent in fs.names.toPath {
      CheckExtends(fs, ChildPath(nfc, fs.names.toPath[parent], name), name, listing);
    }
  }

  lemma MknodAndLedger(nfc: string -> string, fs: Fs, parent: nat, name: string, regular: bool,
                       listing: Option<seq<ListEntry>>,
                       reply: Option<(string, HandleId)>, local: bool, upload: Upload, now: int)
    requires NamesInv(fs.names) && Ledger(fs) && (reply.Some? ==> FreshId(fs, reply.value.1))
    ensures Ledger(Mknod(nfc, fs, parent, name, regular, listing, reply, local, upload, now).fs) <==>
            !(regular && LeaksCreating(nfc, fs, parent, name, listing, reply, local))
  {
    hide Create, Release, LeaksCreating, Ledger, FreshId;
    if regular {
      CreatingAndLedger(nfc, fs, parent, name, listing, reply, local, now);
      var created := Create(nfc, fs, parent, name, listing, reply, local, now);
      CreateAddsHandle(nfc, fs, parent, name, listing, reply, local, now);
      if created.err == OK {
        LocalCreateLeaksNothing(nfc, fs, parent, name, listing, reply, local);
        var fh := created.fs.nextFh - 1;
        ReleasingKeepsLedger(created.fs, created.fs.world.inodeOf[fh], fh, upload);
      }
    }
  }

  lemma OpeningAndLedger(fs: Fs, ino: nat, writable: bool, trunc: bool, hydrated: Option<(string, Bytes)>,
                         local: bool, now: int)
    requires Ledger(fs)
    ensures Ledger(Open(fs, ino, writable, trunc, hydrated, local, now).fs) <==>
            !(ino in fs.names.toPath && fs.names.toPath[ino] != "" && hydrated.Some? && !local)
  {
    hide WithAttr;
    var r := Open(fs, ino, writable, trunc, hydrated, local, now);
    if r.err == OK {
      AddingKeepsLedger(fs, r.fs.handles[fs.nextFh], r.fs);
    } else if r.err == EIO {
      var id := Minted(if writable then "wh" else "rh", fs.nextId);
      assert id in r.fs.world.registered && id !in OpenIds(fs.handles);
    }
  }

  /** An operation keeps the ledger exactly unless it leaks: a local open that
      fails after the engine has opened the file is not closed again. */
  lemma OpKeepsLedger(nfc: string -> string, fs: Fs, op: Op)
    requires NamesInv(fs.names) && Ledger(fs) && KernelKeepsTo(fs, op) && EngineKeepsTo(fs, op)
    ensures Ledger(Do(nfc, fs, op)) <==> !Leaks(nfc, fs, op)
  {
    hide Create, Rename, Lookup, Getattr, Readdir, Mkdir, Open, Write, Fsync, TruncateHandle, TruncateBareZero,
         TruncateBareTo, Mknod, Applied, Remove, Release, LeaksCreating, FreshId, NamesInv, Ledger;
    if Quiet(op) {
      QuietLeavesHandles(nfc, fs, op);
      SameIdsKeepLedger(fs, Do(nfc, fs, op));
    } else {
      match op
      case DoOpen(ino, writable, trunc, hydrated, local, now) =>
        OpeningAndLedger(fs, ino, writable, trunc, hydrated, local, now);
      case DoCreate(parent, name, listing, reply, local, now) =>
        CreatingAndLedger(nfc, fs, parent, name, listing, reply, local, now);
      case DoMknod(parent, name, regular, listing, reply, local, upload, now) =>
        MknodAndLedger(nfc, fs, parent, name, regular, listing, reply, local, upload, now);
      case DoRename(srcParent, srcName, dstParent, dstName, listing, renamed) =>
        RenameFollows(nfc, fs, srcParent, srcName, dstParent, dstName, listing, renamed);
        SameIdsKeepLedger(fs, Do(nfc, fs, op));
      case DoRelease(ino, fh, upload) => ReleasingKeepsLedger(fs, ino, fh, upload);
      case DoTruncateZero(_, _, _, _) =>
        BareTruncationClosesItsId(nfc, fs, op);
        SameIdsKeepLedger(fs, Do(nfc, fs, op));
      case DoTruncateTo(_, _, _, _, _, _) =>
        BareTruncationClosesItsId(nfc, fs, op);
        SameIdsKeepLedger(fs, Do(nfc, fs, op));
      case DoFsync(ino, fh, synced, upload) => FsyncKeepsIds(fs, ino, fh, synced, upload);
      case _ => MarkingKeepsIds(nfc, fs, op);
    }
  }

  lemma LocalCreateLeaksNothing(nfc: string -> string, fs: Fs, parent: nat, name: string,
                                listing: Option<seq<ListEntry>>,
                                reply: Option<(string, HandleId)>, local: bool)
    ensures local ==> !LeaksCreating(nfc, fs, parent, name, listing, reply, local)
  {
  }

  /** Over every run without a failing local open, after every operation the
      engine holds exactly the ids of the open handles. */
  lemma {:induction false} RunKeepsLedger(nfc: string -> string, states: seq<Fs>, ops: seq<Op>, k: nat)
    requires Run(nfc, states, ops) && Ordered(states[0]) && Ledger(states[0]) && k <= |ops|
    requires forall i :: 0 <= i < |ops| ==> EngineKeepsTo(states[i], ops[i]) && !Leaks(nfc, states[i], ops[i])
    ensures Ledger(states[k])
  {
    hide Do, EngineKeepsTo, Leaks, Ledger;
    if k > 0 {
      RunKeepsLedger(nfc, states, ops, k - 1);
      RunKeepsOrder(nfc, states, ops, k - 1);
      assert Takes(nfc, states[k - 1], ops[k - 1], states[k]);
      OpKeepsLedger(nfc, states[k - 1], ops[k - 1]);
    }
  }

  lemma OpenFails()
    ensures var r := Open(FIRST_FILE, 2, false, false, Some(("/c/a", "")), false, 0).fs;
            && r.handles == FIRST_FILE.handles && r.world.registered == FIRST_FILE.world.registered + {Minted("rh", 2)}
  {
  }

  /** An id that leaks: a created file is opened again, the engine hydrates it, and the
      local open of the cache file fails. */
  lemma FailedOpenLeaks() returns (states: seq<Fs>, ops: seq<Op>)
    ensures |states| == 3 && ops == [CREATE_A, DoOpen(2, false, false, Some(("/c/a", "")), false, 0)]
    ensures Run(Plain, states, ops) && states[0] == NEW_MOUNT && Ledger(states[1])
    ensures states[2].handles == states[1].handles
    ensures states[2].world.registered == states[1].world.registered + {Minted("rh", 2)}
    ensures !Ledger(states[2])
  {
    FirstFileIsCreated();
    OpenFails();
    hide Open, Create;
    var open := DoOpen(2, false, false, Some(("/c/a", "")), false, 0);
    ops, states := [CREATE_A, open], [NEW_MOUNT, FIRST_FILE, Do(Plain, FIRST_FILE, open)];
    assert FIRST_FILE.handles[1].id == Given("h") && forall fh :: fh in FIRST_FILE.handles ==> fh == 1;
    assert OpenIds(FIRST_FILE.handles) == {Given("h")};
    assert Minted("rh", 2) in states[2].world.registered;
  }
}
