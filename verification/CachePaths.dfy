/** An open handle's cache path keeps mirroring its remote path below one base. */
module CachePaths {
  import opened PathText
  import opened PathMaps
  import opened MountState
  import opened MountRuns

  ghost predicate Mirrors(base: string, h: Handle) {
    h.cachePath == CacheOf(base, h.remotePath)
  }

  /** A rename keeps the base of a mirroring cache path, and leaves a cache path
      alone that does not end in the relative remote path. */
  lemma FollowKeepsBase(h: Handle, src: string, dst: string, base: string)
    ensures Mirrors(base, h) ==> Mirrors(base, FollowRename(h, src, dst))
    ensures !EndsWith(h.cachePath, TrimStart(h.remotePath)) ==> FollowRename(h, src, dst).cachePath == h.cachePath
    ensures FollowRename(h, src, dst).id == h.id && FollowRename(h, src, dst).dirty == h.dirty
  {
    if Mirrors(base, h) {
      var rel := TrimStart(h.remotePath);
      assert h.cachePath[|h.cachePath| - |rel|..] == rel;
      assert h.cachePath[..|h.cachePath| - |rel|] == base;
    }
  }

  /** Besides following a rename, a handle keeps its two paths while it is open,
      and a closed one does not come back. */
  ghost predicate KeepsHandle(h: Handle, fh: nat, fs': Fs) {
    fh in fs'.handles ==>
      var h' := fs'.handles[fh];
      (h'.remotePath == h.remotePath && h'.cachePath == h.cachePath) ||
      exists src, dst :: h' == FollowRename(h, src, dst)
  }

  lemma FileOpKeepsHandle(nfc: string -> string, fs: Fs, op: Op, fh: nat)
    requires KernelKeepsTo(fs, op) && fh < fs.nextFh
    requires op.DoOpen? || op.DoWrite? || op.DoFsync? || op.DoRelease? || op.DoTruncateHandle? || op.DoTruncateZero? ||
             op.DoTruncateTo?
    ensures var fs' := Do(nfc, fs, op);
            fs.nextFh <= fs'.nextFh && (fh in fs'.handles ==> fh in fs.handles && KeepsHandle(fs.handles[fh], fh, fs'))
  {
    hide Create, Rename, Lookup, Getattr, Readdir, Mkdir, Mknod, Remove, Applied, FollowRename, Patched, WithAttr,
         SizedAttrs, TruncateBareZero, TruncateBareTo;
    match op
    case DoTruncateZero(ino, begun, upload, now) => TruncateZeroLeaves(fs, ino, begun, upload, now);
    case DoTruncateTo(ino, size, content, local, upload, now) =>
      TruncateToLeaves(fs, ino, size, content, local, upload, now);
    case _ =>
  }

  lemma OpKeepsHandle(nfc: string -> string, fs: Fs, op: Op, fh: nat)
    requires NamesInv(fs.names) && KernelKeepsTo(fs, op) && fh < fs.nextFh
    ensures var fs' := Do(nfc, fs, op);
            fs.nextFh <= fs'.nextFh && (fh in fs'.handles ==> fh in fs.handles && KeepsHandle(fs.handles[fh], fh, fs'))
  {
    hide Create, Rename, Lookup, Getattr, Readdir, Mkdir, Open, Write, Fsync, TruncateHandle, TruncateBareZero,
         TruncateBareTo, Applied, Remove, FollowRename;
    if Quiet(op) {
      QuietLeavesHandles(nfc, fs, op);
    } else {
      match op
      case DoCreate(parent, name, listing, reply, local, now) =>
        CreateAddsHandle(nfc, fs, parent, name, listing, reply, local, now);
      case DoMknod(parent, name, _, listing, reply, local, _, now) =>
        CreateAddsHandle(nfc, fs, parent, name, listing, reply, local, now);
      case DoRename(srcParent, srcName, dstParent, dstName, listing, renamed) =>
        RenameFollows(nfc, fs, srcParent, srcName, dstParent, dstName, listing, renamed);
      case _ => FileOpKeepsHandle(nfc, fs, op, fh);
    }
  }

  /** Over every run, a handle whose cache path mirrors its remote path below
      `base` does so, below the same base, for as long as it is open. */
  lemma {:induction false} RunKeepsBase(nfc: string -> string, states: seq<Fs>, ops: seq<Op>, k: nat, fh: nat,
                                        base: string)
    requires Run(nfc, states, ops) && Ordered(states[0]) && k <= |ops|
    requires fh in states[0].handles && Mirrors(base, states[0].handles[fh])
    ensures states[0].nextFh <= states[k].nextFh
    ensures fh in states[k].handles ==> Mirrors(base, states[k].handles[fh])
    ensures fh !in states[k].handles ==> forall j :: k <= j <= |ops| ==> fh !in states[j].handles
    decreases k
  {
    hide Do, FollowRename;
    if k > 0 {
      RunKeepsBase(nfc, states, ops, k - 1, fh, base);
      RunKeepsOrder(nfc, states, ops, k - 1);
      assert Takes(nfc, states[k - 1], ops[k - 1], states[k]);
      OpKeepsHandle(nfc, states[k - 1], ops[k - 1], fh);
      if fh in states[k].handles {
        var h := states[k - 1].handles[fh];
        if src, dst :| states[k].handles[fh] == FollowRename(h, src, dst) {
          FollowKeepsBase(h, src, dst, base);
        }
      }
    }
    if fh !in states[k].handles {
      forall j | k <= j <= |ops| ensures fh !in states[j].handles {
        StaysClosed(nfc, states, ops, k, j, fh);
      }
    }
  }

  lemma {:induction false} StaysClosed(nfc: string -> string, states: seq<Fs>, ops: seq<Op>, k: nat, j: nat, fh: nat)
    requires Run(nfc, states, ops) && Ordered(states[0]) && k <= j <= |ops|
    requires fh < states[k].nextFh && fh !in states[k].handles
    ensures fh < states[j].nextFh && fh !in states[j].handles
    decreases j
  {
    hide Do;
    if k < j {
      StaysClosed(nfc, states, ops, k, j - 1, fh);
      RunKeepsOrder(nfc, states, ops, j - 1);
      assert Takes(nfc, states[j - 1], ops[j - 1], states[j]);
      OpKeepsHandle(nfc, states[j - 1], ops[j - 1], fh);
    }
  }
}
