/** The mount's operations are certain sequences of the interleaved steps, each upload
    with its end: what is proved of every interleaving holds of the mount. */
module DurableOperations {
  import opened Options
  import opened PathMaps
  import opened MountState
  import opened MountRuns
  import D = Durability

  /** `s` can become `s'` by steps. */
  ghost predicate Leads(s: D.Sys, steps: seq<D.Step>, s': D.Sys)
    decreases |steps|
  {
    if steps == [] then s' == s
    else
      var n := |steps| - 1;
      exists m :: Leads(s, steps[..n], m) && D.Takes(m, steps[n], s')
  }

  /** The part of the mount's state that the steps are about. */
  datatype Part = Part(handles: map<nat, Handle>, inodeOf: map<nat, nat>, files: map<nat, Bytes>,
                       cloud: map<nat, Bytes>, nextFh: nat)

  function PartOf(fs: Fs): Part {
    Part(fs.handles, fs.world.inodeOf, fs.world.files, fs.world.cloud, fs.nextFh)
  }

  /** The cache file holds `content`, and the cloud has `stored` of it, or nothing. */
  ghost predicate SameFile(f: D.File, content: Bytes, stored: Option<Bytes>) {
    && f.history != [] && f.history[|f.history| - 1] == content
    && (if 0 <= f.sent < |f.history| then stored == Some(f.history[f.sent]) else stored == None)
  }

  function StoredOf(p: Part, ino: nat): Option<Bytes> {
    if ino in p.cloud then Some(p.cloud[ino]) else None
  }

  /** The handles with their dirty bits, the cache files, and what the cloud has of
      them, are the same. */
  ghost predicate Sim(p: Part, s: D.Sys) {
    && s.nextFh == p.nextFh && s.handles.Keys == p.handles.Keys && s.files.Keys == p.files.Keys
    && p.cloud.Keys <= p.files.Keys
    && (forall fh :: fh in p.handles ==>
          fh in p.inodeOf && p.inodeOf[fh] in p.files && s.handles[fh] == D.Open(p.inodeOf[fh], p.handles[fh].dirty))
    && (forall ino :: ino in p.files ==> SameFile(s.files[ino], p.files[ino], StoredOf(p, ino)))
  }

  /** The same, with no upload under way. */
  ghost predicate Settled(p: Part, s: D.Sys) {
    Sim(p, s) && s.uploads == map[] && D.Inv(s)
  }

  // ---------------------------------------------------------------- the steps of an operation

  /** An upload from the engine's read to the end of the round trip. */
  function RoundTrip(id: nat, upload: Upload): seq<D.Step> {
    match upload
    case Stored => [D.EngineReads(id, 0), D.CloudGets(id), D.Finish(id, true)]
    case ReplyLost => [D.EngineReads(id, 0), D.CloudGets(id), D.Finish(id, false)]
    case Failed => [D.Finish(id, false)]
  }

  function WriteSteps(fs: Fs, ino: nat, fh: nat, offset: nat, data: Bytes, written: Option<nat>): seq<D.Step>
    requires written.Some? ==> written.value <= |data|
  {
    if fh !in fs.handles || written.None? then []
    else if written.value == 0 then [D.WriteNothing(fh)]
    else [D.Edit(fh, Patched(FileOf(fs.world, ino), offset, data[..written.value]))]
  }

  function FsyncSteps(fs: Fs, fh: nat, synced: bool, id: nat, upload: Upload): seq<D.Step> {
    if fh in fs.handles && synced && fs.handles[fh].dirty then [D.FsyncClaim(fh)] + RoundTrip(id, upload) else []
  }

  function ReleaseSteps(fs: Fs, fh: nat, id: nat, upload: Upload): seq<D.Step> {
    if fh !in fs.handles then []
    else [D.Release(fh)] + if fs.handles[fh].dirty then RoundTrip(id, upload) else []
  }

  function TruncateHandleSteps(fs: Fs, ino: nat, fh: nat, size: nat, local: bool): seq<D.Step> {
    if ino in fs.names.toPath && fh in fs.handles && local
    then [D.Edit(fh, Resized(FileOf(fs.world, ino), size))]
    else []
  }

  function TruncateZeroSteps(fs: Fs, ino: nat, begun: Option<string>, id: nat, upload: Upload): seq<D.Step> {
    if ino in fs.names.toPath && begun.Some? then [D.BareTruncate(ino, "", 0)] + RoundTrip(id, upload) else []
  }

  function HydrateSteps(fs: Fs, ino: nat, content: Bytes): seq<D.Step> {
    if ino !in fs.world.files then [D.Hydrate(ino, content, 0)]
    else if content == fs.world.files[ino] then []
    else [D.Rehydrate(ino, content, 0)]
  }

  function TruncateToSteps(fs: Fs, ino: nat, size: nat, reply: Option<(string, Bytes)>, local: bool, id: nat,
                           upload: Upload):
    seq<D.Step>
  {
    if ino !in fs.names.toPath || reply.None? then []
    else
      HydrateSteps(fs, ino, reply.value.1) +
      if local then [D.BareTruncate(ino, Resized(reply.value.1, size), 0)] + RoundTrip(id, upload) else []
  }

  function OpenFileSteps(fs: Fs, ino: nat, writable: bool, trunc: bool, reply: Option<(string, Bytes)>,
                         local: bool): seq<D.Step>
  {
    if ino !in fs.names.toPath || fs.names.toPath[ino] == "" || reply.None? then []
    else if writable && trunc then [if local then D.OpenEmptied(ino, 0) else D.OpenFails(ino, 0)]
    else HydrateSteps(fs, ino, reply.value.1) + if local then [D.OpenCached(ino)] else []
  }

  /** `created` is the state after the create, which opens a handle if it succeeds. */
  function CreateSteps(fs: Fs, created: Fs): seq<D.Step> {
    if created.nextFh == fs.nextFh || fs.nextFh !in created.world.inodeOf then []
    else [D.OpenEmptied(created.world.inodeOf[fs.nextFh], 0)]
  }

  function MknodSteps(nfc: string -> string, fs: Fs, op: Op, id: nat): seq<D.Step>
    requires op.DoMknod?
  {
    var created := Create(nfc, fs, op.parent, op.name, op.listing, op.reply, op.local, op.now);
    if !op.regular then []
    else if created.err != OK then CreateSteps(fs, created.fs)
    else CreateSteps(fs, created.fs) + [D.Release(fs.nextFh)] + RoundTrip(id, op.upload)
  }

  /** The steps that `op` is, with its outcomes, when the next upload is `id`. */
  function StepsOf(nfc: string -> string, fs: Fs, op: Op, id: nat): seq<D.Step>
    requires op.DoWrite? && op.written.Some? ==> op.written.value <= |op.data|
  {
    match op
    case DoOpen(ino, writable, trunc, hydrated, local, _) => OpenFileSteps(fs, ino, writable, trunc, hydrated, local)
    case DoWrite(ino, fh, offset, data, written, _) => WriteSteps(fs, ino, fh, offset, data, written)
    case DoFsync(_, fh, synced, upload) => FsyncSteps(fs, fh, synced, id, upload)
    case DoRelease(_, fh, upload) => ReleaseSteps(fs, fh, id, upload)
    case DoTruncateHandle(ino, fh, size, local, _) => TruncateHandleSteps(fs, ino, fh, size, local)
    case DoTruncateZero(ino, begun, upload, _) => TruncateZeroSteps(fs, ino, begun, id, upload)
    case DoTruncateTo(ino, size, content, local, upload, _) =>
      TruncateToSteps(fs, ino, size, content, local, id, upload)
    case DoCreate(parent, name, listing, reply, local, now) =>
      CreateSteps(fs, Create(nfc, fs, parent, name, listing, reply, local, now).fs)
    case DoMknod(_, _, _, _, _, _, _, _) => MknodSteps(nfc, fs, op, id)
    case _ => []
  }

  lemma Extended(s: D.Sys, steps: seq<D.Step>, m: D.Sys, step: D.Step, s': D.Sys)
    requires Leads(s, steps, m) && D.Takes(m, step, s')
    ensures Leads(s, steps + [step], s')
  {
    hide D.Takes;
    assert (steps + [step])[..|steps|] == steps;
  }

  lemma Then(s: D.Sys, before: seq<D.Step>, m: D.Sys, step: D.Step) returns (s': D.Sys)
    requires Leads(s, before, m) && D.Inv(m) && D.Enabled(m, step)
    ensures Leads(s, before + [step], s') && s' == D.Next(m, step) && D.Inv(s')
  {
    hide D.Next, D.Enabled, D.Inv;
    s' := D.Next(m, step);
    D.StepKeepsInv(m, step);
    Extended(s, before, m, step, s');
  }

  lemma One(s: D.Sys, step: D.Step) returns (s': D.Sys)
    requires D.Inv(s) && D.Enabled(s, step)
    ensures Leads(s, [step], s') && s' == D.Next(s, step) && D.Inv(s')
  {
    s' := Then(s, [], s, step);
    assert [] + [step] == [step];
  }

  lemma Joined(s: D.Sys, before: seq<D.Step>, m: D.Sys, after: seq<D.Step>, s': D.Sys)
    requires Leads(s, before, m) && Leads(m, after, s')
    ensures Leads(s, before + after, s')
    decreases |after|
  {
    hide D.Takes;
    if after == [] {
      assert before + after == before;
    } else {
      var n := |after| - 1;
      var m': D.Sys :| Leads(m, after[..n], m') && D.Takes(m', after[n], s');
      Joined(s, before, m, after[..n], m');
      Extended(s, before + after[..n], m', after[n], s');
      assert before + after == before + after[..n] + [after[n]];
    }
  }

  // ---------------------------------------------------------------- what each step does to that part

  function Marked(p: Part, fh: nat, dirty: bool): Part
    requires fh in p.handles
  {
    p.(handles := p.handles[fh := p.handles[fh].(dirty := dirty)])
  }

  function WithFile(p: Part, ino: nat, content: Bytes): Part {
    p.(files := p.files[ino := content])
  }

  function WithNew(p: Part, ino: nat, h: Handle): Part {
    p.(handles := p.handles[p.nextFh := h], inodeOf := p.inodeOf[p.nextFh := ino], nextFh := p.nextFh + 1)
  }

  function WithCloud(p: Part, ino: nat): Part
    requires ino in p.files
  {
    p.(cloud := p.cloud[ino := p.files[ino]])
  }

  function Dropped(p: Part, fh: nat): Part {
    p.(handles := p.handles - {fh}, inodeOf := p.inodeOf - {fh})
  }

  /** A changed file holds its new content, and the cloud what it had. */
  lemma ChangedIsSame(p: Part, s: D.Sys, ino: nat, content: Bytes, who: D.Author)
    requires Sim(p, s) && D.Inv(s)
    ensures SameFile(D.Changed(s, ino, content, who, 0), content, StoredOf(p, ino))
  {
    if ino in s.files {
      SentIsKnown(s, ino);
      assert SameFile(s.files[ino], p.files[ino], StoredOf(p, ino));
    }
  }

  lemma SyncedIsSame(f: D.File, content: Bytes, stored: Option<Bytes>, stamp: nat)
    requires SameFile(f, content, stored)
    ensures SameFile(f.Synced(f.Last(), stamp), content, Some(content))
  {
  }

  lemma EditStep(p: Part, s: D.Sys, fh: nat, content: Bytes)
    requires Sim(p, s) && fh in p.handles && D.Inv(s)
    ensures D.Enabled(s, D.Edit(fh, content))
    ensures Sim(WithFile(Marked(p, fh, true), p.inodeOf[fh], content), D.Next(s, D.Edit(fh, content)))
  {
    hide D.Inv, SameFile;
    ChangedIsSame(p, s, p.inodeOf[fh], content, D.ByHandle(fh));
  }

  lemma SentIsKnown(s: D.Sys, file: nat)
    requires D.Inv(s) && file in s.files
    ensures -1 <= s.files[file].sent <= s.files[file].Last() && 0 <= s.files[file].Last()
  {
    assert D.ValidFile(s.files[file], s.clock);
  }

  lemma MarkStep(p: Part, s: D.Sys, fh: nat)
    requires Sim(p, s) && fh in p.handles
    ensures D.Enabled(s, D.WriteNothing(fh)) && Sim(Marked(p, fh, true), D.Next(s, D.WriteNothing(fh)))
  {
    hide SameFile;
  }

  /** An upload that has been claimed and not read yet. */
  ghost predicate Pending(s: D.Sys, id: nat, file: nat) {
    s.uploads.Keys == {id} && s.uploads[id].file == file && s.uploads[id].read < 0 && file in s.files
  }

  lemma ReleaseStep(p: Part, s: D.Sys, fh: nat)
    requires Sim(p, s) && fh in p.handles && s.uploads == map[]
    ensures D.Enabled(s, D.Release(fh)) && Sim(Dropped(p, fh), D.Next(s, D.Release(fh)))
    ensures var s' := D.Next(s, D.Release(fh));
            if p.handles[fh].dirty then Pending(s', s.nextUpload, p.inodeOf[fh]) && s'.uploads[s.nextUpload].kind.Final?
            else s'.uploads == map[]
  {
    hide SameFile;
  }

  lemma ClaimStep(p: Part, s: D.Sys, fh: nat)
    requires Sim(p, s) && fh in p.handles && p.handles[fh].dirty && s.uploads == map[]
    ensures D.Enabled(s, D.FsyncClaim(fh)) && Sim(Marked(p, fh, false), D.Next(s, D.FsyncClaim(fh)))
    ensures var s' := D.Next(s, D.FsyncClaim(fh));
            && Pending(s', s.nextUpload, p.inodeOf[fh])
            && s'.uploads[s.nextUpload].kind.OfFsync? && s'.uploads[s.nextUpload].author == D.ByHandle(fh)
  {
    hide SameFile;
  }

  lemma ReadStep(p: Part, s: D.Sys, id: nat, ino: nat)
    requires Sim(p, s) && Pending(s, id, ino)
    ensures D.Enabled(s, D.EngineReads(id, 0))
    ensures var s' := D.Next(s, D.EngineReads(id, 0));
            && Sim(p, s') && s'.uploads.Keys == {id} && s'.files == s.files
            && s'.uploads[id].read == s.files[ino].Last()
            && s'.uploads[id].file == ino && s'.uploads[id].kind == s.uploads[id].kind
            && s'.uploads[id].author == s.uploads[id].author
  {
    hide SameFile;
  }

  lemma StoreStep(p: Part, s: D.Sys, id: nat, ino: nat)
    requires Sim(p, s) && s.uploads.Keys == {id} && s.uploads[id].file == ino && ino in p.files
    requires s.uploads[id].read == s.files[ino].Last()
    ensures D.Enabled(s, D.CloudGets(id))
    ensures var s' := D.Next(s, D.CloudGets(id));
            && Sim(WithCloud(p, ino), s') && s'.uploads.Keys == {id} && s'.uploads[id].stored
            && s'.uploads[id].file == ino && s'.uploads[id].kind == s.uploads[id].kind
            && s'.uploads[id].author == s.uploads[id].author
  {
    hide SameFile;
    SyncedIsSame(s.files[ino], p.files[ino], StoredOf(p, ino), s.uploads[id].stamp);
  }

  /** The end of a round trip that nothing will repeat, or that went well. */
  lemma EndStep(p: Part, s: D.Sys, id: nat, ok: bool)
    requires Sim(p, s) && s.uploads.Keys == {id} && (if ok then s.uploads[id].stored else s.uploads[id].kind.Final?)
    ensures D.Enabled(s, D.Finish(id, ok)) && Sim(p, D.Next(s, D.Finish(id, ok)))
    ensures D.Next(s, D.Finish(id, ok)).uploads == map[]
  {
    hide SameFile;
  }

  /** The end of an fsync's round trip that failed. */
  lemma FailStep(p: Part, s: D.Sys, id: nat, fh: nat)
    requires Sim(p, s) && s.uploads.Keys == {id} && fh in p.handles
    requires s.uploads[id].kind.OfFsync? && s.uploads[id].author == D.ByHandle(fh)
    ensures D.Enabled(s, D.Finish(id, false)) && Sim(Marked(p, fh, true), D.Next(s, D.Finish(id, false)))
    ensures D.Next(s, D.Finish(id, false)).uploads == map[]
  {
    hide SameFile;
  }

  lemma EmptyStep(p: Part, s: D.Sys, ino: nat)
    requires Sim(p, s) && D.Inv(s)
    ensures D.Enabled(s, D.OpenFails(ino, 0)) && Sim(WithFile(p, ino, ""), D.Next(s, D.OpenFails(ino, 0)))
    ensures D.Next(s, D.OpenFails(ino, 0)).uploads == s.uploads
  {
    hide D.Inv, SameFile, D.Changed;
    ChangedIsSame(p, s, ino, "", D.ByUpload(s.nextUpload));
  }

  lemma TruncateStep(p: Part, s: D.Sys, ino: nat, content: Bytes)
    requires Sim(p, s) && D.Inv(s) && s.uploads == map[]
    ensures var step := D.BareTruncate(ino, content, 0);
            && D.Enabled(s, step) && Sim(WithFile(p, ino, content), D.Next(s, step))
            && Pending(D.Next(s, step), s.nextUpload, ino) && D.Next(s, step).uploads[s.nextUpload].kind.Final?
  {
    hide D.Inv, SameFile, D.Changed;
    ChangedIsSame(p, s, ino, content, D.ByUpload(s.nextUpload));
  }

  lemma HydrateStep(p: Part, s: D.Sys, ino: nat, content: Bytes)
    requires Sim(p, s) && ino !in p.files
    ensures var step := D.Hydrate(ino, content, 0);
            && D.Enabled(s, step) && Sim(WithCloud(WithFile(p, ino, content), ino), D.Next(s, step))
            && D.Next(s, step).uploads == s.uploads
  {
    assert SameFile(D.File([content], [D.Engine], 0, s.clock, 0), content, Some(content));
    hide SameFile;
  }

  lemma RehydrateStep(p: Part, s: D.Sys, ino: nat, content: Bytes)
    requires Sim(p, s) && s.uploads == map[] && ino in p.files && ino in p.cloud && p.cloud[ino] == p.files[ino]
    ensures var step := D.Rehydrate(ino, content, 0);
            && D.Enabled(s, step) && Sim(WithCloud(WithFile(p, ino, content), ino), D.Next(s, step))
            && D.Next(s, step).uploads == s.uploads
  {
    hide SameFile;
    ReplacedIsSame(s.files[ino], p.files[ino], content, 0, s.clock);
  }

  lemma ReplacedIsSame(f: D.File, was: Bytes, content: Bytes, stamp: nat, now: nat)
    requires SameFile(f, was, Some(was))
    ensures f.Stored() && SameFile(f.Replaced(content, stamp, now), content, Some(content))
  {
  }

  lemma CachedStep(p: Part, s: D.Sys, ino: nat, h: Handle)
    requires Sim(p, s) && ino in p.files && !h.dirty
    ensures D.Enabled(s, D.OpenCached(ino)) && Sim(WithNew(p, ino, h), D.Next(s, D.OpenCached(ino)))
    ensures D.Next(s, D.OpenCached(ino)).uploads == s.uploads
  {
    hide SameFile;
  }

  lemma EmptiedStep(p: Part, s: D.Sys, ino: nat, h: Handle)
    requires Sim(p, s) && D.Inv(s) && h.dirty
    ensures var step := D.OpenEmptied(ino, 0);
            && D.Enabled(s, step) && Sim(WithNew(WithFile(p, ino, ""), ino, h), D.Next(s, step))
            && D.Next(s, step).uploads == s.uploads
  {
    hide D.Inv, SameFile, D.Changed;
    ChangedIsSame(p, s, ino, "", D.ByHandle(s.nextFh));
  }

  // ---------------------------------------------------------------- round trips

  /** The engine reads the file and the cloud gets it. */
  lemma StoredSteps(p: Part, s: D.Sys, id: nat, ino: nat) returns (s': D.Sys)
    requires Sim(p, s) && D.Inv(s) && Pending(s, id, ino)
    ensures Leads(s, [D.EngineReads(id, 0), D.CloudGets(id)], s') && D.Inv(s') && ino in p.files
    ensures Sim(WithCloud(p, ino), s')
    ensures s'.uploads.Keys == {id} && s'.uploads[id].stored
    ensures s'.uploads[id].kind == s.uploads[id].kind && s'.uploads[id].author == s.uploads[id].author
  {
    hide D.Inv, D.Next, D.Enabled, SameFile;
    ReadStep(p, s, id, ino);
    s' := One(s, D.EngineReads(id, 0));
    StoreStep(p, s', id, ino);
    s' := Then(s, [D.EngineReads(id, 0)], s', D.CloudGets(id));
    assert [D.EngineReads(id, 0)] + [D.CloudGets(id)] == [D.EngineReads(id, 0), D.CloudGets(id)];
  }

  function AfterUpload(p: Part, ino: nat, upload: Upload): Part
    requires ino in p.files
  {
    if upload.Failed? then p else WithCloud(p, ino)
  }

  /** A round trip nothing will repeat. */
  lemma FinalRoundTrip(p: Part, s: D.Sys, id: nat, ino: nat, upload: Upload) returns (s': D.Sys)
    requires Sim(p, s) && D.Inv(s) && Pending(s, id, ino) && s.uploads[id].kind.Final?
    ensures Leads(s, RoundTrip(id, upload), s') && ino in p.files && Settled(AfterUpload(p, ino, upload), s')
  {
    hide D.Inv, D.Next, D.Enabled, Sim, WithCloud;
    if upload.Failed? {
      EndStep(p, s, id, false);
      s' := One(s, D.Finish(id, false));
      assert ino in p.files by { FilesAgree(p, s); }
    } else {
      var m := StoredSteps(p, s, id, ino);
      EndStep(WithCloud(p, ino), m, id, upload.Stored?);
      s' := Then(s, [D.EngineReads(id, 0), D.CloudGets(id)], m, D.Finish(id, upload.Stored?));
      assert [D.EngineReads(id, 0), D.CloudGets(id)] + [D.Finish(id, upload.Stored?)] == RoundTrip(id, upload);
    }
  }

  lemma FilesAgree(p: Part, s: D.Sys)
    requires Sim(p, s)
    ensures s.files.Keys == p.files.Keys
  {
  }

  /** An fsync's round trip. */
  lemma FsyncRoundTrip(p: Part, s: D.Sys, id: nat, ino: nat, fh: nat, upload: Upload) returns (s': D.Sys)
    requires Sim(p, s) && D.Inv(s) && Pending(s, id, ino) && fh in p.handles
    requires s.uploads[id].kind.OfFsync? && s.uploads[id].author == D.ByHandle(fh)
    ensures Leads(s, RoundTrip(id, upload), s') && ino in p.files
    ensures var after := AfterUpload(p, ino, upload);
            Settled(if upload.Stored? then after else Marked(after, fh, true), s')
  {
    hide D.Inv, D.Next, D.Enabled, Sim;
    if upload.Failed? {
      FailStep(p, s, id, fh);
      s' := One(s, D.Finish(id, false));
      assert ino in p.files by { FilesAgree(p, s); }
    } else {
      var m := StoredSteps(p, s, id, ino);
      if upload.Stored? {
        EndStep(WithCloud(p, ino), m, id, true);
      } else {
        FailStep(WithCloud(p, ino), m, id, fh);
      }
      s' := Then(s, [D.EngineReads(id, 0), D.CloudGets(id)], m, D.Finish(id, upload.Stored?));
      assert [D.EngineReads(id, 0), D.CloudGets(id)] + [D.Finish(id, upload.Stored?)] == RoundTrip(id, upload);
    }
  }

  // ---------------------------------------------------------------- the operations

  lemma NothingPatched(file: Bytes, offset: nat)
    ensures Patched(file, offset, "") == file
  {
  }

  lemma KnownFile(p: Part, s: D.Sys, fh: nat)
    requires Sim(p, s) && fh in p.handles
    ensures fh in p.inodeOf && p.inodeOf[fh] in p.files && WithFile(p, p.inodeOf[fh], p.files[p.inodeOf[fh]]) == p
  {
  }

  lemma WriteIsSteps(fs: Fs, s: D.Sys, ino: nat, fh: nat, offset: nat, data: Bytes, written: Option<nat>, now: int)
    returns (s': D.Sys)
    requires Settled(PartOf(fs), s) && (written.Some? ==> written.value <= |data|)
    requires fh in fs.world.inodeOf ==> fs.world.inodeOf[fh] == ino
    ensures Leads(s, WriteSteps(fs, ino, fh, offset, data, written), s')
    ensures Settled(PartOf(Write(fs, ino, fh, offset, data, written, now).fs), s')
  {
    hide Patched, D.Inv, D.Next, D.Enabled, Sim, WithAttr;
    s' := s;
    if fh in fs.handles && written.Some? {
      var p, content := PartOf(fs), Patched(FileOf(fs.world, ino), offset, data[..written.value]);
      KnownFile(p, s, fh);
      if written.value == 0 {
        NothingPatched(FileOf(fs.world, ino), offset);
        MarkStep(p, s, fh);
        NoUpload(s, D.WriteNothing(fh));
        s' := One(s, D.WriteNothing(fh));
        assert PartOf(Write(fs, ino, fh, offset, data, written, now).fs) == Marked(p, fh, true);
      } else {
        EditStep(p, s, fh, content);
        NoUpload(s, D.Edit(fh, content));
        s' := One(s, D.Edit(fh, content));
      }
    }
  }

  lemma NoUpload(s: D.Sys, step: D.Step)
    requires D.Enabled(s, step) && (step.Edit? || step.WriteNothing?)
    ensures D.Next(s, step).uploads == s.uploads
  {
  }

  lemma FsyncIsSteps(fs: Fs, s: D.Sys, ino: nat, fh: nat, synced: bool, upload: Upload) returns (s': D.Sys)
    requires Settled(PartOf(fs), s) && (fh in fs.world.inodeOf ==> fs.world.inodeOf[fh] == ino)
    ensures Leads(s, FsyncSteps(fs, fh, synced, s.nextUpload, upload), s')
    ensures Settled(PartOf(Fsync(fs, ino, fh, synced, upload).fs), s')
  {
    hide D.Inv, D.Next, D.Enabled, Sim, RoundTrip;
    s' := s;
    if fh in fs.handles && synced && fs.handles[fh].dirty {
      var p, id := PartOf(fs), s.nextUpload;
      KnownFile(p, s, fh);
      ClaimStep(p, s, fh);
      var m := One(s, D.FsyncClaim(fh));
      s' := FsyncRoundTrip(Marked(p, fh, false), m, id, ino, fh, upload);
      Joined(s, [D.FsyncClaim(fh)], m, RoundTrip(id, upload), s');
      var h := p.handles[fh].(dirty := false);
      assert p.handles[fh := h][fh := h.(dirty := true)] == p.handles;
    }
  }

  lemma ReleaseIsSteps(fs: Fs, s: D.Sys, ino: nat, fh: nat, upload: Upload) returns (s': D.Sys)
    requires Settled(PartOf(fs), s) && (fh in fs.world.inodeOf ==> fs.world.inodeOf[fh] == ino)
    ensures Leads(s, ReleaseSteps(fs, fh, s.nextUpload, upload), s')
    ensures Settled(PartOf(Release(fs, ino, fh, upload)), s')
  {
    hide D.Inv, D.Next, D.Enabled, Sim, RoundTrip;
    s' := s;
    if fh in fs.handles {
      var p, id := PartOf(fs), s.nextUpload;
      KnownFile(p, s, fh);
      ReleaseStep(p, s, fh);
      s' := One(s, D.Release(fh));
      if fs.handles[fh].dirty {
        var m := s';
        s' := FinalRoundTrip(Dropped(p, fh), m, id, ino, upload);
        Joined(s, [D.Release(fh)], m, RoundTrip(id, upload), s');
      } else {
        assert [D.Release(fh)] + [] == [D.Release(fh)];
      }
    }
  }

  lemma TruncateHandleIsSteps(fs: Fs, s: D.Sys, ino: nat, fh: nat, size: nat, local: bool, now: int) returns (s': D.Sys)
    requires Settled(PartOf(fs), s) && (fh in fs.world.inodeOf ==> fs.world.inodeOf[fh] == ino)
    ensures Leads(s, TruncateHandleSteps(fs, ino, fh, size, local), s')
    ensures Settled(PartOf(TruncateHandle(fs, ino, fh, size, local, now).fs), s')
  {
    hide Resized, SizedAttrs, D.Inv, D.Next, D.Enabled, Sim;
    s' := s;
    if ino in fs.names.toPath && fh in fs.handles && local {
      var content := Resized(FileOf(fs.world, ino), size);
      KnownFile(PartOf(fs), s, fh);
      EditStep(PartOf(fs), s, fh, content);
      NoUpload(s, D.Edit(fh, content));
      s' := One(s, D.Edit(fh, content));
    }
  }

  /** A truncation without a handle, with its upload. */
  lemma BareTruncationIsSteps(p: Part, s: D.Sys, ino: nat, content: Bytes, upload: Upload) returns (s': D.Sys)
    requires Settled(p, s)
    ensures Leads(s, [D.BareTruncate(ino, content, 0)] + RoundTrip(s.nextUpload, upload), s')
    ensures Settled(AfterUpload(WithFile(p, ino, content), ino, upload), s')
  {
    hide D.Inv, D.Next, D.Enabled, Sim, RoundTrip;
    TruncateStep(p, s, ino, content);
    var m := One(s, D.BareTruncate(ino, content, 0));
    s' := FinalRoundTrip(WithFile(p, ino, content), m, s.nextUpload, ino, upload);
    Joined(s, [D.BareTruncate(ino, content, 0)], m, RoundTrip(s.nextUpload, upload), s');
  }

  lemma TruncateZeroIsSteps(fs: Fs, s: D.Sys, ino: nat, begun: Option<string>, upload: Upload,
                            now: int) returns (s': D.Sys)
    requires Settled(PartOf(fs), s)
    ensures Leads(s, TruncateZeroSteps(fs, ino, begun, s.nextUpload, upload), s')
    ensures Settled(PartOf(TruncateBareZero(fs, ino, begun, upload, now).fs), s')
  {
    hide D.Inv, D.Next, D.Enabled, Sim, RoundTrip, SizedAttrs;
    s' := s;
    if ino in fs.names.toPath && begun.Some? {
      s' := BareTruncationIsSteps(PartOf(fs), s, ino, "", upload);
    }
  }

  /** The file with what the engine makes it hold; what it puts in the cache anew is
      what the cloud has. */
  function HydratedPart(p: Part, ino: nat, content: Bytes): Part {
    if ino in p.files && content == p.files[ino] then p else WithCloud(WithFile(p, ino, content), ino)
  }

  lemma HydratedIsPart(w: World, ino: nat, path: string, content: Bytes)
    requires MayHold(w, ino, content)
    ensures var r := Hydrated(w, ino, path, content);
            && r.inodeOf == w.inodeOf && r.files == w.files[ino := content]
            && (if ino in w.files && content == w.files[ino] then r.files == w.files && r.cloud == w.cloud
                else r.cloud == w.cloud[ino := content])
  {
  }

  lemma HydrateIsSteps(fs: Fs, s: D.Sys, ino: nat, content: Bytes) returns (s': D.Sys)
    requires Settled(PartOf(fs), s) && MayHold(fs.world, ino, content)
    ensures Leads(s, HydrateSteps(fs, ino, content), s') && Settled(HydratedPart(PartOf(fs), ino, content), s')
    ensures s'.nextUpload == s.nextUpload
  {
    hide D.Inv, D.Enabled, Sim;
    s' := s;
    if ino !in fs.world.files {
      HydrateStep(PartOf(fs), s, ino, content);
      s' := One(s, D.Hydrate(ino, content, 0));
    } else if content != fs.world.files[ino] {
      RehydrateStep(PartOf(fs), s, ino, content);
      s' := One(s, D.Rehydrate(ino, content, 0));
    }
  }

  lemma NoSteps(s: D.Sys)
    ensures Leads(s, [], s)
  {
  }

  lemma TruncateToPart(fs: Fs, ino: nat, size: nat, reply: Option<(string, Bytes)>, local: bool, upload: Upload,
                       now: int)
    requires ino in fs.names.toPath && reply.Some? && MayHold(fs.world, ino, reply.value.1)
    ensures var r := PartOf(TruncateBareTo(fs, ino, size, reply, local, upload, now).fs);
            var p := HydratedPart(PartOf(fs), ino, reply.value.1);
            r == if local then AfterUpload(WithFile(p, ino, Resized(reply.value.1, size)), ino, upload) else p
  {
    hide Resized, SizedAttrs, Hydrated, MayHold, SentTo;
    HydratedIsPart(fs.world, ino, fs.names.toPath[ino], reply.value.1);
    var p, content := HydratedPart(PartOf(fs), ino, reply.value.1), Resized(reply.value.1, size);
    assert p.files[ino := content] == fs.world.files[ino := content];
  }

  lemma TruncateToIsSteps(fs: Fs, s: D.Sys, ino: nat, size: nat, reply: Option<(string, Bytes)>, local: bool,
                          upload: Upload, now: int)
    returns (s': D.Sys)
    requires Settled(PartOf(fs), s) && (reply.Some? ==> MayHold(fs.world, ino, reply.value.1))
    ensures Leads(s, TruncateToSteps(fs, ino, size, reply, local, s.nextUpload, upload), s')
    ensures Settled(PartOf(TruncateBareTo(fs, ino, size, reply, local, upload, now).fs), s')
  {
    hide Resized, Leads, Settled, RoundTrip, HydrateSteps, MayHold, HydratedPart, SizedAttrs, Hydrated, UploadedOrTold;
    s' := s;
    if ino in fs.names.toPath && reply.Some? {
      hide TruncateBareTo, PartOf;
      var p, content := HydratedPart(PartOf(fs), ino, reply.value.1), Resized(reply.value.1, size);
      TruncateToPart(fs, ino, size, reply, local, upload, now);
      var m := HydrateIsSteps(fs, s, ino, reply.value.1);
      s' := m;
      if local {
        s' := BareTruncationIsSteps(p, m, ino, content, upload);
        Joined(s, HydrateSteps(fs, ino, reply.value.1), m,
               [D.BareTruncate(ino, content, 0)] + RoundTrip(s.nextUpload, upload), s');
      } else {
        assert HydrateSteps(fs, ino, reply.value.1) + [] == HydrateSteps(fs, ino, reply.value.1);
      }
    } else {
      NoSteps(s);
    }
  }

  lemma TruncatingOpenIsSteps(fs: Fs, s: D.Sys, ino: nat, reply: Option<(string, Bytes)>, local: bool,
                              now: int) returns (s': D.Sys)
    requires Settled(PartOf(fs), s)
    ensures Leads(s, OpenFileSteps(fs, ino, true, true, reply, local), s')
    ensures Settled(PartOf(Open(fs, ino, true, true, reply, local, now).fs), s')
  {
    hide WithAttr, D.Inv, D.Next, D.Enabled, Sim;
    s' := s;
    if ino in fs.names.toPath && fs.names.toPath[ino] != "" && reply.Some? {
      if local {
        EmptiedStep(PartOf(fs), s, ino, Handle(Minted("wh", fs.nextId), fs.names.toPath[ino], reply.value.0, true));
        s' := One(s, D.OpenEmptied(ino, 0));
      } else {
        EmptyStep(PartOf(fs), s, ino);
        s' := One(s, D.OpenFails(ino, 0));
      }
    }
  }

  function CleanHandle(fs: Fs, ino: nat, writable: bool, cachePath: string): Handle
    requires ino in fs.names.toPath
  {
    Handle(Minted(if writable then "wh" else "rh", fs.nextId), fs.names.toPath[ino], cachePath, false)
  }

  /** What an open that truncates nothing makes of the part. */
  lemma PlainOpenPart(fs: Fs, ino: nat, writable: bool, trunc: bool, reply: Option<(string, Bytes)>, local: bool,
                      now: int)
    requires !(writable && trunc) && ino in fs.names.toPath && fs.names.toPath[ino] != "" && reply.Some?
    requires MayHold(fs.world, ino, reply.value.1)
    ensures var r := PartOf(Open(fs, ino, writable, trunc, reply, local, now).fs);
            var p := HydratedPart(PartOf(fs), ino, reply.value.1);
            if local then r == WithNew(p, ino, CleanHandle(fs, ino, writable, reply.value.0)) else r == p
  {
    hide WithAttr, Hydrated, MayHold;
    HydratedIsPart(fs.world, ino, fs.names.toPath[ino], reply.value.1);
  }

  lemma PlainOpenIsSteps(fs: Fs, s: D.Sys, ino: nat, writable: bool, trunc: bool, reply: Option<(string, Bytes)>,
                         local: bool, now: int)
    returns (s': D.Sys)
    requires Settled(PartOf(fs), s) && EngineHydrates(fs, DoOpen(ino, writable, trunc, reply, local, now))
    requires !(writable && trunc) && ino in fs.names.toPath && fs.names.toPath[ino] != "" && reply.Some?
    ensures Leads(s, OpenFileSteps(fs, ino, writable, trunc, reply, local), s')
    ensures Settled(PartOf(Open(fs, ino, writable, trunc, reply, local, now).fs), s')
  {
    hide Open, D.Inv, D.Next, D.Enabled, Sim, HydrateSteps, HydratedPart, PartOf;
    PlainOpenPart(fs, ino, writable, trunc, reply, local, now);
    var p, before := HydratedPart(PartOf(fs), ino, reply.value.1), HydrateSteps(fs, ino, reply.value.1);
    var m := HydrateIsSteps(fs, s, ino, reply.value.1);
    s' := m;
    if local {
      HydratedHas(PartOf(fs), ino, reply.value.1);
      CachedStep(p, m, ino, CleanHandle(fs, ino, writable, reply.value.0));
      s' := Then(s, before, m, D.OpenCached(ino));
    } else {
      assert before + [] == before;
    }
  }

  lemma HydratedHas(p: Part, ino: nat, content: Bytes)
    ensures ino in HydratedPart(p, ino, content).files
  {
  }

  lemma OpenIsSteps(fs: Fs, s: D.Sys, ino: nat, writable: bool, trunc: bool, reply: Option<(string, Bytes)>,
                    local: bool, now: int)
    returns (s': D.Sys)
    requires Settled(PartOf(fs), s) && EngineHydrates(fs, DoOpen(ino, writable, trunc, reply, local, now))
    ensures Leads(s, OpenFileSteps(fs, ino, writable, trunc, reply, local), s')
    ensures Settled(PartOf(Open(fs, ino, writable, trunc, reply, local, now).fs), s')
  {
    hide Settled, WithAttr;
    if writable && trunc {
      s' := TruncatingOpenIsSteps(fs, s, ino, reply, local, now);
    } else if ino in fs.names.toPath && fs.names.toPath[ino] != "" && reply.Some? {
      s' := PlainOpenIsSteps(fs, s, ino, writable, trunc, reply, local, now);
    } else {
      s' := s;
    }
  }

  lemma CreateIsSteps(nfc: string -> string, fs: Fs, s: D.Sys, parent: nat, name: string,
                      listing: Option<seq<ListEntry>>,
                      reply: Option<(string, HandleId)>, local: bool, now: int)
    returns (s': D.Sys)
    requires NamesInv(fs.names) && Settled(PartOf(fs), s)
    ensures var r := Create(nfc, fs, parent, name, listing, reply, local, now).fs;
            Leads(s, CreateSteps(fs, r), s') && Settled(PartOf(r), s') && s'.nextUpload == s.nextUpload
  {
    hide Create, D.Inv, D.Enabled, Sim;
    s' := s;
    CreateAddsHandle(nfc, fs, parent, name, listing, reply, local, now);
    var r, p := Create(nfc, fs, parent, name, listing, reply, local, now), PartOf(fs);
    if r.err == OK {
      var ino: nat, h: Handle :| h.id == reply.value.1 && FileCreated(fs, ino, h, now, r.fs);
      EmptiedStep(p, s, ino, h);
      s' := One(s, D.OpenEmptied(ino, 0));
      assert PartOf(r.fs) == WithNew(WithFile(p, ino, ""), ino, h);
    } else {
      assert PartOf(r.fs) == p;
    }
  }

  lemma MknodIsSteps(nfc: string -> string, fs: Fs, s: D.Sys, op: Op) returns (s': D.Sys)
    requires NamesInv(fs.names) && Settled(PartOf(fs), s) && op.DoMknod? && KernelKeepsTo(fs, op)
    ensures Leads(s, MknodSteps(nfc, fs, op, s.nextUpload), s')
    ensures Settled(PartOf(Do(nfc, fs, op)), s')
  {
    hide Create, Release, CreateSteps, Leads, Settled, PartOf, RoundTrip, NothingCreated, NamesInv;
    s' := s;
    if op.regular {
      var created := Create(nfc, fs, op.parent, op.name, op.listing, op.reply, op.local, op.now);
      s' := CreateIsSteps(nfc, fs, s, op.parent, op.name, op.listing, op.reply, op.local, op.now);
      if created.err == OK {
        CreateAddsHandle(nfc, fs, op.parent, op.name, op.listing, op.reply, op.local, op.now);
        var m, fh := s', created.fs.nextFh - 1;
        s' := ReleaseIsSteps(created.fs, m, created.fs.world.inodeOf[fh], fh, op.upload);
        Joined(s, CreateSteps(fs, created.fs), m, ReleaseSteps(created.fs, fh, s.nextUpload, op.upload), s');
        assert CreateSteps(fs, created.fs) + ([D.Release(fh)] + RoundTrip(s.nextUpload, op.upload)) ==
               CreateSteps(fs, created.fs) + [D.Release(fh)] + RoundTrip(s.nextUpload, op.upload);
      }
    } else {
      NoSteps(s);
    }
  }

  lemma FollowingIsNoStep(p: Part, s: D.Sys, src: string, dst: string)
    requires Sim(p, s)
    ensures Sim(p.(handles := Followed(p.handles, src, dst)), s)
  {
    hide FollowRename, SameFile;
    FollowKeepsDirt(p.handles, src, dst);
  }

  /** Every operation of the mount is its steps, each upload ending among them; they
      leave the handles, the dirty bits, the cache files and what the cloud has of
      them as the operation does. */
  lemma OpIsSteps(nfc: string -> string, fs: Fs, s: D.Sys, op: Op) returns (s': D.Sys)
    requires NamesInv(fs.names) && Settled(PartOf(fs), s) && KernelKeepsTo(fs, op) && EngineHydrates(fs, op)
    ensures Leads(s, StepsOf(nfc, fs, op, s.nextUpload), s') && Settled(PartOf(Do(nfc, fs, op)), s')
  {
    hide Create, Mknod, Rename, Lookup, Getattr, Readdir, Mkdir, Open, Write, Fsync, TruncateHandle, TruncateBareZero,
         TruncateBareTo, Applied, Remove, Release, D.Inv, Sim, Followed;
    s' := s;
    if Quiet(op) {
      QuietLeavesHandles(nfc, fs, op);
    } else {
      match op
      case DoOpen(ino, writable, trunc, hydrated, local, now) =>
        s' := OpenIsSteps(fs, s, ino, writable, trunc, hydrated, local, now);
      case DoWrite(ino, fh, offset, data, written, now) =>
        s' := WriteIsSteps(fs, s, ino, fh, offset, data, written, now);
      case DoFsync(ino, fh, synced, upload) => s' := FsyncIsSteps(fs, s, ino, fh, synced, upload);
      case DoRelease(ino, fh, upload) => s' := ReleaseIsSteps(fs, s, ino, fh, upload);
      case DoTruncateHandle(ino, fh, size, local, now) => s' := TruncateHandleIsSteps(fs, s, ino, fh, size, local, now);
      case DoTruncateZero(ino, begun, upload, now) => s' := TruncateZeroIsSteps(fs, s, ino, begun, upload, now);
      case DoTruncateTo(ino, size, content, local, upload, now) =>
        s' := TruncateToIsSteps(fs, s, ino, size, content, local, upload, now);
      case DoCreate(parent, name, listing, reply, local, now) =>
        s' := CreateIsSteps(nfc, fs, s, parent, name, listing, reply, local, now);
      case DoMknod(_, _, _, _, _, _, _, _) => s' := MknodIsSteps(nfc, fs, s, op);
      case DoRename(srcParent, srcName, dstParent, dstName, listing, renamed) =>
        RenameFollows(nfc, fs, srcParent, srcName, dstParent, dstName, listing, renamed);
        var r := Rename(nfc, fs, srcParent, srcName, dstParent, dstName, listing, renamed).fs;
        if r.handles != fs.handles {
          var src, dst :| r.handles == Followed(fs.handles, src, dst);
          FollowingIsNoStep(PartOf(fs), s, src, dst);
        }
    }
  }

  // ---------------------------------------------------------------- runs

  /** The systems between the operations of a run, each led to from the one before by
      the steps of its operation. */
  ghost predicate RunsAlong(nfc: string -> string, states: seq<Fs>, ops: seq<Op>, systems: seq<D.Sys>) {
    && 0 < |systems| <= |states| == |ops| + 1 && systems[0] == D.START
    && forall i :: 0 <= i < |systems| - 1 ==>
         && KernelKeepsTo(states[i], ops[i])
         && Leads(systems[i], StepsOf(nfc, states[i], ops[i], systems[i].nextUpload), systems[i + 1])
  }

  /** Every run of the mount is the run of its operations' steps, and agrees with it
      after every operation on handles, dirty bits, cache files and the cloud. */
  lemma {:induction false} RunIsSteps(nfc: string -> string, states: seq<Fs>, ops: seq<Op>,
                                      k: nat) returns (systems: seq<D.Sys>)
    requires Run(nfc, states, ops) && Started(states[0]) && k <= |ops|
    requires forall i :: 0 <= i < |ops| ==> EngineHydrates(states[i], ops[i])
    ensures |systems| == k + 1 && RunsAlong(nfc, states, ops, systems)
    ensures forall i :: 0 <= i <= k ==> Settled(PartOf(states[i]), systems[i])
  {
    hide Do, KernelKeepsTo, EngineHydrates, Ordered, Settled, StepsOf, Leads;
    if k == 0 {
      systems := [D.START];
      SettledStart(states[0]);
    } else {
      var before := RunIsSteps(nfc, states, ops, k - 1);
      OrderedStart(states[0]);
      RunKeepsOrder(nfc, states, ops, k - 1);
      OrderedNames(states[k - 1]);
      assert Takes(nfc, states[k - 1], ops[k - 1], states[k]);
      var s := OpIsSteps(nfc, states[k - 1], before[k - 1], ops[k - 1]);
      systems := before + [s];
    }
  }

  lemma SettledStart(fs: Fs)
    requires Started(fs)
    ensures Settled(PartOf(fs), D.START)
  {
  }

  lemma OrderedStart(fs: Fs)
    requires Started(fs)
    ensures Ordered(fs)
  {
  }

  lemma OrderedNames(fs: Fs)
    requires Ordered(fs)
    ensures NamesInv(fs.names)
  {
  }

  lemma LeadsIsRun(steps: seq<D.Step>, s: D.Sys) returns (states: seq<D.Sys>)
    requires Leads(D.START, steps, s)
    ensures D.Run(states, steps) && states[|steps|] == s
    decreases |steps|
  {
    hide D.Takes;
    if steps == [] {
      states := [s];
    } else {
      var n := |steps| - 1;
      var m: D.Sys :| Leads(D.START, steps[..n], m) && D.Takes(m, steps[n], s);
      var before := LeadsIsRun(steps[..n], m);
      states := before + [s];
      forall i | 0 <= i < |steps|
        ensures D.Takes(states[i], steps[i], states[i + 1])
      {
        if i < n {
          assert D.Takes(before[i], steps[..n][i], before[i + 1]);
        }
      }
    }
  }

  /** The steps of the first `k` operations, one after the other. */
  ghost function AllSteps(nfc: string -> string, states: seq<Fs>, ops: seq<Op>, systems: seq<D.Sys>,
                          k: nat): seq<D.Step>
    requires RunsAlong(nfc, states, ops, systems) && k < |systems|
  {
    if k == 0 then []
    else AllSteps(nfc, states, ops, systems, k - 1) + StepsOf(nfc, states[k - 1], ops[k - 1], systems[k - 1].nextUpload)
  }

  lemma {:induction false} AllStepsLead(nfc: string -> string, states: seq<Fs>, ops: seq<Op>, systems: seq<D.Sys>,
                                        k: nat)
    requires RunsAlong(nfc, states, ops, systems) && k < |systems|
    ensures Leads(D.START, AllSteps(nfc, states, ops, systems, k), systems[k])
  {
    hide StepsOf;
    if k > 0 {
      AllStepsLead(nfc, states, ops, systems, k - 1);
      Joined(D.START, AllSteps(nfc, states, ops, systems, k - 1), systems[k - 1],
             StepsOf(nfc, states[k - 1], ops[k - 1], systems[k - 1].nextUpload), systems[k]);
    }
  }

  // ---------------------------------------------------------------- nothing is left behind

  predicate CrashFree(steps: seq<D.Step>) {
    forall i :: 0 <= i < |steps| ==> !steps[i].Crash?
  }

  /** No operation of the mount has a crash among its steps. */
  lemma OpIsCrashFree(nfc: string -> string, fs: Fs, op: Op, id: nat)
    requires op.DoWrite? && op.written.Some? ==> op.written.value <= |op.data|
    ensures CrashFree(StepsOf(nfc, fs, op, id))
  {
    hide Create, Patched, Resized;
  }

  lemma {:induction false} RunIsCrashFree(nfc: string -> string, states: seq<Fs>, ops: seq<Op>, systems: seq<D.Sys>,
                                          k: nat)
    requires RunsAlong(nfc, states, ops, systems) && k < |systems|
    ensures CrashFree(AllSteps(nfc, states, ops, systems, k))
  {
    hide StepsOf, Leads;
    if k > 0 {
      RunIsCrashFree(nfc, states, ops, systems, k - 1);
      OpIsCrashFree(nfc, states[k - 1], ops[k - 1], systems[k - 1].nextUpload);
    }
  }

  /** Nothing was left behind untold, and no upload under way can be. */
  ghost predicate NothingLeft(s: D.Sys) {
    s.left == {} && forall id :: id in s.uploads ==> !s.uploads[id].kind.Orphaned?
  }

  lemma StepLeavesNothing(s: D.Sys, step: D.Step)
    requires NothingLeft(s) && D.Enabled(s, step) && !step.Crash?
    ensures NothingLeft(D.Next(s, step))
  {
  }

  lemma {:induction false} RunLeavesNothing(run: seq<D.Sys>, steps: seq<D.Step>, k: nat)
    requires D.Run(run, steps) && CrashFree(steps) && k < |run|
    ensures NothingLeft(run[k])
  {
    hide D.Next, D.Enabled;
    if k > 0 {
      RunLeavesNothing(run, steps, k - 1);
      assert D.Takes(run[k - 1], steps[k - 1], run[k]);
      StepLeavesNothing(run[k - 1], steps[k - 1]);
    }
  }

  /** So the mount loses no write: the run of its steps ends with nothing under way,
      and a cache file that the cloud does not have has a dirty handle or a failure
      that was told. */
  lemma MountLosesNoWrite(nfc: string -> string, states: seq<Fs>, ops: seq<Op>, k: nat, ino: nat)
    returns (systems: seq<D.Sys>, run: seq<D.Sys>, steps: seq<D.Step>)
    requires Run(nfc, states, ops) && Started(states[0]) && k <= |ops| && ino in states[k].world.files
    requires forall i :: 0 <= i < |ops| ==> EngineHydrates(states[i], ops[i])
    ensures |systems| == k + 1 && RunsAlong(nfc, states, ops, systems) && Settled(PartOf(states[k]), systems[k])
    ensures steps == AllSteps(nfc, states, ops, systems, k) && D.Run(run, steps) && run[|steps|] == systems[k]
    ensures var f := systems[k].files[ino];
            || InCloud(states[k].world, ino)
            || D.DirtyFor(systems[k], ino, f.authors[|f.authors| - 1])
            || D.Among(systems[k].failed, ino, f.authors[|f.authors| - 1], f.Last())
  {
    hide Do, EngineHydrates, StepsOf, Leads, KernelKeepsTo, D.Next, D.Enabled;
    systems := RunIsSteps(nfc, states, ops, k);
    AllStepsLead(nfc, states, ops, systems, k);
    RunIsCrashFree(nfc, states, ops, systems, k);
    steps := AllSteps(nfc, states, ops, systems, k);
    run := LeadsIsRun(steps, systems[k]);
    LastVersionAccounted(PartOf(states[k]), run, steps, ino);
  }

  lemma LastVersionAccounted(p: Part, run: seq<D.Sys>, steps: seq<D.Step>, ino: nat)
    requires D.Run(run, steps) && CrashFree(steps) && Settled(p, run[|steps|]) && ino in p.files
    ensures var s := run[|steps|];
            && ino in s.files && s.files[ino].authors != []
            && var f := s.files[ino];
            || (ino in p.cloud && p.cloud[ino] == p.files[ino])
            || D.DirtyFor(s, ino, f.authors[|f.authors| - 1])
            || D.Among(s.failed, ino, f.authors[|f.authors| - 1], f.Last())
  {
    hide D.Next, D.Enabled;
    var s, n := run[|steps|], |steps|;
    var f := s.files[ino];
    assert SameFile(f, p.files[ino], StoredOf(p, ino)) && D.ValidFile(f, s.clock);
    if f.sent < f.Last() {
      D.NoLostWrite(run, steps, n, ino, f.Last());
      RunLeavesNothing(run, steps, n);
    }
  }
}
