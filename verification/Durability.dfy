/** Writes on their way to the cloud, as interleaved steps: handles are written and
    truncated, fsync claims a dirty bit, the engine reads the cache file at some
    moment of an upload, the cloud gets what was read, the upload ends, handles are
    released, the co-daemon crashes. A claim and the end of its upload are separate
    steps, with anything in between. */
module Durability {
  type Bytes = string

  /** Who changed a cache file: the engine by hydrating it, a handle, or a
      truncation without a handle (named by its upload, or the number it would have). */
  datatype Author = Engine | ByHandle(fh: nat) | ByUpload(id: nat)

  /** A cache file with the contents it has had, the last being the present one.
      The cloud has `history[sent]`, nothing of it when `sent` is -1. */
  datatype File = File(history: seq<Bytes>, authors: seq<Author>, sent: int, mtime: nat, watermark: nat) {
    function Last(): int {
      |history| - 1
    }

    function Edited(content: Bytes, who: Author, now: nat): File {
      File(history + [content], authors + [who], sent, now, watermark)
    }

    /** The cloud has the present content. */
    predicate Stored() {
      0 <= sent < |history| && history[sent] == history[|history| - 1]
    }

    /** The engine has put `content` in the cache as the cloud has it. */
    function Replaced(content: Bytes, stamp: nat, now: nat): File {
      File(history + [content], authors + [Engine], |history|, now, stamp)
    }

    /** The cloud has version `v`, stamped with `stamp`. */
    function Synced(v: int, stamp: nat): File {
      File(history, authors, v, mtime, stamp)
    }
  }

  datatype Open = Open(file: nat, dirty: bool)

  /** Whose upload: an fsync's, whose handle repeats it if it fails; a release's or a
      truncation's, which nothing repeats; or that of a process that has crashed. */
  datatype Kind = OfFsync | Final | Orphaned

  /** An `open_write` round trip for what `author` did up to version `upto`; the
      engine has read version `read` (-1 before it reads) at or after `stamp`. */
  datatype Upload = Upload(file: nat, author: Author, upto: int, kind: Kind, read: int, stamp: nat, stored: bool)

  /** Versions up to `upto` by `author` that no handle or upload stands for. */
  datatype Outcome = Outcome(file: nat, author: Author, upto: int)

  /** `failed` holds the uploads whose failure was returned or logged and the files
      emptied for an open that then failed; `left` what a crash left behind untold, the
      dirty handles it dropped and its uploads that then failed. */
  datatype Sys = Sys(clock: nat, files: map<nat, File>, handles: map<nat, Open>, uploads: map<nat, Upload>,
                     failed: set<Outcome>, left: set<Outcome>, nextFh: nat, nextUpload: nat)

  datatype Step =
    | Tick(ms: nat)
    | Hydrate(file: nat, content: Bytes, stamp: nat)
    | Rehydrate(file: nat, content: Bytes, stamp: nat)
    | OpenCached(file: nat)
    | OpenEmptied(file: nat, stamp: nat)
    | OpenFails(file: nat, stamp: nat)
    | Edit(fh: nat, content: Bytes)
    | WriteNothing(fh: nat)
    | FsyncClaim(fh: nat)
    | EngineReads(id: nat, stamp: nat)
    | CloudGets(id: nat)
    | Finish(id: nat, ok: bool)
    | Release(fh: nat)
    | BareTruncate(file: nat, content: Bytes, stamp: nat)
    | Crash

  /** What the steps rest on. The mount holds the connection's lock for the whole of
      an upload, so the engine reads for one only when it has no other to finish.
      The engine hydrates a file that is not cached, or brings in new content for one
      the cloud already has as it is and that no upload is about; it stamps no later
      than it reads, and reports success only for what the cloud has. */
  ghost predicate Enabled(s: Sys, step: Step) {
    match step
    case Hydrate(file, _, stamp) => file !in s.files && stamp <= s.clock
    case Rehydrate(file, _, stamp) =>
      && file in s.files && s.files[file].Stored() && stamp <= s.clock
      && forall id :: id in s.uploads ==> s.uploads[id].file != file
    case OpenCached(file) => file in s.files
    case OpenEmptied(_, stamp) => stamp <= s.clock
    case OpenFails(_, stamp) => stamp <= s.clock
    case Edit(fh, _) => fh in s.handles && s.handles[fh].file in s.files
    case WriteNothing(fh) => fh in s.handles
    case FsyncClaim(fh) => fh in s.handles && s.handles[fh].file in s.files
    case EngineReads(id, stamp) =>
      && id in s.uploads && s.uploads[id].file in s.files && stamp <= s.clock
      && forall other :: other in s.uploads ==> s.uploads[other].read < 0
    case CloudGets(id) => id in s.uploads && s.uploads[id].file in s.files && 0 <= s.uploads[id].read
    case Finish(id, ok) => id in s.uploads && (ok ==> s.uploads[id].stored)
    case Release(fh) => fh in s.handles && s.handles[fh].file in s.files
    case BareTruncate(_, _, stamp) => stamp <= s.clock
    case _ => true
  }

  function WithUpload(s: Sys, file: nat, author: Author, upto: int, kind: Kind): Sys {
    s.(uploads := s.uploads[s.nextUpload := Upload(file, author, upto, kind, -1, 0, false)],
       nextUpload := s.nextUpload + 1)
  }

  function WithHandle(s: Sys, h: Open): Sys {
    s.(handles := s.handles[s.nextFh := h], nextFh := s.nextFh + 1)
  }

  /** `file` with new content; a file not cached yet is made, its row stamped. */
  function Changed(s: Sys, file: nat, content: Bytes, who: Author, stamp: nat): File {
    if file in s.files then s.files[file].Edited(content, who, s.clock)
    else File([content], [who], -1, s.clock, stamp)
  }

  ghost function Next(s: Sys, step: Step): Sys
    requires Enabled(s, step)
  {
    match step
    case Tick(ms) => s.(clock := s.clock + ms)
    case Hydrate(file, content, stamp) => s.(files := s.files[file := File([content], [Engine], 0, s.clock, stamp)])
    case Rehydrate(file, content, stamp) =>
      s.(files := s.files[file := s.files[file].Replaced(content, stamp, s.clock)])
    case OpenCached(file) => WithHandle(s, Open(file, false))
    case OpenEmptied(file, stamp) =>
      WithHandle(s.(files := s.files[file := Changed(s, file, "", ByHandle(s.nextFh), stamp)]), Open(file, true))
    case OpenFails(file, stamp) =>
      var f := Changed(s, file, "", ByUpload(s.nextUpload), stamp);
      s.(files := s.files[file := f], nextUpload := s.nextUpload + 1,
         failed := s.failed + {Outcome(file, ByUpload(s.nextUpload), f.Last())})
    case Edit(fh, content) =>
      var file := s.handles[fh].file;
      s.(files := s.files[file := s.files[file].Edited(content, ByHandle(fh), s.clock)],
         handles := s.handles[fh := Open(file, true)])
    case WriteNothing(fh) => s.(handles := s.handles[fh := s.handles[fh].(dirty := true)])
    case FsyncClaim(fh) =>
      var h := s.handles[fh];
      if h.dirty
      then WithUpload(s.(handles := s.handles[fh := h.(dirty := false)]),
                      h.file, ByHandle(fh), s.files[h.file].Last(), OfFsync)
      else s
    case EngineReads(id, stamp) =>
      var u := s.uploads[id];
      s.(uploads := s.uploads[id := u.(read := s.files[u.file].Last(), stamp := stamp)])
    case CloudGets(id) =>
      var u := s.uploads[id];
      s.(files := s.files[u.file := s.files[u.file].Synced(u.read, u.stamp)],
         uploads := s.uploads[id := u.(stored := true)])
    case Finish(id, ok) =>
      var u := s.uploads[id];
      var s' := s.(uploads := s.uploads - {id});
      if ok then s'
      else if u.kind.OfFsync? && u.author.ByHandle? && u.author.fh in s.handles
      then s'.(handles := s.handles[u.author.fh := s.handles[u.author.fh].(dirty := true)])
      else if u.kind.Orphaned? then s'.(left := s.left + {Outcome(u.file, u.author, u.upto)})
      else s'.(failed := s.failed + {Outcome(u.file, u.author, u.upto)})
    case Release(fh) =>
      var h := s.handles[fh];
      var s' := s.(handles := s.handles - {fh});
      if h.dirty then WithUpload(s', h.file, ByHandle(fh), s.files[h.file].Last(), Final) else s'
    case BareTruncate(file, content, stamp) =>
      var f := Changed(s, file, content, ByUpload(s.nextUpload), stamp);
      WithUpload(s.(files := s.files[file := f]), file, ByUpload(s.nextUpload), f.Last(), Final)
    case Crash =>
      s.(handles := map[], uploads := map id | id in s.uploads :: s.uploads[id].(kind := Orphaned),
         left := s.left + set fh | fh in s.handles && s.handles[fh].dirty && s.handles[fh].file in s.files ::
                   Outcome(s.handles[fh].file, ByHandle(fh), s.files[s.handles[fh].file].Last()))
  }

  // ---------------------------------------------------------------- what every step keeps

  /** A file the cloud has only an older version of is no older than its stamp. */
  ghost predicate ValidFile(f: File, clock: nat) {
    && |f.history| > 0 && |f.authors| == |f.history| && -1 <= f.sent <= f.Last()
    && (forall v :: 0 <= v < |f.authors| && f.authors[v].Engine? ==> v <= f.sent)
    && f.mtime <= clock && f.watermark <= clock
    && (f.sent < f.Last() ==> f.watermark <= f.mtime)
  }

  ghost predicate InFlight(s: Sys, file: nat, who: Author, v: int) {
    exists id :: id in s.uploads && s.uploads[id].file == file && s.uploads[id].author == who && v <= s.uploads[id].upto
  }

  ghost predicate Among(outcomes: set<Outcome>, file: nat, who: Author, v: int) {
    exists o :: o in outcomes && o.file == file && o.author == who && v <= o.upto
  }

  ghost predicate DirtyFor(s: Sys, file: nat, who: Author) {
    who.ByHandle? && who.fh in s.handles && s.handles[who.fh] == Open(file, true)
  }

  /** The fate of version `v` of `file` as long as the cloud does not have it: its
      handle is dirty, an upload claims it, its failure was told, or a crash left it. */
  ghost predicate Accounted(s: Sys, file: nat, v: int)
    requires file in s.files && 0 <= v < |s.files[file].authors|
  {
    var who := s.files[file].authors[v];
    DirtyFor(s, file, who) || InFlight(s, file, who, v) || Among(s.failed, file, who, v) || Among(s.left, file, who, v)
  }

  ghost predicate ValidUpload(s: Sys, u: Upload) {
    && u.file in s.files && 0 <= u.upto <= s.files[u.file].Last() && -1 <= u.read <= s.files[u.file].Last()
    && (0 <= u.read ==> u.upto <= u.read && s.files[u.file].sent <= u.read && u.stamp <= s.clock)
    && (0 <= u.read < s.files[u.file].Last() ==> u.stamp <= s.files[u.file].mtime)
    && (u.stored ==> 0 <= u.read <= s.files[u.file].sent)
    && (u.author.ByHandle? ==>
          && u.author.fh < s.nextFh
          && (u.author.fh in s.handles ==> s.handles[u.author.fh].file == u.file))
  }

  /** The engine works on one upload at a time. */
  ghost predicate OneAtATime(s: Sys) {
    forall a, b :: a in s.uploads && b in s.uploads && 0 <= s.uploads[a].read && 0 <= s.uploads[b].read ==> a == b
  }

  ghost predicate Accounts(s: Sys) {
    forall f, v :: f in s.files && s.files[f].sent < v < |s.files[f].authors| && 0 <= v ==> Accounted(s, f, v)
  }

  ghost predicate Inv(s: Sys) {
    && (forall f :: f in s.files ==> ValidFile(s.files[f], s.clock))
    && (forall fh :: fh in s.handles ==> fh < s.nextFh && s.handles[fh].file in s.files)
    && (forall id :: id in s.uploads ==> id < s.nextUpload && ValidUpload(s, s.uploads[id]))
    && OneAtATime(s) && Accounts(s)
  }

  ghost predicate FileGrows(f: File, f': File) {
    f.sent <= f'.sent && f.history <= f'.history && f.authors <= f'.authors
  }

  /** What the cloud and the cache have only grows. */
  ghost predicate Grows(s: Sys, s': Sys) {
    s.nextUpload <= s'.nextUpload && forall f :: f in s.files ==> f in s'.files && FileGrows(s.files[f], s'.files[f])
  }

  /** An upload stays in flight until it finishes; what its failure leaves is a dirty
      handle, a told failure, or, after a crash, what nobody could be told. */
  lemma UploadKeepsFate(s: Sys, step: Step, f: nat, who: Author, v: int, id: nat)
    requires Enabled(s, step) && id in s.uploads && id < s.nextUpload && ValidUpload(s, s.uploads[id])
    requires s.uploads[id].file == f && s.uploads[id].author == who && v <= s.uploads[id].upto
    ensures var s' := Next(s, step);
            || step == Finish(id, true) || InFlight(s', f, who, v) || DirtyFor(s', f, who)
            || Among(s'.failed, f, who, v) || Among(s'.left, f, who, v)
  {
    var s' := Next(s, step);
    if step == Finish(id, false) {
      var o := Outcome(f, who, s.uploads[id].upto);
      assert DirtyFor(s', f, who) || o in s'.failed || o in s'.left;
    } else if step != Finish(id, true) {
      assert id in s'.uploads && s'.uploads[id].upto == s.uploads[id].upto;
    }
  }

  lemma OutcomesStay(s: Sys, step: Step, f: nat, who: Author, v: int)
    requires Enabled(s, step)
    ensures Among(s.failed, f, who, v) ==> Among(Next(s, step).failed, f, who, v)
    ensures Among(s.left, f, who, v) ==> Among(Next(s, step).left, f, who, v)
  {
    assert s.failed <= Next(s, step).failed && s.left <= Next(s, step).left;
  }

  /** A dirty handle stays dirty until something else stands for its writes. */
  lemma DirtKeepsFate(s: Sys, step: Step, f: nat, fh: nat, v: int)
    requires Inv(s) && Enabled(s, step) && DirtyFor(s, f, ByHandle(fh)) && v <= s.files[f].Last()
    ensures var s' := Next(s, step);
            DirtyFor(s', f, ByHandle(fh)) || InFlight(s', f, ByHandle(fh), v) || Among(s'.left, f, ByHandle(fh), v)
  {
    var s' := Next(s, step);
    if step.Crash? {
      assert Outcome(f, ByHandle(fh), s.files[f].Last()) in s'.left;
    } else if step == FsyncClaim(fh) || step == Release(fh) {
      assert s'.uploads[s.nextUpload].author == ByHandle(fh);
    }
  }

  /** A version that was there before the step keeps being accounted for. */
  lemma OldVersionKeepsFate(s: Sys, step: Step, f: nat, v: int)
    requires Inv(s) && Enabled(s, step)
    requires f in s.files && s.files[f].sent < v < |s.files[f].authors| && 0 <= v
    requires Grows(s, Next(s, step)) && Next(s, step).files[f].sent < v
    ensures Accounted(Next(s, step), f, v)
  {
    var s' := Next(s, step);
    var who := s.files[f].authors[v];
    assert Accounted(s, f, v) && s'.files[f].authors[v] == who;
    OutcomesStay(s, step, f, who, v);
    if InFlight(s, f, who, v) {
      var id :| id in s.uploads && s.uploads[id].file == f && s.uploads[id].author == who && v <= s.uploads[id].upto;
      assert step != Finish(id, true);
      UploadKeepsFate(s, step, f, who, v, id);
    } else if DirtyFor(s, f, who) {
      DirtKeepsFate(s, step, f, who.fh, v);
    }
  }

  /** A version the step adds is accounted for. */
  lemma NewVersionHasFate(s: Sys, step: Step, f: nat, v: int)
    requires Enabled(s, step) && f in Next(s, step).files && 0 <= v < |Next(s, step).files[f].authors|
    requires f in s.files ==> |s.files[f].history| == |s.files[f].authors| <= v
    ensures Next(s, step).files[f].sent < v ==> Accounted(Next(s, step), f, v)
  {
    if step.BareTruncate? {
      assert Next(s, step).uploads[s.nextUpload].author == ByUpload(s.nextUpload);
    } else if step.OpenFails? {
      assert Outcome(f, ByUpload(s.nextUpload), v) in Next(s, step).failed;
    }
  }

  lemma StepKeepsFile(s: Sys, step: Step, f: nat)
    requires Enabled(s, step) && f in Next(s, step).files
    requires f in s.files ==> ValidFile(s.files[f], s.clock)
    requires step.CloudGets? ==> ValidUpload(s, s.uploads[step.id])
    ensures ValidFile(Next(s, step).files[f], Next(s, step).clock)
    ensures f in s.files ==> FileGrows(s.files[f], Next(s, step).files[f])
  {
    if !step.CloudGets? {
      hide ValidUpload;
    }
  }

  lemma StepKeepsUpload(s: Sys, step: Step, id: nat)
    requires Enabled(s, step) && id in s.uploads && id in Next(s, step).uploads && id < s.nextUpload
    requires ValidUpload(s, s.uploads[id]) && ValidFile(s.files[s.uploads[id].file], s.clock)
    requires FileGrows(s.files[s.uploads[id].file], Next(s, step).files[s.uploads[id].file])
    requires step.CloudGets? ==> id == step.id || s.uploads[id].read < 0
    ensures id < Next(s, step).nextUpload && ValidUpload(Next(s, step), Next(s, step).uploads[id])
  {
    hide FileGrows;
  }

  lemma NewUploadIsValid(s: Sys, step: Step, id: nat)
    requires Enabled(s, step) && id !in s.uploads && id in Next(s, step).uploads
    requires forall fh :: fh in s.handles ==> fh < s.nextFh && s.handles[fh].file in s.files
    requires forall f :: f in s.files ==> |s.files[f].history| > 0
    ensures id < Next(s, step).nextUpload && ValidUpload(Next(s, step), Next(s, step).uploads[id])
  {
  }

  lemma StepKeepsOrder(s: Sys, step: Step)
    requires Enabled(s, step) && OneAtATime(s)
    ensures OneAtATime(Next(s, step))
  {
  }

  lemma HandlesStayValid(s: Sys, step: Step)
    requires Enabled(s, step)
    requires forall fh :: fh in s.handles ==> fh < s.nextFh && s.handles[fh].file in s.files
    ensures var s' := Next(s, step);
            forall fh :: fh in s'.handles ==> fh < s'.nextFh && s'.handles[fh].file in s'.files
    ensures s.nextUpload <= Next(s, step).nextUpload && s.files.Keys <= Next(s, step).files.Keys
  {
  }

  lemma FileOfUpload(s: Sys, id: nat)
    requires id in s.uploads && ValidUpload(s, s.uploads[id])
    ensures s.uploads[id].file in s.files
  {
  }

  lemma StepKeepsInv(s: Sys, step: Step)
    requires Inv(s) && Enabled(s, step)
    ensures Inv(Next(s, step)) && Grows(s, Next(s, step))
  {
    hide Next, ValidUpload;
    var s' := Next(s, step);
    HandlesStayValid(s, step);
    StepKeepsOrder(s, step);
    forall f | f in s'.files
      ensures ValidFile(s'.files[f], s'.clock) && (f in s.files ==> FileGrows(s.files[f], s'.files[f]))
    {
      StepKeepsFile(s, step, f);
    }
    forall id | id in s'.uploads
      ensures id < s'.nextUpload && ValidUpload(s', s'.uploads[id])
    {
      if id in s.uploads {
        assert s.uploads[id].file in s.files by { FileOfUpload(s, id); }
        StepKeepsUpload(s, step, id);
      } else {
        NewUploadIsValid(s, step, id);
      }
    }
    assert Accounts(s') by {
      forall f, v | f in s'.files && s'.files[f].sent < v < |s'.files[f].authors| && 0 <= v
        ensures Accounted(s', f, v)
      {
        if f in s.files && v < |s.files[f].authors| {
          OldVersionKeepsFate(s, step, f, v);
        } else {
          NewVersionHasFate(s, step, f, v);
        }
      }
    }
  }

  // ---------------------------------------------------------------- whole runs

  /** Before any step: nothing cached, nothing open. */
  const START := Sys(0, map[], map[], map[], {}, {}, 1, 1)

  ghost predicate Takes(s: Sys, step: Step, s': Sys) {
    Enabled(s, step) && s' == Next(s, step)
  }

  ghost predicate Run(states: seq<Sys>, steps: seq<Step>) {
    && |states| == |steps| + 1 && states[0] == START
    && forall i :: 0 <= i < |steps| ==> Takes(states[i], steps[i], states[i + 1])
  }

  lemma {:induction false} RunKeepsInv(states: seq<Sys>, steps: seq<Step>, k: nat)
    requires Run(states, steps) && k < |states|
    ensures Inv(states[k])
  {
    hide Next;
    if k == 0 {
    } else {
      RunKeepsInv(states, steps, k - 1);
      assert Takes(states[k - 1], steps[k - 1], states[k]);
      StepKeepsInv(states[k - 1], steps[k - 1]);
    }
  }

  /** No lost write: in every state of every run, a version of a cache file that the
      cloud lacks has a dirty handle, an upload under way, or an upload whose
      failure was told, or was left by a crash. */
  lemma NoLostWrite(states: seq<Sys>, steps: seq<Step>, k: nat, file: nat, v: nat)
    requires Run(states, steps) && k < |states|
    requires file in states[k].files && states[k].files[file].sent < v <= states[k].files[file].Last()
    ensures v < |states[k].files[file].authors| && Accounted(states[k], file, v)
  {
    RunKeepsInv(states, steps, k);
    assert ValidFile(states[k].files[file], states[k].clock);
  }

  /** After a crash no handle is left, the cache files and the cloud are as they were, and a
      version the cloud lacks is with an upload of the crashed process, told, or left. */
  lemma CrashLeaves(states: seq<Sys>, steps: seq<Step>, k: nat, file: nat, v: nat)
    requires Run(states, steps) && k < |steps| && steps[k].Crash?
    requires file in states[k].files && states[k].files[file].sent < v <= states[k].files[file].Last()
    ensures states[k + 1].handles == map[] && states[k + 1].files == states[k].files
    ensures var uploads := states[k + 1].uploads; forall id :: id in uploads ==> uploads[id].kind.Orphaned?
    ensures v < |states[k].files[file].authors|
    ensures var s, who := states[k + 1], states[k].files[file].authors[v];
            InFlight(s, file, who, v) || Among(s.failed, file, who, v) || Among(s.left, file, who, v)
  {
    assert Takes(states[k], steps[k], states[k + 1]);
    NoLostWrite(states, steps, k + 1, file, v);
  }

  /** Once nothing is open or under way, and nothing failed or was left behind for a
      file, the cloud has what the cache has. */
  lemma QuietMeansSynced(states: seq<Sys>, steps: seq<Step>, k: nat, file: nat)
    requires Run(states, steps) && k < |states| && file in states[k].files
    requires forall fh :: fh in states[k].handles && states[k].handles[fh].file == file ==> !states[k].handles[fh].dirty
    requires forall id :: id in states[k].uploads ==> states[k].uploads[id].file != file
    requires forall o :: o in states[k].failed + states[k].left ==> o.file != file
    ensures states[k].files[file].sent == states[k].files[file].Last()
  {
    var f := states[k].files[file];
    RunKeepsInv(states, steps, k);
    assert ValidFile(f, states[k].clock);
    if f.sent < f.Last() {
      NoLostWrite(states, steps, k, file, f.Last());
    }
  }

  lemma {:induction false} RunGrows(states: seq<Sys>, steps: seq<Step>, j: nat, k: nat, file: nat)
    requires Run(states, steps) && j <= k < |states| && file in states[j].files
    ensures file in states[k].files && FileGrows(states[j].files[file], states[k].files[file])
    decreases k - j
  {
    hide Next;
    if j < k {
      RunGrows(states, steps, j, k - 1, file);
      RunKeepsInv(states, steps, k - 1);
      assert Takes(states[k - 1], steps[k - 1], states[k]);
      StepKeepsInv(states[k - 1], steps[k - 1]);
    }
  }

  lemma StepKeepsUploadNumber(s: Sys, step: Step, id: nat)
    requires Enabled(s, step) && id in s.uploads && id < s.nextUpload && id in Next(s, step).uploads
    ensures Next(s, step).uploads[id].file == s.uploads[id].file && Next(s, step).uploads[id].upto == s.uploads[id].upto
  {
  }

  /** An upload number stands for one upload as long as it is used. */
  lemma {:induction false} SameUpload(states: seq<Sys>, steps: seq<Step>, j: nat, k: nat, id: nat)
    requires Run(states, steps) && j <= k < |states| && id in states[j].uploads && id in states[k].uploads
    ensures states[k].uploads[id].file == states[j].uploads[id].file
    ensures states[k].uploads[id].upto == states[j].uploads[id].upto
    decreases k - j
  {
    hide Next, Enabled;
    if j < k {
      UsedOnce(states, steps, j, k - 1, id);
      RunKeepsInv(states, steps, k - 1);
      assert Takes(states[k - 1], steps[k - 1], states[k]);
      SameUpload(states, steps, j, k - 1, id);
      StepKeepsUploadNumber(states[k - 1], steps[k - 1], id);
    }
  }

  lemma UsedOnce(states: seq<Sys>, steps: seq<Step>, j: nat, k: nat, id: nat)
    requires Run(states, steps) && j <= k < |steps| && id in states[j].uploads && id in states[k + 1].uploads
    ensures id in states[k].uploads
    decreases k - j
  {
    assert Takes(states[k], steps[k], states[k + 1]);
    UploadNumbersGrow(states, steps, j, k);
    RunKeepsInv(states, steps, j);
  }

  lemma {:induction false} UploadNumbersGrow(states: seq<Sys>, steps: seq<Step>, j: nat, k: nat)
    requires Run(states, steps) && j <= k < |states|
    ensures states[j].nextUpload <= states[k].nextUpload
    decreases k - j
  {
    hide Next;
    if j < k {
      UploadNumbersGrow(states, steps, j, k - 1);
      RunKeepsInv(states, steps, k - 1);
      assert Takes(states[k - 1], steps[k - 1], states[k]);
      StepKeepsInv(states[k - 1], steps[k - 1]);
    }
  }

  /** A claiming fsync that returns Ok has put every write that finished before its
      claim in the cloud, and it stays there: the claim is step `i`, its upload ends
      well at step `j`, and `k` is any later state. */
  lemma FsyncOkIsDurable(states: seq<Sys>, steps: seq<Step>, i: nat, j: nat, k: nat, fh: nat)
    requires Run(states, steps) && i < j < k < |states|
    requires steps[i] == FsyncClaim(fh) && fh in states[i].handles && states[i].handles[fh].dirty
    requires steps[j] == Finish(states[i].nextUpload, true)
    ensures var file := states[i].handles[fh].file;
            && file in states[i].files && file in states[k].files
            && states[i].files[file].Last() <= states[k].files[file].sent
            && states[i].files[file].history <= states[k].files[file].history
  {
    var file, id := states[i].handles[fh].file, states[i].nextUpload;
    assert Takes(states[i], steps[i], states[i + 1]);
    assert Takes(states[j], steps[j], states[j + 1]);
    RunKeepsInv(states, steps, j);
    SameUpload(states, steps, i + 1, j, id);
    assert ValidUpload(states[j], states[j].uploads[id]);
    RunGrows(states, steps, i, k, file);
    RunGrows(states, steps, j, k, file);
  }

  /** An fsync that finds the bit clear has its handle's writes in the cloud if no
      upload of the handle is under way, none has failed and none was left. */
  lemma CleanHandleIsSynced(states: seq<Sys>, steps: seq<Step>, k: nat, fh: nat, v: nat)
    requires Run(states, steps) && k < |states| && fh in states[k].handles && !states[k].handles[fh].dirty
    requires var file := states[k].handles[fh].file;
             && file in states[k].files && v < |states[k].files[file].authors|
             && states[k].files[file].authors[v] == ByHandle(fh)
             && !InFlight(states[k], file, ByHandle(fh), v)
             && !Among(states[k].failed, file, ByHandle(fh), v) && !Among(states[k].left, file, ByHandle(fh), v)
    ensures v <= states[k].files[states[k].handles[fh].file].sent
  {
    var file := states[k].handles[fh].file;
    RunKeepsInv(states, steps, k);
    assert ValidFile(states[k].files[file], states[k].clock);
    if states[k].files[file].sent < v {
      NoLostWrite(states, steps, k, file, v);
    }
  }

  /** Why only the claiming fsync promises this: the run below edits a file and claims
      its bit; a second fsync then finds the bit clear and returns Ok with nothing
      uploaded yet. */
  lemma SecondFsyncPromisesNothing() returns (states: seq<Sys>, steps: seq<Step>)
    ensures Run(states, steps) && |steps| == 5 && steps[4] == FsyncClaim(1)
    ensures states[5] == states[4] && 0 in states[5].files
    ensures states[5].files[0].Last() == 1 && states[5].files[0].sent == 0
  {
    steps := [Hydrate(0, "a", 0), OpenCached(0), Edit(1, "b"), FsyncClaim(1), FsyncClaim(1)];
    var s1 := Next(START, steps[0]);
    var s2 := Next(s1, steps[1]);
    var s3 := Next(s2, steps[2]);
    var s4 := Next(s3, steps[3]);
    states := [START, s1, s2, s3, s4, Next(s4, steps[4])];
  }
}
