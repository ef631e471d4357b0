/** The scan at start-up: cache files at least as new as their last synced stamp are
    uploaded again, so that a crash at any step loses nothing. */
module Recovery {
  import opened Durability

  /** The engine's `last_synced` reply: the stamp, no row, or a failed call. */
  datatype Row = Known | Unknown | Failed

  /** How the calls about one file go. `stored` says whether the upload reached the
      cloud, `acked` whether its reply came back. */
  datatype Outcomes = Outcomes(stat: bool, row: Row, stored: bool, acked: bool, stamp: nat)

  predicate Replays(f: File, o: Outcomes) {
    o.stat && o.row.Known? && f.mtime >= f.watermark
  }

  function Replayed(f: File, o: Outcomes): File {
    if Replays(f, o) && o.stored then f.Synced(f.Last(), o.stamp) else f
  }

  /** The files after the scan has gone through `found`, one outcome for each. */
  function Scanned(files: map<nat, File>, found: seq<nat>, outcomes: seq<Outcomes>): map<nat, File>
    requires |found| == |outcomes| && forall f :: f in found ==> f in files
    ensures Scanned(files, found, outcomes).Keys == files.Keys
  {
    if found == [] then files
    else
      var n := |found| - 1;
      var before := Scanned(files, found[..n], outcomes[..n]);
      before[found[n] := Replayed(before[found[n]], outcomes[n])]
  }

  /** How many uploads of the scan were acknowledged. */
  function Acked(files: map<nat, File>, found: seq<nat>, outcomes: seq<Outcomes>): nat
    requires |found| == |outcomes| && forall f :: f in found ==> f in files
  {
    if found == [] then 0
    else
      var n := |found| - 1;
      var o := outcomes[n];
      Acked(files, found[..n], outcomes[..n]) +
      if Replays(Scanned(files, found[..n], outcomes[..n])[found[n]], o) && o.acked then 1 else 0
  }

  /** The engine as the scan sees it: the files, the ids it was given and the files they
      were given for, and how many uploads it acknowledged. */
  class Peer {
    var files: map<nat, File>
    var ids: seq<nat>
    var asked: seq<nat>
    var acks: nat

    constructor (files: map<nat, File>)
      ensures this.files == files && ids == [] && asked == [] && acks == 0
    {
      this.files := files;
      ids, asked, acks := [], [], 0;
    }

    /** `open_write` under the id `recovery-n`. */
    method OpenWrite(n: nat, file: nat, o: Outcomes) returns (ok: bool)
      requires file in files
      modifies this
      ensures var f := old(files[file]);
              files == if o.stored then old(files)[file := f.Synced(f.Last(), o.stamp)] else old(files)
      ensures ids == old(ids) + [n] && asked == old(asked) + [file] && ok == o.acked
      ensures acks == old(acks) + if o.acked then 1 else 0
    {
      if o.stored {
        files := files[file := files[file].Synced(files[file].Last(), o.stamp)];
      }
      ids, asked, acks := ids + [n], asked + [file], acks + if o.acked then 1 else 0;
      ok := o.acked;
    }
  }

  lemma EmptyScan(files: map<nat, File>, found: seq<nat>, outcomes: seq<Outcomes>)
    requires found == [] && outcomes == []
    ensures Scanned(files, found, outcomes) == files && Acked(files, found, outcomes) == 0
  {
  }

  lemma ScanStep(files: map<nat, File>, found: seq<nat>, outcomes: seq<Outcomes>, i: nat)
    requires i < |found| == |outcomes| && forall f :: f in found ==> f in files
    ensures var before := Scanned(files, found[..i], outcomes[..i]);
            && Scanned(files, found[..i + 1], outcomes[..i + 1]) ==
               before[found[i] := Replayed(before[found[i]], outcomes[i])]
            && Acked(files, found[..i + 1], outcomes[..i + 1]) == Acked(files, found[..i], outcomes[..i]) +
                 if Replays(before[found[i]], outcomes[i]) && outcomes[i].acked then 1 else 0
  {
    assert found[..i + 1][..i] == found[..i] && outcomes[..i + 1][..i] == outcomes[..i];
  }

  /** Uploads every file that is not older than its stamp; a file whose calls fail is
      skipped, the others still get their turn, and no two uploads share an id. */
  method ScanAndReplay(engine: Peer, found: seq<nat>, outcomes: seq<Outcomes>) returns (replayed: nat)
    requires |found| == |outcomes| && engine.ids == engine.asked == [] && engine.acks == 0
    requires forall f :: f in found ==> f in engine.files
    modifies engine
    ensures engine.files == Scanned(old(engine.files), found, outcomes)
    ensures forall i, j :: 0 <= i < j < |engine.ids| ==> engine.ids[i] != engine.ids[j]
    ensures replayed == engine.acks == Acked(old(engine.files), found, outcomes)
    ensures |engine.asked| == |engine.ids| <= |found|
    ensures forall f :: f in engine.asked ==>
              exists i :: 0 <= i < |found| && found[i] == f && outcomes[i].stat && outcomes[i].row.Known?
  {
    hide Scanned, Acked;
    replayed := 0;
    var n := 0;
    var i := 0;
    EmptyScan(engine.files, found[..0], outcomes[..0]);
    while i < |found|
      invariant i <= |found| && engine.files.Keys == old(engine.files).Keys
      invariant engine.files == Scanned(old(engine.files), found[..i], outcomes[..i])
      invariant |engine.ids| == n && forall k :: 0 <= k < n ==> engine.ids[k] == k + 1
      invariant replayed == engine.acks == Acked(old(engine.files), found[..i], outcomes[..i])
      invariant |engine.asked| == n <= i
      invariant forall f :: f in engine.asked ==>
                  exists j :: 0 <= j < i && found[j] == f && outcomes[j].stat && outcomes[j].row.Known?
    {
      ScanStep(old(engine.files), found, outcomes, i);
      var file, o := found[i], outcomes[i];
      i := i + 1;
      assert file in engine.files && engine.files[file := engine.files[file]] == engine.files;
      if !o.stat || o.row.Unknown? || o.row.Failed? || engine.files[file].mtime < engine.files[file].watermark {
        continue;
      }
      n := n + 1;
      var ok := engine.OpenWrite(n, file, o);
      if ok {
        replayed := replayed + 1;
      }
    }
    assert found[..i] == found && outcomes[..i] == outcomes;
  }

  // ---------------------------------------------------------------- what a scan restores

  predicate AllSucceed(outcomes: seq<Outcomes>) {
    forall o :: o in outcomes ==> o.stat && o.row.Known? && o.stored
  }

  predicate Synced(f: File) {
    f.sent == f.Last()
  }

  /** The calls about a file that was found went well, and it is not older than its stamp. */
  ghost predicate SentBy(files: map<nat, File>, found: seq<nat>, outcomes: seq<Outcomes>, f: nat)
    requires |found| == |outcomes| && f in files
  {
    exists i :: 0 <= i < |found| && found[i] == f && outcomes[i].stat && outcomes[i].row.Known? && outcomes[i].stored &&
                files[f].mtime >= files[f].watermark
  }

  lemma SentByMore(files: map<nat, File>, found: seq<nat>, outcomes: seq<Outcomes>, f: nat)
    requires |found| == |outcomes| && f in files && found != []
    ensures var n := |found| - 1;
            SentBy(files, found, outcomes, f) <==>
            || SentBy(files, found[..n], outcomes[..n], f)
            || (found[n] == f && outcomes[n].stat && outcomes[n].row.Known? && outcomes[n].stored &&
                files[f].mtime >= files[f].watermark)
  {
    var n := |found| - 1;
    if i :| 0 <= i < n && found[i] == f && outcomes[i].stat && outcomes[i].row.Known? && outcomes[i].stored {
      assert found[..n][i] == f && outcomes[..n][i] == outcomes[i];
    }
  }

  /** Whatever calls fail: a scan leaves a file unsynced exactly when it was, unless the walk
      has found it, its time and its stamp could be had, it is not older than the stamp, and
      its upload was stored. No scan changes a cache file. */
  lemma {:induction false} ScanSyncsExactly(files: map<nat, File>, found: seq<nat>, outcomes: seq<Outcomes>, f: nat)
    requires |found| == |outcomes| && (forall x :: x in found ==> x in files) && f in files
    ensures var after := Scanned(files, found, outcomes)[f];
            && (Synced(after) <==> Synced(files[f]) || SentBy(files, found, outcomes, f))
            && after.history == files[f].history && (Synced(after) || after == files[f])
  {
    if found != [] {
      var n := |found| - 1;
      assert found == found[..n] + [found[n]];
      ScanSyncsExactly(files, found[..n], outcomes[..n], f);
      SentByMore(files, found, outcomes, f);
    }
  }

  /** A scan whose calls succeed leaves a file behind exactly when the walk does not
      find it or it is older than its stamp. No scan changes a cache file. */
  lemma ScanSyncs(files: map<nat, File>, found: seq<nat>, outcomes: seq<Outcomes>, f: nat)
    requires |found| == |outcomes| && (forall x :: x in found ==> x in files) && AllSucceed(outcomes) && f in files
    ensures Synced(Scanned(files, found, outcomes)[f]) <==>
            Synced(files[f]) || (f in found && files[f].mtime >= files[f].watermark)
    ensures Scanned(files, found, outcomes)[f].history == files[f].history
    ensures Synced(Scanned(files, found, outcomes)[f]) || Scanned(files, found, outcomes)[f] == files[f]
  {
    hide Scanned;
    ScanSyncsExactly(files, found, outcomes, f);
    if i :| 0 <= i < |found| && found[i] == f {
      assert outcomes[i] in outcomes;
    }
  }

  /** Crash closure: whatever the run up to a crash, a scan over all cache files whose
      calls succeed gives the cloud what every cache file holds. It rests on the
      stamps being no later than the reads they stand for. */
  lemma ScanAfterAnyCrash(states: seq<Sys>, steps: seq<Step>, k: nat, found: seq<nat>, outcomes: seq<Outcomes>, f: nat)
    requires Run(states, steps) && k < |states| && f in states[k].files
    requires |found| == |outcomes| && AllSucceed(outcomes) && (forall x :: x in states[k].files <==> x in found)
    ensures var after := Scanned(states[k].files, found, outcomes)[f];
            && after.sent == after.Last() && after.history == states[k].files[f].history
  {
    RunKeepsInv(states, steps, k);
    assert ValidFile(states[k].files[f], states[k].clock);
    ScanSyncs(states[k].files, found, outcomes, f);
  }

  /** A tie counts: a file created and left by a crash within the millisecond of its
      stamp is not newer than the stamp, and the cloud has nothing of it. */
  lemma TiesMatter() returns (states: seq<Sys>, steps: seq<Step>)
    ensures Run(states, steps) && steps == [OpenEmptied(0, 0), Crash] && 0 in states[2].files
    ensures !Synced(states[2].files[0]) && !(states[2].files[0].mtime > states[2].files[0].watermark)
  {
    steps := [OpenEmptied(0, 0), Crash];
    var s1 := Next(START, steps[0]);
    states := [START, s1, Next(s1, steps[1])];
  }

  /** An engine that stamps after the file has changed again hides the change from
      every scan. */
  lemma LateStampHidesAWrite(found: seq<nat>, outcomes: seq<Outcomes>)
    requires |found| == |outcomes| && (forall x :: x in found ==> x == 0) && AllSucceed(outcomes)
    ensures var late := map[0 := File(["a", "b"], [Engine, ByHandle(1)], 0, 5, 6)];
            !Synced(Scanned(late, found, outcomes)[0])
  {
    ScanSyncs(map[0 := File(["a", "b"], [Engine, ByHandle(1)], 0, 5, 6)], found, outcomes, 0);
  }
}
