/** The scan at start-up as a whole: what the walk of the cache directory emits is what
    gets uploaded again. */
module RecoveryWalk {
  import opened Durability
  import opened Recovery
  import W = CacheWalk

  /** The cache files among the emitted paths; a path the engine has no row for is
      skipped by the scan and stands for none. */
  function Found(emitted: seq<string>, fileAt: map<string, nat>): seq<nat> {
    if emitted == [] then []
    else Found(emitted[..|emitted| - 1], fileAt) +
         var p := emitted[|emitted| - 1]; if p in fileAt then [fileAt[p]] else []
  }

  lemma {:induction false} FoundAre(emitted: seq<string>, fileAt: map<string, nat>, f: nat)
    ensures f in Found(emitted, fileAt) <==> exists p :: p in emitted && p in fileAt && fileAt[p] == f
  {
    if emitted != [] {
      var n := |emitted| - 1;
      FoundAre(emitted[..n], fileAt, f);
      assert emitted == emitted[..n] + [emitted[n]];
    }
  }

  /** Every cache file is a regular file of the tree, under a path the engine knows it
      by; the engine knows no other. */
  ghost predicate Cached(root: W.Node, files: map<nat, File>, fileAt: map<string, nat>) {
    && (forall p :: p in fileAt ==> fileAt[p] in files)
    && (forall f :: f in files ==> exists names :: W.Reaches(root, names) && KnownAs(names, fileAt, f))
  }

  ghost predicate KnownAs(names: seq<string>, fileAt: map<string, nat>, f: nat) {
    var p := W.Remote(W.Below("", names));
    p in fileAt && fileAt[p] == f
  }

  /** The walk finds exactly the cache files. */
  lemma WalkFindsAll(root: W.Node, emitted: seq<string>, files: map<nat, File>, fileAt: map<string, nat>, f: nat)
    requires multiset(emitted) == W.Files("", root) && Cached(root, files, fileAt)
    ensures f in files <==> f in Found(emitted, fileAt)
  {
    FoundAre(emitted, fileAt, f);
    if f in files {
      var names :| W.Reaches(root, names) && KnownAs(names, fileAt, f);
      W.ReachedIsEmitted("", root, names);
      assert W.Remote(W.Below("", names)) in multiset(emitted);
    }
  }

  /** After a crash at any step, a walk of the cache directory whose files are uploaded
      again, all calls succeeding, gives the cloud what every cache file holds. */
  lemma WalkAndScanAfterAnyCrash(states: seq<Sys>, steps: seq<Step>, k: nat, root: W.Node, emitted: seq<string>,
                                 fileAt: map<string, nat>, outcomes: seq<Outcomes>, f: nat)
    requires Run(states, steps) && k < |states| && f in states[k].files
    requires multiset(emitted) == W.Files("", root) && Cached(root, states[k].files, fileAt)
    requires |Found(emitted, fileAt)| == |outcomes| && AllSucceed(outcomes)
    ensures forall x :: x in Found(emitted, fileAt) ==> x in states[k].files
    ensures var after := Scanned(states[k].files, Found(emitted, fileAt), outcomes)[f];
            && after.sent == after.Last() && after.history == states[k].files[f].history
  {
    forall x
      ensures x in states[k].files <==> x in Found(emitted, fileAt)
    {
      WalkFindsAll(root, emitted, states[k].files, fileAt, x);
    }
    ScanAfterAnyCrash(states, steps, k, Found(emitted, fileAt), outcomes, f);
  }
}
