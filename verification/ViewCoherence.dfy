/** The attribute cache against the engine's listing: changes reach the mount as
    events over a stream that drops and comes back, through a queue, one at a time,
    while listings and local operations go on. */
module ViewCoherence {
  import opened Options
  import opened PathText
  import opened PathMaps
  import opened PathMapLaws
  import opened MountState
  import opened MountRuns
  import opened MountLaws
  import opened Subscription
  import opened VisibleNames

  datatype Phase = Never | Up | Down

  /** `remote` is what the engine would list; `wire` holds the event lines written to
      the current stream and not yet read, `queue` the invalidations not yet applied.
      `early` and `touched` are the inodes the theorem does not speak of until they are
      listed again: attributes cached before the first subscribe, and those a local
      operation set or moved, or a dirty handle protected from an applied change. */
  datatype View = View(fs: Fs, remote: map<string, ListEntry>, phase: Phase, wire: seq<Event>, queue: seq<Invalidation>,
                       early: set<nat>, touched: set<nat>)

  datatype Step =
    | EngineChanges(remote: map<string, ListEntry>, events: seq<Event>)
    | StreamDrops
    | Subscribes
    | ReadsLine
    | Applies
    | Lists(listing: seq<ListEntry>)
    | Local(op: Op)

  /** The event is a line that says `path` may have changed. */
  ghost predicate Tells(parse: string -> Option<Json>, ev: Event, path: string) {
    ev.Line? && parse(ev.text).Some? && Says(parse(ev.text).value, path)
  }

  ghost predicate SameEntry(a: map<string, ListEntry>, b: map<string, ListEntry>, path: string) {
    (path in a <==> path in b) && (path in a ==> a[path] == b[path])
  }

  /** A local operation that gets no listing (`[]` tells it nothing), so that what
      it does to attributes is its own doing. */
  predicate NoListing(op: Op) {
    match op
    case DoLookup(_, _, listing) => listing.None? || listing.value == []
    case DoGetattr(_, listing) => listing.None? || listing.value == []
    case DoReaddir(_, listing) => listing.None? || listing.value == []
    case DoCreate(_, _, listing, _, _, _) => listing.None? || listing.value == []
    case DoMknod(_, _, _, listing, _, _, _, _) => listing.None? || listing.value == []
    case DoMkdir(_, _, listing, _, _) => listing.None? || listing.value == []
    case DoRename(_, _, _, _, listing, _) => listing.None? || listing.value == []
    case DoApply(_) => false
    case _ => true
  }

  ghost predicate Truthful(remote: map<string, ListEntry>, listing: seq<ListEntry>) {
    forall e :: e in listing ==> e.path in remote && remote[e.path] == e
  }

  /** What the steps rest on: listings are true, and while a stream is up every
      changed path is told by some event the engine writes. */
  ghost predicate Enabled(parse: string -> Option<Json>, v: View, step: Step) {
    match step
    case EngineChanges(remote, events) =>
      v.phase.Up? ==> forall path ::
        !SameEntry(v.remote, remote, path) ==> exists i :: 0 <= i < |events| && Tells(parse, events[i], path)
    case StreamDrops => v.phase.Up?
    case Subscribes => !v.phase.Up?
    case ReadsLine => v.wire != []
    case Applies => v.queue != []
    case Lists(listing) => Truthful(v.remote, listing)
    case Local(op) => KernelKeepsTo(v.fs, op) && NoListing(op)
  }

  function ListedInodes(fs: Fs, listing: seq<ListEntry>): set<nat> {
    set e | e in listing && Representable(Basename(e.path)) && e.path in fs.names.toInode :: fs.names.toInode[e.path]
  }

  /** The inodes whose attribute or path is not what it was. */
  function Changed(fs: Fs, fs': Fs): set<nat> {
    set ino | ino in fs'.attrs &&
      !(ino in fs.attrs && fs'.attrs[ino] == fs.attrs[ino] &&
        (ino in fs'.names.toPath ==> ino in fs.names.toPath && fs'.names.toPath[ino] == fs.names.toPath[ino]))
  }

  ghost function Next(nfc: string -> string, parse: string -> Option<Json>, v: View, step: Step): View
    requires Enabled(parse, v, step)
  {
    match step
    case EngineChanges(remote, events) => v.(remote := remote, wire := if v.phase.Up? then v.wire + events else v.wire)
    case StreamDrops => v.(phase := Down)
    case Subscribes =>
      if v.phase.Never? then v.(phase := Up, wire := [], early := v.fs.attrs.Keys)
      else v.(phase := Up, wire := [], queue := v.queue + [All])
    case ReadsLine =>
      var change := InvalidationFor(parse, v.wire[0]);
      v.(wire := v.wire[1..], queue := if change.Some? then v.queue + [change.value] else v.queue)
    case Applies =>
      v.(fs := Applied(v.fs, v.queue[0]), queue := v.queue[1..],
         touched := v.touched + set i | i in v.fs.attrs && Unsent(v.fs, i))
    case Lists(listing) =>
      var fs := Populated(v.fs, listing);
      v.(fs := fs, early := v.early - ListedInodes(fs, listing), touched := v.touched - ListedInodes(fs, listing))
    case Local(op) =>
      var fs := Do(nfc, v.fs, op);
      v.(fs := fs, touched := v.touched + Changed(v.fs, fs))
  }

  ghost predicate Takes(nfc: string -> string, parse: string -> Option<Json>, v: View, step: Step, v': View) {
    Enabled(parse, v, step) && v' == Next(nfc, parse, v, step)
  }

  /** A run from before the first subscribe, whatever is cached by then. */
  ghost predicate ViewRun(nfc: string -> string, parse: string -> Option<Json>, states: seq<View>, steps: seq<Step>) {
    && |states| == |steps| + 1 && states[0].phase.Never? && Ordered(states[0].fs)
    && forall i :: 0 <= i < |steps| ==> Takes(nfc, parse, states[i], steps[i], states[i + 1])
  }

  // ---------------------------------------------------------------- what every step keeps

  ghost predicate Speaks(v: View, ino: nat) {
    ino in v.fs.attrs && ino in v.fs.names.toPath && ino !in v.early && ino !in v.touched
  }

  ghost predicate Current(v: View, ino: nat)
    requires ino in v.fs.attrs && ino in v.fs.names.toPath
  {
    var path := v.fs.names.toPath[ino];
    path in v.remote && Describes(v.fs.attrs[ino], v.remote[path])
  }

  /** An event on its way, or a queued invalidation, will drop the attribute of `path`. */
  ghost predicate Pending(parse: string -> Option<Json>, wire: seq<Event>, queue: seq<Invalidation>, path: string) {
    || (exists i :: 0 <= i < |wire| && Tells(parse, wire[i], path))
    || (exists i :: 0 <= i < |queue| && Hits(queue[i], path))
  }

  ghost predicate Coherent(parse: string -> Option<Json>, v: View) {
    v.phase.Up? ==> forall ino :: Speaks(v, ino) ==>
      Current(v, ino) || Pending(parse, v.wire, v.queue, v.fs.names.toPath[ino])
  }

  ghost predicate Inv(parse: string -> Option<Json>, v: View) {
    Ordered(v.fs) && Coherent(parse, v)
  }

  lemma ChangeKeepsCoherence(nfc: string -> string, parse: string -> Option<Json>, v: View, step: Step, ino: nat)
    requires Enabled(parse, v, step) && step.EngineChanges? && v.phase.Up? && Speaks(v, ino)
    requires Current(v, ino) || Pending(parse, v.wire, v.queue, v.fs.names.toPath[ino])
    ensures var v' := Next(nfc, parse, v, step);
            Current(v', ino) || Pending(parse, v'.wire, v'.queue, v.fs.names.toPath[ino])
  {
    var path := v.fs.names.toPath[ino];
    var wire := v.wire + step.events;
    if Pending(parse, v.wire, v.queue, path) {
      if i :| 0 <= i < |v.wire| && Tells(parse, v.wire[i], path) {
        assert wire[i] == v.wire[i];
      }
    } else if !SameEntry(v.remote, step.remote, path) {
      var i :| 0 <= i < |step.events| && Tells(parse, step.events[i], path);
      assert wire[|v.wire| + i] == step.events[i];
    }
  }

  lemma ReadKeepsPending(parse: string -> Option<Json>, v: View, path: string)
    requires v.wire != [] && Pending(parse, v.wire, v.queue, path)
    ensures var change := InvalidationFor(parse, v.wire[0]);
            Pending(parse, v.wire[1..], if change.Some? then v.queue + [change.value] else v.queue, path)
  {
    hide InvalidationFor, Hits, Says;
    var change := InvalidationFor(parse, v.wire[0]);
    var queue := if change.Some? then v.queue + [change.value] else v.queue;
    if i :| 0 <= i < |v.queue| && Hits(v.queue[i], path) {
      assert queue[i] == v.queue[i];
    } else {
      var i :| 0 <= i < |v.wire| && Tells(parse, v.wire[i], path);
      if i == 0 {
        HitsWhatIsSaid(parse, v.wire[0], path);
        assert Hits(queue[|v.queue|], path);
      } else {
        assert v.wire[1..][i - 1] == v.wire[i];
      }
    }
  }

  /** What an applied change leaves cached, it did not hit, or a dirty handle kept. */
  lemma ApplyKeepsPending(parse: string -> Option<Json>, v: View, ino: nat)
    requires v.queue != [] && ino in Applied(v.fs, v.queue[0]).attrs && ino in v.fs.names.toPath && !Unsent(v.fs, ino)
    requires Pending(parse, v.wire, v.queue, v.fs.names.toPath[ino])
    ensures Pending(parse, v.wire, v.queue[1..], v.fs.names.toPath[ino])
  {
    hide Says;
    var path := v.fs.names.toPath[ino];
    assert !Drops(v.fs, v.queue[0], ino) && !Hits(v.queue[0], path);
    if i :| 0 <= i < |v.queue| && Hits(v.queue[i], path) {
      assert v.queue[1..][i - 1] == v.queue[i];
    }
  }

  /** After a true listing, a listed path has its entry's attribute. */
  lemma {:induction false} ListedAttr(fs: Fs, remote: map<string, ListEntry>, listing: seq<ListEntry>, e: ListEntry)
    requires NamesInv(fs.names) && Truthful(remote, listing) && e in listing && Representable(Basename(e.path))
    ensures var fs' := Populated(fs, listing);
            && e.path in fs'.names.toInode && fs'.names.toInode[e.path] in fs'.attrs
            && fs'.attrs[fs'.names.toInode[e.path]] == AttrOf(e)
  {
    hide Representable, Basename, AttrOf;
    var n := |listing| - 1;
    var before := Populated(fs, listing[..n]);
    PopulatedExtends(fs, listing[..n]);
    InternKeeps(before.names, listing[n].path);
    if listing[n].path != e.path {
      assert e in listing[..n];
      ListedAttr(fs, remote, listing[..n], e);
    }
  }

  lemma ListKeepsCoherence(parse: string -> Option<Json>, v: View, listing: seq<ListEntry>, ino: nat)
    requires Ordered(v.fs) && Truthful(v.remote, listing)
    requires Speaks(v, ino) ==> Current(v, ino) || Pending(parse, v.wire, v.queue, v.fs.names.toPath[ino])
    ensures var fs := Populated(v.fs, listing);
            var listed := ListedInodes(fs, listing);
            var v' := v.(fs := fs, early := v.early - listed, touched := v.touched - listed);
            Speaks(v', ino) ==> Current(v', ino) || Pending(parse, v.wire, v.queue, fs.names.toPath[ino])
  {
    hide Representable, Basename, AttrOf, Populated, Pending, Describes;
    var fs := Populated(v.fs, listing);
    if ino in fs.attrs && ino in fs.names.toPath {
      PopulatedAttr(v.fs, listing, ino);
      if ino in ListedInodes(fs, listing) {
        var e :| e in listing && Representable(Basename(e.path)) && e.path in fs.names.toInode &&
                 fs.names.toInode[e.path] == ino;
        ListedAttr(v.fs, v.remote, listing, e);
        AttrDescribes(e);
      }
    }
  }

  lemma LocalKeepsCoherence(nfc: string -> string, parse: string -> Option<Json>, v: View, op: Op, ino: nat)
    requires Enabled(parse, v, Local(op))
    requires Speaks(v, ino) ==> Current(v, ino) || Pending(parse, v.wire, v.queue, v.fs.names.toPath[ino])
    ensures var v' := Next(nfc, parse, v, Local(op));
            Speaks(v', ino) ==> Current(v', ino) || Pending(parse, v'.wire, v'.queue, v'.fs.names.toPath[ino])
  {
    hide Do, AttrOf, Pending, KernelKeepsTo;
  }

  lemma StepKeepsOrder(nfc: string -> string, parse: string -> Option<Json>, v: View, step: Step)
    requires Ordered(v.fs) && Enabled(parse, v, step)
    ensures Ordered(Next(nfc, parse, v, step).fs)
  {
    hide Do, Populated, InvalidationFor, Changed, ListedInodes, Kept;
    if step.Lists? {
      PopulatedExtends(v.fs, step.listing);
    } else if step.Local? {
      OpKeepsOrder(nfc, v.fs, step.op);
    }
  }

  lemma StepKeepsCoherence(nfc: string -> string, parse: string -> Option<Json>, v: View, step: Step)
    requires Inv(parse, v) && Enabled(parse, v, step)
    ensures Inv(parse, Next(nfc, parse, v, step))
  {
    hide Do, Populated, InvalidationFor, Changed, ListedInodes, Kept, KernelKeepsTo, NoListing, Says, AttrOf;
    StepKeepsOrder(nfc, parse, v, step);
    var v' := Next(nfc, parse, v, step);
    forall ino | v'.phase.Up? && Speaks(v', ino)
      ensures Current(v', ino) || Pending(parse, v'.wire, v'.queue, v'.fs.names.toPath[ino])
    {
      match step
      case EngineChanges(_, _) => ChangeKeepsCoherence(nfc, parse, v, step, ino);
      case Subscribes =>
        if !v.phase.Never? {
          assert Hits(v'.queue[|v.queue|], v'.fs.names.toPath[ino]);
        }
      case ReadsLine =>
        if !Current(v, ino) {
          ReadKeepsPending(parse, v, v.fs.names.toPath[ino]);
        }
      case Applies =>
        if !Current(v, ino) {
          ApplyKeepsPending(parse, v, ino);
        }
      case Lists(listing) => ListKeepsCoherence(parse, v, listing, ino);
      case Local(op) => LocalKeepsCoherence(nfc, parse, v, op, ino);
      case StreamDrops =>
    }
  }

  lemma {:induction false} RunKeepsCoherence(nfc: string -> string, parse: string -> Option<Json>, states: seq<View>,
                                             steps: seq<Step>, k: nat)
    requires ViewRun(nfc, parse, states, steps) && k < |states|
    ensures Inv(parse, states[k])
  {
    hide Next, Coherent, Ordered, Enabled;
    if k == 0 {
      NothingClaimed(parse, states[0]);
    } else {
      RunKeepsCoherence(nfc, parse, states, steps, k - 1);
      assert Takes(nfc, parse, states[k - 1], steps[k - 1], states[k]);
      StepKeepsCoherence(nfc, parse, states[k - 1], steps[k - 1]);
    }
  }

  lemma NothingClaimed(parse: string -> Option<Json>, v: View)
    requires v.phase.Never?
    ensures Coherent(parse, v)
  {
  }

  /** The cache is coherent: once the stream is up and every event has been applied,
      a cached attribute that was listed since the first subscribe, and that no local
      operation has touched since it was last listed, is what the engine would list
      now. */
  lemma DrainedViewIsCurrent(nfc: string -> string, parse: string -> Option<Json>, states: seq<View>,
                             steps: seq<Step>, k: nat, ino: nat)
    requires ViewRun(nfc, parse, states, steps) && k < |states|
    requires states[k].phase.Up? && states[k].wire == [] && states[k].queue == [] && Speaks(states[k], ino)
    ensures Current(states[k], ino)
  {
    RunKeepsCoherence(nfc, parse, states, steps, k);
  }

  /** Such a run: once the stream is up an entry is listed, the engine changes it and says
      so; when the event has been read and applied, its attribute is no longer cached. */
  lemma ToldChangeIsApplied(nfc: string -> string, parse: string -> Option<Json>, was: ListEntry, now: ListEntry,
                            text: string)
    returns (states: seq<View>, steps: seq<Step>)
    requires was.path == "/a" == now.path && parse(text) == Some(ChangeOfA())
    ensures ViewRun(nfc, parse, states, steps) && states[0].fs == NEW_MOUNT
    ensures steps == [Subscribes, Lists([was]), EngineChanges(map["/a" := now], [Line(text)]), ReadsLine, Applies]
    ensures 2 in states[2].fs.attrs && 2 !in states[5].fs.attrs
  {
    hide AttrOf, Populated, Next, Applied, Truthful, Tells;
    OneListed(was);
    steps := [Subscribes, Lists([was]), EngineChanges(map["/a" := now], [Line(text)]), ReadsLine, Applies];
    var s0 := View(NEW_MOUNT, map["/a" := was], Never, [], [], {}, {});
    var s1 := Next(nfc, parse, s0, steps[0]);
    StreamUp(nfc, parse, s0);
    ListTaken(nfc, parse, s1, was);
    var s2 := Next(nfc, parse, s1, steps[1]);
    ChangeIsTold(parse, s2, now, text);
    ChangeTaken(nfc, parse, s2, now, text);
    var s3 := Next(nfc, parse, s2, steps[2]);
    var s4 := Next(nfc, parse, s3, steps[3]);
    AppliedDrops(s4.fs);
    states := [s0, s1, s2, s3, s4, Next(nfc, parse, s4, steps[4])];
    LastTaken(nfc, parse, s4);
  }

  function ChangeOfA(): Json {
    Json(Some("view.invalidated"), None, Some([Some("/a")]))
  }

  lemma StreamUp(nfc: string -> string, parse: string -> Option<Json>, v: View)
    requires v.phase.Never? && v.fs == NEW_MOUNT
    ensures Takes(nfc, parse, v, Subscribes, Next(nfc, parse, v, Subscribes))
    ensures Next(nfc, parse, v, Subscribes) == v.(phase := Up, wire := [], early := {})
  {
    assert v.fs.attrs.Keys == {};
  }

  lemma ListTaken(nfc: string -> string, parse: string -> Option<Json>, v: View, e: ListEntry)
    requires e.path in v.remote && v.remote[e.path] == e
    ensures Takes(nfc, parse, v, Lists([e]), Next(nfc, parse, v, Lists([e])))
    ensures var r := Next(nfc, parse, v, Lists([e]));
            r == v.(fs := Populated(v.fs, [e]), early := r.early, touched := r.touched)
  {
    hide Populated, ListedInodes;
  }

  lemma ChangeTaken(nfc: string -> string, parse: string -> Option<Json>, v: View, now: ListEntry, text: string)
    requires v.phase.Up? && v.wire == [] && v.queue == []
    requires Enabled(parse, v, EngineChanges(map["/a" := now], [Line(text)]))
    requires InvalidationFor(parse, Line(text)) == Some(Paths(["/a"]))
    ensures var s := Next(nfc, parse, v, EngineChanges(map["/a" := now], [Line(text)]));
            && Takes(nfc, parse, v, EngineChanges(map["/a" := now], [Line(text)]), s)
            && Takes(nfc, parse, s, ReadsLine, Next(nfc, parse, s, ReadsLine))
            && Next(nfc, parse, s, ReadsLine).fs == v.fs && Next(nfc, parse, s, ReadsLine).queue == [Paths(["/a"])]
  {
    hide InvalidationFor, Tells;
    assert [] + [Line(text)] == [Line(text)];
  }

  lemma LastTaken(nfc: string -> string, parse: string -> Option<Json>, v: View)
    requires v.queue != []
    ensures Takes(nfc, parse, v, Applies, Next(nfc, parse, v, Applies))
    ensures Next(nfc, parse, v, Applies).fs == Applied(v.fs, v.queue[0])
  {
    hide Applied;
  }

  lemma ChangeIsTold(parse: string -> Option<Json>, v: View, now: ListEntry, text: string)
    requires v.remote.Keys == {"/a"} && parse(text) == Some(ChangeOfA())
    ensures Enabled(parse, v, EngineChanges(map["/a" := now], [Line(text)]))
    ensures InvalidationFor(parse, Line(text)) == Some(Paths(["/a"]))
  {
    assert [Some("/a")][0] == Some("/a") && Concerns(Some("/a"), "/a");
    assert Says(ChangeOfA(), "/a");
    assert [Line(text)][0] == Line(text) && Tells(parse, [Line(text)][0], "/a");
    var r := InvalidationFor(parse, Line(text));
    assert r.value.roots == ["/a"];
  }

  lemma AppliedDrops(fs: Fs)
    requires fs.names == Names(3, map["" := 1, "/a" := 2], map[1 := "", 2 := "/a"]) && fs.handles == map[]
    ensures 2 !in Applied(fs, Paths(["/a"])).attrs
  {
    assert "/a" in (set r | r in ["/a"]);
  }

  /** The attributes of before the first subscribe are left out for a reason: the
      first subscribe reports no gap, so a change before it is never told. */
  lemma FirstSubscribeTellsNothing(nfc: string -> string, parse: string -> Option<Json>, was: ListEntry, now: ListEntry)
    returns (states: seq<View>, steps: seq<Step>)
    requires was.path == "/a" == now.path && AttrOf(was) != AttrOf(now)
    ensures ViewRun(nfc, parse, states, steps) && |steps| == 3 && states[0].fs == NEW_MOUNT
    ensures states[3].phase.Up? && states[3].wire == [] && states[3].queue == []
    ensures 2 in states[3].fs.attrs && 2 in states[3].fs.names.toPath && !Current(states[3], 2)
  {
    hide AttrOf, Describes;
    AttrDescribes(now);
    steps := [Lists([was]), EngineChanges(map["/a" := now], []), Subscribes];
    var s0 := View(NEW_MOUNT, map["/a" := was], Never, [], [], {}, {});
    OneListed(was);
    var s1 := Next(nfc, parse, s0, steps[0]);
    var s2 := Next(nfc, parse, s1, steps[1]);
    states := [s0, s1, s2, Next(nfc, parse, s2, steps[2])];
  }

  lemma OneListed(e: ListEntry)
    requires e.path == "/a"
    ensures var fs := Populated(NEW_MOUNT, [e]);
            && fs == NEW_MOUNT.(names := fs.names, attrs := fs.attrs) && fs.attrs == map[2 := AttrOf(e)]
            && fs.names == Names(3, map["" := 1, "/a" := 2], map[1 := "", 2 := "/a"])
    ensures Ordered(NEW_MOUNT)
  {
    assert [e][..0] == [];
    hide LastSlash, Basename;
    LastSlashIs("/a", 0);
    assert Utf8Length("a") == 1 by {
      assert "a"[..0] == "";
    }
    assert Representable("a");
  }

  // ---------------------------------------------------------------- listings within operations

  function WithListing(op: Op, es: Option<seq<ListEntry>>): Op {
    match op
    case DoLookup(parent, name, _) => DoLookup(parent, name, es)
    case DoGetattr(ino, _) => DoGetattr(ino, es)
    case DoReaddir(dir, _) => DoReaddir(dir, es)
    case DoCreate(parent, name, _, reply, local, now) => DoCreate(parent, name, es, reply, local, now)
    case DoMknod(parent, name, regular, _, reply, local, upload, now) =>
      DoMknod(parent, name, regular, es, reply, local, upload, now)
    case DoMkdir(parent, name, _, made, now) => DoMkdir(parent, name, es, made, now)
    case DoRename(srcParent, srcName, dstParent, dstName, _, renamed) =>
      DoRename(srcParent, srcName, dstParent, dstName, es, renamed)
    case _ => op
  }

  lemma CheckListsFirst(fs: Fs, cp: string, name: string, es: seq<ListEntry>)
    requires NamesInv(fs.names)
    ensures CollisionCheck(fs, cp, name, Some(es)) == CollisionCheck(fs, cp, name, None) ||
            CollisionCheck(fs, cp, name, Some(es)) == CollisionCheck(Populated(fs, es), cp, name, Some([]))
  {
    hide Representable, Basename, AttrOf, VisibleName;
    if VisibleName(fs.raw, cp) != name && !HasAttr(fs, cp) {
      PopulatedExtends(fs, es);
      var fs' := Populated(fs, es);
      if HasAttr(fs', cp) {
        PopulatedAttr(fs, es, fs'.names.toInode[cp]);
        assert InListing(es, cp);
      } else if e :| e in es && e.path == cp && Representable(Basename(e.path)) {
        PopulatedHas(fs, es, e);
      }
    }
  }

  /** `op` with the listing `es` does what it does without one, or what the listing
      followed by `op` without one does. */
  ghost predicate ListsFirst(nfc: string -> string, fs: Fs, op: Op, es: seq<ListEntry>)
    requires KernelKeepsTo(fs, WithListing(op, Some(es)))
  {
    var all, first := WithListing(op, Some(es)), Populated(fs, es);
    || (KernelKeepsTo(fs, WithListing(op, None)) && Do(nfc, fs, all) == Do(nfc, fs, WithListing(op, None)))
    || (KernelKeepsTo(first, WithListing(op, Some([]))) &&
        Do(nfc, fs, all) == Do(nfc, first, WithListing(op, Some([]))))
  }

  lemma CreateListsFirst(nfc: string -> string, fs: Fs, parent: nat, name: string, es: seq<ListEntry>,
                         reply: Option<(string, HandleId)>, local: bool, now: int)
    requires NamesInv(fs.names)
    ensures var all := Create(nfc, fs, parent, name, Some(es), reply, local, now);
            all == Create(nfc, fs, parent, name, None, reply, local, now) ||
            all == Create(nfc, Populated(fs, es), parent, name, Some([]), reply, local, now)
  {
    hide CollisionCheck, Populated, Created;
    PopulatedExtends(fs, es);
    if parent in fs.names.toPath {
      CheckListsFirst(fs, ChildPath(nfc, fs.names.toPath[parent], name), name, es);
    }
  }

  lemma MkdirListsFirst(nfc: string -> string, fs: Fs, parent: nat, name: string, es: seq<ListEntry>, made: bool,
                        now: int)
    requires NamesInv(fs.names)
    ensures var all := Mkdir(nfc, fs, parent, name, Some(es), made, now).fs;
            all == Mkdir(nfc, fs, parent, name, None, made, now).fs ||
            all == Mkdir(nfc, Populated(fs, es), parent, name, Some([]), made, now).fs
  {
    hide CollisionCheck, Populated, Entered;
    PopulatedExtends(fs, es);
    if parent in fs.names.toPath {
      CheckListsFirst(fs, ChildPath(nfc, fs.names.toPath[parent], name), name, es);
    }
  }

  lemma RenameListsFirst(nfc: string -> string, fs: Fs, srcParent: nat, srcName: string, dstParent: nat,
                         dstName: string,
                         es: seq<ListEntry>, renamed: bool)
    requires NamesInv(fs.names)
    ensures var all := Rename(nfc, fs, srcParent, srcName, dstParent, dstName, Some(es), renamed).fs;
            all == Rename(nfc, fs, srcParent, srcName, dstParent, dstName, None, renamed).fs ||
            all == Rename(nfc, Populated(fs, es), srcParent, srcName, dstParent, dstName, Some([]), renamed).fs
  {
    hide CollisionCheck, Populated, MovedTo;
    PopulatedExtends(fs, es);
    if srcParent in fs.names.toPath && dstParent in fs.names.toPath {
      CheckListsFirst(fs, ChildPath(nfc, fs.names.toPath[dstParent], dstName), dstName, es);
    }
  }

  lemma ReadListsFirst(nfc: string -> string, fs: Fs, op: Op, es: seq<ListEntry>)
    requires NamesInv(fs.names) && KernelKeepsTo(fs, WithListing(op, Some(es)))
    requires op.DoLookup? || op.DoGetattr? || op.DoReaddir?
    ensures ListsFirst(nfc, fs, op, es)
  {
    hide Populated, LastSlash, VisibleName, InListing, HasAttr;
    PopulatedExtends(fs, es);
    NothingListed(Populated(fs, es));
  }

  lemma NothingListed(fs: Fs)
    ensures Populated(fs, []) == fs
  {
  }

  lemma CreationListsFirst(nfc: string -> string, fs: Fs, op: Op, es: seq<ListEntry>)
    requires NamesInv(fs.names) && KernelKeepsTo(fs, WithListing(op, Some(es))) && (op.DoCreate? || op.DoMknod?)
    ensures ListsFirst(nfc, fs, op, es)
  {
    hide Populated, Create, Release;
    CreateListsFirst(nfc, fs, op.parent, op.name, es, op.reply, op.local, op.now);
  }

  lemma ChangeListsFirst(nfc: string -> string, fs: Fs, op: Op, es: seq<ListEntry>)
    requires NamesInv(fs.names) && KernelKeepsTo(fs, WithListing(op, Some(es))) && (op.DoMkdir? || op.DoRename?)
    ensures ListsFirst(nfc, fs, op, es)
  {
    hide Populated, Mkdir, Rename, NamesInv;
    match op
    case DoMkdir(parent, name, _, made, now) => MkdirListsFirst(nfc, fs, parent, name, es, made, now);
    case DoRename(srcParent, srcName, dstParent, dstName, _, renamed) =>
      RenameListsFirst(nfc, fs, srcParent, srcName, dstParent, dstName, es, renamed);
  }

  /** An operation that gets a listing is the listing followed by the operation
      without one, so `Lists` and `Local` steps make up every run. */
  lemma ListingComesFirst(nfc: string -> string, fs: Fs, op: Op, es: seq<ListEntry>)
    requires NamesInv(fs.names) && KernelKeepsTo(fs, WithListing(op, Some(es)))
    ensures ListsFirst(nfc, fs, op, es)
  {
    hide Do, Populated, NamesInv;
    if op.DoCreate? || op.DoMknod? {
      CreationListsFirst(nfc, fs, op, es);
    } else if op.DoMkdir? || op.DoRename? {
      ChangeListsFirst(nfc, fs, op, es);
    } else if op.DoLookup? || op.DoGetattr? || op.DoReaddir? {
      ReadListsFirst(nfc, fs, op, es);
    }
  }
}
