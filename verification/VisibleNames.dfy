/** Entries are keyed by NFC paths but keep the name they were created under:
    what `readdir` shows, `lookup` resolves, and to the same inode. */
module VisibleNames {
  import opened Options
  import opened PathText
  import opened PathMaps
  import opened PathMapLaws
  import opened MountState
  import opened MountRuns

  /** A remembered name is one component, normalises to the last component of the
      path it is remembered for, and differs from it. */
  ghost predicate RawInv(nfc: string -> string, raw: map<string, string>) {
    forall cp :: cp in raw ==> Remembered(nfc, cp, raw[cp])
  }

  ghost predicate Remembered(nfc: string -> string, cp: string, name: string) {
    '/' !in name && nfc(name) == Basename(cp) && name != Basename(cp)
  }

  lemma BasenameOfMoved(p: string, src: string, dst: string)
    requires AtOrBelow(p, src) && p != src
    ensures Basename(Moved(p, src, dst)) == Basename(p)
  {
    var q, i := Moved(p, src, dst), LastSlash(p);
    var j := i - |src| + |dst|;
    assert p[|src|] == '/';
    assert forall k :: |dst| <= k < |q| ==> q[k] == p[k - |dst| + |src|];
    assert q[j] == '/';
    assert LastSlash(q) == j;
    assert q[j + 1..] == p[i + 1..];
  }

  lemma RecordedKeepsRaw(nfc: string -> string, raw: map<string, string>, parent: string, name: string)
    requires NfcLaws(nfc) && RawInv(nfc, raw) && '/' !in name
    ensures RawInv(nfc, Recorded(nfc, raw, ChildPath(nfc, parent, name), name))
    ensures VisibleName(Recorded(nfc, raw, ChildPath(nfc, parent, name), name), ChildPath(nfc, parent, name)) == name
  {
    hide ChildPath, LastSlash, Basename, NfcLaws;
    ChildPathParts(nfc, parent, name);
  }

  lemma RenamedRawKeepsRaw(nfc: string -> string, raw: map<string, string>, src: string, dst: string)
    requires RawInv(nfc, raw)
    ensures RawInv(nfc, RenamedRaw(raw, src, dst))
  {
    forall p | p in MovedRaw(raw, src, dst)
      ensures Remembered(nfc, p, MovedRaw(raw, src, dst)[p])
    {
      var k :| k in raw && k != src && AtOrBelow(k, src) && p == Moved(k, src, dst);
      MovedStaysBelow(k, src, dst);
      BasenameOfMoved(k, src, dst);
    }
  }

  lemma MovedRawAt(raw: map<string, string>, src: string, dst: string, p: string)
    requires AtOrBelow(p, src) && p != src
    ensures var q := Moved(p, src, dst);
            (q in MovedRaw(raw, src, dst) <==> p in raw) && (p in raw ==> MovedRaw(raw, src, dst)[q] == raw[p])
  {
    var q := Moved(p, src, dst);
    MovedStaysBelow(p, src, dst);
    if k :| k in raw && k != src && AtOrBelow(k, src) && Moved(k, src, dst) == q {
      MovedIsInjective(k, p, src, dst);
    }
  }

  /** A rename takes the visible name of an entry below it along, unless the
      entry has no name of its own and lands on a path a name is still remembered
      for: a rename does not forget the names below its destination. */
  lemma RenameTakesNameAlong(nfc: string -> string, raw: map<string, string>, src: string, dst: string, p: string)
    requires RawInv(nfc, raw) && AtOrBelow(p, src) && p != src
    ensures var q := Moved(p, src, dst);
            VisibleName(RenamedRaw(raw, src, dst), q) == VisibleName(raw, p) <==>
            p in raw || q !in raw || AtOrBelow(q, src)
  {
    hide AtOrBelow, Moved, LastSlash, MovedRaw;
    var q := Moved(p, src, dst);
    BasenameOfMoved(p, src, dst);
    MovedRawAt(raw, src, dst, p);
    if q in raw {
      assert Remembered(nfc, q, raw[q]);
    }
    if p in raw {
      assert Remembered(nfc, p, raw[p]);
    }
  }

  lemma KelvinBasenames()
    ensures Basename("/e/K") == "K" == Basename("/d/K") && Basename("/d") == "d" && Basename("/e") == "e"
  {
    hide LastSlash, Basename;
    LastSlashIs("/d", 0);
    LastSlashIs("/e", 0);
    LastSlashIs("/d/K", 2);
    LastSlashIs("/e/K", 2);
  }

  lemma KelvinMoves()
    ensures AtOrBelow("/d/K", "/d") && Moved("/d/K", "/d", "/e") == "/e/K" && !AtOrBelow("/e/K", "/d")
  {
    assert "/d/K"[..3] == "/d" + "/" && ("/d" + "/")[1] == 'd' && "/e/K"[1] == 'e';
  }

  lemma KelvinChildren()
    ensures ChildPath(KelvinNfc, "", "d") == "/d" && ChildPath(KelvinNfc, "", "e") == "/e"
    ensures ChildPath(KelvinNfc, "/e", KELVIN_SIGN) == "/e/K" && ChildPath(KelvinNfc, "/d", "K") == "/d/K"
  {
  }

  lemma KelvinPaths()
    ensures Basename("/e/K") == "K" == Basename("/d/K") && Basename("/d") == "d" && Basename("/e") == "e"
    ensures AtOrBelow("/d/K", "/d") && Moved("/d/K", "/d", "/e") == "/e/K" && !AtOrBelow("/e/K", "/d")
    ensures ChildPath(KelvinNfc, "", "d") == "/d" && ChildPath(KelvinNfc, "", "e") == "/e"
    ensures ChildPath(KelvinNfc, "/e", KELVIN_SIGN) == "/e/K" && ChildPath(KelvinNfc, "/d", "K") == "/d/K"
  {
    hide LastSlash, Basename, AtOrBelow, Moved, ChildPath;
    KelvinBasenames();
    KelvinMoves();
    KelvinChildren();
  }

  lemma NothingMoves(raw: map<string, string>)
    requires raw.Keys == {"/e/K"}
    ensures MovedRaw(raw, "/d", "/e") == map[] && ForgottenRaw(raw, "/d") == raw
  {
    hide Moved, AtOrBelow;
    KelvinPaths();
  }

  lemma EnteringKeepsRaw(nfc: string -> string, fs: Fs, parent: nat, name: string, listing: Option<seq<ListEntry>>)
    requires NfcLaws(nfc) && RawInv(nfc, fs.raw) && NamesInv(fs.names) && '/' !in name && parent in fs.names.toPath
    ensures var cp := ChildPath(nfc, fs.names.toPath[parent], name);
            CollisionCheck(fs, cp, name, listing).fs.raw == fs.raw && RawInv(nfc, Recorded(nfc, fs.raw, cp, name))
  {
    hide CollisionCheck, ChildPath, Recorded, LastSlash;
    CheckExtends(fs, ChildPath(nfc, fs.names.toPath[parent], name), name, listing);
    RecordedKeepsRaw(nfc, fs.raw, fs.names.toPath[parent], name);
  }

  lemma RenamingKeepsRaw(nfc: string -> string, fs: Fs, src: string, dstParent: nat, dstName: string,
                         listing: Option<seq<ListEntry>>)
    requires NfcLaws(nfc) && RawInv(nfc, fs.raw) && NamesInv(fs.names) && '/' !in dstName
    requires dstParent in fs.names.toPath
    ensures var dst := ChildPath(nfc, fs.names.toPath[dstParent], dstName);
            CollisionCheck(fs, dst, dstName, listing).fs.raw == fs.raw &&
            RawInv(nfc, Recorded(nfc, RenamedRaw(fs.raw, src, dst), dst, dstName))
  {
    hide CollisionCheck, ChildPath, Recorded, LastSlash, RenamedRaw;
    var dst := ChildPath(nfc, fs.names.toPath[dstParent], dstName);
    CheckExtends(fs, dst, dstName, listing);
    RenamedRawKeepsRaw(nfc, fs.raw, src, dst);
    RecordedKeepsRaw(nfc, RenamedRaw(fs.raw, src, dst), fs.names.toPath[dstParent], dstName);
  }

  lemma CreateKeepsRaw(nfc: string -> string, fs: Fs, parent: nat, name: string, listing: Option<seq<ListEntry>>,
                       reply: Option<(string, HandleId)>, local: bool, now: int)
    requires NfcLaws(nfc) && RawInv(nfc, fs.raw) && NamesInv(fs.names) && '/' !in name
    ensures RawInv(nfc, Create(nfc, fs, parent, name, listing, reply, local, now).fs.raw)
  {
    hide CollisionCheck, ChildPath, Recorded, LastSlash, RawInv, NfcLaws, Interned, InodeOf, NamesInv;
    if parent in fs.names.toPath {
      EnteringKeepsRaw(nfc, fs, parent, name, listing);
    }
  }

  lemma MknodKeepsRaw(nfc: string -> string, fs: Fs, op: Op)
    requires op.DoMknod? && KernelKeepsTo(fs, op)
    ensures var created := Create(nfc, fs, op.parent, op.name, op.listing, op.reply, op.local, op.now).fs;
            Do(nfc, fs, op).raw == fs.raw || Do(nfc, fs, op).raw == created.raw
  {
    hide CollisionCheck, ChildPath, Recorded, LastSlash, Interned, InodeOf;
  }

  lemma MkdirKeepsRaw(nfc: string -> string, fs: Fs, parent: nat, name: string, listing: Option<seq<ListEntry>>,
                      made: bool, now: int)
    requires NfcLaws(nfc) && RawInv(nfc, fs.raw) && NamesInv(fs.names) && '/' !in name
    ensures RawInv(nfc, Mkdir(nfc, fs, parent, name, listing, made, now).fs.raw)
  {
    hide CollisionCheck, ChildPath, Recorded, LastSlash, RawInv, NfcLaws, Interned, InodeOf, NamesInv;
    if parent in fs.names.toPath {
      EnteringKeepsRaw(nfc, fs, parent, name, listing);
    }
  }

  lemma RenameKeepsRaw(nfc: string -> string, fs: Fs, srcParent: nat, srcName: string, dstParent: nat, dstName: string,
                       listing: Option<seq<ListEntry>>, renamed: bool)
    requires NfcLaws(nfc) && RawInv(nfc, fs.raw) && NamesInv(fs.names) && '/' !in dstName
    ensures RawInv(nfc, Rename(nfc, fs, srcParent, srcName, dstParent, dstName, listing, renamed).fs.raw)
  {
    hide CollisionCheck, ChildPath, Recorded, LastSlash, RawInv, NfcLaws, NamesInv, RenamedRaw, Renamed, Followed;
    if srcParent in fs.names.toPath && dstParent in fs.names.toPath {
      RenamingKeepsRaw(nfc, fs, ChildPath(nfc, fs.names.toPath[srcParent], srcName), dstParent, dstName, listing);
    }
  }

  /** The other operations remember nothing new. */
  lemma OthersKeepRaw(nfc: string -> string, fs: Fs, op: Op)
    requires NamesInv(fs.names) && KernelKeepsTo(fs, op)
    requires !op.DoCreate? && !op.DoMknod? && !op.DoMkdir? && !op.DoRename? && !op.DoRemove?
    ensures Do(nfc, fs, op).raw == fs.raw
  {
    hide ChildPath, LastSlash, VisibleName, InListing, HasAttr, Populated, Interned, InodeOf, ParentPrefix, WithAttr,
         SizedAttrs, Patched, Resized, Drops, NamesInv;
    match op
    case DoLookup(_, _, listing) => if listing.Some? { PopulatedExtends(fs, listing.value); }
    case DoGetattr(_, listing) => if listing.Some? { PopulatedExtends(fs, listing.value); }
    case DoReaddir(_, listing) => if listing.Some? { PopulatedExtends(fs, listing.value); }
    case _ =>
  }

  lemma RemoveKeepsRaw(nfc: string -> string, fs: Fs, parent: nat, name: string, removed: bool)
    requires RawInv(nfc, fs.raw)
    ensures RawInv(nfc, Remove(nfc, fs, parent, name, removed).fs.raw)
  {
    hide ChildPath, AtOrBelow, Forgotten, Remembered;
  }

  lemma OpKeepsRaw(nfc: string -> string, fs: Fs, op: Op)
    requires NfcLaws(nfc) && RawInv(nfc, fs.raw) && NamesInv(fs.names) && KernelKeepsTo(fs, op)
    ensures RawInv(nfc, Do(nfc, fs, op).raw)
  {
    hide Create, Mkdir, Rename, Remove, Release, Lookup, Getattr, Readdir, Open, Write, TruncateHandle,
         TruncateBareZero, TruncateBareTo, Fsync, Applied, RawInv, NfcLaws, NamesInv;
    match op
    case DoCreate(parent, name, listing, reply, local, now) =>
      CreateKeepsRaw(nfc, fs, parent, name, listing, reply, local, now);
    case DoMknod(parent, name, _, listing, reply, local, _, now) =>
      CreateKeepsRaw(nfc, fs, parent, name, listing, reply, local, now);
      MknodKeepsRaw(nfc, fs, op);
    case DoMkdir(parent, name, listing, made, now) => MkdirKeepsRaw(nfc, fs, parent, name, listing, made, now);
    case DoRename(srcParent, srcName, dstParent, dstName, listing, renamed) =>
      RenameKeepsRaw(nfc, fs, srcParent, srcName, dstParent, dstName, listing, renamed);
    case DoRemove(parent, name, removed) => RemoveKeepsRaw(nfc, fs, parent, name, removed);
    case _ => OthersKeepRaw(nfc, fs, op);
  }

  /** Every remembered name, in every state of every run. */
  lemma {:induction false} RunKeepsRaw(nfc: string -> string, states: seq<Fs>, ops: seq<Op>, k: nat)
    requires NfcLaws(nfc) && Run(nfc, states, ops) && Ordered(states[0]) && RawInv(nfc, states[0].raw) && k <= |ops|
    ensures RawInv(nfc, states[k].raw)
  {
    hide Do, RawInv, NfcLaws, KernelKeepsTo;
    if k > 0 {
      RunKeepsRaw(nfc, states, ops, k - 1);
      RunKeepsOrder(nfc, states, ops, k - 1);
      assert Takes(nfc, states[k - 1], ops[k - 1], states[k]);
      OpKeepsRaw(nfc, states[k - 1], ops[k - 1]);
    }
  }

  /** `path` is an entry of the directory at `parent`, under its NFC name. */
  ghost predicate EntryOf(nfc: string -> string, parent: string, path: string) {
    '/' !in Basename(path) && path == parent + "/" + Basename(path) && nfc(Basename(path)) == Basename(path)
  }

  /** The name an entry is shown under leads back to its path. */
  lemma VisibleNameResolves(nfc: string -> string, raw: map<string, string>, parent: string, path: string)
    requires NfcLaws(nfc) && RawInv(nfc, raw) && EntryOf(nfc, parent, path)
    ensures ChildPath(nfc, parent, VisibleName(raw, path)) == path
  {
    assert nfc(VisibleName(raw, path)) == Basename(path);
    if parent == "" {
      assert path == "/" + Basename(path);
    }
  }

  /** No two entries of one directory are shown under the same name. */
  lemma VisibleNamesDiffer(nfc: string -> string, raw: map<string, string>, parent: string, p: string, q: string)
    requires NfcLaws(nfc) && RawInv(nfc, raw) && EntryOf(nfc, parent, p) && EntryOf(nfc, parent, q)
    ensures VisibleName(raw, p) == VisibleName(raw, q) <==> p == q
  {
    VisibleNameResolves(nfc, raw, parent, p);
    VisibleNameResolves(nfc, raw, parent, q);
  }

  /** A listing maps every representable entry and gives each an attribute. */
  lemma {:induction false} PopulatedHas(fs: Fs, listing: seq<ListEntry>, e: ListEntry)
    requires NamesInv(fs.names) && e in listing && Representable(Basename(e.path))
    ensures HasAttr(Populated(fs, listing), e.path)
  {
    hide Representable, Basename;
    var n := |listing| - 1;
    PopulatedExtends(fs, listing[..n]);
    InternKeeps(Populated(fs, listing[..n]).names, listing[n].path);
    if e != listing[n] {
      assert e in listing[..n];
      PopulatedHas(fs, listing[..n], e);
    }
  }

  /** Looking a name up after `readdir` gives the inode `readdir` gave, if it is
      the name an entry is shown under; under any other name nothing is found
      that `readdir` has shown. */
  lemma LookupFindsWhatReaddirShows(nfc: string -> string, fs: Fs, dir: nat, listing: seq<ListEntry>, e: ListEntry,
                                    again: Option<seq<ListEntry>>, name: string)
    requires NfcLaws(nfc) && NamesInv(fs.names) && RawInv(nfc, fs.raw) && dir in fs.names.toPath
    requires e in listing && Representable(Basename(e.path)) && EntryOf(nfc, fs.names.toPath[dir], e.path)
    ensures var fs' := Readdir(fs, dir, Some(listing)).fs;
            var shown := InodeOf(fs'.names, e.path);
            && (name == VisibleName(fs'.raw, e.path) ==> Lookup(nfc, fs', dir, name, again) == Found(fs', Some(shown)))
            && (name != VisibleName(fs'.raw, e.path) && ChildPath(nfc, fs.names.toPath[dir], name) == e.path ==>
                  Lookup(nfc, fs', dir, name, again) == Found(fs', None))
  {
    PopulatedExtends(fs, listing);
    PopulatedHas(fs, listing, e);
    var fs1 := Populated(fs, listing);
    InternKeeps(fs1.names, ParentPrefix(fs.names.toPath[dir]));
    VisibleNameResolves(nfc, fs.raw, fs.names.toPath[dir], e.path);
  }

  ghost predicate Refused(fs: Fs, r: Step) {
    && r.err == EEXIST && r.fs.handles == fs.handles && r.fs.raw == fs.raw && r.fs.world == fs.world
    && Extends(fs.names, r.fs.names)
  }

  /** A name that would fall together with a different visible name is refused:
      nothing is created, truncated, renamed or made visible under it. */
  lemma CollisionIsRefused(nfc: string -> string, fs: Fs, parent: nat, name: string, listing: Option<seq<ListEntry>>,
                           reply: Option<(string, HandleId)>, local: bool, now: int, srcParent: nat, srcName: string)
    requires NamesInv(fs.names) && parent in fs.names.toPath
    requires var cp := ChildPath(nfc, fs.names.toPath[parent], name);
             VisibleName(fs.raw, cp) != name && (HasAttr(fs, cp) || (listing.Some? && InListing(listing.value, cp)))
    ensures Refused(fs, Create(nfc, fs, parent, name, listing, reply, local, now))
    ensures Refused(fs, Mkdir(nfc, fs, parent, name, listing, local, now))
    ensures srcParent in fs.names.toPath ==>
              Refused(fs, Rename(nfc, fs, srcParent, srcName, parent, name, listing, local))
  {
    hide ChildPath, VisibleName, InListing, HasAttr, Populated, Created, Entered, MovedTo, NamesInv;
    CheckExtends(fs, ChildPath(nfc, fs.names.toPath[parent], name), name, listing);
  }

  /** After a successful create the entry is visible under the name it was given. */
  lemma CreatedIsVisible(nfc: string -> string, fs: Fs, parent: nat, name: string, listing: Option<seq<ListEntry>>,
                         reply: Option<(string, HandleId)>, local: bool, now: int, again: Option<seq<ListEntry>>)
    requires NfcLaws(nfc) && NamesInv(fs.names) && RawInv(nfc, fs.raw) && '/' !in name && parent in fs.names.toPath
    requires Create(nfc, fs, parent, name, listing, reply, local, now).err == OK
    ensures var r := Create(nfc, fs, parent, name, listing, reply, local, now).fs;
            var cp := ChildPath(nfc, fs.names.toPath[parent], name);
            HasAttr(r, cp) && Lookup(nfc, r, parent, name, again) == Found(r, Some(r.names.toInode[cp]))
  {
    hide CollisionCheck, ChildPath, Recorded, LastSlash, VisibleName;
    var cp := ChildPath(nfc, fs.names.toPath[parent], name);
    CheckExtends(fs, cp, name, listing);
    InternKeeps(CollisionCheck(fs, cp, name, listing).fs.names, cp);
    RecordedKeepsRaw(nfc, fs.raw, fs.names.toPath[parent], name);
  }

  // ---------------------------------------------------------------- a stale name

  const KELVIN_SIGN := "\U{212A}"

  /** Normalisation, as far as the run below goes: the Kelvin sign is a K. */
  function KelvinNfc(s: string): string {
    if s == KELVIN_SIGN then "K" else s
  }

  function Folder(): Attr {
    Attr(0, 0, None, true, false, false)
  }

  /** A directory made where its normal name shows nothing else yet. */
  lemma FolderMade(fs: Fs, parent: nat, name: string, listing: Option<seq<ListEntry>>)
    requires parent in fs.names.toPath && name != KELVIN_SIGN
    requires var cp := ChildPath(KelvinNfc, fs.names.toPath[parent], name);
             VisibleName(fs.raw, cp) == name && cp !in fs.raw
    ensures var op, cp := DoMkdir(parent, name, listing, true, 0), ChildPath(KelvinNfc, fs.names.toPath[parent], name);
            Mkdir(KelvinNfc, fs, parent, name, listing, true, 0).fs ==
            fs.(names := Interned(fs.names, cp), attrs := fs.attrs[InodeOf(fs.names, cp) := Folder()])
  {
    hide ChildPath, VisibleName, Interned, InodeOf;
    var cp := ChildPath(KelvinNfc, fs.names.toPath[parent], name);
    assert fs.raw - {cp} == fs.raw;
  }

  const TWO_FOLDERS := Names(4, map["" := 1, "/d" := 2, "/e" := 3], map[1 := "", 2 := "/d", 3 := "/e"])
  const FOUR_FOLDERS := Names(6, map["" := 1, "/d" := 2, "/e" := 3, "/e/K" := 4, "/d/K" := 5],
                              map[1 := "", 2 := "/d", 3 := "/e", 4 := "/e/K", 5 := "/d/K"])
  const KELVIN := map["/e/K" := KELVIN_SIGN]

  lemma TwoFoldersMade() returns (s1: Fs, s2: Fs)
    ensures s1 == Mkdir(KelvinNfc, NEW_MOUNT, 1, "d", None, true, 0).fs
    ensures s2 == Mkdir(KelvinNfc, s1, 1, "e", None, true, 0).fs
    ensures s2 == NEW_MOUNT.(names := TWO_FOLDERS, attrs := map[2 := Folder(), 3 := Folder()])
  {
    hide LastSlash, Basename, ChildPath, Mkdir;
    KelvinPaths();
    FolderMade(NEW_MOUNT, 1, "d", None);
    s1 := Mkdir(KelvinNfc, NEW_MOUNT, 1, "d", None, true, 0).fs;
    FolderMade(s1, 1, "e", None);
    s2 := Mkdir(KelvinNfc, s1, 1, "e", None, true, 0).fs;
  }

  /** A directory whose name is not normal, with nothing listed beside it. */
  lemma KelvinFolderMade(fs: Fs, parent: nat)
    requires parent in fs.names.toPath
    requires var cp := ChildPath(KelvinNfc, fs.names.toPath[parent], KELVIN_SIGN);
             VisibleName(fs.raw, cp) != KELVIN_SIGN && cp !in fs.names.toInode
    ensures var cp := ChildPath(KelvinNfc, fs.names.toPath[parent], KELVIN_SIGN);
            Mkdir(KelvinNfc, fs, parent, KELVIN_SIGN, Some([]), true, 0).fs ==
            fs.(names := Interned(fs.names, cp), raw := fs.raw[cp := KELVIN_SIGN],
                attrs := fs.attrs[InodeOf(fs.names, cp) := Folder()])
  {
    hide ChildPath, VisibleName, Interned, InodeOf;
  }

  lemma KelvinsMade(s2: Fs) returns (s3: Fs, s4: Fs)
    requires s2.names == TWO_FOLDERS && s2.raw == map[]
    ensures s3 == Mkdir(KelvinNfc, s2, 3, KELVIN_SIGN, Some([]), true, 0).fs
    ensures s4 == Mkdir(KelvinNfc, s3, 2, "K", None, true, 0).fs
    ensures s4.names == FOUR_FOLDERS && s4.raw == KELVIN
  {
    hide Mkdir, LastSlash, Basename, ChildPath;
    KelvinPaths();
    KelvinFolderMade(s2, 3);
    s3 := Mkdir(KelvinNfc, s2, 3, KELVIN_SIGN, Some([]), true, 0).fs;
    FolderMade(s3, 2, "K", None);
    s4 := Mkdir(KelvinNfc, s3, 2, "K", None, true, 0).fs;
  }

  lemma KelvinLaws()
    ensures NfcLaws(KelvinNfc)
  {
  }

  lemma KelvinRemains()
    ensures Recorded(KelvinNfc, RenamedRaw(KELVIN, "/d", "/e"), "/e", "e") == KELVIN
    ensures 5 in Renamed(FOUR_FOLDERS, "/d", "/e").toPath && Renamed(FOUR_FOLDERS, "/d", "/e").toPath[5] == "/e/K"
  {
    hide LastSlash, Basename, ChildPath, Renamed, MovedRaw, ForgottenRaw, AtOrBelow, Moved;
    KelvinPaths();
    RenameByInode(FOUR_FOLDERS, "/d", "/e", 5);
    NothingMoves(KELVIN);
    assert KELVIN - {"/e"} == KELVIN;
    assert "/e" + "/d/K"[2..] == "/e/K";
  }

  lemma FolderReplaced(fs: Fs)
    requires fs.names == FOUR_FOLDERS && fs.raw == KELVIN
    ensures var r := Rename(KelvinNfc, fs, 1, "d", 1, "e", None, true).fs;
            5 in r.names.toPath && r.names.toPath[5] == "/e/K" && r.raw == KELVIN
  {
    hide LastSlash, Basename, ChildPath, Renamed, RenamedRaw, Recorded, KelvinNfc, Followed;
    KelvinPaths();
    KelvinRemains();
  }

  lemma MkdirTaken(fs: Fs, parent: nat, name: string, listing: Option<seq<ListEntry>>)
    requires '/' !in name
    ensures Takes(KelvinNfc, fs, DoMkdir(parent, name, listing, true, 0),
                  Mkdir(KelvinNfc, fs, parent, name, listing, true, 0).fs)
  {
    hide Mkdir;
  }

  lemma RenameTaken(fs: Fs)
    ensures Takes(KelvinNfc, fs, DoRename(1, "d", 1, "e", None, true),
                  Rename(KelvinNfc, fs, 1, "d", 1, "e", None, true).fs)
  {
    hide Rename;
  }

  /** The exception in a run: two folders `d` and `e` get an entry each, `K` in `d` and
      the Kelvin sign in `e`. When `d` is renamed to `e`, its `K` turns up under the
      Kelvin sign. (The engine lets a folder replace another once its entries are
      gone, of which a deletion elsewhere tells the mount nothing.) */
  lemma StaleNameResurfaces() returns (states: seq<Fs>, ops: seq<Op>)
    ensures |states| == 6 && NfcLaws(KelvinNfc) && Run(KelvinNfc, states, ops) && states[0] == NEW_MOUNT
    ensures 5 in states[4].names.toPath && states[4].names.toPath[5] == "/d/K"
    ensures VisibleName(states[4].raw, "/d/K") == "K"
    ensures 5 in states[5].names.toPath && states[5].names.toPath[5] == "/e/K"
    ensures VisibleName(states[5].raw, "/e/K") == KELVIN_SIGN
  {
    hide LastSlash, Basename, Mkdir, Rename, NfcLaws, Takes;
    KelvinLaws();
    var s1, s2 := TwoFoldersMade();
    var s3, s4 := KelvinsMade(s2);
    MkdirTaken(NEW_MOUNT, 1, "d", None);
    MkdirTaken(s1, 1, "e", None);
    MkdirTaken(s2, 3, KELVIN_SIGN, Some([]));
    MkdirTaken(s3, 2, "K", None);
    RenameTaken(s4);
    ops := [DoMkdir(1, "d", None, true, 0), DoMkdir(1, "e", None, true, 0), DoMkdir(3, KELVIN_SIGN, Some([]), true, 0),
            DoMkdir(2, "K", None, true, 0), DoRename(1, "d", 1, "e", None, true)];
    KelvinPaths();
    FolderReplaced(s4);
    states := [NEW_MOUNT, s1, s2, s3, s4, Rename(KelvinNfc, s4, 1, "d", 1, "e", None, true).fs];
  }
}
