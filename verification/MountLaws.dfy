/** What the caller of each operation is told, in terms of the names, handles, attributes
    and files before and after it, and not of the functions that give the new state. */
module MountLaws {
  import opened Options
  import opened PathText
  import opened PathMaps
  import opened PathMapLaws
  import opened MountState
  import opened MountRuns
  import opened CachePaths
  import opened VisibleNames

  // ---------------------------------------------------------------- names

  /** Which names a local entry can have, on the cases at the borders. */
  lemma RepresentableNames()
    ensures Representable("file.txt") && Representable("....") && Representable(".hidden")
    ensures !Representable("") && !Representable(".") && !Representable("..")
    ensures !Representable("a/b") && !Representable("a\0b")
  {
    hide Utf8Length;
    AsciiLength("file.txt");
    AsciiLength("....");
    AsciiLength(".hidden");
    assert "a/b"[1] == '/' && "a\0b"[1] == '\0';
  }

  /** The length of a name is that of its characters, of one to four bytes. */
  lemma Utf8Append(s: string, c: char)
    ensures Utf8Length(s + [c]) == Utf8Length(s) + Utf8Length([c])
    ensures Utf8Length([c]) == if c < '\U{80}' then 1 else if c < '\U{800}' then 2 else if c < '\U{10000}' then 3 else 4
  {
    assert (s + [c])[..|s|] == s && [c][..0] == "";
  }

  /** A name of one-byte characters is too long from 256 of them on. */
  lemma LongNames(s: string)
    requires s != "" && s != "." && s != ".." && forall i :: 0 <= i < |s| ==> '\0' < s[i] < '\U{80}' && s[i] != '/'
    ensures Representable(s) <==> |s| <= 255
  {
    AsciiLength(s);
  }

  lemma {:induction false} AsciiLength(s: string)
    requires forall i :: 0 <= i < |s| ==> s[i] < '\U{80}'
    ensures Utf8Length(s) == |s|
  {
    if s != "" {
      AsciiLength(s[..|s| - 1]);
    }
  }

  // ---------------------------------------------------------------- listings

  /** The listing was had and has an entry at `path` that a local name can stand for. */
  ghost predicate Offers(listing: Option<seq<ListEntry>>, path: string) {
    listing.Some? && exists e :: e in listing.value && e.path == path && Representable(Basename(path))
  }

  /** The entry at `path` is mapped and its attribute cached. */
  ghost predicate Cached(fs: Fs, path: string) {
    exists i :: i in fs.attrs && i in fs.names.toPath && fs.names.toPath[i] == path
  }

  /** `a` says of an entry what the listing says; the cloud's time is that of what is not
      a local file. */
  ghost predicate Describes(a: Attr, e: ListEntry) {
    && a.size == e.size && a.mtime == e.mtime
    && a.folder == e.folder && a.hydrated == e.hydrated && a.pending == e.pending
    && (e.folder ==> a.remoteMtime == e.remoteModified)
    && (!e.folder && (e.hydrated || e.pending) ==> a.remoteMtime.None?)
    && (!e.folder && !e.hydrated && !e.pending ==> a.remoteMtime == e.remoteModified)
  }

  lemma AttrDescribes(e: ListEntry)
    ensures forall a :: Describes(a, e) <==> a == AttrOf(e)
  {
  }

  lemma CachedIs(fs: Fs, path: string)
    requires Bijective(fs.names)
    ensures Cached(fs, path) <==> HasAttr(fs, path)
  {
    if HasAttr(fs, path) {
      assert fs.names.toPath[fs.names.toInode[path]] == path;
    }
  }

  lemma OffersIs(listing: Option<seq<ListEntry>>, path: string)
    ensures Offers(listing, path) <==> listing.Some? && InListing(listing.value, path)
  {
    hide Representable, Basename;
  }

  /** A listed attribute is its entry's, and the rest is as it was. */
  lemma {:induction false} PopulatedAttr(fs: Fs, listing: seq<ListEntry>, ino: nat)
    requires NamesInv(fs.names)
    requires var fs' := Populated(fs, listing); ino in fs'.attrs && ino in fs'.names.toPath
    ensures var fs' := Populated(fs, listing);
            || (ino in fs.attrs && fs'.attrs[ino] == fs.attrs[ino] && ino in fs.names.toPath
                && fs'.names.toPath[ino] == fs.names.toPath[ino])
            || (exists e :: e in listing && Representable(Basename(e.path)) && fs'.names.toPath[ino] == e.path &&
                            fs'.attrs[ino] == AttrOf(e))
    ensures NamesInv(Populated(fs, listing).names)
  {
    hide Representable, Basename, AttrOf;
    PopulatedExtends(fs, listing);
    if listing != [] {
      var n := |listing| - 1;
      var e := listing[n];
      var before := Populated(fs, listing[..n]);
      PopulatedExtends(fs, listing[..n]);
      InternKeeps(before.names, e.path);
      if !Representable(Basename(e.path)) || ino != InodeOf(before.names, e.path) {
        PopulatedAttr(fs, listing[..n], ino);
        if e' :| e' in listing[..n] && Representable(Basename(e'.path)) && before.names.toPath[ino] == e'.path &&
                 before.attrs[ino] == AttrOf(e') {
          assert e' in listing;
        }
      } else {
        assert e in listing;
      }
    }
  }

  /** What a listing caches: what it offers, with an attribute that describes an entry it
      has there, and nothing else is new. */
  lemma PopulatedCaches(fs: Fs, listing: seq<ListEntry>, path: string)
    requires NamesInv(fs.names)
    ensures var r := Populated(fs, listing);
            && Extends(fs.names, r.names) && (Cached(r, path) <==> Cached(fs, path) || Offers(Some(listing), path))
            && forall i :: i in r.attrs && i in r.names.toPath ==>
                 || (i in fs.attrs && r.attrs[i] == fs.attrs[i])
                 || exists e :: e in listing && e.path == r.names.toPath[i] && Describes(r.attrs[i], e)
  {
    hide Representable, Basename, AttrOf, Describes, HasAttr;
    var r := Populated(fs, listing);
    PopulatedExtends(fs, listing);
    forall i | i in r.attrs && i in r.names.toPath
      ensures (i in fs.attrs && r.attrs[i] == fs.attrs[i]) ||
              exists e :: e in listing && e.path == r.names.toPath[i] && Describes(r.attrs[i], e)
    {
      PopulatedAttr(fs, listing, i);
      if e :| e in listing && Representable(Basename(e.path)) && r.names.toPath[i] == e.path &&
              r.attrs[i] == AttrOf(e) {
        AttrDescribes(e);
      }
    }
    if e :| e in listing && e.path == path && Representable(Basename(path)) {
      PopulatedHas(fs, listing, e);
      CachedIs(r, path);
    }
    if i :| i in fs.attrs && i in fs.names.toPath && fs.names.toPath[i] == path {
      AttrsStay(fs, listing, i);
    }
    if i :| i in r.attrs && i in r.names.toPath && r.names.toPath[i] == path {
      PopulatedAttr(fs, listing, i);
    }
  }

  lemma {:induction false} AttrsStay(fs: Fs, listing: seq<ListEntry>, i: nat)
    requires i in fs.attrs
    ensures i in Populated(fs, listing).attrs
  {
    hide Representable, Basename, AttrOf;
    if listing != [] {
      AttrsStay(fs, listing[..|listing| - 1], i);
    }
  }

  // ---------------------------------------------------------------- lookup, getattr, readdir

  /** A name is found exactly if it is the one an entry is shown under and the entry is
      cached or, if not, offered by the listing; the inode is that of the entry, whose
      attribute is then cached. What is cached is not listed again. */
  ghost predicate LookupTells(nfc: string -> string, was: Fs, fs: Fs, ino: Option<nat>, parent: nat, name: string,
                              listing: Option<seq<ListEntry>>)
  {
    && Extends(was.names, fs.names)
    && (parent !in was.names.toPath ==> ino.None? && fs == was)
    && (parent in was.names.toPath ==>
          var cp := ChildPath(nfc, was.names.toPath[parent], name);
          && (ino.Some? <==> VisibleName(was.raw, cp) == name && (Cached(was, cp) || Offers(listing, cp)))
          && (ino.Some? ==> ino.value in fs.names.toPath && fs.names.toPath[ino.value] == cp && ino.value in fs.attrs)
          && (VisibleName(was.raw, cp) != name || Cached(was, cp) || listing.None? ==> fs == was))
  }

  lemma LookupLaw(nfc: string -> string, fs: Fs, parent: nat, name: string, listing: Option<seq<ListEntry>>)
    requires NamesInv(fs.names)
    ensures var r := Lookup(nfc, fs, parent, name, listing);
            LookupTells(nfc, fs, r.fs, r.ino, parent, name, listing)
  {
    hide ChildPath, VisibleName, Populated, Cached, Offers, InListing;
    if parent in fs.names.toPath {
      var cp := ChildPath(nfc, fs.names.toPath[parent], name);
      CachedIs(fs, cp);
      OffersIs(listing, cp);
      if listing.Some? {
        PopulatedCaches(fs, listing.value, cp);
        CachedIs(Populated(fs, listing.value), cp);
      }
    }
  }

  /** Succeeds exactly if the inode has an attribute, cached or, if its path is known,
      offered by the listing. */
  ghost predicate GetattrTells(was: Fs, fs: Fs, err: Errno, ino: nat, listing: Option<seq<ListEntry>>) {
    && Extends(was.names, fs.names)
    && (err == OK <==> ino == ROOT_INODE || ino in was.attrs ||
                       (ino in was.names.toPath && Offers(listing, was.names.toPath[ino])))
    && (err == OK <==> ino == ROOT_INODE || ino in fs.attrs)
    && (ino == ROOT_INODE || ino in was.attrs || ino !in was.names.toPath || listing.None? ==> fs == was)
    && (err != OK ==> err == if ino in was.names.toPath && listing.None? then EngineError else ENOENT)
  }

  lemma GetattrLaw(fs: Fs, ino: nat, listing: Option<seq<ListEntry>>)
    requires NamesInv(fs.names)
    ensures var r := Getattr(fs, ino, listing); GetattrTells(fs, r.fs, r.err, ino, listing)
  {
    hide Populated, Cached, Representable;
    if ino in fs.names.toPath && listing.Some? {
      var r, path := Populated(fs, listing.value), fs.names.toPath[ino];
      PopulatedCaches(fs, listing.value, path);
      CachedAt(fs, ino);
      CachedAt(r, ino);
    }
  }

  lemma CachedAt(fs: Fs, ino: nat)
    requires Bijective(fs.names) && ino in fs.names.toPath
    ensures Cached(fs, fs.names.toPath[ino]) <==> ino in fs.attrs
  {
  }

  /** Every entry offered is shown, in order, under its visible name and an inode that has
      its path and a cached attribute; the directory's parent is mapped for `..`. */
  ghost predicate ReaddirTells(was: Fs, fs: Fs, err: Errno, dir: nat, listing: Option<seq<ListEntry>>) {
    && Extends(was.names, fs.names) && fs.raw == was.raw && fs.handles == was.handles && fs.world == was.world
    && err == (if dir !in was.names.toPath then ENOENT else if listing.None? then EngineError else OK)
    && (err != OK ==> fs == was)
    && (err == OK ==>
          && (forall path :: Offers(listing, path) ==> Cached(fs, path))
          && (dir != ROOT_INODE ==> ParentPrefix(was.names.toPath[dir]) in fs.names.toInode))
  }

  lemma ReaddirLaw(fs: Fs, dir: nat, listing: Option<seq<ListEntry>>)
    requires NamesInv(fs.names)
    ensures var r := Readdir(fs, dir, listing); ReaddirTells(fs, r.fs, r.err, dir, listing)
  {
    hide Populated, Offers, Cached, ParentPrefix, Interned;
    if dir in fs.names.toPath && listing.Some? {
      var r, listed := Readdir(fs, dir, listing).fs, Populated(fs, listing.value);
      PopulatedExtends(fs, listing.value);
      InternKeeps(listed.names, ParentPrefix(fs.names.toPath[dir]));
      forall path | Offers(listing, path)
        ensures Cached(r, path)
      {
        PopulatedCaches(fs, listing.value, path);
        CachedStays(listed, r, path);
      }
    }
  }

  lemma CachedStays(fs: Fs, r: Fs, path: string)
    requires Cached(fs, path) && Extends(fs.names, r.names) && r.attrs == fs.attrs
    ensures Cached(r, path)
  {
  }

  // ---------------------------------------------------------------- open, write, fsync, release

  /** Every handle but `fh` is as it was. */
  ghost predicate OthersKept(was: map<nat, Handle>, handles: map<nat, Handle>, fh: nat) {
    forall g :: g != fh ==> (g in handles <==> g in was) && (g in was ==> handles[g] == was[g])
  }

  /** Every value but that of `ino` is as it was. */
  ghost predicate OnlyAt<T>(was: map<nat, T>, now: map<nat, T>, ino: nat) {
    forall i :: i != ino ==> (i in now <==> i in was) && (i in was ==> now[i] == was[i])
  }

  /** The file of `ino` and its cached attribute, if there is one, have `size`. */
  ghost predicate Sized(fs: Fs, ino: nat, size: nat) {
    ino in fs.world.files && |fs.world.files[ino]| == size && (ino in fs.attrs ==> fs.attrs[ino].size == size)
  }

  /** The attribute of a local file: its time is the local one, its size as given. */
  ghost predicate Local(a: Attr, size: nat, mtime: int) {
    a.size == size && a.mtime == mtime && a.remoteMtime.None?
  }

  /** The next handle number has gone to a handle on the inode's path and the engine's cache
      path, dirty exactly if the file was emptied for it, its id new at the engine; the file
      holds what the engine hydrated, or nothing. */
  ghost predicate HandleOpened(was: Fs, fs: Fs, ino: nat, writable: bool, truncating: bool, reply: (string, Bytes)) {
    && ino in was.names.toPath
    && var id := Minted(if writable then "wh" else "rh", was.nextId);
    && fs.handles == was.handles[was.nextFh := Handle(id, was.names.toPath[ino], reply.0, truncating)]
    && fs.nextFh == was.nextFh + 1 && was.nextId < fs.nextId && fs.world.registered == was.world.registered + {id}
    && fs.world.files == was.world.files[ino := if truncating then "" else reply.1]
  }

  /** Opens exactly what has a path that is not the root's, once the engine has the cache
      file and the local disk opens it. A failure opens nothing, but a truncating open that
      fails on the local disk has emptied the file, and that is told. */
  ghost predicate OpenGives(was: Fs, fs: Fs, err: Errno, ino: nat, writable: bool, trunc: bool,
                            reply: Option<(string, Bytes)>, local: bool)
  {
    var truncating := writable && trunc;
    && fs.names == was.names && fs.raw == was.raw
    && err == (if ino !in was.names.toPath then ENOENT
               else if was.names.toPath[ino] == "" then EISDIR
               else if reply.None? then EngineError
               else if !local then EIO
               else OK)
    && (if err == OK then reply.Some? && HandleOpened(was, fs, ino, writable, truncating, reply.value)
        else fs.handles == was.handles && fs.nextFh == was.nextFh)
    && (err == EIO && truncating ==> ino in fs.world.files && fs.world.files[ino] == "" && ino in fs.world.told)
  }

  /** After an open the cached size is the length of the cache file, whatever it was. */
  ghost predicate OpenSizes(was: Fs, fs: Fs, err: Errno, ino: nat, truncating: bool, now: int) {
    && OnlyAt(was.attrs, fs.attrs, ino) && (ino in was.attrs <==> ino in fs.attrs)
    && (err == OK && ino in fs.attrs ==>
          && ino in fs.world.files
          && Local(fs.attrs[ino], |fs.world.files[ino]|, if truncating then now else was.attrs[ino].mtime)
          && fs.attrs[ino].hydrated == (!truncating || was.attrs[ino].hydrated))
  }

  ghost predicate OpenTells(was: Fs, fs: Fs, err: Errno, ino: nat, writable: bool, trunc: bool,
                            reply: Option<(string, Bytes)>, local: bool, now: int)
  {
    && OpenGives(was, fs, err, ino, writable, trunc, reply, local)
    && OpenSizes(was, fs, err, ino, writable && trunc, now)
  }

  lemma OpenLaw(fs: Fs, ino: nat, writable: bool, trunc: bool, reply: Option<(string, Bytes)>, local: bool, now: int)
    ensures var r := Open(fs, ino, writable, trunc, reply, local, now);
            OpenTells(fs, r.fs, r.err, ino, writable, trunc, reply, local, now)
  {
    hide Open, OpenGives, OpenSizes;
    OpenGivesLaw(fs, ino, writable, trunc, reply, local, now);
    OpenSizesLaw(fs, ino, writable, trunc, reply, local, now);
  }

  lemma OpenGivesLaw(fs: Fs, ino: nat, writable: bool, trunc: bool, reply: Option<(string, Bytes)>, local: bool,
                     now: int)
    ensures var r := Open(fs, ino, writable, trunc, reply, local, now);
            OpenGives(fs, r.fs, r.err, ino, writable, trunc, reply, local)
  {
    hide Hydrated, WithAttr;
    if ino in fs.names.toPath && reply.Some? {
      HydrationLeaves(fs.world, ino, fs.names.toPath[ino], reply.value.1);
    }
  }

  lemma OpenSizesLaw(fs: Fs, ino: nat, writable: bool, trunc: bool, reply: Option<(string, Bytes)>, local: bool,
                     now: int)
    ensures var r := Open(fs, ino, writable, trunc, reply, local, now);
            OpenSizes(fs, r.fs, r.err, ino, writable && trunc, now)
  {
    hide Hydrated;
    if ino in fs.names.toPath && reply.Some? {
      HydrationLeaves(fs.world, ino, fs.names.toPath[ino], reply.value.1);
    }
  }

  /** What was written reads back, and the rest of the file is as it was, but for zeros
      where it has grown before the write. */
  ghost predicate ReadsBack(was: Bytes, file: Bytes, offset: nat, data: Bytes) {
    && |was| <= |file| && (data != "" ==> offset + |data| <= |file| && file[offset..offset + |data|] == data)
    && (forall k :: 0 <= k < |was| && !(offset <= k < offset + |data|) ==> file[k] == was[k])
    && (forall k :: |was| <= k < |file| && k < offset ==> file[k] == '\0')
    && (|file| == |was| || (data != "" && |file| == offset + |data|))
  }

  lemma PatchedReadsBack(file: Bytes, offset: nat, data: Bytes)
    ensures ReadsBack(file, Patched(file, offset, data), offset, data)
  {
    if data != "" {
      var padded := file + Zeros(if |file| < offset then offset - |file| else 0);
      var tail := if offset + |data| < |padded| then padded[offset + |data|..] else "";
      assert Patched(file, offset, data) == padded[..offset] + data + tail;
    }
  }

  /** Writes through any handle there is, if the local disk does. Then the handle is dirty,
      the bytes taken are in the file, and the cached size is raised to their end; else
      nothing has changed. */
  ghost predicate WriteTells(was: Fs, fs: Fs, err: Errno, ino: nat, fh: nat, offset: nat, data: Bytes,
                             written: Option<nat>, now: int)
    requires written.Some? ==> written.value <= |data|
  {
    && err == (if fh !in was.handles then EBADF else if written.None? then EIO else OK)
    && (err != OK ==> fs == was)
    && (err == OK ==>
          && fs.handles == was.handles[fh := was.handles[fh].(dirty := true)]
          && ino in fs.world.files && fs.world == was.world.(files := fs.world.files)
          && OnlyAt(was.world.files, fs.world.files, ino) && OnlyAt(was.attrs, fs.attrs, ino)
          && ReadsBack(FileOf(was.world, ino), fs.world.files[ino], offset, data[..written.value])
          && (ino in was.attrs <==> ino in fs.attrs)
          && (ino in fs.attrs ==>
                var end := offset + written.value;
                Local(fs.attrs[ino], if was.attrs[ino].size < end then end else was.attrs[ino].size, now))
          && fs.names == was.names && fs.raw == was.raw && fs.nextFh == was.nextFh)
  }

  lemma WriteLaw(fs: Fs, ino: nat, fh: nat, offset: nat, data: Bytes, written: Option<nat>, now: int)
    requires written.Some? ==> written.value <= |data|
    ensures var r := Write(fs, ino, fh, offset, data, written, now);
            WriteTells(fs, r.fs, r.err, ino, fh, offset, data, written, now)
  {
    hide Patched, ReadsBack, FileOf;
    if written.Some? {
      PatchedReadsBack(FileOf(fs.world, ino), offset, data[..written.value]);
    }
  }

  /** An upload that is stored puts the file in the cloud; one that fails leaves the cloud
      as it was. */
  ghost predicate Sent(was: World, w: World, ino: nat, upload: Upload) {
    && w.files == was.files
    && (if upload.Failed? then w.cloud == was.cloud
        else ino in w.cloud && w.cloud[ino] == FileOf(was, ino) && OnlyAt(was.cloud, w.cloud, ino))
  }

  /** Succeeds on a handle there is once the disk has the bytes and, if it is dirty, its
      upload is stored: then it is clean and the file is in the cloud. A failure leaves
      the dirty bits as they were, a clean handle sends nothing. */
  ghost predicate FsyncTells(was: Fs, fs: Fs, err: Errno, ino: nat, fh: nat, synced: bool, upload: Upload) {
    && err == (if fh !in was.handles then EBADF
               else if !synced then EIO
               else if was.handles[fh].dirty && !upload.Stored? then EngineError
               else OK)
    && fs == was.(handles := fs.handles, world := fs.world)
    && fs.handles == (if err == OK then was.handles[fh := was.handles[fh].(dirty := false)] else was.handles)
    && (if fh in was.handles && synced && was.handles[fh].dirty
        then Sent(was.world, fs.world, ino, upload) &&
             fs.world.told == if upload.Stored? then was.world.told - {ino} else was.world.told
        else fs.world == was.world)
  }

  lemma SentLaw(w: World, ino: nat, path: string, cachePath: string, upload: Upload)
    ensures var r := Uploaded(w, ino, path, cachePath, upload);
            Sent(w, r, ino, upload) && r.told == if upload.Stored? then w.told - {ino} else w.told
    ensures var r := UploadedOrTold(w, ino, path, cachePath, upload);
            Sent(w, r, ino, upload) && (ino in r.told <==> !upload.Stored?)
  {
    hide SentTo;
  }

  lemma FsyncLaw(fs: Fs, ino: nat, fh: nat, synced: bool, upload: Upload)
    ensures var r := Fsync(fs, ino, fh, synced, upload); FsyncTells(fs, r.fs, r.err, ino, fh, synced, upload)
  {
    hide Uploaded, Sent;
    if fh in fs.handles {
      var h, w := fs.handles[fh], Registered(fs.world, fs.handles[fh].id);
      SentLaw(w, ino, h.remotePath, h.cachePath, upload);
      SentIsSent(fs.world, w, Uploaded(w, ino, h.remotePath, h.cachePath, upload), ino, upload);
    }
  }

  lemma SentIsSent(was: World, w: World, r: World, ino: nat, upload: Upload)
    requires Sent(w, r, ino, upload) && w.files == was.files && w.cloud == was.cloud
    ensures Sent(was, r, ino, upload)
  {
  }

  /** The handle is gone and its id closed; what a dirty one stood for has been sent, and
      counts as told unless it was stored. An unknown handle is nothing to release. */
  ghost predicate ReleaseTells(was: Fs, fs: Fs, ino: nat, fh: nat, upload: Upload) {
    && fs == was.(handles := was.handles - {fh}, world := fs.world)
    && (fh !in was.handles ==> fs.world == was.world)
    && (fh in was.handles ==>
          var h := was.handles[fh];
          && fs.world.registered == was.world.registered - {h.id}
          && (if h.dirty then Sent(was.world, fs.world, ino, upload) && (ino in fs.world.told <==> !upload.Stored?)
              else && fs.world.files == was.world.files && fs.world.cloud == was.world.cloud
                   && fs.world.told == was.world.told))
  }

  lemma ReleaseLaw(fs: Fs, ino: nat, fh: nat, upload: Upload)
    ensures ReleaseTells(fs, Release(fs, ino, fh, upload), ino, fh, upload)
  {
    hide UploadedOrTold;
    if fh in fs.handles {
      var h, w := fs.handles[fh], Registered(fs.world, fs.handles[fh].id);
      SentLaw(w, ino, h.remotePath, h.cachePath, upload);
      UploadLeaves(w, ino, h.remotePath, h.cachePath, upload);
      assert w.registered - {h.id} == fs.world.registered - {h.id};
    } else {
      assert fs.handles - {fh} == fs.handles;
    }
  }

  // ---------------------------------------------------------------- truncation

  /** `file` is `was` cut or filled up with zeros to `size`. */
  ghost predicate CutTo(was: Bytes, file: Bytes, size: nat) {
    && |file| == size
    && (forall k :: 0 <= k < |was| && k < size ==> file[k] == was[k])
    && (forall k :: |was| <= k < size ==> file[k] == '\0')
  }

  lemma ResizedIsCut(file: Bytes, size: nat)
    ensures CutTo(file, Resized(file, size), size)
  {
  }

  /** The cached attribute after a truncation that succeeded. */
  ghost predicate SizeCached(was: map<nat, Attr>, attrs: map<nat, Attr>, ino: nat, size: nat, now: int) {
    && OnlyAt(was, attrs, ino) && (ino in was <==> ino in attrs)
    && (ino in attrs ==> Local(attrs[ino], size, now) && attrs[ino].hydrated == (size > 0 || was[ino].hydrated))
  }

  lemma SizedAttrsLaw(attrs: map<nat, Attr>, ino: nat, size: nat, now: int)
    ensures SizeCached(attrs, SizedAttrs(attrs, ino, size, now), ino, size, now)
  {
  }

  /** A truncation through a handle keeps every byte below both sizes, fills with zeros,
      and leaves the handle dirty; a failure changes nothing. */
  ghost predicate TruncateHandleTells(was: Fs, fs: Fs, err: Errno, ino: nat, fh: nat, size: nat, local: bool,
                                      now: int)
  {
    && err == (if ino !in was.names.toPath then ENOENT
               else if fh !in was.handles then EBADF
               else if !local then EIO
               else OK)
    && (err != OK ==> fs == was)
    && (err == OK ==>
          && fs == was.(handles := fs.handles, attrs := fs.attrs, world := fs.world)
          && fs.handles == was.handles[fh := was.handles[fh].(dirty := true)]
          && ino in fs.world.files && CutTo(FileOf(was.world, ino), fs.world.files[ino], size)
          && fs.world == was.world.(files := fs.world.files) && OnlyAt(was.world.files, fs.world.files, ino)
          && SizeCached(was.attrs, fs.attrs, ino, size, now))
  }

  lemma TruncateHandleLaw(fs: Fs, ino: nat, fh: nat, size: nat, local: bool, now: int)
    ensures var r := TruncateHandle(fs, ino, fh, size, local, now);
            TruncateHandleTells(fs, r.fs, r.err, ino, fh, size, local, now)
  {
    hide Resized, CutTo, SizedAttrs, SizeCached, FileOf;
    ResizedIsCut(FileOf(fs.world, ino), size);
    SizedAttrsLaw(fs.attrs, ino, size, now);
  }

  /** No id with the next number has been handed out. */
  ghost predicate IdsBelow(ids: set<HandleId>, next: nat) {
    forall id :: id in ids && id.Minted? ==> id.n < next
  }

  lemma NextIdIsFresh(ids: set<HandleId>, id: HandleId, next: nat)
    requires id.Minted? && id.n == next
    ensures IdsBelow(ids, next) ==> ids + {id} - {id} == ids
  {
    if IdsBelow(ids, next) {
      assert id !in ids;
    }
  }

  /** A truncation without a handle, of the content that `before` has: a success means that
      content, cut to the size, as file and in the cloud; a failure leaves the cached
      attributes alone and, once the file has changed, is told. */
  ghost predicate BareStores(was: Fs, fs: Fs, err: Errno, ino: nat, before: Option<Bytes>, size: nat, upload: Upload,
                             now: int)
  {
    && OnlyAt(was.world.files, fs.world.files, ino)
    && (if err == OK then SizeCached(was.attrs, fs.attrs, ino, size, now) else fs.attrs == was.attrs)
    && (err == OK ==> InCloud(fs.world, ino))
    && (before.Some? ==>
          && ino in fs.world.files && CutTo(before.value, fs.world.files[ino], size)
          && (upload.Stored? || ino in fs.world.told))
  }

  /** On every branch of it the ids at the engine, the names and the open handles are as
      before. */
  ghost predicate BareTells(was: Fs, fs: Fs, err: Errno, ino: nat, before: Option<Bytes>, size: nat, upload: Upload,
                            now: int)
  {
    && fs.names == was.names && fs.raw == was.raw && fs.handles == was.handles
    && (IdsBelow(was.world.registered, was.nextId) ==> fs.world.registered == was.world.registered)
    && BareStores(was, fs, err, ino, before, size, upload, now)
  }

  lemma BareLaw(was: Fs, fs: Fs, err: Errno, ino: nat, before: Option<Bytes>, size: nat, upload: Upload, now: int,
                id: HandleId)
    requires LeavesHandles(was, fs) && ClosesId(was, fs, id) && id.Minted? && id.n == was.nextId
    requires BareStores(was, fs, err, ino, before, size, upload, now)
    ensures BareTells(was, fs, err, ino, before, size, upload, now)
  {
    hide IdsBelow, BareStores;
    NextIdIsFresh(was.world.registered, id, was.nextId);
  }

  function ErrOfZero(fs: Fs, ino: nat, begun: Option<string>, upload: Upload): Errno {
    if ino !in fs.names.toPath then ENOENT
    else if begun.None? || !upload.Stored? then EngineError
    else OK
  }

  lemma TruncateZeroLaw(fs: Fs, ino: nat, begun: Option<string>, upload: Upload, now: int)
    ensures var r := TruncateBareZero(fs, ino, begun, upload, now);
            var before := if ino in fs.names.toPath && begun.Some? then Some("") else None;
            r.err == ErrOfZero(fs, ino, begun, upload) && BareTells(fs, r.fs, r.err, ino, before, 0, upload, now)
  {
    hide TruncateBareZero, BareStores, BareTells, LeavesHandles, ClosesId;
    var r := TruncateBareZero(fs, ino, begun, upload, now);
    var before := if ino in fs.names.toPath && begun.Some? then Some("") else None;
    TruncateZeroStores(fs, ino, begun, upload, now);
    TruncateZeroLeaves(fs, ino, begun, upload, now);
    BareLaw(fs, r.fs, r.err, ino, before, 0, upload, now, Minted("trunc0", fs.nextId));
  }

  lemma TruncateZeroStores(fs: Fs, ino: nat, begun: Option<string>, upload: Upload, now: int)
    ensures var r := TruncateBareZero(fs, ino, begun, upload, now);
            var before := if ino in fs.names.toPath && begun.Some? then Some("") else None;
            r.err == ErrOfZero(fs, ino, begun, upload) && BareStores(fs, r.fs, r.err, ino, before, 0, upload, now)
  {
    hide SizedAttrs, SizeCached, UploadedOrTold;
    SizedAttrsLaw(fs.attrs, ino, 0, now);
    if ino in fs.names.toPath && begun.Some? {
      var id, path := Minted("trunc0", fs.nextId), fs.names.toPath[ino];
      UploadLeaves(Registered(Placed(fs.world, ino, path, ""), id), ino, path, begun.value, upload);
    }
  }

  function ErrOfSize(fs: Fs, ino: nat, reply: Option<(string, Bytes)>, local: bool, upload: Upload): Errno {
    if ino !in fs.names.toPath then ENOENT
    else if reply.None? then EngineError
    else if !local then EIO
    else if !upload.Stored? then EngineError
    else OK
  }

  lemma TruncateToLaw(fs: Fs, ino: nat, size: nat, reply: Option<(string, Bytes)>, local: bool, upload: Upload,
                      now: int)
    ensures var r := TruncateBareTo(fs, ino, size, reply, local, upload, now);
            var before := if ino in fs.names.toPath && reply.Some? && local then Some(reply.value.1) else None;
            && r.err == ErrOfSize(fs, ino, reply, local, upload)
            && BareTells(fs, r.fs, r.err, ino, before, size, upload, now)
  {
    hide TruncateBareTo, BareStores, BareTells, LeavesHandles, ClosesId;
    var r := TruncateBareTo(fs, ino, size, reply, local, upload, now);
    var before := if ino in fs.names.toPath && reply.Some? && local then Some(reply.value.1) else None;
    TruncateToStores(fs, ino, size, reply, local, upload, now);
    TruncateToLeaves(fs, ino, size, reply, local, upload, now);
    BareLaw(fs, r.fs, r.err, ino, before, size, upload, now, Minted("truncN", fs.nextId));
  }

  lemma TruncateToStores(fs: Fs, ino: nat, size: nat, reply: Option<(string, Bytes)>, local: bool, upload: Upload,
                         now: int)
    ensures var r := TruncateBareTo(fs, ino, size, reply, local, upload, now);
            var before := if ino in fs.names.toPath && reply.Some? && local then Some(reply.value.1) else None;
            && r.err == ErrOfSize(fs, ino, reply, local, upload)
            && BareStores(fs, r.fs, r.err, ino, before, size, upload, now)
  {
    hide SizedAttrs, SizeCached, Resized, CutTo, Hydrated, UploadedOrTold;
    SizedAttrsLaw(fs.attrs, ino, size, now);
    if ino in fs.names.toPath && reply.Some? {
      var id, path, content := Minted("truncN", fs.nextId), fs.names.toPath[ino], reply.value.1;
      HydrationLeaves(fs.world, ino, path, content);
      ResizedIsCut(content, size);
      var w := Registered(Hydrated(fs.world, ino, path, content), id);
      UploadLeaves(w.(files := w.files[ino := Resized(content, size)]), ino, path, reply.value.0, upload);
    }
  }

  /** A truncation without a handle: to nothing once the engine has emptied the file, to a
      size of what the engine hydrated. */
  ghost predicate TruncatesBare(was: Fs, fs: Fs, err: Errno, ino: nat, size: nat, begun: Option<string>,
                                hydrated: Option<(string, Bytes)>, local: bool, upload: Upload, now: int)
  {
    var mapped := ino in was.names.toPath;
    if size == 0
    then err == ErrOfZero(was, ino, begun, upload) &&
         BareTells(was, fs, err, ino, if mapped && begun.Some? then Some("") else None, 0, upload, now)
    else err == ErrOfSize(was, ino, hydrated, local, upload) &&
         BareTells(was, fs, err, ino, if mapped && hydrated.Some? && local then Some(hydrated.value.1) else None, size,
                   upload, now)
  }

  // ---------------------------------------------------------------- new entries

  /** Whether `name` may stand at `cp`: not if an entry is there under another spelling,
      cached or offered by the listing, which is needed when none is cached. */
  ghost function Barred(fs: Fs, cp: string, name: string, listing: Option<seq<ListEntry>>): Errno {
    if VisibleName(fs.raw, cp) == name then OK
    else if Cached(fs, cp) || Offers(listing, cp) then EEXIST
    else if listing.None? then EngineError
    else OK
  }

  lemma CheckLaw(fs: Fs, cp: string, name: string, listing: Option<seq<ListEntry>>)
    requires NamesInv(fs.names)
    ensures var r := CollisionCheck(fs, cp, name, listing);
            && r.err == Barred(fs, cp, name, listing) && Extends(fs.names, r.fs.names)
            && r.fs == fs.(names := r.fs.names, attrs := r.fs.attrs)
  {
    hide VisibleName, Populated, Cached, Offers, InListing, HasAttr;
    CheckExtends(fs, cp, name, listing);
    CachedIs(fs, cp);
    OffersIs(listing, cp);
    if listing.None? {
      NothingOffered(cp);
    }
  }

  lemma NothingOffered(path: string)
    ensures !Offers(None, path)
  {
  }

  /** A new entry at `cp` is mapped, cached as `attr` and shown as `name`; every other entry
      keeps its inode and is shown as before. */
  ghost predicate Enters(nfc: string -> string, was: Fs, fs: Fs, cp: string, name: string, attr: Attr) {
    && Extends(was.names, fs.names) && cp in fs.names.toInode
    && fs.names.toInode[cp] in fs.attrs && fs.attrs[fs.names.toInode[cp]] == attr
    && (NfcLaws(nfc) && '/' !in name ==> VisibleName(fs.raw, cp) == name)
    && (forall k :: k != cp ==> VisibleName(fs.raw, k) == VisibleName(was.raw, k))
  }

  lemma RecordedShows(nfc: string -> string, raw: map<string, string>, parent: string, name: string)
    ensures var cp, r := ChildPath(nfc, parent, name), Recorded(nfc, raw, ChildPath(nfc, parent, name), name);
            && (NfcLaws(nfc) && '/' !in name ==> VisibleName(r, cp) == name)
            && (forall k :: k != cp ==> VisibleName(r, k) == VisibleName(raw, k))
  {
    hide ChildPath, Basename, NfcLaws;
    if NfcLaws(nfc) && '/' !in name {
      ChildPathParts(nfc, parent, name);
    }
  }

  lemma EnteredEnters(nfc: string -> string, fs: Fs, parent: string, name: string, attr: Attr)
    requires NamesInv(fs.names)
    ensures var cp := ChildPath(nfc, parent, name); Enters(nfc, fs, Entered(nfc, fs, cp, name, attr), cp, name, attr)
  {
    hide ChildPath, Recorded, VisibleName, NfcLaws, Basename;
    RecordedShows(nfc, fs.raw, parent, name);
    InternKeeps(fs.names, ChildPath(nfc, parent, name));
  }

  lemma EntersAfter(nfc: string -> string, was: Fs, fs: Fs, r: Fs, cp: string, name: string, attr: Attr)
    requires Enters(nfc, fs, r, cp, name, attr) && Extends(was.names, fs.names) && fs.raw == was.raw
    ensures Enters(nfc, was, r, cp, name, attr)
  {
    hide NfcLaws, VisibleName;
  }

  /** A create succeeds exactly if the parent has a path, the name is not barred, the engine
      creates the file and the local disk opens it. Then an empty file is entered, and open
      and dirty under the next handle number with what the engine replied. A failure opens
      nothing and remembers no name. */
  ghost predicate CreateTells(nfc: string -> string, was: Fs, fs: Fs, err: Errno, parent: nat, name: string,
                              listing: Option<seq<ListEntry>>, reply: Option<(string, HandleId)>, local: bool, now: int)
  {
    && Extends(was.names, fs.names)
    && err == ErrOfCreate(nfc, was, parent, name, listing, reply, local)
    && (err != OK ==>
          && fs.handles == was.handles && fs.nextFh == was.nextFh && fs.raw == was.raw
          && fs.world.files == was.world.files)
    && (err == OK ==>
          && parent in was.names.toPath && reply.Some?
          && var cp := ChildPath(nfc, was.names.toPath[parent], name);
          && cp in fs.names.toInode && Enters(nfc, was, fs, cp, name, Attr(0, now, None, false, true, true))
          && fs.handles == was.handles[was.nextFh := Handle(reply.value.1, cp, reply.value.0, true)]
          && fs.nextFh == was.nextFh + 1
          && fs.world == Placed(was.world, fs.names.toInode[cp], cp, "").(
                           inodeOf := was.world.inodeOf[was.nextFh := fs.names.toInode[cp]],
                           registered := was.world.registered + {reply.value.1}))
  }

  ghost function ErrOfCreate(nfc: string -> string, was: Fs, parent: nat, name: string, listing: Option<seq<ListEntry>>,
                             reply: Option<(string, HandleId)>, local: bool): Errno
  {
    if parent !in was.names.toPath then ENOENT
    else
      var barred := Barred(was, ChildPath(nfc, was.names.toPath[parent], name), name, listing);
      if barred != OK then barred
      else if reply.None? then EngineError
      else if !local then EIO
      else OK
  }

  lemma CreateLaw(nfc: string -> string, fs: Fs, parent: nat, name: string, listing: Option<seq<ListEntry>>,
                  reply: Option<(string, HandleId)>, local: bool, now: int)
    requires NamesInv(fs.names)
    ensures var r := Create(nfc, fs, parent, name, listing, reply, local, now);
            CreateTells(nfc, fs, r.fs, r.err, parent, name, listing, reply, local, now)
  {
    hide ChildPath, CollisionCheck, Created, CreateTells, Barred, NamesInv;
    CreateFails(nfc, fs, parent, name, listing, reply, local, now);
    if parent in fs.names.toPath {
      var cp := ChildPath(nfc, fs.names.toPath[parent], name);
      CheckLaw(fs, cp, name, listing);
      var checked := CollisionCheck(fs, cp, name, listing).fs;
      if Create(nfc, fs, parent, name, listing, reply, local, now).err == OK {
        var fs1 := checked.(nextId := checked.nextId + 1, world := Registered(checked.world, reply.value.1));
        CreatedTells(nfc, fs, fs1, parent, name, listing, reply, local, now);
      }
    }
  }

  lemma CreateFails(nfc: string -> string, fs: Fs, parent: nat, name: string, listing: Option<seq<ListEntry>>,
                    reply: Option<(string, HandleId)>, local: bool, now: int)
    requires NamesInv(fs.names)
    ensures var r := Create(nfc, fs, parent, name, listing, reply, local, now);
            r.err != OK ==> CreateTells(nfc, fs, r.fs, r.err, parent, name, listing, reply, local, now)
  {
    hide ChildPath, CollisionCheck, Created, Barred, Enters, Placed;
    if parent in fs.names.toPath {
      CheckLaw(fs, ChildPath(nfc, fs.names.toPath[parent], name), name, listing);
    }
  }

  /** `fs` is the state before the create, `fs1` that in which the engine has done its part. */
  lemma CreatedTells(nfc: string -> string, fs: Fs, fs1: Fs, parent: nat, name: string, listing: Option<seq<ListEntry>>,
                     reply: Option<(string, HandleId)>, local: bool, now: int)
    requires parent in fs.names.toPath && ErrOfCreate(nfc, fs, parent, name, listing, reply, local) == OK
    requires Extends(fs.names, fs1.names) && fs1.world == Registered(fs.world, reply.value.1)
    requires fs1 == fs.(names := fs1.names, attrs := fs1.attrs, nextId := fs1.nextId, world := fs1.world)
    ensures var cp := ChildPath(nfc, fs.names.toPath[parent], name);
            CreateTells(nfc, fs, Created(nfc, fs1, cp, name, reply.value.1, reply.value.0, now), OK, parent, name,
                        listing, reply, local, now)
  {
    hide ChildPath, Entered, Enters, Barred, VisibleName, NfcLaws, Recorded, NamesInv, InodeOf;
    var cp, attr := ChildPath(nfc, fs.names.toPath[parent], name), Attr(0, now, None, false, true, true);
    var r := Created(nfc, fs1, cp, name, reply.value.1, reply.value.0, now);
    EnteredEnters(nfc, fs1, fs.names.toPath[parent], name, attr);
    EnteredMaps(nfc, fs1, cp, name, attr);
    EntersSame(nfc, fs1, Entered(nfc, fs1, cp, name, attr), r, cp, name, attr);
    EntersAfter(nfc, fs, fs1, r, cp, name, attr);
  }

  lemma EnteredMaps(nfc: string -> string, fs: Fs, cp: string, name: string, attr: Attr)
    requires NamesInv(fs.names)
    ensures var r := Entered(nfc, fs, cp, name, attr);
            && Extends(fs.names, r.names) && cp in r.names.toInode && r.names.toInode[cp] == InodeOf(fs.names, cp)
            && r == fs.(names := r.names, attrs := r.attrs, raw := r.raw)
  {
    InternKeeps(fs.names, cp);
  }

  lemma EntersSame(nfc: string -> string, was: Fs, fs: Fs, r: Fs, cp: string, name: string, attr: Attr)
    requires Enters(nfc, was, fs, cp, name, attr) && r.names == fs.names && r.raw == fs.raw && r.attrs == fs.attrs
    ensures Enters(nfc, was, r, cp, name, attr)
  {
    hide NfcLaws, VisibleName;
  }

  /** A node is made exactly as a file is created, and only a regular one; its handle is then
      given back: no handle and no id is left of it, and the empty file is sent, or the
      failure told. */
  ghost predicate MknodTells(nfc: string -> string, was: Fs, fs: Fs, err: Errno, parent: nat, name: string,
                             regular: bool, listing: Option<seq<ListEntry>>, reply: Option<(string, HandleId)>,
                             local: bool, upload: Upload, now: int)
  {
    && err == (if !regular then EPERM else ErrOfCreate(nfc, was, parent, name, listing, reply, local))
    && (err != OK ==> fs.handles == was.handles && fs.raw == was.raw && fs.world.files == was.world.files)
    && (err == OK ==>
          && parent in was.names.toPath && reply.Some?
          && var cp := ChildPath(nfc, was.names.toPath[parent], name);
          && cp in fs.names.toInode && Enters(nfc, was, fs, cp, name, Attr(0, now, None, false, true, true))
          && fs.handles == was.handles - {was.nextFh}
          && fs.world.registered == was.world.registered + {reply.value.1} - {reply.value.1}
          && fs.world.files == was.world.files[fs.names.toInode[cp] := ""]
          && (if upload.Stored? then InCloud(fs.world, fs.names.toInode[cp])
              else fs.names.toInode[cp] in fs.world.told))
  }

  lemma MknodLaw(nfc: string -> string, fs: Fs, parent: nat, name: string, regular: bool,
                 listing: Option<seq<ListEntry>>, reply: Option<(string, HandleId)>, local: bool, upload: Upload,
                 now: int)
    requires NamesInv(fs.names)
    ensures var r := Mknod(nfc, fs, parent, name, regular, listing, reply, local, upload, now);
            MknodTells(nfc, fs, r.fs, r.err, parent, name, regular, listing, reply, local, upload, now)
  {
    hide Create, CreateTells, Release, MknodTells;
    NotMade(nfc, fs, fs, EPERM, parent, name, false, listing, reply, local, upload, now);
    if regular {
      CreateLaw(nfc, fs, parent, name, listing, reply, local, now);
      var created := Create(nfc, fs, parent, name, listing, reply, local, now);
      if created.err == OK {
        GivenBack(nfc, fs, created.fs, parent, name, listing, reply, local, upload, now);
      } else {
        NotMade(nfc, fs, created.fs, created.err, parent, name, true, listing, reply, local, upload, now);
      }
    }
  }

  lemma NotMade(nfc: string -> string, fs: Fs, r: Fs, err: Errno, parent: nat, name: string, regular: bool,
                listing: Option<seq<ListEntry>>, reply: Option<(string, HandleId)>, local: bool, upload: Upload,
                now: int)
    requires if regular then err != OK && CreateTells(nfc, fs, r, err, parent, name, listing, reply, local, now)
             else err == EPERM && r == fs
    ensures MknodTells(nfc, fs, r, err, parent, name, regular, listing, reply, local, upload, now)
  {
    hide ChildPath, ErrOfCreate, Enters, Extends;
  }

  /** What is left of a created file once its handle is given back. */
  lemma GivenBack(nfc: string -> string, fs: Fs, made: Fs, parent: nat, name: string, listing: Option<seq<ListEntry>>,
                  reply: Option<(string, HandleId)>, local: bool, upload: Upload, now: int)
    requires CreateTells(nfc, fs, made, OK, parent, name, listing, reply, local, now)
    ensures made.nextFh == fs.nextFh + 1 && fs.nextFh in made.world.inodeOf
    ensures var r := Release(made, made.world.inodeOf[fs.nextFh], fs.nextFh, upload);
            MknodTells(nfc, fs, r, OK, parent, name, true, listing, reply, local, upload, now)
  {
    hide ChildPath, Enters, ErrOfCreate, Release, InCloud, Extends;
    var cp := ChildPath(nfc, fs.names.toPath[parent], name);
    var ino, fh := made.names.toInode[cp], fs.nextFh;
    var r := Release(made, ino, fh, upload);
    DirtyReleaseGives(made, ino, fh, upload);
    assert made.handles - {fh} == fs.handles - {fh};
    EntersSame(nfc, fs, made, r, cp, name, Attr(0, now, None, false, true, true));
  }

  lemma DirtyReleaseGives(fs: Fs, ino: nat, fh: nat, upload: Upload)
    requires fh in fs.handles && fs.handles[fh].dirty && ino in fs.world.files
    ensures var r := Release(fs, ino, fh, upload);
            && r == fs.(handles := fs.handles - {fh}, world := r.world)
            && r.world.registered == fs.world.registered - {fs.handles[fh].id} && r.world.files == fs.world.files
            && (if upload.Stored? then InCloud(r.world, ino) else ino in r.world.told)
  {
    hide UploadedOrTold;
    var h := fs.handles[fh];
    UploadLeaves(Registered(fs.world, h.id), ino, h.remotePath, h.cachePath, upload);
    assert fs.world.registered + {h.id} - {h.id} == fs.world.registered - {h.id};
  }

  /** A folder is made exactly if the parent has a path, the name is not barred and the engine
      makes it; it is then entered as a folder. Handles, ids and files stay as they are. */
  ghost predicate MkdirTells(nfc: string -> string, was: Fs, fs: Fs, err: Errno, parent: nat, name: string,
                             listing: Option<seq<ListEntry>>, made: bool, now: int)
  {
    && Extends(was.names, fs.names) && fs.handles == was.handles && fs.world == was.world
    && err == ErrOfMkdir(nfc, was, parent, name, listing, made)
    && (err != OK ==> fs.raw == was.raw)
    && (err == OK ==>
          var cp := ChildPath(nfc, was.names.toPath[parent], name);
          Enters(nfc, was, fs, cp, name, Attr(0, now, None, true, false, false)))
  }

  ghost function ErrOfMkdir(nfc: string -> string, was: Fs, parent: nat, name: string, listing: Option<seq<ListEntry>>,
                            made: bool): Errno
  {
    if parent !in was.names.toPath then ENOENT
    else
      var barred := Barred(was, ChildPath(nfc, was.names.toPath[parent], name), name, listing);
      if barred != OK then barred else if !made then EngineError else OK
  }

  lemma MkdirLaw(nfc: string -> string, fs: Fs, parent: nat, name: string, listing: Option<seq<ListEntry>>, made: bool,
                 now: int)
    requires NamesInv(fs.names)
    ensures var r := Mkdir(nfc, fs, parent, name, listing, made, now);
            MkdirTells(nfc, fs, r.fs, r.err, parent, name, listing, made, now)
  {
    hide ChildPath, CollisionCheck, Entered, Enters, Barred;
    if parent in fs.names.toPath {
      var cp := ChildPath(nfc, fs.names.toPath[parent], name);
      CheckLaw(fs, cp, name, listing);
      var checked := CollisionCheck(fs, cp, name, listing).fs;
      if Mkdir(nfc, fs, parent, name, listing, made, now).err == OK {
        var attr := Attr(0, now, None, true, false, false);
        EnteredEnters(nfc, checked, fs.names.toPath[parent], name, attr);
        EnteredMaps(nfc, checked, cp, name, attr);
        EntersAfter(nfc, fs, checked, Entered(nfc, checked, cp, name, attr), cp, name, attr);
      }
    }
  }

  // ---------------------------------------------------------------- removing and renaming

  /** An entry is removed exactly if the parent has a path and the engine removes it. Then it
      has no inode, its inode neither path nor attribute, and nothing at or below it a
      remembered name; all else stays, handles too. A failure changes nothing. */
  ghost predicate RemoveTells(nfc: string -> string, was: Fs, fs: Fs, err: Errno, parent: nat, name: string,
                              removed: bool)
  {
    && err == (if parent !in was.names.toPath then ENOENT else if !removed then EngineError else OK)
    && (err != OK ==> fs == was)
    && (err == OK ==>
          var cp := ChildPath(nfc, was.names.toPath[parent], name);
          && fs.handles == was.handles && SameButStore(was.world, fs.world)
          && cp !in fs.world.store.cache && cp !in fs.world.store.remote
          && fs.names.next == was.names.next
          && (forall i :: i in fs.names.toPath <==> i in was.names.toPath && was.names.toPath[i] != cp)
          && (forall i :: i in fs.names.toPath ==> fs.names.toPath[i] == was.names.toPath[i])
          && (forall i :: i in fs.attrs <==> i in was.attrs && !(i in was.names.toPath && was.names.toPath[i] == cp))
          && (forall i :: i in fs.attrs ==> fs.attrs[i] == was.attrs[i])
          && (forall k :: k in fs.raw <==> k in was.raw && k != cp && !(cp + "/" <= k))
          && (forall k :: k in fs.raw ==> fs.raw[k] == was.raw[k]))
  }

  lemma RemoveLaw(nfc: string -> string, fs: Fs, parent: nat, name: string, removed: bool)
    requires NamesInv(fs.names)
    ensures var r := Remove(nfc, fs, parent, name, removed); RemoveTells(nfc, fs, r.fs, r.err, parent, name, removed)
  {
    hide ChildPath;
  }

  /** Every inode follows the rename: at or below `src` its path gets the new prefix,
      elsewhere at or below `dst` it loses its path if anything was there to move, and all
      others keep theirs. */
  ghost predicate NamesFollow(n: Names, n': Names, src: string, dst: string) {
    && NamesInv(n') && Later(n, n')
    && (forall i :: i in n.toPath && AtOrBelow(n.toPath[i], src) ==>
          i in n'.toPath && n'.toPath[i] == dst + n.toPath[i][|src|..])
    && (forall i :: i in n.toPath && !AtOrBelow(n.toPath[i], src) && !AtOrBelow(n.toPath[i], dst) ==>
          i in n'.toPath && n'.toPath[i] == n.toPath[i])
    && ((exists i :: i in n.toPath && AtOrBelow(n.toPath[i], src)) ==>
          forall i :: i in n.toPath && !AtOrBelow(n.toPath[i], src) && AtOrBelow(n.toPath[i], dst) ==> i !in n'.toPath)
  }

  lemma NamesLaw(was: Names, n: Names, src: string, dst: string)
    requires Extends(was, n) && src != "" && dst != ""
    ensures NamesFollow(was, Renamed(n, src, dst), src, dst)
  {
    hide Renamed, Bijective;
    RenameKeeps(n, src, dst);
    forall i | i in was.toPath
      ensures var n' := Renamed(n, src, dst);
              && (AtOrBelow(was.toPath[i], src) ==> i in n'.toPath && n'.toPath[i] == dst + was.toPath[i][|src|..])
              && (!AtOrBelow(was.toPath[i], src) && !AtOrBelow(was.toPath[i], dst) ==>
                    i in n'.toPath && n'.toPath[i] == was.toPath[i])
              && (!AtOrBelow(was.toPath[i], src) && AtOrBelow(was.toPath[i], dst) && AnyAtOrBelow(n, src) ==>
                    i !in n'.toPath)
    {
      RenameByInode(n, src, dst, i);
    }
    if i :| i in was.toPath && AtOrBelow(was.toPath[i], src) {
      AnyIs(n, i, src);
    }
  }

  lemma AnyIs(n: Names, i: nat, src: string)
    requires Bijective(n) && i in n.toPath && AtOrBelow(n.toPath[i], src)
    ensures AnyAtOrBelow(n, src)
  {
    assert n.toPath[i] in n.toInode;
  }

  /** A handle at or below `src` goes to the new path, its cache path too if it mirrors the
      old one; it keeps its id and its dirty bit, and any other handle stays as it is. */
  ghost predicate HandleFollows(h: Handle, h': Handle, src: string, dst: string) {
    && h'.id == h.id && h'.dirty == h.dirty
    && (if AtOrBelow(h.remotePath, src) then h'.remotePath == dst + h.remotePath[|src|..] else h' == h)
    && (forall base :: Mirrors(base, h) ==> Mirrors(base, h'))
  }

  ghost predicate HandlesFollow(was: map<nat, Handle>, handles: map<nat, Handle>, src: string, dst: string) {
    handles.Keys == was.Keys && forall fh :: fh in was ==> HandleFollows(was[fh], handles[fh], src, dst)
  }

  lemma HandlesLaw(handles: map<nat, Handle>, src: string, dst: string)
    ensures HandlesFollow(handles, Followed(handles, src, dst), src, dst)
  {
    hide Mirrors;
    forall fh | fh in handles
      ensures HandleFollows(handles[fh], FollowRename(handles[fh], src, dst), src, dst)
    {
      forall base ensures Mirrors(base, handles[fh]) ==> Mirrors(base, FollowRename(handles[fh], src, dst)) {
        FollowKeepsBase(handles[fh], src, dst, base);
      }
    }
  }

  /** A name remembered below `src` is shown at the new path, none is left at or below `src`
      that is not also at or below `dst`, names elsewhere stay, and the entry renamed is
      shown as `name`. */
  ghost predicate ShownFollow(nfc: string -> string, was: map<string, string>, raw: map<string, string>, src: string,
                              dst: string, name: string)
  {
    && (forall k :: k in was && src + "/" <= k ==> VisibleName(raw, dst + k[|src|..]) == VisibleName(was, k))
    && (forall k :: k in raw && AtOrBelow(k, src) ==> AtOrBelow(k, dst))
    && (forall k :: !AtOrBelow(k, src) && !AtOrBelow(k, dst) ==> VisibleName(raw, k) == VisibleName(was, k))
    && (NfcLaws(nfc) && '/' !in name ==> VisibleName(raw, dst) == name)
  }

  lemma ShownLaw(nfc: string -> string, raw: map<string, string>, src: string, dstParent: string, name: string)
    ensures var dst := ChildPath(nfc, dstParent, name);
            ShownFollow(nfc, raw, Recorded(nfc, RenamedRaw(raw, src, dst), dst, name), src, dst, name)
  {
    hide ChildPath, Basename, NfcLaws, Moved, MovedRaw, Recorded;
    var dst := ChildPath(nfc, dstParent, name);
    var moved, r := RenamedRaw(raw, src, dst), Recorded(nfc, RenamedRaw(raw, src, dst), dst, name);
    RecordedShows(nfc, moved, dstParent, name);
    RecordedKeys(nfc, moved, dst, name);
    forall k | k in raw && src + "/" <= k
      ensures VisibleName(r, dst + k[|src|..]) == VisibleName(raw, k)
    {
      MovedRawAt(raw, src, dst, k);
      MovedIs(k, src, dst);
    }
    forall k | k in r && AtOrBelow(k, src)
      ensures AtOrBelow(k, dst)
    {
      MovedRawBelow(raw, src, dst, k);
    }
    forall k | !AtOrBelow(k, src) && !AtOrBelow(k, dst)
      ensures VisibleName(r, k) == VisibleName(raw, k)
    {
      MovedRawBelow(raw, src, dst, k);
    }
  }

  lemma MovedIs(k: string, src: string, dst: string)
    requires src + "/" <= k
    ensures AtOrBelow(k, src) && k != src && Moved(k, src, dst) == dst + k[|src|..] != dst
  {
  }

  lemma RecordedKeys(nfc: string -> string, raw: map<string, string>, cp: string, name: string)
    ensures forall k :: k in Recorded(nfc, raw, cp, name) ==> k == cp || k in raw
  {
  }

  lemma MovedRawBelow(raw: map<string, string>, src: string, dst: string, k: string)
    ensures k in MovedRaw(raw, src, dst) ==> AtOrBelow(k, dst)
  {
  }

  ghost function ErrOfRename(nfc: string -> string, was: Fs, srcParent: nat, dstParent: nat, dstName: string,
                             listing: Option<seq<ListEntry>>, renamed: bool): Errno
  {
    if srcParent !in was.names.toPath || dstParent !in was.names.toPath then ENOENT
    else
      var barred := Barred(was, ChildPath(nfc, was.names.toPath[dstParent], dstName), dstName, listing);
      if barred != OK then barred else if !renamed then EngineError else OK
  }

  /** A rename succeeds exactly if both parents have paths, the new name is not barred and the
      engine renames; then the inodes, the open handles and the remembered names follow it.
      A failure leaves all three as they were. */
  ghost predicate RenameTells(nfc: string -> string, was: Fs, fs: Fs, err: Errno, srcParent: nat, srcName: string,
                              dstParent: nat, dstName: string, listing: Option<seq<ListEntry>>, renamed: bool)
  {
    && err == ErrOfRename(nfc, was, srcParent, dstParent, dstName, listing, renamed)
    && SameButStore(was.world, fs.world) && was.attrs.Keys <= fs.attrs.Keys && fs.nextFh == was.nextFh
    && (err != OK ==>
          Extends(was.names, fs.names) && fs.handles == was.handles && fs.raw == was.raw && fs.world == was.world)
    && (err == OK ==>
          && srcParent in was.names.toPath && dstParent in was.names.toPath
          && var src := ChildPath(nfc, was.names.toPath[srcParent], srcName);
             var dst := ChildPath(nfc, was.names.toPath[dstParent], dstName);
          && NamesFollow(was.names, fs.names, src, dst) && HandlesFollow(was.handles, fs.handles, src, dst)
          && ShownFollow(nfc, was.raw, fs.raw, src, dst, dstName))
  }

  lemma RenameLaw(nfc: string -> string, fs: Fs, srcParent: nat, srcName: string, dstParent: nat, dstName: string,
                  listing: Option<seq<ListEntry>>, renamed: bool)
    requires NamesInv(fs.names)
    ensures var r := Rename(nfc, fs, srcParent, srcName, dstParent, dstName, listing, renamed);
            RenameTells(nfc, fs, r.fs, r.err, srcParent, srcName, dstParent, dstName, listing, renamed)
  {
    hide CollisionCheck, ChildPath, Barred, NamesFollow, HandlesFollow, ShownFollow, Renamed, Followed, RenamedRaw,
         Recorded, MovedStore, NamesInv;
    if srcParent in fs.names.toPath && dstParent in fs.names.toPath {
      var src := ChildPath(nfc, fs.names.toPath[srcParent], srcName);
      var dst := ChildPath(nfc, fs.names.toPath[dstParent], dstName);
      ChildPathNotRoot(nfc, fs.names.toPath[srcParent], srcName);
      ChildPathNotRoot(nfc, fs.names.toPath[dstParent], dstName);
      CheckLaw(fs, dst, dstName, listing);
      CheckAttrs(fs, dst, dstName, listing);
      var checked := CollisionCheck(fs, dst, dstName, listing).fs;
      NamesLaw(fs.names, checked.names, src, dst);
      HandlesLaw(fs.handles, src, dst);
      ShownLaw(nfc, fs.raw, src, fs.names.toPath[dstParent], dstName);
    }
  }

  lemma ChildPathNotRoot(nfc: string -> string, parent: string, name: string)
    ensures ChildPath(nfc, parent, name) != ""
  {
  }

  lemma CheckAttrs(fs: Fs, cp: string, name: string, listing: Option<seq<ListEntry>>)
    ensures fs.attrs.Keys <= CollisionCheck(fs, cp, name, listing).fs.attrs.Keys
  {
    hide Populated, VisibleName, HasAttr, InListing;
    if listing.Some? {
      forall i | i in fs.attrs ensures i in Populated(fs, listing.value).attrs {
        AttrsStay(fs, listing.value, i);
      }
    }
  }

  /** Whatever is renamed: an entry below the source is shown under the name it had, exactly
      unless it had none remembered and lands on a path a name is still remembered for. */
  lemma RenameKeepsShownName(nfc: string -> string, fs: Fs, srcParent: nat, srcName: string, dstParent: nat,
                             dstName: string, listing: Option<seq<ListEntry>>, renamed: bool, p: string)
    requires NamesInv(fs.names) && RawInv(nfc, fs.raw)
    requires var r := Rename(nfc, fs, srcParent, srcName, dstParent, dstName, listing, renamed);
             r.err == OK && srcParent in fs.names.toPath && dstParent in fs.names.toPath
    requires ChildPath(nfc, fs.names.toPath[srcParent], srcName) + "/" <= p
    ensures var r := Rename(nfc, fs, srcParent, srcName, dstParent, dstName, listing, renamed).fs;
            var src := ChildPath(nfc, fs.names.toPath[srcParent], srcName);
            var q := ChildPath(nfc, fs.names.toPath[dstParent], dstName) + p[|src|..];
            VisibleName(r.raw, q) == VisibleName(fs.raw, p) <==> p in fs.raw || q !in fs.raw || AtOrBelow(q, src)
  {
    hide CollisionCheck, ChildPath, Renamed, Followed, RenamedRaw, Recorded, MovedStore, VisibleName, AtOrBelow;
    var src := ChildPath(nfc, fs.names.toPath[srcParent], srcName);
    var dst := ChildPath(nfc, fs.names.toPath[dstParent], dstName);
    CheckLaw(fs, dst, dstName, listing);
    MovedIs(p, src, dst);
    RenameTakesNameAlong(nfc, fs.raw, src, dst, p);
    RecordedShows(nfc, RenamedRaw(fs.raw, src, dst), fs.names.toPath[dstParent], dstName);
  }

  // ---------------------------------------------------------------- applied changes

  /** A dirty handle's path is that of the inode: its writes are still to be sent. */
  ghost predicate Unsent(fs: Fs, ino: nat) {
    exists fh :: fh in fs.handles && fs.handles[fh].dirty && fs.handles[fh].remotePath in fs.names.toInode &&
                 fs.names.toInode[fs.handles[fh].remotePath] == ino
  }

  /** The change names the path, a folder above it, or everything. */
  ghost predicate Speaks(change: Invalidation, path: string) {
    change.All? || exists r :: r in change.roots && (path == r || (r != "" && r + "/" <= path))
  }

  /** Which attributes survive changes of which `spoken` tells the paths: of mapped inodes,
      those with unsent writes and those no change speaks of. Nothing else changes, and what
      survives is as it was. */
  ghost predicate Spares(was: Fs, fs: Fs, changes: seq<Invalidation>) {
    && fs == was.(attrs := fs.attrs)
    && (forall i :: i in fs.attrs ==> i in was.attrs && fs.attrs[i] == was.attrs[i])
    && (forall i :: i in was.attrs && Unsent(was, i) ==> i in fs.attrs)
    && (forall i :: i in was.attrs && !Unsent(was, i) && i in was.names.toPath ==>
          (i in fs.attrs <==> forall c :: c in changes ==> !Speaks(c, was.names.toPath[i])))
    && (forall i :: i in was.attrs && !Unsent(was, i) && i !in was.names.toPath ==>
          (i in fs.attrs <==> All !in changes))
  }

  lemma AppliedSpares(fs: Fs, change: Invalidation)
    ensures Spares(fs, Applied(fs, change), [change])
  {
    hide Covered;
    forall i ensures Unsent(fs, i) <==> i in Kept(fs) {
    }
    forall path ensures Speaks(change, path) <==> Hits(change, path) {
      SpeaksIs(change, path);
    }
    assert change in [change];
  }

  lemma SpeaksIs(change: Invalidation, path: string)
    ensures Speaks(change, path) <==> Hits(change, path)
  {
    if change.Paths? {
      var roots := set r | r in change.roots;
      assert forall r :: r in roots <==> r in change.roots;
      if root :| root in roots && root != "" && AtOrBelow(path, root) {
        assert root in change.roots;
      }
    }
  }

  /** Over every run: as long as its file has a dirty handle, the attribute of a mapped inode
      is not dropped by any change that is applied. */
  lemma DirtyIsSpared(nfc: string -> string, states: seq<Fs>, ops: seq<Op>, k: nat, fh: nat, change: Invalidation)
    requires Run(nfc, states, ops) && Ordered(states[0]) && k <= |ops|
    requires fh in states[k].handles && states[k].handles[fh].dirty && fh in states[k].world.inodeOf
    requires states[k].world.inodeOf[fh] in states[k].names.toPath && states[k].world.inodeOf[fh] in states[k].attrs
    ensures var ino := states[k].world.inodeOf[fh];
            ino in Applied(states[k], change).attrs && Applied(states[k], change).attrs[ino] == states[k].attrs[ino]
  {
    hide Applied, Spares, Unsent;
    RunKeepsOrder(nfc, states, ops, k);
    AppliedSpares(states[k], change);
    assert OnItsFile(states[k].names, states[k].world.inodeOf[fh], states[k].handles[fh]);
    UnsentBy(states[k], fh);
    SparesUnsent(states[k], Applied(states[k], change), [change], states[k].world.inodeOf[fh]);
  }

  lemma UnsentBy(fs: Fs, fh: nat)
    requires fh in fs.handles && fs.handles[fh].dirty && fs.handles[fh].remotePath in fs.names.toInode
    ensures Unsent(fs, fs.names.toInode[fs.handles[fh].remotePath])
  {
  }

  lemma SparesUnsent(was: Fs, fs: Fs, changes: seq<Invalidation>, ino: nat)
    requires Spares(was, fs, changes) && Unsent(was, ino) && ino in was.attrs
    ensures ino in fs.attrs && fs.attrs[ino] == was.attrs[ino]
  {
    hide Unsent;
  }

  lemma NothingSpares(fs: Fs)
    ensures Spares(fs, fs, [])
  {
  }

  /** One more change applied. */
  lemma SparesMore(was: Fs, fs: Fs, changes: seq<Invalidation>, r: Fs, change: Invalidation)
    requires Spares(was, fs, changes) && Spares(fs, r, [change])
    ensures Spares(was, r, changes + [change])
  {
    hide Speaks;
    assert fs.names == was.names && fs.handles == was.handles;
    forall i ensures Unsent(fs, i) <==> Unsent(was, i) {
    }
    assert change in [change] && change in changes + [change];
    assert forall c :: c in changes + [change] <==> c in changes || c == change;
  }
}
