/** The mount's shared state and what each FUSE operation makes of it, with the
    outcomes of the engine, the kernel and the local disk as arguments. */
module MountState {
  import opened Options
  import opened PathText
  import opened PathMaps

  datatype Errno = OK | ENOENT | EISDIR | EEXIST | EBADF | EPERM | EIO | EngineError

  /** One entry of a `hydration.list` reply. */
  datatype ListEntry = ListEntry(path: string, size: nat, mtime: int, hydrated: bool, folder: bool,
                                 remoteModified: Option<int>, pending: bool)

  datatype Attr = Attr(size: nat, mtime: int, remoteMtime: Option<int>, folder: bool, hydrated: bool, pending: bool)

  function AttrOf(e: ListEntry): Attr {
    Attr(e.size, e.mtime, if e.folder || (!e.hydrated && !e.pending) then e.remoteModified else None,
         e.folder, e.hydrated, e.pending)
  }

  /** A handle id is minted here (a tag and a running number) or chosen by the engine. */
  datatype HandleId = Minted(tag: string, n: nat) | Given(token: string)

  datatype Handle = Handle(id: HandleId, remotePath: string, cachePath: string, dirty: bool)

  type Bytes = string

  /** The engine's books, by remote path: the directory its cache files lie below, the
      cache file of each path (named by the inode it was made for), what the cloud has
      under each path, and the paths of which a failure was returned or logged since
      their last successful upload. */
  datatype Store = Store(root: string, cache: map<string, nat>, remote: map<string, Bytes>, missed: set<string>)

  /** The peers: the inode the kernel holds each file handle for, the content of each
      inode's cache file, the handle ids registered at the engine, what uploads of
      each inode's file have put in the cloud, the inodes of which a failure was told
      since their last successful upload, and the engine's books. */
  datatype World = World(inodeOf: map<nat, nat>, files: map<nat, Bytes>, registered: set<HandleId>,
                         cloud: map<nat, Bytes>, told: set<nat>, store: Store)

  /** How an `open_write` ends: the cloud has the file and the reply says so, the
      cloud has it and the reply is lost, or it fails. */
  datatype Upload = Stored | ReplyLost | Failed

  datatype Fs = Fs(names: Names, attrs: map<nat, Attr>, handles: map<nat, Handle>, raw: map<string, string>,
                   nextFh: nat, nextId: nat, world: World)

  /** A mount that has just started, with the engine's cache below `root`. */
  function NewFs(root: string): Fs {
    Fs(NEW_NAMES, map[], map[], map[], 1, 1, World(map[], map[], {}, map[], {}, Store(root, map[], map[], {})))
  }

  predicate Started(fs: Fs) {
    fs == NewFs(fs.world.store.root)
  }

  /** The state an operation leaves and the error it reports. */
  datatype Step = Step(fs: Fs, err: Errno)

  // ---------------------------------------------------------------- open handles

  predicate EndsWith(s: string, suffix: string) {
    |suffix| <= |s| && s[|s| - |suffix|..] == suffix
  }

  /** The handle after the rename of `src`, its file or a folder above it, to `dst`. */
  function FollowRename(h: Handle, src: string, dst: string): Handle {
    if !AtOrBelow(h.remotePath, src) then h
    else
      var newRemote := Moved(h.remotePath, src, dst);
      var oldRel := TrimStart(h.remotePath);
      var newCache := if EndsWith(h.cachePath, oldRel)
                      then h.cachePath[..|h.cachePath| - |oldRel|] + TrimStart(newRemote)
                      else h.cachePath;
      h.(remotePath := newRemote, cachePath := newCache)
  }

  // ---------------------------------------------------------------- visible names

  function VisibleName(raw: map<string, string>, cp: string): string {
    if cp in raw then raw[cp] else Basename(cp)
  }

  function Recorded(nfc: string -> string, raw: map<string, string>, cp: string, name: string): map<string, string> {
    if nfc(name) == name then raw - {cp} else raw[cp := name]
  }

  function ForgottenRaw(raw: map<string, string>, cp: string): map<string, string> {
    map k | k in raw && !AtOrBelow(k, cp) :: raw[k]
  }

  /** The names of what lies below `src`, under their new keys. */
  function MovedRaw(raw: map<string, string>, src: string, dst: string): map<string, string> {
    map p | p in (set k | k in raw && k != src && AtOrBelow(k, src) :: Moved(k, src, dst)) &&
            AtOrBelow(p, dst) && Moved(p, dst, src) in raw :: raw[Moved(p, dst, src)]
  }

  function RenamedRaw(raw: map<string, string>, src: string, dst: string): map<string, string> {
    ForgottenRaw(raw, src) + MovedRaw(raw, src, dst)
  }

  // ---------------------------------------------------------------- listings

  const NAME_MAX := 255

  function Utf8Length(s: string): nat {
    if s == "" then 0
    else Utf8Length(s[..|s| - 1]) +
         var c := s[|s| - 1] as int;
         if c < 0x80 then 1 else if c < 0x800 then 2 else if c < 0x1_0000 then 3 else 4
  }

  predicate Representable(name: string) {
    name != "" && name != "." && name != ".." && '/' !in name && '\0' !in name && Utf8Length(name) <= NAME_MAX
  }

  function Listed(fs: Fs, e: ListEntry): Fs {
    if Representable(Basename(e.path))
    then fs.(names := Interned(fs.names, e.path), attrs := fs.attrs[InodeOf(fs.names, e.path) := AttrOf(e)])
    else fs
  }

  /** A listing interns every representable entry and overwrites its attribute. */
  function Populated(fs: Fs, listing: seq<ListEntry>): Fs {
    if listing == [] then fs else Listed(Populated(fs, listing[..|listing| - 1]), listing[|listing| - 1])
  }

  predicate InListing(listing: seq<ListEntry>, cp: string) {
    exists e :: e in listing && e.path == cp && Representable(Basename(e.path))
  }

  predicate HasAttr(fs: Fs, cp: string) {
    cp in fs.names.toInode && fs.names.toInode[cp] in fs.attrs
  }

  /** Refuses `name` when an entry at `cp` is visible under other code points. The
      parent is listed (`None`: in vain) only when the entry is not cached. */
  function CollisionCheck(fs: Fs, cp: string, name: string, listing: Option<seq<ListEntry>>): Step {
    if VisibleName(fs.raw, cp) == name then Step(fs, OK)
    else if HasAttr(fs, cp) then Step(fs, EEXIST)
    else match listing
      case None => Step(fs, EngineError)
      case Some(es) => Step(Populated(fs, es), if InListing(es, cp) then EEXIST else OK)
  }

  // ---------------------------------------------------------------- lookup, getattr, readdir

  datatype Found = Found(fs: Fs, ino: Option<nat>)

  function Lookup(nfc: string -> string, fs: Fs, parent: nat, name: string, listing: Option<seq<ListEntry>>): Found {
    if parent !in fs.names.toPath then Found(fs, None)
    else
      var cp := ChildPath(nfc, fs.names.toPath[parent], name);
      if VisibleName(fs.raw, cp) != name then Found(fs, None)
      else if HasAttr(fs, cp) then Found(fs, Some(fs.names.toInode[cp]))
      else match listing
        case None => Found(fs, None)
        case Some(es) =>
          var fs' := Populated(fs, es);
          Found(fs', if InListing(es, cp) && cp in fs'.names.toInode then Some(fs'.names.toInode[cp]) else None)
  }

  function Getattr(fs: Fs, ino: nat, listing: Option<seq<ListEntry>>): Step {
    if ino == ROOT_INODE || ino in fs.attrs then Step(fs, OK)
    else if ino !in fs.names.toPath then Step(fs, ENOENT)
    else match listing
      case None => Step(fs, EngineError)
      case Some(es) =>
        var fs' := Populated(fs, es);
        Step(fs', if ino in fs'.attrs then OK else ENOENT)
  }

  datatype DirEntry = DirEntry(ino: nat, name: string)

  /** The listing's entries as `readdir` shows them, after `.` and `..`. */
  function Shown(fs: Fs, listing: seq<ListEntry>): seq<DirEntry> {
    if listing == [] then []
    else
      var e := listing[|listing| - 1];
      Shown(fs, listing[..|listing| - 1]) +
      if Representable(Basename(e.path)) then [DirEntry(InodeOf(fs.names, e.path), VisibleName(fs.raw, e.path))] else []
  }

  /** `readdir` lists the directory and interns its parent for the `..` entry. */
  function Readdir(fs: Fs, dir: nat, listing: Option<seq<ListEntry>>): Step {
    if dir !in fs.names.toPath then Step(fs, ENOENT)
    else match listing
      case None => Step(fs, EngineError)
      case Some(es) =>
        var fs' := Populated(fs, es);
        if dir == ROOT_INODE then Step(fs', OK)
        else Step(fs'.(names := Interned(fs'.names, ParentPrefix(fs.names.toPath[dir]))), OK)
  }

  // ---------------------------------------------------------------- open, write, fsync, release

  function Restamped(a: Attr, size: nat, now: int): Attr {
    a.(size := size, mtime := now, remoteMtime := None)
  }

  function WithAttr(attrs: map<nat, Attr>, ino: nat, f: Attr -> Attr): map<nat, Attr> {
    if ino in attrs then attrs[ino := f(attrs[ino])] else attrs
  }

  /** The new handle goes out under the next number. */
  function WithHandle(fs: Fs, ino: nat, h: Handle): Fs {
    fs.(handles := fs.handles[fs.nextFh := h], nextFh := fs.nextFh + 1,
        world := fs.world.(inodeOf := fs.world.inodeOf[fs.nextFh := ino]))
  }

  function FileOf(w: World, ino: nat): Bytes {
    if ino in w.files then w.files[ino] else ""
  }

  predicate InCloud(w: World, ino: nat) {
    ino in w.files && ino in w.cloud && w.cloud[ino] == w.files[ino]
  }

  /** The cache file of `path` is that of `ino`, with `content`. */
  function Placed(w: World, ino: nat, path: string, content: Bytes): World {
    w.(files := w.files[ino := content], store := w.store.(cache := w.store.cache[path := ino]))
  }

  /** The engine makes the cache file hold `content`, which it takes from the cloud
      unless the cache has what the cloud has not. */
  function Hydrated(w: World, ino: nat, path: string, content: Bytes): World {
    var placed := Placed(w, ino, path, content);
    if ino in w.files && !InCloud(w, ino) then placed
    else placed.(cloud := w.cloud[ino := content], store := placed.store.(remote := w.store.remote[path := content]))
  }

  /** Where the engine keeps the cache file of `path`. */
  function CacheOf(root: string, path: string): string {
    root + TrimStart(path)
  }

  /** What an upload of the file at `cachePath` puts under `path`: the path's cache file,
      or, if that is not where it lies, nothing anyone could rely on. */
  function SentTo(st: Store, files: map<nat, Bytes>, path: string, cachePath: string): Store {
    if cachePath == CacheOf(st.root, path) && path in st.cache && st.cache[path] in files
    then st.(remote := st.remote[path := files[st.cache[path]]])
    else st.(remote := st.remote - {path})
  }

  /** An upload of the cache file; a success settles earlier failures. */
  function Uploaded(w: World, ino: nat, path: string, cachePath: string, upload: Upload): World {
    if upload.Failed? then w
    else
      var sent := w.(cloud := w.cloud[ino := FileOf(w, ino)], store := SentTo(w.store, w.files, path, cachePath));
      if upload.Stored?
      then sent.(told := w.told - {ino}, store := sent.store.(missed := w.store.missed - {path}))
      else sent
  }

  function Told(w: World, ino: nat, path: string): World {
    w.(told := w.told + {ino}, store := w.store.(missed := w.store.missed + {path}))
  }

  /** An upload nothing will repeat: its failure is told. */
  function UploadedOrTold(w: World, ino: nat, path: string, cachePath: string, upload: Upload): World {
    var sent := Uploaded(w, ino, path, cachePath, upload);
    if upload.Stored? then sent else Told(sent, ino, path)
  }

  /** An upload leaves the handles' inodes, the ids and the cache files alone; one that
      nothing repeats is stored or told. */
  lemma UploadLeaves(w: World, ino: nat, path: string, cachePath: string, upload: Upload)
    ensures var r := Uploaded(w, ino, path, cachePath, upload);
            r.inodeOf == w.inodeOf && r.registered == w.registered && r.files == w.files
    ensures var r := UploadedOrTold(w, ino, path, cachePath, upload);
            && r.inodeOf == w.inodeOf && r.registered == w.registered && r.files == w.files
            && (ino in w.files ==> if upload.Stored? then InCloud(r, ino) else ino in r.told)
  {
    hide SentTo;
  }

  /** A hydration changes one cache file, and neither ids nor failures told. */
  lemma HydrationLeaves(w: World, ino: nat, path: string, content: Bytes)
    ensures var r := Hydrated(w, ino, path, content);
            && r.inodeOf == w.inodeOf && r.registered == w.registered && r.told == w.told
            && r.files == w.files[ino := content]
  {
  }

  function Registered(w: World, id: HandleId): World {
    w.(registered := w.registered + {id})
  }

  function Closed(w: World, id: HandleId): World {
    w.(registered := w.registered - {id})
  }

  /** `open`: the engine hydrates the cache file to `reply`'s content, or empties
      it for a truncating open; then the file is held locally. */
  function Open(fs: Fs, ino: nat, writable: bool, trunc: bool, reply: Option<(string, Bytes)>, local: bool,
                now: int): Step
  {
    if ino !in fs.names.toPath then Step(fs, ENOENT)
    else if fs.names.toPath[ino] == "" then Step(fs, EISDIR)
    else
      var truncating := writable && trunc;
      var id := Minted(if writable then "wh" else "rh", fs.nextId);
      var fs1 := fs.(nextId := fs.nextId + 1);
      if reply.None? then Step(fs1, EngineError)
      else
        var content := if truncating then "" else reply.value.1;
        var attrs := WithAttr(fs.attrs, ino, (a: Attr) =>
          if truncating then Restamped(a, 0, now) else a.(hydrated := true, remoteMtime := None));
        var path := fs.names.toPath[ino];
        var filled := if truncating then Placed(fs.world, ino, path, "") else Hydrated(fs.world, ino, path, content);
        var w := Registered(filled, id);
        if !local then Step(fs1.(attrs := attrs, world := if truncating then Told(w, ino, path) else w), EIO)
        else
          var sized := WithAttr(attrs, ino, (a: Attr) => if truncating then a else a.(size := |content|));
          var h := Handle(id, path, reply.value.0, truncating);
          Step(WithHandle(fs1.(attrs := sized, world := w), ino, h), OK)
  }

  function Max(a: nat, b: nat): nat {
    if a < b then b else a
  }

  function Zeros(n: nat): (z: Bytes)
    ensures |z| == n
  {
    seq(n, _ => '\0')
  }

  /** `file` after writing `data` at `offset`: a hole reads as zeros, and writing
      nothing does not extend the file. */
  function Patched(file: Bytes, offset: nat, data: Bytes): (r: Bytes)
    ensures |r| == if data == "" then |file| else Max(|file|, offset + |data|)
  {
    if data == "" then file
    else
      var padded := file + Zeros(if |file| < offset then offset - |file| else 0);
      padded[..offset] + data + (if offset + |data| < |padded| then padded[offset + |data|..] else "")
  }

  function Resized(file: Bytes, size: nat): (r: Bytes)
    ensures |r| == size
  {
    if size <= |file| then file[..size] else file + Zeros(size - |file|)
  }

  /** `write` of `data` to a handle the kernel holds for `ino`; `written` is what
      `pwrite` took, `None` when it failed. */
  function Write(fs: Fs, ino: nat, fh: nat, offset: nat, data: Bytes, written: Option<nat>, now: int): Step
    requires written.Some? ==> written.value <= |data|
  {
    if fh !in fs.handles then Step(fs, EBADF)
    else if written.None? then Step(fs, EIO)
    else
      var n := written.value;
      var file := Patched(FileOf(fs.world, ino), offset, data[..n]);
      Step(fs.(handles := fs.handles[fh := fs.handles[fh].(dirty := true)],
               attrs := WithAttr(fs.attrs, ino, (a: Attr) => Restamped(a, Max(a.size, offset + n), now)),
               world := fs.world.(files := fs.world.files[ino := file])), OK)
  }

  /** `fsync`: the dirty bit is set again if the upload does not succeed. */
  function Fsync(fs: Fs, ino: nat, fh: nat, synced: bool, upload: Upload): Step {
    if fh !in fs.handles then Step(fs, EBADF)
    else if !synced then Step(fs, EIO)
    else if !fs.handles[fh].dirty then Step(fs, OK)
    else
      var h := fs.handles[fh];
      var w := Uploaded(Registered(fs.world, h.id), ino, h.remotePath, h.cachePath, upload);
      if upload.Stored? then Step(fs.(handles := fs.handles[fh := fs.handles[fh].(dirty := false)], world := w), OK)
      else Step(fs.(world := w), EngineError)
  }

  /** `release` removes the handle, uploads if dirty, and closes the id. */
  function Release(fs: Fs, ino: nat, fh: nat, upload: Upload): Fs {
    if fh !in fs.handles then fs
    else
      var h := fs.handles[fh];
      var w := if h.dirty
               then UploadedOrTold(Registered(fs.world, h.id), ino, h.remotePath, h.cachePath, upload)
               else fs.world;
      fs.(handles := fs.handles - {fh}, world := Closed(w, h.id).(inodeOf := w.inodeOf - {fh}))
  }

  // ---------------------------------------------------------------- truncation

  function SizedAttrs(attrs: map<nat, Attr>, ino: nat, size: nat, now: int): map<nat, Attr> {
    WithAttr(attrs, ino, (a: Attr) =>
      if size == 0 then Restamped(a, 0, now) else Restamped(a, size, now).(hydrated := true))
  }

  /** `setattr` of the size through an open handle. */
  function TruncateHandle(fs: Fs, ino: nat, fh: nat, size: nat, local: bool, now: int): Step {
    if ino !in fs.names.toPath then Step(fs, ENOENT)
    else if fh !in fs.handles then Step(fs, EBADF)
    else if !local then Step(fs, EIO)
    else
      Step(fs.(handles := fs.handles[fh := fs.handles[fh].(dirty := true)],
               attrs := SizedAttrs(fs.attrs, ino, size, now),
               world := fs.world.(files := fs.world.files[ino := Resized(FileOf(fs.world, ino), size)])), OK)
  }

  /** `setattr` to size 0 without a handle: the engine empties the cache file and says
      where it is, then it is uploaded under an id of its own, which is closed again. */
  function TruncateBareZero(fs: Fs, ino: nat, begun: Option<string>, upload: Upload, now: int): Step {
    if ino !in fs.names.toPath then Step(fs, ENOENT)
    else if begun.None? then Step(fs, EngineError)
    else
      var id, path := Minted("trunc0", fs.nextId), fs.names.toPath[ino];
      var emptied := Registered(Placed(fs.world, ino, path, ""), id);
      var sent := UploadedOrTold(emptied, ino, path, begun.value, upload);
      var fs1 := fs.(nextId := fs.nextId + 1, world := Closed(sent, id));
      if !upload.Stored? then Step(fs1, EngineError)
      else Step(fs1.(attrs := SizedAttrs(fs.attrs, ino, 0, now)), OK)
  }

  /** `setattr` to a positive size without a handle: hydrate under an id of its
      own, resize locally, upload, and close the id on every branch. */
  function TruncateBareTo(fs: Fs, ino: nat, size: nat, hydrated: Option<(string, Bytes)>, local: bool, upload: Upload,
                          now: int): Step
  {
    if ino !in fs.names.toPath then Step(fs, ENOENT)
    else
      var id, path := Minted("truncN", fs.nextId), fs.names.toPath[ino];
      var fs1 := fs.(nextId := fs.nextId + 1);
      if hydrated.None? then Step(fs1, EngineError)
      else
        var (cachePath, content) := hydrated.value;
        var w := Registered(Hydrated(fs.world, ino, path, content), id);
        if !local then Step(fs1.(world := Closed(w, id)), EIO)
        else
          var resized := w.(files := w.files[ino := Resized(content, size)]);
          var sent := UploadedOrTold(resized, ino, path, cachePath, upload);
          if !upload.Stored? then Step(fs1.(world := Closed(sent, id)), EngineError)
          else Step(fs1.(world := Closed(sent, id), attrs := SizedAttrs(fs.attrs, ino, size, now)), OK)
  }

  // ---------------------------------------------------------------- namespace operations

  /** A new entry at `cp`, visible as `name`. */
  function Entered(nfc: string -> string, fs: Fs, cp: string, name: string, attr: Attr): Fs {
    fs.(names := Interned(fs.names, cp), raw := Recorded(nfc, fs.raw, cp, name),
        attrs := fs.attrs[InodeOf(fs.names, cp) := attr])
  }

  /** A new, empty, dirty file at `cp` with its handle. */
  function Created(nfc: string -> string, fs: Fs, cp: string, name: string, id: HandleId, cachePath: string,
                   now: int): Fs
  {
    var ino := InodeOf(fs.names, cp);
    var fs1 := Entered(nfc, fs, cp, name, Attr(0, now, None, false, true, true));
    WithHandle(fs1.(world := Placed(fs1.world, ino, cp, "")), ino, Handle(id, cp, cachePath, true))
  }

  /** `create`: the engine creates the entry and picks the id; the new handle
      starts dirty, so that even an empty file is uploaded. */
  function Create(nfc: string -> string, fs: Fs, parent: nat, name: string, listing: Option<seq<ListEntry>>,
                  reply: Option<(string, HandleId)>, local: bool, now: int): Step
  {
    if parent !in fs.names.toPath then Step(fs, ENOENT)
    else
      var cp := ChildPath(nfc, fs.names.toPath[parent], name);
      var checked := CollisionCheck(fs, cp, name, listing);
      if checked.err != OK then checked
      else
        var fs1 := checked.fs.(nextId := checked.fs.nextId + 1);
        if reply.None? then Step(fs1, EngineError)
        else
          var fs2 := fs1.(world := Registered(fs1.world, reply.value.1));
          if !local then Step(fs2, EIO)
          else Step(Created(nfc, fs2, cp, name, reply.value.1, reply.value.0, now), OK)
  }

  lemma CreateOpens(nfc: string -> string, fs: Fs, parent: nat, name: string, listing: Option<seq<ListEntry>>,
                    reply: Option<(string, HandleId)>, local: bool, now: int)
    ensures var r := Create(nfc, fs, parent, name, listing, reply, local, now);
            r.err == OK ==> r.fs.nextFh > 0 && r.fs.nextFh - 1 in r.fs.world.inodeOf && r.fs.nextFh - 1 in r.fs.handles
  {
    hide CollisionCheck, ChildPath, Entered, Placed, InodeOf;
  }

  /** `mknod` of a regular file: create, then give the handle back at once. */
  function Mknod(nfc: string -> string, fs: Fs, parent: nat, name: string, regular: bool,
                 listing: Option<seq<ListEntry>>,
                 reply: Option<(string, HandleId)>, local: bool, upload: Upload, now: int): Step
  {
    if !regular then Step(fs, EPERM)
    else
      var created := Create(nfc, fs, parent, name, listing, reply, local, now);
      if created.err != OK then created
      else
        var fh := created.fs.nextFh - 1;
        CreateOpens(nfc, fs, parent, name, listing, reply, local, now);
        Step(Release(created.fs, created.fs.world.inodeOf[fh], fh, upload), OK)
  }

  function Mkdir(nfc: string -> string, fs: Fs, parent: nat, name: string, listing: Option<seq<ListEntry>>,
                 made: bool, now: int): Step
  {
    if parent !in fs.names.toPath then Step(fs, ENOENT)
    else
      var cp := ChildPath(nfc, fs.names.toPath[parent], name);
      var checked := CollisionCheck(fs, cp, name, listing);
      if checked.err != OK then checked
      else if !made then Step(checked.fs, EngineError)
      else
        Step(Entered(nfc, checked.fs, cp, name, Attr(0, now, None, true, false, false)), OK)
  }

  /** The engine has removed the entry at `cp`. */
  function Unlinked(w: World, cp: string): World {
    var st := w.store;
    w.(store := st.(cache := st.cache - {cp}, remote := st.remote - {cp}, missed := st.missed - {cp}))
  }

  /** `unlink` and `rmdir`: the same update of the mount's state. */
  function Remove(nfc: string -> string, fs: Fs, parent: nat, name: string, removed: bool): Step {
    if parent !in fs.names.toPath then Step(fs, ENOENT)
    else if !removed then Step(fs, EngineError)
    else
      var cp := ChildPath(nfc, fs.names.toPath[parent], name);
      Step(fs.(names := Forgotten(fs.names, cp),
               raw := ForgottenRaw(fs.raw, cp),
               attrs := if cp in fs.names.toInode then fs.attrs - {fs.names.toInode[cp]} else fs.attrs,
               world := Unlinked(fs.world, cp)), OK)
  }

  function Followed(handles: map<nat, Handle>, src: string, dst: string): map<nat, Handle> {
    map fh | fh in handles :: FollowRename(handles[fh], src, dst)
  }

  function Arrivals<T>(m: map<string, T>, src: string, dst: string): set<string> {
    set p | p in m && Survives(p, src, dst) :: MovedIfBelow(p, src, dst)
  }

  ghost function Origin<T>(m: map<string, T>, src: string, dst: string, q: string): (p: string)
    requires q in Arrivals(m, src, dst)
    ensures p in m && Survives(p, src, dst) && MovedIfBelow(p, src, dst) == q
  {
    var p :| p in m && Survives(p, src, dst) && MovedIfBelow(p, src, dst) == q;
    p
  }

  /** What is kept by path, after the engine has renamed `src` to `dst`. */
  ghost function Carried<T>(m: map<string, T>, src: string, dst: string): map<string, T> {
    map q | q in Arrivals(m, src, dst) :: m[Origin(m, src, dst, q)]
  }

  ghost function MovedStore(st: Store, src: string, dst: string): Store {
    st.(cache := Carried(st.cache, src, dst), remote := Carried(st.remote, src, dst),
        missed := set p | p in st.missed && Survives(p, src, dst) :: MovedIfBelow(p, src, dst))
  }

  /** The inode map, the open handles and the visible names follow a rename. */
  ghost function MovedTo(nfc: string -> string, fs: Fs, src: string, dst: string, name: string): Fs {
    fs.(names := Renamed(fs.names, src, dst),
        handles := Followed(fs.handles, src, dst),
        raw := Recorded(nfc, RenamedRaw(fs.raw, src, dst), dst, name),
        world := fs.world.(store := MovedStore(fs.world.store, src, dst)))
  }

  ghost function Rename(nfc: string -> string, fs: Fs, srcParent: nat, srcName: string, dstParent: nat, dstName: string,
                        listing: Option<seq<ListEntry>>, renamed: bool): Step
  {
    if srcParent !in fs.names.toPath || dstParent !in fs.names.toPath then Step(fs, ENOENT)
    else
      var src := ChildPath(nfc, fs.names.toPath[srcParent], srcName);
      var dst := ChildPath(nfc, fs.names.toPath[dstParent], dstName);
      var checked := CollisionCheck(fs, dst, dstName, listing);
      if checked.err != OK then checked
      else if !renamed then Step(checked.fs, EngineError)
      else
        Step(MovedTo(nfc, checked.fs, src, dst, dstName), OK)
  }

  // ---------------------------------------------------------------- change events

  datatype Invalidation = Paths(roots: seq<string>) | All

  /** The inodes an invalidation spares: those named by a dirty handle's path. */
  function Kept(fs: Fs): set<nat> {
    set fh | fh in fs.handles && fs.handles[fh].dirty && fs.handles[fh].remotePath in fs.names.toInode ::
      fs.names.toInode[fs.handles[fh].remotePath]
  }

  ghost predicate Hits(change: Invalidation, path: string) {
    change.All? || Covered(path, set r | r in change.roots)
  }

  /** The attributes an invalidation drops. `All` also drops those of inodes that
      no longer have a path. */
  ghost predicate Drops(fs: Fs, change: Invalidation, ino: nat) {
    ino !in Kept(fs) && (change.All? || (ino in fs.names.toPath && Hits(change, fs.names.toPath[ino])))
  }

  ghost function Applied(fs: Fs, change: Invalidation): Fs {
    fs.(attrs := map ino | ino in fs.attrs && !Drops(fs, change, ino) :: fs.attrs[ino])
  }
}
