/** The inode/path bijection: what it means (`Names` and its functions), and the
    two hash maps that are updated in step to keep it (`PathMap`). */
module PathMaps {
  import opened PathText

  const ROOT_INODE: nat := 1

  datatype Names = Names(next: nat, toInode: map<string, nat>, toPath: map<nat, string>)

  datatype Mapping = Mapping(path: string, ino: nat)

  const NEW_NAMES := Names(ROOT_INODE + 1, map["" := ROOT_INODE], map[ROOT_INODE := ""])

  /** The two maps are inverse to each other. */
  ghost predicate Bijective(n: Names) {
    && (forall p :: p in n.toInode ==> n.toInode[p] in n.toPath && n.toPath[n.toInode[p]] == p)
    && (forall i :: i in n.toPath ==> n.toPath[i] in n.toInode && n.toInode[n.toPath[i]] == i)
  }

  /** What every run keeps: a bijection that has the root where FUSE wants it
      and only inodes that were handed out. */
  ghost predicate NamesInv(n: Names) {
    && Bijective(n)
    && ROOT_INODE in n.toPath && n.toPath[ROOT_INODE] == ""
    && forall i :: i in n.toPath ==> i < n.next
  }

  function InodeOf(n: Names, path: string): nat {
    if path in n.toInode then n.toInode[path] else n.next
  }

  function Interned(n: Names, path: string): Names {
    if path in n.toInode then n
    else Names(n.next + 1, n.toInode[path := n.next], n.toPath[n.next := path])
  }

  function Forgotten(n: Names, path: string): Names {
    if path in n.toInode
    then n.(toInode := n.toInode - {path}, toPath := n.toPath - {n.toInode[path]})
    else n
  }

  /** An inode keeps its path, takes the new prefix, or loses its path. */
  function Rewritten(toPath: map<nat, string>, src: string, dst: string): map<nat, string> {
    map i | i in toPath && (AtOrBelow(toPath[i], src) || !AtOrBelow(toPath[i], dst)) ::
      if AtOrBelow(toPath[i], src) then Moved(toPath[i], src, dst) else toPath[i]
  }

  ghost predicate AnyAtOrBelow(n: Names, src: string) {
    exists p :: p in n.toInode && AtOrBelow(p, src)
  }

  /** The rename of `src` to `dst`, as a rewrite of each inode's path. The other
      map is the inverse of the rewritten one. */
  ghost function Renamed(n: Names, src: string, dst: string): Names {
    if AnyAtOrBelow(n, src)
    then n.(toPath := Rewritten(n.toPath, src, dst), toInode := Inverse(Rewritten(n.toPath, src, dst)))
    else n
  }

  ghost function Inverse(toPath: map<nat, string>): map<string, nat> {
    map p | p in toPath.Values :: HolderOf(toPath, p)
  }

  ghost function HolderOf(toPath: map<nat, string>, p: string): (i: nat)
    requires p in toPath.Values
    ensures i in toPath && toPath[i] == p
  {
    var i :| i in toPath && toPath[i] == p;
    i
  }

  /** `r` is `n` without the paths in `gone`. */
  ghost predicate Without(n: Names, gone: set<string>, r: Names) {
    && r.toInode == n.toInode - gone
    && r.toPath == map i | i in n.toPath && n.toPath[i] !in gone :: n.toPath[i]
  }

  function Elements(ps: seq<string>): set<string> {
    set p | p in ps
  }

  lemma WithoutNone(n: Names, stale: seq<string>)
    ensures Without(n, Elements(stale[..0]), n)
  {
    assert stale[..0] == [];
  }

  lemma WithoutNext(n: Names, stale: seq<string>, k: nat, r: Names)
    requires k < |stale| && Bijective(r) && Without(n, Elements(stale[..k]), r)
    ensures Bijective(Forgotten(r, stale[k])) && Without(n, Elements(stale[..k + 1]), Forgotten(r, stale[k]))
    ensures stale[k] in r.toInode ==> r.toInode[stale[k]] in r.toPath
  {
    assert stale[..k + 1] == stale[..k] + [stale[k]];
  }

  ghost predicate Injective(w: map<nat, string>) {
    forall i, j :: i in w && j in w && w[i] == w[j] ==> i == j
  }

  /** Inodes `ms` have been put back under their paths in `w`, on top of `kept`. */
  ghost predicate Reinserted(ms: set<nat>, w: map<nat, string>, kept: map<string, nat>, base: map<nat, string>,
                             toInode: map<string, nat>, toPath: map<nat, string>)
    requires ms <= w.Keys && ms <= base.Keys
  {
    && toPath == (map i | i in base :: if i in ms then w[i] else base[i])
    && (forall p :: p in toInode ==> (toInode[p] in ms && w[toInode[p]] == p) || (p in kept && toInode[p] == kept[p]))
    && (forall p :: p in kept ==> p in toInode)
    && (forall i :: i in ms ==> w[i] in toInode && toInode[w[i]] == i)
  }

  lemma ReinsertOne(ms: set<nat>, i: nat, w: map<nat, string>, kept: map<string, nat>, base: map<nat, string>,
                    toInode: map<string, nat>, toPath: map<nat, string>)
    requires Injective(w) && i in w && i in base && ms <= w.Keys && ms <= base.Keys
    requires Reinserted(ms, w, kept, base, toInode, toPath)
    ensures Reinserted(ms + {i}, w, kept, base, toInode[w[i] := i], toPath[i := w[i]])
  {
  }

  ghost function Inodes(es: seq<Mapping>): (ms: set<nat>)
    ensures forall i :: i in ms <==> exists e :: e in es && e.ino == i
    ensures forall e :: e in es ==> e.ino in ms
  {
    set e | e in es :: e.ino
  }

  lemma InodesSnoc(es: seq<Mapping>, k: nat)
    requires k < |es|
    ensures Inodes(es[..k + 1]) == Inodes(es[..k]) + {es[k].ino}
  {
    assert es[..k + 1] == es[..k] + [es[k]];
  }

  lemma ReinsertNone(es: seq<Mapping>, w: map<nat, string>, kept: map<string, nat>, base: map<nat, string>)
    ensures Inodes(es[..0]) == {} && Reinserted(Inodes(es[..0]), w, kept, base, kept, base)
  {
  }

  lemma ReinsertNext(es: seq<Mapping>, k: nat, w: map<nat, string>, kept: map<string, nat>, base: map<nat, string>,
                     toInode: map<string, nat>, toPath: map<nat, string>)
    requires k < |es| && Injective(w) && es[k].ino in w && es[k].ino in base
    requires Inodes(es[..k]) <= w.Keys && Inodes(es[..k]) <= base.Keys
    requires Reinserted(Inodes(es[..k]), w, kept, base, toInode, toPath)
    ensures Inodes(es[..k + 1]) <= w.Keys && Inodes(es[..k + 1]) <= base.Keys
    ensures var i := es[k].ino; Reinserted(Inodes(es[..k + 1]), w, kept, base, toInode[w[i] := i], toPath[i := w[i]])
  {
    hide Inodes, Injective;
    InodesSnoc(es, k);
    ReinsertOne(Inodes(es[..k]), es[k].ino, w, kept, base, toInode, toPath);
  }

  lemma RewrittenIsInjective(n: Names, src: string, dst: string)
    requires Bijective(n)
    ensures Injective(Rewritten(n.toPath, src, dst))
  {
    var w := Rewritten(n.toPath, src, dst);
    forall i, j | i in w && j in w && w[i] == w[j] ensures i == j {
      RewrittenApart(n.toPath[i], n.toPath[j], src, dst);
    }
  }

  lemma RewrittenApart(p: string, q: string, src: string, dst: string)
    requires AtOrBelow(p, src) || !AtOrBelow(p, dst)
    requires AtOrBelow(q, src) || !AtOrBelow(q, dst)
    requires MovedIfBelow(p, src, dst) == MovedIfBelow(q, src, dst)
    ensures p == q
  {
    if AtOrBelow(p, src) { MovedStaysBelow(p, src, dst); }
    if AtOrBelow(q, src) { MovedStaysBelow(q, src, dst); }
  }

  lemma InverseIs(w: map<nat, string>, toInode: map<string, nat>)
    requires Injective(w)
    requires forall i :: i in w ==> w[i] in toInode && toInode[w[i]] == i
    requires forall p :: p in toInode ==> toInode[p] in w && w[toInode[p]] == p
    ensures toInode == Inverse(w)
  {
    assert forall p :: p in toInode ==> p in w.Values;
  }

  /** Removing what is stale or moves and putting the moving entries back is the
      rewrite of each inode's path, and leaves the maps inverse to each other. */
  lemma ReinsertedIsRewrite(n: Names, w: map<nat, string>, ms: set<nat>, kept: map<string, nat>,
                            base: map<nat, string>, r: Names)
    requires Bijective(n) && Injective(w)
    requires base.Keys == w.Keys <= n.toPath.Keys && ms <= w.Keys
    requires forall i :: i in base ==> base[i] == n.toPath[i]
    requires forall i :: i in w && i !in ms ==> w[i] == n.toPath[i]
    requires forall p :: p in kept ==> p in n.toInode && kept[p] == n.toInode[p]
    requires forall p :: p in n.toInode ==> (p in kept <==> n.toInode[p] in w && n.toInode[p] !in ms)
    requires Reinserted(ms, w, kept, base, r.toInode, r.toPath)
    ensures r.toPath == w && r.toInode == Inverse(w) && Bijective(r)
  {
    assert r.toPath == w;
    forall i | i in w
      ensures w[i] in r.toInode && r.toInode[w[i]] == i
    {
      if i !in ms {
        assert n.toPath[i] in kept;
      }
    }
    InverseIs(w, r.toInode);
  }

  /** What `PathMap.Sort` finds: the entries that move and those they displace. */
  ghost predicate Sorted(toInode: map<string, nat>, src: string, dst: string, moving: seq<Mapping>,
                         stale: seq<string>)
  {
    && (forall e :: e in moving <==> e.path in toInode && e.ino == toInode[e.path] && AtOrBelow(e.path, src))
    && (forall p :: p in stale <==> p in toInode && AtOrBelow(p, dst) && !AtOrBelow(p, src))
  }

  lemma SortedParts(n: Names, src: string, dst: string, moving: seq<Mapping>, stale: seq<string>)
    requires Bijective(n) && Sorted(n.toInode, src, dst, moving, stale)
    ensures moving == [] <==> !AnyAtOrBelow(n, src)
    ensures Rewritten(n.toPath, src, dst).Keys == set i | i in n.toPath && n.toPath[i] !in stale
    ensures forall i :: i in Inodes(moving) <==> i in n.toPath && AtOrBelow(n.toPath[i], src)
    ensures forall p :: p in n.toInode ==> (p in (set e | e in moving :: e.path) <==> AtOrBelow(p, src))
  {
    forall p | p in n.toInode && AtOrBelow(p, src)
      ensures Mapping(p, n.toInode[p]) in moving
    {}
    forall i | i in n.toPath && AtOrBelow(n.toPath[i], src)
      ensures i in Inodes(moving)
    {
      assert Mapping(n.toPath[i], i) in moving;
    }
    if moving != [] {
      assert moving[0] in moving;
    }
  }

  // ---------------------------------------------------------------- the hash maps

  class PathMap {
    var next: nat
    var pathToInode: map<string, nat>
    var inodeToPath: map<nat, string>

    ghost function View(): Names
      reads this
    {
      Names(next, pathToInode, inodeToPath)
    }

    ghost predicate Valid()
      reads this
    {
      Bijective(View()) && forall i :: i in inodeToPath ==> i < next
    }

    constructor ()
      ensures Valid() && View() == NEW_NAMES
    {
      next := ROOT_INODE + 1;
      pathToInode := map["" := ROOT_INODE];
      inodeToPath := map[ROOT_INODE := ""];
    }

    method Intern(path: string) returns (ino: nat)
      requires Valid()
      modifies this
      ensures Valid() && View() == Interned(old(View()), path)
      ensures ino == InodeOf(old(View()), path) && path in pathToInode && pathToInode[path] == ino
    {
      if path in pathToInode {
        return pathToInode[path];
      }
      ino := next;
      next := next + 1;
      pathToInode := pathToInode[path := ino];
      inodeToPath := inodeToPath[ino := path];
    }

    method Forget(path: string) returns (known: bool, ino: nat)
      requires Valid()
      modifies this
      ensures Valid() && View() == Forgotten(old(View()), path)
      ensures known <==> path in old(pathToInode)
      ensures known ==> ino == old(pathToInode)[path] && ino !in inodeToPath
    {
      if path !in pathToInode {
        return false, 0;
      }
      known, ino := true, pathToInode[path];
      pathToInode := pathToInode - {path};
      inodeToPath := inodeToPath - {ino};
    }

    /** Collects what moves and what goes stale in any order, then removes both
        and reinserts the moving entries. */
    method Rename(src: string, dst: string)
      requires Valid()
      modifies this
      ensures Valid() && View() == Renamed(old(View()), src, dst)
    {
      hide AtOrBelow, Moved, Inodes, Inverse, Injective, Reinserted;
      var moving, stale := Sort(src, dst);
      ghost var was, w := View(), Rewritten(inodeToPath, src, dst);
      SortedParts(was, src, dst, moving, stale);
      if |moving| == 0 {
        return;
      }
      RewrittenIsInjective(was, src, dst);
      RemoveStale(stale);
      RemoveMoving(moving);
      ghost var kept, base := pathToInode, inodeToPath;
      Reinsert(moving, src, dst, w);
      ReinsertedIsRewrite(was, w, Inodes(moving), kept, base, View());
    }

    method RemoveStale(stale: seq<string>)
      requires Valid()
      modifies this
      ensures Bijective(View()) && next == old(next)
      ensures Without(old(View()), Elements(stale), View())
    {
      hide Bijective, Without;
      WithoutNone(View(), stale);
      for k := 0 to |stale|
        invariant Bijective(View()) && next == old(next)
        invariant Without(old(View()), Elements(stale[..k]), View())
      {
        WithoutNext(old(View()), stale, k, View());
        if stale[k] in pathToInode {
          var ino := pathToInode[stale[k]];
          pathToInode := pathToInode - {stale[k]};
          inodeToPath := inodeToPath - {ino};
        }
      }
      assert stale[..|stale|] == stale;
    }

    method RemoveMoving(moving: seq<Mapping>)
      modifies this`pathToInode
      ensures next == old(next) && inodeToPath == old(inodeToPath)
      ensures pathToInode == old(pathToInode) - (set e | e in moving :: e.path)
    {
      for k := 0 to |moving|
        invariant pathToInode == old(pathToInode) - (set e | e in moving[..k] :: e.path)
      {
        pathToInode := pathToInode - {moving[k].path};
      }
    }

    method Reinsert(moving: seq<Mapping>, src: string, dst: string, ghost w: map<nat, string>)
      requires Injective(w) && inodeToPath.Keys <= w.Keys
      requires forall e :: e in moving ==>
                 AtOrBelow(e.path, src) && e.ino in inodeToPath && w[e.ino] == Moved(e.path, src, dst)
      modifies this`pathToInode, this`inodeToPath
      ensures next == old(next)
      ensures Reinserted(Inodes(moving), w, old(pathToInode), old(inodeToPath), pathToInode, inodeToPath)
    {
      hide AtOrBelow, Moved, Injective, Reinserted, Inodes;
      ReinsertNone(moving, w, pathToInode, inodeToPath);
      for k := 0 to |moving|
        invariant Inodes(moving[..k]) <= w.Keys && Inodes(moving[..k]) <= old(inodeToPath).Keys
        invariant Reinserted(Inodes(moving[..k]), w, old(pathToInode), old(inodeToPath), pathToInode, inodeToPath)
      {
        assert moving[k] in moving;
        var moved := Moved(moving[k].path, src, dst);
        ReinsertNext(moving, k, w, old(pathToInode), old(inodeToPath), pathToInode, inodeToPath);
        pathToInode := pathToInode[moved := moving[k].ino];
        inodeToPath := inodeToPath[moving[k].ino := moved];
      }
      assert moving[..|moving|] == moving;
    }

    method Sort(src: string, dst: string) returns (moving: seq<Mapping>, stale: seq<string>)
      ensures Sorted(pathToInode, src, dst, moving, stale)
    {
      moving, stale := [], [];
      var rest := pathToInode.Keys;
      while rest != {}
        invariant rest <= pathToInode.Keys
        invariant forall e :: e in moving <==>
                    e.path in pathToInode.Keys - rest && e.ino == pathToInode[e.path] && AtOrBelow(e.path, src)
        invariant forall p :: p in stale <==> p in pathToInode.Keys - rest && AtOrBelow(p, dst) && !AtOrBelow(p, src)
        decreases rest
      {
        var path :| path in rest;
        rest := rest - {path};
        if path == src || src + "/" <= path {
          moving := moving + [Mapping(path, pathToInode[path])];
        } else if path == dst || dst + "/" <= path {
          stale := stale + [path];
        }
      }
    }

    method InodesAtOrBelow(roots: set<string>) returns (found: seq<nat>)
      requires Valid()
      ensures forall i :: i in found <==> i in inodeToPath && Covered(inodeToPath[i], roots)
    {
      found := [];
      var rest := pathToInode.Keys;
      while rest != {}
        invariant rest <= pathToInode.Keys
        invariant forall i :: i in found <==>
                    i in inodeToPath && inodeToPath[i] !in rest && Covered(inodeToPath[i], roots)
        decreases rest
      {
        var path :| path in rest;
        rest := rest - {path};
        var below := IsAtOrBelow(path, roots);
        if below {
          found := found + [pathToInode[path]];
        }
      }
    }
  }

  /** Shortens the path at its last slash until it meets a root or runs out. */
  method IsAtOrBelow(path: string, roots: set<string>) returns (below: bool)
    ensures below <==> Covered(path, roots)
  {
    var p := path;
    while true
      invariant Covered(path, roots) <==> Covered(p, roots)
      decreases |p|
    {
      if p in roots {
        return true;
      }
      ShorteningKeepsCover(p, roots);
      var i := LastSlash(p);
      if i > 0 {
        p := p[..i];
      } else {
        return false;
      }
    }
  }
}
