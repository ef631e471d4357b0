/** What the path map keeps over every run, and what one call undoes. */
module PathMapLaws {
  import opened PathText
  import opened PathMaps

  /** `n'` comes later than `n`: inodes are handed out upwards, and one that has
      lost its path, or never had one, is not given a path again. */
  ghost predicate Later(n: Names, n': Names) {
    && n.next <= n'.next
    && forall i :: i < n.next && i !in n.toPath ==> i !in n'.toPath
  }

  lemma InternKeeps(n: Names, path: string)
    requires NamesInv(n)
    ensures NamesInv(Interned(n, path)) && Later(n, Interned(n, path))
    ensures path in Interned(n, path).toInode && Interned(n, path).toInode[path] == InodeOf(n, path)
    ensures forall i :: i in n.toPath ==> i in Interned(n, path).toPath && Interned(n, path).toPath[i] == n.toPath[i]
    ensures forall i :: i in Interned(n, path).toPath && i !in n.toPath ==> Interned(n, path).toPath[i] == path
  {
  }

  /** Forgetting a path keeps the map in order, unless it is the root's. */
  lemma ForgetKeeps(n: Names, path: string)
    requires NamesInv(n)
    ensures NamesInv(Forgotten(n, path)) <==> path != ""
    ensures Later(n, Forgotten(n, path))
    ensures forall i :: i in Forgotten(n, path).toPath <==> i in n.toPath && n.toPath[i] != path
    ensures forall i :: i in Forgotten(n, path).toPath ==> Forgotten(n, path).toPath[i] == n.toPath[i]
  {
  }

  lemma RenamedIsBijective(n: Names, src: string, dst: string)
    requires Bijective(n)
    ensures Bijective(Renamed(n, src, dst))
  {
    RewrittenIsInjective(n, src, dst);
    var w := Rewritten(n.toPath, src, dst);
    forall i | i in w
      ensures w[i] in Inverse(w) && Inverse(w)[w[i]] == i
    {
      assert HolderOf(w, w[i]) == i;
    }
  }

  /** A rename keeps the map in order exactly when it leaves the root alone. */
  lemma RenameKeeps(n: Names, src: string, dst: string)
    requires NamesInv(n)
    ensures NamesInv(Renamed(n, src, dst)) <==> src == dst || (src != "" && dst != "") || !AnyAtOrBelow(n, src)
    ensures Later(n, Renamed(n, src, dst))
  {
    RenamedIsBijective(n, src, dst);
    assert n.toPath[ROOT_INODE] == "";
    assert n.toInode[""] == ROOT_INODE;
    if src == "" {
      assert AtOrBelow("", src);
    }
    if src == dst {
      forall i | i in n.toPath && AtOrBelow(n.toPath[i], src)
        ensures Moved(n.toPath[i], src, dst) == n.toPath[i]
      {
        MovedStaysBelow(n.toPath[i], src, dst);
      }
    }
  }

  /** The rename, inode by inode: at or below `src` an inode takes the new prefix,
      elsewhere at or below `dst` it loses its path, and all others keep theirs. */
  lemma RenameByInode(n: Names, src: string, dst: string, i: nat)
    requires Bijective(n)
    ensures i !in n.toPath ==> i !in Renamed(n, src, dst).toPath
    ensures i in n.toPath && AtOrBelow(n.toPath[i], src) ==>
              i in Renamed(n, src, dst).toPath && Renamed(n, src, dst).toPath[i] == dst + n.toPath[i][|src|..]
    ensures i in n.toPath && !AtOrBelow(n.toPath[i], src) && AtOrBelow(n.toPath[i], dst) ==>
              (i in Renamed(n, src, dst).toPath <==> !AnyAtOrBelow(n, src))
    ensures i in n.toPath && !AtOrBelow(n.toPath[i], src) && i in Renamed(n, src, dst).toPath ==>
              Renamed(n, src, dst).toPath[i] == n.toPath[i]
    ensures i in n.toPath && !AtOrBelow(n.toPath[i], src) && !AtOrBelow(n.toPath[i], dst) ==>
              i in Renamed(n, src, dst).toPath
  {
    if i in n.toPath && AtOrBelow(n.toPath[i], src) {
      assert n.toPath[i] in n.toInode;
    }
  }

  lemma MovedBack(p: string, src: string, dst: string)
    requires AtOrBelow(p, src) || !AtOrBelow(p, dst)
    ensures AtOrBelow(MovedIfBelow(p, src, dst), dst) || !AtOrBelow(MovedIfBelow(p, src, dst), src)
    ensures MovedIfBelow(MovedIfBelow(p, src, dst), dst, src) == p
  {
    if AtOrBelow(p, src) {
      MovedStaysBelow(p, src, dst);
    }
  }

  lemma RewrittenBack(toPath: map<nat, string>, src: string, dst: string)
    ensures Rewritten(Rewritten(toPath, src, dst), dst, src) ==
            map i | i in Rewritten(toPath, src, dst) :: toPath[i]
  {
    forall i | i in Rewritten(toPath, src, dst)
      ensures i in Rewritten(Rewritten(toPath, src, dst), dst, src)
      ensures Rewritten(Rewritten(toPath, src, dst), dst, src)[i] == toPath[i]
    {
      assert Rewritten(toPath, src, dst)[i] == MovedIfBelow(toPath[i], src, dst);
      MovedBack(toPath[i], src, dst);
    }
  }

  /** Renaming back restores every path but those the rename dropped. */
  lemma RenameUndone(n: Names, src: string, dst: string)
    requires Bijective(n) && AnyAtOrBelow(n, src)
    ensures Renamed(Renamed(n, src, dst), dst, src).toPath ==
            map i | i in n.toPath && (AtOrBelow(n.toPath[i], src) || !AtOrBelow(n.toPath[i], dst)) :: n.toPath[i]
  {
    RenamedIsBijective(n, src, dst);
    RewrittenBack(n.toPath, src, dst);
    var p :| p in n.toInode && AtOrBelow(p, src);
    MovedStaysBelow(p, src, dst);
    var n' := Renamed(n, src, dst);
    assert n'.toPath[n.toInode[p]] == Moved(p, src, dst);
    assert AnyAtOrBelow(n', dst);
  }
}
