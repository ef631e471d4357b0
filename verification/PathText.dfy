/** Remote paths as text: `/`-separated, the root is the empty path. */
module PathText {

  /** `path` is `root` or extends it at a slash: `/d` covers `/d/a` but not `/dd`. */
  predicate AtOrBelow(path: string, root: string) {
    path == root || root + "/" <= path
  }

  /** What becomes of `path` when `src` is renamed to `dst`. */
  function Moved(path: string, src: string, dst: string): string
    requires AtOrBelow(path, src)
  {
    dst + path[|src|..]
  }

  /** A rename of `src` to `dst` takes what lies at or below `src` along, and replaces
      what lies elsewhere at or below `dst`. */
  predicate Survives(path: string, src: string, dst: string) {
    AtOrBelow(path, src) || !AtOrBelow(path, dst)
  }

  function MovedIfBelow(path: string, src: string, dst: string): string {
    if AtOrBelow(path, src) then Moved(path, src, dst) else path
  }

  /** The index of the last slash, -1 when there is none. */
  function LastSlash(s: string): (i: int)
    ensures -1 <= i < |s|
    ensures i >= 0 ==> s[i] == '/'
    ensures forall k :: i < k < |s| ==> s[k] != '/'
  {
    if s == "" then -1
    else if s[|s| - 1] == '/' then |s| - 1
    else LastSlash(s[..|s| - 1])
  }

  function Basename(path: string): string {
    path[LastSlash(path) + 1..]
  }

  lemma LastSlashIs(s: string, i: nat)
    requires i < |s| && s[i] == '/' && forall k :: i < k < |s| ==> s[k] != '/'
    ensures LastSlash(s) == i && Basename(s) == s[i + 1..]
  {
    hide LastSlash;
  }

  function ParentPrefix(child: string): string {
    var i := LastSlash(child);
    if i <= 0 then "" else child[..i]
  }

  /** `s` without its leading slashes. */
  function TrimStart(s: string): string {
    if s != "" && s[0] == '/' then TrimStart(s[1..]) else s
  }

  /** Exactly the leading slashes go. */
  lemma {:induction false} TrimStartIs(s: string)
    ensures var r := TrimStart(s);
            && |r| <= |s| && s[|s| - |r|..] == r && (r == "" || r[0] != '/')
            && forall i :: 0 <= i < |s| - |r| ==> s[i] == '/'
  {
    if s != "" && s[0] == '/' {
      var rest, r := s[1..], TrimStart(s[1..]);
      TrimStartIs(rest);
      assert s[|s| - |r|..] == rest[|rest| - |r|..];
      forall i | 0 <= i < |s| - |r| ensures s[i] == '/' {
        assert i > 0 ==> s[i] == rest[i - 1];
      }
    }
  }

  /** A path covers everything one of `roots` covers. The empty root covers the
      empty path alone: the shortening loop stops before it gets there. */
  ghost predicate Covered(path: string, roots: set<string>) {
    path in roots || exists root :: root in roots && root != "" && AtOrBelow(path, root)
  }

  /** Unicode normalisation form C, as far as the mount relies on it: it is
      idempotent and neither adds nor removes a slash. */
  ghost predicate NfcLaws(nfc: string -> string) {
    && (forall s {:trigger nfc(nfc(s))} :: nfc(nfc(s)) == nfc(s))
    && (forall s {:trigger nfc(s)} :: '/' in nfc(s) <==> '/' in s)
  }

  function ChildPath(nfc: string -> string, parent: string, name: string): string {
    if parent == "" then "/" + nfc(name) else parent + "/" + nfc(name)
  }

  lemma MovedStaysBelow(path: string, src: string, dst: string)
    requires AtOrBelow(path, src)
    ensures AtOrBelow(Moved(path, src, dst), dst)
    ensures Moved(Moved(path, src, dst), dst, src) == path
  {
    var rest := path[|src|..];
    assert path == src + rest;
    assert (dst + rest)[|dst|..] == rest;
    if path != src {
      assert rest[0] == path[|src|] == '/';
      assert dst + "/" <= dst + rest;
    }
  }

  lemma MovedIsInjective(p: string, q: string, src: string, dst: string)
    requires AtOrBelow(p, src) && AtOrBelow(q, src) && Moved(p, src, dst) == Moved(q, src, dst)
    ensures p == q
  {
    MovedStaysBelow(p, src, dst);
    MovedStaysBelow(q, src, dst);
  }

  /** One turn of the shortening loop loses no root, unless `p` itself is one. */
  lemma ShorteningKeepsCover(p: string, roots: set<string>)
    requires p !in roots
    ensures LastSlash(p) <= 0 ==> !Covered(p, roots)
    ensures LastSlash(p) > 0 ==> (Covered(p, roots) <==> Covered(p[..LastSlash(p)], roots))
  {
    var i := LastSlash(p);
    forall root | root != "" && root != p && AtOrBelow(p, root)
      ensures i > 0 && AtOrBelow(p[..i], root)
    {
      assert p[|root|] == '/';
      if |root| == i {
        assert p[..i] == root;
      } else {
        assert (root + "/") <= p[..i];
      }
    }
    if i > 0 {
      forall root | AtOrBelow(p[..i], root)
        ensures AtOrBelow(p, root)
      {
        if p[..i] == root {
          assert root + "/" == p[..i + 1];
        }
      }
    }
  }

  /** A child's last component is its normalised name, its parent the parent. */
  lemma ChildPathParts(nfc: string -> string, parent: string, name: string)
    requires NfcLaws(nfc) && '/' !in name
    ensures ChildPath(nfc, parent, name) == parent + "/" + nfc(name) != ""
    ensures Basename(ChildPath(nfc, parent, name)) == nfc(name)
    ensures ParentPrefix(ChildPath(nfc, parent, name)) == parent
  {
    var cp := ChildPath(nfc, parent, name);
    assert cp == parent + "/" + nfc(name);
    assert '/' !in nfc(name);
    assert cp[|parent|] == '/';
    forall k | |parent| < k < |cp| ensures cp[k] != '/' {
      assert cp[k] == nfc(name)[k - |parent| - 1];
    }
    assert LastSlash(cp) == |parent|;
  }
}
