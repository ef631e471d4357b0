/** The walk of the cache directory: an explicit stack of directories, every regular
    file emitted under its remote path. */
module CacheWalk {
  import opened Options
  import opened PathText

  /** `Other` is anything that is neither, or that cannot be resolved. */
  datatype Node = File | Symlink | Other | Dir(readable: bool, listing: Listing)

  /** A directory as it is read: entry by entry, to its end or to a failing entry. */
  datatype Listing = End | Broken | Item(name: string, node: Node, rest: Listing)

  /** The remote path of a relative path: backslashes read as slashes. */
  function Remote(path: string): (r: string)
    ensures |r| == |path| && forall i :: 0 <= i < |r| ==> r[i] == if path[i] == '\\' then '/' else path[i]
  {
    seq(|path|, i requires 0 <= i < |path| => if path[i] == '\\' then '/' else path[i])
  }

  // ---------------------------------------------------------------- what the tree holds

  /** The remote paths of the regular files in readable directories at and below `path`. */
  ghost function Files(path: string, node: Node): multiset<string>
    decreases node
  {
    match node
    case File => multiset{Remote(path)}
    case Dir(true, listing) => FilesIn(path, listing)
    case _ => multiset{}
  }

  ghost function FilesIn(dir: string, listing: Listing): multiset<string>
    decreases listing
  {
    match listing
    case Item(name, node, rest) => Files(dir + "/" + name, node) + FilesIn(dir, rest)
    case _ => multiset{}
  }

  ghost predicate Fails(node: Node) {
    node.Dir? && node.readable && FailsIn(node.listing)
  }

  ghost predicate FailsIn(listing: Listing) {
    match listing
    case End => false
    case Broken => true
    case Item(_, node, rest) => Fails(node) || FailsIn(rest)
  }

  ghost function Size(node: Node): nat {
    if node.Dir? then 1 + SizeIn(node.listing) else 0
  }

  ghost function SizeIn(listing: Listing): nat {
    match listing
    case Item(_, node, rest) => 1 + Size(node) + SizeIn(rest)
    case _ => 0
  }

  // ---------------------------------------------------------------- the walk

  /** A directory still to be read. */
  datatype Pending = Pending(path: string, dir: Node)

  ghost function FilesOn(stack: seq<Pending>): multiset<string> {
    if stack == [] then multiset{}
    else FilesOn(stack[..|stack| - 1]) + Files(stack[|stack| - 1].path, stack[|stack| - 1].dir)
  }

  ghost predicate FailsOn(stack: seq<Pending>) {
    stack != [] && (FailsOn(stack[..|stack| - 1]) || Fails(stack[|stack| - 1].dir))
  }

  ghost function SizeOn(stack: seq<Pending>): nat {
    if stack == [] then 0 else SizeOn(stack[..|stack| - 1]) + Size(stack[|stack| - 1].dir)
  }

  lemma Pushed(stack: seq<Pending>, p: Pending)
    ensures FilesOn(stack + [p]) == FilesOn(stack) + Files(p.path, p.dir)
    ensures FailsOn(stack + [p]) <==> FailsOn(stack) || Fails(p.dir)
    ensures SizeOn(stack + [p]) == SizeOn(stack) + Size(p.dir)
  {
    assert (stack + [p])[..|stack|] == stack;
  }

  /** What a walk has found together with what is still to be read. */
  ghost function Total(found: seq<string>, stack: seq<Pending>, dir: string, listing: Listing): multiset<string> {
    multiset(found) + FilesOn(stack) + FilesIn(dir, listing)
  }

  /** An entry passes from the listing to the stack or to what is found. */
  lemma EntryMoves(found: seq<string>, stack: seq<Pending>, dir: string, listing: Listing)
    requires listing.Item?
    ensures var child, total := dir + "/" + listing.name, Total(found, stack, dir, listing);
            match listing.node
            case Dir(_, _) => Total(found, stack + [Pending(child, listing.node)], dir, listing.rest) == total
            case File => Total(found + [Remote(child)], stack, dir, listing.rest) == total
            case _ => Total(found, stack, dir, listing.rest) == total
  {
    hide FilesOn;
    var child := dir + "/" + listing.name;
    Pushed(stack, Pending(child, listing.node));
    assert multiset(found + [Remote(child)]) == multiset(found) + multiset{Remote(child)};
  }

  lemma NothingToRead(found: seq<string>, stack: seq<Pending>, dir: string)
    ensures Total(found, stack, dir, End) == multiset(found) + FilesOn(stack)
  {
  }

  lemma Alone(stack: seq<Pending>)
    requires |stack| <= 1
    ensures FilesOn(stack) == (if stack == [] then multiset{} else Files(stack[0].path, stack[0].dir))
    ensures FailsOn(stack) <==> stack != [] && Fails(stack[0].dir)
  {
    if stack != [] {
      Pushed([], stack[0]);
      assert [] + [stack[0]] == stack;
    }
  }

  /** A directory taken off the stack. */
  lemma Popped(found: seq<string>, stack: seq<Pending>)
    requires stack != [] && stack[|stack| - 1].dir.Dir?
    ensures var rest, dir := stack[..|stack| - 1], stack[|stack| - 1];
            && multiset(found) + FilesOn(stack) ==
                 (if dir.dir.readable then Total(found, rest, dir.path, dir.dir.listing)
                  else multiset(found) + FilesOn(rest))
            && (FailsOn(stack) <==> FailsOn(rest) || (dir.dir.readable && FailsIn(dir.dir.listing)))
            && SizeOn(rest) + SizeIn(dir.dir.listing) < SizeOn(stack)
  {
  }

  /** One directory: subdirectories go on the stack, files are emitted. */
  method ReadDirectory(path: string, listing: Listing, found: seq<string>, stack: seq<Pending>)
    returns (ok: bool, out: seq<string>, more: seq<Pending>)
    requires forall i :: 0 <= i < |stack| ==> stack[i].dir.Dir?
    ensures forall i :: 0 <= i < |more| ==> more[i].dir.Dir?
    ensures ok ==> multiset(out) + FilesOn(more) == Total(found, stack, path, listing)
    ensures ok ==> (FailsOn(more) <==> FailsOn(stack) || FailsIn(listing))
    ensures ok ==> SizeOn(more) <= SizeOn(stack) + SizeIn(listing)
    ensures !ok ==> FailsIn(listing)
  {
    hide Total, FilesOn, FilesIn, FailsOn, SizeOn, Remote;
    out, more := found, stack;
    var entries := listing;
    while !entries.End?
      invariant forall i :: 0 <= i < |more| ==> more[i].dir.Dir?
      invariant Total(out, more, path, entries) == Total(found, stack, path, listing)
      invariant FailsOn(more) || FailsIn(entries) <==> FailsOn(stack) || FailsIn(listing)
      invariant FailsIn(entries) ==> FailsIn(listing)
      invariant SizeOn(more) + SizeIn(entries) <= SizeOn(stack) + SizeIn(listing)
      decreases entries
    {
      if entries.Broken? {
        return false, out, more;
      }
      var child := path + "/" + entries.name;
      EntryMoves(out, more, path, entries);
      match entries.node {
        case Dir(_, _) =>
          Pushed(more, Pending(child, entries.node));
          more := more + [Pending(child, entries.node)];
        case File =>
          out := out + [Remote(child)];
        case _ =>
      }
      entries := entries.rest;
    }
    NothingToRead(out, more, path);
    ok := true;
  }

  /** Emits every regular file below the root once, and nothing else, unless some
      directory's reading fails. */
  method CollectFiles(root: Node) returns (out: Option<seq<string>>)
    requires root.Dir?
    ensures out.None? <==> Fails(root)
    ensures out.Some? ==> multiset(out.value) == Files("", root)
  {
    hide Total, FilesOn, FilesIn, FailsOn, SizeOn, SizeIn, FailsIn, Files;
    var found := [];
    var stack := [Pending("", root)];
    Alone(stack);
    while stack != []
      invariant forall i :: 0 <= i < |stack| ==> stack[i].dir.Dir?
      invariant multiset(found) + FilesOn(stack) == Files("", root)
      invariant FailsOn(stack) <==> Fails(root)
      decreases SizeOn(stack)
    {
      var dir := stack[|stack| - 1];
      Popped(found, stack);
      stack := stack[..|stack| - 1];
      if !dir.dir.readable {
        continue;
      }
      var ok;
      ok, found, stack := ReadDirectory(dir.path, dir.dir.listing, found, stack);
      if !ok {
        return None;
      }
    }
    Alone(stack);
    out := Some(found);
  }

  // ---------------------------------------------------------------- which files these are

  /** `names` lead from `node` through readable directories to a regular file. */
  ghost predicate Reaches(node: Node, names: seq<string>)
    decreases node, 1
  {
    if names == [] then node.File? else node.Dir? && node.readable && Holds(node.listing, names)
  }

  ghost predicate Holds(listing: Listing, names: seq<string>)
    requires names != []
    decreases listing, 0
  {
    listing.Item? && ((listing.name == names[0] && Reaches(listing.node, names[1..])) || Holds(listing.rest, names))
  }

  /** `names` below `path`, each after a slash. */
  function Below(path: string, names: seq<string>): string
    decreases |names|
  {
    if names == [] then path else Below(path + "/" + names[0], names[1..])
  }

  /** `names` lead from `node` through readable directories to one whose reading fails. */
  ghost predicate LeadsToBroken(node: Node, names: seq<string>)
    decreases node, 1
  {
    node.Dir? && node.readable && if names == [] then EndsBroken(node.listing) else HoldsBroken(node.listing, names)
  }

  ghost predicate HoldsBroken(listing: Listing, names: seq<string>)
    requires names != []
    decreases listing, 0
  {
    listing.Item? &&
    ((listing.name == names[0] && LeadsToBroken(listing.node, names[1..])) || HoldsBroken(listing.rest, names))
  }

  ghost predicate EndsBroken(listing: Listing) {
    if listing.Item? then EndsBroken(listing.rest) else listing != End
  }

  /** The walk fails if it gets to a directory whose reading fails, and only then. */
  lemma {:induction false} BrokenFails(node: Node, names: seq<string>)
    requires LeadsToBroken(node, names)
    ensures Fails(node)
    decreases node, 1
  {
    if names == [] {
      EndFails(node.listing);
    } else {
      BrokenInFails(node.listing, names);
    }
  }

  lemma {:induction false} EndFails(listing: Listing)
    requires EndsBroken(listing)
    ensures FailsIn(listing)
  {
    if listing.Item? {
      EndFails(listing.rest);
    }
  }

  lemma {:induction false} BrokenInFails(listing: Listing, names: seq<string>)
    requires names != [] && HoldsBroken(listing, names)
    ensures FailsIn(listing)
    decreases listing, 0
  {
    if listing.name == names[0] && LeadsToBroken(listing.node, names[1..]) {
      BrokenFails(listing.node, names[1..]);
    } else {
      BrokenInFails(listing.rest, names);
    }
  }

  lemma {:induction false} FailsAtBroken(node: Node) returns (names: seq<string>)
    requires Fails(node)
    ensures LeadsToBroken(node, names)
    decreases node, 1
  {
    names := BrokenIn(node.listing);
  }

  lemma {:induction false} BrokenIn(listing: Listing) returns (names: seq<string>)
    requires FailsIn(listing)
    ensures if names == [] then EndsBroken(listing) else HoldsBroken(listing, names)
    decreases listing, 0
  {
    names := [];
    if listing.Item? {
      if Fails(listing.node) {
        var below := FailsAtBroken(listing.node);
        names := [listing.name] + below;
        assert names[1..] == below;
      } else {
        names := BrokenIn(listing.rest);
      }
    }
  }

  lemma {:induction false} ReachedIsEmitted(path: string, node: Node, names: seq<string>)
    requires Reaches(node, names)
    ensures Remote(Below(path, names)) in Files(path, node)
    decreases node, 1
  {
    if names != [] {
      HeldIsEmitted(path, node.listing, names);
    }
  }

  lemma {:induction false} HeldIsEmitted(dir: string, listing: Listing, names: seq<string>)
    requires names != [] && Holds(listing, names)
    ensures Remote(Below(dir, names)) in FilesIn(dir, listing)
    decreases listing, 0
  {
    if listing.name == names[0] && Reaches(listing.node, names[1..]) {
      ReachedIsEmitted(dir + "/" + listing.name, listing.node, names[1..]);
    } else {
      HeldIsEmitted(dir, listing.rest, names);
    }
  }

  /** Every emitted path is the slash-rooted relative path of a file that is reached. */
  lemma {:induction false} EmittedIsReached(path: string, node: Node, p: string) returns (names: seq<string>)
    requires p in Files(path, node)
    ensures Reaches(node, names) && p == Remote(Below(path, names))
    decreases node, 1
  {
    names := [];
    if node.Dir? {
      names := EmittedIsHeld(path, node.listing, p);
    }
  }

  lemma {:induction false} EmittedIsHeld(dir: string, listing: Listing, p: string) returns (names: seq<string>)
    requires p in FilesIn(dir, listing)
    ensures names != [] && Holds(listing, names) && p == Remote(Below(dir, names))
    decreases listing, 0
  {
    if p in Files(dir + "/" + listing.name, listing.node) {
      var rest := EmittedIsReached(dir + "/" + listing.name, listing.node, p);
      names := [listing.name] + rest;
      assert names[1..] == rest;
    } else {
      names := EmittedIsHeld(dir, listing.rest, p);
    }
  }

  // ---------------------------------------------------------------- no path twice

  /** Names are single components without a backslash, no two alike in a directory. */
  ghost predicate Plain(node: Node)
    decreases node
  {
    node.Dir? ==> PlainIn(node.listing)
  }

  ghost predicate PlainIn(listing: Listing)
    decreases listing
  {
    listing.Item? ==>
      && '/' !in listing.name && '\\' !in listing.name && !Named(listing.rest, listing.name)
      && Plain(listing.node) && PlainIn(listing.rest)
  }

  ghost predicate Named(listing: Listing, name: string) {
    listing.Item? && (listing.name == name || Named(listing.rest, name))
  }

  lemma RemoteOfPlain(path: string)
    requires '\\' !in path
    ensures Remote(path) == path
  {
  }

  lemma {:induction false} FilesLieBelow(path: string, node: Node, p: string)
    requires '\\' !in path && Plain(node) && p in Files(path, node)
    ensures AtOrBelow(p, path)
    decreases node, 1
  {
    RemoteOfPlain(path);
    if node.Dir? {
      var name := FilesInLieBelow(path, node.listing, p);
      assert path + "/" <= path + "/" + name <= p;
    }
  }

  lemma {:induction false} FilesInLieBelow(dir: string, listing: Listing, p: string) returns (name: string)
    requires '\\' !in dir && PlainIn(listing) && p in FilesIn(dir, listing)
    ensures Named(listing, name) && '/' !in name && AtOrBelow(p, dir + "/" + name)
    decreases listing, 0
  {
    if p in Files(dir + "/" + listing.name, listing.node) {
      name := listing.name;
      FilesLieBelow(dir + "/" + name, listing.node, p);
    } else {
      name := FilesInLieBelow(dir, listing.rest, p);
    }
  }

  /** `s` up to its first slash. */
  function FirstComponent(s: string): string {
    if s == "" || s[0] == '/' then "" else [s[0]] + FirstComponent(s[1..])
  }

  lemma {:induction false} FirstComponentIs(s: string, name: string)
    requires '/' !in name && AtOrBelow(s, name)
    ensures FirstComponent(s) == name
  {
    if name != "" {
      assert s[0] == name[0] && AtOrBelow(s[1..], name[1..]);
      FirstComponentIs(s[1..], name[1..]);
    }
  }

  /** A path is below one entry of a directory only. */
  lemma OneEntry(p: string, dir: string, a: string, b: string)
    requires '/' !in a && '/' !in b && AtOrBelow(p, dir + "/" + a) && AtOrBelow(p, dir + "/" + b)
    ensures a == b
  {
    var rest := p[|dir| + 1..];
    assert AtOrBelow(rest, a) && AtOrBelow(rest, b);
    FirstComponentIs(rest, a);
    FirstComponentIs(rest, b);
  }

  /** Emitted paths are distinct when names hold no backslash. */
  lemma {:induction false} EmittedOnce(path: string, node: Node, p: string)
    requires '\\' !in path && Plain(node)
    ensures Files(path, node)[p] <= 1
    decreases node, 1
  {
    if node.Dir? && node.readable {
      EmittedOnceIn(path, node.listing, p);
    }
  }

  lemma {:induction false} EmittedOnceIn(dir: string, listing: Listing, p: string)
    requires '\\' !in dir && PlainIn(listing)
    ensures FilesIn(dir, listing)[p] <= 1
    decreases listing, 0
  {
    if listing.Item? {
      var child := dir + "/" + listing.name;
      EmittedOnce(child, listing.node, p);
      EmittedOnceIn(dir, listing.rest, p);
      if p in Files(child, listing.node) && p in FilesIn(dir, listing.rest) {
        FilesLieBelow(child, listing.node, p);
        var name := FilesInLieBelow(dir, listing.rest, p);
        OneEntry(p, dir, listing.name, name);
        assert false;
      }
    }
  }

  // ---------------------------------------------------------------- exactly when no path comes twice

  /** Names are single components, no two alike in a directory; what any file system
      promises. */
  ghost predicate Sound(node: Node)
    decreases node
  {
    node.Dir? ==> SoundIn(node.listing)
  }

  ghost predicate SoundIn(listing: Listing)
    decreases listing
  {
    listing.Item? ==>
      '/' !in listing.name && !Named(listing.rest, listing.name) && Sound(listing.node) && SoundIn(listing.rest)
  }

  /** `name` cut at its backslashes. */
  function Pieces(name: string): (r: seq<string>)
    ensures |r| > 0
  {
    if name == "" then [""]
    else if name[0] == '\\' then [""] + Pieces(name[1..])
    else
      var r := Pieces(name[1..]);
      [[name[0]] + r[0]] + r[1..]
  }

  /** The components of a file's path once its names are cut at their backslashes. */
  function Components(names: seq<string>): seq<string> {
    if names == [] then [] else Pieces(names[0]) + Components(names[1..])
  }

  function PathOf(components: seq<string>): string {
    if components == [] then "" else "/" + components[0] + PathOf(components[1..])
  }

  lemma RemoteJoins(a: string, b: string)
    ensures Remote(a + b) == Remote(a) + Remote(b)
  {
  }

  lemma {:induction false} PathJoins(a: seq<string>, b: seq<string>)
    ensures PathOf(a + b) == PathOf(a) + PathOf(b)
  {
    if a == [] {
      assert a + b == b;
    } else {
      PathJoins(a[1..], b);
      assert (a + b)[1..] == a[1..] + b;
    }
  }

  function Joined(components: seq<string>): string
    requires components != []
  {
    components[0] + PathOf(components[1..])
  }

  lemma JoinedLonger(first: string, r: seq<string>)
    requires r != []
    ensures Joined([first + r[0]] + r[1..]) == first + Joined(r)
  {
    assert ([first + r[0]] + r[1..])[1..] == r[1..];
    assert first + r[0] + PathOf(r[1..]) == first + (r[0] + PathOf(r[1..]));
  }

  lemma JoinedMore(r: seq<string>)
    requires r != []
    ensures Joined([""] + r) == "/" + Joined(r)
  {
    assert ([""] + r)[1..] == r;
    SlashBefore(r);
    assert "" + PathOf(r) == PathOf(r);
  }

  lemma RemoteOfChar(c: char)
    ensures Remote([c]) == if c == '\\' then "/" else [c]
  {
  }

  lemma {:induction false} RemoteOfName(name: string)
    ensures Joined(Pieces(name)) == Remote(name)
  {
    hide Joined, Remote;
    if name == "" {
      JoinedOfNothing();
    } else {
      var r, tail := Pieces(name[1..]), name[1..];
      RemoteOfName(tail);
      RemoteJoins([name[0]], tail);
      RemoteOfChar(name[0]);
      assert name == [name[0]] + tail;
      if name[0] == '\\' {
        JoinedMore(r);
      } else {
        JoinedLonger([name[0]], r);
      }
    }
  }

  lemma JoinedOfNothing()
    ensures Joined([""]) == "" == Remote("")
  {
  }

  lemma SlashBefore(components: seq<string>)
    requires components != []
    ensures PathOf(components) == "/" + Joined(components)
  {
  }

  /** A file's remote path is its components, each after a slash. */
  lemma {:induction false} RemoteIsPath(path: string, names: seq<string>)
    ensures Remote(Below(path, names)) == Remote(path) + PathOf(Components(names))
    decreases |names|
  {
    if names != [] {
      var child := path + "/" + names[0];
      RemoteIsPath(child, names[1..]);
      RemoteJoins(path + "/", names[0]);
      RemoteJoins(path, "/");
      RemoteOfName(names[0]);
      SlashBefore(Pieces(names[0]));
      PathJoins(Pieces(names[0]), Components(names[1..]));
      assert Remote("/") == "/";
      assert Remote(child) == Remote(path) + PathOf(Pieces(names[0]));
    }
  }

  ghost predicate SlashFree(components: seq<string>) {
    forall i :: 0 <= i < |components| ==> '/' !in components[i]
  }

  /** A path tells its components apart. */
  lemma {:induction false} PathTellsComponents(a: seq<string>, b: seq<string>)
    requires SlashFree(a) && SlashFree(b) && PathOf(a) == PathOf(b)
    ensures a == b
  {
    if a != [] && b != [] {
      var rest := PathOf(a)[1..];
      assert rest == a[0] + PathOf(a[1..]) == b[0] + PathOf(b[1..]);
      StartsWith(a[0], a[1..]);
      StartsWith(b[0], b[1..]);
      FirstComponentIs(rest, a[0]);
      FirstComponentIs(rest, b[0]);
      assert PathOf(a[1..]) == rest[|a[0]|..] == PathOf(b[1..]);
      PathTellsComponents(a[1..], b[1..]);
      assert a == [a[0]] + a[1..] && b == [b[0]] + b[1..];
    }
  }

  lemma StartsWith(first: string, others: seq<string>)
    ensures AtOrBelow(first + PathOf(others), first)
  {
    if others == [] {
      assert first + "" == first;
    } else {
      assert first + PathOf(others) == first + "/" + (others[0] + PathOf(others[1..]));
    }
  }

  lemma {:induction false} PiecesAreSlashFree(name: string)
    requires '/' !in name
    ensures SlashFree(Pieces(name))
  {
    if name != "" {
      PiecesAreSlashFree(name[1..]);
    }
  }

  lemma {:induction false} ReachedIsSlashFree(node: Node, names: seq<string>)
    requires Sound(node) && Reaches(node, names)
    ensures SlashFree(Components(names))
    decreases node, 1
  {
    if names != [] {
      HeldIsSlashFree(node.listing, names);
    }
  }

  lemma {:induction false} HeldIsSlashFree(listing: Listing, names: seq<string>)
    requires names != [] && SoundIn(listing) && Holds(listing, names)
    ensures SlashFree(Components(names))
    decreases listing, 0
  {
    if listing.name == names[0] && Reaches(listing.node, names[1..]) {
      ReachedIsSlashFree(listing.node, names[1..]);
      PiecesAreSlashFree(names[0]);
    } else {
      HeldIsSlashFree(listing.rest, names);
    }
  }

  lemma {:induction false} HeldIsNamed(listing: Listing, names: seq<string>)
    requires names != [] && Holds(listing, names)
    ensures Named(listing, names[0])
  {
    if !(listing.name == names[0] && Reaches(listing.node, names[1..])) {
      HeldIsNamed(listing.rest, names);
    }
  }

  /** A path that comes twice is that of two files. */
  lemma {:induction false} TwiceIsTwoFiles(path: string, node: Node, p: string) returns (a: seq<string>, b: seq<string>)
    requires Sound(node) && Files(path, node)[p] >= 2
    ensures a != b && Reaches(node, a) && Reaches(node, b) && Remote(Below(path, a)) == p == Remote(Below(path, b))
    decreases node, 1
  {
    a, b := TwiceIsTwoHeld(path, node.listing, p);
  }

  lemma {:induction false} TwiceIsTwoHeld(dir: string, listing: Listing, p: string)
    returns (a: seq<string>, b: seq<string>)
    requires SoundIn(listing) && FilesIn(dir, listing)[p] >= 2
    ensures a != b && a != [] && b != [] && Holds(listing, a) && Holds(listing, b)
    ensures Remote(Below(dir, a)) == p == Remote(Below(dir, b))
    decreases listing, 0
  {
    var child := dir + "/" + listing.name;
    if Files(child, listing.node)[p] >= 2 {
      var x, y := TwiceIsTwoFiles(child, listing.node, p);
      a, b := [listing.name] + x, [listing.name] + y;
      assert a[1..] == x && b[1..] == y;
    } else if FilesIn(dir, listing.rest)[p] >= 2 {
      a, b := TwiceIsTwoHeld(dir, listing.rest, p);
    } else {
      var x := EmittedIsReached(child, listing.node, p);
      a := [listing.name] + x;
      assert a[1..] == x;
      b := EmittedIsHeld(dir, listing.rest, p);
      HeldIsNamed(listing.rest, b);
    }
  }

  /** Two files with one path make it come twice. */
  lemma {:induction false} TwoFilesIsTwice(path: string, node: Node, a: seq<string>, b: seq<string>)
    requires a != b && Reaches(node, a) && Reaches(node, b) && Remote(Below(path, a)) == Remote(Below(path, b))
    ensures Files(path, node)[Remote(Below(path, a))] >= 2
    decreases node, 1
  {
    TwoHeldIsTwice(path, node.listing, a, b);
  }

  lemma {:induction false} TwoHeldIsTwice(dir: string, listing: Listing, a: seq<string>, b: seq<string>)
    requires a != b && a != [] && b != [] && Holds(listing, a) && Holds(listing, b)
    requires Remote(Below(dir, a)) == Remote(Below(dir, b))
    ensures FilesIn(dir, listing)[Remote(Below(dir, a))] >= 2
    decreases listing, 0
  {
    var child := dir + "/" + listing.name;
    var aHere := a[0] == listing.name && Reaches(listing.node, a[1..]);
    var bHere := b[0] == listing.name && Reaches(listing.node, b[1..]);
    if aHere && bHere {
      assert a == [a[0]] + a[1..] && b == [b[0]] + b[1..];
      TwoFilesIsTwice(child, listing.node, a[1..], b[1..]);
    } else if aHere {
      ReachedIsEmitted(child, listing.node, a[1..]);
      HeldIsEmitted(dir, listing.rest, b);
    } else if bHere {
      ReachedIsEmitted(child, listing.node, b[1..]);
      HeldIsEmitted(dir, listing.rest, a);
    } else {
      TwoHeldIsTwice(dir, listing.rest, a, b);
    }
  }

  /** Two files of the tree whose names, cut at their backslashes, are the same. */
  ghost predicate Clash(root: Node, a: seq<string>, b: seq<string>) {
    a != b && Reaches(root, a) && Reaches(root, b) && Components(a) == Components(b)
  }

  /** Every path is emitted at most once exactly when no two files clash. */
  lemma EmittedOnceUnlessClash(root: Node)
    requires Sound(root)
    ensures (forall p :: Files("", root)[p] <= 1) <==> !exists a, b :: Clash(root, a, b)
  {
    forall p | Files("", root)[p] >= 2
      ensures exists a, b :: Clash(root, a, b)
    {
      var a, b := TwiceIsTwoFiles("", root, p);
      RemoteIsPath("", a);
      RemoteIsPath("", b);
      assert Remote("") == "" && "" + PathOf(Components(a)) == PathOf(Components(a));
      assert "" + PathOf(Components(b)) == PathOf(Components(b));
      ReachedIsSlashFree(root, a);
      ReachedIsSlashFree(root, b);
      PathTellsComponents(Components(a), Components(b));
      assert Clash(root, a, b);
    }
    if a, b :| Clash(root, a, b) {
      RemoteIsPath("", a);
      RemoteIsPath("", b);
      TwoFilesIsTwice("", root, a, b);
    }
  }

  /** With a backslash in a name two files can share a remote path. */
  lemma BackslashesCollide()
    ensures var inner := Item("b", File, End);
            Files("", Dir(true, Item("a", Dir(true, inner), Item("a\\b", File, End))))["/a/b"] == 2
  {
    assert Remote("/a/b") == "/a/b" == Remote("/a\\b");
    assert "" + "/" + "a" + "/" + "b" == "/a/b";
    assert "" + "/" + "a\\b" == "/a\\b";
  }
}
