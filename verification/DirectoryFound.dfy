/** What search_dir (search.c) finds, told by what the file system answers and the options say. */
module DirectoryFound {
  import opened Common
  import opened DirectoryWalk
  import opened DirectoryReach

  /** Another device is not looked at with one_dev, and a link only with follow_symlinks. */
  predicate LookedAt(fs: Fs, o: Opts, dev: nat, full: string) {
    && (o.oneDev ==> fs.lstatDev(full).Some? && fs.lstatDev(full).value == dev)
    && (fs.isSymlink(full) ==> o.followSymlinks)
  }

  /** The one event of a file: printed if the regex finds something in its path and only paths are asked for. */
  function EventsOf(o: Opts, full: string): (r: seq<Event>)
    ensures |r| == 0 <==> o.fileSearchRegex.Some? && !o.fileSearchRegex.value(full)
  {
    match o.fileSearchRegex
    case None => [Enqueue(full)]
    case Some(finds) => if !finds(full) then [] else if o.matchFiles then [PrintPath(full)] else [Enqueue(full)]
  }

  predicate MayEnter(o: Opts, depth: nat) { o.recurseDirs && (o.maxSearchDepth == -1 || depth < o.maxSearchDepth) }

  // ----- one directory -----

  function Joined(parts: seq<seq<Event>>): seq<Event> {
    if parts == [] then [] else Joined(parts[..|parts| - 1]) + parts[|parts| - 1]
  }

  lemma JoinedSnoc(parts: seq<seq<Event>>, part: seq<Event>)
    ensures Joined(parts + [part]) == Joined(parts) + part
  {
    assert (parts + [part])[..|parts|] == parts;
  }

  /** What one entry gives: nothing, its one event, or what the directory gives. */
  ghost predicate EntryGives(fs: Fs, o: Opts, g: Graph, dev: nat, depth: nat, here: set<Key>, full: string, part: seq<Event>)
    requires Bounded(fs, o, dev, g)
  {
    if !LookedAt(fs, o, dev, full) then part == []
    else if !fs.isDirectory(full) then part == EventsOf(o, full)
    else if !MayEnter(o, depth) then part == []
    else full in g.paths && exists h: set<Key> | here <= h <= here + {ZERO} ::
        part == Walk(fs, o, g, dev, full, depth + 1, h).events && (NonZero(fs, g) && ZERO !in here ==> h == here)
  }

  ghost predicate EntriesGive(fs: Fs, o: Opts, g: Graph, dev: nat, path: string, depth: nat, here: set<Key>, names: seq<string>, parts: seq<seq<Event>>)
    requires Bounded(fs, o, dev, g)
  {
    && |parts| == |names|
    && forall i: nat | i < |parts| :: EntryGives(fs, o, g, dev, depth, here, path + "/" + names[i], parts[i])
  }

  lemma LastGives(fs: Fs, o: Opts, g: Graph, dev: nat, path: string, depth: nat,
                  hash0: set<Key>, key: Key, here: set<Key>, names: seq<string>) returns (part: seq<Event>)
    requires Bounded(fs, o, dev, g) && LeadInto(fs, o, dev, g, path, names) && hash0 <= here
    requires o.maxSearchDepth == -1 ==> key in g.keys && key !in hash0 && hash0 + {key} <= here
    requires names != []
    ensures WalkNames(fs, o, g, dev, path, depth, hash0, key, here, names).events
         == WalkNames(fs, o, g, dev, path, depth, hash0, key, here, names[..|names| - 1]).events + part
    ensures EntryGives(fs, o, g, dev, depth, here, path + "/" + names[|names| - 1], part)
  {
    hide Walk, WalkListing, NonZero, Bounded;
    var front, full := names[..|names| - 1], Under(path, names[|names| - 1]);
    NamesRestore(fs, o, g, dev, path, depth, hash0, key, here, front);
    var before := WalkNames(fs, o, g, dev, path, depth, hash0, key, here, front);
    match KindOf(fs, o, dev, full)
    case Skipped => part := [];
    case File => part := FileEvents(o, full);
    case Dir =>
      if Deeper(o, depth) {
        RankFalls(o, g.keys, depth, hash0, key, before.symhash);
        part := Walk(fs, o, g, dev, full, depth + 1, before.symhash).events;
      } else {
        part := [];
      }
  }

  lemma {:induction false} NamesGive(fs: Fs, o: Opts, g: Graph, dev: nat, path: string, depth: nat,
                                     hash0: set<Key>, key: Key, here: set<Key>, names: seq<string>) returns (parts: seq<seq<Event>>)
    requires Bounded(fs, o, dev, g) && LeadInto(fs, o, dev, g, path, names) && hash0 <= here
    requires o.maxSearchDepth == -1 ==> key in g.keys && key !in hash0 && hash0 + {key} <= here
    ensures WalkNames(fs, o, g, dev, path, depth, hash0, key, here, names).events == Joined(parts)
    ensures EntriesGive(fs, o, g, dev, path, depth, here, names, parts)
    decreases |names|
  {
    hide Walk, WalkListing, EntryGives, Bounded;
    if names == [] {
      parts := [];
    } else {
      var front := NamesGive(fs, o, g, dev, path, depth, hash0, key, here, names[..|names| - 1]);
      var part := LastGives(fs, o, g, dev, path, depth, hash0, key, here, names);
      JoinedSnoc(front, part);
      parts := front + [part];
    }
  }

  /** A directory that is entered gives what its entries give, in the order of the listing. */
  lemma EntriesInOrder(fs: Fs, o: Opts, g: Graph, dev: nat, path: string, depth: nat, symhash: set<Key>) returns (parts: seq<seq<Event>>)
    requires Bounded(fs, o, dev, g) && path in g.paths
    ensures var r := Walk(fs, o, g, dev, path, depth, symhash).events;
      var key := fs.stat(path);
      var here := if key.Some? then symhash + {key.value} else symhash;
      if key.Some? && key.value in symhash then r == []
      else match fs.scan(path)
        case NotDirectory => r == [SearchNow(path)]
        case Unreadable => r == []
        case Names(names) => r == Joined(parts) && EntriesGive(fs, o, g, dev, path, depth, here, names, parts)
  {
    parts := [];
    var key := fs.stat(path);
    if (key.Some? ==> key.value !in symhash) && fs.scan(path).Names? {
      hide EntriesGive, Joined;
      var k, here := if key.Some? then key.value else ZERO, if key.Some? then symhash + {key.value} else symhash;
      parts := NamesGive(fs, o, g, dev, path, depth, symhash, k, here, fs.scan(path).names);
    }
  }

  // ----- the whole walk -----

  /** The path of a directory is the path of the one it is listed in, a slash and its name. */
  ghost predicate Steps(fs: Fs, o: Opts, dev: nat, root: string, names: seq<string>, paths: seq<string>) {
    && |paths| == |names| + 1 && paths[0] == root
    && forall i: nat | i < |names| :: Step(fs, o, dev, i, paths[i], names[i], paths[i + 1])
  }

  ghost predicate Step(fs: Fs, o: Opts, dev: nat, depth: nat, path: string, name: string, full: string) {
    && full == path + "/" + name && fs.scan(path).Names? && name in fs.scan(path).names
    && LookedAt(fs, o, dev, full) && fs.isDirectory(full) && MayEnter(o, depth)
  }

  /** Every stat succeeds, and no two give the same directory. */
  ghost predicate Distinct(fs: Fs, paths: seq<string>) {
    && (forall i: nat | i < |paths| :: fs.stat(paths[i]).Some?)
    && forall i: nat, j: nat | i < j < |paths| :: fs.stat(paths[i]) != fs.stat(paths[j])
  }

  /** The event comes from the directory `path` itself, or from a file listed in it. */
  ghost predicate GivenBy(fs: Fs, o: Opts, dev: nat, path: string, e: Event) {
    || (fs.scan(path) == NotDirectory && e == SearchNow(path))
    || (fs.scan(path).Names? && exists name :: name in fs.scan(path).names && FileGives(fs, o, dev, path + "/" + name, e))
  }

  ghost predicate FileGives(fs: Fs, o: Opts, dev: nat, full: string, e: Event) {
    && LookedAt(fs, o, dev, full) && !fs.isDirectory(full)
    && match o.fileSearchRegex
       case None => e == Enqueue(full)
       case Some(finds) => finds(full) && e == if o.matchFiles then PrintPath(full) else Enqueue(full)
  }

  ghost predicate Found(fs: Fs, o: Opts, dev: nat, root: string, names: seq<string>, paths: seq<string>, e: Event) {
    Steps(fs, o, dev, root, names, paths) && Distinct(fs, paths) && GivenBy(fs, o, dev, paths[|names|], e)
  }

  lemma StepEnters(fs: Fs, o: Opts, dev: nat, path: string, depth: nat, name: string)
    ensures EntersDir(fs, o, dev, path, depth, name) <==> Step(fs, o, dev, depth, path, name, Under(path, name))
  {
  }

  lemma GivenIsEvent(fs: Fs, o: Opts, dev: nat, path: string, e: Event)
    ensures EventAt(fs, o, dev, path, e) <==> GivenBy(fs, o, dev, path, e)
  {
    if fs.scan(path).Names? {
      forall name | name in fs.scan(path).names
        ensures FileIn(fs, o, dev, path, name, e) <==> FileGives(fs, o, dev, path + "/" + name, e)
      {
      }
    }
  }

  /** The paths of a chain, the root first. */
  function PathsOf(root: string, names: seq<string>): (r: seq<string>)
    ensures |r| == |names| + 1 && r[0] == root
    ensures forall i: nat | i <= |names| :: r[i] == PathOf(root, names[..i])
  {
    seq(|names| + 1, i requires 0 <= i <= |names| => PathOf(root, names[..i]))
  }

  lemma OneNameMore(root: string, names: seq<string>, i: nat)
    requires i < |names|
    ensures PathOf(root, names[..i + 1]) == Under(PathOf(root, names[..i]), names[i])
  {
    assert names[..i + 1][..i] == names[..i];
  }

  lemma {:induction false} StepsDetermine(fs: Fs, o: Opts, dev: nat, root: string, names: seq<string>, paths: seq<string>, i: nat)
    requires Steps(fs, o, dev, root, names, paths) && i <= |names|
    ensures paths[i] == PathOf(root, names[..i])
  {
    hide LookedAt, MayEnter;
    if i > 0 {
      var h: nat := i - 1;
      StepsDetermine(fs, o, dev, root, names, paths, h);
      OneNameMore(root, names, h);
      assert Step(fs, o, dev, h, paths[h], names[h], paths[h + 1]);
    }
  }

  lemma ChainIsSteps(fs: Fs, o: Opts, dev: nat, root: string, names: seq<string>)
    ensures Chain(fs, o, dev, root, 0, names) <==> Steps(fs, o, dev, root, names, PathsOf(root, names))
  {
    hide EntersDir, PathOf, Step;
    var paths := PathsOf(root, names);
    forall i: nat | i < |names|
      ensures EntersDir(fs, o, dev, PathOf(root, names[..i]), 0 + i, names[i])
         <==> Step(fs, o, dev, i, paths[i], names[i], paths[i + 1])
    {
      OneNameMore(root, names, i);
      StepEnters(fs, o, dev, PathOf(root, names[..i]), i, names[i]);
    }
    assert names[..0] == [];
    EmptyPath(root);
    if Steps(fs, o, dev, root, names, paths) {
      forall i: nat | i < |names| ensures EntersDir(fs, o, dev, PathOf(root, names[..i]), 0 + i, names[i]) {
        assert Step(fs, o, dev, i, paths[i], names[i], paths[i + 1]);
      }
    }
    if Chain(fs, o, dev, root, 0, names) {
      forall i: nat | i < |names| ensures Step(fs, o, dev, i, paths[i], names[i], paths[i + 1]) {
        assert EntersDir(fs, o, dev, PathOf(root, names[..i]), 0 + i, names[i]);
      }
    }
  }

  lemma DistinctIsLoopFree(fs: Fs, root: string, names: seq<string>)
    ensures LoopFree(fs, root, names, {}) <==> Distinct(fs, PathsOf(root, names))
  {
    hide PathOf;
  }

  /** The events of the walk, by the answers of the file system and the options alone. */
  lemma FoundExactly(fs: Fs, o: Opts, g: Graph, dev: nat, root: string, e: Event)
    requires Stats(fs, o, dev, g) && root in g.paths
    ensures Bounded(fs, o, dev, g)
    ensures e in Walk(fs, o, g, dev, root, 0, {}).events
       <==> exists names: seq<string>, paths: seq<string> :: Found(fs, o, dev, root, names, paths, e)
  {
    WalkFindsExactly(fs, o, g, dev, root, e);
    hide *;
    hide Found;
    forall names: seq<string>
      ensures Found(fs, o, dev, root, names, PathsOf(root, names), e)
         <==> Chain(fs, o, dev, root, 0, names) && LoopFree(fs, root, names, {}) && EventAt(fs, o, dev, PathOf(root, names), e)
    {
      ChainFound(fs, o, dev, root, names, e);
    }
    forall names: seq<string>, paths: seq<string> | Found(fs, o, dev, root, names, paths, e)
      ensures paths == PathsOf(root, names)
    {
      FoundPaths(fs, o, dev, root, names, paths, e);
    }
  }

  lemma ChainFound(fs: Fs, o: Opts, dev: nat, root: string, names: seq<string>, e: Event)
    ensures Found(fs, o, dev, root, names, PathsOf(root, names), e)
       <==> Chain(fs, o, dev, root, 0, names) && LoopFree(fs, root, names, {}) && EventAt(fs, o, dev, PathOf(root, names), e)
  {
    hide Steps, Distinct, GivenBy, Chain, LoopFree, EventAt, PathOf;
    ChainIsSteps(fs, o, dev, root, names);
    DistinctIsLoopFree(fs, root, names);
    GivenIsEvent(fs, o, dev, PathOf(root, names), e);
    assert names[..|names|] == names;
  }

  lemma FoundPaths(fs: Fs, o: Opts, dev: nat, root: string, names: seq<string>, paths: seq<string>, e: Event)
    requires Found(fs, o, dev, root, names, paths, e)
    ensures paths == PathsOf(root, names)
  {
    hide Step, PathOf;
    forall i: nat | i <= |names| ensures paths[i] == PathOf(root, names[..i]) {
      StepsDetermine(fs, o, dev, root, names, paths, i);
    }
  }

  /** Nothing but the root itself is found on another device, or, unless links are followed, is a link. */
  lemma FoundIsLookedAt(fs: Fs, o: Opts, g: Graph, dev: nat, root: string, e: Event)
    requires Stats(fs, o, dev, g) && root in g.paths
    requires Bounded(fs, o, dev, g) && e in Walk(fs, o, g, dev, root, 0, {}).events && e != SearchNow(root)
    ensures o.oneDev ==> fs.lstatDev(e.path) == Some(dev)
    ensures !o.followSymlinks ==> !fs.isSymlink(e.path)
    ensures e.SearchNow? <==> fs.isDirectory(e.path)
  {
    FoundExactly(fs, o, g, dev, root, e);
    hide Walk;
    var names: seq<string>, paths: seq<string> :| Found(fs, o, dev, root, names, paths, e);
    if names != [] {
      var i: nat := |names| - 1;
      assert Step(fs, o, dev, i, paths[i], names[i], paths[i + 1]);
    }
  }

  // ----- links that are followed -----

  lemma SameKinds(fs: Fs, o: Opts, dev: nat, links: string -> bool, full: string)
    requires o.followSymlinks
    ensures KindOf(fs.(isSymlink := links), o, dev, full) == KindOf(fs, o, dev, full)
  {
  }

  lemma SameBounds(fs: Fs, o: Opts, dev: nat, links: string -> bool, g: Graph)
    requires o.followSymlinks && Bounded(fs, o, dev, g)
    ensures Bounded(fs.(isSymlink := links), o, dev, g)
  {
    forall p: string, n: string | p in g.paths && Enterable(fs.(isSymlink := links), o, dev, p, n) ensures Under(p, n) in g.paths {
      SameKinds(fs, o, dev, links, Under(p, n));
      assert Enterable(fs, o, dev, p, n);
    }
  }

  /** With follow_symlinks, which paths are links makes no difference. */
  lemma {:induction false} LinksMakeNoDifference(fs: Fs, o: Opts, g: Graph, dev: nat, path: string, depth: nat,
                                                 symhash: set<Key>, links: string -> bool)
    requires o.followSymlinks && Bounded(fs, o, dev, g) && path in g.paths
    ensures Bounded(fs.(isSymlink := links), o, dev, g)
    ensures Walk(fs.(isSymlink := links), o, g, dev, path, depth, symhash) == Walk(fs, o, g, dev, path, depth, symhash)
    decreases Rank(o, g.keys, depth, symhash), 1, 0
  {
    SameBounds(fs, o, dev, links, g);
    hide Bounded;
    match fs.stat(path)
    case None => ListingSame(fs, o, g, dev, path, depth, symhash, ZERO, symhash, links);
    case Some(key) =>
      if key !in symhash {
        ListingSame(fs, o, g, dev, path, depth, symhash, key, symhash + {key}, links);
      }
  }

  lemma {:induction false} ListingSame(fs: Fs, o: Opts, g: Graph, dev: nat, path: string, depth: nat,
                                       hash0: set<Key>, key: Key, symhash: set<Key>, links: string -> bool)
    requires o.followSymlinks && Bounded(fs, o, dev, g) && Bounded(fs.(isSymlink := links), o, dev, g)
    requires path in g.paths && hash0 <= symhash
    requires o.maxSearchDepth == -1 ==> key in g.keys && key !in hash0 && hash0 + {key} <= symhash
    ensures WalkListing(fs.(isSymlink := links), o, g, dev, path, depth, hash0, key, symhash)
         == WalkListing(fs, o, g, dev, path, depth, hash0, key, symhash)
    decreases Rank(o, g.keys, depth, hash0), 0, 1
  {
    match fs.scan(path)
    case Names(names) => NamesSame(fs, o, g, dev, path, depth, hash0, key, symhash, names, links);
    case _ =>
  }

  lemma {:induction false} NamesSame(fs: Fs, o: Opts, g: Graph, dev: nat, path: string, depth: nat,
                                     hash0: set<Key>, key: Key, symhash: set<Key>, names: seq<string>, links: string -> bool)
    requires o.followSymlinks && Bounded(fs, o, dev, g) && Bounded(fs.(isSymlink := links), o, dev, g)
    requires LeadInto(fs, o, dev, g, path, names) && LeadInto(fs.(isSymlink := links), o, dev, g, path, names)
    requires hash0 <= symhash
    requires o.maxSearchDepth == -1 ==> key in g.keys && key !in hash0 && hash0 + {key} <= symhash
    ensures WalkNames(fs.(isSymlink := links), o, g, dev, path, depth, hash0, key, symhash, names)
         == WalkNames(fs, o, g, dev, path, depth, hash0, key, symhash, names)
    decreases Rank(o, g.keys, depth, hash0), 0, 0, |names|
  {
    hide Closed, Walk, WalkListing, Bounded;
    if names != [] {
      var front, full := names[..|names| - 1], Under(path, names[|names| - 1]);
      NamesSame(fs, o, g, dev, path, depth, hash0, key, symhash, front, links);
      SameKinds(fs, o, dev, links, full);
      if KindOf(fs, o, dev, full) == Dir && Deeper(o, depth) {
        var before := WalkNames(fs, o, g, dev, path, depth, hash0, key, symhash, front);
        RankFalls(o, g.keys, depth, hash0, key, before.symhash);
        LinksMakeNoDifference(fs, o, g, dev, full, depth + 1, before.symhash, links);
      }
    }
  }
}
