/** What the walk of DirectoryWalk reaches, without its loop table: the files below every chain of
    directories that does not come back to a directory it has passed, and no others. */
module DirectoryReach {
  import opened Common
  import opened DirectoryWalk

  /** The path after following `names` from `path`. */
  function PathOf(path: string, names: seq<string>): string {
    if names == [] then path else Under(PathOf(path, names[..|names| - 1]), names[|names| - 1])
  }

  /** `name` is a directory in `path` that the walk may enter from depth `depth`. */
  ghost predicate EntersDir(fs: Fs, o: Opts, dev: nat, path: string, depth: nat, name: string) {
    Enterable(fs, o, dev, path, name) && Deeper(o, depth)
  }

  /** Every name is entered from the directory before it. */
  ghost predicate Chain(fs: Fs, o: Opts, dev: nat, path: string, depth: nat, names: seq<string>) {
    forall i: nat | i < |names| :: EntersDir(fs, o, dev, PathOf(path, names[..i]), depth + i, names[i])
  }

  /** No directory of the chain is in `seen`, and none comes twice. */
  ghost predicate LoopFree(fs: Fs, path: string, names: seq<string>, seen: set<Key>) {
    && (forall i: nat | i <= |names| :: fs.stat(PathOf(path, names[..i])).Some? && fs.stat(PathOf(path, names[..i])).value !in seen)
    && (forall i: nat, j: nat | i < j <= |names| :: fs.stat(PathOf(path, names[..i])) != fs.stat(PathOf(path, names[..j])))
  }

  /** What listing `path` leads to directly. */
  ghost predicate EventAt(fs: Fs, o: Opts, dev: nat, path: string, e: Event) {
    match fs.scan(path)
    case NotDirectory => e == SearchNow(path)
    case Unreadable => false
    case Names(names) => exists name :: name in names && FileIn(fs, o, dev, path, name, e)
  }

  ghost predicate FileIn(fs: Fs, o: Opts, dev: nat, path: string, name: string, e: Event) {
    KindOf(fs, o, dev, Under(path, name)) == File && e in FileEvents(o, Under(path, name))
  }

  ghost predicate Reaches(fs: Fs, o: Opts, dev: nat, path: string, depth: nat, seen: set<Key>, names: seq<string>, e: Event) {
    Chain(fs, o, dev, path, depth, names) && LoopFree(fs, path, names, seen) && EventAt(fs, o, dev, PathOf(path, names), e)
  }

  ghost predicate Reachable(fs: Fs, o: Opts, dev: nat, path: string, depth: nat, seen: set<Key>, e: Event) {
    exists names: seq<string> :: Reaches(fs, o, dev, path, depth, seen, names, e)
  }

  // ----- the first step of a chain -----

  lemma {:induction false} PathOfFirst(path: string, n: string, rest: seq<string>)
    ensures PathOf(path, [n] + rest) == PathOf(Under(path, n), rest)
    decreases |rest|
  {
    var all := [n] + rest;
    if rest == [] {
      assert all[..|all| - 1] == [];
    } else {
      assert all[..|all| - 1] == [n] + rest[..|rest| - 1];
      PathOfFirst(path, n, rest[..|rest| - 1]);
    }
  }

  lemma PathOfPrefix(path: string, n: string, rest: seq<string>, i: nat)
    requires i <= |rest|
    ensures PathOf(path, ([n] + rest)[..i + 1]) == PathOf(Under(path, n), rest[..i])
  {
    assert ([n] + rest)[..i + 1] == [n] + rest[..i];
    PathOfFirst(path, n, rest[..i]);
  }

  lemma ChainFirst(fs: Fs, o: Opts, dev: nat, path: string, depth: nat, n: string, rest: seq<string>)
    ensures Chain(fs, o, dev, path, depth, [n] + rest)
       <==> EntersDir(fs, o, dev, path, depth, n) && Chain(fs, o, dev, Under(path, n), depth + 1, rest)
  {
    hide EntersDir, PathOf;
    var names := [n] + rest;
    assert names[..0] == [];
    EmptyPath(path);
    if Chain(fs, o, dev, path, depth, names) {
      assert EntersDir(fs, o, dev, PathOf(path, names[..0]), depth + 0, names[0]);
      forall i: nat | i < |rest| ensures EntersDir(fs, o, dev, PathOf(Under(path, n), rest[..i]), depth + 1 + i, rest[i]) {
        PathOfPrefix(path, n, rest, i);
        assert EntersDir(fs, o, dev, PathOf(path, names[..i + 1]), depth + (i + 1), names[i + 1]);
      }
    }
    if EntersDir(fs, o, dev, path, depth, n) && Chain(fs, o, dev, Under(path, n), depth + 1, rest) {
      forall i: nat | i < |names| ensures EntersDir(fs, o, dev, PathOf(path, names[..i]), depth + i, names[i]) {
        if i > 0 {
          PathOfPrefix(path, n, rest, i - 1);
          assert EntersDir(fs, o, dev, PathOf(Under(path, n), rest[..i - 1]), depth + 1 + (i - 1), rest[i - 1]);
        }
      }
    }
  }

  lemma EmptyPath(path: string)
    ensures PathOf(path, []) == path
  {
  }

  lemma LoopFreeFirst(fs: Fs, path: string, n: string, rest: seq<string>, seen: set<Key>, key: Key)
    requires fs.stat(path) == Some(key) && key !in seen
    ensures LoopFree(fs, path, [n] + rest, seen) <==> LoopFree(fs, Under(path, n), rest, seen + {key})
  {
    hide PathOf;
    var names, sub := [n] + rest, Under(path, n);
    assert names[..0] == [];
    EmptyPath(path);
    forall i: nat | i <= |rest| ensures PathOf(path, names[..i + 1]) == PathOf(sub, rest[..i]) {
      PathOfPrefix(path, n, rest, i);
    }
    if LoopFree(fs, path, names, seen) {
      forall i: nat | i <= |rest| ensures fs.stat(PathOf(sub, rest[..i])).Some? && fs.stat(PathOf(sub, rest[..i])).value !in seen + {key} {
        assert fs.stat(PathOf(path, names[..i + 1])).Some?;
        assert fs.stat(PathOf(path, names[..0])) != fs.stat(PathOf(path, names[..i + 1]));
      }
      forall i: nat, j: nat | i < j <= |rest| ensures fs.stat(PathOf(sub, rest[..i])) != fs.stat(PathOf(sub, rest[..j])) {
        assert fs.stat(PathOf(path, names[..i + 1])) != fs.stat(PathOf(path, names[..j + 1]));
      }
    }
    if LoopFree(fs, sub, rest, seen + {key}) {
      forall i: nat | i <= |names| ensures fs.stat(PathOf(path, names[..i])).Some? && fs.stat(PathOf(path, names[..i])).value !in seen {
        if i > 0 {
          assert fs.stat(PathOf(sub, rest[..i - 1])).value !in seen + {key};
        }
      }
      forall i: nat, j: nat | i < j <= |names| ensures fs.stat(PathOf(path, names[..i])) != fs.stat(PathOf(path, names[..j])) {
        assert fs.stat(PathOf(sub, rest[..j - 1])).value !in seen + {key};
        if i > 0 {
          assert fs.stat(PathOf(sub, rest[..i - 1])) != fs.stat(PathOf(sub, rest[..j - 1]));
        }
      }
    }
  }

  /** A chain from `path` is empty or starts with a directory in it. */
  lemma ReachesFirst(fs: Fs, o: Opts, dev: nat, path: string, depth: nat, seen: set<Key>, n: string, rest: seq<string>, e: Event, key: Key)
    requires fs.stat(path) == Some(key) && key !in seen
    ensures Reaches(fs, o, dev, path, depth, seen, [n] + rest, e)
       <==> EntersDir(fs, o, dev, path, depth, n) && Reaches(fs, o, dev, Under(path, n), depth + 1, seen + {key}, rest, e)
  {
    hide EntersDir, PathOf, EventAt, Chain, LoopFree;
    ChainFirst(fs, o, dev, path, depth, n, rest);
    LoopFreeFirst(fs, path, n, rest, seen, key);
    PathOfFirst(path, n, rest);
  }

  // ----- the walk reaches what can be reached -----

  /** Every stat of a path of the graph succeeds, with a key that is not zero. */
  ghost predicate Stats(fs: Fs, o: Opts, dev: nat, g: Graph) {
    && Closed(fs, o, dev, g.paths)
    && forall p: string | p in g.paths :: fs.stat(p).Some? && fs.stat(p).value in g.keys && fs.stat(p).value != ZERO
  }

  /** What the first k entries of a directory lead to. */
  ghost predicate FromNames(fs: Fs, o: Opts, dev: nat, path: string, depth: nat, hash: set<Key>, names: seq<string>, e: Event) {
    exists n :: n in names && (FileIn(fs, o, dev, path, n, e) || Below(fs, o, dev, path, depth, hash, n, e))
  }

  ghost predicate Below(fs: Fs, o: Opts, dev: nat, path: string, depth: nat, hash: set<Key>, n: string, e: Event) {
    KindOf(fs, o, dev, Under(path, n)) == Dir && Deeper(o, depth) && Reachable(fs, o, dev, Under(path, n), depth + 1, hash, e)
  }

  lemma ReachableByListing(fs: Fs, o: Opts, dev: nat, path: string, depth: nat, seen: set<Key>, e: Event, key: Key)
    requires fs.stat(path) == Some(key) && key !in seen
    ensures Reachable(fs, o, dev, path, depth, seen, e)
       <==> match fs.scan(path)
            case NotDirectory => e == SearchNow(path)
            case Unreadable => false
            case Names(names) => FromNames(fs, o, dev, path, depth, seen + {key}, names, e)
  {
    hide PathOf, KindOf, FileEvents, Deeper, Chain, LoopFree;
    if Reachable(fs, o, dev, path, depth, seen, e) {
      var names: seq<string> :| Reaches(fs, o, dev, path, depth, seen, names, e);
      if names == [] {
        EmptyPath(path);
      } else {
        var n, rest := names[0], names[1..];
        assert [n] + rest == names;
        ReachesFirst(fs, o, dev, path, depth, seen, n, rest, e, key);
        assert Below(fs, o, dev, path, depth, seen + {key}, n, e);
      }
    }
    if EventAt(fs, o, dev, path, e) {
      Directly(fs, o, dev, path, depth, seen, e, key);
    }
    if fs.scan(path).Names? && FromNames(fs, o, dev, path, depth, seen + {key}, fs.scan(path).names, e) {
      var n :| n in fs.scan(path).names && (FileIn(fs, o, dev, path, n, e) || Below(fs, o, dev, path, depth, seen + {key}, n, e));
      if !FileIn(fs, o, dev, path, n, e) {
        var rest: seq<string> :| Reaches(fs, o, dev, Under(path, n), depth + 1, seen + {key}, rest, e);
        ReachesFirst(fs, o, dev, path, depth, seen, n, rest, e, key);
      }
    }
  }

  lemma Directly(fs: Fs, o: Opts, dev: nat, path: string, depth: nat, seen: set<Key>, e: Event, key: Key)
    requires fs.stat(path) == Some(key) && key !in seen && EventAt(fs, o, dev, path, e)
    ensures Reachable(fs, o, dev, path, depth, seen, e)
  {
    assert PathOf(path, []) == path;
    assert forall i: nat | i <= 0 :: PathOf(path, [][..i]) == path;
    assert Reaches(fs, o, dev, path, depth, seen, [], e);
  }

  lemma {:induction false} WalkReaches(fs: Fs, o: Opts, g: Graph, dev: nat, path: string, depth: nat, symhash: set<Key>, e: Event)
    requires Stats(fs, o, dev, g) && path in g.paths && ZERO !in symhash
    ensures Bounded(fs, o, dev, g)
    ensures e in Walk(fs, o, g, dev, path, depth, symhash).events <==> Reachable(fs, o, dev, path, depth, symhash, e)
    decreases Rank(o, g.keys, depth, symhash), 1, 0
  {
    var key := fs.stat(path).value;
    if key in symhash {
      forall names: seq<string> ensures !Reaches(fs, o, dev, path, depth, symhash, names, e) {
        assert PathOf(path, names[..0]) == path;
      }
    } else {
      ReachableByListing(fs, o, dev, path, depth, symhash, e, key);
      match fs.scan(path)
      case Names(names) => NamesReach(fs, o, g, dev, path, depth, symhash, key, names, e);
      case _ =>
    }
  }

  lemma FromNamesSnoc(fs: Fs, o: Opts, dev: nat, path: string, depth: nat, hash: set<Key>, names: seq<string>, e: Event)
    requires names != []
    ensures FromNames(fs, o, dev, path, depth, hash, names, e) <==>
      || FromNames(fs, o, dev, path, depth, hash, names[..|names| - 1], e)
      || FileIn(fs, o, dev, path, names[|names| - 1], e) || Below(fs, o, dev, path, depth, hash, names[|names| - 1], e)
  {
    hide FileIn, Below;
    assert names == names[..|names| - 1] + [names[|names| - 1]];
  }

  lemma {:induction false} NamesReach(fs: Fs, o: Opts, g: Graph, dev: nat, path: string, depth: nat,
                                      hash0: set<Key>, key: Key, names: seq<string>, e: Event)
    requires Stats(fs, o, dev, g) && LeadInto(fs, o, dev, g, path, names) && ZERO !in hash0 && key in g.keys && key !in hash0 && key != ZERO
    ensures e in WalkNames(fs, o, g, dev, path, depth, hash0, key, hash0 + {key}, names).events
       <==> FromNames(fs, o, dev, path, depth, hash0 + {key}, names, e)
    decreases Rank(o, g.keys, depth, hash0), 0, 0, |names|
  {
    hide Reachable, PathOf, Chain, LoopFree, EventAt, FileEvents;
    var hash := hash0 + {key};
    if names != [] {
      var front, n := names[..|names| - 1], names[|names| - 1];
      NamesReach(fs, o, g, dev, path, depth, hash0, key, front, e);
      NamesRestore(fs, o, g, dev, path, depth, hash0, key, hash, front);
      FromNamesSnoc(fs, o, dev, path, depth, hash, names, e);
      if KindOf(fs, o, dev, Under(path, n)) == Dir && Deeper(o, depth) {
        RankFalls(o, g.keys, depth, hash0, key, hash);
        WalkReaches(fs, o, g, dev, Under(path, n), depth + 1, hash, e);
      }
    }
  }

  /** The walk from a root: exactly the files below loop-free chains of directories. */
  lemma WalkFindsExactly(fs: Fs, o: Opts, g: Graph, dev: nat, root: string, e: Event)
    requires Stats(fs, o, dev, g) && root in g.paths
    ensures Bounded(fs, o, dev, g) && Walk(fs, o, g, dev, root, 0, {}).symhash == {}
    ensures e in Walk(fs, o, g, dev, root, 0, {}).events
       <==> exists names: seq<string> ::
              Chain(fs, o, dev, root, 0, names) && LoopFree(fs, root, names, {}) && EventAt(fs, o, dev, PathOf(root, names), e)
  {
    WalkReaches(fs, o, g, dev, root, 0, {}, e);
    WalkRestores(fs, o, g, dev, root, 0, {});
    hide *;
    ReachableIs(fs, o, dev, root, e);
  }

  lemma ReachableIs(fs: Fs, o: Opts, dev: nat, root: string, e: Event)
    ensures Reachable(fs, o, dev, root, 0, {}, e)
       <==> exists names: seq<string> ::
              Chain(fs, o, dev, root, 0, names) && LoopFree(fs, root, names, {}) && EventAt(fs, o, dev, PathOf(root, names), e)
  {
    hide Chain, LoopFree, EventAt, PathOf;
    if names: seq<string> :| Chain(fs, o, dev, root, 0, names) && LoopFree(fs, root, names, {}) &&
                             EventAt(fs, o, dev, PathOf(root, names), e) {
      assert Reaches(fs, o, dev, root, 0, {}, names, e);
    }
    if Reachable(fs, o, dev, root, 0, {}, e) {
      var names: seq<string> :| Reaches(fs, o, dev, root, 0, {}, names, e);
    }
  }

  // ----- leaving loops out loses no directory -----

  /** What is in a directory depends on the directory, not on the way to it. */
  ghost predicate SameByAnyPath(fs: Fs, o: Opts, dev: nat, g: Graph) {
    forall p: string, q: string | p in g.paths && q in g.paths && fs.stat(p) == fs.stat(q) ::
      fs.scan(p) == fs.scan(q) && forall n: string | fs.scan(p).Names? && n in fs.scan(p).names :: SameChild(fs, o, dev, p, q, n)
  }

  ghost predicate SameChild(fs: Fs, o: Opts, dev: nat, p: string, q: string, n: string) {
    fs.stat(Under(p, n)) == fs.stat(Under(q, n)) && KindOf(fs, o, dev, Under(p, n)) == KindOf(fs, o, dev, Under(q, n))
  }

  lemma ChainSnoc(fs: Fs, o: Opts, dev: nat, path: string, names: seq<string>, n: string)
    requires Chain(fs, o, dev, path, 0, names) && EntersDir(fs, o, dev, PathOf(path, names), |names|, n)
    ensures Chain(fs, o, dev, path, 0, names + [n]) && PathOf(path, names + [n]) == Under(PathOf(path, names), n)
  {
    hide EntersDir;
    var all := names + [n];
    assert all[..|all| - 1] == names;
    forall i: nat | i < |all| ensures EntersDir(fs, o, dev, PathOf(path, all[..i]), 0 + i, all[i]) {
      if i < |names| {
        assert all[..i] == names[..i];
        assert EntersDir(fs, o, dev, PathOf(path, names[..i]), 0 + i, names[i]);
      }
    }
  }

  lemma ChainPrefix(fs: Fs, o: Opts, dev: nat, path: string, names: seq<string>, k: nat)
    requires Chain(fs, o, dev, path, 0, names) && k <= |names|
    ensures Chain(fs, o, dev, path, 0, names[..k])
  {
    hide EntersDir, PathOf;
    forall i: nat | i < k ensures EntersDir(fs, o, dev, PathOf(path, names[..k][..i]), 0 + i, names[..k][i]) {
      assert names[..k][..i] == names[..i];
      assert EntersDir(fs, o, dev, PathOf(path, names[..i]), 0 + i, names[i]);
    }
  }

  lemma LoopFreePrefix(fs: Fs, path: string, names: seq<string>, k: nat)
    requires LoopFree(fs, path, names, {}) && k <= |names|
    ensures LoopFree(fs, path, names[..k], {})
  {
    hide PathOf;
    forall i: nat | i <= k ensures names[..k][..i] == names[..i] {
    }
  }

  lemma LoopFreeSnoc(fs: Fs, path: string, names: seq<string>, n: string)
    requires LoopFree(fs, path, names, {}) && fs.stat(PathOf(path, names + [n])).Some?
    requires forall i: nat | i <= |names| :: fs.stat(PathOf(path, names[..i])) != fs.stat(PathOf(path, names + [n]))
    ensures LoopFree(fs, path, names + [n], {})
  {
    hide PathOf;
    var all := names + [n];
    assert all[..|all|] == all;
    forall i: nat | i <= |names| ensures all[..i] == names[..i] {
    }
  }

  lemma RootIsLoopFree(fs: Fs, o: Opts, g: Graph, dev: nat, root: string)
    requires Stats(fs, o, dev, g) && root in g.paths
    ensures LoopFree(fs, root, [], {})
  {
  }

  lemma LastEntered(fs: Fs, o: Opts, dev: nat, root: string, names: seq<string>)
    requires names != [] && Chain(fs, o, dev, root, 0, names)
    ensures EntersDir(fs, o, dev, PathOf(root, names[..|names| - 1]), |names[..|names| - 1]|, names[|names| - 1])
    ensures PathOf(root, names) == Under(PathOf(root, names[..|names| - 1]), names[|names| - 1])
  {
  }

  /** A chain from a path of the graph stays among its paths. */
  lemma {:induction false} ChainStaysIn(fs: Fs, o: Opts, g: Graph, dev: nat, root: string, names: seq<string>)
    requires Stats(fs, o, dev, g) && root in g.paths && Chain(fs, o, dev, root, 0, names)
    ensures PathOf(root, names) in g.paths && fs.stat(PathOf(root, names)).Some?
    decreases |names|
  {
    hide Chain, PathOf, KindOf, Deeper;
    if names == [] {
      EmptyPath(root);
    } else {
      ChainPrefix(fs, o, dev, root, names, |names| - 1);
      ChainStaysIn(fs, o, g, dev, root, names[..|names| - 1]);
      LastEntered(fs, o, dev, root, names);
    }
  }

  /** The paths that chains from the root come to are the fewest that will do for the root. */
  ghost function ChainPaths(fs: Fs, o: Opts, dev: nat, root: string): iset<string> {
    iset names: seq<string> | Chain(fs, o, dev, root, 0, names) :: PathOf(root, names)
  }

  lemma ChainPathsAreClosed(fs: Fs, o: Opts, dev: nat, root: string)
    requires o.maxSearchDepth == -1
    ensures root in ChainPaths(fs, o, dev, root) && Closed(fs, o, dev, ChainPaths(fs, o, dev, root))
  {
    hide Enterable;
    assert Chain(fs, o, dev, root, 0, []) && PathOf(root, []) == root;
    forall p: string, n: string | p in ChainPaths(fs, o, dev, root) && Enterable(fs, o, dev, p, n)
      ensures Under(p, n) in ChainPaths(fs, o, dev, root)
    {
      var names: seq<string> :| Chain(fs, o, dev, root, 0, names) && PathOf(root, names) == p;
      ChainSnoc(fs, o, dev, root, names, n);
    }
  }

  /** Every directory that some chain comes to, with or without loops, is come to by a chain without. */
  lemma {:induction false} LoopFreeSuffices(fs: Fs, o: Opts, g: Graph, dev: nat, root: string, names: seq<string>)
      returns (free: seq<string>)
    requires Stats(fs, o, dev, g) && root in g.paths && SameByAnyPath(fs, o, dev, g)
    requires o.maxSearchDepth == -1 && Chain(fs, o, dev, root, 0, names)
    ensures Chain(fs, o, dev, root, 0, free) && LoopFree(fs, root, free, {})
    ensures fs.stat(PathOf(root, free)) == fs.stat(PathOf(root, names))
    decreases |names|
  {
    hide *;
    if names == [] {
      free := [];
      RootIsLoopFree(fs, o, g, dev, root);
    } else {
      var front, n := names[..|names| - 1], names[|names| - 1];
      ChainPrefix(fs, o, dev, root, names, |names| - 1);
      var free0 := LoopFreeSuffices(fs, o, g, dev, root, front);
      LastEntered(fs, o, dev, root, names);
      ChainStaysIn(fs, o, g, dev, root, free0);
      ChainStaysIn(fs, o, g, dev, root, front);
      free := OneMoreName(fs, o, g, dev, root, front, free0, n);
    }
  }

  lemma OneMoreName(fs: Fs, o: Opts, g: Graph, dev: nat, root: string, front: seq<string>, free0: seq<string>, n: string)
      returns (free: seq<string>)
    requires Stats(fs, o, dev, g) && SameByAnyPath(fs, o, dev, g) && o.maxSearchDepth == -1
    requires PathOf(root, free0) in g.paths && PathOf(root, front) in g.paths
    requires Chain(fs, o, dev, root, 0, free0) && LoopFree(fs, root, free0, {})
    requires fs.stat(PathOf(root, free0)) == fs.stat(PathOf(root, front))
    requires EntersDir(fs, o, dev, PathOf(root, front), |front|, n)
    ensures Chain(fs, o, dev, root, 0, free) && LoopFree(fs, root, free, {})
    ensures fs.stat(PathOf(root, free)) == fs.stat(Under(PathOf(root, front), n))
  {
    assert SameChild(fs, o, dev, PathOf(root, free0), PathOf(root, front), n);
    hide Chain, LoopFree, KindOf;
    ChainSnoc(fs, o, dev, root, free0, n);
    var all := free0 + [n];
    if i: nat :| i <= |free0| && fs.stat(PathOf(root, free0[..i])) == fs.stat(PathOf(root, all)) {
      free := free0[..i];
      ChainPrefix(fs, o, dev, root, free0, i);
      LoopFreePrefix(fs, root, free0, i);
    } else {
      free := all;
      LoopFreeSnoc(fs, root, free0, n);
    }
  }
}
