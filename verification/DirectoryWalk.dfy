/** The recursive walk over directories and its loop check (check_symloop_enter,
    check_symloop_leave and search_dir, search.c).  The file system is a parameter; directories are
    told apart by device and inode, so the graph of directories may have cycles. */
module DirectoryWalk {
  import opened Common

  type Key = (nat, nat)                    // st_dev, st_ino

  const ZERO: Key := (0, 0)

  /** What ag_scandir returns: the names that pass the filter, or why it fails. */
  datatype Listing = Names(names: seq<string>) | NotDirectory | Unreadable

  datatype Fs = Fs(stat: string -> Option<Key>, scan: string -> Listing, lstatDev: string -> Option<nat>,
                   isSymlink: string -> bool, isDirectory: string -> bool)

  datatype Opts = Opts(oneDev: bool, followSymlinks: bool, recurseDirs: bool, maxSearchDepth: int,
                       fileSearchRegex: Option<string -> bool>, matchFiles: bool)

  /** What happens to a file. */
  datatype Event = Enqueue(path: string) | PrintPath(path: string) | SearchNow(path: string)

  /** The events of a call, and the loop table after it. */
  datatype Walked = Walked(events: seq<Event>, symhash: set<Key>)

  datatype Kind = Skipped | File | Dir

  function Under(path: string, name: string): string { path + "/" + name }

  function KindOf(fs: Fs, o: Opts, dev: nat, full: string): Kind {
    if o.oneDev && fs.lstatDev(full) != Some(dev) then Skipped
    else if !o.followSymlinks && fs.isSymlink(full) then Skipped
    else if !fs.isDirectory(full) then File
    else if o.recurseDirs then Dir else Skipped
  }

  function FileEvents(o: Opts, full: string): seq<Event> {
    if o.fileSearchRegex.Some? && !o.fileSearchRegex.value(full) then []
    else if o.fileSearchRegex.Some? && o.matchFiles then [PrintPath(full)]
    else [Enqueue(full)]
  }

  predicate Deeper(o: Opts, depth: nat) { depth < o.maxSearchDepth || o.maxSearchDepth == -1 }

  /** `name` is listed in `path` and is a directory that the walk may enter. */
  ghost predicate Enterable(fs: Fs, o: Opts, dev: nat, path: string, name: string) {
    fs.scan(path).Names? && name in fs.scan(path).names && KindOf(fs, o, dev, Under(path, name)) == Dir
  }

  /** Paths of directories, and the finitely many keys those directories have. */
  datatype Graph = Graph(paths: iset<string>, keys: set<Key>)

  /** What can be entered from one of the paths is one of them. */
  ghost predicate Closed(fs: Fs, o: Opts, dev: nat, paths: iset<string>) {
    forall p: string, n: string | p in paths && Enterable(fs, o, dev, p, n) :: Under(p, n) in paths
  }

  /** Why the walk ends: the depth is limited, or each of its stat calls succeeds, with one of finitely many keys. */
  ghost predicate Bounded(fs: Fs, o: Opts, dev: nat, g: Graph) {
    && Closed(fs, o, dev, g.paths)
    && (o.maxSearchDepth == -1 ==> forall p: string | p in g.paths :: fs.stat(p).Some? && fs.stat(p).value in g.keys)
  }

  /** The listed names that are entered lead to paths of the graph. */
  ghost predicate LeadInto(fs: Fs, o: Opts, dev: nat, g: Graph, path: string, names: seq<string>) {
    forall n: string | n in names && KindOf(fs, o, dev, Under(path, n)) == Dir :: Under(path, n) in g.paths
  }

  function Rank(o: Opts, keys: set<Key>, depth: nat, symhash: set<Key>): nat {
    if o.maxSearchDepth == -1 then |keys - symhash|
    else if depth < o.maxSearchDepth then o.maxSearchDepth - depth else 0
  }

  lemma RankFalls(o: Opts, keys: set<Key>, depth: nat, hash0: set<Key>, k: Key, hash: set<Key>)
    requires o.maxSearchDepth == -1 ==> k in keys && k !in hash0 && hash0 + {k} <= hash
    requires Deeper(o, depth)
    ensures Rank(o, keys, depth + 1, hash) < Rank(o, keys, depth, hash0)
  {
    if o.maxSearchDepth == -1 {
      assert keys - hash <= keys - hash0 - {k};
      SubsetSize(keys - hash, keys - hash0 - {k});
    }
  }

  /** check_symloop_leave; the key of a failed stat is zero. */
  function Left(symhash: set<Key>, key: Key): set<Key> { if key == ZERO then symhash else symhash - {key} }

  // ----- what search_dir does -----

  ghost function Walk(fs: Fs, o: Opts, g: Graph, dev: nat, path: string, depth: nat, symhash: set<Key>): (r: Walked)
    requires Bounded(fs, o, dev, g) && path in g.paths
    ensures symhash <= r.symhash
    decreases Rank(o, g.keys, depth, symhash), 1, 0
  {
    match fs.stat(path)
    case None => WalkListing(fs, o, g, dev, path, depth, symhash, ZERO, symhash)
    case Some(key) =>
      if key in symhash then Walked([], symhash)
      else
        var r := WalkListing(fs, o, g, dev, path, depth, symhash, key, symhash + {key});
        Walked(r.events, Left(r.symhash, key))
  }

  /** The entries of one directory, entered with `key`. */
  ghost function WalkListing(fs: Fs, o: Opts, g: Graph, dev: nat, path: string, depth: nat,
                             hash0: set<Key>, key: Key, symhash: set<Key>): (r: Walked)
    requires Bounded(fs, o, dev, g) && path in g.paths && hash0 <= symhash
    requires o.maxSearchDepth == -1 ==> key in g.keys && key !in hash0 && hash0 + {key} <= symhash
    ensures symhash <= r.symhash
    decreases Rank(o, g.keys, depth, hash0), 0, 1
  {
    match fs.scan(path)
    case NotDirectory => Walked([SearchNow(path)], symhash)
    case Unreadable => Walked([], symhash)
    case Names(names) => WalkNames(fs, o, g, dev, path, depth, hash0, key, symhash, names)
  }

  ghost function WalkNames(fs: Fs, o: Opts, g: Graph, dev: nat, path: string, depth: nat,
                           hash0: set<Key>, key: Key, symhash: set<Key>, names: seq<string>): (r: Walked)
    requires Bounded(fs, o, dev, g) && LeadInto(fs, o, dev, g, path, names) && hash0 <= symhash
    requires o.maxSearchDepth == -1 ==> key in g.keys && key !in hash0 && hash0 + {key} <= symhash
    ensures symhash <= r.symhash
    decreases Rank(o, g.keys, depth, hash0), 0, 0, |names|
  {
    if names == [] then Walked([], symhash)
    else
      var before := WalkNames(fs, o, g, dev, path, depth, hash0, key, symhash, names[..|names| - 1]);
      var full := Under(path, names[|names| - 1]);
      match KindOf(fs, o, dev, full)
      case Skipped => before
      case File => Walked(before.events + FileEvents(o, full), before.symhash)
      case Dir =>
        if Deeper(o, depth) then
          RankFalls(o, g.keys, depth, hash0, key, before.symhash);
          var r := Walk(fs, o, g, dev, full, depth + 1, before.symhash);
          Walked(before.events + r.events, r.symhash)
        else before
  }

  // ----- the loop table -----

  /** No directory has the key zero. */
  ghost predicate NonZero(fs: Fs, g: Graph) { forall p: string | p in g.paths :: fs.stat(p) != Some(ZERO) }

  /** A call leaves the table as it found it, up to the key zero, which is never taken out. */
  lemma {:induction false} WalkRestores(fs: Fs, o: Opts, g: Graph, dev: nat, path: string, depth: nat, symhash: set<Key>)
    requires Bounded(fs, o, dev, g) && path in g.paths
    ensures Walk(fs, o, g, dev, path, depth, symhash).symhash <= symhash + {ZERO}
    ensures NonZero(fs, g) && ZERO !in symhash ==> Walk(fs, o, g, dev, path, depth, symhash).symhash == symhash
    decreases Rank(o, g.keys, depth, symhash), 1, 0
  {
    match fs.stat(path)
    case None => ListingRestores(fs, o, g, dev, path, depth, symhash, ZERO, symhash);
    case Some(key) =>
      if key !in symhash {
        ListingRestores(fs, o, g, dev, path, depth, symhash, key, symhash + {key});
      }
  }

  lemma {:induction false} ListingRestores(fs: Fs, o: Opts, g: Graph, dev: nat, path: string, depth: nat,
                                           hash0: set<Key>, key: Key, symhash: set<Key>)
    requires Bounded(fs, o, dev, g) && path in g.paths && hash0 <= symhash
    requires o.maxSearchDepth == -1 ==> key in g.keys && key !in hash0 && hash0 + {key} <= symhash
    ensures var r := WalkListing(fs, o, g, dev, path, depth, hash0, key, symhash);
      r.symhash <= symhash + {ZERO} && (NonZero(fs, g) && ZERO !in symhash ==> r.symhash == symhash)
    decreases Rank(o, g.keys, depth, hash0), 0, 1
  {
    match fs.scan(path)
    case Names(names) => NamesRestore(fs, o, g, dev, path, depth, hash0, key, symhash, names);
    case _ =>
  }

  lemma {:induction false} NamesRestore(fs: Fs, o: Opts, g: Graph, dev: nat, path: string, depth: nat,
                                        hash0: set<Key>, key: Key, symhash: set<Key>, names: seq<string>)
    requires Bounded(fs, o, dev, g) && LeadInto(fs, o, dev, g, path, names) && hash0 <= symhash
    requires o.maxSearchDepth == -1 ==> key in g.keys && key !in hash0 && hash0 + {key} <= symhash
    ensures var r := WalkNames(fs, o, g, dev, path, depth, hash0, key, symhash, names);
      r.symhash <= symhash + {ZERO} && (NonZero(fs, g) && ZERO !in symhash ==> r.symhash == symhash)
    decreases Rank(o, g.keys, depth, hash0), 0, 0, |names|
  {
    hide Closed, NonZero, Walk, WalkListing;
    if names != [] {
      var front, full := names[..|names| - 1], Under(path, names[|names| - 1]);
      NamesRestore(fs, o, g, dev, path, depth, hash0, key, symhash, front);
      if KindOf(fs, o, dev, full) == Dir && Deeper(o, depth) {
        var before := WalkNames(fs, o, g, dev, path, depth, hash0, key, symhash, front);
        RankFalls(o, g.keys, depth, hash0, key, before.symhash);
        WalkRestores(fs, o, g, dev, full, depth + 1, before.symhash);
      }
    }
  }

  // ----- the code -----

  datatype SymRes = SymloopError | SymloopOk | SymloopLoop

  class Walker {
    const fs: Fs
    const o: Opts
    var symhash: set<Key>
    var events: seq<Event>

    constructor (fs: Fs, o: Opts)
      ensures this.fs == fs && this.o == o && symhash == {} && events == []
    {
      this.fs, this.o, symhash, events := fs, o, {}, [];
    }

    method CheckSymloopEnter(path: string) returns (res: SymRes, outkey: Key)
      modifies this`symhash
      ensures match fs.stat(path)
        case None => res == SymloopError && outkey == ZERO && symhash == old(symhash)
        case Some(k) =>
          && outkey == k && symhash == old(symhash) + {k}
          && res == if k in old(symhash) then SymloopLoop else SymloopOk
    {
      outkey := ZERO;
      var st := fs.stat(path);
      if st.None? {
        return SymloopError, outkey;
      }
      outkey := st.value;
      if outkey in symhash {
        return SymloopLoop, outkey;
      }
      symhash := symhash + {outkey};
      res := SymloopOk;
    }

    method CheckSymloopLeave(dirkey: Key) returns (res: SymRes)
      modifies this`symhash
      ensures symhash == Left(old(symhash), dirkey)
      ensures res == SymloopOk <==> dirkey != ZERO && dirkey in old(symhash)
    {
      if dirkey.0 == 0 && dirkey.1 == 0 {
        return SymloopError;
      }
      if dirkey !in symhash {
        return SymloopError;
      }
      symhash := symhash - {dirkey};
      return SymloopOk;
    }

    /** search_dir. */
    method SearchDir(path: string, depth: nat, originalDev: nat, ghost g: Graph)
      requires Bounded(fs, o, originalDev, g) && path in g.paths
      modifies this
      ensures var r := Walk(fs, o, g, originalDev, path, depth, old(symhash));
        events == old(events) + r.events && symhash == r.symhash
      decreases Rank(o, g.keys, depth, symhash), 1, 0
    {
      ghost var hash0 := symhash;
      var symres, currentDirkey := CheckSymloopEnter(path);
      if symres == SymloopLoop {
        return;
      }
      var listing := fs.scan(path);
      match listing {
        case NotDirectory => events := events + [SearchNow(path)];
        case Unreadable =>
        case Names(names) => SearchNames(path, depth, originalDev, names, hash0, currentDirkey, g);
      }
      var res := CheckSymloopLeave(currentDirkey);
    }

    /** The loop over the entries of a directory. */
    method SearchNames(path: string, depth: nat, originalDev: nat, names: seq<string>,
                       ghost hash0: set<Key>, ghost key: Key, ghost g: Graph)
      requires Bounded(fs, o, originalDev, g) && LeadInto(fs, o, originalDev, g, path, names) && hash0 <= symhash
      requires o.maxSearchDepth == -1 ==> key in g.keys && key !in hash0 && hash0 + {key} <= symhash
      modifies this
      ensures var r := WalkNames(fs, o, g, originalDev, path, depth, hash0, key, old(symhash), names);
        events == old(events) + r.events && symhash == r.symhash
      decreases Rank(o, g.keys, depth, hash0), 0, 0
    {
      for i := 0 to |names|
        invariant var r := WalkNames(fs, o, g, originalDev, path, depth, hash0, key, old(symhash), names[..i]);
          events == old(events) + r.events && symhash == r.symhash
      {
        assert names[..i + 1][..i] == names[..i];
        var full := Under(path, names[i]);
        var kind := KindOf(fs, o, originalDev, full);
        if kind == File {
          AddFile(full);
        } else if kind == Dir {
          if Deeper(o, depth) {
            RankFalls(o, g.keys, depth, hash0, key, symhash);
            SearchDir(full, depth + 1, originalDev, g);
          }
        }
      }
      assert names[..|names|] == names;
    }

    /** A file is skipped, printed or put on the work queue. */
    method AddFile(full: string)
      modifies this`events
      ensures events == old(events) + FileEvents(o, full)
    {
      if o.fileSearchRegex.Some? {
        if !o.fileSearchRegex.value(full) {
          return;
        } else if o.matchFiles {
          events := events + [PrintPath(full)];
          return;
        }
      }
      events := events + [Enqueue(full)];
    }
  }
}
