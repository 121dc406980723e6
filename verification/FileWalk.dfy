/**
 * walkFiles in src/commands/api-tool-executor.ts: a depth-first walk over a directory graph that may contain
 * cycles of symbolic links, sharing one set of visited real directories between all its roots.
 */
module FileWalk {
  type Path = string

  datatype Kind = FileEntry | DirEntry | LinkEntry | OtherEntry
  datatype Entry = Entry(name: string, kind: Kind)

  /** Where a contained symbolic link leads. A link that is broken or leaves the sandbox is in no map. */
  datatype Target = ToDir(resolved: Path) | ToFile | ToOther

  /** `realpath` are the paths that resolve, `listing` the readable directories by real path. */
  datatype Disk = Disk(realpath: map<Path, Path>, listing: map<Path, seq<Entry>>, links: map<Path, Target>)

  const SKIP_DIR_NAMES: set<string> := {"node_modules", ".git"}

  function Join(dir: Path, name: string): Path {
    dir + "/" + name
  }

  /** What one entry asks for: nothing, a visit of a file, or a walk of a directory. */
  datatype Action = Skip | Visit(path: Path) | Descend(path: Path)

  /** An entry of `dir` leads to directory `b`: it is one, or it is a contained link to one, and it is not skipped. */
  predicate Leads(d: Disk, dir: Path, e: Entry, b: Path) {
    var path := dir + "/" + e.name;
    && e.name != "node_modules" && e.name != ".git"
    && (|| (e.kind == DirEntry && b == path)
        || (e.kind == LinkEntry && path in d.links && d.links[path] == ToDir(b)))
  }

  /** An entry of `dir` is to be visited: it is a file, or a contained link to one, and it is not skipped. */
  predicate NamesFile(d: Disk, dir: Path, e: Entry) {
    var path := dir + "/" + e.name;
    && e.name != "node_modules" && e.name != ".git"
    && (e.kind == FileEntry || (e.kind == LinkEntry && path in d.links && d.links[path] == ToFile))
  }

  function ActionOf(d: Disk, dir: Path, e: Entry): (action: Action)
    ensures forall b :: action == Descend(b) <==> Leads(d, dir, e, b)
    ensures action == Visit(dir + "/" + e.name) <==> NamesFile(d, dir, e)
    ensures action.Visit? ==> NamesFile(d, dir, e)
  {
    var path := Join(dir, e.name);
    if e.name in SKIP_DIR_NAMES then Skip else
    match e.kind
    case LinkEntry =>
      if path !in d.links then Skip else
      (match d.links[path] case ToDir(resolved) => Descend(resolved) case ToFile => Visit(path) case ToOther => Skip)
    case DirEntry => Descend(path)
    case FileEntry => Visit(path)
    case OtherEntry => Skip
  }

  /** The whole walk, as it is when `visit` never stops it. `expanded` are the directories it listed, in order. */
  datatype Walked = Walked(visited: set<Path>, expanded: seq<Path>, files: seq<Path>)

  function Then(a: Walked, b: Walked): Walked {
    Walked(b.visited, a.expanded + b.expanded, a.files + b.files)
  }

  /** The directories still to be discovered: the measure of the walk. */
  function Unseen(d: Disk, visited: set<Path>): set<Path> {
    d.realpath.Values - visited
  }

  function Walk(d: Disk, dir: Path, visited: set<Path>): (w: Walked)
    ensures visited <= w.visited
    decreases Unseen(d, visited), 0, 0
  {
    if dir !in d.realpath || d.realpath[dir] in visited then Walked(visited, [], []) else
    var realDir := d.realpath[dir];
    assert realDir in Unseen(d, visited) && realDir !in Unseen(d, visited + {realDir});
    var here := Walked(visited + {realDir}, [realDir], []);
    if realDir !in d.listing then here
    else Then(here, WalkEntries(d, dir, d.listing[realDir], visited + {realDir}))
  }

  function WalkEntries(d: Disk, dir: Path, entries: seq<Entry>, visited: set<Path>): (w: Walked)
    ensures visited <= w.visited
    decreases Unseen(d, visited), |entries|, 0
  {
    if entries == [] then Walked(visited, [], []) else
    var first := One(d, dir, entries[0], visited);
    Then(first, WalkEntries(d, dir, entries[1..], first.visited))
  }

  /** One entry of a listing. */
  function One(d: Disk, dir: Path, e: Entry, visited: set<Path>): (w: Walked)
    ensures visited <= w.visited
    decreases Unseen(d, visited), 0, 1
  {
    match ActionOf(d, dir, e)
    case Skip => Walked(visited, [], [])
    case Visit(path) => Walked(visited, [], [path])
    case Descend(path) => Walk(d, path, visited)
  }

  function WalkRoots(d: Disk, roots: seq<Path>, visited: set<Path>): (w: Walked)
    ensures visited <= w.visited
  {
    if roots == [] then Walked(visited, [], []) else
    var first := Walk(d, roots[0], visited);
    Then(first, WalkRoots(d, roots[1..], first.visited))
  }

  // ------------------------------------------------- each directory once

  ghost predicate Once(visited: set<Path>, w: Walked) {
    && w.visited == visited + (set p <- w.expanded)
    && (forall p :: p in w.expanded ==> p !in visited)
    && (forall i, j :: 0 <= i < j < |w.expanded| ==> w.expanded[i] != w.expanded[j])
  }

  lemma ThenOnce(visited: set<Path>, a: Walked, b: Walked)
    requires Once(visited, a) && Once(a.visited, b)
    ensures Once(visited, Then(a, b))
  {
    var w := Then(a, b);
    forall i, j | 0 <= i < j < |w.expanded| ensures w.expanded[i] != w.expanded[j] {
      if i < |a.expanded| <= j { assert w.expanded[i] in a.expanded && w.expanded[j] in b.expanded; }
    }
  }

  lemma {:induction false} WalkOnce(d: Disk, dir: Path, visited: set<Path>)
    ensures Once(visited, Walk(d, dir, visited))
    decreases Unseen(d, visited), 0
  {
    if dir in d.realpath && d.realpath[dir] !in visited {
      var realDir := d.realpath[dir];
      assert realDir in Unseen(d, visited) && realDir !in Unseen(d, visited + {realDir});
      var here := Walked(visited + {realDir}, [realDir], []);
      assert Once(visited, here);
      if realDir in d.listing {
        WalkEntriesOnce(d, dir, d.listing[realDir], visited + {realDir});
        ThenOnce(visited, here, WalkEntries(d, dir, d.listing[realDir], visited + {realDir}));
      }
    }
  }

  lemma {:induction false} WalkEntriesOnce(d: Disk, dir: Path, entries: seq<Entry>, visited: set<Path>)
    ensures Once(visited, WalkEntries(d, dir, entries, visited))
    decreases Unseen(d, visited), |entries|
  {
    if entries != [] {
      var action := ActionOf(d, dir, entries[0]);
      if action.Descend? {
        WalkOnce(d, action.path, visited);
        var first := Walk(d, action.path, visited);
        WalkEntriesOnce(d, dir, entries[1..], first.visited);
        ThenOnce(visited, first, WalkEntries(d, dir, entries[1..], first.visited));
      } else {
        WalkEntriesOnce(d, dir, entries[1..], visited);
      }
    }
  }

  /** Across all roots of one call, every real directory is expanded at most once. */
  lemma {:induction false} RootsExpandOnce(d: Disk, roots: seq<Path>, visited: set<Path>)
    ensures Once(visited, WalkRoots(d, roots, visited))
  {
    if roots != [] {
      var first := Walk(d, roots[0], visited);
      WalkOnce(d, roots[0], visited);
      RootsExpandOnce(d, roots[1..], first.visited);
      ThenOnce(visited, first, WalkRoots(d, roots[1..], first.visited));
    }
  }

  // ----------------------------------------------- exactly the reachable ones

  /**
   * Paths handed to the walk are already resolved: the roots are, link targets are, and a plain entry of a real
   * directory is.
   */
  ghost predicate Resolved(d: Disk, p: Path) {
    p in d.realpath ==> d.realpath[p] == p
  }

  ghost predicate Canonical(d: Disk) {
    forall dir, e, b :: dir in d.listing && e in d.listing[dir] && Leads(d, dir, e, b) ==> Resolved(d, b)
  }

  /** Directory `b` is an entry of `a` that is not skipped and, when it is a link, stays contained. */
  ghost predicate Edge(d: Disk, a: Path, b: Path) {
    a in d.listing && b in d.realpath && exists e :: e in d.listing[a] && Leads(d, a, e, b)
  }

  ghost predicate Route(d: Disk, p: seq<Path>) {
    p != [] && p[0] in d.realpath && forall i :: 0 <= i < |p| - 1 ==> Edge(d, p[i], p[i + 1])
  }

  ghost predicate Reaches(d: Disk, a: Path, b: Path) {
    exists p :: Route(d, p) && p[0] == a && p[|p| - 1] == b
  }

  lemma ReachesSelf(d: Disk, a: Path)
    requires a in d.realpath
    ensures Reaches(d, a, a)
  {
    assert Route(d, [a]);
  }

  lemma ReachesThrough(d: Disk, a: Path, b: Path, c: Path)
    requires a in d.realpath && Edge(d, a, b) && Reaches(d, b, c)
    ensures Reaches(d, a, c)
  {
    var p :| Route(d, p) && p[0] == b && p[|p| - 1] == c;
    var q := [a] + p;
    assert Route(d, q) by {
      forall i | 0 <= i < |q| - 1 ensures Edge(d, q[i], q[i + 1]) {
        if i > 0 { assert Edge(d, p[i - 1], p[i]); }
      }
    }
  }

  /** Every newly visited directory has all its successors visited. */
  ghost predicate Closed(d: Disk, visited: set<Path>, w: Walked) {
    forall a, b :: a in w.visited && a !in visited && Edge(d, a, b) ==> b in w.visited
  }

  lemma {:induction false} WalkCloses(d: Disk, dir: Path, visited: set<Path>)
    requires Canonical(d) && Resolved(d, dir)
    ensures var w := Walk(d, dir, visited);
            Closed(d, visited, w) && (dir in d.realpath ==> dir in w.visited)
    decreases Unseen(d, visited), 0
  {
    if dir in d.realpath && dir !in visited && dir in d.listing {
      assert dir in Unseen(d, visited) && dir !in Unseen(d, visited + {dir});
      WalkEntriesCloses(d, dir, d.listing[dir], visited + {dir});
    }
  }

  lemma {:induction false} WalkEntriesCloses(d: Disk, dir: Path, entries: seq<Entry>, visited: set<Path>)
    requires Canonical(d) && dir in d.listing && forall e :: e in entries ==> e in d.listing[dir]
    ensures var w := WalkEntries(d, dir, entries, visited);
            && Closed(d, visited, w)
            && (forall e, b :: e in entries && Leads(d, dir, e, b) && b in d.realpath ==> b in w.visited)
    decreases Unseen(d, visited), |entries|
  {
    if entries != [] {
      var action := ActionOf(d, dir, entries[0]);
      assert entries[0] in entries;
      var first := if action.Descend? then Walk(d, action.path, visited).visited else visited;
      if action.Descend? { WalkCloses(d, action.path, visited); }
      WalkEntriesCloses(d, dir, entries[1..], first);
      assert entries == [entries[0]] + entries[1..];
    }
  }

  /** Everything newly visited was reached from where the walk began. */
  lemma {:induction false} WalkReaches(d: Disk, dir: Path, visited: set<Path>, a: Path)
    requires Canonical(d) && Resolved(d, dir) && a in Walk(d, dir, visited).visited && a !in visited
    ensures Reaches(d, dir, a)
    decreases Unseen(d, visited), 0
  {
    ReachesSelf(d, dir);
    if a != dir {
      assert dir in Unseen(d, visited) && dir !in Unseen(d, visited + {dir});
      WalkEntriesReaches(d, dir, d.listing[dir], visited + {dir}, a);
    }
  }

  lemma {:induction false} WalkEntriesReaches(d: Disk, dir: Path, entries: seq<Entry>, visited: set<Path>, a: Path)
    requires Canonical(d) && dir in d.listing && dir in d.realpath && forall e :: e in entries ==> e in d.listing[dir]
    requires a in WalkEntries(d, dir, entries, visited).visited && a !in visited
    ensures Reaches(d, dir, a)
    decreases Unseen(d, visited), |entries|
  {
    var action := ActionOf(d, dir, entries[0]);
    assert entries[0] in entries;
    var first := if action.Descend? then Walk(d, action.path, visited).visited else visited;
    if a in first {
      WalkReaches(d, action.path, visited, a);
      assert Edge(d, dir, action.path);
      ReachesThrough(d, dir, action.path, a);
    } else {
      WalkEntriesReaches(d, dir, entries[1..], first, a);
    }
  }

  lemma {:induction false} RootsClose(d: Disk, roots: seq<Path>, visited: set<Path>)
    requires Canonical(d) && forall r :: r in roots ==> Resolved(d, r)
    ensures var w := WalkRoots(d, roots, visited);
            Closed(d, visited, w) && forall r :: r in roots && r in d.realpath ==> r in w.visited
  {
    if roots != [] {
      assert roots[0] in roots && forall r :: r in roots[1..] ==> r in roots;
      assert roots == [roots[0]] + roots[1..];
      WalkCloses(d, roots[0], visited);
      RootsClose(d, roots[1..], Walk(d, roots[0], visited).visited);
    }
  }

  lemma {:induction false} RootsReach(d: Disk, roots: seq<Path>, visited: set<Path>, a: Path) returns (r: Path)
    requires Canonical(d) && (forall q :: q in roots ==> Resolved(d, q))
    requires a in WalkRoots(d, roots, visited).visited && a !in visited
    ensures r in roots && Reaches(d, r, a)
  {
    var first := Walk(d, roots[0], visited).visited;
    assert roots[0] in roots && forall q :: q in roots[1..] ==> q in roots;
    if a in first {
      WalkReaches(d, roots[0], visited, a);
      r := roots[0];
    } else {
      r := RootsReach(d, roots[1..], first, a);
    }
  }

  lemma {:induction false} RouteStaysIn(d: Disk, p: seq<Path>, seen: set<Path>)
    requires Route(d, p) && p[0] in seen && forall a, b :: a in seen && Edge(d, a, b) ==> b in seen
    ensures p[|p| - 1] in seen
  {
    if |p| > 1 {
      assert Edge(d, p[0], p[1]);
      assert Route(d, p[1..]) by {
        forall i | 0 <= i < |p| - 2 ensures Edge(d, p[1..][i], p[1..][i + 1]) {
          assert Edge(d, p[i + 1], p[i + 2]);
        }
      }
      RouteStaysIn(d, p[1..], seen);
    }
  }

  /**
   * On any finite disk, whatever cycles its links form, the walk over the roots of one call visits exactly the
   * directories reachable from a root through entries that are not skipped and stay contained.
   */
  lemma {:induction false} VisitsExactlyTheReachable(d: Disk, roots: seq<Path>, a: Path)
    requires Canonical(d) && forall r :: r in roots ==> Resolved(d, r)
    ensures a in WalkRoots(d, roots, {}).visited <==> exists r :: r in roots && Reaches(d, r, a)
  {
    var w := WalkRoots(d, roots, {});
    if a in w.visited {
      var r := RootsReach(d, roots, {}, a);
    }
    if exists r :: r in roots && Reaches(d, r, a) {
      var r :| r in roots && Reaches(d, r, a);
      var p :| Route(d, p) && p[0] == r && p[|p| - 1] == a;
      RootsClose(d, roots, {});
      RouteStaysIn(d, p, w.visited);
    }
  }

  // -------------------------------------------------------- each file once

  /** The files a directory's entries name, in order. */
  function FilesOf(d: Disk, dir: Path, entries: seq<Entry>): seq<Path> {
    if entries == [] then [] else
    (if NamesFile(d, dir, entries[0]) then [dir + "/" + entries[0].name] else []) + FilesOf(d, dir, entries[1..])
  }

  function FilesUnder(d: Disk, dirs: seq<Path>): multiset<Path> {
    if dirs == [] then multiset{} else
    (if dirs[0] in d.listing then multiset(FilesOf(d, dirs[0], d.listing[dirs[0]])) else multiset{})
      + FilesUnder(d, dirs[1..])
  }

  lemma {:induction false} FilesUnderConcat(d: Disk, a: seq<Path>, b: seq<Path>)
    ensures FilesUnder(d, a + b) == FilesUnder(d, a) + FilesUnder(d, b)
  {
    if a == [] {
      assert a + b == b;
    } else {
      assert (a + b)[1..] == a[1..] + b;
      FilesUnderConcat(d, a[1..], b);
    }
  }

  lemma {:induction false} WalkFiles(d: Disk, dir: Path, visited: set<Path>)
    requires Canonical(d) && Resolved(d, dir)
    ensures multiset(Walk(d, dir, visited).files) == FilesUnder(d, Walk(d, dir, visited).expanded)
    decreases Unseen(d, visited), 0
  {
    if dir in d.realpath && dir !in visited && dir in d.listing {
      assert dir in Unseen(d, visited) && dir !in Unseen(d, visited + {dir});
      WalkEntriesFiles(d, dir, d.listing[dir], visited + {dir});
      var inside := WalkEntries(d, dir, d.listing[dir], visited + {dir});
      assert Walk(d, dir, visited).files == inside.files;
      assert ([dir] + inside.expanded)[1..] == inside.expanded;
    }
  }

  lemma {:induction false} WalkEntriesFiles(d: Disk, dir: Path, entries: seq<Entry>, visited: set<Path>)
    requires Canonical(d) && dir in d.listing && forall e :: e in entries ==> e in d.listing[dir]
    ensures var w := WalkEntries(d, dir, entries, visited);
            multiset(w.files) == multiset(FilesOf(d, dir, entries)) + FilesUnder(d, w.expanded)
    decreases Unseen(d, visited), |entries|
  {
    if entries != [] {
      var action := ActionOf(d, dir, entries[0]);
      assert entries[0] in entries;
      var first := One(d, dir, entries[0], visited);
      if action.Descend? { WalkFiles(d, action.path, visited); }
      WalkEntriesFiles(d, dir, entries[1..], first.visited);
      var rest := WalkEntries(d, dir, entries[1..], first.visited);
      var own := if action.Visit? then [action.path] else [];
      FilesAddUp(d, first, rest, own, FilesOf(d, dir, entries[1..]));
    }
  }

  lemma FilesAddUp(d: Disk, first: Walked, rest: Walked, own: seq<Path>, others: seq<Path>)
    requires multiset(first.files) == multiset(own) + FilesUnder(d, first.expanded)
    requires multiset(rest.files) == multiset(others) + FilesUnder(d, rest.expanded)
    ensures multiset(Then(first, rest).files) == multiset(own + others) + FilesUnder(d, Then(first, rest).expanded)
  {
    FilesUnderConcat(d, first.expanded, rest.expanded);
  }

  /** Every file entry of every directory visited is handed to `visit`, once for each directory expanded. */
  lemma {:induction false} RootsFiles(d: Disk, roots: seq<Path>, visited: set<Path>)
    requires Canonical(d) && forall r :: r in roots ==> Resolved(d, r)
    ensures var w := WalkRoots(d, roots, visited);
            multiset(w.files) == FilesUnder(d, w.expanded)
  {
    if roots != [] {
      var first := Walk(d, roots[0], visited);
      assert roots[0] in roots && forall r :: r in roots[1..] ==> r in roots;
      WalkFiles(d, roots[0], visited);
      RootsFiles(d, roots[1..], first.visited);
      FilesUnderConcat(d, first.expanded, WalkRoots(d, roots[1..], first.visited).expanded);
    }
  }

  // ------------------------------------------------------ stopping early

  /** Hand `files` to `visit` one after the other, until it says stop; `stop` sees the whole history. */
  function Fed(stop: seq<Path> -> bool, history: seq<Path>, files: seq<Path>): (seq<Path>, bool)
    decreases |files|
  {
    if files == [] then (history, false)
    else if stop(history + [files[0]]) then (history + [files[0]], true)
    else Fed(stop, history + [files[0]], files[1..])
  }

  lemma {:induction false} FedConcat(stop: seq<Path> -> bool, history: seq<Path>, a: seq<Path>, b: seq<Path>)
    ensures var (h, stopped) := Fed(stop, history, a);
            Fed(stop, history, a + b) == if stopped then (h, true) else Fed(stop, h, b)
    decreases |a|
  {
    if a == [] {
      assert a + b == b;
    } else {
      assert (a + b)[1..] == a[1..] + b;
      FedConcat(stop, history + [a[0]], a[1..], b);
    }
  }

  /** After `done` without a stop, `first` decides: either it stops the whole, or feeding goes on behind it. */
  lemma FedNext(stop: seq<Path> -> bool, history: seq<Path>, done: seq<Path>, first: seq<Path>, rest: seq<Path>)
    requires !Fed(stop, history, done).1
    ensures var (h, stopped) := Fed(stop, Fed(stop, history, done).0, first);
            && Fed(stop, history, done + first) == (h, stopped)
            && (stopped ==> Fed(stop, history, done + (first + rest)) == (h, true))
    ensures done + (first + rest) == (done + first) + rest
  {
    assert done + (first + rest) == (done + first) + rest;
    FedConcat(stop, history, done, first);
    FedConcat(stop, history, done + first, rest);
  }
}
