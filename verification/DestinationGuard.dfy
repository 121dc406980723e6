/**
 * The path checks of src/shared-file-mounts.ts: where a file would really be written once links are resolved,
 * and whether that place is allowed. A path is the list of its segments, in normal form.
 */
module DestinationGuard {
  import opened Options

  type Segment = string
  type Path = seq<Segment>

  /** What lstat says about the destination itself. */
  datatype Entry = Entry(symbolicLink: bool, links: nat)

  /**
   * `realpath` maps every path that exists, after following links, to its real path. Where a link leads to one of its
   * own ancestors, these paths are infinitely many.
   */
  datatype Tree = Tree(realpath: imap<Path, Path>, entries: map<Path, Entry>)

  const ALLOWED_DESTINATION_PREFIXES: seq<Path> :=
    [["root"], ["home"], ["data"], ["opt"], ["srv"], ["tmp"], ["usr", "local", "share"]]

  const FORBIDDEN_SEGMENT: Segment := ".ssh"

  /** `p` lies strictly below `dir`. */
  predicate Below(p: Path, dir: Path) {
    |dir| < |p| && p[..|dir|] == dir
  }

  function ResolveConfigDir(t: Tree, configDir: Path): Path {
    if configDir in t.realpath then t.realpath[configDir] else configDir
  }

  predicate InConfigDir(t: Tree, p: Path, configDir: Path) {
    p == ResolveConfigDir(t, configDir) || Below(p, ResolveConfigDir(t, configDir))
  }

  predicate IsSafeMountDestination(t: Tree, p: Path, configDir: Path) {
    && (exists dir :: dir in ALLOWED_DESTINATION_PREFIXES && Below(p, dir))
    && FORBIDDEN_SEGMENT !in p && !InConfigDir(t, p, configDir)
  }

  /** An allowed root, under its own name or under its real one. */
  predicate InAllowedRoot(t: Tree, p: Path) {
    exists dir ::
        dir in ALLOWED_DESTINATION_PREFIXES && (Below(p, dir) || (dir in t.realpath && Below(p, t.realpath[dir])))
  }

  predicate IsSafeResolvedDestination(t: Tree, p: Path, configDir: Path) {
    InAllowedRoot(t, p) && FORBIDDEN_SEGMENT !in p && !InConfigDir(t, p, configDir)
  }

  /** Where a path leads: the deepest ancestor that exists is resolved, and the rest is created below it. */
  function Leads(t: Tree, p: Path): Option<Path> {
    if p in t.realpath then Some(t.realpath[p])
    else if p == [] then None
    else match Leads(t, p[..|p| - 1])
      case Some(dir) => Some(dir + [p[|p| - 1]])
      case None => None
  }

  /** Where a file renamed to `p` really ends up: the last segment is replaced, not followed. */
  function Lands(t: Tree, p: Path): Option<Path>
    requires p != []
  {
    match Leads(t, p[..|p| - 1])
    case Some(dir) => Some(dir + [p[|p| - 1]])
    case None => None
  }

  predicate LinkItself(t: Tree, p: Path) {
    p in t.entries && (t.entries[p].symbolicLink || t.entries[p].links > 1)
  }

  /** The destination is no link itself, and lands where it says or at a place that is allowed. */
  predicate Passes(t: Tree, p: Path, configDir: Path)
    requires p != []
  {
    var place := Lands(t, p);
    !LinkItself(t, p) && (place.Some? ==> place.value == p || IsSafeResolvedDestination(t, place.value, configDir))
  }

  /** The climb of the source from the parent directory to the deepest ancestor that exists. */
  method FindUnsafeSymlink(t: Tree, destPath: Path, configDir: Path) returns (found: bool)
    requires destPath != []
    ensures !found <==> Passes(t, destPath, configDir)
  {
    if destPath in t.entries {
      var stat := t.entries[destPath];
      if stat.symbolicLink { return true; }
      if stat.links > 1 { return true; }
    }
    var n := |destPath| - 1;
    var current, remaining := destPath[..n], [destPath[n]];
    ghost var goal := Lands(t, destPath);
    while true
      invariant goal == match Leads(t, current) case Some(dir) => Some(dir + remaining) case None => None
      decreases |current|
    {
      if current in t.realpath {
        var effective := t.realpath[current] + remaining;
        return effective != destPath && !IsSafeResolvedDestination(t, effective, configDir);
      }
      if current == [] { return false; }
      var k := |current| - 1;
      ClimbStep(t, current, remaining);
      current, remaining := current[..k], [current[k]] + remaining;
    }
  }

  lemma ClimbStep(t: Tree, p: Path, rest: Path)
    requires p != [] && p !in t.realpath
    ensures (match Leads(t, p) case Some(dir) => Some(dir + rest) case None => None)
         == (match Leads(t, p[..|p| - 1]) case Some(dir) => Some(dir + ([p[|p| - 1]] + rest)) case None => None)
  {
    match Leads(t, p[..|p| - 1])
    case Some(dir) => assert (dir + [p[|p| - 1]]) + rest == dir + ([p[|p| - 1]] + rest);
    case None =>
  }

  lemma {:induction false} PlainPathsLead(t: Tree, p: Path)
    requires [] in t.realpath && forall q :: q in t.realpath ==> t.realpath[q] == q
    ensures Leads(t, p) == Some(p)
  {
    if p !in t.realpath {
      PlainPathsLead(t, p[..|p| - 1]);
      assert p == p[..|p| - 1] + [p[|p| - 1]];
    }
  }

  /** Where no link is on the way, nothing is refused but a destination that is a link itself. */
  lemma PlainPathsPass(t: Tree, p: Path, configDir: Path)
    requires p != [] && [] in t.realpath && forall q :: q in t.realpath ==> t.realpath[q] == q
    ensures Lands(t, p) == Some(p)
    ensures Passes(t, p, configDir) <==> !LinkItself(t, p)
  {
    PlainPathsLead(t, p[..|p| - 1]);
    assert p == p[..|p| - 1] + [p[|p| - 1]];
  }

  // -------------------------------------------- where the system really writes

  datatype Node = Directory | RegularFile | Link(target: Path)

  /** The tree on disk, by real path; the root is a directory without an entry. Targets are absolute. */
  type Disk = map<Path, Node>

  predicate IsDirectory(d: Disk, p: Path) {
    p == [] || (p in d && d[p].Directory?)
  }

  /** Name resolution of the system, segment by segment, following at most `fuel` links. */
  function Resolve(d: Disk, at: Path, todo: Path, fuel: nat): Option<Path>
    decreases fuel, |todo|
  {
    if todo == [] then Some(at)
    else if !IsDirectory(d, at) || at + [todo[0]] !in d then None
    else match d[at + [todo[0]]]
      case Link(target) => if fuel == 0 then None else Resolve(d, [], target + todo[1..], fuel - 1)
      case _ => Resolve(d, at + [todo[0]], todo[1..], fuel)
  }

  ghost predicate Resolves(d: Disk, at: Path, todo: Path, r: Path) {
    exists fuel: nat :: Resolve(d, at, todo, fuel) == Some(r)
  }

  /**
   * The directory that `mkdir -p` makes, or finds, for a path: links on the way are followed where they lead to a
   * directory, and a link that leads nowhere is an error.
   */
  ghost predicate Makes(d: Disk, at: Path, todo: Path, q: Path)
    decreases |todo|
  {
    if todo == [] then q == at
    else if at + [todo[0]] !in d then q == at + todo
    else match d[at + [todo[0]]]
      case Directory => Makes(d, at + [todo[0]], todo[1..], q)
      case RegularFile => false
      case Link(target) => exists r :: Resolves(d, [], target, r) && IsDirectory(d, r) && Makes(d, r, todo[1..], q)
  }

  /** existsSync and realpathSync answer as the system resolves names. */
  ghost predicate Faithful(t: Tree, d: Disk) {
    forall p, r :: Resolves(d, [], p, r) <==> p in t.realpath && t.realpath[p] == r
  }

  /** Every disk has such answers, whatever cycles its links form. */
  lemma FaithfulTree(d: Disk)
    ensures exists t: Tree :: Faithful(t, d)
  {
    ghost var realpath := imap p: Path | (exists r :: Resolves(d, [], p, r)) :: Real(d, p);
    var t := Tree(realpath, map[]);
    forall p, r ensures Resolves(d, [], p, r) <==> p in t.realpath && t.realpath[p] == r {
      if Resolves(d, [], p, r) { ResolvesOnce(d, [], p, r, Real(d, p)); }
    }
    assert Faithful(t, d);
  }

  ghost function Real(d: Disk, p: Path): (r: Path)
    requires exists r :: Resolves(d, [], p, r)
    ensures Resolves(d, [], p, r)
  {
    var r :| Resolves(d, [], p, r);
    r
  }

  /** For example, a link to its own parent: there is something behind every repetition of it. */
  lemma {:induction false} LoopResolves(n: nat)
    ensures var d: Disk := map[["data"] := Directory, ["data", "x"] := Link(["data"])];
            Resolve(d, [], ["data"] + Repeated("x", n), n) == Some(["data"])
  {
    var d: Disk := map[["data"] := Directory, ["data", "x"] := Link(["data"])];
    if n == 0 {
      assert ["data"][1..] == [] && [] + ["data"] == ["data"];
    } else {
      var p := ["data"] + Repeated("x", n);
      assert p[1..] == ["x"] + Repeated("x", n - 1) && p[1..][1..] == Repeated("x", n - 1);
      assert [] + ["data"] == ["data"] && ["data"] + ["x"] == ["data", "x"];
      LoopResolves(n - 1);
    }
  }

  function Repeated(x: Segment, n: nat): Path {
    if n == 0 then [] else [x] + Repeated(x, n - 1)
  }

  lemma {:induction false} MoreFuel(d: Disk, at: Path, todo: Path, fuel: nat, more: nat)
    requires Resolve(d, at, todo, fuel).Some? && fuel <= more
    ensures Resolve(d, at, todo, more) == Resolve(d, at, todo, fuel)
    decreases fuel, |todo|
  {
    if todo != [] {
      match d[at + [todo[0]]]
      case Link(target) => MoreFuel(d, [], target + todo[1..], fuel - 1, more - 1);
      case _ => MoreFuel(d, at + [todo[0]], todo[1..], fuel, more);
    }
  }

  lemma ResolvesOnce(d: Disk, at: Path, todo: Path, r: Path, q: Path)
    requires Resolves(d, at, todo, r) && Resolves(d, at, todo, q)
    ensures r == q
  {
    var f: nat :| Resolve(d, at, todo, f) == Some(r);
    var g: nat :| Resolve(d, at, todo, g) == Some(q);
    if f <= g { MoreFuel(d, at, todo, f, g); } else { MoreFuel(d, at, todo, g, f); }
  }

  /** To resolve a path is to resolve its front and then the rest from there. */
  lemma {:induction false} ResolveConcat(d: Disk, at: Path, a: Path, b: Path, f: nat, g: nat)
    requires Resolve(d, at, a, f).Some?
    ensures Resolve(d, at, a + b, f + g).Some? <== Resolve(d, Resolve(d, at, a, f).value, b, g).Some?
    ensures Resolve(d, Resolve(d, at, a, f).value, b, g).Some? ==>
              Resolve(d, at, a + b, f + g) == Resolve(d, Resolve(d, at, a, f).value, b, g)
    decreases f, |a|
  {
    if a == [] {
      assert a + b == b;
      if Resolve(d, at, b, g).Some? { MoreFuel(d, at, b, g, f + g); }
    } else {
      assert (a + b)[1..] == a[1..] + b && (a + b)[0] == a[0];
      match d[at + [a[0]]]
      case Link(target) =>
        assert target + (a[1..] + b) == (target + a[1..]) + b;
        ResolveConcat(d, [], target + a[1..], b, f - 1, g);
      case _ => ResolveConcat(d, at + [a[0]], a[1..], b, f, g);
    }
  }

  lemma {:induction false} ResolveFront(d: Disk, at: Path, a: Path, b: Path, f: nat)
    requires Resolve(d, at, a + b, f).Some?
    ensures Resolve(d, at, a, f).Some?
    ensures exists g: nat :: Resolve(d, Resolve(d, at, a, f).value, b, g).Some?
    decreases f, |a|
  {
    if a == [] {
      assert a + b == b;
      assert Resolve(d, at, b, f).Some?;
    } else {
      assert (a + b)[1..] == a[1..] + b && (a + b)[0] == a[0];
      match d[at + [a[0]]]
      case Link(target) =>
        assert target + (a[1..] + b) == (target + a[1..]) + b;
        ResolveFront(d, [], target + a[1..], b, f - 1);
      case _ => ResolveFront(d, at + [a[0]], a[1..], b, f);
    }
  }

  /** One segment more, which exists. */
  lemma StepsInto(d: Disk, a: Path, at: Path, x: Segment, r: Path)
    requires Resolves(d, [], a, at) && Resolves(d, at, [x], r)
    ensures Resolves(d, [], a + [x], r)
  {
    var f: nat :| Resolve(d, [], a, f) == Some(at);
    var g: nat :| Resolve(d, at, [x], g) == Some(r);
    ResolveConcat(d, [], a, [x], f, g);
  }

  /** Below a name that is not there, nothing resolves. */
  lemma NothingBelow(d: Disk, a: Path, at: Path, x: Segment, rest: Path, r: Path)
    requires Resolves(d, [], a, at) && at + [x] !in d
    ensures !Resolves(d, [], a + ([x] + rest), r)
  {
    assert ([x] + rest)[0] == x;
    forall f: nat ensures Resolve(d, [], a + ([x] + rest), f) != Some(r) {
      if Resolve(d, [], a + ([x] + rest), f).Some? {
        ResolveFront(d, [], a, [x] + rest, f);
        ResolvesOnce(d, [], a, at, Resolve(d, [], a, f).value);
      }
    }
  }

  lemma NotThere(t: Tree, d: Disk, p: Path)
    requires Faithful(t, d) && forall r :: !Resolves(d, [], p, r)
    ensures p !in t.realpath
  {
    var r := if p in t.realpath then t.realpath[p] else p;
    assert !Resolves(d, [], p, r);
  }

  /** The climb comes back to the deepest directory that is there. */
  lemma {:induction false} LeadsFrom(t: Tree, d: Disk, a: Path, at: Path, x: Segment, rest: Path)
    requires Faithful(t, d) && Resolves(d, [], a, at) && at + [x] !in d
    ensures Leads(t, a + ([x] + rest)) == Some(at + ([x] + rest))
    decreases |rest|
  {
    var p := a + ([x] + rest);
    forall r ensures !Resolves(d, [], p, r) { NothingBelow(d, a, at, x, rest, r); }
    NotThere(t, d, p);
    if rest == [] {
      assert p[..|p| - 1] == a && [x] + rest == [x];
    } else {
      var k := |rest| - 1;
      assert p[..|p| - 1] == a + ([x] + rest[..k]);
      LeadsFrom(t, d, a, at, x, rest[..k]);
      assert (at + ([x] + rest[..k])) + [rest[k]] == at + ([x] + rest);
    }
  }

  /** Where `mkdir -p` succeeds, its directory is the one the climb computes. */
  lemma {:induction false} MakesWhereItLeads(t: Tree, d: Disk, a: Path, at: Path, todo: Path, q: Path)
    requires Faithful(t, d) && Resolves(d, [], a, at) && IsDirectory(d, at) && Makes(d, at, todo, q)
    ensures Leads(t, a + todo) == Some(q)
    decreases |todo|
  {
    if todo == [] {
      assert a + todo == a;
    } else {
      var x, rest := todo[0], todo[1..];
      assert todo == [x] + rest;
      if at + [x] !in d {
        LeadsFrom(t, d, a, at, x, rest);
      } else {
        assert (a + [x]) + rest == a + todo && [x][1..] == [];
        match d[at + [x]]
        case Directory =>
          assert Resolve(d, at, [x], 0) == Some(at + [x]);
          StepsInto(d, a, at, x, at + [x]);
          MakesWhereItLeads(t, d, a + [x], at + [x], rest, q);
        case Link(target) =>
          var r :| Resolves(d, [], target, r) && IsDirectory(d, r) && Makes(d, r, rest, q);
          var f: nat :| Resolve(d, [], target, f) == Some(r);
          assert target + [] == target && Resolve(d, at, [x], f + 1) == Some(r);
          StepsInto(d, a, at, x, r);
          MakesWhereItLeads(t, d, a + [x], r, rest, q);
      }
    }
  }

  /**
   * Whatever links there are on disk: if a destination passes both checks, then the directory made for it and the name
   * renamed there are, really, inside an allowed root, outside `.ssh` and outside the configuration directory.
   */
  lemma AcceptedWritesInside(t: Tree, d: Disk, destPath: Path, configDir: Path, q: Path)
    requires destPath != [] && Faithful(t, d)
    requires IsSafeMountDestination(t, destPath, configDir) && Passes(t, destPath, configDir)
    requires Makes(d, [], destPath[..|destPath| - 1], q)
    ensures var place := q + [destPath[|destPath| - 1]];
            InAllowedRoot(t, place) && FORBIDDEN_SEGMENT !in place && !InConfigDir(t, place, configDir)
  {
    var parent := destPath[..|destPath| - 1];
    assert Resolve(d, [], [], 0) == Some([]);
    assert Resolves(d, [], [], []);
    MakesWhereItLeads(t, d, [], [], parent, q);
    assert [] + parent == parent;
  }
}
