/** grepTool in src/commands/api-tool-executor.ts: the capped search over the files a walk hands over. */
module GrepTool {
  import opened Options
  import opened FileWalk

  const API_TOOL_GREP_MAX_MATCHES: nat := 200
  const API_TOOL_GREP_MAX_LINE_CHARS: nat := 2000

  datatype Match = Match(file: Path, line: nat, text: string)

  /** The lines of a file that is to be searched; None when the glob, its size or a read error excludes it. */
  type Contents = Path -> Option<seq<string>>
  type Regex = string -> bool

  /** What a match keeps of its line. */
  function Clip(line: string): string {
    if |line| > API_TOOL_GREP_MAX_LINE_CHARS then line[..API_TOOL_GREP_MAX_LINE_CHARS] + "... [line truncated]"
      else line
  }

  function LineMatches(file: Path, lines: seq<string>, regex: Regex): seq<Match> {
    if lines == [] then [] else
    var k := |lines| - 1;
    LineMatches(file, lines[..k], regex) + if regex(lines[k]) then [Match(file, k + 1, Clip(lines[k]))] else []
  }

  function FileMatches(file: Path, contents: Contents, regex: Regex): seq<Match> {
    match contents(file) case Some(lines) => LineMatches(file, lines, regex) case None => []
  }

  /** Every match, if nothing were capped. */
  function AllMatches(files: seq<Path>, contents: Contents, regex: Regex): seq<Match> {
    if files == [] then [] else
    var k := |files| - 1;
    AllMatches(files[..k], contents, regex) + FileMatches(files[k], contents, regex)
  }

  function Capped(matches: seq<Match>, cap: nat): seq<Match> {
    if |matches| <= cap then matches else matches[..cap]
  }

  /** The answer of `searchFile`: stop once the cap is reached. */
  function Full(contents: Contents, regex: Regex, cap: nat): seq<Path> -> bool {
    history => |AllMatches(history, contents, regex)| >= cap
  }

  /**
   * searchFile: the matches so far and those of this file, up to the cap; the answer tells the walk to stop exactly
   * when the cap is reached. `before` are the matches of the files already searched.
   */
  method SearchFile(ghost history: seq<Path>, file: Path, contents: Contents, regex: Regex, before: seq<Match>,
      cap: nat)
    returns (matches: seq<Match>, full: bool)
    requires before == AllMatches(history, contents, regex) && |before| < cap
    ensures matches == Capped(AllMatches(history + [file], contents, regex), cap)
    ensures full <==> Full(contents, regex, cap)(history + [file])
  {
    OneMoreFile(history, file, contents, regex);
    match contents(file) {
      case None =>
        matches, full := before, |before| >= cap;
      case Some(lines) =>
        matches, full := SearchLines(file, lines, regex, before, cap);
    }
  }

  lemma OneMoreFile(history: seq<Path>, file: Path, contents: Contents, regex: Regex)
    ensures AllMatches(history + [file], contents, regex)
        == AllMatches(history, contents, regex) + FileMatches(file, contents, regex)
  {
    assert (history + [file])[..|history|] == history;
  }

  /** The line loop: pushes matches until the cap is reached. */
  method SearchLines(file: Path, lines: seq<string>, regex: Regex, before: seq<Match>, cap: nat)
    returns (matches: seq<Match>, full: bool)
    requires |before| < cap
    ensures matches == Capped(before + LineMatches(file, lines, regex), cap)
    ensures full <==> |before + LineMatches(file, lines, regex)| >= cap
  {
    matches := before;
    for i := 0 to |lines|
      invariant |matches| < cap
      invariant matches == before + LineMatches(file, lines[..i], regex)
    {
      NextLine(before, file, lines, regex, i);
      if regex(lines[i]) {
        matches := matches + [Match(file, i + 1, Clip(lines[i]))];
        if |matches| >= cap {
          LinesPrefix(file, lines, regex, i + 1);
          return matches, true;
        }
      }
    }
    assert lines[..|lines|] == lines;
    full := |matches| >= cap;
  }

  lemma NextLine(before: seq<Match>, file: Path, lines: seq<string>, regex: Regex, i: nat)
    requires i < |lines|
    ensures before + LineMatches(file, lines[..i + 1], regex)
         == before + LineMatches(file, lines[..i], regex)
            + if regex(lines[i]) then [Match(file, i + 1, Clip(lines[i]))] else []
  {
    assert lines[..i + 1][..i] == lines[..i];
  }

  lemma {:induction false} LinesPrefix(file: Path, lines: seq<string>, regex: Regex, i: nat)
    requires i <= |lines|
    ensures LineMatches(file, lines[..i], regex) <= LineMatches(file, lines, regex)
  {
    if i < |lines| {
      var k := |lines| - 1;
      assert lines[..k][..i] == lines[..i];
      LinesPrefix(file, lines[..k], regex, i);
    } else {
      assert lines[..i] == lines;
    }
  }

  lemma {:induction false} MatchesPrefix(a: seq<Path>, b: seq<Path>, contents: Contents, regex: Regex)
    ensures AllMatches(a, contents, regex) <= AllMatches(a + b, contents, regex)
  {
    if b == [] {
      assert a + b == a;
    } else {
      var k := |b| - 1;
      assert a + b == (a + b[..k]) + [b[k]];
      MatchesPrefix(a, b[..k], contents, regex);
      OneMoreFile(a + b[..k], b[k], contents, regex);
    }
  }

  /** Cutting the files where the cap is reached loses none of the first `cap` matches. */
  lemma {:induction false} CutKeepsFirst(history: seq<Path>, files: seq<Path>, contents: Contents, regex: Regex,
      cap: nat)
    ensures var (h, stopped) := Fed(Full(contents, regex, cap), history, files);
            && Capped(AllMatches(h, contents, regex), cap) == Capped(AllMatches(history + files, contents, regex), cap)
            && (stopped ==> |AllMatches(h, contents, regex)| >= cap)
            && (!stopped ==> h == history + files)
    decreases |files|
  {
    if files == [] {
      assert history + files == history;
    } else {
      var next := history + [files[0]];
      assert history + files == next + files[1..];
      if |AllMatches(next, contents, regex)| >= cap {
        MatchesPrefix(next, files[1..], contents, regex);
      } else {
        CutKeepsFirst(next, files[1..], contents, regex, cap);
      }
    }
  }

  /** What one root adds, whether or not the walk of it is stopped; `rest` are the files of the roots after it. */
  lemma {:induction false} OneRoot(history: seq<Path>, first: seq<Path>, rest: seq<Path>, contents: Contents,
      regex: Regex, cap: nat)
    ensures var (h, stopped) := Fed(Full(contents, regex, cap), history, first);
            Capped(AllMatches(history + (first + rest), contents, regex), cap)
            == Capped(AllMatches(if stopped then h else h + rest, contents, regex), cap)
  {
    assert history + (first + rest) == (history + first) + rest;
    CutKeepsFirst(history, first, contents, regex, cap);
    if Fed(Full(contents, regex, cap), history, first).1 {
      assert |AllMatches(history + first, contents, regex)| >= cap;
      CappedStays(history + first, rest, contents, regex, cap);
    }
  }

  /** Once the cap is reached, files searched later change nothing. */
  lemma CappedStays(history: seq<Path>, rest: seq<Path>, contents: Contents, regex: Regex, cap: nat)
    requires |AllMatches(history, contents, regex)| >= cap
    ensures Capped(AllMatches(history + rest, contents, regex), cap)
        == Capped(AllMatches(history, contents, regex), cap)
  {
    MatchesPrefix(history, rest, contents, regex);
  }

  // ------------------------------------------------------------ what a match is

  /** A file matches at exactly the lines the expression matches, numbered from one, and in their order. */
  lemma {:induction false} LineMatchesExactly(file: Path, lines: seq<string>, regex: Regex)
    ensures forall m :: m in LineMatches(file, lines, regex) <==>
              exists k :: 0 <= k < |lines| && regex(lines[k]) && m == Match(file, k + 1, Clip(lines[k]))
    ensures forall i, j :: 0 <= i < j < |LineMatches(file, lines, regex)| ==>
              LineMatches(file, lines, regex)[i].line < LineMatches(file, lines, regex)[j].line
  {
    if lines != [] {
      var k := |lines| - 1;
      var before := LineMatches(file, lines[..k], regex);
      LineMatchesExactly(file, lines[..k], regex);
      assert forall j :: 0 <= j < k ==> lines[..k][j] == lines[j];
      forall i | 0 <= i < |before| ensures before[i].line < k + 1 { assert before[i] in before; }
    }
  }

  /** A line of up to 2000 characters is reported whole, a longer one by its first 2000 and a note. */
  lemma ClipExactly(line: string)
    ensures |line| <= 2000 ==> Clip(line) == line
    ensures |line| > 2000 ==> |Clip(line)| > 2000 && Clip(line)[..2000] == line[..2000]
    ensures |line| > 2000 ==> Clip(line)[2000..] == "... [line truncated]"
  {
  }

  /** All matches are those of the files that can be searched, file by file. */
  lemma {:induction false} AllMatchesExactly(files: seq<Path>, contents: Contents, regex: Regex, m: Match)
    ensures m in AllMatches(files, contents, regex) <==>
            exists f :: f in files && contents(f).Some? && m in LineMatches(f, contents(f).value, regex)
  {
    if files != [] {
      var k := |files| - 1;
      AllMatchesExactly(files[..k], contents, regex, m);
      assert files == files[..k] + [files[k]];
    }
  }

  /** One tool call: the shared set of visited directories, and the matches collected from the files visited so far. */
  class ToolCall {
    const contents: Contents
    const regex: Regex
    const cap: nat
    var visited: set<Path>
    var matches: seq<Match>
    ghost var history: seq<Path>

    ghost predicate Valid()
      reads this
    {
      matches == Capped(AllMatches(history, contents, regex), cap)
    }

    /** What the visitor answers after a history of files. */
    ghost function Stop(): seq<Path> -> bool {
      Full(contents, regex, cap)
    }

    constructor (contents: Contents, regex: Regex, cap: nat)
      ensures Valid() && visited == {} && history == []
      ensures this.contents == contents && this.regex == regex && this.cap == cap
    {
      this.contents, this.regex, this.cap := contents, regex, cap;
      visited, matches, history := {}, [], [];
    }

    /** The visitor: searches the file, and stops the walk once the cap is reached. */
    method Visit(path: Path) returns (stopped: bool)
      requires Valid() && |matches| < cap
      modifies this`matches, this`history
      ensures Valid() && history == old(history) + [path]
      ensures stopped == Stop()(history) == (|matches| >= cap)
    {
      matches, stopped := SearchFile(history, path, contents, regex, matches, cap);
      history := history + [path];
    }

    /**
     * walkFiles itself. It hands over exactly a prefix of the full walk's files, cut where the visitor says stop,
     * and while it is not stopped it visits exactly the directories of the full walk.
     */
    method WalkDirectory(d: Disk, dir: Path) returns (stopped: bool)
      requires Valid() && |matches| < cap
      modifies this`visited, this`matches, this`history
      ensures Valid() && (stopped <==> |matches| >= cap)
      ensures (history, stopped) == Fed(Stop(), old(history), Walk(d, dir, old(visited)).files)
      ensures old(visited) <= visited
      ensures !stopped ==> visited == Walk(d, dir, old(visited)).visited
      decreases Unseen(d, visited), 0, 0
    {
      stopped := false;
      if dir !in d.realpath { return; }
      var realDir := d.realpath[dir];
      if realDir in visited { return; }
      assert realDir in Unseen(d, visited) && realDir !in Unseen(d, visited + {realDir});
      visited := visited + {realDir};
      if realDir !in d.listing { return; }
      ghost var all := WalkEntries(d, dir, d.listing[realDir], visited);
      assert Walk(d, dir, old(visited)).files == all.files;
      stopped := WalkListing(d, dir, d.listing[realDir]);
    }

    method TakeEntry(d: Disk, dir: Path, e: Entry) returns (stopped: bool)
      requires Valid() && |matches| < cap
      modifies this`visited, this`matches, this`history
      ensures Valid() && (stopped <==> |matches| >= cap)
      ensures (history, stopped) == Fed(Stop(), old(history), One(d, dir, e, old(visited)).files)
      ensures old(visited) <= visited
      ensures !stopped ==> visited == One(d, dir, e, old(visited)).visited
      decreases Unseen(d, visited), 0, 1
    {
      stopped := false;
      match ActionOf(d, dir, e) {
        case Skip =>
        case Visit(path) => stopped := Visit(path);
        case Descend(path) => stopped := WalkDirectory(d, path);
      }
    }

    method WalkListing(d: Disk, dir: Path, entries: seq<Entry>) returns (stopped: bool)
      requires Valid() && |matches| < cap
      modifies this`visited, this`matches, this`history
      ensures Valid() && (stopped <==> |matches| >= cap)
      ensures (history, stopped) == Fed(Stop(), old(history), WalkEntries(d, dir, entries, old(visited)).files)
      ensures old(visited) <= visited
      ensures !stopped ==> visited == WalkEntries(d, dir, entries, old(visited)).visited
      decreases Unseen(d, visited), |entries|, 0
    {
      stopped := false;
      ghost var done := Walked(visited, [], []);
      ghost var all := WalkEntries(d, dir, entries, visited);
      assert entries[0..] == entries;
      for i := 0 to |entries|
        invariant Valid() && |matches| < cap
        invariant old(visited) <= visited && visited == done.visited
        invariant (history, false) == Fed(Stop(), old(history), done.files)
        invariant all.visited == WalkEntries(d, dir, entries[i..], visited).visited
        invariant all.files == done.files + WalkEntries(d, dir, entries[i..], visited).files
      {
        ghost var first := One(d, dir, entries[i], visited);
        ghost var rest := WalkEntries(d, dir, entries[i + 1..], first.visited);
        assert entries[i..][1..] == entries[i + 1..];
        FedNext(Stop(), old(history), done.files, first.files, rest.files);
        stopped := TakeEntry(d, dir, entries[i]);
        if stopped { return; }
        done := Then(done, first);
      }
      assert done.files + [] == done.files;
    }

    /** The loop over the roots, which all share the set of visited directories. */
    method SearchRoots(d: Disk, roots: seq<Path>)
      requires Valid() && history == [] && visited == {}
      modifies this`visited, this`matches, this`history
      ensures matches == Capped(AllMatches(WalkRoots(d, roots, {}).files, contents, regex), cap)
    {
      ghost var goal := Capped(AllMatches(WalkRoots(d, roots, {}).files, contents, regex), cap);
      ghost var rest := WalkRoots(d, roots, {}).files;
      assert roots[0..] == roots && [] + rest == rest;
      for i := 0 to |roots|
        invariant Valid() && rest == WalkRoots(d, roots[i..], visited).files
        invariant goal == Capped(AllMatches(history + rest, contents, regex), cap)
      {
        if |matches| >= cap {
          CappedStays(history, rest, contents, regex, cap);
          return;
        }
        assert roots[i..][1..] == roots[i + 1..];
        ghost var first := Walk(d, roots[i], visited);
        rest := WalkRoots(d, roots[i + 1..], first.visited).files;
        OneRoot(history, first.files, rest, contents, regex, cap);
        var stopped := WalkDirectory(d, roots[i]);
        if stopped { return; }
      }
      assert history + [] == history;
    }
  }

  /** What the tool is asked to search: one file, or everything under some directories. */
  datatype Target = SingleFile(path: Path) | Directories(roots: seq<Path>)

  function FilesSearched(d: Disk, target: Target): seq<Path> {
    match target
    case SingleFile(path) => [path]
    case Directories(roots) => WalkRoots(d, roots, {}).files
  }

  /** The whole search: the matches are the first 200 of all there are, in walking order. */
  method Grep(d: Disk, target: Target, contents: Contents, regex: Regex) returns (matches: seq<Match>)
    ensures matches == Capped(AllMatches(FilesSearched(d, target), contents, regex), API_TOOL_GREP_MAX_MATCHES)
    ensures |matches| <= API_TOOL_GREP_MAX_MATCHES
  {
    var call := new ToolCall(contents, regex, API_TOOL_GREP_MAX_MATCHES);
    match target {
      case SingleFile(path) =>
        var stopped := call.Visit(path);
        assert [] + [path] == [path];
      case Directories(roots) =>
        call.SearchRoots(d, roots);
    }
    matches := call.matches;
  }
}
