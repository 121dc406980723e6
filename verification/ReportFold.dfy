/** parsePlaywrightJsonOutput in src/browser/playwright-subprocess-executor.ts, from the parsed report on. */
module ReportFold {
  import opened Options

  const HARNESS_STEP_SCREENSHOT_PREFIX: string := "harness-step-screenshot-"

  /** A name that is no string counts as the empty one. */
  datatype Attachment = Attachment(png: bool, name: string, body: Option<string>, path: string)
  datatype NestedStep = NestedStep(title: string, duration: int, error: Option<string>)
  datatype Annotation = Annotation(isSkip: bool, description: string)
  datatype TestResult = TestResult(
    status: string, startTime: Option<int>, duration: Option<int>, error: Option<string>,
    steps: seq<NestedStep>, attachments: seq<Attachment>, annotations: seq<Annotation>)
  datatype Test = Test(title: string, results: seq<TestResult>)
  datatype Suite = Suite(tests: seq<Test>, suites: seq<Suite>)

  datatype Status = Passed | Failed | Skipped
  datatype Reported = Reported(
    title: string, status: Status, error: Option<string>, duration: Option<int>, executedAt: Option<int>,
    screenshot: Option<string>, screenshotPath: Option<string>, skipReason: Option<string>)

  function NonEmpty(s: string): Option<string> {
    if s == "" then None else Some(s)
  }

  // ------------------------------------------------------------- the index in a name

  predicate IsDigit(c: char) {
    '0' <= c <= '9'
  }

  function Blank(c: char): bool {
    c in " \t\n\r"
  }

  /** The number the longest run of digits at the front stands for, after `n`. */
  function DigitsValue(s: string, n: nat): nat {
    if s == "" || !IsDigit(s[0]) then n else DigitsValue(s[1..], 10 * n + (s[0] as nat - '0' as nat))
  }

  /** Number.parseInt with radix 10: blanks, a sign, digits; whatever follows is ignored. */
  function ParseInt(s: string): Option<int> {
    if s == "" then None
    else if Blank(s[0]) then ParseInt(s[1..])
    else
      var digits := if s[0] == '-' || s[0] == '+' then s[1..] else s;
      if digits == "" || !IsDigit(digits[0]) then None
      else Some(if s[0] == '-' then -(DigitsValue(digits, 0) as int) else DigitsValue(digits, 0) as int)
  }

  function HarnessIndex(a: Attachment): Option<int> {
    if HARNESS_STEP_SCREENSHOT_PREFIX <= a.name then ParseInt(a.name[|HARNESS_STEP_SCREENSHOT_PREFIX|..]) else None
  }

  /** How a number is written. */
  function Decimal(n: nat): (s: string)
    ensures s != "" && forall c <- s :: IsDigit(c)
  {
    var last := ('0' as int + n % 10) as char;
    if n < 10 then [last] else Decimal(n / 10) + [last]
  }

  lemma {:induction false} DigitsValueSnoc(s: string, c: char, n: nat)
    requires IsDigit(c) && forall d <- s :: IsDigit(d)
    ensures DigitsValue(s + [c], n) == 10 * DigitsValue(s, n) + (c as nat - '0' as nat)
  {
    if s == "" {
      assert DigitsValue([c][1..], 10 * n + (c as nat - '0' as nat)) == 10 * n + (c as nat - '0' as nat);
    } else {
      assert (s + [c])[1..] == s[1..] + [c] && s[0] in s && forall d :: d in s[1..] ==> d in s;
      DigitsValueSnoc(s[1..], c, 10 * n + (s[0] as nat - '0' as nat));
    }
  }

  lemma {:induction false} DecimalValue(n: nat)
    ensures DigitsValue(Decimal(n), 0) == n
  {
    var last := ('0' as int + n % 10) as char;
    if n < 10 {
      DigitsValueSnoc("", last, 0);
      assert "" + [last] == [last];
    } else {
      DecimalValue(n / 10);
      DigitsValueSnoc(Decimal(n / 10), last, 0);
    }
  }

  /** The name the harness gives the image of step `i` is read back as `i`. */
  lemma NameReadsBack(i: nat, png: bool, body: Option<string>, path: string)
    ensures HarnessIndex(Attachment(png, HARNESS_STEP_SCREENSHOT_PREFIX + Decimal(i), body, path)) == Some(i)
  {
    var digits := Decimal(i);
    var name := HARNESS_STEP_SCREENSHOT_PREFIX + digits;
    assert name[|HARNESS_STEP_SCREENSHOT_PREFIX|..] == digits && digits[0] in digits;
    DecimalValue(i);
  }

  // ------------------------------------------------------------- screenshots

  function Images(attachments: seq<Attachment>): seq<Attachment> {
    if attachments == [] then [] else
    var a := attachments[|attachments| - 1];
    Images(attachments[..|attachments| - 1]) + if a.png then [a] else []
  }

  predicate IsIndexed(a: Attachment) {
    HarnessIndex(a).Some? && HarnessIndex(a).value >= 0 && a.body.Some?
  }

  /** The map from step index to image: a later image with the same index replaces an earlier one. */
  function Indexed(images: seq<Attachment>): map<nat, string> {
    if images == [] then map[] else
    var a, before := images[|images| - 1], Indexed(images[..|images| - 1]);
    if IsIndexed(a) then before[HarnessIndex(a).value := a.body.value] else before
  }

  predicate Inflated(indexed: map<nat, string>, steps: nat) {
    exists key :: key in indexed && key >= steps
  }

  function Screenshot(images: seq<Attachment>, steps: nat, idx: nat): Option<string> {
    var indexed := Indexed(images);
    var shot :=
      if indexed != map[] then
        if !Inflated(indexed, steps) && idx in indexed then Some(indexed[idx]) else None
      else if |images| != 0 && |images| != steps then None
      else if idx < |images| then images[idx].body
      else None;
    match shot case Some(body) => NonEmpty(body) case None => None
  }

  /** Image `k` is the last one that carries the index `i`. */
  ghost predicate LastWithIndex(images: seq<Attachment>, k: nat, i: nat) {
    && k < |images| && IsIndexed(images[k]) && HarnessIndex(images[k]) == Some(i)
    && forall j :: k < j < |images| && IsIndexed(images[j]) ==> HarnessIndex(images[j]) != Some(i)
  }

  lemma {:induction false} IndexedMeans(images: seq<Attachment>, i: nat)
    ensures i in Indexed(images) <==>
        exists k :: 0 <= k < |images| && IsIndexed(images[k]) && HarnessIndex(images[k]) == Some(i)
    ensures forall k: nat :: LastWithIndex(images, k, i) ==>
        i in Indexed(images) && images[k].body == Some(Indexed(images)[i])
    ensures i in Indexed(images) ==> exists k: nat :: LastWithIndex(images, k, i)
  {
    if images != [] {
      var n := |images| - 1;
      var before := images[..n];
      IndexedMeans(before, i);
      if IsIndexed(images[n]) && HarnessIndex(images[n]) == Some(i) {
        assert LastWithIndex(images, n, i);
      } else {
        forall k: nat ensures LastWithIndex(images, k, i) <==> LastWithIndex(before, k, i) {
          LastWithIndexSnoc(images, k, i);
        }
        assert forall k :: 0 <= k < n ==> images[k] == before[k];
      }
    }
  }

  lemma LastWithIndexSnoc(images: seq<Attachment>, k: nat, i: nat)
    requires images != [] && !(IsIndexed(images[|images| - 1]) && HarnessIndex(images[|images| - 1]) == Some(i))
    ensures LastWithIndex(images, k, i) <==> LastWithIndex(images[..|images| - 1], k, i)
  {
    var before := images[..|images| - 1];
    assert forall j :: 0 <= j < |before| ==> images[j] == before[j];
  }

  /**
   * In a test with harness-indexed images, step `idx` gets an image exactly when no index is beyond the steps, and
   * then the last one that carries its own position (an empty one counts as none).
   */
  lemma EachStepGetsItsOwnImage(images: seq<Attachment>, steps: nat, idx: nat, body: string)
    requires idx < steps
    requires exists k :: 0 <= k < |images| && IsIndexed(images[k])
    ensures Screenshot(images, steps, idx) == Some(body) <==>
            && body != ""
            && (forall k :: 0 <= k < |images| && IsIndexed(images[k]) ==> HarnessIndex(images[k]).value < steps)
            && exists k: nat :: LastWithIndex(images, k, idx) && images[k].body == Some(body)
  {
    var k0 :| 0 <= k0 < |images| && IsIndexed(images[k0]);
    IndexedMeans(images, HarnessIndex(images[k0]).value);
    InflatedMeans(images, steps);
    IndexedMeans(images, idx);
  }

  lemma InflatedMeans(images: seq<Attachment>, steps: nat)
    ensures Inflated(Indexed(images), steps) <==>
            exists k :: 0 <= k < |images| && IsIndexed(images[k]) && HarnessIndex(images[k]).value >= steps
  {
    if Inflated(Indexed(images), steps) {
      var key :| key in Indexed(images) && key >= steps;
      IndexedMeans(images, key);
    }
    if k :| 0 <= k < |images| && IsIndexed(images[k]) && HarnessIndex(images[k]).value >= steps {
      IndexedMeans(images, HarnessIndex(images[k]).value);
    }
  }

  // ------------------------------------------------------------- one test

  function Offset(steps: seq<NestedStep>, k: nat): int
    requires k <= |steps|
  {
    if k == 0 then 0 else Offset(steps, k - 1) + steps[k - 1].duration
  }

  function ReportedStep(r: TestResult, k: nat): Reported
    requires k < |r.steps|
  {
    var step := r.steps[k];
    Reported(step.title, if step.error.Some? then Failed else Passed, step.error, Some(step.duration),
      if r.startTime.Some? then Some(r.startTime.value + Offset(r.steps, k)) else None,
      Screenshot(Images(r.attachments), |r.steps|, k), None, None)
  }

  function FirstScreenshot(attachments: seq<Attachment>): Option<string> {
    if attachments == [] then None
    else if attachments[0].name == "screenshot" && attachments[0].png then NonEmpty(attachments[0].path)
    else FirstScreenshot(attachments[1..])
  }

  function FirstSkip(annotations: seq<Annotation>): Option<string> {
    if annotations == [] then None
    else if annotations[0].isSkip then NonEmpty(annotations[0].description)
    else FirstSkip(annotations[1..])
  }

  function WholeTest(title: string, r: TestResult): Reported {
    var status := if r.status == "passed" then Passed else if r.status == "skipped" then Skipped else Failed;
    Reported(title, status, if r.error.Some? then NonEmpty(r.error.value) else None, r.duration, None,
      None, FirstScreenshot(r.attachments), if status == Skipped then FirstSkip(r.annotations) else None)
  }

  /** What a test is reported as: nothing without a result, else by its last result. */
  function ReportedTest(t: Test): seq<Reported> {
    if t.results == [] then [] else
    var last := t.results[|t.results| - 1];
    if last.steps == [] then [WholeTest(t.title, last)]
    else ReportedSteps(last, |last.steps|)
  }

  function ReportedSteps(r: TestResult, n: nat): (s: seq<Reported>)
    requires n <= |r.steps|
    ensures |s| == n && forall k :: 0 <= k < n ==> s[k] == ReportedStep(r, k)
  {
    if n == 0 then [] else ReportedSteps(r, n - 1) + [ReportedStep(r, n - 1)]
  }

  // ------------------------------------------------------- what a test is reported as

  function Total(durations: seq<int>): int {
    if durations == [] then 0 else durations[0] + Total(durations[1..])
  }

  function Durations(steps: seq<NestedStep>): seq<int> {
    seq(|steps|, k requires 0 <= k < |steps| => steps[k].duration)
  }

  lemma {:induction false} TotalSnoc(durations: seq<int>, d: int)
    ensures Total(durations + [d]) == Total(durations) + d
  {
    if durations == [] {
      assert [d][1..] == [];
    } else {
      assert (durations + [d])[1..] == durations[1..] + [d];
      TotalSnoc(durations[1..], d);
    }
  }

  lemma {:induction false} OffsetIsTotal(steps: seq<NestedStep>, k: nat)
    requires k <= |steps|
    ensures Offset(steps, k) == Total(Durations(steps)[..k])
  {
    if k > 0 {
      OffsetIsTotal(steps, k - 1);
      assert Durations(steps)[..k] == Durations(steps)[..k - 1] + [steps[k - 1].duration];
      TotalSnoc(Durations(steps)[..k - 1], steps[k - 1].duration);
    }
  }

  /** The last result counts. */
  function LastResult(t: Test): TestResult
    requires t.results != []
  {
    t.results[|t.results| - 1]
  }

  /**
   * A test with steps reports each of them in order: as failed exactly when it has an error, from the start of the test
   * and the durations of the steps before it.
   */
  lemma StepsReport(t: Test, k: nat)
    requires t.results != [] && k < |LastResult(t).steps|
    ensures |ReportedTest(t)| == |LastResult(t).steps|
    ensures var r, step, reported := LastResult(t), LastResult(t).steps[k], ReportedTest(t)[k];
            && reported.title == step.title && reported.error == step.error && reported.duration == Some(step.duration)
            && (reported.status == Failed <==> step.error.Some?) && (reported.status == Passed <==> step.error.None?)
            && (r.startTime.None? ==> reported.executedAt == None)
            && (r.startTime.Some? ==> reported.executedAt == Some(r.startTime.value + Total(Durations(r.steps)[..k])))
            && reported.screenshotPath == None && reported.skipReason == None
  {
    OffsetIsTotal(LastResult(t).steps, k);
  }

  /** The first attachment at or after `from` that is the screenshot of the test. */
  ghost predicate IsFirstScreenshot(attachments: seq<Attachment>, k: nat) {
    && k < |attachments| && attachments[k].name == "screenshot" && attachments[k].png
    && forall j :: 0 <= j < k ==> !(attachments[j].name == "screenshot" && attachments[j].png)
  }

  lemma {:induction false} FirstScreenshotMeans(attachments: seq<Attachment>, path: string)
    ensures FirstScreenshot(attachments) == Some(path) <==>
            path != "" && exists k: nat :: IsFirstScreenshot(attachments, k) && attachments[k].path == path
  {
    if attachments != [] {
      var rest := attachments[1..];
      FirstScreenshotMeans(rest, path);
      if attachments[0].name == "screenshot" && attachments[0].png {
        assert IsFirstScreenshot(attachments, 0);
      } else {
        forall k: nat ensures IsFirstScreenshot(attachments, k + 1) <==> IsFirstScreenshot(rest, k) {
          assert forall j :: 0 <= j < |rest| ==> rest[j] == attachments[j + 1];
          if IsFirstScreenshot(rest, k) {
            forall j | 0 <= j < k + 1 ensures !(attachments[j].name == "screenshot" && attachments[j].png) {
              if j > 0 { assert attachments[j] == rest[j - 1]; }
            }
          }
        }
        if k: nat :| IsFirstScreenshot(attachments, k) && attachments[k].path == path {
          assert k > 0 && IsFirstScreenshot(rest, k - 1);
        }
      }
    }
  }

  /** A test without steps is reported as one: passed and skipped as it says, and everything else as failed. */
  lemma WholeTestReports(t: Test)
    requires t.results != [] && LastResult(t).steps == []
    ensures |ReportedTest(t)| == 1
    ensures var r, reported := LastResult(t), ReportedTest(t)[0];
            && reported.title == t.title && reported.duration == r.duration
            && (reported.status == Passed <==> r.status == "passed")
            && (reported.status == Skipped <==> r.status == "skipped")
            && (reported.error == if r.error == Some("") then None else r.error)
            && (reported.status != Skipped ==> reported.skipReason == None)
            && reported.executedAt == None && reported.screenshot == None
  {
  }

  lemma NoResultReportsNothing(t: Test)
    requires t.results == []
    ensures ReportedTest(t) == []
  {
  }

  /** The images of a test are its PNG attachments. */
  lemma {:induction false} ImagesExactly(attachments: seq<Attachment>, a: Attachment)
    ensures a in Images(attachments) <==> a in attachments && a.png
  {
    if attachments != [] {
      var n := |attachments| - 1;
      ImagesExactly(attachments[..n], a);
      InSnoc(attachments, a);
    }
  }

  lemma InSnoc(attachments: seq<Attachment>, a: Attachment)
    requires attachments != []
    ensures a in attachments <==> a in attachments[..|attachments| - 1] || a == attachments[|attachments| - 1]
  {
    var n := |attachments| - 1;
    assert attachments == attachments[..n] + [attachments[n]];
  }

  /** They come in their order: of PNG attachments alone, all are kept as they are. */
  lemma {:induction false} ImagesInOrder(attachments: seq<Attachment>)
    requires forall k :: 0 <= k < |attachments| ==> attachments[k].png
    ensures Images(attachments) == attachments
  {
    if attachments != [] {
      var n := |attachments| - 1;
      ImagesInOrder(attachments[..n]);
      assert attachments == attachments[..n] + [attachments[n]];
    }
  }

  /** Without indices, images go to steps by position, and only if there are as many of them as there are steps. */
  lemma PositionsWithoutIndices(images: seq<Attachment>, steps: nat, idx: nat, body: string)
    requires idx < steps && forall k :: 0 <= k < |images| ==> !IsIndexed(images[k])
    ensures Screenshot(images, steps, idx) == Some(body) <==>
            body != "" && |images| == steps && images[idx].body == Some(body)
  {
    NoIndices(images);
  }

  lemma {:induction false} NoIndices(images: seq<Attachment>)
    requires forall k :: 0 <= k < |images| ==> !IsIndexed(images[k])
    ensures Indexed(images) == map[]
  {
    if images != [] { NoIndices(images[..|images| - 1]); }
  }

  /** Each step of a test gets the image that belongs to its position among the images of that test. */
  lemma StepsGetImages(t: Test, k: nat)
    requires t.results != [] && k < |LastResult(t).steps|
    ensures ReportedTest(t)[k].screenshot
         == Screenshot(Images(LastResult(t).attachments), |LastResult(t).steps|, k)
  {
  }

  ghost predicate IsFirstSkip(annotations: seq<Annotation>, k: nat) {
    k < |annotations| && annotations[k].isSkip && forall j :: 0 <= j < k ==> !annotations[j].isSkip
  }

  lemma {:induction false} FirstSkipMeans(annotations: seq<Annotation>, reason: string)
    ensures FirstSkip(annotations) == Some(reason) <==>
            reason != "" && exists k: nat :: IsFirstSkip(annotations, k) && annotations[k].description == reason
  {
    if annotations != [] {
      var rest := annotations[1..];
      FirstSkipMeans(rest, reason);
      if annotations[0].isSkip {
        assert IsFirstSkip(annotations, 0);
      } else {
        if k: nat :| IsFirstSkip(annotations, k) && annotations[k].description == reason {
          assert k > 0 && rest[k - 1] == annotations[k] && forall j :: 0 <= j < k - 1 ==> rest[j] == annotations[j + 1];
          assert IsFirstSkip(rest, k - 1);
        }
        if k: nat :| IsFirstSkip(rest, k) && rest[k].description == reason {
          assert forall j :: 0 < j < k + 1 ==> annotations[j] == rest[j - 1];
          assert IsFirstSkip(annotations, k + 1) && annotations[k + 1] == rest[k];
        }
      }
    }
  }

  // ------------------------------------------------------------- the tree

  /** All tests, a suite's own before those of its sub-suites. */
  function Tests(s: Suite): seq<Test> {
    s.tests + TestsOfAll(s.suites)
  }

  function TestsOfAll(suites: seq<Suite>): seq<Test> {
    if suites == [] then [] else Tests(suites[0]) + TestsOfAll(suites[1..])
  }

  function ReportedTests(tests: seq<Test>): seq<Reported> {
    if tests == [] then [] else ReportedTests(tests[..|tests| - 1]) + ReportedTest(tests[|tests| - 1])
  }

  lemma ReportedSnoc(tests: seq<Test>, t: Test)
    ensures ReportedTests(tests + [t]) == ReportedTests(tests) + ReportedTest(t)
  {
    assert (tests + [t])[..|tests|] == tests;
  }

  lemma {:induction false} ReportedConcat(a: seq<Test>, b: seq<Test>)
    ensures ReportedTests(a + b) == ReportedTests(a) + ReportedTests(b)
  {
    if b == [] {
      assert a + b == a;
    } else {
      var n := |b| - 1;
      var t := b[n];
      assert b == b[..n] + [t] && a + b == (a + b[..n]) + [t];
      ReportedConcat(a, b[..n]);
      ReportedSnoc(a + b[..n], t);
      ReportedSnoc(b[..n], t);
      Associative(ReportedTests(a), ReportedTests(b[..n]), ReportedTest(t));
    }
  }

  lemma Associative(a: seq<Reported>, b: seq<Reported>, c: seq<Reported>)
    ensures (a + b) + c == a + (b + c)
  {
  }

  lemma NextTest(start: seq<Reported>, tests: seq<Test>, i: nat)
    requires i < |tests|
    ensures (start + ReportedTests(tests[..i])) + ReportedTest(tests[i]) == start + ReportedTests(tests[..i + 1])
  {
    assert tests[..i + 1] == tests[..i] + [tests[i]];
    ReportedSnoc(tests[..i], tests[i]);
    Associative(start, ReportedTests(tests[..i]), ReportedTest(tests[i]));
  }

  lemma NextStep(start: seq<Reported>, r: TestResult, k: nat)
    requires k < |r.steps|
    ensures (start + ReportedSteps(r, k)) + [ReportedStep(r, k)] == start + ReportedSteps(r, k + 1)
  {
    Associative(start, ReportedSteps(r, k), [ReportedStep(r, k)]);
  }

  lemma ReportedSuites(suites: seq<Suite>, i: nat)
    requires i < |suites|
    ensures ReportedTests(TestsOfAll(suites[i..]))
        == ReportedTests(Tests(suites[i])) + ReportedTests(TestsOfAll(suites[i + 1..]))
  {
    assert suites[i..][1..] == suites[i + 1..];
    ReportedConcat(Tests(suites[i]), TestsOfAll(suites[i + 1..]));
  }

  function Count(steps: seq<Reported>, status: Status): nat {
    if steps == [] then 0 else
    Count(steps[..|steps| - 1], status) + if steps[|steps| - 1].status == status then 1 else 0
  }

  lemma {:induction false} CountsAddUp(steps: seq<Reported>)
    ensures Count(steps, Passed) + Count(steps, Failed) + Count(steps, Skipped) == |steps|
    ensures Count(steps, Failed) == 0 <==> forall k :: 0 <= k < |steps| ==> steps[k].status != Failed
  {
    if steps != [] {
      var n := |steps| - 1;
      CountsAddUp(steps[..n]);
      assert forall k :: 0 <= k < n ==> steps[..n][k] == steps[k];
    }
  }

  /** The variables the recursion of the source pushes to and bumps. */
  class Collector {
    var steps: seq<Reported>
    var passedTests: nat
    var failedTests: nat

    ghost predicate Valid()
      reads this
    {
      passedTests == Count(steps, Passed) && failedTests == Count(steps, Failed)
    }

    constructor ()
      ensures Valid() && steps == []
    {
      steps, passedTests, failedTests := [], 0, 0;
    }

    method Push(step: Reported)
      requires Valid()
      modifies this
      ensures Valid() && steps == old(steps) + [step]
    {
      assert (steps + [step])[..|steps|] == steps;
      steps := steps + [step];
      if step.status == Passed { passedTests := passedTests + 1; }
      else if step.status == Failed { failedTests := failedTests + 1; }
    }

    method CollectTest(t: Test)
      requires Valid()
      modifies this
      ensures Valid() && steps == old(steps) + ReportedTest(t)
    {
      if t.results == [] { return; }
      var last := t.results[|t.results| - 1];
      if last.steps == [] {
        Push(WholeTest(t.title, last));
        return;
      }
      CollectSteps(last);
    }

    method CollectSteps(r: TestResult)
      requires Valid()
      modifies this
      ensures Valid() && steps == old(steps) + ReportedSteps(r, |r.steps|)
    {
      var images, cumulativeMs := Images(r.attachments), 0;
      for k := 0 to |r.steps|
        invariant Valid() && cumulativeMs == Offset(r.steps, k)
        invariant steps == old(steps) + ReportedSteps(r, k)
      {
        var step := r.steps[k];
        var executedAt := if r.startTime.Some? then Some(r.startTime.value + cumulativeMs) else None;
        var status := if step.error.Some? then Failed else Passed;
        Push(Reported(step.title, status, step.error, Some(step.duration), executedAt,
          Screenshot(images, |r.steps|, k), None, None));
        NextStep(old(steps), r, k);
        cumulativeMs := cumulativeMs + step.duration;
      }
    }

    method CollectSpecs(suite: Suite)
      requires Valid()
      modifies this
      ensures Valid() && steps == old(steps) + ReportedTests(Tests(suite))
      decreases suite, 0
    {
      ReportedConcat(suite.tests, TestsOfAll(suite.suites));
      Associative(steps, ReportedTests(suite.tests), ReportedTests(TestsOfAll(suite.suites)));
      CollectTests(suite.tests);
      CollectSuites(suite.suites);
    }

    method CollectTests(tests: seq<Test>)
      requires Valid()
      modifies this
      ensures Valid() && steps == old(steps) + ReportedTests(tests)
    {
      for i := 0 to |tests|
        invariant Valid() && steps == old(steps) + ReportedTests(tests[..i])
      {
        NextTest(old(steps), tests, i);
        CollectTest(tests[i]);
      }
      assert tests[..|tests|] == tests;
    }

    method CollectSuites(suites: seq<Suite>)
      requires Valid()
      modifies this
      ensures Valid() && steps == old(steps) + ReportedTests(TestsOfAll(suites))
      decreases suites, 1
    {
      assert suites[0..] == suites;
      ghost var goal := steps + ReportedTests(TestsOfAll(suites));
      for i := 0 to |suites|
        invariant Valid() && goal == steps + ReportedTests(TestsOfAll(suites[i..]))
      {
        ReportedSuites(suites, i);
        Associative(steps, ReportedTests(Tests(suites[i])), ReportedTests(TestsOfAll(suites[i + 1..])));
        CollectSpecs(suites[i]);
      }
    }
  }

  datatype Summary = Summary(success: bool, totalTests: nat, passedTests: nat, failedTests: nat, steps: seq<Reported>)

  /**
   * The whole fold: every test of the tree is reported in order, and the totals are those of the steps reported.
   * It is a success exactly when something was reported and nothing failed.
   */
  method Parse(suites: seq<Suite>) returns (s: Summary)
    ensures s.steps == ReportedTests(TestsOfAll(suites))
    ensures s.totalTests == |s.steps|
    ensures s.passedTests == Count(s.steps, Passed) && s.failedTests == Count(s.steps, Failed)
    ensures s.success <==> s.steps != [] && forall k :: 0 <= k < |s.steps| ==> s.steps[k].status != Failed
  {
    var c := new Collector();
    c.CollectSuites(suites);
    CountsAddUp(c.steps);
    var totalTests := c.passedTests + c.failedTests + Count(c.steps, Skipped);
    s := Summary(c.failedTests == 0 && totalTests > 0, totalTests, c.passedTests, c.failedTests, c.steps);
  }

  // ----------------------------------------------------- every test of the tree

  /** The suite that a path of child numbers leads to. */
  function SuiteAt(suites: seq<Suite>, path: seq<nat>): Option<Suite>
    decreases |path|
  {
    if path == [] || path[0] >= |suites| then None
    else if |path| == 1 then Some(suites[path[0]])
    else SuiteAt(suites[path[0]].suites, path[1..])
  }

  ghost predicate InTree(suites: seq<Suite>, t: Test) {
    exists path: seq<nat> :: SuiteAt(suites, path).Some? && t in SuiteAt(suites, path).value.tests
  }

  lemma {:induction false} FoundBelow(suites: seq<Suite>, path: seq<nat>, t: Test)
    requires SuiteAt(suites, path).Some? && t in SuiteAt(suites, path).value.tests
    ensures t in TestsOfAll(suites)
    decreases |path|
  {
    if |path| > 1 { FoundBelow(suites[path[0]].suites, path[1..], t); }
    OfTheSuite(suites, path[0], t);
  }

  lemma {:induction false} OfTheSuite(suites: seq<Suite>, i: nat, t: Test)
    requires i < |suites| && t in Tests(suites[i])
    ensures t in TestsOfAll(suites)
  {
    if i > 0 { OfTheSuite(suites[1..], i - 1, t); }
  }

  lemma {:induction false} ComesFrom(suites: seq<Suite>, t: Test) returns (path: seq<nat>)
    requires t in TestsOfAll(suites)
    ensures SuiteAt(suites, path).Some? && t in SuiteAt(suites, path).value.tests
  {
    if t in Tests(suites[0]) {
      if t in suites[0].tests {
        path := [0];
      } else {
        var below := ComesFrom(suites[0].suites, t);
        path := [0] + below;
        assert path[1..] == below;
      }
    } else {
      var next := ComesFrom(suites[1..], t);
      path := [next[0] + 1] + next[1..];
      assert path[1..] == next[1..];
    }
  }

  /** The flattened tree holds exactly the tests that a suite at any depth holds. */
  lemma FlattensTheTree(suites: seq<Suite>, t: Test)
    ensures t in TestsOfAll(suites) <==> InTree(suites, t)
  {
    if t in TestsOfAll(suites) {
      var path := ComesFrom(suites, t);
    }
    if path: seq<nat> :| SuiteAt(suites, path).Some? && t in SuiteAt(suites, path).value.tests {
      FoundBelow(suites, path, t);
    }
  }
}
