/**
 * isDangerousRegexPattern in src/commands/api-tool-executor.ts: the one-pass scan that refuses patterns with a
 * quantified group around another quantifier or an alternation.
 */
module RegexGuard {
  import opened Options

  /** What the character at a position means to the scan. Whatever is escaped or in a class is an atom. */
  datatype Token = Open | Close | Rep | Alt | Atom

  // ------------------------------------------------------- what a character means

  /** The character at `i` is escaped: an unescaped backslash stands before it. */
  predicate Escaped(p: string, i: nat)
    requires i <= |p|
  {
    i > 0 && p[i - 1] == '\\' && !Escaped(p, i - 1)
  }

  /** Position `i` is inside a class: after an unescaped `[` that no unescaped `]` has closed since. */
  predicate InClass(p: string, i: nat)
    requires i <= |p|
  {
    exists j :: 0 <= j < i && p[j] == '[' && !Escaped(p, j) && OpenSince(p, j, i)
  }

  predicate OpenSince(p: string, j: nat, i: nat)
    requires j < i <= |p|
  {
    forall k :: j < k < i ==> p[k] == ']' ==> Escaped(p, k)
  }

  predicate Digits(s: string) {
    forall i :: 0 <= i < |s| ==> '0' <= s[i] <= '9'
  }

  /** A quantifier: `+`, `*`, or braces around digits with at most one comma, all of them optional. A `?` is none. */
  ghost predicate IsQuantifier(q: string) {
    || q == "+" || q == "*"
    || (exists a: string, b: string :: Digits(a) && Digits(b) && (q == "{" + a + "}" || q == "{" + a + "," + b + "}"))
  }

  /** A quantifier starts at `i`. */
  ghost predicate QuantifierAt(p: string, i: nat) {
    exists n :: i < n <= |p| && IsQuantifier(p[i..n])
  }

  ghost function Meaning(p: string, i: nat): Token
    requires i < |p|
  {
    if Escaped(p, i) || InClass(p, i) then Atom
    else if p[i] == '(' then Open
    else if p[i] == ')' then Close
    else if p[i] == '|' then Alt
    else if QuantifierAt(p, i) then Rep
    else Atom
  }

  /** The meaning of every character. */
  ghost function Meanings(p: string): (ts: seq<Token>)
    ensures |ts| == |p|
    ensures forall i :: 0 <= i < |p| ==> ts[i] == Meaning(p, i)
  {
    seq(|p|, i requires 0 <= i < |p| => Meaning(p, i))
  }

  // ------------------------------------------------- what makes a pattern dangerous

  predicate IsMark(t: Token) {
    t == Rep || t == Alt
  }

  /** How many more brackets open than close among the first `n` tokens. */
  function Depth(ts: seq<Token>, n: nat): int
    requires n <= |ts|
  {
    if n == 0 then 0 else
    Depth(ts, n - 1) + match ts[n - 1] case Open => 1 case Close => -1 case _ => 0
  }

  /** The bracket opened at `i` is closed at `j`: same depth around what is between, and never below it. */
  ghost predicate Encloses(ts: seq<Token>, i: nat, j: nat) {
    && i < j < |ts| && ts[i] == Open && ts[j] == Close
    && Depth(ts, j) == Depth(ts, i + 1)
    && forall x :: i < x <= j ==> Depth(ts, x) >= Depth(ts, i + 1)
  }

  ghost predicate MarkBetween(ts: seq<Token>, a: nat, b: nat)
    requires b <= |ts|
  {
    exists k :: a <= k < b && IsMark(ts[k])
  }

  /** A quantified group closes at `j` that holds, at any depth, a live quantifier or `|`. */
  ghost predicate DangerAt(ts: seq<Token>, j: nat) {
    && j + 1 < |ts| && ts[j + 1] == Rep
    && exists i: nat :: Encloses(ts, i, j) && MarkBetween(ts, i + 1, j)
  }

  // -------------------------------------------------------------- the scan

  function Marked(stack: seq<bool>): (s: seq<bool>) {
    seq(|stack|, k requires 0 <= k < |stack| => true)
  }

  function Popped(stack: seq<bool>): seq<bool> {
    if stack == [] then [] else stack[..|stack| - 1]
  }

  /** The stack discipline over tokens; `extra` also marks at the `)` of a quantified group, as the source does. */
  predicate Scan(extra: bool, stack: seq<bool>, ts: seq<Token>)
    decreases |ts|
  {
    if ts == [] then false else
    match ts[0]
    case Open => Scan(extra, stack + [false], ts[1..])
    case Close =>
      var quantified := |ts| > 1 && ts[1] == Rep;
      if quantified && stack != [] && stack[|stack| - 1] then true
      else Scan(extra, if extra && quantified then Marked(Popped(stack)) else Popped(stack), ts[1..])
    case Atom => Scan(extra, stack, ts[1..])
    case _ => Scan(extra, Marked(stack), ts[1..])
  }

  /** The marking at a quantified `)` never changes the answer: the quantifier itself marks the same groups next. */
  lemma {:induction false} ExtraMarkingIsIdle(stack: seq<bool>, ts: seq<Token>)
    ensures Scan(true, stack, ts) == Scan(false, stack, ts)
    decreases |ts|
  {
    if ts != [] {
      match ts[0]
      case Open => ExtraMarkingIsIdle(stack + [false], ts[1..]);
      case Close =>
        var under := Popped(stack);
        ExtraMarkingIsIdle(under, ts[1..]);
        if |ts| > 1 && ts[1] == Rep {
          assert Marked(Marked(under)) == Marked(under);
          assert Scan(true, Marked(under), ts[1..]) == Scan(true, Marked(under), ts[1..][1..])
              == Scan(true, under, ts[1..]);
        }
      case Atom => ExtraMarkingIsIdle(stack, ts[1..]);
      case _ => ExtraMarkingIsIdle(Marked(stack), ts[1..]);
    }
  }

  /** The brackets still open after `n` tokens, outermost first. */
  ghost function Opens(ts: seq<Token>, n: nat): (opens: seq<nat>)
    requires n <= |ts|
    ensures forall m :: 0 <= m < |opens| ==> opens[m] < n
  {
    if n == 0 then [] else
    var before := Opens(ts, n - 1);
    match ts[n - 1]
    case Open => before + [n - 1]
    case Close => if before == [] then [] else before[..|before| - 1]
    case _ => before
  }

  /** `i` is open after `n` tokens: nothing since has gone below its inside. */
  ghost predicate StillOpen(ts: seq<Token>, i: nat, n: nat)
    requires n <= |ts|
  {
    i < n && ts[i] == Open && forall x :: i < x <= n ==> Depth(ts, x) >= Depth(ts, i + 1)
  }

  lemma StillOpenStep(ts: seq<Token>, i: nat, n: nat)
    requires n < |ts|
    ensures StillOpen(ts, i, n + 1) <==>
            (i == n && ts[n] == Open) || (StillOpen(ts, i, n) && Depth(ts, n + 1) >= Depth(ts, i + 1))
  {
  }

  lemma {:induction false} OpensAreStillOpen(ts: seq<Token>, n: nat)
    requires n <= |ts|
    ensures forall m :: 0 <= m < |Opens(ts, n)| ==>
              && StillOpen(ts, Opens(ts, n)[m], n)
              && Depth(ts, Opens(ts, n)[m] + 1) == Depth(ts, n) - |Opens(ts, n)| + 1 + m
  {
    if n > 0 {
      OpensAreStillOpen(ts, n - 1);
      var before, after := Opens(ts, n - 1), Opens(ts, n);
      forall m | 0 <= m < |after|
        ensures StillOpen(ts, after[m], n) && Depth(ts, after[m] + 1) == Depth(ts, n) - |after| + 1 + m
      {
        assert m < |before| ==> after[m] == before[m];
        StillOpenStep(ts, after[m], n - 1);
      }
    }
  }

  lemma {:induction false} StillOpenIsListed(ts: seq<Token>, i: nat, n: nat)
    requires n <= |ts| && StillOpen(ts, i, n)
    ensures i in Opens(ts, n)
  {
    var before := Opens(ts, n - 1);
    StillOpenStep(ts, i, n - 1);
    if i < n - 1 {
      StillOpenIsListed(ts, i, n - 1);
      OpensAreStillOpen(ts, n - 1);
      assert before == before[..|before| - 1] + [before[|before| - 1]];
    }
  }

  /** The bracket a `)` closes is the innermost one still open. */
  lemma {:induction false} ClosesInnermost(ts: seq<Token>, i: nat, j: nat)
    requires j < |ts| && ts[j] == Close
    ensures Encloses(ts, i, j) <==> Opens(ts, j) != [] && Opens(ts, j)[|Opens(ts, j)| - 1] == i
  {
    OpensAreStillOpen(ts, j);
    if Encloses(ts, i, j) {
      StillOpenIsListed(ts, i, j);
    }
  }

  function Pushed(stack: seq<bool>, t: Token): seq<bool> {
    match t
    case Open => stack + [false]
    case Close => Popped(stack)
    case Atom => stack
    case _ => Marked(stack)
  }

  /** The stack of marks after `n` tokens. */
  ghost function Flags(ts: seq<Token>, n: nat): seq<bool>
    requires n <= |ts|
  {
    if n == 0 then [] else Pushed(Flags(ts, n - 1), ts[n - 1])
  }

  /** The flag of an open bracket says whether a mark was seen inside it so far. */
  ghost predicate FlagsMean(ts: seq<Token>, opens: seq<nat>, flags: seq<bool>, n: nat)
    requires n <= |ts|
  {
    |flags| == |opens| && forall m :: 0 <= m < |opens| ==> (flags[m] <==> MarkBetween(ts, opens[m] + 1, n))
  }

  lemma {:induction false} FlagsLaw(ts: seq<Token>, n: nat)
    requires n <= |ts|
    ensures FlagsMean(ts, Opens(ts, n), Flags(ts, n), n)
  {
    if n > 0 {
      FlagsLaw(ts, n - 1);
      FlagsKeepMeaning(ts, Opens(ts, n - 1), Flags(ts, n - 1), n - 1);
    }
  }

  lemma FlagsKeepMeaning(ts: seq<Token>, opens: seq<nat>, flags: seq<bool>, n: nat)
    requires n < |ts| && FlagsMean(ts, opens, flags, n) && forall m :: 0 <= m < |opens| ==> opens[m] < n
    ensures FlagsMean(ts,
                      if ts[n] == Open then opens + [n]
                      else if ts[n] == Close && opens != [] then opens[..|opens| - 1]
                      else opens,
                      Pushed(flags, ts[n]), n + 1)
  {
    forall m | 0 <= m < |opens| ensures MarkBetween(ts, opens[m] + 1, n + 1) <==> flags[m] || IsMark(ts[n]) {
      MarkStep(ts, opens[m] + 1, n);
    }
  }

  lemma MarkStep(ts: seq<Token>, a: nat, n: nat)
    requires a <= n < |ts|
    ensures MarkBetween(ts, a, n + 1) <==> MarkBetween(ts, a, n) || IsMark(ts[n])
  {
  }

  /** The scan from `n` on, with the marks of the tokens before. */
  ghost predicate ScanFrom(ts: seq<Token>, n: nat)
    requires n <= |ts|
  {
    Scan(false, Flags(ts, n), ts[n..])
  }

  lemma ScanFromStep(ts: seq<Token>, n: nat)
    requires n < |ts|
    ensures ScanFrom(ts, n) <==> DangerAt(ts, n) || ScanFrom(ts, n + 1)
  {
    FlagsSnoc(ts, n);
    ScanStep(ts, n, Flags(ts, n));
    DangerHere(ts, n);
  }

  lemma {:induction false} ScanFindsDanger(ts: seq<Token>, n: nat)
    requires n <= |ts|
    ensures ScanFrom(ts, n) <==> DangerFrom(ts, n)
    decreases |ts| - n
  {
    if n < |ts| {
      ScanFindsDanger(ts, n + 1);
      ScanFromStep(ts, n);
      DangerFromStep(ts, n);
    } else {
      ScanEnds(ts, Flags(ts, n));
    }
  }

  lemma FlagsSnoc(ts: seq<Token>, n: nat)
    requires n < |ts|
    ensures Flags(ts, n + 1) == Pushed(Flags(ts, n), ts[n])
  {
  }

  lemma ScanEnds(ts: seq<Token>, stack: seq<bool>)
    ensures !Scan(false, stack, ts[|ts|..]) && !DangerFrom(ts, |ts|)
  {
  }

  ghost predicate DangerFrom(ts: seq<Token>, n: nat) {
    exists j :: n <= j < |ts| && DangerAt(ts, j)
  }

  lemma DangerFromStep(ts: seq<Token>, n: nat)
    requires n < |ts|
    ensures DangerFrom(ts, n) <==> DangerAt(ts, n) || DangerFrom(ts, n + 1)
  {
  }

  lemma ScanStep(ts: seq<Token>, n: nat, stack: seq<bool>)
    requires n < |ts|
    ensures Scan(false, stack, ts[n..]) ==
            ((ts[n] == Close && n + 1 < |ts| && ts[n + 1] == Rep && stack != [] && stack[|stack| - 1])
             || Scan(false, Pushed(stack, ts[n]), ts[n + 1..]))
  {
    assert ts[n..][1..] == ts[n + 1..];
  }

  /** A `)` is dangerous exactly when it is quantified and the top of the stack is marked. */
  lemma DangerHere(ts: seq<Token>, n: nat)
    requires n < |ts|
    ensures DangerAt(ts, n) <==> && ts[n] == Close && n + 1 < |ts| && ts[n + 1] == Rep
                                 && Flags(ts, n) != [] && Flags(ts, n)[|Flags(ts, n)| - 1]
  {
    if ts[n] == Close {
      forall i: nat ensures Encloses(ts, i, n) <==> Opens(ts, n) != [] && Opens(ts, n)[|Opens(ts, n)| - 1] == i {
        ClosesInnermost(ts, i, n);
      }
      var opens := Opens(ts, n);
      FlagsLaw(ts, n);
      if opens != [] {
        var i := opens[|opens| - 1];
        assert Encloses(ts, i, n);
        assert Flags(ts, n)[|opens| - 1] <==> MarkBetween(ts, i + 1, n);
      }
    }
  }

  // ------------------------------------------------- finding the end of a quantifier

  function IndexOf(p: string, c: char): (i: nat)
    ensures i <= |p| && c !in p[..i] && (i < |p| ==> p[i] == c)
  {
    if p == [] || p[0] == c then 0 else
    var i := IndexOf(p[1..], c);
    assert p[..i + 1] == [p[0]] + p[1..][..i];
    i + 1
  }

  /** The text between the braces: digits, at most one comma, digits. */
  predicate Bounds(s: string) {
    var comma := IndexOf(s, ',');
    Digits(s[..comma]) && (comma < |s| ==> Digits(s[comma + 1..]))
  }

  /** matchQuantifierAt: the end of the quantifier that starts at `i`. */
  function QuantifierEnd(p: string, i: nat): (end: Option<nat>)
    requires i <= |p|
    ensures end.Some? ==> i < end.value <= |p|
  {
    if i == |p| then None
    else if p[i] == '+' || p[i] == '*' then Some(i + 1)
    else if p[i] == '{' then
      var close := IndexOf(p[i..], '}');
      if i + close < |p| && Bounds(p[i + 1..i + close]) then Some(i + close + 1) else None
    else None
  }

  lemma {:induction false} IndexIs(p: string, c: char, i: nat)
    requires i <= |p| && c !in p[..i] && (i < |p| ==> p[i] == c)
    ensures IndexOf(p, c) == i
  {
    if i > 0 {
      assert p[0] in p[..i] && p[1..][..i - 1] == p[..i][1..];
      IndexIs(p[1..], c, i - 1);
    }
  }

  lemma DigitsHoldNoMark(a: string)
    requires Digits(a)
    ensures ',' !in a && '}' !in a
  {
  }

  lemma BoundsWithout(a: string)
    requires Digits(a)
    ensures Bounds(a)
  {
    DigitsHoldNoMark(a);
    assert a[..|a|] == a;
    IndexIs(a, ',', |a|);
  }

  lemma BoundsWith(a: string, b: string)
    requires Digits(a) && Digits(b)
    ensures Bounds(a + "," + b)
  {
    var s := a + "," + b;
    DigitsHoldNoMark(a);
    assert s[..|a|] == a && s[|a|] == ',' && s[|a| + 1..] == b;
    IndexIs(s, ',', |a|);
  }

  /** Braces around such a text are a quantifier. */
  lemma BoundsAreQuantifiers(s: string)
    requires Bounds(s)
    ensures IsQuantifier("{" + s + "}")
  {
    var comma := IndexOf(s, ',');
    if comma < |s| {
      var a, b := s[..comma], s[comma + 1..];
      assert s == a + "," + b;
      assert "{" + s + "}" == "{" + a + "," + b + "}";
    } else {
      assert s == s[..comma] && Digits("");
      assert "{" + s + "}" == "{" + s + "}";
    }
  }

  /** What the search returns is a quantifier. */
  lemma EndIsQuantifier(p: string, i: nat)
    requires i <= |p| && QuantifierEnd(p, i).Some?
    ensures IsQuantifier(p[i..QuantifierEnd(p, i).value])
  {
    var n := QuantifierEnd(p, i).value;
    if p[i] == '{' {
      var inner := p[i + 1..n - 1];
      BoundsAreQuantifiers(inner);
      assert p[i..n] == "{" + inner + "}";
    } else {
      assert p[i..n] == [p[i]];
    }
  }

  /** Braces whose text is a bound are found as they are. */
  lemma BracesAreFound(p: string, i: nat, s: string)
    requires i + |s| + 2 <= |p| && p[i..i + |s| + 2] == "{" + s + "}" && Bounds(s) && '}' !in s
    ensures QuantifierEnd(p, i) == Some(i + |s| + 2)
  {
    var q := p[i..i + |s| + 2];
    assert q[0] == '{' && p[i] == q[0];
    assert p[i..][..|s| + 1] == "{" + s by {
      assert p[i..][..|s| + 2] == q && p[i..][..|s| + 1] == q[..|s| + 1];
    }
    assert p[i..][|s| + 1] == q[|s| + 1] == '}';
    IndexIs(p[i..], '}', |s| + 1);
    assert p[i + 1..i + |s| + 1] == q[1..|s| + 1] == s;
  }

  /** And every quantifier is found. */
  lemma QuantifierIsFound(p: string, i: nat, n: nat)
    requires i < n <= |p| && IsQuantifier(p[i..n])
    ensures QuantifierEnd(p, i) == Some(n)
  {
    var q := p[i..n];
    assert q[0] == p[i];
    if q != "+" && q != "*" {
      var a: string, b: string :| Digits(a) && Digits(b) && (q == "{" + a + "}" || q == "{" + a + "," + b + "}");
      DigitsHoldNoMark(a);
      DigitsHoldNoMark(b);
      if q == "{" + a + "}" {
        BoundsWithout(a);
        BracesAreFound(p, i, a);
      } else {
        BoundsWith(a, b);
        assert q == "{" + (a + "," + b) + "}";
        BracesAreFound(p, i, a + "," + b);
      }
    }
  }

  lemma FoundExactly(p: string, i: nat)
    requires i <= |p|
    ensures QuantifierEnd(p, i).Some? <==> QuantifierAt(p, i)
  {
    if QuantifierEnd(p, i).Some? { EndIsQuantifier(p, i); }
    if n :| i < n <= |p| && IsQuantifier(p[i..n]) { QuantifierIsFound(p, i, n); }
  }

  // -------------------------------------------------- the loop over the characters

  lemma InClassStep(p: string, i: nat)
    requires i < |p|
    ensures InClass(p, i + 1) <==>
            if InClass(p, i) then !(p[i] == ']' && !Escaped(p, i)) else p[i] == '[' && !Escaped(p, i)
  {
    if j :| 0 <= j < i && p[j] == '[' && !Escaped(p, j) && OpenSince(p, j, i) {
      assert !(p[i] == ']' && !Escaped(p, i)) ==> OpenSince(p, j, i + 1);
    }
    if p[i] == '[' && !Escaped(p, i) { assert OpenSince(p, i, i + 1); }
    if j :| 0 <= j < i + 1 && p[j] == '[' && !Escaped(p, j) && OpenSince(p, j, i + 1) {
      assert j < i ==> OpenSince(p, j, i);
    }
  }

  /** The characters of a quantifier after its first one. */
  lemma InsideQuantifier(q: string)
    requires IsQuantifier(q)
    ensures q[0] in "+*{" && forall k :: 0 < k < |q| ==> q[k] in "0123456789,}"
  {
    if q != "+" && q != "*" {
      var a: string, b: string :| Digits(a) && Digits(b) && (q == "{" + a + "}" || q == "{" + a + "," + b + "}");
    }
  }

  /** They mean nothing by themselves, and end neither an escape nor a class. */
  lemma QuantifierMeansOnce(p: string, i: nat, n: nat)
    requires i < n <= |p| && IsQuantifier(p[i..n]) && !Escaped(p, i) && !InClass(p, i)
    ensures forall k :: i < k < n ==> Meaning(p, k) == Atom
    ensures !Escaped(p, n) && !InClass(p, n)
    decreases n - i
  {
    var q := p[i..n];
    InsideQuantifier(q);
    assert forall k :: i <= k < n ==> p[k] == q[k - i];
    forall k | i < k < n ensures Meaning(p, k) == Atom {
      FoundExactly(p, k);
    }
    OutsideStays(p, i, n);
  }

  lemma {:induction false} OutsideStays(p: string, i: nat, n: nat)
    requires i <= n <= |p| && !Escaped(p, i) && !InClass(p, i)
    requires forall k :: i <= k < n ==> p[k] != '[' && p[k] != '\\'
    ensures !Escaped(p, n) && !InClass(p, n)
    decreases n - i
  {
    if i < n {
      InClassStep(p, i);
      OutsideStays(p, i + 1, n);
    }
  }

  lemma {:induction false} ScanAtoms(stack: seq<bool>, ts: seq<Token>, n: nat)
    requires n <= |ts| && forall k :: 0 <= k < n ==> ts[k] == Atom
    ensures Scan(true, stack, ts) == Scan(true, stack, ts[n..])
  {
    if n > 0 {
      ScanAtoms(stack, ts[1..], n - 1);
      assert ts[1..][n - 1..] == ts[n..];
    } else {
      assert ts[0..] == ts;
    }
  }

  /** One character without a meaning. */
  lemma QuietStep(p: string, i: nat, stack: seq<bool>)
    requires i < |p| && Meaning(p, i) == Atom
    ensures Scan(true, stack, Meanings(p)[i..]) == Scan(true, stack, Meanings(p)[i + 1..])
  {
    assert Meanings(p)[i..][1..] == Meanings(p)[i + 1..];
    ScanAtoms(stack, Meanings(p)[i..], 1);
  }

  /** A bracket or a `|`. */
  lemma LiveStep(p: string, i: nat, stack: seq<bool>)
    requires i < |p| && !Escaped(p, i) && !InClass(p, i) && p[i] in "()|"
    ensures var quantified := p[i] == ')' && QuantifierEnd(p, i + 1).Some?;
            Scan(true, stack, Meanings(p)[i..]) ==
              if p[i] == '(' then Scan(true, stack + [false], Meanings(p)[i + 1..])
              else if p[i] == ')' then
                (quantified && stack != [] && stack[|stack| - 1])
                || Scan(true, if quantified then Marked(Popped(stack)) else Popped(stack), Meanings(p)[i + 1..])
              else Scan(true, Marked(stack), Meanings(p)[i + 1..])
  {
    var ts := Meanings(p)[i..];
    assert ts[1..] == Meanings(p)[i + 1..] && ts[0] == Meaning(p, i);
    if p[i] == ')' && i + 1 < |p| {
      InClassStep(p, i);
      FoundExactly(p, i + 1);
      if QuantifierEnd(p, i + 1).Some? { NoMeaningOfItsOwn(p, i + 1); }
      assert ts[1] == Meaning(p, i + 1);
    }
  }

  lemma NoMeaningOfItsOwn(p: string, i: nat)
    requires i <= |p| && QuantifierEnd(p, i).Some?
    ensures p[i] != '(' && p[i] != ')' && p[i] != '|'
  {
  }

  /** A quantifier, up to its end. */
  lemma RepetitionStep(p: string, i: nat, n: nat, stack: seq<bool>)
    requires i < |p| && !Escaped(p, i) && !InClass(p, i) && QuantifierEnd(p, i) == Some(n)
    ensures Scan(true, stack, Meanings(p)[i..]) == Scan(true, Marked(stack), Meanings(p)[n..])
    ensures !Escaped(p, n) && !InClass(p, n)
  {
    var ts := Meanings(p)[i..];
    EndIsQuantifier(p, i);
    FoundExactly(p, i);
    NoMeaningOfItsOwn(p, i);
    QuantifierMeansOnce(p, i, n);
    assert ts[0] == Rep && ts[1..][n - i - 1..] == Meanings(p)[n..];
    ScanAtoms(Marked(stack), ts[1..], n - i - 1);
  }

  /**
   * The loop of the source, character by character. It answers true exactly when some group of the pattern is
   * quantified and holds a live quantifier or `|` at any depth, whether or not the pattern is well-bracketed.
   */
  method IsDangerousRegexPattern(pattern: string) returns (dangerous: bool)
    ensures dangerous <==> exists j :: 0 <= j < |pattern| && DangerAt(Meanings(pattern), j)
  {
    Decides(pattern);
    dangerous := ScanPattern(pattern);
  }

  lemma Decides(pattern: string)
    ensures Scan(true, [], Meanings(pattern)) <==> DangerFrom(Meanings(pattern), 0)
  {
    ExtraMarkingIsIdle([], Meanings(pattern));
    ScanFindsDanger(Meanings(pattern), 0);
    assert Meanings(pattern)[0..] == Meanings(pattern);
  }

  method ScanPattern(pattern: string) returns (dangerous: bool)
    ensures dangerous == Scan(true, [], Meanings(pattern))
  {
    var i, inClass, escaped, openGroups := 0, false, false, [];
    dangerous := false;
    assert Meanings(pattern)[0..] == Meanings(pattern);
    while i < |pattern| && !dangerous
      invariant i <= |pattern| && (!dangerous ==> escaped == Escaped(pattern, i) && inClass == InClass(pattern, i))
      invariant dangerous ==> Scan(true, [], Meanings(pattern))
      invariant !dangerous ==>
          Scan(true, [], Meanings(pattern)) == Scan(true, openGroups, Meanings(pattern)[i..])
      decreases |pattern| - i
    {
      i, inClass, escaped, openGroups, dangerous := TakeCharacter(pattern, i, inClass, escaped, openGroups);
    }
  }

  /** The body of the loop: what the character at `i` does to the flags and the stack. */
  method TakeCharacter(pattern: string, i: nat, inClass: bool, escaped: bool, openGroups: seq<bool>)
    returns (next: nat, classNext: bool, escapedNext: bool, groups: seq<bool>, dangerous: bool)
    requires i < |pattern| && escaped == Escaped(pattern, i) && inClass == InClass(pattern, i)
    ensures i < next <= |pattern|
    ensures escapedNext == Escaped(pattern, next) && classNext == InClass(pattern, next)
    ensures Scan(true, openGroups, Meanings(pattern)[i..]) ==
            (dangerous || Scan(true, groups, Meanings(pattern)[next..]))
  {
    var ch := pattern[i];
    InClassStep(pattern, i);
    next, classNext, escapedNext, groups, dangerous := i + 1, inClass, false, openGroups, false;
    if escaped || inClass || ch == '\\' || ch == '[' {
      FoundExactly(pattern, i);
      QuietStep(pattern, i, openGroups);
      if escaped { return; }
      if ch == '\\' {
        escapedNext := true;
      } else if inClass {
        if ch == ']' { classNext := false; }
      } else {
        classNext := true;
      }
      return;
    }
    if ch == '(' {
      LiveStep(pattern, i, openGroups);
      groups := openGroups + [false];
    } else if ch == ')' {
      LiveStep(pattern, i, openGroups);
      var marked := openGroups != [] && openGroups[|openGroups| - 1];
      groups := Popped(openGroups);
      var quantified := QuantifierEnd(pattern, i + 1).Some?;
      dangerous := quantified && marked;
      if quantified { groups := Marked(groups); }
    } else if ch == '|' {
      LiveStep(pattern, i, openGroups);
      groups := Marked(openGroups);
    } else {
      var end := QuantifierEnd(pattern, i);
      if end.Some? {
        RepetitionStep(pattern, i, end.value, openGroups);
        groups := Marked(openGroups);
        next := end.value;
      } else {
        FoundExactly(pattern, i);
        QuietStep(pattern, i, openGroups);
      }
    }
  }
}
