/**
 * The link blocker (bg/blocker.js): user patterns with `*` and `?` wildcards,
 * compiled once when the configuration loads, and the check that sends a
 * navigation to the blocked page when a pattern matches.
 */
module Blocker {

  import opened Base
  import opened JsText
  import opened Url

  // ---------------------------------------------------------------------------
  // Patterns

  /**
   * One element of a compiled pattern: `*` becomes `.*`, `?` becomes `.`, and
   * every other character is escaped by `escapeRegex` and so stands for itself.
   */
  datatype GlobItem = AnyRun | AnyChar | Literal(c: char)

  /** The compiled form of a pattern: `^...$` with the `i` flag. */
  type Glob = seq<GlobItem>

  function ItemOf(c: char): GlobItem {
    if c == '*' then AnyRun else if c == '?' then AnyChar else Literal(c)
  }

  /** `source.split('*').map(part => part.split('?').map(escapeRegex).join('.')).join('.*')`, character by character. */
  function Compile(source: string): (g: Glob)
    ensures |g| == |source|
    ensures forall k :: 0 <= k < |source| ==> g[k] == ItemOf(source[k])
  {
    seq(|source|, k requires 0 <= k < |source| => ItemOf(source[k]))
  }

  /** `/[\*\?]/` */
  predicate HasWildcard(s: string) {
    '*' in s || '?' in s
  }

  /**
   * `wildcardToRegex`: a blank or `#` comment line compiles to nothing; a line
   * with no `://` and no wildcard is searched for anywhere in the URL; any
   * other line must match the whole URL.
   */
  function WildcardToRegex(pattern: string): (r: Option<Glob>)
    ensures r.None? <==> Trim(pattern) == "" || StartsWith(Trim(pattern), "#")
    ensures r.Some? && (Contains(Trim(pattern), "://") || HasWildcard(Trim(pattern))) ==> r.value == Compile(Trim(pattern))
    ensures r.Some? && !Contains(Trim(pattern), "://") && !HasWildcard(Trim(pattern)) ==> r.value == Compile("*" + Trim(pattern) + "*")
  {
    var raw := Trim(pattern);
    if raw == "" || StartsWith(raw, "#") then None
    else if !Contains(raw, "://") && !HasWildcard(raw) then Some(Compile("*" + raw + "*"))
    else Some(Compile(raw))
  }

  /**
   * The compiled regular expression matches all of `s`: `.` matches any
   * character but a line terminator, and letters match either case.
   */
  predicate Matches(g: Glob, s: string)
    decreases |g| + |s|
  {
    if g == [] then s == []
    else match g[0]
      case AnyRun => Matches(g[1..], s) || (s != [] && !IsLineTerminator(s[0]) && Matches(g, s[1..]))
      case AnyChar => s != [] && !IsLineTerminator(s[0]) && Matches(g[1..], s[1..])
      case Literal(c) => s != [] && SameIgnoringCase(s[0], c) && Matches(g[1..], s[1..])
  }

  predicate NoLineTerminator(s: string) {
    forall k :: 0 <= k < |s| ==> !IsLineTerminator(s[k])
  }

  /** `a` and `b` are the same text up to the case of ASCII letters. */
  predicate EqualIgnoringCase(a: string, b: string) {
    |a| == |b| && forall k :: 0 <= k < |a| ==> SameIgnoringCase(a[k], b[k])
  }

  /** `p` occurs in `s` at `k`, up to case. */
  predicate OccursIgnoringCaseAt(s: string, p: string, k: int) {
    0 <= k && k + |p| <= |s| && EqualIgnoringCase(s[k..k + |p|], p)
  }

  /** A pattern without wildcards matches exactly the strings equal to it up to case. */
  lemma {:induction false} LiteralsMatch(raw: string, s: string)
    requires !HasWildcard(raw)
    ensures Matches(Compile(raw), s) <==> EqualIgnoringCase(s, raw)
    decreases |raw|
  {
    if raw != [] {
      assert Compile(raw)[1..] == Compile(raw[1..]);
      assert !HasWildcard(raw[1..]) by {
        assert forall k :: 0 <= k < |raw[1..]| ==> raw[1..][k] == raw[k + 1];
      }
      if s != [] {
        LiteralsMatch(raw[1..], s[1..]);
        if EqualIgnoringCase(s, raw) {
          assert EqualIgnoringCase(s[1..], raw[1..]) by {
            forall k | 0 <= k < |s[1..]| ensures SameIgnoringCase(s[1..][k], raw[1..][k]) {
              assert s[1..][k] == s[k + 1];
            }
          }
        }
      }
    }
  }

  /** `.*` followed by `g` matches `s` exactly when `g` matches some suffix of `s`. */
  lemma {:induction false} AnyRunMatches(g: Glob, s: string)
    requires NoLineTerminator(s)
    ensures Matches([AnyRun] + g, s) <==> exists j :: 0 <= j <= |s| && Matches(g, s[j..])
    decreases |s|
  {
    var ag := [AnyRun] + g;
    assert ag[1..] == g;
    if s == [] {
      assert s[0..] == s;
    } else {
      AnyRunMatches(g, s[1..]);
      assert s[0..] == s;
      if Matches(ag, s) && !Matches(g, s) {
        var j :| 0 <= j <= |s[1..]| && Matches(g, s[1..][j..]);
        assert s[1..][j..] == s[j + 1..];
      }
      if !Matches(g, s) && (exists j :: 0 <= j <= |s| && Matches(g, s[j..])) {
        var j :| 0 <= j <= |s| && Matches(g, s[j..]);
        assert j != 0;
        assert s[1..][j - 1..] == s[j..];
      }
    }
  }

  /** `raw` then `.*` matches `s` exactly when `s` starts with `raw` up to case. */
  lemma {:induction false} LiteralsThenAnyRun(raw: string, s: string)
    requires !HasWildcard(raw) && NoLineTerminator(s)
    ensures Matches(Compile(raw) + [AnyRun], s) <==> |raw| <= |s| && EqualIgnoringCase(s[..|raw|], raw)
    decreases |raw|
  {
    var g := Compile(raw) + [AnyRun];
    if raw == [] {
      assert g == [AnyRun] + [];
      AnyRunMatches([], s);
      assert s[|s|..] == [];
    } else {
      assert g[1..] == Compile(raw[1..]) + [AnyRun];
      assert !HasWildcard(raw[1..]) by {
        assert forall k :: 0 <= k < |raw[1..]| ==> raw[1..][k] == raw[k + 1];
      }
      if s != [] {
        LiteralsThenAnyRun(raw[1..], s[1..]);
        if |raw| <= |s| {
          assert s[1..][..|raw[1..]|] == s[..|raw|][1..];
          if EqualIgnoringCase(s[..|raw|], raw) {
            assert EqualIgnoringCase(s[..|raw|][1..], raw[1..]) by {
              forall k | 0 <= k < |raw| - 1 ensures SameIgnoringCase(s[..|raw|][1..][k], raw[1..][k]) {
                assert s[..|raw|][1..][k] == s[..|raw|][k + 1];
              }
            }
          }
        }
      }
    }
  }

  /** `*raw*` matches a URL exactly when `raw` occurs in it, ignoring case. */
  lemma SubstringGlob(raw: string, url: string)
    requires !HasWildcard(raw) && NoLineTerminator(url)
    ensures Matches(Compile("*" + raw + "*"), url) <==> exists k :: OccursIgnoringCaseAt(url, raw, k)
  {
    var g := Compile("*" + raw + "*");
    assert g == [AnyRun] + (Compile(raw) + [AnyRun]);
    AnyRunMatches(Compile(raw) + [AnyRun], url);
    if Matches(g, url) {
      var j :| 0 <= j <= |url| && Matches(Compile(raw) + [AnyRun], url[j..]);
      assert NoLineTerminator(url[j..]) by {
        assert forall k :: 0 <= k < |url[j..]| ==> url[j..][k] == url[j + k];
      }
      LiteralsThenAnyRun(raw, url[j..]);
      assert url[j..][..|raw|] == url[j..j + |raw|];
      assert OccursIgnoringCaseAt(url, raw, j);
    }
    if exists k :: OccursIgnoringCaseAt(url, raw, k) {
      var k :| OccursIgnoringCaseAt(url, raw, k);
      assert NoLineTerminator(url[k..]) by {
        assert forall i :: 0 <= i < |url[k..]| ==> url[k..][i] == url[k + i];
      }
      LiteralsThenAnyRun(raw, url[k..]);
      assert url[k..][..|raw|] == url[k..k + |raw|];
    }
  }

  /**
   * A line with no `://` and no wildcard finds its text anywhere in a URL,
   * ignoring case.
   */
  lemma SubstringPattern(pattern: string, url: string)
    requires Trim(pattern) != "" && !StartsWith(Trim(pattern), "#")
    requires !Contains(Trim(pattern), "://") && !HasWildcard(Trim(pattern))
    requires NoLineTerminator(url)
    ensures WildcardToRegex(pattern) == Some(Compile("*" + Trim(pattern) + "*"))
    ensures Matches(WildcardToRegex(pattern).value, url) <==> exists k :: OccursIgnoringCaseAt(url, Trim(pattern), k)
  {
    SubstringGlob(Trim(pattern), url);
  }

  /** A line with `://` and no wildcard matches only that URL, ignoring case. */
  lemma ExactPattern(pattern: string, url: string)
    requires Trim(pattern) != "" && !StartsWith(Trim(pattern), "#")
    requires Contains(Trim(pattern), "://") && !HasWildcard(Trim(pattern))
    ensures WildcardToRegex(pattern).Some?
    ensures Matches(WildcardToRegex(pattern).value, url) <==> EqualIgnoringCase(url, Trim(pattern))
  {
    LiteralsMatch(Trim(pattern), url);
  }

  /** Compiled patterns compose: a match of `a` followed by a match of `b` matches `a + b`. */
  lemma {:induction false} MatchesConcat(a: Glob, b: Glob, x: string, y: string)
    requires Matches(a, x) && Matches(b, y)
    ensures Matches(a + b, x + y)
    decreases |a| + |x|
  {
    if a == [] {
      assert a + b == b && x + y == y;
    } else {
      assert (a + b)[1..] == a[1..] + b;
      if x != [] {
        assert (x + y)[0] == x[0];
        assert (x + y)[1..] == x[1..] + y;
      }
      match a[0]
      case AnyRun =>
        if Matches(a[1..], x) {
          MatchesConcat(a[1..], b, x, y);
        } else {
          MatchesConcat(a, b, x[1..], y);
        }
      case AnyChar =>
        MatchesConcat(a[1..], b, x[1..], y);
      case Literal(_) =>
        MatchesConcat(a[1..], b, x[1..], y);
    }
  }

  /** `*` matches any run of characters (that holds no line terminator), the empty run included. */
  lemma {:induction false} AnyRunMatchesRun(y: string)
    requires NoLineTerminator(y)
    ensures Matches([AnyRun], y)
    decreases |y|
  {
    assert [AnyRun][1..] == [];
    if y != [] {
      AnyRunMatchesRun(y[1..]);
    }
  }

  /** `?` matches exactly one character (that is not a line terminator). */
  lemma AnyCharMatchesOne(s: string)
    ensures Matches([AnyChar], s) <==> |s| == 1 && !IsLineTerminator(s[0])
  {
    assert [AnyChar][1..] == [];
  }

  /** `a*b` matches `x`, then any run, then `z`, when `a` matches `x` and `b` matches `z`. */
  lemma StarJoins(a: Glob, b: Glob, x: string, y: string, z: string)
    requires Matches(a, x) && Matches(b, z) && NoLineTerminator(y)
    ensures Matches(a + [AnyRun] + b, x + y + z)
  {
    AnyRunMatchesRun(y);
    MatchesConcat(a, [AnyRun], x, y);
    MatchesConcat(a + [AnyRun], b, x + y, z);
  }

  // ---------------------------------------------------------------------------
  // The compiled list

  /** What each line compiles to: `patterns.map(wildcardToRegex)`. */
  function Lines(patterns: seq<string>): (r: seq<Option<Glob>>)
    ensures |r| == |patterns|
  {
    seq(|patterns|, k requires 0 <= k < |patterns| => WildcardToRegex(patterns[k]))
  }

  /** The positions of the lines that compiled, in order. */
  function SomeIndexes(lines: seq<Option<Glob>>): (r: seq<nat>)
    ensures |r| <= |lines|
    ensures forall i :: 0 <= i < |r| ==> r[i] < |lines|
    decreases |lines|
  {
    if lines == [] then []
    else
      var n := |lines| - 1;
      var init := SomeIndexes(lines[..n]);
      if lines[n].Some? then init + [n] else init
  }

  /** Each listed position holds a compiled line, and the positions increase. */
  lemma {:induction false} SomeIndexesSound(lines: seq<Option<Glob>>)
    ensures forall i :: 0 <= i < |SomeIndexes(lines)| ==> lines[SomeIndexes(lines)[i]].Some?
    ensures forall i, j :: 0 <= i < j < |SomeIndexes(lines)| ==> SomeIndexes(lines)[i] < SomeIndexes(lines)[j]
    decreases |lines|
  {
    if lines != [] {
      var n := |lines| - 1;
      SomeIndexesSound(lines[..n]);
      var init := SomeIndexes(lines[..n]);
      assert forall i :: 0 <= i < |init| ==> lines[..n][init[i]] == lines[init[i]];
    }
  }

  /** Every compiled line is listed. */
  lemma {:induction false} SomeIndexesComplete(lines: seq<Option<Glob>>, k: nat)
    requires k < |lines| && lines[k].Some?
    ensures k in SomeIndexes(lines)
    decreases |lines|
  {
    var n := |lines| - 1;
    if k < n {
      assert lines[..n][k] == lines[k];
      SomeIndexesComplete(lines[..n], k);
    }
  }

  /** The `i`-th compiled line sits at position `i` or later: skipped lines only push it back. */
  lemma {:induction false} SomeIndexesAtLeast(lines: seq<Option<Glob>>, i: nat)
    requires i < |SomeIndexes(lines)|
    ensures i <= SomeIndexes(lines)[i]
    decreases |lines|
  {
    var n := |lines| - 1;
    var init := SomeIndexes(lines[..n]);
    if i < |init| {
      SomeIndexesAtLeast(lines[..n], i);
      assert SomeIndexes(lines)[i] == init[i];
    }
  }

  /** When every line compiled, every line is listed at its own position. */
  lemma {:induction false} SomeIndexesAll(lines: seq<Option<Glob>>)
    requires forall k :: 0 <= k < |lines| ==> lines[k].Some?
    ensures |SomeIndexes(lines)| == |lines|
    ensures forall i :: 0 <= i < |lines| ==> SomeIndexes(lines)[i] == i
    decreases |lines|
  {
    if lines != [] {
      var n := |lines| - 1;
      assert forall k :: 0 <= k < n ==> lines[..n][k] == lines[k];
      SomeIndexesAll(lines[..n]);
    }
  }

  /** `.filter(Boolean)`: the compiled lines, in order. */
  function Filtered(lines: seq<Option<Glob>>): (r: seq<Glob>)
    ensures |r| == |SomeIndexes(lines)|
  {
    var idx := SomeIndexes(lines);
    SomeIndexesSound(lines);
    seq(|idx|, i requires 0 <= i < |idx| => lines[idx[i]].value)
  }

  /**
   * The positions of the lines that compile: `regexCache[i]` comes from
   * `patternsCache[CompiledIndexes(patterns)[i]]`.
   */
  function CompiledIndexes(patterns: seq<string>): (r: seq<nat>)
    ensures forall i :: 0 <= i < |r| ==> r[i] < |patterns|
  {
    SomeIndexes(Lines(patterns))
  }

  /** `patterns.map(wildcardToRegex).filter(Boolean)` */
  function CompileAll(patterns: seq<string>): (r: seq<Glob>)
    ensures |r| == |CompiledIndexes(patterns)| <= |patterns|
  {
    Filtered(Lines(patterns))
  }

  /** Index of the first compiled pattern matching `s`. */
  function FirstMatching(rs: seq<Glob>, s: string): (r: Option<nat>)
    ensures r.Some? ==> r.value < |rs| && Matches(rs[r.value], s)
    ensures r.Some? ==> forall j :: 0 <= j < r.value ==> !Matches(rs[j], s)
    ensures r.None? ==> forall j :: 0 <= j < |rs| ==> !Matches(rs[j], s)
    decreases |rs|
  {
    if rs == [] then None
    else if Matches(rs[0], s) then Some(0)
    else match FirstMatching(rs[1..], s)
      case None => None
      case Some(j) => Some(j + 1)
  }

  /** The lookup of `matchesBlocked` as written, the one the blocker uses: the index into the compiled list picks from the uncompiled list. */
  function BlockedPatternAsWritten(patterns: seq<string>, s: string): Option<string> {
    match FirstMatching(CompileAll(patterns), s)
    case None => None
    case Some(i) => Some(patterns[i])
  }

  /** The evidently intended lookup: the index mapped back to the line the matching pattern came from. */
  function BlockedPattern(patterns: seq<string>, s: string): Option<string> {
    match FirstMatching(CompileAll(patterns), s)
    case None => None
    case Some(i) => Some(patterns[CompiledIndexes(patterns)[i]])
  }

  /** The line at `k` compiled to a pattern that matches `s`. */
  predicate LineMatches(lines: seq<Option<Glob>>, k: int, s: string)
    requires 0 <= k < |lines|
  {
    lines[k].Some? && Matches(lines[k].value, s)
  }

  /** The first match in the filtered list is the first matching line. */
  lemma FilteredFirstMatch(lines: seq<Option<Glob>>, s: string)
    ensures FirstMatching(Filtered(lines), s).None? ==> forall k :: 0 <= k < |lines| ==> !LineMatches(lines, k, s)
    ensures FirstMatching(Filtered(lines), s).Some? ==>
              var k := SomeIndexes(lines)[FirstMatching(Filtered(lines), s).value];
              LineMatches(lines, k, s) && forall e :: 0 <= e < k ==> !LineMatches(lines, e, s)
  {
    var idx := SomeIndexes(lines);
    var rs := Filtered(lines);
    SomeIndexesSound(lines);
    match FirstMatching(rs, s)
    case None =>
      forall k | 0 <= k < |lines| ensures !LineMatches(lines, k, s) {
        if lines[k].Some? {
          SomeIndexesComplete(lines, k);
          var i :| 0 <= i < |idx| && idx[i] == k;
          assert rs[i] == lines[k].value;
        }
      }
    case Some(i) =>
      var k := idx[i];
      assert rs[i] == lines[k].value;
      forall e | 0 <= e < k ensures !LineMatches(lines, e, s) {
        if lines[e].Some? {
          SomeIndexesComplete(lines, e);
          var a :| 0 <= a < |idx| && idx[a] == e;
          assert a < i;
          assert rs[a] == lines[e].value;
        }
      }
  }

  /**
   * The corrected lookup reports the first line, in list order, whose
   * compiled pattern matches; with none, no line matches.
   */
  lemma BlockedPatternIsFirstMatch(patterns: seq<string>, s: string)
    ensures BlockedPattern(patterns, s).None? ==> forall k :: 0 <= k < |patterns| ==> !LineMatches(Lines(patterns), k, s)
    ensures BlockedPattern(patterns, s).Some? ==>
              exists k :: 0 <= k < |patterns| && patterns[k] == BlockedPattern(patterns, s).value
                && LineMatches(Lines(patterns), k, s)
                && forall e :: 0 <= e < k ==> !LineMatches(Lines(patterns), e, s)
  {
    FilteredFirstMatch(Lines(patterns), s);
  }

  /** Some line of the list compiles to a pattern that matches `s`. */
  predicate SomeLineMatches(patterns: seq<string>, s: string) {
    exists k :: 0 <= k < |patterns| && LineMatches(Lines(patterns), k, s)
  }

  /**
   * Whether a URL is blocked does not depend on the misreport: the lookup as
   * written finds a pattern exactly when some line compiles to a pattern that
   * matches.
   */
  lemma BlockedIffSomeLineMatches(patterns: seq<string>, s: string)
    ensures BlockedPatternAsWritten(patterns, s).Some? <==> SomeLineMatches(patterns, s)
  {
    BlockedPatternIsFirstMatch(patterns, s);
  }

  /** When every line compiles, the lookup as written reports the right line. */
  lemma AsWrittenAgreesWithoutSkippedLines(patterns: seq<string>, s: string)
    requires forall k :: 0 <= k < |patterns| ==> Lines(patterns)[k].Some?
    ensures BlockedPatternAsWritten(patterns, s) == BlockedPattern(patterns, s)
  {
    SomeIndexesAll(Lines(patterns));
  }

  /**
   * The misreport: with a comment line before a matching pattern, the lookup
   * as written names the comment line, which matches nothing; the corrected
   * lookup names the pattern that matched.
   */
  lemma BlockedPatternAsWrittenMisreports(patterns: seq<string>, s: string)
    requires patterns == ["#c", "*x*"] && s == "x"
    ensures WildcardToRegex(patterns[0]).None?
    ensures BlockedPatternAsWritten(patterns, s) == Some("#c")
    ensures BlockedPattern(patterns, s) == Some("*x*")
  {
    var g := [AnyRun, Literal('x'), AnyRun];
    CommentLineSkipped(patterns[0]);
    StarLineCompiles(patterns[1]);
    ExampleMatches(g, s);
    SkippedThenMatching(patterns, g, s);
  }

  /** Two lines, the first skipped and the second matching: the lookups name the first and the second line. */
  lemma SkippedThenMatching(patterns: seq<string>, g: Glob, s: string)
    requires |patterns| == 2 && WildcardToRegex(patterns[0]).None? && WildcardToRegex(patterns[1]) == Some(g)
    requires Matches(g, s)
    ensures BlockedPatternAsWritten(patterns, s) == Some(patterns[0])
    ensures BlockedPattern(patterns, s) == Some(patterns[1])
  {
    TwoLinesCompiled(patterns, g);
    assert FirstMatching([g], s) == Some(0);
  }

  /** Of two lines, the first skipped and the second compiled, only the second is in the compiled list. */
  lemma TwoLinesCompiled(patterns: seq<string>, g: Glob)
    requires |patterns| == 2 && WildcardToRegex(patterns[0]).None? && WildcardToRegex(patterns[1]) == Some(g)
    ensures CompileAll(patterns) == [g] && CompiledIndexes(patterns) == [1]
  {
    var lines := Lines(patterns);
    assert lines == [None, Some(g)];
    assert SomeIndexes(lines[..1]) == [] by {
      assert lines[..1][..0] == [];
    }
    assert SomeIndexes(lines) == [1];
    assert Filtered(lines) == [g];
  }

  lemma ExampleMatches(g: Glob, s: string)
    requires g == [AnyRun, Literal('x'), AnyRun] && s == "x"
    ensures Matches(g, s)
  {
    var rest := [AnyRun];
    assert g[1..] == [Literal('x'), AnyRun];
    assert g[1..][1..] == rest;
    assert rest[1..] == [];
    assert Matches(rest[1..], s[1..]);
    assert Matches(rest, s[1..]);
    assert SameIgnoringCase(s[0], 'x');
    assert Matches(g[1..], s);
  }

  lemma CommentLineSkipped(line: string)
    requires line == "#c"
    ensures WildcardToRegex(line).None?
  {
    assert !IsJsSpace(line[0]);
    assert TrimStart(line) == line;
    assert !IsJsSpace(line[1]);
    assert TrimEnd(line) == line;
    assert line[..1] == "#";
  }

  lemma StarLineCompiles(line: string)
    requires line == "*x*"
    ensures WildcardToRegex(line) == Some([AnyRun, Literal('x'), AnyRun])
  {
    assert TrimStart(line) == line;
    assert TrimEnd(line) == line;
    assert HasWildcard(line) by { assert line[0] == '*'; }
    assert Compile(line) == [AnyRun, Literal('x'), AnyRun];
  }

  // ---------------------------------------------------------------------------
  // Module state

  /** What `chrome.storage.sync.get` returned: it threw, or the two feature flags (null when unset) and the pattern list (null when not an array). */
  datatype StoredConfig = ReadThrew | Items(socialsEnabled: Option<bool>, linkBlockingEnabled: Option<bool>, patterns: Option<seq<string>>)

  /** `blocked.html?target=...&pattern=...`: the query the blocked page reads back. */
  function BlockedPageQuery(target: string, pattern: string): seq<Param> {
    var q := Set([], "target", target);
    if pattern != "" then Set(q, "pattern", pattern) else q
  }

  /** The blocked page reads the target and the pattern back from its query. */
  lemma BlockedPageQueryRoundTrip(target: string, pattern: string)
    ensures Get(BlockedPageQuery(target, pattern), "target") == Some(target)
    ensures Get(BlockedPageQuery(target, pattern), "pattern") == if pattern != "" then Some(pattern) else None
  {
    SetThenGet([], "target", target);
    if pattern != "" {
      SetThenGet(Set([], "target", target), "pattern", pattern);
      GetOtherAfterSet(Set([], "target", target), "pattern", pattern, "target");
    }
  }

  /** The URL carries the one-time override `lm_override=1`. */
  predicate Overridden(url: UrlText) {
    url.Parsed? && Get(url.url.query, "lm_override") == Some("1")
  }

  /** The module state of bg/blocker.js: `featuresCache`, `patternsCache` and `regexCache`. */
  class LinkBlocker {
    var socialsEnabled: bool
    var linkBlockingEnabled: bool
    var patterns: seq<string>
    var regexes: seq<Glob>

    /** `regexCache` is always the compiled `patternsCache`. */
    ghost predicate Valid()
      reads this
    {
      regexes == CompileAll(patterns)
    }

    /** The initial state: socials on, blocking off, no patterns. */
    constructor ()
      ensures Valid()
      ensures socialsEnabled && !linkBlockingEnabled && patterns == []
    {
      socialsEnabled := true;
      linkBlockingEnabled := false;
      patterns := [];
      regexes := [];
    }

    /**
     * `loadConfig`: the flags default to socials on and blocking off, a list
     * that is not an array becomes empty, and the compiled list is rebuilt; a
     * storage call that throws leaves everything as it was.
     */
    method LoadConfig(stored: StoredConfig)
      requires Valid()
      modifies this
      ensures Valid()
      ensures stored.ReadThrew? ==> unchanged(this)
      ensures stored.Items? ==>
                && socialsEnabled == (if stored.socialsEnabled.Some? then stored.socialsEnabled.value else true)
                && linkBlockingEnabled == (if stored.linkBlockingEnabled.Some? then stored.linkBlockingEnabled.value else false)
                && patterns == (if stored.patterns.Some? then stored.patterns.value else [])
    {
      match stored
      case ReadThrew =>
      case Items(socials, blocking, ps) =>
        socialsEnabled := if socials.Some? then socials.value else true;
        linkBlockingEnabled := if blocking.Some? then blocking.value else false;
        patterns := if ps.Some? then ps.value else [];
        regexes := CompileAll(patterns);
    }

    /**
     * `matchesBlocked`: nothing while blocking is off, for an empty URL or for
     * the override; otherwise, when a compiled pattern matches, the line at the
     * position of the first match in the compiled list (bg/blocker.js:64).
     */
    method MatchesBlocked(url: UrlText) returns (r: Option<string>)
      requires Valid()
      ensures !linkBlockingEnabled || Text(url) == "" || Overridden(url) ==> r.None?
      ensures linkBlockingEnabled && Text(url) != "" && !Overridden(url) ==> r == BlockedPatternAsWritten(patterns, Text(url))
      ensures r.Some? <==> linkBlockingEnabled && Text(url) != "" && !Overridden(url)
                           && SomeLineMatches(patterns, Text(url))
    {
      if !linkBlockingEnabled || Text(url) == "" || Overridden(url) {
        return None;
      }
      var s := Text(url);
      BlockedIffSomeLineMatches(patterns, s);
      var found := FindFirstMatch(regexes, s);
      match found
      case None =>
        r := None;
      case Some(i) =>
        ReportedLine(patterns, s, i);
        r := Some(patterns[i]);
    }

    /**
     * The decision of `checkAndBlock`: with blocking on, a non-empty URL that is
     * not an extension page, and a matching pattern, redirect to the blocked
     * page; the result is whether the tab update (`updateOk`) went through.
     */
    method CheckAndBlock(url: UrlText, updateOk: bool) returns (redirect: Option<seq<Param>>, blocked: bool)
      requires Valid()
      ensures redirect.Some? <==>
                linkBlockingEnabled && Text(url) != "" && !StartsWith(Text(url), "chrome-extension://")
                && !Overridden(url) && SomeLineMatches(patterns, Text(url))
      ensures redirect.Some? ==>
                && BlockedPatternAsWritten(patterns, Text(url)).Some?
                && redirect.value == BlockedPageQuery(Text(url), BlockedPatternAsWritten(patterns, Text(url)).value)
      ensures blocked <==> redirect.Some? && updateOk
    {
      if !linkBlockingEnabled || Text(url) == "" || StartsWith(Text(url), "chrome-extension://") {
        return None, false;
      }
      var m := MatchesBlocked(url);
      if m.None? {
        return None, false;
      }
      redirect := Some(BlockedPageQuery(Text(url), m.value));
      blocked := updateOk;
    }
  }

  /** The loop of `matchesBlocked`: test the compiled patterns in order and stop at the first that matches. */
  method FindFirstMatch(rs: seq<Glob>, s: string) returns (r: Option<nat>)
    ensures r == FirstMatching(rs, s)
  {
    var i := 0;
    while i < |rs|
      invariant 0 <= i <= |rs|
      invariant forall j :: 0 <= j < i ==> !Matches(rs[j], s)
    {
      if Matches(rs[i], s) {
        MatchIsFirst(rs, s, i);
        return Some(i);
      }
      i := i + 1;
    }
    NoMatchIsNone(rs, s);
    return None;
  }

  lemma MatchIsFirst(rs: seq<Glob>, s: string, i: nat)
    requires i < |rs| && Matches(rs[i], s)
    requires forall j :: 0 <= j < i ==> !Matches(rs[j], s)
    ensures FirstMatching(rs, s) == Some(i)
  {
    var r := FirstMatching(rs, s);
    assert r.Some?;
  }

  /**
   * Match `i` of the compiled list is reported as line `i` of the pattern list;
   * the line it came from is line `CompiledIndexes(patterns)[i]`, at or after `i`.
   */
  lemma ReportedLine(patterns: seq<string>, s: string, i: nat)
    requires FirstMatching(CompileAll(patterns), s) == Some(i)
    ensures i < |CompiledIndexes(patterns)| && i < |patterns|
    ensures BlockedPatternAsWritten(patterns, s) == Some(patterns[i])
    ensures BlockedPattern(patterns, s) == Some(patterns[CompiledIndexes(patterns)[i]])
    ensures i <= CompiledIndexes(patterns)[i]
  {
    SomeIndexesAtLeast(Lines(patterns), i);
  }

  lemma NoMatchIsNone(rs: seq<Glob>, s: string)
    requires forall j :: 0 <= j < |rs| ==> !Matches(rs[j], s)
    ensures FirstMatching(rs, s).None?
  {
  }
}
