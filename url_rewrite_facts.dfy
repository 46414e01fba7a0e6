/**
 * What the account-switching rewrite promises: the `authuser` round trip,
 * which parts of a URL each step leaves alone, idempotence, and that the
 * identity of a Docs or Drive file survives the rewrite.
 */
module UrlRewriteFacts {

  import opened Base
  import opened JsText
  import opened Url
  import opened UrlRewrite

  // ---------------------------------------------------------------------------
  // Search helpers

  lemma FirstNone(segs: seq<string>, P: SegmentTest)
    requires forall k :: 0 <= k < |segs| ==> !P(segs, k)
    ensures First(segs, P) == None
  {
  }

  /** Two tests that agree index by index find the same first match. */
  lemma FirstCongruent(a: seq<string>, P: SegmentTest, b: seq<string>, Q: SegmentTest)
    requires |a| == |b|
    requires forall k :: 0 <= k < |a| ==> P(a, k) == Q(b, k)
    ensures First(a, P) == First(b, Q)
  {
    match First(a, P)
    case Some(m) => FirstIs(b, Q, m);
    case None => FirstNone(b, Q);
  }

  /** A digit segment is none of the words the path patterns look for. */
  lemma DigitsAreNotWords(s: string)
    requires IsDigits(s)
    ensures !IsDocKind(s) && s != "u" && s != "d" && s != "file" && s != ""
  {
    assert IsDigit(s[0]);
  }

  lemma SegmentsSlashFree(p: string)
    ensures SlashFree(Segments(p))
  {
  }

  /** Splitting `/u/<d>/<rest>` */
  lemma SegmentsOfUPrefix(d: string, rest: string)
    requires '/' !in d
    ensures Segments("/u/" + d + "/" + rest) == ["", "u", d] + Segments(rest)
  {
    assert "/u/" + d + "/" + rest == "" + ['/'] + ("u" + ['/'] + (d + ['/'] + rest));
    SplitAfterThree("", "u", d, rest, '/');
  }

  /** Splitting three separator-free parts off the front. */
  lemma SplitAfterThree(a: string, b: string, c: string, rest: string, sep: char)
    requires sep !in a && sep !in b && sep !in c
    ensures Split(a + [sep] + (b + [sep] + (c + [sep] + rest)), sep) == [a, b, c] + Split(rest, sep)
  {
    SplitAfterPart(c, rest, sep);
    SplitAfterPart(b, c + [sep] + rest, sep);
    SplitAfterPart(a, b + [sep] + (c + [sep] + rest), sep);
  }

  // ---------------------------------------------------------------------------
  // The host test

  lemma EndsWithSuffix(s: string, a: string, b: string)
    requires EndsWith(s, a + b)
    ensures EndsWith(s, b)
  {
    assert s[|s| - |b|..] == (a + b)[|a|..];
  }

  /** A host is Google-like exactly when it is `google.com` or a subdomain of it; the second pattern adds nothing. */
  lemma IsGoogleLikeHostIff(host: string)
    ensures IsGoogleLikeHost(host) <==> host == "google.com" || EndsWith(host, ".google.com")
  {
    if host == "cloud.google.com" {
      assert "cloud.google.com" == "cloud" + ".google.com";
      assert EndsWith(host, ".google.com");
    }
    if EndsWith(host, "." + "cloud.google.com") {
      assert "." + "cloud.google.com" == ".cloud" + ".google.com";
      EndsWithSuffix(host, ".cloud", ".google.com");
    }
  }

  // ---------------------------------------------------------------------------
  // replacePathUIndex

  /** The first `/u/<digits>` names `i` (or there is none): the path the renumbering leaves as it is. */
  predicate USettled(p: string, i: nat) {
    SegsUSettled(Segments(p), i)
  }

  /** The segment-list form of `USettled`. */
  predicate SegsUSettled(segs: seq<string>, i: nat) {
    match First(segs, UDigitsAt)
    case None => true
    case Some(m) => segs[m + 1] == Dec(i)
  }

  /**
   * Renumbering changes only the digits after the first `/u/`, which become
   * `i`; the first match stays where it was, and a path without a match is
   * returned as it is.
   */
  lemma RewritePathUSettles(p: string, i: nat)
    ensures var r := RewritePathU(p, i);
      && |Segments(r)| == |Segments(p)|
      && First(Segments(r), UDigitsAt) == First(Segments(p), UDigitsAt)
      && USettled(r, i)
      && (forall k :: 0 <= k < |Segments(p)| && First(Segments(p), UDigitsAt) != Some(k - 1) ==> Segments(r)[k] == Segments(p)[k])
      && (First(Segments(p), UDigitsAt).None? ==> r == p)
  {
    var segs := Segments(p);
    match First(segs, UDigitsAt)
    case None =>
    case Some(m) =>
      var s2 := segs[m + 1 := Dec(i)];
      DigitsSlashFree(Dec(i));
      SegmentsOfJoin(s2);
      assert UDigitsAt(s2, m);
      forall k | 0 <= k < m ensures !UDigitsAt(s2, k) {
        assert !UDigitsAt(segs, k);
      }
      FirstIs(s2, UDigitsAt, m);
  }

  /** A settled path is left unchanged. */
  lemma RewritePathUFixed(p: string, i: nat)
    requires USettled(p, i)
    ensures RewritePathU(p, i) == p
  {
    var segs := Segments(p);
    match First(segs, UDigitsAt)
    case None =>
    case Some(m) =>
      assert segs[m + 1 := Dec(i)] == segs;
      JoinSplit(p, '/');
  }

  lemma RewritePathUIdempotent(p: string, i: nat)
    ensures RewritePathU(RewritePathU(p, i), i) == RewritePathU(p, i)
  {
    RewritePathUSettles(p, i);
    RewritePathUFixed(RewritePathU(p, i), i);
  }

  // ---------------------------------------------------------------------------
  // ensureDocsUIndex

  /** The segment list after inserting `u`, `<i>` after index `d`. */
  function DocsInsert(segs: seq<string>, d: nat, i: nat): seq<string>
    requires d + 1 <= |segs|
  {
    segs[..d + 1] + ["u", Dec(i)] + segs[d + 1..]
  }

  lemma DocsInsertIndexes(segs: seq<string>, d: nat, i: nat)
    requires d + 1 <= |segs|
    ensures var t := DocsInsert(segs, d, i);
      && |t| == |segs| + 2
      && (forall k :: 0 <= k <= d ==> t[k] == segs[k])
      && t[d + 1] == "u" && t[d + 2] == Dec(i)
      && (forall k :: d + 3 <= k < |t| ==> t[k] == segs[k - 2])
  {
  }

  lemma DocsInsertSlashFree(segs: seq<string>, d: nat, i: nat)
    requires d + 1 <= |segs| && SlashFree(segs)
    ensures SlashFree(DocsInsert(segs, d, i))
  {
    DocsInsertIndexes(segs, d, i);
    DigitsSlashFree(Dec(i));
  }

  /**
   * The Docs step inserts `u`, `<i>` right after the first `/<kind>/` that is
   * followed by `d/`, when no `/<kind>/u/<n>/d/` is present; otherwise the path
   * is unchanged.
   */
  lemma RewriteDocsPathShape(p: string, i: nat)
    ensures var segs := Segments(p);
      && (First(segs, DocsUDAt).Some? || First(segs, DocsDAt).None? ==> RewriteDocsPath(p, i) == p)
      && (First(segs, DocsUDAt).None? && First(segs, DocsDAt).Some? ==>
            var d := First(segs, DocsDAt).value;
            Segments(RewriteDocsPath(p, i)) == DocsInsert(segs, d, i) && DocsUDAt(DocsInsert(segs, d, i), d))
  {
    var segs := Segments(p);
    if First(segs, DocsUDAt).None? && First(segs, DocsDAt).Some? {
      var d := First(segs, DocsDAt).value;
      DocsInsertSlashFree(segs, d, i);
      SegmentsOfJoin(DocsInsert(segs, d, i));
      DocsInsertIndexes(segs, d, i);
    }
  }

  lemma RewriteDocsPathSettles(p: string, i: nat)
    requires USettled(p, i)
    ensures USettled(RewriteDocsPath(p, i), i)
  {
    RewriteDocsPathShape(p, i);
    var segs := Segments(p);
    if First(segs, DocsUDAt).None? && First(segs, DocsDAt).Some? {
      DocsInsertSettles(segs, First(segs, DocsDAt).value, i);
    }
  }

  /** Inserting `u/<i>` after a segment other than `u` keeps a settled list settled. */
  lemma DocsInsertSettles(segs: seq<string>, d: nat, i: nat)
    requires d + 1 <= |segs| && segs[d] != "u" && SegsUSettled(segs, i)
    ensures SegsUSettled(DocsInsert(segs, d, i), i)
  {
    var t := DocsInsert(segs, d, i);
    DocsInsertIndexes(segs, d, i);
    DocsInsertUDigitsBefore(segs, d, i);
    assert !UDigitsAt(t, d);
    match First(segs, UDigitsAt)
    case Some(m) =>
      if m < d {
        FirstIs(t, UDigitsAt, m);
      } else {
        assert UDigitsAt(t, d + 1);
        FirstIs(t, UDigitsAt, d + 1);
      }
    case None =>
      assert UDigitsAt(t, d + 1);
      FirstIs(t, UDigitsAt, d + 1);
  }

  /** Before the inserted segments, `/u/<digits>` matches are those of the original list. */
  lemma DocsInsertUDigitsBefore(segs: seq<string>, d: nat, i: nat)
    requires d + 1 <= |segs|
    ensures forall k :: 0 <= k < d ==> UDigitsAt(DocsInsert(segs, d, i), k) == UDigitsAt(segs, k)
  {
    DocsInsertIndexes(segs, d, i);
  }

  lemma RewriteDocsPathIdempotent(p: string, i: nat)
    ensures RewriteDocsPath(RewriteDocsPath(p, i), i) == RewriteDocsPath(p, i)
  {
    RewriteDocsPathShape(p, i);
    var segs := Segments(p);
    if First(segs, DocsUDAt).None? && First(segs, DocsDAt).Some? {
      var d := First(segs, DocsDAt).value;
      var r := RewriteDocsPath(p, i);
      assert DocsUDAt(Segments(r), d);
      RewriteDocsPathShape(r, i);
    }
  }

  // ---------------------------------------------------------------------------
  // ensureMeetUIndex, corrected

  /** The corrected Meet step settles the path and is idempotent. */
  lemma RewriteMeetPathSettles(p: string, i: nat)
    requires USettled(p, i)
    ensures USettled(RewriteMeetPath(p, i), i)
    ensures RewriteMeetPath(RewriteMeetPath(p, i), i) == RewriteMeetPath(p, i)
  {
    var pp := MeetPathOrRoot(p);
    if !LeadingUIndex(pp) && pp != "/" {
      var rest := StripLeadingSlash(pp);
      var q := "/u/" + Dec(i) + "/" + rest;
      DigitsSlashFree(Dec(i));
      SegmentsOfUPrefix(Dec(i), rest);
      var segs := Segments(q);
      assert UDigitsAt(segs, 1);
      FirstIs(segs, UDigitsAt, 1);
      assert LeadingUIndex(q);
    }
  }

  /** The segments of a path written as a join of slash-free parts. */
  lemma SegmentsOfParts(p: string, parts: seq<string>)
    requires |parts| >= 1 && SlashFree(parts) && p == Join(parts, '/')
    ensures Segments(p) == parts
  {
    SegmentsOfJoin(parts);
  }

  lemma MeetCodeJoin()
    ensures Join(["", "abc-defg-hij"], '/') == "/abc-defg-hij"
  {
    JoinCons("", ["abc-defg-hij"], '/');
    assert ["", "abc-defg-hij"] == [""] + ["abc-defg-hij"];
  }

  /** Meet: `/abc-defg-hij` becomes `/u/1/abc-defg-hij` (the path is passed in as `p`). */
  lemma RewriteMeetPathExample(p: string)
    requires p == "/abc-defg-hij"
    ensures RewriteMeetPath(p, 1) == "/u/1/abc-defg-hij"
  {
    MeetCodeSegments(p);
    DecOne();
    MeetPathGlued(p, 1, "1");
    MeetCodeTail(p);
    MeetExampleLiteral("/u/", "1", "/", "abc-defg-hij", "/u/1/abc-defg-hij");
  }

  lemma MeetExampleLiteral(a: string, b: string, c: string, d: string, whole: string)
    requires a == "/u/" && b == "1" && c == "/" && d == "abc-defg-hij" && whole == "/u/1/abc-defg-hij"
    ensures a + b + c + d == whole
  {
  }

  /** A path of fewer than four segments other than `/` gets `/u/<i>/` in front of its tail. */
  lemma MeetPathGlued(p: string, i: nat, digits: string)
    requires StartsWith(p, "/") && p != "/" && |Segments(p)| < 4 && Dec(i) == digits
    ensures RewriteMeetPath(p, i) == "/u/" + digits + "/" + p[1..]
  {
  }

  lemma MeetCodeSegments(p: string)
    requires p == "/abc-defg-hij"
    ensures Segments(p) == ["", "abc-defg-hij"]
  {
    MeetCodeJoin();
    SegmentsOfParts(p, ["", "abc-defg-hij"]);
  }

  // ---------------------------------------------------------------------------
  // buildProfileSwitchUrl

  /** `null` exactly when the input does not parse. */
  lemma BuildNoneIff(t: UrlText, i: nat)
    ensures BuildProfileSwitchUrl(t, i).None? <==> t.Unparsable?
    ensures BuildProfileSwitchUrlAsWritten(t, i).None? <==> t.Unparsable?
  {
  }

  /**
   * In the source's version and in the corrected one, the result's `authuser`
   * is the decimal of `i`, so reading the account index back gives `i`; every
   * other query pair, the scheme, the host and the fragment are kept.
   */
  lemma BuildSetsAuthIndex(u: Url, i: nat)
    ensures var r := BuildProfileSwitchUrlAsWritten(Parsed(u), i).value;
      && Get(r.query, "authuser") == Some(Dec(i))
      && ParseAuthIndexFromUrl(Parsed(r)) == Some(Int(i))
      && RemoveAll(r.query, "authuser") == RemoveAll(u.query, "authuser")
      && r.scheme == u.scheme && r.host == u.host && r.fragment == u.fragment
    ensures var r := BuildProfileSwitchUrl(Parsed(u), i).value;
      && Get(r.query, "authuser") == Some(Dec(i))
      && ParseAuthIndexFromUrl(Parsed(r)) == Some(Int(i))
      && RemoveAll(r.query, "authuser") == RemoveAll(u.query, "authuser")
      && r.scheme == u.scheme && r.host == u.host && r.fragment == u.fragment
  {
    var w := BuildProfileSwitchUrlAsWritten(Parsed(u), i).value;
    assert w.query == Set(u.query, "authuser", Dec(i));
    AuthUserSet(u.query, w, i);
    var r := BuildProfileSwitchUrl(Parsed(u), i).value;
    assert r.query == Set(u.query, "authuser", Dec(i));
    AuthUserSet(u.query, r, i);
  }

  /** A URL whose query is `q` with `authuser` set to `i` names account `i`, and keeps `q`'s other pairs. */
  lemma AuthUserSet(q: seq<Param>, r: Url, i: nat)
    requires r.query == Set(q, "authuser", Dec(i))
    ensures Get(r.query, "authuser") == Some(Dec(i))
    ensures ParseAuthIndexFromUrl(Parsed(r)) == Some(Int(i))
    ensures RemoveAll(r.query, "authuser") == RemoveAll(q, "authuser")
  {
    SetThenGet(q, "authuser", Dec(i));
    SetKeepsOthers(q, "authuser", Dec(i));
    NumberOfDec(i);
  }

  /** Off Google hosts only the query changes. */
  lemma BuildOffGoogle(u: Url, i: nat)
    requires !IsGoogleLikeHost(u.host)
    ensures BuildProfileSwitchUrlAsWritten(Parsed(u), i).value.path == u.path
    ensures BuildProfileSwitchUrl(Parsed(u), i).value.path == u.path
  {
  }

  /** The corrected rewrite: rewriting twice with the same index is rewriting once, on every host. */
  lemma BuildIdempotent(u: Url, i: nat)
    ensures var r := BuildProfileSwitchUrl(Parsed(u), i).value;
      BuildProfileSwitchUrl(Parsed(r), i) == Some(r)
  {
    SetSet(u.query, "authuser", Dec(i), Dec(i));
    if IsGoogleLikeHost(u.host) {
      var p1 := RewritePathU(u.path, i);
      RewritePathUSettles(u.path, i);
      var p2 := if u.host == "docs.google.com" then RewriteDocsPath(p1, i) else p1;
      if u.host == "docs.google.com" {
        RewriteDocsPathSettles(p1, i);
        RewriteDocsPathIdempotent(p1, i);
      }
      var p3 := if u.host == "meet.google.com" then RewriteMeetPath(p2, i) else p2;
      if u.host == "meet.google.com" {
        RewriteMeetPathSettles(p2, i);
      }
      RewritePathUFixed(p3, i);
    }
  }

  /** The source's version differs from the corrected one only on meet.google.com. */
  lemma BuildAsWrittenAgreesOffMeet(t: UrlText, i: nat)
    requires t.Parsed? ==> t.url.host != "meet.google.com"
    ensures BuildProfileSwitchUrlAsWritten(t, i) == BuildProfileSwitchUrl(t, i)
  {
  }

  /** Hence the source's version is idempotent off meet.google.com. */
  lemma BuildAsWrittenIdempotentOffMeet(u: Url, i: nat)
    requires u.host != "meet.google.com"
    ensures var r := BuildProfileSwitchUrlAsWritten(Parsed(u), i).value;
      BuildProfileSwitchUrlAsWritten(Parsed(r), i) == Some(r)
  {
    BuildAsWrittenAgreesOffMeet(Parsed(u), i);
    BuildIdempotent(u, i);
    BuildAsWrittenAgreesOffMeet(Parsed(BuildProfileSwitchUrl(Parsed(u), i).value), i);
  }

  function MeetLink(path: string, query: seq<Param>): Url {
    Url("https", "meet.google.com", path, query, None)
  }

  lemma OnceJoin()
    ensures Join(["", "u", "1abc-defg-hij"], '/') == "/u/1abc-defg-hij"
  {
    JoinCons("u", ["1abc-defg-hij"], '/');
    assert ["u", "1abc-defg-hij"] == ["u"] + ["1abc-defg-hij"];
    JoinCons("", ["u", "1abc-defg-hij"], '/');
    assert ["", "u", "1abc-defg-hij"] == [""] + ["u", "1abc-defg-hij"];
  }

  /** The first path step of the Meet counterexample. */
  lemma MeetFirstStep(p: string, once: string)
    requires p == "/abc-defg-hij" && once == "/u/1abc-defg-hij"
    ensures RewritePathU(p, 1) == p
    ensures RewriteMeetPathAsWritten(p, 1) == once
  {
    DecOne();
    MeetCodeSegments(p);
    ShortPathAsWritten(p, 1, "1");
    MeetCodeTail(p);
    OnceLiteral("/u/", "1", "abc-defg-hij", once);
  }

  /** A path of at most two segments, not `/`: no `/u/<digits>` to renumber, and the as-written Meet rewrite glues `/u/<i>` to its tail. */
  lemma ShortPathAsWritten(p: string, i: nat, digits: string)
    requires |Segments(p)| <= 2 && StartsWith(p, "/") && p != "/" && Dec(i) == digits
    ensures RewritePathU(p, i) == p
    ensures RewriteMeetPathAsWritten(p, i) == "/u/" + digits + p[1..]
  {
    FirstNone(Segments(p), UDigitsAt);
  }

  lemma MeetCodeTail(p: string)
    requires p == "/abc-defg-hij"
    ensures p[1..] == "abc-defg-hij"
  {
  }

  lemma OnceLiteral(a: string, b: string, c: string, whole: string)
    requires a == "/u/" && b == "1" && c == "abc-defg-hij" && whole == "/u/1abc-defg-hij"
    ensures a + b + c == whole
  {
  }

  lemma OnceSegments(once: string)
    requires once == "/u/1abc-defg-hij"
    ensures Segments(once) == ["", "u", "1abc-defg-hij"]
  {
    OnceJoin();
    SegmentsOfParts(once, ["", "u", "1abc-defg-hij"]);
  }

  lemma OnceHasNoUDigits(once: string)
    requires once == "/u/1abc-defg-hij"
    ensures First(Segments(once), UDigitsAt).None?
    ensures !LeadingUIndex(once)
  {
    OnceSegments(once);
    assert "1abc-defg-hij"[1] == 'a';
    assert !IsDigits("1abc-defg-hij");
    FirstNone(["", "u", "1abc-defg-hij"], UDigitsAt);
  }

  lemma OnceGlued(once: string, twice: string)
    requires once == "/u/1abc-defg-hij" && twice == "/u/1u/1abc-defg-hij"
    ensures "/u/" + Dec(1) + "" + StripLeadingSlash(once) == twice
  {
    DecOne();
    OnceTail(once);
    GluedTail(once, 1, "1", "u/1abc-defg-hij");
    LiteralGlue("/u/", "1", "u/1abc-defg-hij", twice);
  }

  lemma DecOne()
    ensures Dec(1) == "1"
  {
  }

  lemma OnceTail(once: string)
    requires once == "/u/1abc-defg-hij"
    ensures once[1..] == "u/1abc-defg-hij"
  {
  }

  lemma LiteralGlue(a: string, b: string, c: string, whole: string)
    requires a == "/u/" && b == "1" && c == "u/1abc-defg-hij" && whole == "/u/1u/1abc-defg-hij"
    ensures a + b + c == whole
  {
  }

  /** `/u/<i>` glued to a path whose tail after the leading `/` is `tail`. */
  lemma GluedTail(p: string, i: nat, digits: string, tail: string)
    requires StartsWith(p, "/") && Dec(i) == digits && p[1..] == tail
    ensures "/u/" + Dec(i) + "" + StripLeadingSlash(p) == "/u/" + digits + tail
  {
  }

  /** The second path step of the Meet counterexample. */
  lemma MeetSecondStep(once: string, twice: string)
    requires once == "/u/1abc-defg-hij" && twice == "/u/1u/1abc-defg-hij"
    ensures RewritePathU(once, 1) == once
    ensures RewriteMeetPathAsWritten(once, 1) == twice
  {
    OnceHasNoUDigits(once);
    OnceGlued(once, twice);
    assert MeetPathOrRoot(once) == once && once != "/" && StartsWith(once, "/");
  }

  lemma MeetHostIsGoogle()
    ensures IsGoogleLikeHost("meet.google.com")
    ensures "meet.google.com" != "docs.google.com"
  {
    IsGoogleLikeHostIff("meet.google.com");
    assert EndsWith("meet.google.com", ".google.com");
    assert "docs.google.com"[0] != "meet.google.com"[0];
  }

  lemma AuthUserOneSet(q: seq<Param>)
    requires q == [Param("authuser", "1")]
    ensures Set([], "authuser", Dec(1)) == q
    ensures Set(q, "authuser", Dec(1)) == q
  {
    assert Dec(1) == "1";
    FirstNamedIs(q, "authuser", 0);
  }

  /**
   * On meet.google.com the source's version is not idempotent:
   * `/abc-defg-hij` (passed in as `p`) becomes `/u/1abc-defg-hij` (`once`),
   * then `/u/1u/1abc-defg-hij` (`twice`).
   */
  lemma BuildAsWrittenMeetCounterexample(p: string, once: string, twice: string)
    requires p == "/abc-defg-hij" && once == "/u/1abc-defg-hij" && twice == "/u/1u/1abc-defg-hij"
    ensures BuildProfileSwitchUrlAsWritten(Parsed(MeetLink(p, [])), 1)
         == Some(MeetLink(once, [Param("authuser", "1")]))
    ensures BuildProfileSwitchUrlAsWritten(Parsed(MeetLink(once, [Param("authuser", "1")])), 1)
         == Some(MeetLink(twice, [Param("authuser", "1")]))
  {
    MeetFirstStep(p, once);
    MeetSecondStep(once, twice);
    MeetHostIsGoogle();
    AuthUserOneSet([Param("authuser", "1")]);
  }

  /** The first rewrite of the counterexample already stops `isMeetUrl` from recognising the meeting. */
  lemma MeetCounterexampleNotRecognised(p: string, once: string)
    requires p == "/abc-defg-hij" && once == "/u/1abc-defg-hij"
    ensures IsMeetUrl(Parsed(MeetLink(p, [])))
    ensures !IsMeetUrl(Parsed(MeetLink(once, [Param("authuser", "1")])))
  {
    assert MeetCodePrefix(p);
    assert once[1] == 'u' && !StartsWith(once, "/lookup/") && !StartsWith(once, "/v2/");
  }

  function DocsLink(path: string, query: seq<Param>): Url {
    Url("https", "docs.google.com", path, query, None)
  }

  lemma DocsExampleJoin()
    ensures Join(["", "document", "d", "ABC123", "edit"], '/') == "/document/d/ABC123/edit"
  {
    DocsExampleTailJoin();
    JoinCons("document", ["d", "ABC123", "edit"], '/');
    assert ["document", "d", "ABC123", "edit"] == ["document"] + ["d", "ABC123", "edit"];
    JoinCons("", ["document", "d", "ABC123", "edit"], '/');
    assert ["", "document", "d", "ABC123", "edit"] == [""] + ["document", "d", "ABC123", "edit"];
  }

  lemma DocsExampleResultJoin()
    ensures Join(["", "document", "u", "2", "d", "ABC123", "edit"], '/') == "/document/u/2/d/ABC123/edit"
  {
    DocsExampleHeadJoin();
    DocsExampleTailJoin();
    JoinOfHalves(["", "document", "u", "2"], ["d", "ABC123", "edit"], "/document/u/2", "d/ABC123/edit",
                 ["", "document", "u", "2", "d", "ABC123", "edit"], "/document/u/2/d/ABC123/edit", '/');
  }

  /** Joining two known halves. */
  lemma JoinOfHalves(head: seq<string>, tail: seq<string>, hs: string, ts: string, whole: seq<string>, ws: string, sep: char)
    requires |head| >= 1 && |tail| >= 1 && Join(head, sep) == hs && Join(tail, sep) == ts
    requires whole == head + tail && ws == hs + [sep] + ts
    ensures Join(whole, sep) == ws
  {
    JoinAppend(head, tail, sep);
  }

  lemma DocsExampleHeadJoin()
    ensures Join(["", "document", "u", "2"], '/') == "/document/u/2"
  {
    JoinCons("u", ["2"], '/');
    assert ["u", "2"] == ["u"] + ["2"];
    JoinCons("document", ["u", "2"], '/');
    assert ["document", "u", "2"] == ["document"] + ["u", "2"];
    JoinCons("", ["document", "u", "2"], '/');
    assert ["", "document", "u", "2"] == [""] + ["document", "u", "2"];
  }

  lemma DocsExampleTailJoin()
    ensures Join(["d", "ABC123", "edit"], '/') == "d/ABC123/edit"
  {
    JoinCons("ABC123", ["edit"], '/');
    assert ["ABC123", "edit"] == ["ABC123"] + ["edit"];
    JoinCons("d", ["ABC123", "edit"], '/');
    assert ["d", "ABC123", "edit"] == ["d"] + ["ABC123", "edit"];
  }

  lemma DocsExampleSegments(p: string)
    requires p == "/document/d/ABC123/edit"
    ensures Segments(p) == ["", "document", "d", "ABC123", "edit"]
  {
    DocsExampleJoin();
    SegmentsOfParts(p, ["", "document", "d", "ABC123", "edit"]);
  }

  /** The path steps of the Docs example. */
  lemma DocsExamplePath(p: string)
    requires p == "/document/d/ABC123/edit"
    ensures RewritePathU(p, 2) == p
    ensures RewriteDocsPath(p, 2) == "/document/u/2/d/ABC123/edit"
  {
    assert Dec(2) == "2";
    var segs := ["", "document", "d", "ABC123", "edit"];
    DocsExampleSegments(p);
    FirstNone(segs, UDigitsAt);
    FirstNone(segs, DocsUDAt);
    assert DocsDAt(segs, 1);
    FirstIs(segs, DocsDAt, 1);
    assert DocsInsert(segs, 1, 2) == ["", "document", "u", "2", "d", "ABC123", "edit"];
    DocsExampleResultJoin();
  }

  /** Docs: `/document/d/ABC123/edit` (passed in as `p`) with index 2 becomes `/document/u/2/d/ABC123/edit?authuser=2`. */
  lemma BuildDocsExample(p: string)
    requires p == "/document/d/ABC123/edit"
    ensures BuildProfileSwitchUrlAsWritten(Parsed(DocsLink(p, [])), 2)
         == Some(DocsLink("/document/u/2/d/ABC123/edit", [Param("authuser", "2")]))
  {
    assert Dec(2) == "2";
    DocsExamplePath(p);
    IsGoogleLikeHostIff("docs.google.com");
    assert EndsWith("docs.google.com", ".google.com");
    assert "docs.google.com"[0] != "meet.google.com"[0];
    var u := DocsLink(p, []);
    var a := ReplaceAuthUserParam(u, 2);
    assert a.query == [Param("authuser", "2")];
    assert ReplacePathUIndex(a, 2).path == p;
    assert RewriteGoogle(u, 2).path == "/document/u/2/d/ABC123/edit";
  }

  // ---------------------------------------------------------------------------
  // The file identity survives the rewrite

  /** Replacing the digit segment after a `u` with other digits keeps the Docs and Drive matches. */
  lemma DigitSwapKeepsFileIds(segs: seq<string>, x: nat, s: string)
    requires 1 <= x < |segs| && segs[x - 1] == "u" && IsDigits(segs[x]) && IsDigits(s)
    ensures DocsFileId(segs[x := s]) == DocsFileId(segs)
    ensures DriveFileId(segs[x := s]) == DriveFileId(segs)
  {
    DigitSwapKeepsDocsId(segs, x, s);
    DigitSwapKeepsDriveId(segs, x, s);
  }

  lemma DigitSwapKeepsDocsId(segs: seq<string>, x: nat, s: string)
    requires 1 <= x < |segs| && segs[x - 1] == "u" && IsDigits(segs[x]) && IsDigits(s)
    ensures DocsFileId(segs[x := s]) == DocsFileId(segs)
  {
    var t := segs[x := s];
    forall k | 0 <= k < |segs|
      ensures DocsIdAt(t, k) == DocsIdAt(segs, k)
      ensures DocsIdAt(segs, k) ==> t[k] == segs[k] && DocsIdSegment(t, k) == DocsIdSegment(segs, k)
    {
      DigitSwapDocsAt(segs, x, s, k);
    }
    FirstCongruent(t, DocsIdAt, segs, DocsIdAt);
  }

  lemma DigitSwapDocsAt(segs: seq<string>, x: nat, s: string, k: nat)
    requires 1 <= x < |segs| && segs[x - 1] == "u" && IsDigits(segs[x]) && IsDigits(s) && k < |segs|
    ensures DocsIdAt(segs[x := s], k) == DocsIdAt(segs, k)
    ensures DocsIdAt(segs, k) ==> segs[x := s][k] == segs[k] && DocsIdSegment(segs[x := s], k) == DocsIdSegment(segs, k)
  {
    DigitsAreNotWords(segs[x]);
    DigitsAreNotWords(s);
  }

  lemma DigitSwapKeepsDriveId(segs: seq<string>, x: nat, s: string)
    requires 1 <= x < |segs| && segs[x - 1] == "u" && IsDigits(segs[x]) && IsDigits(s)
    ensures DriveFileId(segs[x := s]) == DriveFileId(segs)
  {
    var t := segs[x := s];
    DigitsAreNotWords(segs[x]);
    DigitsAreNotWords(s);
    forall k | 0 <= k < |segs|
      ensures FileIdAt(t, k) == FileIdAt(segs, k)
      ensures FileIdAt(segs, k) ==> t[k + 2] == segs[k + 2]
    {
    }
    FirstCongruent(t, FileIdAt, segs, FileIdAt);
  }

  lemma RewritePathUKeepsFileIds(p: string, i: nat)
    ensures DocsFileId(Segments(RewritePathU(p, i))) == DocsFileId(Segments(p))
    ensures DriveFileId(Segments(RewritePathU(p, i))) == DriveFileId(Segments(p))
  {
    var segs := Segments(p);
    match First(segs, UDigitsAt)
    case None =>
    case Some(m) =>
      DigitsSlashFree(Dec(i));
      SegmentsOfJoin(segs[m + 1 := Dec(i)]);
      DigitSwapKeepsFileIds(segs, m + 1, Dec(i));
  }

  /** Inserting `u`, `<i>` after the first `/<kind>/d/` keeps the Docs match. */
  lemma DocsInsertKeepsDocsFileId(segs: seq<string>, d: nat, i: nat)
    requires First(segs, DocsDAt) == Some(d) && First(segs, DocsUDAt).None?
    ensures DocsFileId(DocsInsert(segs, d, i)) == DocsFileId(segs)
  {
    DocsInsertNoIdBefore(segs, d, i);
    if segs[d + 2] != "" {
      DocsInsertIdAtKind(segs, d, i);
    } else {
      DocsInsertIdAfterKind(segs, d, i);
    }
  }

  /** With a non-empty id after `/<kind>/d/`, both lists match at the kind segment. */
  lemma DocsInsertIdAtKind(segs: seq<string>, d: nat, i: nat)
    requires DocsDAt(segs, d) && segs[d + 2] != ""
    requires forall k :: 0 <= k < d ==> !DocsIdAt(DocsInsert(segs, d, i), k) && !DocsIdAt(segs, k)
    ensures DocsFileId(DocsInsert(segs, d, i)) == DocsFileId(segs)
  {
    var t := DocsInsert(segs, d, i);
    DocsInsertIndexes(segs, d, i);
    DigitsAreNotWords(Dec(i));
    assert DocsUDAt(t, d) && DocsIdAt(t, d) && DocsIdAt(segs, d);
    FirstIs(t, DocsIdAt, d);
    FirstIs(segs, DocsIdAt, d);
  }

  /** With an empty id after `/<kind>/d/`, the first match (if any) lies after it, two segments later in the new list. */
  lemma DocsInsertIdAfterKind(segs: seq<string>, d: nat, i: nat)
    requires DocsDAt(segs, d) && segs[d + 2] == ""
    requires forall k :: 0 <= k < d ==> !DocsIdAt(DocsInsert(segs, d, i), k) && !DocsIdAt(segs, k)
    ensures DocsFileId(DocsInsert(segs, d, i)) == DocsFileId(segs)
  {
    var t := DocsInsert(segs, d, i);
    DocsInsertNoIdNear(segs, d, i);
    DocsInsertIdShift(segs, d, i);
    FirstShifted(segs, t, DocsIdAt, d + 1);
  }

  /** With an empty id after `/<kind>/d/`, neither list has a match up to the kind, nor the new list at the inserted segments. */
  lemma DocsInsertNoIdNear(segs: seq<string>, d: nat, i: nat)
    requires DocsDAt(segs, d) && segs[d + 2] == ""
    requires forall k :: 0 <= k < d ==> !DocsIdAt(DocsInsert(segs, d, i), k) && !DocsIdAt(segs, k)
    ensures forall k :: 0 <= k < d + 3 && k < |DocsInsert(segs, d, i)| ==> !DocsIdAt(DocsInsert(segs, d, i), k)
    ensures forall k :: 0 <= k < d + 1 && k < |segs| ==> !DocsIdAt(segs, k)
  {
    var t := DocsInsert(segs, d, i);
    DocsInsertIndexes(segs, d, i);
    DigitsAreNotWords(Dec(i));
    assert !DocsIdAt(t, d) && !DocsIdAt(t, d + 1) && !DocsIdAt(t, d + 2) && !DocsIdAt(segs, d);
  }

  /**
   * When `t` is `segs` with two segments inserted before index `c + 2`, and
   * neither list matches before the insertion, `t`'s first match is `segs`'s,
   * two later.
   */
  lemma FirstShifted(segs: seq<string>, t: seq<string>, P: SegmentTest, c: nat)
    requires |t| == |segs| + 2
    requires forall k :: 0 <= k < c + 2 && k < |t| ==> !P(t, k)
    requires forall k :: 0 <= k < c && k < |segs| ==> !P(segs, k)
    requires forall k :: c <= k < |segs| ==> P(t, k + 2) == P(segs, k)
    ensures First(segs, P).None? ==> First(t, P).None?
    ensures First(segs, P).Some? ==> First(t, P) == Some(First(segs, P).value + 2)
  {
    match First(segs, P)
    case None =>
      forall k | 0 <= k < |t| ensures !P(t, k) {
        if k >= c + 2 {
          assert !P(segs, k - 2);
        }
      }
      FirstNone(t, P);
    case Some(j) =>
      forall k | 0 <= k < j + 2 ensures !P(t, k) {
        if k >= c + 2 {
          assert !P(segs, k - 2);
        }
      }
      FirstIs(t, P, j + 2);
  }

  /** Before the first `/<kind>/d/` neither list has a Docs id match. */
  lemma DocsInsertNoIdBefore(segs: seq<string>, d: nat, i: nat)
    requires First(segs, DocsDAt) == Some(d) && First(segs, DocsUDAt).None?
    ensures forall k :: 0 <= k < d ==> !DocsIdAt(DocsInsert(segs, d, i), k) && !DocsIdAt(segs, k)
  {
    var t := DocsInsert(segs, d, i);
    DocsInsertIndexes(segs, d, i);
    forall k | 0 <= k < d ensures !DocsIdAt(t, k) && !DocsIdAt(segs, k) {
      assert !DocsDAt(segs, k) && !DocsUDAt(segs, k);
    }
  }

  /** After the inserted segments, Docs id matches are those of the original list, shifted by two. */
  lemma DocsInsertIdShift(segs: seq<string>, d: nat, i: nat)
    requires d + 1 <= |segs|
    ensures |DocsInsert(segs, d, i)| == |segs| + 2
    ensures forall k :: d + 1 <= k < |segs| ==>
              && DocsIdAt(DocsInsert(segs, d, i), k + 2) == DocsIdAt(segs, k)
              && (DocsIdAt(segs, k) ==>
                    DocsInsert(segs, d, i)[k + 2] == segs[k] && DocsIdSegment(DocsInsert(segs, d, i), k + 2) == DocsIdSegment(segs, k))
  {
    var t := DocsInsert(segs, d, i);
    DocsInsertIndexes(segs, d, i);
    forall k | d + 1 <= k < |segs|
      ensures DocsIdAt(t, k + 2) == DocsIdAt(segs, k)
      ensures DocsIdAt(segs, k) ==> t[k + 2] == segs[k] && DocsIdSegment(t, k + 2) == DocsIdSegment(segs, k)
    {
    }
  }

  lemma RewriteDocsPathKeepsDocsFileId(p: string, i: nat)
    ensures DocsFileId(Segments(RewriteDocsPath(p, i))) == DocsFileId(Segments(p))
  {
    RewriteDocsPathShape(p, i);
    var segs := Segments(p);
    if First(segs, DocsUDAt).None? && First(segs, DocsDAt).Some? {
      DocsInsertKeepsDocsFileId(segs, First(segs, DocsDAt).value, i);
    }
  }

  /** `parseGoogleFileId` reads only the host, the `id` query value and, on the Docs and Drive hosts, their path matches. */
  lemma SameFileIdInputs(u: Url, v: Url)
    requires u.host == v.host && Get(u.query, "id") == Get(v.query, "id")
    requires u.host == "docs.google.com" ==> DocsFileId(Segments(u.path)) == DocsFileId(Segments(v.path))
    requires u.host == "drive.google.com" ==> DriveFileId(Segments(u.path)) == DriveFileId(Segments(v.path))
    ensures ParseGoogleFileId(Parsed(u)) == ParseGoogleFileId(Parsed(v))
  {
  }

  /** Switching the account of a link keeps the file it points to, in the source's version and in the corrected one. */
  lemma BuildKeepsFileId(u: Url, i: nat)
    ensures ParseGoogleFileId(Parsed(BuildProfileSwitchUrlAsWritten(Parsed(u), i).value)) == ParseGoogleFileId(Parsed(u))
    ensures ParseGoogleFileId(Parsed(BuildProfileSwitchUrl(Parsed(u), i).value)) == ParseGoogleFileId(Parsed(u))
  {
    BuildKeepsFileIdCorrected(u, i);
    if u.host == "meet.google.com" {
      var w := BuildProfileSwitchUrlAsWritten(Parsed(u), i).value;
      GetOtherAfterSet(u.query, "authuser", Dec(i), "id");
      SameFileIdInputs(w, u);
    } else {
      BuildAsWrittenAgreesOffMeet(Parsed(u), i);
    }
  }

  lemma BuildKeepsFileIdCorrected(u: Url, i: nat)
    ensures ParseGoogleFileId(Parsed(BuildProfileSwitchUrl(Parsed(u), i).value)) == ParseGoogleFileId(Parsed(u))
  {
    var r := BuildProfileSwitchUrl(Parsed(u), i).value;
    GetOtherAfterSet(u.query, "authuser", Dec(i), "id");
    if IsGoogleLikeHost(u.host) {
      var p1 := RewritePathU(u.path, i);
      RewritePathUKeepsFileIds(u.path, i);
      if u.host == "docs.google.com" {
        RewriteDocsPathKeepsDocsFileId(p1, i);
        assert r.path == RewriteDocsPath(p1, i);
      } else if u.host == "drive.google.com" {
        assert r.path == p1;
      }
    }
    SameFileIdInputs(r, u);
  }

  // ---------------------------------------------------------------------------
  // buildUrl (content.js, popup.js)

  /**
   * `buildUrl` returns an unparsable input unchanged; otherwise the index reads
   * back as `i`, the file identity is kept, and a second call changes nothing.
   */
  lemma BuildUrlFacts(t: UrlText, i: nat)
    ensures t.Unparsable? ==> BuildUrl(t, i) == t
    ensures t.Parsed? ==> ParseAuthIndexFromUrl(BuildUrl(t, i)) == Some(Int(i))
    ensures ParseGoogleFileId(BuildUrl(t, i)) == ParseGoogleFileId(t)
    ensures BuildUrl(BuildUrl(t, i), i) == BuildUrl(t, i)
  {
    if t.Parsed? {
      BuildUrlReadsBack(t.url, i);
      BuildUrlKeepsFileId(t.url, i);
      BuildUrlSettles(t.url, i);
    }
  }

  lemma BuildUrlReadsBack(u: Url, i: nat)
    ensures ParseAuthIndexFromUrl(BuildUrl(Parsed(u), i)) == Some(Int(i))
  {
    SetThenGet(u.query, "authuser", Dec(i));
    NumberOfDec(i);
  }

  lemma BuildUrlKeepsFileId(u: Url, i: nat)
    ensures ParseGoogleFileId(BuildUrl(Parsed(u), i)) == ParseGoogleFileId(Parsed(u))
  {
    GetOtherAfterSet(u.query, "authuser", Dec(i), "id");
    RewritePathUKeepsFileIds(u.path, i);
  }

  lemma BuildUrlSettles(u: Url, i: nat)
    ensures BuildUrl(BuildUrl(Parsed(u), i), i) == BuildUrl(Parsed(u), i)
  {
    SetSet(u.query, "authuser", Dec(i), Dec(i));
    RewritePathUIdempotent(u.path, i);
  }

  /** On Google hosts other than Docs and Meet, `buildUrl` and `buildProfileSwitchUrl` agree. */
  lemma BuildUrlAgreesOnPlainGoogleHosts(u: Url, i: nat)
    requires IsGoogleLikeHost(u.host) && u.host != "docs.google.com" && u.host != "meet.google.com"
    ensures BuildUrl(Parsed(u), i) == Parsed(BuildProfileSwitchUrlAsWritten(Parsed(u), i).value)
  {
  }

  // ---------------------------------------------------------------------------
  // isMeetUrl

  /** A meeting code is recognised in any letter case. */
  lemma IsMeetUrlCaseInsensitive(p: string)
    requires p == "/ABC-defg-HIJ"
    ensures IsMeetUrl(Parsed(MeetLink(p, [])))
  {
    assert MeetCodePrefix(p);
  }

  /** A code followed by a word character is not a meeting code. */
  lemma IsMeetUrlNeedsBoundary(p: string)
    requires p == "/abc-defg-hijk"
    ensures !IsMeetUrl(Parsed(MeetLink(p, [])))
  {
    assert p[13] == 'k';
    assert p[1] == 'a' && !StartsWith(p, "/lookup/") && !StartsWith(p, "/v2/");
  }

  /** A `/u/<n>/` prefix hides the meeting code. */
  lemma IsMeetUrlNotBehindPrefix(p: string)
    requires p == "/u/1/abc-defg-hij"
    ensures !IsMeetUrl(Parsed(MeetLink(p, [])))
  {
    assert p[2] == '/';
    assert !StartsWith(p, "/lookup/") && !StartsWith(p, "/v2/");
  }

  /** Only meet.google.com has meetings. */
  lemma IsMeetUrlOnlyOnMeetHost(t: UrlText)
    requires IsMeetUrl(t)
    ensures t.Parsed? && t.url.host == "meet.google.com"
  {
  }

  // ---------------------------------------------------------------------------
  // The parsers

  /**
   * `parseAuthIndexFromUrl`: an `authuser` query value wins over the path;
   * without one, the path gives an index exactly when it has a `/u/<digit>`;
   * an unparsable URL gives null.
   */
  lemma ParseAuthIndexCases(t: UrlText)
    ensures t.Unparsable? ==> ParseAuthIndexFromUrl(t).None?
    ensures t.Parsed? && Get(t.url.query, "authuser").Some? ==>
              ParseAuthIndexFromUrl(t) == Some(ToNumber(Get(t.url.query, "authuser").value))
    ensures t.Parsed? && Get(t.url.query, "authuser").None? ==>
              (ParseAuthIndexFromUrl(t).None? <==> forall k :: 0 <= k < |Segments(t.url.path)| ==> !UNumberAt(Segments(t.url.path), k))
  {
  }

  /** Without an `authuser` query, a path starting `/u/<n>/` names account `n`. */
  lemma ParseAuthIndexFromPath(u: Url, n: nat, rest: string)
    requires Absent(u.query, "authuser") && u.path == "/u/" + Dec(n) + "/" + rest
    ensures ParseAuthIndexFromUrl(Parsed(u)) == Some(Int(n))
  {
    var d := Dec(n);
    DigitsSlashFree(d);
    SegmentsOfUPrefix(d, rest);
    var segs := Segments(u.path);
    assert segs[1] == "u" && segs[2] == d;
    assert IsDigit(d[0]);
    FirstIs(segs, UNumberAt, 1);
    LeadingDigitsOfDigits(d);
    NumberOfDec(n);
  }

  /** All of a digit string is its leading digits. */
  lemma LeadingDigitsOfDigits(d: string)
    requires IsDigits(d)
    ensures LeadingDigits(d) == d
  {
  }

  /** The Docs id is the same with or without a `/u/<n>/` between the kind and `d`. */
  lemma DocsFileIdIgnoresU(kind: string, n: nat, id: string, tail: seq<string>)
    requires IsDocKind(kind) && id != ""
    ensures DocsFileId(["", kind, "d", id] + tail) == Some(FileId(kind, id))
    ensures DocsFileId(["", kind, "u", Dec(n), "d", id] + tail) == Some(FileId(kind, id))
  {
    var plain := ["", kind, "d", id] + tail;
    var withU := ["", kind, "u", Dec(n), "d", id] + tail;
    assert DocsIdAt(plain, 1);
    FirstIs(plain, DocsIdAt, 1);
    assert DocsUDAt(withU, 1);
    FirstIs(withU, DocsIdAt, 1);
  }

  /**
   * The `id` query is read on any host that merely ends in `google.com`, such
   * as `notgoogle.com`, when neither path pattern applies there.
   */
  lemma QueryIdOnLookalikeHost(u: Url, host: string, v: string)
    requires host == "notgoogle.com" && u.host == host
    requires Get(u.query, "id") == Some(v) && v != ""
    ensures ParseGoogleFileId(Parsed(u)) == Some(FileId("driveFile", v))
  {
    assert EndsWith(host, "google.com") by {
      assert host[|host| - |"google.com"|..] == "google.com";
    }
  }
}
