/**
 * Access probing (bg/access.js): for each profile, open the document under
 * that account and classify what comes back as access, no access or unknown.
 * The network is a parameter: a probe receives what `fetch` (or the script run
 * in the page) reported for the rewritten URL.
 */
module Access {

  import opened Base
  import opened JsText
  import opened Url
  import opened UrlRewrite
  import opened Profiles
  import UrlRewriteFacts

  /** The `status` of a probe result: `access`, `no_access` or `unknown`. */
  datatype Verdict = Access | NoAccess | Unknown

  /** Why a probe gave up: `bad_url`, `fetch_error` or `exec_error`. */
  datatype FailureReason = BadUrl | FetchError | ExecError

  /**
   * A probe result: a classified response with the HTTP status and final URL it
   * came from, or `{status: "unknown", reason}`.
   */
  datatype AccessResult = Classified(verdict: Verdict, code: int, finalUrl: string) | Failed(reason: FailureReason)

  /** The `status` field of a result: a failed probe reports `unknown`. */
  function VerdictOf(r: AccessResult): Verdict {
    if r.Classified? then r.verdict else Unknown
  }

  predicate IsOkStatus(status: int) {
    status == 200 || status == 204
  }

  predicate IsDeniedStatus(status: int) {
    status == 401 || status == 403
  }

  /** The status-only classification: 200/204 give access, 401/403 no access, anything else unknown. */
  function StatusOnly(status: int): (r: Verdict)
    ensures r == Access <==> IsOkStatus(status)
    ensures r == NoAccess <==> IsDeniedStatus(status)
  {
    if IsOkStatus(status) then Access else if IsDeniedStatus(status) then NoAccess else Unknown
  }

  // ---------------------------------------------------------------------------
  // probeAccess: classification by the response body

  /** `/accounts\.google\.com|servicelogin|signin/` over the final URL (case-sensitive). */
  predicate LoginUrl(finalUrl: string) {
    Contains(finalUrl, "accounts.google.com") || Contains(finalUrl, "servicelogin") || Contains(finalUrl, "signin")
  }

  /** `a\s*b` matches with `a` at `k` and `b` at `m`: only white space in between. */
  predicate SpacedPhraseAt(s: string, a: string, b: string, k: int, m: int) {
    OccursAt(s, a, k) && k + |a| <= m && OccursAt(s, b, m)
    && forall j :: k + |a| <= j < m ==> IsJsSpace(s[j])
  }

  /** The regular expression `a\s*b` matches somewhere in `s`. */
  predicate HasSpacedPhrase(s: string, a: string, b: string) {
    exists k, m | 0 <= k <= m <= |s| :: SpacedPhraseAt(s, a, b, k, m)
  }

  /** `/request\s*access|need\s*access|share\?ths=true/` over the lower-cased body. */
  predicate DenialText(lowered: string) {
    HasSpacedPhrase(lowered, "request", "access") || HasSpacedPhrase(lowered, "need", "access")
    || Contains(lowered, "share?ths=true")
  }

  /** The lower-cased body says to sign in or to ask for access. */
  predicate BodyBlocks(body: string) {
    var lowered := AsciiLower(body);
    Contains(lowered, "sign in") || DenialText(lowered)
  }

  /**
   * The classification of `probeAccess`: a login redirect, a sign-in or
   * request-access body, or 401/403 give no access; otherwise 200/204 give
   * access and anything else unknown.
   */
  function ClassifyByBody(status: int, finalUrl: string, body: string): Verdict {
    var lowered := AsciiLower(body);
    var isLogin := LoginUrl(finalUrl) || Contains(lowered, "sign in");
    var isDenied := status == 401 || status == 403 || DenialText(lowered);
    if isLogin || isDenied then NoAccess
    else if status == 200 || status == 204 then Access
    else Unknown
  }

  /** What `fetch` gave: a rejection, or a response with its status, `url` and body text (`""` when unreadable). */
  datatype FetchOutcome = NetworkError | Response(status: int, url: string, body: string)

  /** `probeAccess(url, authIndex)`, with `fetch` the network's answer to a request for a URL. */
  function ProbeAccess(t: UrlText, authIndex: nat, fetch: Url -> FetchOutcome): AccessResult {
    match BuildProfileSwitchUrlAsWritten(t, authIndex)
    case None => Failed(BadUrl)
    case Some(target) =>
      match fetch(target)
      case NetworkError => Failed(FetchError)
      case Response(status, url, body) => Classified(ClassifyByBody(status, url, body), status, url)
  }

  /**
   * The body classifier's no-access verdict is exactly: a login redirect, a
   * blocking body, or 401/403; access is exactly 200/204 without any of those.
   */
  lemma ClassifyByBodyIff(status: int, finalUrl: string, body: string)
    ensures ClassifyByBody(status, finalUrl, body) == NoAccess
            <==> LoginUrl(finalUrl) || BodyBlocks(body) || IsDeniedStatus(status)
    ensures ClassifyByBody(status, finalUrl, body) == Access
            <==> IsOkStatus(status) && !LoginUrl(finalUrl) && !BodyBlocks(body)
  {
  }

  /** The body is read case-insensitively: a body and its lower-cased form classify alike. */
  lemma ClassifyByBodyIgnoresCase(status: int, finalUrl: string, body: string)
    ensures ClassifyByBody(status, finalUrl, AsciiLower(body)) == ClassifyByBody(status, finalUrl, body)
  {
    AsciiLowerTwice(body);
  }

  /** A body containing `request access` (any case, any white space) denies access. */
  lemma RequestAccessDenies(status: int, finalUrl: string, body: string, k: nat, m: nat)
    requires SpacedPhraseAt(AsciiLower(body), "request", "access", k, m)
    ensures ClassifyByBody(status, finalUrl, body) == NoAccess
  {
    var lowered := AsciiLower(body);
    assert k <= m <= |lowered|;
    assert HasSpacedPhrase(lowered, "request", "access");
  }

  /** `probeAccess` fails only with `bad_url` (the rewrite fails) or `fetch_error` (the request fails); otherwise it echoes the response. */
  lemma ProbeAccessOutcomes(t: UrlText, authIndex: nat, fetch: Url -> FetchOutcome)
    ensures ProbeAccess(t, authIndex, fetch) == Failed(BadUrl) <==> t.Unparsable?
    ensures ProbeAccess(t, authIndex, fetch) == Failed(FetchError)
            <==> t.Parsed? && fetch(BuildProfileSwitchUrlAsWritten(t, authIndex).value).NetworkError?
    ensures ProbeAccess(t, authIndex, fetch).Classified? ==>
              var resp := fetch(BuildProfileSwitchUrlAsWritten(t, authIndex).value);
              resp.Response? && ProbeAccess(t, authIndex, fetch).code == resp.status
              && ProbeAccess(t, authIndex, fetch).finalUrl == resp.url
              && ProbeAccess(t, authIndex, fetch).verdict == ClassifyByBody(resp.status, resp.url, resp.body)
  {
    UrlRewriteFacts.BuildNoneIff(t, authIndex);
  }

  // ---------------------------------------------------------------------------
  // probeAccessInPage: classification by the shape of the final URL

  /** The rule of bg/access.js that produced a verdict. */
  datatype Rule = LoginOr403 | MeetLookupNoAccess | MeetCodeOrV2Access | MeetLandingUnknown | FallbackStatus | CatchFallback

  datatype Decision = Decision(verdict: Verdict, rule: Rule)

  /** A prefix test under the `i` flag. */
  predicate StartsWithIgnoringCase(s: string, prefix: string) {
    |prefix| <= |s| && forall k :: 0 <= k < |prefix| ==> SameIgnoringCase(s[k], prefix[k])
  }

  /** `rawPath.replace(/^\/u\/\d+\//, '/')`: one leading `/u/<digits>/` becomes `/`. */
  function StripLeadingU(p: string): string {
    if LeadingUIndex(p) then "/" + Join(Segments(p)[3..], '/') else p
  }

  /** `/^\/[a-z]{3}-[a-z]{4}-[a-z]{3}(?:\/|$)/i`: a meeting code followed by `/` or the end. */
  predicate MeetingCodePath(path: string) {
    MeetCodePrefix(path) && (|path| == 13 || path[13] == '/')
  }

  /**
   * What the script run in the page reported: `executeScript` threw, the script
   * answered `!ok`, or the status, final URL and body text (`""` when
   * unreadable) of the response.
   */
  datatype PageOutcome = ScriptError | NotOk | Fetched(status: int, finalUrl: UrlText, text: string)

  /** `new URL(r.finalUrl || targetUrl)`: the empty final URL falls back to the request's own URL. */
  function EffectiveUrl(finalUrl: UrlText, target: Url): UrlText {
    if Text(finalUrl) == "" then Parsed(target) else finalUrl
  }

  /** The rules of `probeAccessInPage`, in order, over the status, the reported final URL and the request URL. */
  function ClassifyByUrlShape(status: int, finalUrl: UrlText, target: Url): Decision {
    match EffectiveUrl(finalUrl, target)
    case Unparsable(_) => Decision(StatusOnly(status), CatchFallback)
    case Parsed(eff) =>
      var rawPath := if eff.path == "" then "/" else eff.path;
      var path := StripLeadingU(rawPath);
      var redirectedToLogin := Contains(Text(finalUrl), "accounts.google.com");
      var isMeetHost := eff.host == "meet.google.com";
      var isMeetingCode := MeetingCodePath(path);
      var isLookup := StartsWithIgnoringCase(path, "/lookup/");
      var isLanding := path == "/landing";
      var isV2 := StartsWithIgnoringCase(path, "/v2/");
      if status == 401 || status == 403 || redirectedToLogin then Decision(NoAccess, LoginOr403)
      else if isMeetHost && isLookup then Decision(NoAccess, MeetLookupNoAccess)
      else if isMeetHost && (isMeetingCode || isV2) && (status == 200 || status == 204) then
        Decision(Access, MeetCodeOrV2Access)
      else if isMeetHost && isLanding && (status == 200 || status == 204) then Decision(Unknown, MeetLandingUnknown)
      else Decision(if status == 200 || status == 204 then Access else if status == 401 || status == 403 then NoAccess else Unknown,
                    FallbackStatus)
  }

  /** `probeAccessInPage(tabId, url, authIndex)`, with `page` what the script run in the tab reported for a URL. */
  function ProbeAccessInPage(t: UrlText, authIndex: nat, page: Url -> PageOutcome): AccessResult {
    match BuildProfileSwitchUrlAsWritten(t, authIndex)
    case None => Failed(BadUrl)
    case Some(target) =>
      match page(target)
      case ScriptError => Failed(ExecError)
      case NotOk => Failed(FetchError)
      case Fetched(status, finalUrl, _) =>
        Classified(ClassifyByUrlShape(status, finalUrl, target).verdict, status, Text(finalUrl))
  }

  /** The effective path the meet rules look at. */
  function MeetPath(eff: Url): string {
    StripLeadingU(if eff.path == "" then "/" else eff.path)
  }

  /** The effective URL is a meet lookup page. */
  predicate MeetLookup(eff: Url) {
    eff.host == "meet.google.com" && StartsWithIgnoringCase(MeetPath(eff), "/lookup/")
  }

  /** The effective URL is the meet landing page. */
  predicate MeetLanding(eff: Url) {
    eff.host == "meet.google.com" && MeetPath(eff) == "/landing"
  }

  /**
   * No access exactly on 401/403, a redirect to accounts.google.com, or a meet
   * lookup page, the last two only when the final URL parses; access exactly on
   * 200/204 when none of those holds and the page is not the meet landing page.
   */
  lemma ClassifyByUrlShapeIff(status: int, finalUrl: UrlText, target: Url)
    ensures ClassifyByUrlShape(status, finalUrl, target).verdict == NoAccess
            <==> IsDeniedStatus(status)
                 || (EffectiveUrl(finalUrl, target).Parsed?
                     && (Contains(Text(finalUrl), "accounts.google.com") || MeetLookup(EffectiveUrl(finalUrl, target).url)))
    ensures ClassifyByUrlShape(status, finalUrl, target).verdict == Access
            <==> IsOkStatus(status)
                 && (EffectiveUrl(finalUrl, target).Parsed? ==>
                      !Contains(Text(finalUrl), "accounts.google.com")
                      && !MeetLookup(EffectiveUrl(finalUrl, target).url)
                      && !MeetLanding(EffectiveUrl(finalUrl, target).url))
  {
    match EffectiveUrl(finalUrl, target)
    case Unparsable(_) =>
    case Parsed(eff) =>
      LandingIsNotCodeOrV2(MeetPath(eff));
  }

  /** The landing path is neither a meeting code nor a `/v2/` path. */
  lemma LandingIsNotCodeOrV2(path: string)
    ensures path == "/landing" ==> !MeetingCodePath(path) && !StartsWithIgnoringCase(path, "/v2/")
  {
    if path == "/landing" {
      assert !SameIgnoringCase(path[1], "/v2/"[1]);
    }
  }

  /** The `no_access` arm of `fallback_status` is dead: 401/403 never reach that rule. */
  lemma FallbackNeverDenies(status: int, finalUrl: UrlText, target: Url)
    ensures ClassifyByUrlShape(status, finalUrl, target).rule == FallbackStatus
            ==> ClassifyByUrlShape(status, finalUrl, target).verdict != NoAccess
  {
  }

  /** A final URL that does not parse leaves only the status: rule `catch_fallback`. */
  lemma UnparsableFallsBack(status: int, raw: string, target: Url)
    requires raw != ""
    ensures ClassifyByUrlShape(status, Unparsable(raw), target) == Decision(StatusOnly(status), CatchFallback)
  {
  }

  /** On the meet host, a lookup page is no access whatever the status (short of the login rule). */
  lemma MeetLookupIsNoAccess(status: int, finalUrl: UrlText, target: Url)
    requires EffectiveUrl(finalUrl, target).Parsed? && MeetLookup(EffectiveUrl(finalUrl, target).url)
    requires !IsDeniedStatus(status) && !Contains(Text(finalUrl), "accounts.google.com")
    ensures ClassifyByUrlShape(status, finalUrl, target) == Decision(NoAccess, MeetLookupNoAccess)
  {
  }

  /** `^\/u\/\d+\//` in front of a path is replaced by `/`. */
  lemma StripLeadingUPrefix(n: nat, rest: string)
    ensures StripLeadingU("/u/" + Dec(n) + "/" + rest) == "/" + rest
  {
    var p := "/u/" + Dec(n) + "/" + rest;
    UrlRewriteFacts.SegmentsOfUPrefix(Dec(n), rest);
    var segs := Segments(p);
    JoinSplit(rest, '/');
    assert segs[3..] == Segments(rest);
  }

  /**
   * A meeting link opened under any account slot `/u/<n>/` that answers
   * 200/204 on the meet host is access by `meet_code_or_v2_access`.
   */
  lemma MeetCodeUnderAccountIsAccess(status: int, u: Url, target: Url, n: nat, rest: string)
    requires IsOkStatus(status)
    requires u.host == "meet.google.com" && u.path == "/u/" + Dec(n) + "/" + rest
    requires MeetingCodePath("/" + rest)
    requires Text(Parsed(u)) != "" && !Contains(Text(Parsed(u)), "accounts.google.com")
    ensures ClassifyByUrlShape(status, Parsed(u), target) == Decision(Access, MeetCodeOrV2Access)
  {
    StripLeadingUPrefix(n, rest);
    assert MeetPath(u) == "/" + rest;
    assert !StartsWithIgnoringCase("/" + rest, "/lookup/") by {
      if |"/" + rest| >= 8 {
        assert ("/" + rest)[4] == '-';
        assert !SameIgnoringCase(("/" + rest)[4], "/lookup/"[4]);
      }
    }
  }

  /** `probeAccessInPage` fails with `bad_url`, `exec_error` or `fetch_error` exactly as the rewrite, the script or the fetch fails; otherwise it echoes status and final URL. */
  lemma ProbeAccessInPageOutcomes(t: UrlText, authIndex: nat, page: Url -> PageOutcome)
    ensures ProbeAccessInPage(t, authIndex, page) == Failed(BadUrl) <==> t.Unparsable?
    ensures ProbeAccessInPage(t, authIndex, page) == Failed(ExecError)
            <==> t.Parsed? && page(BuildProfileSwitchUrlAsWritten(t, authIndex).value).ScriptError?
    ensures ProbeAccessInPage(t, authIndex, page) == Failed(FetchError)
            <==> t.Parsed? && page(BuildProfileSwitchUrlAsWritten(t, authIndex).value).NotOk?
    ensures ProbeAccessInPage(t, authIndex, page).Classified? ==>
              var out := page(BuildProfileSwitchUrlAsWritten(t, authIndex).value);
              out.Fetched? && ProbeAccessInPage(t, authIndex, page).code == out.status
              && ProbeAccessInPage(t, authIndex, page).finalUrl == Text(out.finalUrl)
              && ProbeAccessInPage(t, authIndex, page).verdict
                 == ClassifyByUrlShape(out.status, out.finalUrl, BuildProfileSwitchUrlAsWritten(t, authIndex).value).verdict
  {
    UrlRewriteFacts.BuildNoneIff(t, authIndex);
  }

  /**
   * The two classifiers agree off the meet host when the final URL parses, the
   * body does not block and the final URL carries none of `servicelogin`/`signin`.
   */
  lemma ClassifiersAgreeOffMeet(status: int, finalUrl: Url, target: Url, body: string)
    requires Href(finalUrl) != "" && finalUrl.host != "meet.google.com"
    requires !LoginUrl(Href(finalUrl)) && !BodyBlocks(body)
    ensures ClassifyByUrlShape(status, Parsed(finalUrl), target).verdict == ClassifyByBody(status, Href(finalUrl), body)
  {
  }

  // ---------------------------------------------------------------------------
  // checkAccessForProfiles / checkAccessForProfilesInPage

  /** No profile after position `j` (and before `n`) has the `authIndex` of profile `j`. */
  predicate LastBefore(profiles: seq<Profile>, j: int, n: int)
    requires 0 <= j < |profiles| && n <= |profiles|
  {
    forall i :: j < i < n ==> profiles[i].authIndex != profiles[j].authIndex
  }

  /**
   * The aggregation loop: probe the profiles one after another (`probe(k, idx)`
   * is the answer of the `k`-th probe, for index `idx`) and record each answer
   * under the profile's `authIndex`. The keys are exactly the profiles'
   * indexes and, for a repeated index, the later profile's answer stays.
   */
  method CollectResults(profiles: seq<Profile>, probe: (nat, nat) -> AccessResult) returns (results: map<nat, AccessResult>)
    ensures results.Keys == AuthIndexes(profiles)
    ensures forall j :: 0 <= j < |profiles| && LastBefore(profiles, j, |profiles|)
              ==> results[profiles[j].authIndex] == probe(j, profiles[j].authIndex)
  {
    results := map[];
    var k := 0;
    while k < |profiles|
      invariant 0 <= k <= |profiles|
      invariant results.Keys == set j | 0 <= j < k :: profiles[j].authIndex
      invariant forall j :: 0 <= j < k && LastBefore(profiles, j, k)
                  ==> profiles[j].authIndex in results && results[profiles[j].authIndex] == probe(j, profiles[j].authIndex)
    {
      results := results[profiles[k].authIndex := probe(k, profiles[k].authIndex)];
      k := k + 1;
    }
  }

  /** `checkAccessForProfiles`: `fetch(k)` is the network seen by the `k`-th probe. */
  method CheckAccessForProfiles(t: UrlText, profiles: seq<Profile>, fetch: nat -> Url -> FetchOutcome)
    returns (results: map<nat, AccessResult>)
    ensures results.Keys == AuthIndexes(profiles)
    ensures forall j :: 0 <= j < |profiles| && LastBefore(profiles, j, |profiles|)
              ==> results[profiles[j].authIndex] == ProbeAccess(t, profiles[j].authIndex, fetch(j))
  {
    results := CollectResults(profiles, (k: nat, idx: nat) => ProbeAccess(t, idx, fetch(k)));
  }

  /** `checkAccessForProfilesInPage`: `page(k)` is what the script reports in the `k`-th probe. */
  method CheckAccessForProfilesInPage(t: UrlText, profiles: seq<Profile>, page: nat -> Url -> PageOutcome)
    returns (results: map<nat, AccessResult>)
    ensures results.Keys == AuthIndexes(profiles)
    ensures forall j :: 0 <= j < |profiles| && LastBefore(profiles, j, |profiles|)
              ==> results[profiles[j].authIndex] == ProbeAccessInPage(t, profiles[j].authIndex, page(j))
  {
    results := CollectResults(profiles, (k: nat, idx: nat) => ProbeAccessInPage(t, idx, page(k)));
  }

  /** Every index of the profiles has a last profile carrying it, so every key's result is a probe's answer. */
  lemma {:induction false} LastProfileExists(profiles: seq<Profile>, idx: nat)
    requires idx in AuthIndexes(profiles)
    ensures exists j :: 0 <= j < |profiles| && profiles[j].authIndex == idx && LastBefore(profiles, j, |profiles|)
    decreases |profiles|
  {
    var n := |profiles| - 1;
    if profiles[n].authIndex == idx {
      assert LastBefore(profiles, n, |profiles|);
    } else {
      var init := profiles[..n];
      assert idx in AuthIndexes(init) by {
        var j :| 0 <= j < |profiles| && profiles[j].authIndex == idx;
        assert init[j] == profiles[j];
      }
      LastProfileExists(init, idx);
      var j :| 0 <= j < |init| && init[j].authIndex == idx && LastBefore(init, j, |init|);
      assert profiles[j] == init[j];
      assert LastBefore(profiles, j, |profiles|);
    }
  }
}
