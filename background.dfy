/**
 * The decision logic of the service worker (background.js) beyond what it
 * shares with bg/url.js, bg/access.js and bg/logs.js (the URL rewriting and
 * parsing, the two access classifiers and the log buffer, modelled in `Url`,
 * `UrlRewrite`, `Access` and `Logs`): the snippet-aware in-page access
 * classifier, the `lm.checkAccess` message handler and the context-menu
 * entries `lm-open-<authIndex>`.
 */
module Background {

  import opened Base
  import opened JsText
  import opened Url
  import opened UrlRewrite
  import opened Profiles
  import opened Access
  import UrlRewriteFacts

  // ---------------------------------------------------------------------------
  // The snippet-aware classifier of probeAccessInPage

  const SnippetLength: nat := 4000

  /**
   * `(text || '').toLowerCase().slice(0, 4000)`: the lower-cased start of the
   * response text; the model counts characters where `slice` counts UTF-16
   * code units.
   */
  function Snippet(text: string): (r: string)
    ensures |r| == if |text| <= SnippetLength then |text| else SnippetLength
    ensures forall k :: 0 <= k < |r| ==> r[k] == LowerChar(text[k])
  {
    var lowered := AsciiLower(text);
    if |lowered| <= SnippetLength then lowered else lowered[..SnippetLength]
  }

  /** The meeting page offers to join: `join now` or `rejoin`. */
  predicate OffersJoin(s: string) {
    Contains(s, "join now") || Contains(s, "rejoin")
  }

  /** The meeting page asks to be admitted or says the meeting is closed to this account. */
  predicate RefusesJoin(s: string) {
    || Contains(s, "ask to join") || Contains(s, "request to join")
    || Contains(s, "you can\U{2019}t join") || Contains(s, "you can't join")
    || Contains(s, "doesn\U{2019}t exist") || Contains(s, "doesn't exist")
  }

  /**
   * The classification of background.js's `probeAccessInPage`: 401/403 or a
   * redirect to accounts.google.com give no access; on the meet host the
   * snippet decides (join before refusal, otherwise unknown); elsewhere the
   * status decides. A final URL that does not parse leaves only the status.
   */
  function ClassifyBySnippet(status: int, finalUrl: UrlText, target: Url, snippet: string): Verdict {
    match EffectiveUrl(finalUrl, target)
    case Unparsable(_) => StatusOnly(status)
    case Parsed(eff) =>
      var s := AsciiLower(snippet);
      if status == 401 || status == 403 || Contains(Text(finalUrl), "accounts.google.com") then NoAccess
      else if eff.host == "meet.google.com" then
        if OffersJoin(s) then Access else if RefusesJoin(s) then NoAccess else Unknown
      else if status == 200 || status == 204 then Access
      else if status == 401 || status == 403 then NoAccess
      else Unknown
  }

  /** background.js's `probeAccessInPage(tabId, url, authIndex)`, with `page` what the script in the tab reported. */
  function ProbeAccessWithSnippet(t: UrlText, authIndex: nat, page: Url -> PageOutcome): AccessResult {
    match BuildProfileSwitchUrlAsWritten(t, authIndex)
    case None => Failed(BadUrl)
    case Some(target) =>
      match page(target)
      case ScriptError => Failed(ExecError)
      case NotOk => Failed(FetchError)
      case Fetched(status, finalUrl, text) =>
        Classified(ClassifyBySnippet(status, finalUrl, target, Snippet(text)), status, Text(finalUrl))
  }

  /** The effective URL is on the meet host. */
  predicate OnMeet(finalUrl: UrlText, target: Url) {
    EffectiveUrl(finalUrl, target).Parsed? && EffectiveUrl(finalUrl, target).url.host == "meet.google.com"
  }

  /**
   * No access exactly on 401/403, or, when the final URL parses, a redirect to
   * accounts.google.com or a meeting page that refuses without offering to join.
   */
  lemma ClassifyBySnippetNoAccessIff(status: int, finalUrl: UrlText, target: Url, snippet: string)
    ensures ClassifyBySnippet(status, finalUrl, target, snippet) == NoAccess
            <==> IsDeniedStatus(status)
                 || (EffectiveUrl(finalUrl, target).Parsed?
                     && (Contains(Text(finalUrl), "accounts.google.com")
                         || (OnMeet(finalUrl, target) && !OffersJoin(AsciiLower(snippet)) && RefusesJoin(AsciiLower(snippet)))))
  {
  }

  /**
   * On the meet host (past the login rule) the status plays no part: access
   * exactly when the page offers to join, even if it also asks to join.
   */
  lemma MeetVerdictIgnoresStatus(s1: int, s2: int, finalUrl: UrlText, target: Url, snippet: string)
    requires OnMeet(finalUrl, target) && !Contains(Text(finalUrl), "accounts.google.com")
    requires !IsDeniedStatus(s1) && !IsDeniedStatus(s2)
    ensures ClassifyBySnippet(s1, finalUrl, target, snippet) == ClassifyBySnippet(s2, finalUrl, target, snippet)
    ensures ClassifyBySnippet(s1, finalUrl, target, snippet) == Access <==> OffersJoin(AsciiLower(snippet))
  {
  }

  /** Off the meet host the snippet classifier and the URL-shape classifier of bg/access.js agree. */
  lemma SnippetAgreesWithUrlShapeOffMeet(status: int, finalUrl: UrlText, target: Url, snippet: string)
    requires !OnMeet(finalUrl, target)
    ensures ClassifyBySnippet(status, finalUrl, target, snippet) == ClassifyByUrlShape(status, finalUrl, target).verdict
  {
  }

  /** Text beyond the first 4000 characters is never looked at. */
  lemma SnippetIgnoresTail(head: string, tail: string)
    requires |head| >= SnippetLength
    ensures Snippet(head + tail) == Snippet(head)
  {
    var a := Snippet(head + tail);
    var b := Snippet(head);
    assert forall k :: 0 <= k < |a| ==> a[k] == b[k] by {
      forall k | 0 <= k < |a| ensures a[k] == b[k] {
        assert (head + tail)[k] == head[k];
      }
    }
  }

  /** The snippet is already lower-case, so the second `toLowerCase` changes nothing. */
  lemma SnippetIsLowerCase(text: string)
    ensures AsciiLower(Snippet(text)) == Snippet(text)
  {
    var s := Snippet(text);
    assert forall k :: 0 <= k < |s| ==> LowerChar(s[k]) == s[k] by {
      forall k | 0 <= k < |s| ensures LowerChar(s[k]) == s[k] {
        assert s[k] == LowerChar(text[k]);
      }
    }
  }

  /** background.js's `checkAccessForProfilesInPage`: `page(k)` is what the script reports in the `k`-th probe. */
  method CheckAccessWithSnippets(t: UrlText, profiles: seq<Profile>, page: nat -> Url -> PageOutcome)
    returns (results: map<nat, AccessResult>)
    ensures results.Keys == AuthIndexes(profiles)
    ensures forall j :: 0 <= j < |profiles| && LastBefore(profiles, j, |profiles|)
              ==> results[profiles[j].authIndex] == ProbeAccessWithSnippet(t, profiles[j].authIndex, page(j))
  {
    results := CollectResults(profiles, (k: nat, idx: nat) => ProbeAccessWithSnippet(t, idx, page(k)));
  }

  // ---------------------------------------------------------------------------
  // The lm.checkAccess message

  /** Access can be checked for a Google file or a meeting. */
  predicate IsSupported(url: UrlText) {
    ParseGoogleFileId(url).Some? || IsMeetUrl(url)
  }

  /** `sender?.tab?.id` is truthy. */
  predicate HasSenderTab(tabId: Option<int>) {
    tabId.Some? && tabId.value != 0
  }

  /** The outcome of `getProfiles()` and the probing chained on it: the stored value, or a rejection. */
  datatype ProfilesRead = ReadFailed | Read(stored: Option<seq<Profile>>)

  /** The response sent back: `{ok, results, supported?, revalidating?}`. */
  datatype CheckAccessResponse = CheckAccessResponse(
    ok: bool,
    results: map<nat, AccessResult>,
    supported: Option<bool>,
    revalidating: Option<bool>)

  /**
   * The `lm.checkAccess` handler: an unsupported URL or a missing sender tab is
   * answered without probing; otherwise every profile is probed in the tab.
   */
  method HandleCheckAccess(url: UrlText, tabId: Option<int>, read: ProfilesRead, page: nat -> Url -> PageOutcome)
    returns (resp: CheckAccessResponse)
    ensures !IsSupported(url) || !HasSenderTab(tabId) ==> resp == CheckAccessResponse(true, map[], Some(false), None)
    ensures IsSupported(url) && HasSenderTab(tabId) && read.ReadFailed? ==> resp == CheckAccessResponse(false, map[], None, None)
    ensures IsSupported(url) && HasSenderTab(tabId) && read.Read? ==>
              var profiles := ProfilesOrDefault(read.stored);
              && resp.ok && resp.supported == Some(true) && resp.revalidating == Some(false)
              && resp.results.Keys == AuthIndexes(profiles)
              && forall j :: 0 <= j < |profiles| && LastBefore(profiles, j, |profiles|)
                   ==> resp.results[profiles[j].authIndex] == ProbeAccessWithSnippet(url, profiles[j].authIndex, page(j))
  {
    if !IsSupported(url) || !HasSenderTab(tabId) {
      return CheckAccessResponse(true, map[], Some(false), None);
    }
    match read
    case ReadFailed =>
      resp := CheckAccessResponse(false, map[], None, None);
    case Read(stored) =>
      var results := CheckAccessWithSnippets(url, ProfilesOrDefault(stored), page);
      resp := CheckAccessResponse(true, results, Some(true), Some(false));
  }

  // ---------------------------------------------------------------------------
  // Context menu

  const MenuPrefix: string := "lm-open-"

  /** The id of the menu entry for a profile: `lm-open-${p.authIndex}`. */
  function MenuItemId(authIndex: nat): string {
    MenuPrefix + Dec(authIndex)
  }

  /** `/^lm-open-(\d+)$/` and `Number` of the captured digits. */
  function ParseMenuItemId(id: string): Option<nat> {
    if StartsWith(id, MenuPrefix) && IsDigits(id[|MenuPrefix|..]) then Some(DigitsValue(id[|MenuPrefix|..])) else None
  }

  /** Every entry the extension creates names its profile's index. */
  lemma MenuItemIdRoundTrip(authIndex: nat)
    ensures ParseMenuItemId(MenuItemId(authIndex)) == Some(authIndex)
  {
    var id := MenuItemId(authIndex);
    assert id[|MenuPrefix|..] == Dec(authIndex);
    DigitsValueOfDec(authIndex);
  }

  /** An id that parses and has no leading zero is the id of the entry for that index. */
  lemma ParseMenuItemIdExact(id: string)
    requires ParseMenuItemId(id).Some?
    requires |id| == |MenuPrefix| + 1 || id[|MenuPrefix|] != '0'
    ensures id == MenuItemId(ParseMenuItemId(id).value)
  {
    var digits := id[|MenuPrefix|..];
    DecOfDigitsValue(digits);
    assert id == id[..|MenuPrefix|] + digits;
  }

  /** A tab to open: the URL and the position `tab.index + 1` (or none). */
  datatype OpenTab = OpenTab(url: Url, index: Option<int>)

  /** `a || b` over optional URL strings: the first one with non-empty text. */
  function FirstUrl(a: Option<UrlText>, b: Option<UrlText>): (r: Option<UrlText>)
    ensures r.Some? ==> Text(r.value) != ""
    ensures r.None? <==> (a.None? || Text(a.value) == "") && (b.None? || Text(b.value) == "")
  {
    if a.Some? && Text(a.value) != "" then a
    else if b.Some? && Text(b.value) != "" then b
    else None
  }

  /**
   * A click on a context-menu entry: for `lm-open-<n>`, open the link (or else
   * the page) rewritten for account `n` next to the current tab.
   */
  function ContextMenuClick(menuItemId: Option<string>, linkUrl: Option<UrlText>, tabUrl: Option<UrlText>, tabIndex: Option<int>)
    : Option<OpenTab>
  {
    if menuItemId.None? then None
    else match ParseMenuItemId(menuItemId.value)
      case None => None
      case Some(n) =>
        match FirstUrl(linkUrl, tabUrl)
        case None => None
        case Some(current) =>
          match BuildProfileSwitchUrlAsWritten(current, n)
          case None => None
          case Some(target) => Some(OpenTab(target, if tabIndex.Some? then Some(tabIndex.value + 1) else None))
  }

  /**
   * A click opens a tab exactly when the entry is `lm-open-<digits>` and there
   * is a URL that parses; the tab opens the link (or else the page) switched
   * to the entry's account by `buildProfileSwitchUrl`, next to the current tab.
   */
  lemma ContextMenuClickOpens(menuItemId: Option<string>, linkUrl: Option<UrlText>, tabUrl: Option<UrlText>, tabIndex: Option<int>)
    ensures ContextMenuClick(menuItemId, linkUrl, tabUrl, tabIndex).Some?
            <==> menuItemId.Some? && ParseMenuItemId(menuItemId.value).Some?
                 && FirstUrl(linkUrl, tabUrl).Some? && FirstUrl(linkUrl, tabUrl).value.Parsed?
    ensures ContextMenuClick(menuItemId, linkUrl, tabUrl, tabIndex).Some? ==>
              var tab := ContextMenuClick(menuItemId, linkUrl, tabUrl, tabIndex).value;
              var n := ParseMenuItemId(menuItemId.value).value;
              var current := FirstUrl(linkUrl, tabUrl).value;
              && Some(tab.url) == BuildProfileSwitchUrlAsWritten(current, n)
              && ParseAuthIndexFromUrl(Parsed(tab.url)) == Some(Int(n))
              && tab.url.host == current.url.host
              && ParseGoogleFileId(Parsed(tab.url)) == ParseGoogleFileId(current)
              && (tabIndex.Some? ==> tab.index == Some(tabIndex.value + 1))
              && (tabIndex.None? ==> tab.index.None?)
  {
    if menuItemId.Some? && ParseMenuItemId(menuItemId.value).Some? && FirstUrl(linkUrl, tabUrl).Some? {
      var n := ParseMenuItemId(menuItemId.value).value;
      var current := FirstUrl(linkUrl, tabUrl).value;
      var built := BuildProfileSwitchUrlAsWritten(current, n);
      var at := if tabIndex.Some? then Some(tabIndex.value + 1) else None;
      assert ContextMenuClick(menuItemId, linkUrl, tabUrl, tabIndex) == if built.Some? then Some(OpenTab(built.value, at)) else None;
      assert built.Some? <==> current.Parsed? by {
        SwitchOpens(current, n);
      }
      if built.Some? {
        assert && ParseAuthIndexFromUrl(Parsed(built.value)) == Some(Int(n))
               && built.value.host == current.url.host
               && ParseGoogleFileId(Parsed(built.value)) == ParseGoogleFileId(current) by {
          SwitchOpens(current, n);
        }
      }
    }
  }

  /**
   * The account switch of background.js:221 succeeds exactly on a URL that
   * parses; the result carries the account index, keeps the scheme, host,
   * fragment and every other query pair, and points to the same file.
   */
  lemma SwitchOpens(current: UrlText, n: nat)
    ensures BuildProfileSwitchUrlAsWritten(current, n).Some? <==> current.Parsed?
    ensures BuildProfileSwitchUrlAsWritten(current, n).Some? ==>
              var r := BuildProfileSwitchUrlAsWritten(current, n).value;
              && ParseAuthIndexFromUrl(Parsed(r)) == Some(Int(n))
              && r.scheme == current.url.scheme && r.host == current.url.host && r.fragment == current.url.fragment
              && RemoveAll(r.query, "authuser") == RemoveAll(current.url.query, "authuser")
              && ParseGoogleFileId(Parsed(r)) == ParseGoogleFileId(current)
  {
    UrlRewriteFacts.BuildNoneIff(current, n);
    if current.Parsed? {
      UrlRewriteFacts.BuildSetsAuthIndex(current.url, n);
      UrlRewriteFacts.BuildKeepsFileId(current.url, n);
    }
  }
}
