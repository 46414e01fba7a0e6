/**
 * The content script's decisions (content.js): which pages can be probed,
 * which account the page is using, how the signed-in account is merged into
 * the stored profiles, the site name shown in the modal, and the debounce
 * gate and loading state around access checks. `buildUrl` and
 * `parseAuthIndexFromUrl` of content.js are `UrlRewrite.BuildUrl` and
 * `UrlRewrite.ParseAuthIndexFromUrl`.
 */
module Content {

  import opened Base
  import opened JsText
  import opened Url
  import opened UrlRewrite
  import opened Profiles
  import opened Access
  import opened Background

  // ---------------------------------------------------------------------------
  // Pages that can be probed

  /** `location.search`: `?` and the query string, or nothing for an empty query. */
  function Search(u: Url): (r: string)
    ensures r == "" <==> u.query == []
    ensures r != "" ==> r[0] == '?'
  {
    if u.query == [] then "" else "?" + QueryString(u.query)
  }

  /** `isDocsFile`: a Docs, Sheets or Slides path on docs.google.com. */
  predicate IsDocsFile(u: Url) {
    u.host == "docs.google.com"
    && (Contains(u.path, "/document/") || Contains(u.path, "/spreadsheets/") || Contains(u.path, "/presentation/"))
  }

  /** `isDriveFile` as written: the `open?id=` test runs against `location.search`. */
  predicate IsDriveFileAsWritten(u: Url) {
    u.host == "drive.google.com" && (Contains(u.path, "/file/") || Contains(Search(u), "open?id="))
  }

  /**
   * `isDriveFile` as intended: a `/file/` path, or an `open?id=` link, which
   * spans the end of the path and the start of the query.
   */
  predicate IsDriveFile(u: Url) {
    u.host == "drive.google.com" && (Contains(u.path, "/file/") || Contains(u.path + Search(u), "open?id="))
  }

  /** `supportsAccessProbe`, with `isDriveFile` as the source writes it: a Docs file, a Drive file, or any Meet page. */
  predicate SupportsAccessProbe(u: Url) {
    IsDocsFile(u) || IsDriveFileAsWritten(u) || u.host == "meet.google.com"
  }

  /**
   * The access check is offered on every Meet page, on Docs documents,
   * sheets and slides, on Drive `/file/` pages, and on no host other than
   * those three.
   */
  lemma SupportsAccessProbeHosts(u: Url)
    ensures SupportsAccessProbe(u) ==> u.host == "docs.google.com" || u.host == "drive.google.com" || u.host == "meet.google.com"
    ensures u.host == "meet.google.com" ==> SupportsAccessProbe(u)
    ensures u.host == "docs.google.com" && Contains(u.path, "/document/") ==> SupportsAccessProbe(u)
    ensures u.host == "drive.google.com" && Contains(u.path, "/file/") ==> SupportsAccessProbe(u)
    ensures u.host == "drive.google.com" && SupportsAccessProbe(u) ==> Contains(u.path, "/file/") || Contains(Search(u), "open?id=")
  {
  }

  /** `drive.google.com/open?id=ABC` (path `/open`, query `id=ABC`), passed in as `u`. */
  predicate DriveOpenLink(u: Url) {
    u == Url("https", "drive.google.com", "/open", [Param("id", "ABC")], None)
  }

  /**
   * The `open?id=` test never sees the path, so an `open?id=` link is not
   * recognised as a Drive file as written; the intended test recognises it.
   */
  lemma DriveOpenLinkMissed(u: Url)
    requires DriveOpenLink(u)
    ensures !IsDriveFileAsWritten(u)
    ensures !SupportsAccessProbe(u)
    ensures IsDriveFile(u)
  {
    var search := Search(u);
    assert search == "?id=ABC";
    NoOccurrenceInShorter(search, "open?id=");
    NoFileSegmentInOpen(u.path);
    assert (u.path + search)[1..9] == "open?id=";
    assert OccursAt(u.path + search, "open?id=", 1);
    OccursContains(u.path + search, "open?id=", 1);
  }

  lemma NoOccurrenceInShorter(s: string, p: string)
    requires |s| < |p|
    ensures !Contains(s, p)
  {
    ContainsIff(s, p);
  }

  lemma NoFileSegmentInOpen(path: string)
    requires path == "/open"
    ensures !Contains(path, "/file/")
  {
    NoOccurrenceInShorter(path, "/file/");
  }

  /** Whatever the code as written recognises, the intended test recognises too. */
  lemma DriveFileAsWrittenIsIntended(u: Url)
    ensures IsDriveFileAsWritten(u) ==> IsDriveFile(u)
  {
    if IsDriveFileAsWritten(u) && !Contains(u.path, "/file/") {
      var s := Search(u);
      ContainsIff(s, "open?id=");
      var k :| OccursAt(s, "open?id=", k);
      assert (u.path + s)[|u.path| + k..|u.path| + k + 8] == s[k..k + 8];
      OccursContains(u.path + s, "open?id=", |u.path| + k);
    }
  }

  // ---------------------------------------------------------------------------
  // The active account

  /** What `scanCurrentGoogleAccount` reads from the page's account button. */
  datatype AccountDetails = AccountDetails(name: Option<string>, email: Option<string>, photoUrl: Option<string>)

  /** Equal after ASCII lower-casing (`a.toLowerCase() === b.toLowerCase()`). */
  predicate SameEmail(a: string, b: string) {
    AsciiLower(a) == AsciiLower(b)
  }

  /** The first profile with a truthy email equal to `email` up to case. */
  function FindByEmail(ps: seq<Profile>, email: string): (r: Option<nat>)
    ensures r.Some? ==> r.value < |ps| && Truthy(ps[r.value].email) && SameEmail(ps[r.value].email.value, email)
    ensures r.Some? ==> forall k :: 0 <= k < r.value ==> !(Truthy(ps[k].email) && SameEmail(ps[k].email.value, email))
    ensures r.None? ==> forall k :: 0 <= k < |ps| ==> !(Truthy(ps[k].email) && SameEmail(ps[k].email.value, email))
    decreases |ps|
  {
    if ps == [] then None
    else if Truthy(ps[0].email) && SameEmail(ps[0].email.value, email) then Some(0)
    else match FindByEmail(ps[1..], email)
      case None => None
      case Some(k) => Some(k + 1)
  }

  /**
   * `detectActiveAuthIndex`: the index in the page URL when it reads as a
   * number; else the `authIndex` of the first profile whose email is the
   * scanned account's; else none.
   */
  function DetectActiveAuthIndex(href: UrlText, scanned: Option<AccountDetails>, profiles: seq<Profile>): (r: Option<nat>)
    ensures r.None? || ParseAuthIndexFromUrl(href) == Some(Int(r.value)) || (exists k :: 0 <= k < |profiles| && profiles[k].authIndex == r.value)
    ensures (match ParseAuthIndexFromUrl(href) case Some(Int(n)) => r == Some(n) case _ => true)
    ensures r.None? <==>
              && (ParseAuthIndexFromUrl(href).None? || ParseAuthIndexFromUrl(href) == Some(NaN))
              && (scanned.None? || !Truthy(scanned.value.email)
                  || forall k :: 0 <= k < |profiles| ==> !(Truthy(profiles[k].email) && SameEmail(profiles[k].email.value, scanned.value.email.value)))
    ensures (ParseAuthIndexFromUrl(href).None? || ParseAuthIndexFromUrl(href) == Some(NaN))
            && scanned.Some? && Truthy(scanned.value.email) && FindByEmail(profiles, scanned.value.email.value).Some?
            ==> r == Some(profiles[FindByEmail(profiles, scanned.value.email.value).value].authIndex)
  {
    match ParseAuthIndexFromUrl(href)
    case Some(Int(n)) => Some(n)
    case _ =>
      if scanned.Some? && Truthy(scanned.value.email) then
        match FindByEmail(profiles, scanned.value.email.value)
        case Some(k) => Some(profiles[k].authIndex)
        case None => None
      else None
  }

  // ---------------------------------------------------------------------------
  // Merging the signed-in account into the profiles

  /**
   * A found profile after the upsert: truthy scanned values replace name,
   * email and photo; an empty label is filled from the (new) name or email.
   */
  function Refresh(p: Profile, d: AccountDetails): (r: Profile)
    ensures r.id == p.id && r.authIndex == p.authIndex
    ensures r.name == OrElse(d.name, p.name) && r.email == OrElse(d.email, p.email) && r.photoUrl == OrElse(d.photoUrl, p.photoUrl)
    ensures p.labelText != "" ==> r.labelText == p.labelText
    ensures p.labelText == "" && !Truthy(r.name) && !Truthy(r.email) ==> r.labelText == ""
    ensures p.labelText == "" && (Truthy(r.name) || Truthy(r.email)) ==> r.labelText != ""
    ensures p.labelText == "" && Truthy(r.name) ==> r.labelText == r.name.value
    ensures p.labelText == "" && !Truthy(r.name) && Truthy(r.email) ==> r.labelText == r.email.value
  {
    var name := OrElse(d.name, p.name);
    var email := OrElse(d.email, p.email);
    var labelText := if p.labelText == "" && (Truthy(name) || Truthy(email)) then FirstTruthy(name, email, "") else p.labelText;
    Profile(p.id, labelText, p.authIndex, name, email, OrElse(d.photoUrl, p.photoUrl))
  }

  /**
   * The profile appended for a new account index: `{id: "acc-<idx>", label,
   * authIndex, ...details}`, labelled by the name, else the email, else
   * `Account <idx>`.
   */
  function NewAccount(idx: nat, d: AccountDetails): (r: Profile)
    ensures r.authIndex == idx && r.id == "acc-" + Dec(idx)
    ensures Truthy(d.name) ==> r.labelText == d.name.value
    ensures !Truthy(d.name) && Truthy(d.email) ==> r.labelText == d.email.value
    ensures !Truthy(d.name) && !Truthy(d.email) ==> r.labelText == "Account " + Dec(idx)
    ensures r.labelText != ""
    ensures r.name == d.name && r.email == d.email && r.photoUrl == d.photoUrl
  {
    Profile("acc-" + Dec(idx), FirstTruthy(d.name, d.email, "Account " + Dec(idx)), idx, d.name, d.email, d.photoUrl)
  }

  /**
   * `upsertCurrentAccountIntoProfiles`: the list written back to storage, or
   * none when nothing was scanned or the page URL names no numeric index.
   * `stored` is the stored value when it is an array (else `[]`).
   */
  function Upsert(stored: seq<Profile>, details: Option<AccountDetails>, href: UrlText): (r: Option<seq<Profile>>)
    ensures r.None? <==> details.None? || !(ParseAuthIndexFromUrl(href).Some? && ParseAuthIndexFromUrl(href).value.Int?)
    ensures r.Some? ==> AuthIndexes(r.value) == AuthIndexes(stored) + {ParseAuthIndexFromUrl(href).value.value}
    ensures r.Some? ==> r.value == UpsertAt(stored, details.value, ParseAuthIndexFromUrl(href).value.value)
  {
    match details
    case None => None
    case Some(d) =>
      match ParseAuthIndexFromUrl(href)
      case Some(Int(idx)) => Some(UpsertAt(stored, d, idx))
      case _ => None
  }

  /** The upsert of the account at `idx`: refresh the first profile with that index, or append a new one. */
  function UpsertAt(ps: seq<Profile>, d: AccountDetails, idx: nat): (r: seq<Profile>)
    ensures HasAuthIndex(ps, idx) ==> |r| == |ps|
    ensures !HasAuthIndex(ps, idx) ==> r == ps + [NewAccount(idx, d)]
    ensures HasAuthIndex(ps, idx) ==>
              var k := FindByAuthIndex(ps, idx).value;
              r[k] == Refresh(ps[k], d) && forall j :: 0 <= j < |ps| && j != k ==> r[j] == ps[j]
    ensures AuthIndexes(r) == AuthIndexes(ps) + {idx}
  {
    match FindByAuthIndex(ps, idx)
    case Some(k) =>
      var r := ps[k := Refresh(ps[k], d)];
      SameIndexesAfterUpdate(ps, k, Refresh(ps[k], d));
      r
    case None =>
      AppendIndexes(ps, NewAccount(idx, d));
      ps + [NewAccount(idx, d)]
  }

  lemma SameIndexesAfterUpdate(ps: seq<Profile>, k: nat, p: Profile)
    requires k < |ps| && p.authIndex == ps[k].authIndex
    ensures AuthIndexes(ps[k := p]) == AuthIndexes(ps)
  {
    var r := ps[k := p];
    forall x | x in AuthIndexes(ps) ensures x in AuthIndexes(r) {
      var j :| 0 <= j < |ps| && ps[j].authIndex == x;
      assert r[j].authIndex == x;
    }
  }

  lemma AppendIndexes(ps: seq<Profile>, p: Profile)
    ensures AuthIndexes(ps + [p]) == AuthIndexes(ps) + {p.authIndex}
  {
    var r := ps + [p];
    assert r[|ps|].authIndex == p.authIndex;
    forall x | x in AuthIndexes(ps) ensures x in AuthIndexes(r) {
      var j :| 0 <= j < |ps| && ps[j].authIndex == x;
      assert r[j].authIndex == x;
    }
  }

  /** Refreshing twice with the same details is refreshing once. */
  lemma RefreshIdempotent(p: Profile, d: AccountDetails)
    ensures Refresh(Refresh(p, d), d) == Refresh(p, d)
  {
    var q := Refresh(p, d);
    assert OrElse(d.name, q.name) == q.name;
    assert OrElse(d.email, q.email) == q.email;
    assert OrElse(d.photoUrl, q.photoUrl) == q.photoUrl;
  }

  /** Running the upsert again on its own result, on the same page, changes nothing more. */
  lemma {:induction false} UpsertIdempotent(ps: seq<Profile>, d: AccountDetails, idx: nat)
    ensures UpsertAt(UpsertAt(ps, d, idx), d, idx) == UpsertAt(ps, d, idx)
  {
    var r := UpsertAt(ps, d, idx);
    match FindByAuthIndex(ps, idx)
    case Some(k) =>
      assert FindByAuthIndex(r, idx) == Some(k);
      RefreshIdempotent(ps[k], d);
      assert r[k := Refresh(r[k], d)] == r;
    case None =>
      var n := NewAccount(idx, d);
      assert r[|ps|] == n;
      assert FindByAuthIndex(r, idx) == Some(|ps|);
      assert Refresh(n, d) == n by {
        assert OrElse(d.name, d.name) == d.name;
        assert OrElse(d.email, d.email) == d.email;
        assert OrElse(d.photoUrl, d.photoUrl) == d.photoUrl;
      }
      assert r[|ps| := Refresh(n, d)] == r;
  }

  // ---------------------------------------------------------------------------
  // The site name in the modal header

  const EmDash: string := "\U{2014}"

  /**
   * The header text (`document.title || location.hostname`) cut at the first
   * `|`, else at the first em dash, else at the first ` - ` when the text
   * before it has no `.`; each cut is trimmed. Otherwise the text as it is.
   */
  function SiteName(title: string, hostname: string): (r: string)
    ensures var s := if title != "" then title else hostname;
      && (exists i :: OccursAt(s, r, i))
      && (Contains(s, "|") ==> r == Trim(BeforeFirst(s, "|")))
      && (!Contains(s, "|") && Contains(s, EmDash) ==> r == Trim(BeforeFirst(s, EmDash)))
      && (!Contains(s, "|") && !Contains(s, EmDash) && Contains(s, " - ") && !Contains(BeforeFirst(s, " - "), ".")
          ==> r == Trim(BeforeFirst(s, " - ")))
      && (!Contains(s, "|") && !Contains(s, EmDash) && (!Contains(s, " - ") || Contains(BeforeFirst(s, " - "), "."))
          ==> r == s)
      && (r != s ==> Trimmed(r))
  {
    var s := if title != "" then title else hostname;
    if Contains(s, "|") then CutAt(s, "|")
    else if Contains(s, EmDash) then CutAt(s, EmDash)
    else if Contains(s, "-") then
      var head := BeforeFirst(s, " - ");
      if Contains(s, " - ") && !Contains(head, ".") then CutAt(s, " - ") else SelfInfix(s); s
    else
      SpacedDashHasDash(s);
      SelfInfix(s); s
  }

  /** A title `<name> | <tagline>` shows `<name>`, for a name without `|` and without white space at either end. */
  lemma SiteNameOfTagline(name: string, tagline: string, title: string, hostname: string)
    requires name != "" && Trimmed(name) && '|' !in name
    requires title == name + " | " + tagline
    ensures SiteName(title, hostname) == name
  {
    var n := |name|;
    assert title[n + 1..n + 2] == "|";
    OccursContains(title, "|", n + 1);
    var head := BeforeFirst(title, "|");
    forall k | 0 <= k < n + 1 ensures !OccursAt(title, "|", k) {
      if k < n {
        assert title[k] == name[k];
      }
      assert title[k..k + 1] == [title[k]];
    }
    BeforeFirstAt(title, "|", n + 1);
    assert head == title[..n + 1] == name + " ";
    TrimUnique(head, name, 0);
  }

  /** A text with ` - ` in it has a `-` in it. */
  lemma SpacedDashHasDash(s: string)
    ensures Contains(s, " - ") ==> Contains(s, "-")
  {
    if Contains(s, " - ") {
      ContainsIff(s, " - ");
      var k :| OccursAt(s, " - ", k);
      assert s[k + 1] == " - "[1] == '-';
      assert s[k + 1..k + 2] == "-";
      OccursContains(s, "-", k + 1);
    }
  }

  lemma SelfInfix(s: string)
    ensures OccursAt(s, s, 0)
  {
    assert s[0..|s|] == s;
  }

  /** `s.split(sep)[0].trim()`: the text before the first `sep`, trimmed; an infix of `s` without `sep`. */
  function CutAt(s: string, sep: string): (r: string)
    requires |sep| > 0
    ensures r == Trim(BeforeFirst(s, sep))
    ensures exists i :: OccursAt(s, r, i)
    ensures !Contains(r, sep) && Trimmed(r)
  {
    var head := BeforeFirst(s, sep);
    var r := Trim(head);
    InfixOfPrefix(s, head, r);
    InfixContains(head, r, sep);
    r
  }

  lemma InfixOfPrefix(s: string, head: string, r: string)
    requires StartsWith(s, head) && exists i :: OccursAt(head, r, i)
    ensures exists i :: OccursAt(s, r, i)
  {
    var i :| OccursAt(head, r, i);
    assert s[i..i + |r|] == head[i..i + |r|];
    assert OccursAt(s, r, i);
  }

  /** Whatever an infix of `head` contains, `head` contains. */
  lemma InfixContains(head: string, r: string, sep: string)
    requires exists i :: OccursAt(head, r, i)
    ensures Contains(r, sep) ==> Contains(head, sep)
  {
    var i :| OccursAt(head, r, i);
    ContainsIff(r, sep);
    if Contains(r, sep) {
      var k :| OccursAt(r, sep, k);
      assert head[i + k..i + k + |sep|] == sep by {
        forall m | 0 <= m < |sep| ensures head[i + k + m] == sep[m] {
          assert r[k + m] == head[i..i + |r|][k + m];
          assert r[k..k + |sep|][m] == r[k + m];
        }
      }
      OccursContains(head, sep, i + k);
    }
  }

  // ---------------------------------------------------------------------------
  // Access checks from the page

  /** `ACCESS_CHECK_DEBOUNCE` and the delay before a non-immediate check runs. */
  const DebounceMs: int := 2000
  const DelayMs: nat := 300

  /** What `triggerAccessCheck` does with one call. */
  datatype GateAction = Ignored | Debounced | RunNow | Scheduled

  /**
   * The gate: unsupported pages are ignored; a non-immediate call for the URL
   * of the last executed check within `DebounceMs` of it is skipped; an
   * immediate call runs at once; every other call is scheduled.
   */
  function GateDecision(supported: bool, immediate: bool, currentUrl: string, lastCheckedUrl: Option<string>, lastCheckTimestamp: int, now: int)
    : (a: GateAction)
    ensures a == Ignored <==> !supported
    ensures a == Debounced <==> supported && !immediate && lastCheckedUrl == Some(currentUrl) && now - lastCheckTimestamp < DebounceMs
    ensures a == RunNow <==> supported && immediate
    ensures a == Scheduled <==> supported && !immediate && !(lastCheckedUrl == Some(currentUrl) && now - lastCheckTimestamp < DebounceMs)
  {
    if !supported then Ignored
    else if !immediate && lastCheckedUrl == Some(currentUrl) && now - lastCheckTimestamp < DebounceMs then Debounced
    else if immediate then RunNow
    else Scheduled
  }

  /** A check waiting on its timer: the URL and the `forceRefresh` flag it will send. */
  datatype PendingCheck = PendingCheck(url: string, forceRefresh: bool)

  /** The `lm.checkAccess` message a check sends. */
  datatype CheckRequest = CheckRequest(url: string, forceRefresh: bool)

  /** `loadingByIndex` after `setLoadingState`: every listed profile's index set to `isLoading`, the rest kept. */
  function LoadingAfter(loading: map<nat, bool>, ps: seq<Profile>, isLoading: bool): (r: map<nat, bool>)
    ensures r.Keys == loading.Keys + AuthIndexes(ps)
    ensures forall k :: k in AuthIndexes(ps) ==> r[k] == isLoading
    ensures forall k :: k in loading && k !in AuthIndexes(ps) ==> r[k] == loading[k]
  {
    map k | k in loading.Keys + AuthIndexes(ps) :: if k in AuthIndexes(ps) then isLoading else loading[k]
  }

  /** Marking one more profile is one more map update. */
  lemma LoadingAfterSnoc(loading: map<nat, bool>, ps: seq<Profile>, j: nat, isLoading: bool)
    requires j < |ps|
    ensures LoadingAfter(loading, ps[..j + 1], isLoading) == LoadingAfter(loading, ps[..j], isLoading)[ps[j].authIndex := isLoading]
  {
    AuthIndexesSnoc(ps, j);
  }

  lemma AuthIndexesSnoc(ps: seq<Profile>, j: nat)
    requires j < |ps|
    ensures AuthIndexes(ps[..j + 1]) == AuthIndexes(ps[..j]) + {ps[j].authIndex}
  {
    assert ps[..j + 1] == ps[..j] + [ps[j]];
    AppendIndexes(ps[..j], ps[j]);
  }

  /** The module state around access checks in the content script. */
  class AccessCheckGate {
    var lastCheckedUrl: Option<string>
    var lastCheckTimestamp: int
    var pending: Option<PendingCheck>
    var profilesCache: seq<Profile>
    var activeIndex: Option<nat>
    var latestResults: map<nat, AccessResult>
    var loadingByIndex: map<nat, bool>

    constructor()
      ensures lastCheckedUrl.None? && lastCheckTimestamp == 0 && pending.None?
      ensures profilesCache == [] && activeIndex.None? && latestResults == map[] && loadingByIndex == map[]
    {
      lastCheckedUrl := None;
      lastCheckTimestamp := 0;
      pending := None;
      profilesCache := [];
      activeIndex := None;
      latestResults := map[];
      loadingByIndex := map[];
    }

    /** `render(profiles)`: remember the list and the account the page is using. */
    method Render(profiles: seq<Profile>, href: UrlText, scanned: Option<AccountDetails>)
      modifies this
      ensures profilesCache == profiles && activeIndex == DetectActiveAuthIndex(href, scanned, profiles)
      ensures lastCheckedUrl == old(lastCheckedUrl) && lastCheckTimestamp == old(lastCheckTimestamp) && pending == old(pending)
      ensures latestResults == old(latestResults) && loadingByIndex == old(loadingByIndex)
    {
      profilesCache := profiles;
      activeIndex := DetectActiveAuthIndex(href, scanned, profiles);
    }

    /** `setLoadingState(isLoading)`: mark every cached profile's index. */
    method SetLoadingState(isLoading: bool)
      modifies this
      ensures loadingByIndex == LoadingAfter(old(loadingByIndex), profilesCache, isLoading)
      ensures lastCheckedUrl == old(lastCheckedUrl) && lastCheckTimestamp == old(lastCheckTimestamp) && pending == old(pending)
      ensures profilesCache == old(profilesCache) && activeIndex == old(activeIndex) && latestResults == old(latestResults)
    {
      var ps := profilesCache;
      var j := 0;
      assert ps[..0] == [];
      while j < |ps|
        invariant 0 <= j <= |ps|
        invariant loadingByIndex == LoadingAfter(old(loadingByIndex), ps[..j], isLoading)
        invariant lastCheckedUrl == old(lastCheckedUrl) && lastCheckTimestamp == old(lastCheckTimestamp) && pending == old(pending)
        invariant profilesCache == ps && activeIndex == old(activeIndex) && latestResults == old(latestResults)
      {
        LoadingAfterSnoc(old(loadingByIndex), ps, j, isLoading);
        loadingByIndex := loadingByIndex[ps[j].authIndex := isLoading];
        j := j + 1;
      }
      assert ps[..j] == ps;
    }

    /** `executeCheck`: record the URL and time of this check, show the spinners, and send the request. */
    method Execute(url: string, forceRefresh: bool, now: int) returns (request: CheckRequest)
      modifies this
      ensures lastCheckedUrl == Some(url) && lastCheckTimestamp == now && pending == old(pending)
      ensures loadingByIndex == LoadingAfter(old(loadingByIndex), profilesCache, true)
      ensures profilesCache == old(profilesCache) && activeIndex == old(activeIndex) && latestResults == old(latestResults)
      ensures request == CheckRequest(url, forceRefresh)
    {
      lastCheckedUrl := Some(url);
      lastCheckTimestamp := now;
      SetLoadingState(true);
      request := CheckRequest(url, forceRefresh);
    }

    /**
     * `triggerAccessCheck(immediate, forceRefresh)` on the page `page` at
     * time `now`: calls on a page `supportsAccessProbe` rejects and debounced
     * calls change nothing; any other call cancels the pending check, then
     * runs at once (immediate) or becomes the pending check.
     */
    method Trigger(page: Url, now: int, immediate: bool, forceRefresh: bool)
      returns (action: GateAction, request: Option<CheckRequest>)
      modifies this
      ensures action == GateDecision(SupportsAccessProbe(page), immediate, Href(page), old(lastCheckedUrl), old(lastCheckTimestamp), now)
      ensures action == Ignored || action == Debounced ==>
                && request.None? && lastCheckedUrl == old(lastCheckedUrl) && lastCheckTimestamp == old(lastCheckTimestamp)
                && pending == old(pending) && loadingByIndex == old(loadingByIndex)
      ensures action == RunNow ==>
                && request == Some(CheckRequest(Href(page), forceRefresh)) && pending.None?
                && lastCheckedUrl == Some(Href(page)) && lastCheckTimestamp == now
                && loadingByIndex == LoadingAfter(old(loadingByIndex), profilesCache, true)
      ensures action == Scheduled ==>
                && request.None? && pending == Some(PendingCheck(Href(page), forceRefresh))
                && lastCheckedUrl == old(lastCheckedUrl) && lastCheckTimestamp == old(lastCheckTimestamp)
                && loadingByIndex == old(loadingByIndex)
      ensures profilesCache == old(profilesCache) && activeIndex == old(activeIndex) && latestResults == old(latestResults)
    {
      var currentUrl := Href(page);
      action := GateDecision(SupportsAccessProbe(page), immediate, currentUrl, lastCheckedUrl, lastCheckTimestamp, now);
      request := None;
      if action == Ignored || action == Debounced {
        return;
      }
      pending := None;
      if immediate {
        var r := Execute(currentUrl, forceRefresh, now);
        request := Some(r);
      } else {
        pending := Some(PendingCheck(currentUrl, forceRefresh));
      }
    }

    /** The timer of the pending check fires `DelayMs` later, at time `now`: the check runs. */
    method Fire(now: int) returns (request: CheckRequest)
      requires pending.Some?
      modifies this
      ensures request == CheckRequest(old(pending).value.url, old(pending).value.forceRefresh)
      ensures pending.None? && lastCheckedUrl == Some(request.url) && lastCheckTimestamp == now
      ensures loadingByIndex == LoadingAfter(old(loadingByIndex), profilesCache, true)
      ensures profilesCache == old(profilesCache) && activeIndex == old(activeIndex) && latestResults == old(latestResults)
    {
      var p := pending.value;
      pending := None;
      request := Execute(p.url, p.forceRefresh, now);
    }

    /**
     * The reply to a check (`none` when there was no reply): the spinners
     * stop, and only an `ok` reply replaces the results.
     */
    method OnResponse(res: Option<CheckAccessResponse>)
      modifies this
      ensures loadingByIndex == LoadingAfter(old(loadingByIndex), profilesCache, false)
      ensures res.Some? && res.value.ok ==> latestResults == res.value.results
      ensures !(res.Some? && res.value.ok) ==> latestResults == old(latestResults)
      ensures lastCheckedUrl == old(lastCheckedUrl) && lastCheckTimestamp == old(lastCheckTimestamp) && pending == old(pending)
      ensures profilesCache == old(profilesCache) && activeIndex == old(activeIndex)
    {
      SetLoadingState(false);
      if res.Some? && res.value.ok {
        latestResults := res.value.results;
      }
    }
  }

  /**
   * Once a check for `url` has run at time `t`, a non-immediate call for the
   * same URL is skipped until `DebounceMs` have passed, and scheduled from
   * then on; an immediate call always runs.
   */
  lemma DebounceWindow(url: string, t: int, now: int, immediate: bool)
    ensures immediate ==> GateDecision(true, immediate, url, Some(url), t, now) == RunNow
    ensures !immediate && now < t + DebounceMs ==> GateDecision(true, immediate, url, Some(url), t, now) == Debounced
    ensures !immediate && now >= t + DebounceMs ==> GateDecision(true, immediate, url, Some(url), t, now) == Scheduled
  {
  }

  /** A different URL is never debounced, however recent the last check. */
  lemma OtherUrlNotDebounced(url: string, last: string, t: int, now: int, immediate: bool)
    requires url != last
    ensures GateDecision(true, immediate, url, Some(last), t, now) != Debounced
  {
  }
}
