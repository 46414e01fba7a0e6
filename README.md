# Links Maker — a verified model of its URL, access and blocking logic

Links Maker is a Chrome extension for people signed in to several Google
accounts at once. It rewrites a Google URL so that it opens under a chosen
account index (`authuser=<n>`, `/u/<n>/`). It probes, account by account,
whether each account can open the resource on the current page. It blocks
navigation to URLs that match user-written wildcard patterns. It keeps a
bounded in-memory log.

This project models the decision logic of those parts in Dafny and proves
what the code promises about it:

- `Url`, `UrlRewrite`, `UrlRewriteFacts`: the URL record, the
  `URLSearchParams` get/set operations the extension uses, account-targeted
  rewriting (`buildProfileSwitchUrl` and the simpler `buildUrl` of the popup
  and content script), and the parsers `parseAuthIndexFromUrl`,
  `parseGoogleFileId` and `isMeetUrl` (bg/url.js, repeated line for line in
  background.js).
- `Access`: the two classifiers of bg/access.js (body text and URL shape),
  their error outcomes, and the per-profile aggregation loops.
- `Background`: what background.js adds: the snippet-aware Meet classifier,
  the `lm.checkAccess` handler and the `lm-open-<n>` context-menu entries.
- `Blocker`: the glob compiler behind `wildcardToRegex`, the first-match
  lookup of `matchesBlocked`, and the blocker's module state as a class.
- `Logs`: the `pushLog` buffer, capped at 1000 entries with the oldest
  dropped, as a class.
- `Content`, `Popup`, `Options`: the content script's page tests, active
  account detection, profile upsert, site name and access-check debounce
  gate (a class); the popup's import and add-current; the options page's
  pattern text, row mapping, save-time merge and load defaults.
- `JsText`, `Base`, `Profiles`: the JavaScript string operations used
  (`trim`, `split`/`join`, `toLowerCase`, `String(n)`, `Number(s)`), falsy
  fallbacks (`a || b`), and the stored profile list.

A URL is either `Parsed(u)` — a string that `new URL` accepts, with host,
path, query pairs and fragment — or `Unparsable(raw)`. Every path regular
expression of the rewriter is anchored at a `/`, so paths are handled as
their `/`-separated segments, and `Join(Split(p, '/'), '/') == p` is proved
so that each rewrite is still a string-to-string function. Network results
(the fetch, the in-page script) are function parameters.

What the code does, and the model follows:

- Probing is sequential: each profile is probed after the previous one
  answered, and a later profile with the same index overwrites the earlier
  result (bg/access.js:26-32).
- The Meet rewrite glues `/u/<n>` to the path without a `/`
  (bg/url.js:30). Every caller in the model uses this rewrite as written,
  `BuildProfileSwitchUrlAsWritten`; the corrected `BuildProfileSwitchUrl`
  is the other half of the first finding.
- The blocker reports `patternsCache[i]`, the line at the position of the
  match in the list of compiled lines (bg/blocker.js:64); `LinkBlocker`
  reports that line, and the corrected lookup is the other half of the
  second finding.
- The content script's `supportsAccessProbe` uses `isDriveFile` as written
  (content.js:226-228), so a Drive `open?id=` link is not offered the
  access check.
- `parseGoogleFileId` has no rule for meetings, and its `id` query rule
  accepts any host that merely ends in `google.com`.
- The rule names are the code's (`login_or_403`, `meet_lookup_noaccess`, ...).
- The snippet classifier of background.js applies its phrase tests to every
  meet.google.com page, not only to the landing page, and there ignores
  the status.
- No file implements an access cache, a time-to-live or request
  deduplication. They are not modelled.

## Model

Each row names the member whose contract states the property. The functions
that model an operation directly (`UrlRewrite.BuildProfileSwitchUrlAsWritten`,
`RewritePathU`, `RewriteDocsPath`, `RewriteMeetPathAsWritten`,
`ParseAuthIndexFromUrl`, `ParseGoogleFileId`, `IsMeetUrl`, `BuildUrl`,
`Url.Set`, `Access.ClassifyByBody`, `ClassifyByUrlShape`, `ProbeAccess`,
`ProbeAccessInPage`, `Background.ClassifyBySnippet`, `ProbeAccessWithSnippet`,
`ContextMenuClick`, `Blocker.Matches`, `BlockedPatternAsWritten` and
`Content.SupportsAccessProbe`) have no row of their own: the lemma rows that
cite the same lines state what they do.

| member | source | states |
|---|---|---|
| Url.Get | bg/url.js:72 | `searchParams.get`: none exactly when no pair has the name; otherwise the value of the first pair with that name |
| Url.RemoveAll | bg/url.js:34-38 | the query with every pair of a name removed; nothing else is removed, and a query without the name is unchanged |
| Url.SetThenGet | bg/url.js:34-38 | after `searchParams.set(name, v)`, `get(name)` is `v` |
| Url.SetKeepsOthers | bg/url.js:34-38 | `set` changes only the pairs with that name: removing the name before or after `set` gives the same query |
| Url.GetOtherAfterSet | bg/url.js:34-38 | `set` of one name does not change `get` of any other name |
| Url.SetSet | bg/url.js:34-38 | a second `set` of the same name overrides the first, with the pair in the same position |
| Url.GetIgnoresRemoved | bg/url.js:34-38 | removing one name does not change `get` of another |
| Url.RemoveAllIdempotent | bg/url.js:34-38 | removing a name twice is removing it once |
| JsText.JoinSplit | options.js:174 | joining the pieces of `split(sep)` with `sep` gives back the text |
| JsText.SplitJoin | options.js:174 | splitting lines joined by a separator none of them contains gives back the lines |
| JsText.Trim | bg/blocker.js:14 | `trim()`: the input less white space at its start and end and nothing else: the result is a slice `s[a..a+\|r\|]` with only white space outside it, and has no white space at either end |
| JsText.TrimUnique | bg/blocker.js:14 | a slice of the text with only white space outside it and none at its own ends is the trimmed text: `trim()` has exactly one possible result |
| JsText.TrimTrimmed | options.js:198 | trimming a trimmed text changes nothing |
| JsText.AsciiLowerTwice | popup.js:103 | lower-casing twice is lower-casing once |
| JsText.DigitsValueOfDec | bg/url.js:36 | the decimal text of `n` reads back as `n` |
| JsText.DecOfDigitsValue | bg/url.js:73 | a digit string without a leading zero is the decimal text of its value |
| JsText.ToNumber | bg/url.js:73 | `Number(text)`: a digit string gives its value, the empty string 0, any other text NaN |
| JsText.NumberOfDec | bg/url.js:36 | `Number(String(n)) == n` |
| JsText.IndexOf | content.js:355-363 | the first occurrence of the separator, or none when it does not occur |
| JsText.BeforeFirst | content.js:356-363 | `split(sep)[0]`: the text up to the first occurrence of the separator, which does not occur before that point; the whole text when the separator does not occur |
| Base.OrElse | content.js:291-293 | `a \|\| b` on optional strings: `a` when truthy, else `b` |
| Base.FirstTruthy | popup.js:103 | `a \|\| b \|\| fallback`: the first truthy one |
| Profiles.ProfilesOrDefault | bg/profiles.js:8-17 | the stored list when it is a non-empty array, else the two default profiles; never empty |
| Profiles.FindByAuthIndex | options.js:231 | `find` by `authIndex`: the first profile with that index, none exactly when no profile has it |
| UrlRewriteFacts.IsGoogleLikeHostIff | bg/url.js:4-11 | a host is Google-like exactly when it is `google.com` or ends in `.google.com` |
| UrlRewriteFacts.RewritePathUSettles | bg/url.js:40-46 | `replacePathUIndex` changes only the first `/u/<digits>` (followed by `/` or the end) to name the index, keeps every other segment, and leaves a path without one unchanged |
| UrlRewriteFacts.RewritePathUFixed | bg/url.js:40-46 | a path whose `/u/<digits>` already names the index is unchanged |
| UrlRewriteFacts.RewritePathUIdempotent | bg/url.js:40-46 | renumbering twice is renumbering once |
| UrlRewriteFacts.RewriteDocsPathShape | bg/url.js:13-22 | a Docs path with `/<kind>/u/<n>/d/`, or with no `/<kind>/d/`, is unchanged; otherwise `u`, the index are inserted after the kind of the first `/<kind>/d/` and nothing else changes |
| UrlRewriteFacts.RewriteDocsPathSettles | bg/url.js:13-22 | the Docs insertion keeps a path whose `/u/<digits>` names the index in that state |
| UrlRewriteFacts.RewriteDocsPathIdempotent | bg/url.js:13-22 | inserting twice is inserting once |
| UrlRewriteFacts.DocsExamplePath | bg/url.js:13-22 | `/document/d/ABC123/edit` with index 2 becomes `/document/u/2/d/ABC123/edit` |
| UrlRewriteFacts.BuildDocsExample | bg/url.js:48-67 | that Docs URL becomes `/document/u/2/d/ABC123/edit?authuser=2` |
| UrlRewriteFacts.RewriteMeetPathSettles | bg/url.js:24-32 | the corrected Meet rewrite keeps a settled path settled and is idempotent |
| UrlRewriteFacts.RewriteMeetPathExample | bg/url.js:24-32 | the corrected Meet rewrite turns `/abc-defg-hij` into `/u/1/abc-defg-hij` |
| UrlRewriteFacts.MeetFirstStep | bg/url.js:24-32 | as written, `/abc-defg-hij` becomes `/u/1abc-defg-hij` |
| UrlRewriteFacts.MeetSecondStep | bg/url.js:24-32 | as written, `/u/1abc-defg-hij` becomes `/u/1u/1abc-defg-hij` |
| UrlRewriteFacts.BuildNoneIff | bg/url.js:48-67 | `buildProfileSwitchUrl` (as written and corrected) returns null exactly when the URL does not parse |
| UrlRewriteFacts.BuildSetsAuthIndex | bg/url.js:48-67 | for the code as written and for the corrected rewrite: the result's `authuser` is the decimal index, `parseAuthIndexFromUrl` reads the index back, the other query pairs, the scheme, host and fragment are kept |
| UrlRewriteFacts.BuildOffGoogle | bg/url.js:53-60 | as written and corrected: off the Google hosts the path is untouched |
| UrlRewriteFacts.BuildIdempotent | bg/url.js:48-67 | the corrected rewrite: rewriting the result again for the same index gives it back (the code as written does not, on Meet) |
| UrlRewriteFacts.BuildAsWrittenAgreesOffMeet | bg/url.js:48-67 | the code as written and the corrected rewrite agree on every URL not on meet.google.com |
| UrlRewriteFacts.BuildAsWrittenIdempotentOffMeet | bg/url.js:48-67 | the code as written is idempotent off meet.google.com |
| UrlRewriteFacts.BuildAsWrittenMeetCounterexample | bg/url.js:24-32 | as written, `https://meet.google.com/abc-defg-hij` becomes `/u/1abc-defg-hij?authuser=1` and then `/u/1u/1abc-defg-hij?authuser=1` |
| UrlRewriteFacts.MeetCounterexampleNotRecognised | bg/url.js:101-111 | the glued result is no longer recognised as a meeting |
| UrlRewriteFacts.RewritePathUKeepsFileIds | bg/url.js:40-46 | renumbering `/u/<n>` keeps the Docs and Drive ids of a path |
| UrlRewriteFacts.RewriteDocsPathKeepsDocsFileId | bg/url.js:13-22 | the Docs insertion keeps the Docs id |
| UrlRewriteFacts.SameFileIdInputs | bg/url.js:80-99 | `parseGoogleFileId` depends only on the host, the `id` query and the path's Docs and Drive ids |
| UrlRewriteFacts.BuildKeepsFileId | bg/url.js:48-67 | as written and corrected: rewriting a URL for any account keeps its file id, the Meet glue included |
| UrlRewriteFacts.ParseAuthIndexCases | bg/url.js:69-78 | `authuser` in the query wins; without it the path gives an index exactly when it has `/u/<digit>`; an unparsable URL gives null |
| UrlRewriteFacts.ParseAuthIndexFromPath | bg/url.js:69-78 | without `authuser`, a path starting `/u/<n>/` gives `n` |
| UrlRewriteFacts.DocsFileIdIgnoresU | bg/url.js:85-88 | the Docs id is the same with or without `/u/<n>/` between the kind and `d` |
| UrlRewriteFacts.QueryIdOnLookalikeHost | bg/url.js:93-96 | the `id` query is read on `notgoogle.com`, a host that merely ends in `google.com` |
| UrlRewriteFacts.BuildUrlFacts | popup.js:20-30 | `buildUrl` returns an unparsable input unchanged, sets the index that reads back, keeps the file id and is idempotent |
| UrlRewriteFacts.BuildUrlReadsBack | content.js:238-248 | `buildUrl`'s result reads back the index |
| UrlRewriteFacts.BuildUrlKeepsFileId | content.js:238-248 | `buildUrl` keeps the file id |
| UrlRewriteFacts.BuildUrlSettles | content.js:238-248 | `buildUrl` twice is `buildUrl` once |
| UrlRewriteFacts.BuildUrlAgreesOnPlainGoogleHosts | content.js:238-248 | on Google hosts other than Docs and Meet, `buildUrl` and `buildProfileSwitchUrl` agree |
| UrlRewriteFacts.IsMeetUrlCaseInsensitive | background.js:117-127 | the meeting code is matched ignoring case |
| UrlRewriteFacts.IsMeetUrlNeedsBoundary | background.js:117-127 | a code followed by a word character is not a meeting |
| UrlRewriteFacts.IsMeetUrlNotBehindPrefix | background.js:117-127 | a `/u/<n>/`-prefixed meeting path is not recognised |
| UrlRewriteFacts.IsMeetUrlOnlyOnMeetHost | background.js:117-127 | only a parsed meet.google.com URL is a meeting |
| Access.StatusOnly | bg/access.js:92 | 200/204 give access, 401/403 no access, every other status unknown |
| Access.ClassifyByBodyIff | bg/access.js:14-17 | no access exactly when the final URL is a login URL, the lower-cased body has a denial phrase, or the status is 401/403; access exactly when none holds and the status is 200/204 |
| Access.ClassifyByBodyIgnoresCase | bg/access.js:14 | the body is classified the same whatever its case |
| Access.RequestAccessDenies | bg/access.js:16 | a body with `request`, white space, `access` is no access |
| Access.ProbeAccessOutcomes | bg/access.js:5-24 | `bad_url` exactly for an unparsable URL, `fetch_error` exactly when the fetch of the rewritten URL fails; otherwise the status and final URL are echoed and the verdict is the body classifier's on them |
| Access.ClassifyByUrlShapeIff | bg/access.js:63-100 | no access exactly for 401/403, a login redirect or a Meet `/lookup/` path; access exactly for 200/204 without a login redirect, lookup or landing page |
| Access.LandingIsNotCodeOrV2 | bg/access.js:74-77 | `/landing` is neither a meeting code nor a `/v2/` path |
| Access.FallbackNeverDenies | bg/access.js:91-94 | the `fallback_status` rule never answers no access |
| Access.UnparsableFallsBack | bg/access.js:97-100 | an unparsable final URL is classified by status only, rule `catch_fallback` |
| Access.MeetLookupIsNoAccess | bg/access.js:82-84 | a Meet `/lookup/` path is no access whatever the status |
| Access.MeetCodeUnderAccountIsAccess | bg/access.js:71-87 | a meeting code behind `/u/<n>/` with status 200/204 is access |
| Access.ProbeAccessInPageOutcomes | bg/access.js:34-107 | `bad_url`, `exec_error` and `fetch_error` exactly in their cases; otherwise the status and final URL are echoed and the verdict is the URL-shape classifier's on them and the rewritten URL |
| Access.ClassifiersAgreeOffMeet | bg/access.js:79-94 | off Meet, without a login URL or denial text, both classifiers agree |
| Access.CollectResults | bg/access.js:26-32 | the result's keys are the profiles' indexes, and each holds the probe of the last profile with that index |
| Access.CheckAccessForProfiles | bg/access.js:26-32 | the same for `probeAccess`, probing profile `j` as attempt `j` |
| Access.CheckAccessForProfilesInPage | bg/access.js:109-115 | the same for `probeAccessInPage` |
| Access.LastProfileExists | bg/access.js:28-30 | every index in the list has a last profile carrying it |
| Background.Snippet | background.js:289 | the lower-cased text, cut to at most 4000 characters |
| Background.SnippetIgnoresTail | background.js:289 | text after the first 4000 characters does not matter |
| Background.SnippetIsLowerCase | background.js:289 | the snippet is already lower case |
| Background.ClassifyBySnippetNoAccessIff | background.js:300-320 | no access exactly for 401/403 or, when the final URL parses, a login redirect or a Meet page that refuses entry without offering to join |
| Background.MeetVerdictIgnoresStatus | background.js:309-315 | on Meet the verdict does not depend on the status, and is access exactly when the snippet offers to join |
| Background.SnippetAgreesWithUrlShapeOffMeet | background.js:315-320 | off Meet the snippet classifier agrees with the URL-shape one |
| Background.CheckAccessWithSnippets | background.js:330-336 | keys are the profiles' indexes; each holds the snippet probe of the last profile with it |
| Background.HandleCheckAccess | background.js:338-358 | unsupported URL or no sender tab: `{ok:true, results:{}, supported:false}` without probing; a failed read: `{ok:false}`; otherwise every profile probed |
| Background.MenuItemIdRoundTrip | background.js:204-216 | the id `lm-open-<n>` parses back to `n` |
| Background.ParseMenuItemIdExact | background.js:214-216 | an id that parses (without a leading zero) is `lm-open-<n>` |
| Background.FirstUrl | background.js:218-219 | `info.linkUrl \|\| tab.url`: a non-empty URL, none when both are missing or empty |
| Background.ContextMenuClickOpens | background.js:211-226 | a tab opens exactly for `lm-open-<digits>` and a URL that parses; its URL is the as-written rewrite of the clicked URL for that account, reads back the account, keeps the host and file id, and it opens right after the current tab (no position when the tab has none) |
| Background.SwitchOpens | background.js:221-222 | with the rewrite as written, the switch succeeds exactly on a parsed URL; the result reads back the account and keeps the scheme, host, fragment, the other query pairs and the file id |
| Blocker.Compile | bg/blocker.js:8-25 | one glob item per character: `*` a run, `?` one character, anything else itself |
| Blocker.WildcardToRegex | bg/blocker.js:12-32 | null exactly for a blank line or a `#` comment; otherwise the trimmed line compiled, wrapped in `*` on both sides when it has neither `://` nor a wildcard |
| Blocker.LiteralsMatch | bg/blocker.js:25-28 | a pattern without wildcards matches exactly the same text, ignoring case |
| Blocker.AnyRunMatches | bg/blocker.js:25 | a leading `*` matches exactly when the rest matches some suffix |
| Blocker.AnyCharMatchesOne | bg/blocker.js:25 | `?` matches exactly one character that is not a line terminator |
| Blocker.StarJoins | bg/blocker.js:25 | `a*b` matches `x y z` when `a` matches `x` and `b` matches `z` |
| Blocker.SubstringPattern | bg/blocker.js:18-22 | a pattern with no `://` and no wildcard matches exactly the URLs that contain it, ignoring case |
| Blocker.ExactPattern | bg/blocker.js:18-28 | a pattern with `://` and no wildcard matches only the same URL, ignoring case |
| Blocker.SomeIndexesSound | bg/blocker.js:43-45 | the kept lines all compiled, in list order |
| Blocker.SomeIndexesComplete | bg/blocker.js:43-45 | every line that compiled is kept |
| Blocker.FirstMatching | bg/blocker.js:61-66 | the first matching pattern: it matches and none before it does; none when no pattern matches |
| Blocker.FindFirstMatch | bg/blocker.js:61-67 | the loop returns the first match |
| Blocker.BlockedPatternIsFirstMatch | bg/blocker.js:43-65 | the reported line is the first line that compiles and matches |
| Blocker.AsWrittenAgreesWithoutSkippedLines | bg/blocker.js:43-64 | with no blank or comment line, the code as written reports the right line |
| Blocker.BlockedPatternAsWrittenMisreports | bg/blocker.js:43-64 | with lines `#c` and `*x*`, the code as written reports `#c` for the URL `x` |
| Blocker.BlockedIffSomeLineMatches | bg/blocker.js:43-65 | the code as written blocks exactly when some line compiles and matches: only the reported line is wrong, never the decision |
| Blocker.ReportedLine | bg/blocker.js:61-65 | the code reports `patternsCache[i]` for match `i` of the compiled list: line `i` of the pattern list, at or before line `CompiledIndexes[i]` that the match came from and that the corrected lookup reports |
| Blocker.BlockedPageQueryRoundTrip | bg/blocker.js:73-79 | the blocked page's query reads back the target, and the pattern when it is non-empty |
| Blocker.LinkBlocker.constructor | bg/blocker.js:4-6 | socials on, blocking off, no patterns |
| Blocker.LinkBlocker.LoadConfig | bg/blocker.js:34-53 | the flags default to socials on and blocking off, a missing pattern list is empty; a failed read changes nothing |
| Blocker.LinkBlocker.MatchesBlocked | bg/blocker.js:55-71 | null when blocking is off, the URL is empty or `lm_override=1`; otherwise the line the code as written reports (`patternsCache[i]`), present exactly when some line compiles and matches |
| Blocker.LinkBlocker.CheckAndBlock | bg/blocker.js:81-100 | a redirect exactly when blocking is on, the URL is non-empty, not an extension page, not overridden and some line matches; its query names the URL and the line as written reports it; true exactly when that redirect succeeds |
| Logs.MakeEntry | bg/logs.js:7 | the entry keeps time, level and message; its data is null exactly for null or undefined |
| Logs.Push | bg/logs.js:3-9 | at most 1000 entries, the new entry last; below capacity one more entry and the rest unchanged; at capacity the oldest dropped |
| Logs.PushAllKeepsNewest | bg/logs.js:6-9 | after any number of pushes the buffer is the newest 1000 entries seen, in order |
| Logs.LogBuffer.PushLog | bg/logs.js:6-11 | the buffer is updated as `Push` says, and the copy written to storage is the whole buffer |
| Content.Search | content.js:226 | `location.search`: empty for an empty query, else starting with `?` |
| Content.SupportsAccessProbeHosts | content.js:225-228 | the access check is offered on every Meet page, Docs documents, Drive `/file/` pages, and on no other host; on Drive only for `/file/` or a search holding `open?id=` |
| Content.DriveOpenLinkMissed | content.js:226 | as written, a Drive `open?id=` link is not a Drive file, so the access check is not offered there; the corrected test accepts it |
| Content.DriveFileAsWrittenIsIntended | content.js:226 | every page the code as written accepts is accepted by the corrected test |
| Content.FindByEmail | content.js:306-308 | the first profile whose email equals the scanned one ignoring case |
| Content.DetectActiveAuthIndex | content.js:302-311 | the URL's index when it reads as a number; else, for a truthy scanned email, the index of the first profile whose email equals it ignoring case; none exactly when neither exists |
| Content.Refresh | content.js:290-294 | id and index kept; name, email, photo replaced only by truthy values; an empty label becomes the new name when truthy, else the new email when truthy, else stays empty; a non-empty label is kept |
| Content.NewAccount | content.js:296 | id `acc-<idx>`, the index, and the scanned details; the label is the name when truthy, else the email when truthy, else `Account <idx>` |
| Content.UpsertAt | content.js:287-297 | the profile with the index refreshed and the others unchanged, or a new profile appended |
| Content.Upsert | content.js:282-299 | nothing exactly without details or a numeric URL index; otherwise the list written back is `UpsertAt` of the stored list at that index, whose index set gains it |
| Content.RefreshIdempotent | content.js:290-294 | refreshing twice with the same details is refreshing once |
| Content.UpsertIdempotent | content.js:287-297 | a second upsert of the same account changes nothing |
| Content.SiteName | content.js:354-365 | the text before the first `\|`, trimmed; else before the first em dash, trimmed; else before the first ` - ` when that text has no `.`, trimmed; else the title (or host name) unchanged; the result occurs in it |
| Content.SiteNameOfTagline | content.js:354-365 | a title `<name> \| <tagline>` shows `<name>` |
| Content.CutAt | content.js:356-363 | the text before the first separator, trimmed: it occurs in the title, holds no separator and has no white space at either end |
| Content.GateDecision | content.js:573-640 | ignored on unsupported pages; a non-immediate call for the same URL within 2000 ms is skipped; immediate calls run; others are scheduled |
| Content.DebounceWindow | content.js:580-586 | for the same URL, the 2000 ms window decides between skipped and scheduled |
| Content.OtherUrlNotDebounced | content.js:580 | a different URL is never skipped |
| Content.LoadingAfter | content.js:564-571 | every cached profile's index gets the flag and the other entries are kept |
| Content.AccessCheckGate.constructor | content.js:403-411 | no last check, timestamp 0, nothing pending or loading |
| Content.AccessCheckGate.Render | content.js:552-555 | remembers the profiles and the detected active index, nothing else |
| Content.AccessCheckGate.SetLoadingState | content.js:564-571 | `loadingByIndex` updated as `LoadingAfter` says, nothing else |
| Content.AccessCheckGate.Execute | content.js:595-613 | records the URL and time, sets loading, sends the request |
| Content.AccessCheckGate.Trigger | content.js:573-640 | follows `GateDecision` with `supportsAccessProbe` of the page (Drive test as written); the last URL and time change only when a check runs; a scheduled check replaces the pending one |
| Content.AccessCheckGate.Fire | content.js:595-638 | the pending check runs 300 ms later |
| Content.AccessCheckGate.OnResponse | content.js:614-632 | clears loading; keeps the old results unless the response is `ok` |
| Popup.ImportedProfile | popup.js:103 | index `i`, label `email \|\| label \|\| "Account i"`, id the lower-cased `email \|\| label \|\| "acc-i"` |
| Popup.ImportProfiles | popup.js:91-103 | rejected exactly for no reply, not `ok`, or no accounts; else account `i` becomes profile `i` |
| Popup.ImportIndexes | popup.js:103 | an import numbers the accounts 0 to n-1, each found at its own position, ids lower case |
| Popup.AddCurrent | popup.js:125-138 | rejected without a numeric index; the list unchanged when the index exists; else the new account appended |
| Popup.AddCurrentSettles | popup.js:134-139 | afterwards the index is present, nothing else added, and a second click writes the same list |
| Options.SplitLines | options.js:197 | `split(/\r?\n/)`: one line per piece of the split at `\n`, each the piece less a `\r` that ends it unless it is the last; no line holds a line feed |
| Options.SplitLinesJoin | options.js:197 | text without `\r` is its lines joined by `\n` |
| Options.DropCr | options.js:197 | a `\r` is dropped only before a line feed |
| Options.TrimAll | options.js:198 | every line trimmed, in place |
| Options.NonEmpty | options.js:199 | only non-empty lines, each of the input, every non-empty line of the input kept; a list without empty lines is kept whole |
| Options.NonEmptyAppend | options.js:199 | the filter keeps order: filtering a concatenation is concatenating the filtered parts |
| Options.ParsePatterns | options.js:196-199 | every pattern is non-empty, trimmed and the trim of some line; the trim of every line that is not blank is a pattern |
| Options.ParsePatternsLineByLine | options.js:196-199 | the first line, a `\n` and the rest give the first line's pattern followed by the rest's, a `\r` before the `\n` included |
| Options.ParseJoinLines | options.js:196-199 | saved patterns shown one per line parse back to themselves |
| Options.ParsePatternsSettles | options.js:237-240 | parsing the shown text of parsed patterns gives the same patterns |
| Options.DashSpaces | options.js:144 | no white space is left, and text without white space is unchanged |
| Options.DashSpacesRun | options.js:144 | a whole run of white space, however long, becomes one `-` |
| Options.DashSpacesAppend | options.js:144 | the replacement works run by run: text cut after a character that is not white space is replaced piece by piece |
| Options.DashSpacesJoin | options.js:144 | two texts with a white-space run between them become the two joined by one `-` |
| Options.Slug | options.js:144 | the id has no white space and no upper-case letter |
| Options.SlugOfWord | options.js:144 | a word without white space only loses its capitals |
| Options.SlugWords | options.js:144 | two texts with a white-space run between them give their ids joined by one `-` |
| Options.SlugOfSlug | options.js:144 | making an id of an id changes nothing |
| Options.RowIndex | options.js:141-149 | a digit string gives its value, anything else 0 (see Left out) |
| Options.RowProfile | options.js:140-150 | trimmed label, name and email from the row, the row index, and the id from label, else name |
| Options.MapRows | options.js:133-151 | row `k` becomes `RowProfile(row, k)` |
| Options.KeepNamed | options.js:152 | only profiles with a label or name, in order |
| Options.KeepNamedKeeps | options.js:152 | every named profile is kept, and an all-named list is kept whole |
| Options.KeepNamedAppend | options.js:152 | the filter keeps order: filtering a concatenation is concatenating the filtered parts |
| Options.RowsToProfiles | options.js:130-153 | every profile has a label or name, at most one per row |
| Options.RowsToProfilesKeeps | options.js:152 | every row with a label or name yields its profile |
| Options.MergeOne | options.js:231-232 | the edited fields win; the photo of the first stored profile with the index survives |
| Options.MergeOnSave | options.js:230-233 | exactly the edited profiles, in edited order, each merged |
| Options.MergeIndexes | options.js:230-233 | the saved indexes are the edited ones |
| Options.MergeOnSaveSettles | options.js:228-233 | saving the same rows again over the saved list changes nothing |
| Options.LoadOptions | options.js:160-176 | the stored profiles or the defaults; stored display flags shown as `Boolean()` of them, both on when `display` is absent; stored feature flags shown as stored, socials on and blocking off when missing; stored patterns shown one per line, none giving empty text |
| Options.LoadShowsSavedPatterns | options.js:173-174 | saved patterns load into the box and parse back to themselves |

## Left out

- Network and browser APIs (`fetch`, `chrome.scripting.executeScript`, tabs, windows, context menus, badge, storage) are outside the model. Their results are parameters: the fetch and the in-page script are functions from the URL to an outcome, and a storage read is a value.
- WHATWG URL parsing, percent-encoding and the form-urlencoded serializer are outside the model. `Href` is a simplified serializer and query pairs are stored unencoded.
- JavaScript regular expressions are written as predicates over ASCII. The `i` flag and `toLowerCase` fold only ASCII letters.
- JsText.ToNumber: `Number()` is exact only for decimal digit strings and the empty string; every other text is treated as NaN, although JavaScript also accepts forms such as `" 1"`, `"1e2"` and `"0x1"`.
- JsText.NumberOfDec: JavaScript numbers are doubles, so `Number(String(n)) == n` holds in the program only up to 2^53, and from 1e21 on `String(n)` uses exponent form; the model's integers are unbounded and `Dec` writes every digit.
- Background.Snippet: `slice(0, 4000)` counts UTF-16 code units; the model's strings are sequences of characters, so text outside the Basic Multilingual Plane is cut at a different point.
- An access cache, time-to-live expiry, capacity eviction and request deduplication are implemented by no file of the extension, so nothing of them is modelled.
- DOM and UI construction are presentation only and not modelled: the modal, the social bar, the option rows, the popup buttons, the blocked page and the log page.
- Timers and event wiring are not modelled: `setTimeout`/`setInterval`, the options page's 500 ms pattern autosave, SPA history patching, and the listener registration of bg/blocker.js:139-173. The debounce gate takes the current time as an input.
- Logs.LogBuffer.PushLog: the ISO timestamp is an input, and writing to `chrome.storage.local` and `readLogs` are storage I/O; the model returns the value that would be written.
- Content.DetectActiveAuthIndex: the account scanned from the page's DOM is a parameter.
- `canonicalHref` in bg/access.js is only logged, and the logging calls themselves (`pushLog` at decision points) are not modelled.
- yt_adapter.js is not wired into the extension, and the content/utils.js logger only sends messages; neither is part of this model.
- Options.LoadOptions: stored flags are booleans or missing, and a stored value that is not an array is modelled as missing; `Boolean()` of other JavaScript values is not modelled.
- Content.UpsertAt: the stored list is a value, so the upsert's in-place edit of the found profile is modelled as building the edited list; aliasing of that object is not captured.
- Options.RowIndex: the index box is a number input whose value may be `-1`, `2.5` or `1e1`, which `Number(idxEl.value || 0)` stores as -1, 2.5 and 10; the model's account index is a natural number (`authIndex: nat`), it reads only decimal digit strings, and every other text gives 0.
- `escapeRegex` is not a separate member: `Blocker.Compile` turns every non-wildcard character into a literal item, which is what escaping achieves.

## Findings

| source | as written | input that shows it | evidently intended | confidence | as-written member | corrected member |
|---|---|---|---|---|---|---|
| bg/url.js:30 | the Meet path is joined to `/u/<n>` with no `/` between them | `https://meet.google.com/abc-defg-hij`, index 1: first `/u/1abc-defg-hij`, then `/u/1u/1abc-defg-hij` | insert `/u/<n>/` as a new first segment, so that a second rewrite changes nothing | high, not executed | UrlRewriteFacts.BuildAsWrittenMeetCounterexample | UrlRewriteFacts.BuildIdempotent |
| bg/blocker.js:43-64 | the index of the match in the filtered list is used to read the unfiltered pattern list | lines `#c` and `*x*`, URL `x`: reports `#c` | report the line that matched (`*x*`) | high, not executed | Blocker.BlockedPatternAsWrittenMisreports | Blocker.BlockedPatternIsFirstMatch |
| content.js:226 | `open?id=` is searched for in `location.search`, which for an `/open?id=` link is only `?id=…` | `https://drive.google.com/open?id=ABC` is not treated as a Drive file | also accept the Drive `/open?id=` page | high, not executed | Content.DriveOpenLinkMissed | Content.DriveFileAsWrittenIsIntended |
