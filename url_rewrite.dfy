/**
 * Account-targeted URL rewriting and the URL parsers (bg/url.js, repeated in
 * background.js; the simpler `buildUrl` of content.js and popup.js).
 *
 * Every path regular expression of these functions is anchored at a `/`, so
 * each is modelled on the `/`-separated segments of the path: `Split(path, '/')`,
 * whose first element is the text before the first `/` (empty for an
 * absolute path). `Join` puts a rewritten segment list back together, and
 * `Join(Split(p)) == p`.
 */
module UrlRewrite {

  import opened Base
  import opened JsText
  import opened Url

  // ---------------------------------------------------------------------------
  // Segments and first-match search

  function Segments(path: string): seq<string> {
    Split(path, '/')
  }

  /** A property of the segment list at an index: one regular-expression match starting at the `/` before that segment. */
  type SegmentTest = (seq<string>, int) -> bool

  /** The leftmost index at or after `j` where `P` holds: where `String.prototype.match` or `replace` finds its first match. */
  function FirstFrom(segs: seq<string>, P: SegmentTest, j: nat): (r: Option<nat>)
    ensures r.Some? ==> j <= r.value < |segs| && P(segs, r.value)
    ensures r.Some? ==> forall k :: j <= k < r.value ==> !P(segs, k)
    ensures r.None? ==> forall k :: j <= k < |segs| ==> !P(segs, k)
    decreases |segs| - j
  {
    if j >= |segs| then None
    else if P(segs, j) then Some(j)
    else FirstFrom(segs, P, j + 1)
  }

  function First(segs: seq<string>, P: SegmentTest): Option<nat> {
    FirstFrom(segs, P, 0)
  }

  /** The leftmost match is `m`. */
  lemma FirstIs(segs: seq<string>, P: SegmentTest, m: nat)
    requires m < |segs| && P(segs, m)
    requires forall k :: 0 <= k < m ==> !P(segs, k)
    ensures First(segs, P) == Some(m)
  {
  }

  /** No segment has a `/` in it, so the list is the split of its join. */
  predicate SlashFree(segs: seq<string>) {
    forall k :: 0 <= k < |segs| ==> '/' !in segs[k]
  }

  lemma SegmentsOfJoin(segs: seq<string>)
    requires |segs| >= 1 && SlashFree(segs)
    ensures Segments(Join(segs, '/')) == segs
  {
    SplitJoin(segs, '/');
  }

  lemma DigitsSlashFree(s: string)
    requires IsDigits(s)
    ensures '/' !in s
  {
  }

  // ---------------------------------------------------------------------------
  // The path patterns

  /** `/u/<digits>` followed by `/` or the end: the pattern `(\/)u\/(\d+)(\/|$)`. */
  predicate UDigitsAt(segs: seq<string>, j: int) {
    1 <= j && j + 1 < |segs| && segs[j] == "u" && IsDigits(segs[j + 1])
  }

  /** `/u/` followed by at least one digit: the pattern `\/u\/(\d+)`, which captures the leading digits of the next segment. */
  predicate UNumberAt(segs: seq<string>, j: int) {
    1 <= j && j + 1 < |segs| && segs[j] == "u" && |segs[j + 1]| > 0 && IsDigit(segs[j + 1][0])
  }

  predicate IsDocKind(s: string) {
    s == "document" || s == "spreadsheets" || s == "presentation"
  }

  /** `/<kind>/d/` */
  predicate DocsDAt(segs: seq<string>, j: int) {
    1 <= j && j + 2 < |segs| && IsDocKind(segs[j]) && segs[j + 1] == "d"
  }

  /** `/<kind>/u/<digits>/d/` */
  predicate DocsUDAt(segs: seq<string>, j: int) {
    1 <= j && j + 4 < |segs| && IsDocKind(segs[j]) && segs[j + 1] == "u" && IsDigits(segs[j + 2]) && segs[j + 3] == "d"
  }

  /** `/<kind>/(u/<digits>/)?d/<id>` with a non-empty id segment. */
  predicate DocsIdAt(segs: seq<string>, j: int) {
    (DocsDAt(segs, j) && segs[j + 2] != "") || (DocsUDAt(segs, j) && segs[j + 4] != "")
  }

  /** The id segment of a `DocsIdAt` match. */
  function DocsIdSegment(segs: seq<string>, j: int): string
    requires DocsIdAt(segs, j)
  {
    if segs[j + 1] == "d" then segs[j + 2] else segs[j + 4]
  }

  /** `/file/d/<id>` with a non-empty id segment. */
  predicate FileIdAt(segs: seq<string>, j: int) {
    1 <= j && j + 2 < |segs| && segs[j] == "file" && segs[j + 1] == "d" && segs[j + 2] != ""
  }

  /** `^\/u\/\d+\/`: the path starts with a `/u/<digits>/` segment. */
  predicate LeadingUIndex(p: string) {
    var segs := Segments(p);
    |segs| >= 4 && segs[0] == "" && UDigitsAt(segs, 1)
  }

  // ---------------------------------------------------------------------------
  // Path rewrites

  /** The path replacement of `replacePathUIndex`: the first `/u/<digits>` (followed by `/` or the end) names `i`. */
  function RewritePathU(path: string, i: nat): string {
    var segs := Segments(path);
    match First(segs, UDigitsAt)
    case None => path
    case Some(m) => Join(segs[m + 1 := Dec(i)], '/')
  }

  /** The path replacement of `ensureDocsUIndex`: `/u/<i>/` inserted between the first `/<kind>/` and its `d/`. */
  function RewriteDocsPath(path: string, i: nat): string {
    var segs := Segments(path);
    if First(segs, DocsDAt).None? && First(segs, DocsUDAt).None? then path
    else if First(segs, DocsUDAt).Some? then path
    else
      var d := First(segs, DocsDAt).value;
      Join(segs[..d + 1] + ["u", Dec(i)] + segs[d + 1..], '/')
  }

  /** `p.replace(/^\//, '')` */
  function StripLeadingSlash(p: string): (r: string)
    ensures StartsWith(p, "/") ==> [p[0]] + r == p
    ensures !StartsWith(p, "/") ==> r == p
  {
    if StartsWith(p, "/") then p[1..] else p
  }

  /** The path `ensureMeetUIndex` works on: `pathname || '/'`. */
  function MeetPathOrRoot(path: string): string {
    if path == "" then "/" else path
  }

  /**
   * The path replacement of `ensureMeetUIndex` as the source writes it: an
   * absolute path loses its leading `/` and is glued to `/u/<i>` without a
   * separator.
   */
  function RewriteMeetPathAsWritten(path: string, i: nat): string {
    var p := MeetPathOrRoot(path);
    if LeadingUIndex(p) then path
    else if p == "/" then path
    else "/u/" + Dec(i) + (if StartsWith(p, "/") then "" else "/") + StripLeadingSlash(p)
  }

  /** The evidently intended replacement: `/u/<i>/` becomes the first segment. */
  function RewriteMeetPath(path: string, i: nat): string {
    var p := MeetPathOrRoot(path);
    if LeadingUIndex(p) then path
    else if p == "/" then path
    else "/u/" + Dec(i) + "/" + StripLeadingSlash(p)
  }

  // ---------------------------------------------------------------------------
  // The URL-object steps of buildProfileSwitchUrl

  /** `/(^|\.)<domain>$/` on a host name. */
  predicate DomainMatch(host: string, domain: string) {
    host == domain || EndsWith(host, "." + domain)
  }

  predicate IsGoogleLikeHost(host: string) {
    DomainMatch(host, "google.com") || DomainMatch(host, "cloud.google.com")
  }

  function ReplaceAuthUserParam(u: Url, i: nat): Url {
    u.(query := Set(u.query, "authuser", Dec(i)))
  }

  function ReplacePathUIndex(u: Url, i: nat): Url {
    u.(path := RewritePathU(u.path, i))
  }

  function EnsureDocsUIndex(u: Url, i: nat): Url {
    if u.host != "docs.google.com" then u else u.(path := RewriteDocsPath(u.path, i))
  }

  function EnsureMeetUIndexAsWritten(u: Url, i: nat): Url {
    if u.host != "meet.google.com" then u else u.(path := RewriteMeetPathAsWritten(u.path, i))
  }

  function EnsureMeetUIndex(u: Url, i: nat): Url {
    if u.host != "meet.google.com" then u else u.(path := RewriteMeetPath(u.path, i))
  }

  /** The steps shared by both versions of the Google branch: query, `/u/<n>` renumbering, Docs insertion. */
  function RewriteGoogle(u: Url, i: nat): Url {
    EnsureDocsUIndex(ReplacePathUIndex(ReplaceAuthUserParam(u, i), i), i)
  }

  /** `buildProfileSwitchUrl` as the source writes it, the version every caller in the model uses; `None` is the `null` returned when parsing throws. */
  function BuildProfileSwitchUrlAsWritten(t: UrlText, i: nat): Option<Url> {
    match t
    case Unparsable(_) => None
    case Parsed(u) =>
      if IsGoogleLikeHost(u.host) then Some(EnsureMeetUIndexAsWritten(RewriteGoogle(u, i), i))
      else Some(ReplaceAuthUserParam(u, i))
  }

  /** `buildProfileSwitchUrl` with the Meet rewrite corrected: the evidently intended version, against which the source's is compared. */
  function BuildProfileSwitchUrl(t: UrlText, i: nat): Option<Url> {
    match t
    case Unparsable(_) => None
    case Parsed(u) =>
      if IsGoogleLikeHost(u.host) then Some(EnsureMeetUIndex(RewriteGoogle(u, i), i))
      else Some(ReplaceAuthUserParam(u, i))
  }

  /** `buildUrl` of content.js and popup.js: any host, no Docs/Meet insertion, the input itself on a parse failure. */
  function BuildUrl(t: UrlText, i: nat): UrlText {
    match t
    case Unparsable(raw) => Unparsable(raw)
    case Parsed(u) => Parsed(ReplacePathUIndex(ReplaceAuthUserParam(u, i), i))
  }

  // ---------------------------------------------------------------------------
  // Parsers

  /** `parseAuthIndexFromUrl`: the `authuser` query value, else the first `/u/<digits>` of the path, else null. */
  function ParseAuthIndexFromUrl(t: UrlText): Option<JsNumber> {
    match t
    case Unparsable(_) => None
    case Parsed(u) =>
      match Get(u.query, "authuser")
      case Some(q) => Some(ToNumber(q))
      case None =>
        var segs := Segments(u.path);
        match First(segs, UNumberAt)
        case Some(m) => Some(ToNumber(LeadingDigits(segs[m + 1])))
        case None => None
  }

  /** The object `{kind, id}` returned by `parseGoogleFileId`. */
  datatype FileId = FileId(kind: string, id: string)

  /** The match of the Docs pattern in a path, as a file id. */
  function DocsFileId(segs: seq<string>): Option<FileId> {
    match First(segs, DocsIdAt)
    case None => None
    case Some(j) => Some(FileId(segs[j], DocsIdSegment(segs, j)))
  }

  /** The match of the Drive `/file/d/<id>` pattern in a path, as a file id. */
  function DriveFileId(segs: seq<string>): Option<FileId> {
    match First(segs, FileIdAt)
    case None => None
    case Some(j) => Some(FileId("driveFile", segs[j + 2]))
  }

  /** `parseGoogleFileId`: Docs path on docs.google.com, then Drive path on drive.google.com, then a truthy `id` query on a host ending in `google.com`. */
  function ParseGoogleFileId(t: UrlText): Option<FileId> {
    match t
    case Unparsable(_) => None
    case Parsed(u) =>
      var segs := Segments(u.path);
      if u.host == "docs.google.com" && DocsFileId(segs).Some? then DocsFileId(segs)
      else if u.host == "drive.google.com" && DriveFileId(segs).Some? then DriveFileId(segs)
      else
        var qid := Get(u.query, "id");
        if Truthy(qid) && EndsWith(u.host, "google.com") then Some(FileId("driveFile", qid.value))
        else None
  }

  /** `[a-z]` (case-insensitive) at every index in `[from, to)`. */
  predicate LettersAt(p: string, from: nat, to: nat)
    requires from <= to <= |p|
  {
    forall k :: from <= k < to ==> IsAsciiLetter(p[k])
  }

  /** `^\/[a-z]{3}-[a-z]{4}-[a-z]{3}` with the `i` flag: a path starting with a meeting code. */
  predicate MeetCodePrefix(p: string) {
    |p| >= 13 && p[0] == '/' && LettersAt(p, 1, 4) && p[4] == '-' && LettersAt(p, 5, 9) && p[9] == '-' && LettersAt(p, 10, 13)
  }

  /** `isMeetUrl` (background.js): on meet.google.com, `/lookup/`, a meeting code followed by `\W` or the end, or `/v2/`. */
  predicate IsMeetUrl(t: UrlText) {
    match t
    case Unparsable(_) => false
    case Parsed(u) =>
      var p := MeetPathOrRoot(u.path);
      u.host == "meet.google.com"
      && (|| StartsWith(p, "/lookup/")
          || (MeetCodePrefix(p) && (|p| == 13 || !IsWordChar(p[13])))
          || StartsWith(p, "/v2/"))
  }
}
