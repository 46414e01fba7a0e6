/**
 * The options page's data handling (options.js): the blocked-pattern text box,
 * the profile rows turned into profiles, the save-time merge with what storage
 * holds, and the values the page loads.
 */
module Options {

  import opened Base
  import opened JsText
  import opened Profiles

  // ---------------------------------------------------------------------------
  // Blocked-pattern text

  /** A piece followed by a `\n` loses a `\r` at its end (the `\r?` of the separator). */
  function DropCr(piece: string, last: bool): (r: string)
    ensures r == piece || (!last && piece == r + "\r")
    ensures '\n' !in piece ==> '\n' !in r
  {
    if !last && piece != [] && piece[|piece| - 1] == '\r' then piece[..|piece| - 1] else piece
  }

  /** `line` is what the piece `piece` reads as: the piece less a `\r` that ends it, unless it is the last. */
  predicate LineOfPiece(piece: string, line: string, last: bool) {
    if !last && EndsWith(piece, "\r") then piece == line + "\r" else piece == line
  }

  /**
   * The pieces of `text.split(/\r?\n/)`: the text cut at every `\n`, each
   * piece but the last losing the `\r` that ends it.
   */
  function SplitLines(text: string): (r: seq<string>)
    ensures |r| == |Split(text, '\n')| >= 1
    ensures forall k :: 0 <= k < |r| ==> '\n' !in r[k]
    ensures forall k :: 0 <= k < |r| ==> LineOfPiece(Split(text, '\n')[k], r[k], k == |r| - 1)
  {
    var pieces := Split(text, '\n');
    seq(|pieces|, k requires 0 <= k < |pieces| => DropCr(pieces[k], k == |pieces| - 1))
  }

  /** Text without `\r` is its lines joined by `\n`. */
  lemma SplitLinesJoin(text: string)
    requires '\r' !in text
    ensures Join(SplitLines(text), '\n') == text
  {
    var pieces := Split(text, '\n');
    JoinSplit(text, '\n');
    forall k | 0 <= k < |pieces| ensures '\r' !in pieces[k] {
      PieceOfSplit(text, '\n', k, '\r');
    }
    assert SplitLines(text) == pieces;
  }

  /** The cut of a character-free text at `sep` has that character in no piece. */
  lemma {:induction false} PieceOfSplit(s: string, sep: char, k: nat, c: char)
    requires c !in s && k < |Split(s, sep)|
    ensures c !in Split(s, sep)[k]
    decreases |s|
  {
    if s != [] {
      var rest := Split(s[1..], sep);
      assert c !in s[1..];
      if s[0] == sep {
        if k > 0 {
          PieceOfSplit(s[1..], sep, k - 1, c);
        }
      } else if k == 0 {
        PieceOfSplit(s[1..], sep, 0, c);
      } else {
        PieceOfSplit(s[1..], sep, k, c);
      }
    }
  }

  /** `.map((s) => s.trim())` */
  function TrimAll(lines: seq<string>): (r: seq<string>)
    ensures |r| == |lines|
    ensures forall k :: 0 <= k < |r| ==> r[k] == Trim(lines[k]) && Trimmed(r[k])
    decreases |lines|
  {
    if lines == [] then [] else [Trim(lines[0])] + TrimAll(lines[1..])
  }

  /** `.filter((s) => s.length > 0)`: the lines that are not empty, in order. */
  function NonEmpty(lines: seq<string>): (r: seq<string>)
    ensures forall k :: 0 <= k < |r| ==> r[k] != "" && r[k] in lines
    ensures forall k :: 0 <= k < |lines| && lines[k] != "" ==> lines[k] in r
    ensures |r| <= |lines|
    ensures (forall k :: 0 <= k < |lines| ==> lines[k] != "") ==> r == lines
    decreases |lines|
  {
    if lines == [] then []
    else
      var rest := NonEmpty(lines[1..]);
      assert forall k :: 1 <= k < |lines| ==> lines[k] == lines[1..][k - 1];
      if lines[0] == "" then rest else [lines[0]] + rest
  }

  /** The filter keeps order: filtering two lists one after the other is filtering their concatenation. */
  lemma {:induction false} NonEmptyAppend(a: seq<string>, b: seq<string>)
    ensures NonEmpty(a + b) == NonEmpty(a) + NonEmpty(b)
    decreases |a|
  {
    if a != [] {
      var ab := a + b;
      assert ab[0] == a[0] && ab[1..] == a[1..] + b;
      NonEmptyAppend(a[1..], b);
      if a[0] == "" {
        assert NonEmpty(ab) == NonEmpty(ab[1..]);
        assert NonEmpty(a) == NonEmpty(a[1..]);
      } else {
        assert NonEmpty(ab) == [a[0]] + NonEmpty(ab[1..]);
        assert NonEmpty(a) == [a[0]] + NonEmpty(a[1..]);
      }
    } else {
      assert a + b == b;
    }
  }

  /** `p` is one of the lines, trimmed. */
  predicate TrimOfALine(lines: seq<string>, p: string) {
    exists j :: 0 <= j < |lines| && p == Trim(lines[j])
  }

  /**
   * The patterns saved from the text box: each line trimmed, empty lines
   * dropped, order kept (`ParsePatternsLineByLine`).
   */
  function ParsePatterns(text: string): (r: seq<string>)
    ensures forall k :: 0 <= k < |r| ==> r[k] != "" && Trimmed(r[k])
    ensures forall k :: 0 <= k < |r| ==> TrimOfALine(SplitLines(text), r[k])
    ensures forall j :: 0 <= j < |SplitLines(text)| && Trim(SplitLines(text)[j]) != "" ==> Trim(SplitLines(text)[j]) in r
  {
    var lines := SplitLines(text);
    var r := NonEmpty(TrimAll(lines));
    NonEmptyOfTrimAll(lines);
    r
  }

  lemma NonEmptyOfTrimAll(lines: seq<string>)
    ensures forall k :: 0 <= k < |NonEmpty(TrimAll(lines))| ==> TrimOfALine(lines, NonEmpty(TrimAll(lines))[k])
    ensures forall j :: 0 <= j < |lines| && Trim(lines[j]) != "" ==> Trim(lines[j]) in NonEmpty(TrimAll(lines))
  {
    var trimmed := TrimAll(lines);
    var r := NonEmpty(trimmed);
    forall k | 0 <= k < |r| ensures TrimOfALine(lines, r[k]) {
      var j :| 0 <= j < |trimmed| && r[k] == trimmed[j];
    }
    forall j | 0 <= j < |lines| && Trim(lines[j]) != "" ensures Trim(lines[j]) in r {
      assert trimmed[j] == Trim(lines[j]);
    }
  }

  /** The text is read line by line: a first line, a `\n` and the rest give the first line's pattern, then the rest's. */
  lemma ParsePatternsLineByLine(a: string, b: string)
    requires '\n' !in a
    ensures ParsePatterns(a + "\n" + b) == ParsePatterns(a) + ParsePatterns(b)
  {
    var ta := Trim(a);
    var tail := TrimAll(SplitLines(b));
    assert TrimAll(SplitLines(a + "\n" + b)) == [ta] + tail by {
      SplitLinesCons(a, b);
      TrimDropCr(a);
      TrimAllCons(DropCr(a, false), SplitLines(b));
    }
    assert TrimAll(SplitLines(a)) == [ta] by {
      SplitLinesOneLine(a);
      TrimAllCons(a, []);
      assert [a] + [] == [a];
    }
    NonEmptyAppend([ta], tail);
  }

  lemma TrimAllCons(line: string, lines: seq<string>)
    ensures TrimAll([line] + lines) == [Trim(line)] + TrimAll(lines)
  {
    assert ([line] + lines)[1..] == lines;
  }

  /** A text with no `\n` is one line. */
  lemma SplitLinesOneLine(a: string)
    requires '\n' !in a
    ensures SplitLines(a) == [a]
  {
    SplitNoSep(a, '\n');
  }

  /** A first line and a `\n` in front of a text put that line in front of its lines. */
  lemma SplitLinesCons(a: string, b: string)
    requires '\n' !in a
    ensures SplitLines(a + "\n" + b) == [DropCr(a, false)] + SplitLines(b)
  {
    assert a + "\n" + b == a + ['\n'] + b;
    SplitAfterPart(a, b, '\n');
  }

  /** The `\r` the separator takes is white space that `trim` would remove anyway. */
  lemma TrimDropCr(line: string)
    ensures Trim(DropCr(line, false)) == Trim(line)
  {
    if line != [] && line[|line| - 1] == '\r' {
      var d := DropCr(line, false);
      var t := Trim(line);
      var a :| TrimOf(line, t, a);
      assert IsJsSpace('\r');
      if t != "" {
        TrimOfDropLast(line, t, a);
        TrimUnique(d, t, a);
      } else {
        assert forall k :: 0 <= k < |d| ==> d[k] == line[k];
        AllSpaceTrim(d);
      }
    }
  }

  /** Dropping white space from the end keeps a non-empty trim where it is. */
  lemma TrimOfDropLast(s: string, t: string, a: int)
    requires TrimOf(s, t, a) && t != "" && Trimmed(t)
    requires s != [] && IsJsSpace(s[|s| - 1])
    ensures TrimOf(s[..|s| - 1], t, a)
  {
    assert s[a + |t| - 1] == t[|t| - 1];
    var d := s[..|s| - 1];
    assert d[a..a + |t|] == s[a..a + |t|];
  }

  /** White space alone trims to nothing. */
  lemma AllSpaceTrim(s: string)
    requires forall k :: 0 <= k < |s| ==> IsJsSpace(s[k])
    ensures Trim(s) == ""
  {
  }

  /** A pattern as the text box saves it: non-empty, trimmed, on one line. */
  predicate SavedPattern(p: string) {
    p != "" && Trimmed(p) && '\n' !in p
  }

  /** `patterns.join("\n")`: the text the page shows for the stored patterns. */
  function JoinLines(patterns: seq<string>): string {
    if patterns == [] then "" else Join(patterns, '\n')
  }

  /** Showing saved patterns in the text box and saving the box again gives the same patterns. */
  lemma ParseJoinLines(patterns: seq<string>)
    requires forall k :: 0 <= k < |patterns| ==> SavedPattern(patterns[k])
    ensures ParsePatterns(JoinLines(patterns)) == patterns
  {
    if patterns == [] {
      assert Split("", '\n') == [""];
      assert SplitLines("") == [""];
      assert Trim("") == "";
    } else {
      SplitJoin(patterns, '\n');
      SplitLinesOfSaved(patterns);
      var trimmed := TrimAll(patterns);
      forall k | 0 <= k < |patterns| ensures trimmed[k] == patterns[k] {
        TrimTrimmed(patterns[k]);
      }
      assert trimmed == patterns;
    }
  }

  /** Saved patterns end in no `\r`, so splitting their join gives them back. */
  lemma SplitLinesOfSaved(patterns: seq<string>)
    requires patterns != [] && forall k :: 0 <= k < |patterns| ==> SavedPattern(patterns[k])
    requires Split(Join(patterns, '\n'), '\n') == patterns
    ensures SplitLines(Join(patterns, '\n')) == patterns
  {
    var r := SplitLines(Join(patterns, '\n'));
    forall k | 0 <= k < |patterns| ensures r[k] == patterns[k] {
      var p := patterns[k];
      assert IsJsSpace('\r');
      assert p[|p| - 1] != '\r';
    }
  }

  /** Saving the box, showing the result and saving again changes nothing more. */
  lemma ParsePatternsSettles(text: string)
    ensures ParsePatterns(JoinLines(ParsePatterns(text))) == ParsePatterns(text)
  {
    var ps := ParsePatterns(text);
    var lines := SplitLines(text);
    var trimmed := TrimAll(lines);
    forall k | 0 <= k < |ps| ensures SavedPattern(ps[k]) {
      assert ps[k] in trimmed;
      var j :| 0 <= j < |trimmed| && trimmed[j] == ps[k];
      TrimKeepsLine(lines[j]);
    }
    ParseJoinLines(ps);
  }

  lemma TrimKeepsLine(s: string)
    requires '\n' !in s
    ensures '\n' !in Trim(s)
  {
    var t := Trim(s);
    var i :| OccursAt(s, t, i);
    forall m | 0 <= m < |t| ensures t[m] != '\n' {
      assert t[m] == s[i..i + |t|][m] == s[i + m];
    }
  }

  // ---------------------------------------------------------------------------
  // Profile rows

  /** The inputs of one profile row: label box, shown name and email, and the index box. */
  datatype Row = Row(labelInput: string, nameText: string, emailText: string, indexInput: string)

  /** A profile as a row produces it; a row carries no photo. */
  datatype Edited = Edited(id: string, labelText: string, name: string, email: string, authIndex: nat)

  /** `.replace(/\s+/g, "-")`: every run of white space becomes one `-`. */
  function DashSpaces(s: string): (r: string)
    ensures forall k :: 0 <= k < |r| ==> !IsJsSpace(r[k])
    ensures (forall k :: 0 <= k < |s| ==> !IsJsSpace(s[k])) ==> r == s
    decreases |s|
  {
    if s == [] then []
    else if IsJsSpace(s[0]) then "-" + DashSpaces(TrimStart(s))
    else [s[0]] + DashSpaces(s[1..])
  }

  /** Leading white space in front of text that starts with none is all `trimStart` removes. */
  lemma {:induction false} TrimStartRun(w: string, s: string)
    requires forall k :: 0 <= k < |w| ==> IsJsSpace(w[k])
    requires s == [] || !IsJsSpace(s[0])
    ensures TrimStart(w + s) == s
    decreases |w|
  {
    if w == [] {
      assert w + s == s;
    } else {
      assert (w + s)[0] == w[0] && (w + s)[1..] == w[1..] + s;
      TrimStartRun(w[1..], s);
    }
  }

  /** Text that ends in something other than white space keeps what follows it past `trimStart`. */
  lemma {:induction false} TrimStartAppend(x: string, t: string)
    requires x != [] && !IsJsSpace(x[|x| - 1])
    ensures TrimStart(x + t) == TrimStart(x) + t
    decreases |x|
  {
    assert (x + t)[0] == x[0];
    if IsJsSpace(x[0]) {
      assert (x + t)[1..] == x[1..] + t;
      TrimStartAppend(x[1..], t);
    }
  }

  /** A whole run of white space, however long, becomes a single `-`. */
  lemma DashSpacesRun(w: string, s: string)
    requires w != [] && forall k :: 0 <= k < |w| ==> IsJsSpace(w[k])
    requires s == [] || !IsJsSpace(s[0])
    ensures DashSpaces(w + s) == "-" + DashSpaces(s)
  {
    assert (w + s)[0] == w[0];
    TrimStartRun(w, s);
  }

  /** The replacement works run by run: text cut after something other than white space is replaced piece by piece. */
  lemma {:induction false} DashSpacesAppend(x: string, t: string)
    requires x == [] || !IsJsSpace(x[|x| - 1])
    ensures DashSpaces(x + t) == DashSpaces(x) + DashSpaces(t)
    decreases |x|, 1
  {
    if x == [] {
      assert x + t == t;
    } else if IsJsSpace(x[0]) {
      DashSpacesAppendAtRun(x, t);
    } else {
      DashSpacesAppendAtChar(x, t);
    }
  }

  /** `DashSpacesAppend` for text that starts with white space: the run becomes the `-`, then the rest. */
  lemma {:induction false} DashSpacesAppendAtRun(x: string, t: string)
    requires x != [] && IsJsSpace(x[0]) && !IsJsSpace(x[|x| - 1])
    ensures DashSpaces(x + t) == DashSpaces(x) + DashSpaces(t)
    decreases |x|, 0
  {
    var y := TrimStart(x);
    assert (x + t)[0] == x[0];
    TrimStartAppend(x, t);
    assert y != [] && y[|y| - 1] == x[|x| - 1];
    DashSpacesAppend(y, t);
  }

  /** `DashSpacesAppend` for text that starts with another character: it is kept, then the rest. */
  lemma {:induction false} DashSpacesAppendAtChar(x: string, t: string)
    requires x != [] && !IsJsSpace(x[0]) && !IsJsSpace(x[|x| - 1])
    ensures DashSpaces(x + t) == DashSpaces(x) + DashSpaces(t)
    decreases |x|, 0
  {
    assert (x + t)[0] == x[0] && (x + t)[1..] == x[1..] + t;
    DashSpacesAppend(x[1..], t);
  }

  /** Two pieces of text with a run of white space between them become the two pieces joined by one `-`. */
  lemma DashSpacesJoin(x: string, w: string, t: string)
    requires x != [] && !IsJsSpace(x[|x| - 1])
    requires w != [] && forall k :: 0 <= k < |w| ==> IsJsSpace(w[k])
    requires t == [] || !IsJsSpace(t[0])
    ensures DashSpaces(x + (w + t)) == DashSpaces(x) + "-" + DashSpaces(t)
  {
    var dx, dt := DashSpaces(x), DashSpaces(t);
    assert DashSpaces(x + (w + t)) == dx + DashSpaces(w + t) by {
      DashSpacesAppend(x, w + t);
    }
    assert DashSpaces(w + t) == "-" + dt by {
      DashSpacesRun(w, t);
    }
    assert dx + ("-" + dt) == dx + "-" + dt;
  }

  /** A row's id: the text lower-cased, white-space runs turned into `-`. */
  function Slug(s: string): (r: string)
    ensures forall k :: 0 <= k < |r| ==> !IsJsSpace(r[k]) && LowerChar(r[k]) == r[k]
  {
    var lower := AsciiLower(s);
    var r := DashSpaces(lower);
    DashSpacesLower(lower);
    r
  }

  /** Replacing spaces in lower-case text leaves it lower-case. */
  lemma {:induction false} DashSpacesLower(s: string)
    requires forall k :: 0 <= k < |s| ==> LowerChar(s[k]) == s[k]
    ensures forall k :: 0 <= k < |DashSpaces(s)| ==> LowerChar(DashSpaces(s)[k]) == DashSpaces(s)[k]
    decreases |s|
  {
    if s == [] {
    } else if IsJsSpace(s[0]) {
      var t := TrimStart(s);
      assert forall k :: 0 <= k < |t| ==> t[k] == s[|s| - |t| + k];
      DashSpacesLower(t);
    } else {
      DashSpacesLower(s[1..]);
    }
  }

  /** A word without white space only loses its capitals. */
  lemma SlugOfWord(a: string)
    requires forall k :: 0 <= k < |a| ==> !IsJsSpace(a[k])
    ensures Slug(a) == AsciiLower(a)
  {
  }

  /** Lower-casing turns no character into white space or out of it. */
  lemma LowerKeepsSpace(s: string)
    ensures forall k :: 0 <= k < |s| ==> (IsJsSpace(AsciiLower(s)[k]) <==> IsJsSpace(s[k]))
  {
  }

  lemma AsciiLowerAppend(x: string, y: string)
    ensures AsciiLower(x + y) == AsciiLower(x) + AsciiLower(y)
  {
    var l, r := AsciiLower(x + y), AsciiLower(x) + AsciiLower(y);
    forall k | 0 <= k < |l| ensures l[k] == r[k] {
      assert (x + y)[k] == if k < |x| then x[k] else y[k - |x|];
    }
  }

  /** Two pieces of text with a white-space run between them give their ids joined by one `-`. */
  lemma SlugWords(a: string, w: string, b: string)
    requires a != [] && !IsJsSpace(a[|a| - 1])
    requires w != [] && forall k :: 0 <= k < |w| ==> IsJsSpace(w[k])
    requires b == [] || !IsJsSpace(b[0])
    ensures Slug(a + w + b) == Slug(a) + "-" + Slug(b)
  {
    var la, lw, lb := AsciiLower(a), AsciiLower(w), AsciiLower(b);
    assert AsciiLower(a + w + b) == la + (lw + lb) by {
      assert a + w + b == a + (w + b);
      AsciiLowerAppend(a, w + b);
      AsciiLowerAppend(w, b);
    }
    LowerKeepsSpace(a);
    LowerKeepsSpace(w);
    LowerKeepsSpace(b);
    DashSpacesJoin(la, lw, lb);
  }

  /** An id is its own slug: saving the rows twice gives the same ids. */
  lemma SlugOfSlug(s: string)
    ensures Slug(Slug(s)) == Slug(s)
  {
    var r := Slug(s);
    assert AsciiLower(r) == r;
  }

  /** `Number(text || 0)` with NaN read as 0 (the number box); non-digit text is NaN here. */
  function RowIndex(indexInput: string): (n: nat)
    ensures IsDigits(indexInput) ==> n == DigitsValue(indexInput)
    ensures !IsDigits(indexInput) ==> n == 0
  {
    match ToNumber(indexInput)
    case Int(v) => v
    case NaN => 0
  }

  /** Row `i`: trimmed label, id from label or name or `p<i>`, name and email as shown. */
  function RowProfile(row: Row, i: nat): (p: Edited)
    ensures p.labelText == Trim(row.labelInput) && p.name == row.nameText && p.email == row.emailText
    ensures p.authIndex == RowIndex(row.indexInput)
    ensures p.labelText != "" ==> p.id == Slug(p.labelText)
    ensures p.labelText == "" && row.nameText != "" ==> p.id == Slug(row.nameText)
  {
    var lbl := Trim(row.labelInput);
    var source := if lbl != "" then lbl else if row.nameText != "" then row.nameText else "p" + Dec(i);
    Edited(Slug(source), lbl, row.nameText, row.emailText, RowIndex(row.indexInput))
  }

  /** A profile with a label or a name: the ones `rowsToProfiles` keeps. */
  predicate Named(p: Edited) {
    p.labelText != "" || p.name != ""
  }

  /** `.map((row, i) => ...)`: every row mapped with its position. */
  function MapRows(rows: seq<Row>): (r: seq<Edited>)
    ensures |r| == |rows|
    ensures forall k :: 0 <= k < |r| ==> r[k] == RowProfile(rows[k], k)
  {
    seq(|rows|, k requires 0 <= k < |rows| => RowProfile(rows[k], k))
  }

  /** `.filter((p) => p.label || p.name)`: the named profiles, in order. */
  function KeepNamed(ps: seq<Edited>): (r: seq<Edited>)
    ensures forall k :: 0 <= k < |r| ==> Named(r[k]) && r[k] in ps
    ensures |r| <= |ps|
    decreases |ps|
  {
    if ps == [] then []
    else if Named(ps[0]) then [ps[0]] + KeepNamed(ps[1..])
    else KeepNamed(ps[1..])
  }

  /** The filter drops only unnamed profiles: each named one stays, and a list of named ones stays whole. */
  lemma {:induction false} KeepNamedKeeps(ps: seq<Edited>)
    ensures forall k :: 0 <= k < |ps| && Named(ps[k]) ==> ps[k] in KeepNamed(ps)
    ensures (forall k :: 0 <= k < |ps| ==> Named(ps[k])) ==> KeepNamed(ps) == ps
    decreases |ps|
  {
    if ps != [] {
      KeepNamedKeeps(ps[1..]);
      forall k | 1 <= k < |ps| && Named(ps[k]) ensures ps[k] in KeepNamed(ps) {
        assert ps[1..][k - 1] == ps[k];
      }
    }
  }

  /** The filter keeps the rows' order: filtering two lists one after the other is filtering their concatenation. */
  lemma {:induction false} KeepNamedAppend(ps: seq<Edited>, qs: seq<Edited>)
    ensures KeepNamed(ps + qs) == KeepNamed(ps) + KeepNamed(qs)
    decreases |ps|
  {
    if ps == [] {
      assert ps + qs == qs;
    } else {
      var all := ps + qs;
      assert all[0] == ps[0] && all[1..] == ps[1..] + qs;
      KeepNamedAppend(ps[1..], qs);
    }
  }

  /** `rowsToProfiles`: every row mapped (its position feeding the `p<i>` id), then rows with neither label nor name dropped. */
  function RowsToProfiles(rows: seq<Row>): (r: seq<Edited>)
    ensures forall k :: 0 <= k < |r| ==> Named(r[k])
    ensures |r| <= |rows|
  {
    KeepNamed(MapRows(rows))
  }

  /** A row with a label or a name is saved as mapped at its own position; when every row has one, all are saved in row order. */
  lemma RowsToProfilesKeeps(rows: seq<Row>)
    ensures forall k :: 0 <= k < |rows| && (Trim(rows[k].labelInput) != "" || rows[k].nameText != "") ==> RowProfile(rows[k], k) in RowsToProfiles(rows)
    ensures (forall k :: 0 <= k < |rows| ==> Trim(rows[k].labelInput) != "" || rows[k].nameText != "") ==> RowsToProfiles(rows) == MapRows(rows)
  {
    var mapped := MapRows(rows);
    KeepNamedKeeps(mapped);
    forall k | 0 <= k < |rows| ensures Named(mapped[k]) <==> Trim(rows[k].labelInput) != "" || rows[k].nameText != "" {
      assert mapped[k] == RowProfile(rows[k], k);
    }
  }

  // ---------------------------------------------------------------------------
  // Saving

  /** Row `p` spread over the first stored profile with its index: the row's fields win, the stored photo stays. */
  function MergeOne(existing: seq<Profile>, p: Edited): (r: Profile)
    ensures r.id == p.id && r.labelText == p.labelText && r.authIndex == p.authIndex
    ensures r.name == Some(p.name) && r.email == Some(p.email)
    ensures HasAuthIndex(existing, p.authIndex) ==> r.photoUrl == existing[FindByAuthIndex(existing, p.authIndex).value].photoUrl
    ensures !HasAuthIndex(existing, p.authIndex) ==> r.photoUrl.None?
  {
    var photo := match FindByAuthIndex(existing, p.authIndex) case Some(k) => existing[k].photoUrl case None => None;
    Profile(p.id, p.labelText, p.authIndex, Some(p.name), Some(p.email), photo)
  }

  /** The save button: exactly the edited profiles, in edited order, each merged with what storage holds for its index. */
  function MergeOnSave(existing: seq<Profile>, edited: seq<Edited>): (r: seq<Profile>)
    ensures |r| == |edited|
    ensures forall k :: 0 <= k < |r| ==> r[k] == MergeOne(existing, edited[k])
  {
    seq(|edited|, k requires 0 <= k < |edited| => MergeOne(existing, edited[k]))
  }

  /** The saved list has the edited indexes and no other. */
  lemma MergeIndexes(existing: seq<Profile>, edited: seq<Edited>)
    ensures AuthIndexes(MergeOnSave(existing, edited)) == set k | 0 <= k < |edited| :: edited[k].authIndex
  {
    var r := MergeOnSave(existing, edited);
    forall x | x in AuthIndexes(r) ensures x in set k | 0 <= k < |edited| :: edited[k].authIndex {
      var k :| 0 <= k < |r| && r[k].authIndex == x;
      assert edited[k].authIndex == x;
    }
    forall x | x in set k | 0 <= k < |edited| :: edited[k].authIndex ensures x in AuthIndexes(r) {
      var k :| 0 <= k < |edited| && edited[k].authIndex == x;
      assert r[k].authIndex == x;
    }
  }

  /** Saving the same rows again over the saved list changes nothing: the photos carried over are the same. */
  lemma MergeOnSaveSettles(existing: seq<Profile>, edited: seq<Edited>)
    ensures MergeOnSave(MergeOnSave(existing, edited), edited) == MergeOnSave(existing, edited)
  {
    var once := MergeOnSave(existing, edited);
    forall k | 0 <= k < |edited| ensures MergeOne(once, edited[k]) == once[k] {
      var idx := edited[k].authIndex;
      assert once[k].authIndex == idx;
      assert HasAuthIndex(once, idx);
      var j := FindByAuthIndex(once, idx).value;
      assert edited[j].authIndex == idx;
    }
  }

  // ---------------------------------------------------------------------------
  // Loading

  /** The `features` object in storage; a missing field is `None`. */
  datatype Features = Features(socialsEnabled: Option<bool>, linkBlockingEnabled: Option<bool>)

  /** The `display` object in storage; a missing field is `None`. */
  datatype Display = Display(showAvatars: Option<bool>, showEmails: Option<bool>)

  /**
   * What `chrome.storage.sync.get` hands the page: `None` for a key that is
   * absent (so its default applies); `profiles` and `patterns` are `None` too
   * when the stored value is not an array.
   */
  datatype Stored = Stored(profiles: Option<seq<Profile>>, display: Option<Display>, features: Option<Features>, patterns: Option<seq<string>>)

  /** What the page shows after `load`. */
  datatype Form = Form(profiles: seq<Profile>, showAvatars: bool, showEmails: bool, socialsEnabled: bool, linkBlockingEnabled: bool, patternsText: string)

  /** `Boolean(x)` of an optional flag: a missing one is false. */
  function Flag(b: Option<bool>): bool {
    b.Some? && b.value
  }

  /** `x ?? d` of an optional flag. */
  function FlagOr(b: Option<bool>, d: bool): bool {
    if b.Some? then b.value else d
  }

  /**
   * `load`: the stored profiles or the two defaults; display flags default to
   * on when `display` is absent; socials default to on and link blocking to
   * off; the patterns one per line.
   */
  function LoadOptions(s: Stored): (f: Form)
    ensures f.profiles == ProfilesOrDefault(s.profiles)
    ensures s.display.None? ==> f.showAvatars && f.showEmails
    ensures s.features.None? ==> f.socialsEnabled && !f.linkBlockingEnabled
    ensures s.features.Some? && s.features.value.socialsEnabled.None? ==> f.socialsEnabled
    ensures s.features.Some? && s.features.value.linkBlockingEnabled.None? ==> !f.linkBlockingEnabled
    ensures s.patterns.None? ==> f.patternsText == ""
    ensures s.display.Some? ==> f.showAvatars == Flag(s.display.value.showAvatars) && f.showEmails == Flag(s.display.value.showEmails)
    ensures s.features.Some? && s.features.value.socialsEnabled.Some? ==> f.socialsEnabled == s.features.value.socialsEnabled.value
    ensures s.features.Some? && s.features.value.linkBlockingEnabled.Some? ==> f.linkBlockingEnabled == s.features.value.linkBlockingEnabled.value
    ensures s.patterns.Some? ==> f.patternsText == JoinLines(s.patterns.value)
  {
    var display := if s.display.Some? then s.display.value else Display(Some(true), Some(true));
    var features := if s.features.Some? then s.features.value else Features(Some(true), Some(false));
    Form(ProfilesOrDefault(s.profiles), Flag(display.showAvatars), Flag(display.showEmails),
         FlagOr(features.socialsEnabled, true), FlagOr(features.linkBlockingEnabled, false),
         JoinLines(if s.patterns.Some? then s.patterns.value else []))
  }

  /** Patterns saved from the page load back into the box and save again as themselves. */
  lemma LoadShowsSavedPatterns(s: Stored)
    requires s.patterns.Some? && forall k :: 0 <= k < |s.patterns.value| ==> SavedPattern(s.patterns.value[k])
    ensures ParsePatterns(LoadOptions(s).patternsText) == s.patterns.value
  {
    ParseJoinLines(s.patterns.value);
  }
}
