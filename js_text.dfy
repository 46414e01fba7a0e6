/**
 * The string and number primitives of JavaScript that the extension relies on:
 * character classes of its regular expressions, `toLowerCase`, `trim`,
 * `startsWith`/`endsWith`/`includes`, `split`/`join` on one character,
 * `String(n)` for a non-negative integer and `Number(text)`.
 */
module JsText {

  import opened Base

  // ---------------------------------------------------------------------------
  // Character classes

  /** `\d` */
  predicate IsDigit(c: char) {
    '0' <= c <= '9'
  }

  /** `\d+` over the whole string */
  predicate IsDigits(s: string) {
    |s| > 0 && forall k :: 0 <= k < |s| ==> IsDigit(s[k])
  }

  /** `[a-z]` under the `i` flag (ASCII letters only: the source's regular expressions are not in Unicode mode) */
  predicate IsAsciiLetter(c: char) {
    'a' <= c <= 'z' || 'A' <= c <= 'Z'
  }

  /** `\w`; `\W` is its complement */
  predicate IsWordChar(c: char) {
    IsAsciiLetter(c) || IsDigit(c) || c == '_'
  }

  /** The characters regular-expression `.` does not match. */
  predicate IsLineTerminator(c: char) {
    c == '\n' || c == '\r' || c == '\U{2028}' || c == '\U{2029}'
  }

  /** `\s`, which is also what `String.prototype.trim` removes. */
  predicate IsJsSpace(c: char) {
    || c == '\t' || c == '\U{B}' || c == '\U{C}' || c == ' ' || c == '\U{A0}' || c == '\U{FEFF}'
    || c == '\U{1680}' || ('\U{2000}' <= c <= '\U{200A}') || c == '\U{202F}' || c == '\U{205F}'
    || c == '\U{3000}' || IsLineTerminator(c)
  }

  // ---------------------------------------------------------------------------
  // Case

  function LowerChar(c: char): char {
    if 'A' <= c <= 'Z' then (c as int + 32) as char else c
  }

  /** `toLowerCase`, restricted to ASCII letters. */
  function AsciiLower(s: string): (r: string)
    ensures |r| == |s|
    ensures forall k :: 0 <= k < |s| ==> r[k] == LowerChar(s[k])
  {
    seq(|s|, k requires 0 <= k < |s| => LowerChar(s[k]))
  }

  /** Lower-casing is idempotent. */
  lemma AsciiLowerTwice(s: string)
    ensures AsciiLower(AsciiLower(s)) == AsciiLower(s)
  {
    assert forall k :: 0 <= k < |s| ==> LowerChar(LowerChar(s[k])) == LowerChar(s[k]);
  }

  /** Equality of characters under the `i` flag of a non-Unicode regular expression (ASCII folding). */
  predicate SameIgnoringCase(a: char, b: char) {
    LowerChar(a) == LowerChar(b)
  }

  // ---------------------------------------------------------------------------
  // Searching

  predicate StartsWith(s: string, prefix: string) {
    |prefix| <= |s| && s[..|prefix|] == prefix
  }

  predicate EndsWith(s: string, suffix: string) {
    |suffix| <= |s| && s[|s| - |suffix|..] == suffix
  }

  /** `s.includes(p)`, scanning left to right. */
  predicate Contains(s: string, p: string)
    decreases |s|
  {
    StartsWith(s, p) || (|s| > 0 && Contains(s[1..], p))
  }

  /** `p` occurs in `s` at position `k`. */
  predicate OccursAt(s: string, p: string, k: int) {
    0 <= k && k + |p| <= |s| && s[k..k + |p|] == p
  }

  /** An occurrence anywhere makes `includes` true. */
  lemma {:induction false} OccursContains(s: string, p: string, k: int)
    requires OccursAt(s, p, k)
    ensures Contains(s, p)
    decreases k
  {
    if k == 0 {
      assert StartsWith(s, p);
    } else {
      assert s[1..][k - 1..k - 1 + |p|] == s[k..k + |p|];
      OccursContains(s[1..], p, k - 1);
    }
  }

  /** `includes` is true only where there is an occurrence. */
  lemma {:induction false} ContainsOccurs(s: string, p: string)
    requires Contains(s, p)
    ensures exists k :: OccursAt(s, p, k)
    decreases |s|
  {
    if StartsWith(s, p) {
      assert OccursAt(s, p, 0);
    } else {
      ContainsOccurs(s[1..], p);
      var k :| OccursAt(s[1..], p, k);
      assert s[k + 1..k + 1 + |p|] == s[1..][k..k + |p|];
      assert OccursAt(s, p, k + 1);
    }
  }

  lemma ContainsIff(s: string, p: string)
    ensures Contains(s, p) <==> exists k :: OccursAt(s, p, k)
  {
    if Contains(s, p) {
      ContainsOccurs(s, p);
    }
    forall k | OccursAt(s, p, k) ensures Contains(s, p) {
      OccursContains(s, p, k);
    }
  }

  /** Position of the first occurrence of `sep` in `s` (the search of `split` and `indexOf`). */
  function IndexOf(s: string, sep: string): (r: Option<nat>)
    ensures r.Some? ==> OccursAt(s, sep, r.value)
    ensures r.Some? ==> forall k :: 0 <= k < r.value ==> !OccursAt(s, sep, k)
    ensures r.None? ==> forall k :: !OccursAt(s, sep, k)
    decreases |s|
  {
    if StartsWith(s, sep) then Some(0)
    else if |s| == 0 then None
    else
      var rest := IndexOf(s[1..], sep);
      OccursAtTail(s, sep);
      match rest
      case None => None
      case Some(k) => Some(k + 1)
  }

  /** An occurrence past the first character is one in the tail, one place earlier, and back. */
  lemma OccursAtTail(s: string, sep: string)
    requires |s| > 0
    ensures forall k :: 0 < k ==> OccursAt(s, sep, k) == OccursAt(s[1..], sep, k - 1)
  {
    forall k | 0 < k ensures OccursAt(s, sep, k) == OccursAt(s[1..], sep, k - 1) {
      if k + |sep| <= |s| {
        assert s[1..][k - 1..k - 1 + |sep|] == s[k..k + |sep|];
      }
    }
  }

  /** `s.split(sep)[0]`: the text up to the first `sep`, or all of `s` when there is none. */
  function BeforeFirst(s: string, sep: string): (r: string)
    ensures StartsWith(s, r)
    ensures |sep| > 0 ==> !Contains(r, sep)
    ensures forall k :: 0 <= k < |r| ==> !OccursAt(s, sep, k)
    ensures Contains(s, sep) ==> OccursAt(s, sep, |r|)
    ensures !Contains(s, sep) ==> r == s
  {
    ContainsIff(s, sep);
    match IndexOf(s, sep)
    case None =>
      ContainsIff(s, sep);
      s
    case Some(k) =>
      var r := s[..k];
      ContainsIff(r, sep);
      forall j | OccursAt(r, sep, j) ensures OccursAt(s, sep, j) {
        OccursInPrefix(s, k, sep, j);
      }
      r
  }

  /** The text before the first separator ends where the first occurrence starts. */
  lemma BeforeFirstAt(s: string, sep: string, i: int)
    requires OccursAt(s, sep, i)
    requires forall k :: 0 <= k < i ==> !OccursAt(s, sep, k)
    ensures |BeforeFirst(s, sep)| == i
  {
    OccursContains(s, sep, i);
    var r := BeforeFirst(s, sep);
    assert OccursAt(s, sep, |r|);
  }

  /** An occurrence in a prefix is one in the whole text. */
  lemma OccursInPrefix(s: string, n: nat, sep: string, j: int)
    requires n <= |s| && OccursAt(s[..n], sep, j)
    ensures OccursAt(s, sep, j)
  {
    assert s[..n][j..j + |sep|] == s[j..j + |sep|];
  }

  // ---------------------------------------------------------------------------
  // trim

  function TrimStart(s: string): (r: string)
    ensures |r| <= |s| && r == s[|s| - |r|..]
    ensures r == [] || !IsJsSpace(r[0])
    ensures forall k :: 0 <= k < |s| - |r| ==> IsJsSpace(s[k])
    decreases |s|
  {
    if s != [] && IsJsSpace(s[0]) then TrimStart(s[1..]) else s
  }

  function TrimEnd(s: string): (r: string)
    ensures |r| <= |s| && r == s[..|r|]
    ensures r == [] || !IsJsSpace(r[|r| - 1])
    ensures forall k :: |r| <= k < |s| ==> IsJsSpace(s[k])
    decreases |s|
  {
    if s != [] && IsJsSpace(s[|s| - 1]) then TrimEnd(s[..|s| - 1]) else s
  }

  /** No white space at either end. */
  predicate Trimmed(s: string) {
    s == [] || (!IsJsSpace(s[0]) && !IsJsSpace(s[|s| - 1]))
  }

  /** `r` is `s[a..a + |r|]`, and everything of `s` before and after it is white space. */
  predicate TrimOf(s: string, r: string, a: int) {
    && 0 <= a && a + |r| <= |s| && s[a..a + |r|] == r
    && (forall k :: 0 <= k < a ==> IsJsSpace(s[k]))
    && (forall k :: a + |r| <= k < |s| ==> IsJsSpace(s[k]))
  }

  /**
   * `String.prototype.trim`: `s` with only white space removed, all of it at
   * the start and at the end, so that the rest has none at either end.
   */
  function Trim(s: string): (r: string)
    ensures exists a :: TrimOf(s, r, a)
    ensures exists i :: OccursAt(s, r, i)
    ensures Trimmed(r)
  {
    var a := TrimStart(s);
    var r := TrimEnd(a);
    PrefixOfSuffix(s, a, r);
    assert r != [] ==> r[0] == a[0];
    TrimOfParts(s, a, r);
    r
  }

  /** White space cut from the start (leaving `a`) and then from the end (leaving `r`). */
  lemma TrimOfParts(s: string, a: string, r: string)
    requires |a| <= |s| && a == s[|s| - |a|..]
    requires forall k :: 0 <= k < |s| - |a| ==> IsJsSpace(s[k])
    requires |r| <= |a| && r == a[..|r|]
    requires forall k :: |r| <= k < |a| ==> IsJsSpace(a[k])
    ensures TrimOf(s, r, |s| - |a|)
  {
    var off := |s| - |a|;
    forall k | off + |r| <= k < |s| ensures IsJsSpace(s[k]) {
      assert s[k] == a[k - off];
    }
    assert s[off..off + |r|] == r;
  }

  /** Trimming is determined: a non-empty text without white space at either end, padded only with white space, is what trim gives. */
  lemma TrimUnique(s: string, t: string, b: int)
    requires TrimOf(s, t, b) && Trimmed(t) && t != ""
    ensures Trim(s) == t
  {
    var r := Trim(s);
    var a :| TrimOf(s, r, a);
    assert s[b] == t[0];
    assert s[b + |t| - 1] == t[|t| - 1];
    if r != "" {
      assert s[a] == r[0];
      assert s[a + |r| - 1] == r[|r| - 1];
      assert a == b;
      assert |r| == |t|;
    }
  }

  /** A prefix of a suffix of `s` occurs in `s` where the suffix starts. */
  lemma PrefixOfSuffix(s: string, a: string, r: string)
    requires |a| <= |s| && a == s[|s| - |a|..]
    requires |r| <= |a| && r == a[..|r|]
    ensures OccursAt(s, r, |s| - |a|)
  {
    assert r == s[|s| - |a|..|s| - |a| + |r|];
  }

  /** Trimming text that has no white space at either end gives it back. */
  lemma TrimTrimmed(s: string)
    requires Trimmed(s)
    ensures Trim(s) == s
  {
    assert TrimStart(s) == s;
    assert TrimEnd(s) == s;
  }

  // ---------------------------------------------------------------------------
  // split / join on one character

  /** `s.split(sep)` for a one-character separator. */
  function Split(s: string, sep: char): (r: seq<string>)
    ensures |r| >= 1
    ensures forall k :: 0 <= k < |r| ==> sep !in r[k]
    decreases |s|
  {
    if s == [] then [""]
    else
      var rest := Split(s[1..], sep);
      if s[0] == sep then [""] + rest else [[s[0]] + rest[0]] + rest[1..]
  }

  /** `parts.join(sep)` for a one-character separator. */
  function Join(parts: seq<string>, sep: char): string
    requires |parts| >= 1
    decreases |parts|
  {
    if |parts| == 1 then parts[0] else parts[0] + [sep] + Join(parts[1..], sep)
  }

  lemma {:induction false} JoinSplit(s: string, sep: char)
    ensures Join(Split(s, sep), sep) == s
    decreases |s|
  {
    if s != [] {
      var rest := Split(s[1..], sep);
      JoinSplit(s[1..], sep);
      if s[0] == sep {
        assert ([""] + rest)[1..] == rest;
      } else {
        var r := [[s[0]] + rest[0]] + rest[1..];
        assert r[1..] == rest[1..];
        if |rest| > 1 {
          assert Join(rest, sep) == rest[0] + [sep] + Join(rest[1..], sep);
        }
      }
    }
  }

  /** Splitting a string without the separator yields that string alone. */
  lemma {:induction false} SplitNoSep(a: string, sep: char)
    requires sep !in a
    ensures Split(a, sep) == [a]
    decreases |a|
  {
    if a != [] {
      assert sep !in a[1..] && a[0] != sep;
      SplitNoSep(a[1..], sep);
      assert [a[0]] + a[1..] == a;
    }
  }

  lemma {:induction false} SplitAfterPart(a: string, b: string, sep: char)
    requires sep !in a
    ensures Split(a + [sep] + b, sep) == [a] + Split(b, sep)
    decreases |a|
  {
    if a == [] {
      assert a + [sep] + b == [sep] + b;
      assert ([sep] + b)[1..] == b;
    } else {
      var s := a + [sep] + b;
      assert s[0] == a[0] && s[1..] == a[1..] + [sep] + b;
      assert sep !in a[1..] && a[0] != sep;
      SplitAfterPart(a[1..], b, sep);
      assert [a[0]] + a[1..] == a;
    }
  }

  lemma {:induction false} SplitJoin(parts: seq<string>, sep: char)
    requires |parts| >= 1
    requires forall k :: 0 <= k < |parts| ==> sep !in parts[k]
    ensures Split(Join(parts, sep), sep) == parts
    decreases |parts|
  {
    if |parts| == 1 {
      SplitNoSep(parts[0], sep);
    } else {
      SplitJoin(parts[1..], sep);
      SplitAfterPart(parts[0], Join(parts[1..], sep), sep);
    }
  }

  /** One more part at the front. */
  lemma JoinCons(a: string, rest: seq<string>, sep: char)
    requires |rest| >= 1
    ensures Join([a] + rest, sep) == a + [sep] + Join(rest, sep)
  {
    assert ([a] + rest)[1..] == rest;
  }

  lemma {:induction false} JoinAppend(a: seq<string>, b: seq<string>, sep: char)
    requires |a| >= 1 && |b| >= 1
    ensures Join(a + b, sep) == Join(a, sep) + [sep] + Join(b, sep)
    decreases |a|
  {
    if |a| == 1 {
      assert (a + b)[1..] == b;
    } else {
      assert (a + b)[1..] == a[1..] + b;
      JoinAppend(a[1..], b, sep);
    }
  }

  // ---------------------------------------------------------------------------
  // Decimal numbers

  function DigitChar(d: nat): char
    requires d < 10
  {
    ('0' as int + d) as char
  }

  function DigitValue(c: char): nat
    requires IsDigit(c)
  {
    c as int - '0' as int
  }

  /** `String(n)` for a non-negative integer: its decimal digits without leading zeros. */
  function Dec(n: nat): (s: string)
    ensures IsDigits(s)
    decreases n
  {
    if n < 10 then [DigitChar(n)] else Dec(n / 10) + [DigitChar(n % 10)]
  }

  /** The value of a string of decimal digits. */
  function DigitsValue(s: string): nat
    requires forall k :: 0 <= k < |s| ==> IsDigit(s[k])
    decreases |s|
  {
    if s == [] then 0 else DigitsValue(s[..|s| - 1]) * 10 + DigitValue(s[|s| - 1])
  }

  lemma {:induction false} DigitsValueOfDec(n: nat)
    ensures DigitsValue(Dec(n)) == n
    decreases n
  {
    if n >= 10 {
      var s := Dec(n);
      assert s[..|s| - 1] == Dec(n / 10);
      DigitsValueOfDec(n / 10);
    }
  }

  lemma {:induction false} DigitsValuePositive(d: string)
    requires IsDigits(d) && d[0] != '0'
    ensures DigitsValue(d) >= 1
    decreases |d|
  {
    if |d| == 1 {
      assert d[..0] == [];
    } else {
      var init := d[..|d| - 1];
      assert init[0] == d[0];
      DigitsValuePositive(init);
    }
  }

  /** Digits without a leading zero are the decimal text of their value: `String(Number(d)) == d`. */
  lemma {:induction false} DecOfDigitsValue(d: string)
    requires IsDigits(d) && (|d| == 1 || d[0] != '0')
    ensures Dec(DigitsValue(d)) == d
    decreases |d|
  {
    var n := DigitsValue(d);
    if |d| == 1 {
      assert d[..|d| - 1] == [];
      assert DigitsValue(d[..|d| - 1]) == 0;
      assert n == DigitValue(d[0]);
      assert DigitChar(n) == d[0];
    } else {
      var init := d[..|d| - 1];
      assert init[0] == d[0];
      DigitsValuePositive(init);
      DecOfDigitsValue(init);
      var v := DigitValue(d[|d| - 1]);
      assert n == DigitsValue(init) * 10 + v;
      assert n / 10 == DigitsValue(init) && n % 10 == v;
      assert d == init + [d[|d| - 1]];
    }
  }

  /** The longest prefix of decimal digits (what a greedy `\d+` captures). */
  function LeadingDigits(s: string): (r: string)
    ensures StartsWith(s, r)
    ensures forall k :: 0 <= k < |r| ==> IsDigit(r[k])
    ensures |r| < |s| ==> !IsDigit(s[|r|])
    decreases |s|
  {
    if s != [] && IsDigit(s[0]) then [s[0]] + LeadingDigits(s[1..]) else []
  }

  /**
   * The result of `Number(text)`: a non-negative integer for decimal digit text
   * (and 0 for the empty string); every other text is read as NaN here.
   */
  datatype JsNumber = Int(value: nat) | NaN

  function ToNumber(text: string): (r: JsNumber)
    ensures IsDigits(text) ==> r == Int(DigitsValue(text))
    ensures text == "" ==> r == Int(0)
    ensures !IsDigits(text) && text != "" ==> r == NaN
  {
    if text == "" then Int(0) else if IsDigits(text) then Int(DigitsValue(text)) else NaN
  }

  /** `Number(String(n)) == n` */
  lemma NumberOfDec(n: nat)
    ensures ToNumber(Dec(n)) == Int(n)
  {
    DigitsValueOfDec(n);
  }
}
