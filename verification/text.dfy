/** Character classes and string primitives shared by the scanners.

    The extractor's regular expressions run on Python `str` values. The
    classes below fix what `\d`, `\s`, `\w` and upper/lower case mean in the
    model:
    - `\s` is Python's full whitespace set for `str` (the same set that
      `str.isspace` and `str.strip` use);
    - `\w` (and so `\b`) is ASCII letters, digits and `_`, plus the word
      characters of the Arabic block U+0600..U+06FF;
    - `\d` is the ASCII digits;
    - case folding is ASCII only. */
module Text {

  import opened Wrappers

  /** ASCII decimal digit. */
  predicate IsDigit(c: char) {
    '0' <= c <= '9'
  }

  /** `int(c)` for an ASCII digit. */
  function DigitValue(c: char): (v: nat)
    requires IsDigit(c)
    ensures v <= 9
  {
    c as int - '0' as int
  }

  predicate IsUpper(c: char) {
    'A' <= c <= 'Z'
  }

  /** ASCII letter; `[A-Z]` and `[a-z]` under `re.IGNORECASE` both mean this. */
  predicate IsLetter(c: char) {
    'a' <= c <= 'z' || IsUpper(c)
  }

  /** Python's whitespace for `str`: `\s` in a pattern and `str.isspace`. */
  predicate IsSpace(c: char) {
    || '\t' <= c <= '\r'
    || '\U{1c}' <= c <= ' '
    || c == '\U{85}' || c == '\U{a0}' || c == '\U{1680}'
    || '\U{2000}' <= c <= '\U{200a}'
    || c == '\U{2028}' || c == '\U{2029}' || c == '\U{202f}'
    || c == '\U{205f}' || c == '\U{3000}'
  }

  /** The character range U+0600..U+06FF written `\u0600-\u06FF` in the source. */
  predicate IsArabicBlock(c: char) {
    '\U{0600}' <= c <= '\U{06ff}'
  }

  /** Python's word characters inside the Arabic block (letters and digits). */
  predicate IsArabicWordChar(c: char) {
    || '\U{0620}' <= c <= '\U{064a}'
    || '\U{0660}' <= c <= '\U{0669}'
    || '\U{066e}' <= c <= '\U{066f}'
    || '\U{0671}' <= c <= '\U{06d3}'
    || c == '\U{06d5}'
    || '\U{06e5}' <= c <= '\U{06e6}'
    || '\U{06ee}' <= c <= '\U{06fc}'
    || c == '\U{06ff}'
  }

  /** `\w`: the characters on one side of a `\b`. */
  predicate IsWordChar(c: char) {
    IsLetter(c) || IsDigit(c) || c == '_' || IsArabicWordChar(c)
  }

  function LowerChar(c: char): (r: char)
    ensures IsUpper(c) ==> r as int == c as int + 32
    ensures !IsUpper(c) ==> r == c
  {
    if IsUpper(c) then (c as int + 32) as char else c
  }

  /** `str.lower()` restricted to ASCII. */
  function Lower(s: string): (r: string)
    ensures |r| == |s|
    ensures forall i :: 0 <= i < |s| ==> r[i] == LowerChar(s[i])
  {
    seq(|s|, i requires 0 <= i < |s| => LowerChar(s[i]))
  }

  /** `str.replace(a, b)` for single characters. */
  function ReplaceChar(s: string, a: char, b: char): (r: string)
    ensures |r| == |s|
    ensures forall i :: 0 <= i < |s| ==> r[i] == (if s[i] == a then b else s[i])
  {
    seq(|s|, i requires 0 <= i < |s| => if s[i] == a then b else s[i])
  }

  /** `w` occurs in `s` at index `i`. */
  predicate StartsAt(s: string, i: nat, w: string) {
    i + |w| <= |s| && s[i..i + |w|] == w
  }

  /** `w in s` for Python strings. */
  predicate Contains(s: string, w: string) {
    exists i | 0 <= i <= |s| :: StartsAt(s, i, w)
  }

  predicate AllDigits(s: string) {
    forall i :: 0 <= i < |s| ==> IsDigit(s[i])
  }

  /** `\b` at index `i`: exactly one of the neighbouring characters is a word
      character, the outside of the string counting as a non-word character. */
  predicate Boundary(s: string, i: nat)
    requires i <= |s|
  {
    (i > 0 && IsWordChar(s[i - 1])) != (i < |s| && IsWordChar(s[i]))
  }

  /** Length of the maximal run of `cls` characters starting at index `i`:
      what a greedy `[cls]*` consumes there. */
  function Run(s: string, i: nat, cls: char -> bool): (n: nat)
    requires i <= |s|
    decreases |s| - i
    ensures i + n <= |s|
    ensures forall k :: i <= k < i + n ==> cls(s[k])
    ensures i + n == |s| || !cls(s[i + n])
  {
    if i < |s| && cls(s[i]) then 1 + Run(s, i + 1, cls) else 0
  }

  /** A maximal run is followed by no further run of the class. */
  lemma RunEndsRun(s: string, i: nat, cls: char -> bool)
    requires i <= |s|
    ensures Run(s, i + Run(s, i, cls), cls) == 0
  {
  }

  /** A run of exactly `n` class characters followed by a non-class one. */
  lemma RunExact(s: string, i: nat, n: nat, cls: char -> bool)
    requires i + n < |s|
    requires forall k :: i <= k < i + n ==> cls(s[k])
    requires !cls(s[i + n])
    ensures Run(s, i, cls) == n
  {
  }

  /** `str.strip()`: removes leading and trailing whitespace. */
  function Strip(s: string): (r: string)
    ensures exists a, b :: 0 <= a <= b <= |s| && r == s[a..b]
                && (forall k :: 0 <= k < a ==> IsSpace(s[k]))
                && (forall k :: b <= k < |s| ==> IsSpace(s[k]))
    ensures |r| > 0 ==> !IsSpace(r[0]) && !IsSpace(r[|r| - 1])
  {
    var a := Run(s, 0, IsSpace);
    var b := |s| - RunBack(s, |s|, IsSpace);
    if a == |s| then
      s[|s|..|s|]
    else
      assert !IsSpace(s[a]);
      assert a < b;
      s[a..b]
  }

  /** Length of the maximal run of `cls` characters ending just before index `j`. */
  function RunBack(s: string, j: nat, cls: char -> bool): (n: nat)
    requires j <= |s|
    ensures n <= j
    ensures forall k :: j - n <= k < j ==> cls(s[k])
    ensures n == j || !cls(s[j - n - 1])
  {
    if j > 0 && cls(s[j - 1]) then 1 + RunBack(s, j - 1, cls) else 0
  }

  /** The leftmost index in `from..to` (both ends included) where `p` holds:
      the scanning order of `re.search`, `str.find` and a first-match loop. */
  function Leftmost(p: nat -> bool, from: nat, to: nat): (r: Option<nat>)
    decreases to + 1 - from
    ensures r.Some? ==> from <= r.value <= to && p(r.value)
    ensures r.Some? ==> forall j :: from <= j < r.value ==> !p(j)
    ensures r.None? ==> forall j :: from <= j <= to ==> !p(j)
  {
    if from > to then None
    else if p(from) then Some(from)
    else Leftmost(p, from + 1, to)
  }

  /** `str.find(w)`: the lowest index where `w` occurs in `s`, or -1. */
  function Find(s: string, w: string): (r: int)
    ensures -1 <= r <= |s|
    ensures r >= 0 ==> StartsAt(s, r, w) && forall j :: 0 <= j < r ==> !StartsAt(s, j, w)
    ensures r == -1 <==> !Contains(s, w)
  {
    var p: nat -> bool := (i: nat) => StartsAt(s, i, w);
    var r := Leftmost(p, 0, |s|);
    if r.Some? then
      assert forall j: nat :: j < r.value ==> !StartsAt(s, j, w) by {
        forall j: nat | j < r.value ensures !StartsAt(s, j, w) { assert !p(j); }
      }
      r.value
    else
      assert forall j: nat :: j <= |s| ==> !StartsAt(s, j, w) by {
        forall j: nat | j <= |s| ensures !StartsAt(s, j, w) { assert !p(j); }
      }
      -1
  }

  /** A match of a pattern: the half-open index range `start..end`. */
  datatype Span = Span(start: nat, end: nat)

  /** No match starts anywhere in `a..b` (end excluded). */
  ghost predicate NoMatchIn(m: nat -> Option<nat>, a: nat, b: nat) {
    forall j :: a <= j < b ==> m(j).None?
  }

  /** `re.findall` for a pattern whose matches are never empty: scanning from
      `pos`, take the match at the current index when there is one and resume
      at its end, otherwise move on by one. `m(i)` is the end of the match
      starting at `i`, if any, on a text of length `n`. The result lists
      non-overlapping matches, left to right; `FindAllComplete` adds that no
      match starts in a gap between them. */
  function FindAll(n: nat, m: nat -> Option<nat>, pos: nat): (r: seq<Span>)
    requires forall i: nat :: m(i).Some? ==> i < m(i).value <= n
    decreases if pos <= n then n + 1 - pos else 0
    ensures forall k :: 0 <= k < |r| ==> pos <= r[k].start < r[k].end <= n
    ensures forall k :: 0 <= k < |r| ==> m(r[k].start) == Some(r[k].end)
    ensures forall k :: 0 < k < |r| ==> r[k - 1].end <= r[k].start
  {
    if pos > n then []
    else match m(pos)
      case Some(e) =>
        var rest := FindAll(n, m, e);
        var r := [Span(pos, e)] + rest;
        assert forall k :: 0 < k < |r| ==> r[k] == rest[k - 1];
        r
      case None => FindAll(n, m, pos + 1)
  }

  /** Every index a scan of `FindAll` passes over without a match has none:
      before the first match, between consecutive matches and after the last. */
  lemma FindAllComplete(n: nat, m: nat -> Option<nat>, pos: nat)
    requires forall i: nat :: m(i).Some? ==> i < m(i).value <= n
    ensures var r := FindAll(n, m, pos);
      && NoMatchIn(m, pos, if |r| == 0 then n + 1 else r[0].start)
      && NoMatchBetween(m, r)
      && NoMatchIn(m, ScanEnd(r, pos), n + 1)
  {
    FirstGap(n, m, pos);
    InnerGaps(n, m, pos);
    LastGap(n, m, pos);
  }

  /** Index `j` lies inside one of the spans `r`. */
  ghost predicate CoveredBy(r: seq<Span>, j: nat) {
    exists k :: 0 <= k < |r| && r[k].start <= j < r[k].end
  }

  /** One step of the scan: a match at `pos` is listed first, and without
      one the scan moves on by one. */
  lemma FindAllStep(n: nat, m: nat -> Option<nat>, pos: nat)
    requires forall i: nat :: m(i).Some? ==> i < m(i).value <= n
    requires pos <= n
    ensures m(pos).Some? ==> FindAll(n, m, pos) == [Span(pos, m(pos).value)] + FindAll(n, m, m(pos).value)
    ensures m(pos).None? ==> FindAll(n, m, pos) == FindAll(n, m, pos + 1)
  {
  }

  lemma CoveredCons(sp: Span, rest: seq<Span>, j: nat)
    requires CoveredBy(rest, j) || sp.start <= j < sp.end
    ensures CoveredBy([sp] + rest, j)
  {
    var r := [sp] + rest;
    if !(sp.start <= j < sp.end) {
      var k :| 0 <= k < |rest| && rest[k].start <= j < rest[k].end;
      assert r[k + 1] == rest[k];
    } else {
      assert r[0] == sp;
    }
  }

  /** Every index from `pos` on where a match starts lies inside some match
      the scan found. */
  lemma {:induction false} Covered(n: nat, m: nat -> Option<nat>, pos: nat, j: nat)
    requires forall i: nat :: m(i).Some? ==> i < m(i).value <= n
    requires pos <= j && m(j).Some?
    decreases n + 1 - pos
    ensures CoveredBy(FindAll(n, m, pos), j)
  {
    FindAllStep(n, m, pos);
    if m(pos).Some? {
      var e := m(pos).value;
      if e <= j {
        Covered(n, m, e, j);
      }
      CoveredCons(Span(pos, e), FindAll(n, m, e), j);
    } else {
      Covered(n, m, pos + 1, j);
    }
  }

  /** For a matcher whose matches never end where another starts (a
      maximal run, for instance), the index just before each match found
      after `pos` starts no match. */
  lemma GapBefore(n: nat, m: nat -> Option<nat>, pos: nat, k: nat)
    requires forall i: nat :: m(i).Some? ==> i < m(i).value <= n
    requires forall i: nat :: m(i).Some? ==> m(m(i).value).None?
    requires k < |FindAll(n, m, pos)| && FindAll(n, m, pos)[k].start > pos
    ensures m(FindAll(n, m, pos)[k].start - 1).None?
  {
    var r := FindAll(n, m, pos);
    FindAllComplete(n, m, pos);
    if k == 0 {
      assert NoMatchIn(m, pos, r[0].start);
    } else {
      assert NoMatchIn(m, r[k - 1].end, r[k].start);
      assert m(r[k - 1].start) == Some(r[k - 1].end);
      assert r[k - 1].end != r[k].start;
    }
  }

  /** No match before the first one found. */
  lemma {:induction false} FirstGap(n: nat, m: nat -> Option<nat>, pos: nat)
    requires forall i: nat :: m(i).Some? ==> i < m(i).value <= n
    decreases if pos <= n then n + 1 - pos else 0
    ensures var r := FindAll(n, m, pos);
      NoMatchIn(m, pos, if |r| == 0 then n + 1 else r[0].start)
  {
    if pos > n {
      assert FindAll(n, m, pos) == [];
    } else if m(pos).Some? {
      assert FindAll(n, m, pos)[0].start == pos;
    } else {
      FirstGap(n, m, pos + 1);
      assert FindAll(n, m, pos) == FindAll(n, m, pos + 1);
    }
  }
  /** Where a scan that started at `pos` and found `r` left off. */
  function ScanEnd(r: seq<Span>, pos: nat): nat {
    if |r| == 0 then pos else r[|r| - 1].end
  }

  /** No match after the last one found. */
  lemma {:induction false} LastGap(n: nat, m: nat -> Option<nat>, pos: nat)
    requires forall i: nat :: m(i).Some? ==> i < m(i).value <= n
    decreases if pos <= n then n + 1 - pos else 0
    ensures NoMatchIn(m, ScanEnd(FindAll(n, m, pos), pos), n + 1)
  {
    if pos > n {
      assert FindAll(n, m, pos) == [];
    } else if m(pos).Some? {
      var e := m(pos).value;
      LastGap(n, m, e);
      var rest := FindAll(n, m, e);
      assert FindAll(n, m, pos) == [Span(pos, e)] + rest;
      ScanEndCons(pos, e, rest);
    } else {
      LastGap(n, m, pos + 1);
      assert FindAll(n, m, pos) == FindAll(n, m, pos + 1);
    }
  }

  /** A scan that found a match at `pos` and then `rest` from its end `e`
      left off where the scan from `e` did. */
  lemma ScanEndCons(pos: nat, e: nat, rest: seq<Span>)
    ensures ScanEnd([Span(pos, e)] + rest, pos) == ScanEnd(rest, e)
  {
    var r := [Span(pos, e)] + rest;
    if |rest| > 0 {
      assert r[|r| - 1] == rest[|rest| - 1];
    }
  }

  /** No match starts between two consecutive spans of `r`. */
  ghost predicate NoMatchBetween(m: nat -> Option<nat>, r: seq<Span>) {
    forall k :: 0 < k < |r| ==> NoMatchIn(m, r[k - 1].end, r[k].start)
  }

  lemma NoMatchBetweenCons(m: nat -> Option<nat>, sp: Span, rest: seq<Span>)
    requires NoMatchBetween(m, rest)
    requires |rest| > 0 ==> NoMatchIn(m, sp.end, rest[0].start)
    ensures NoMatchBetween(m, [sp] + rest)
  {
    var r := [sp] + rest;
    forall k | 0 < k < |r| ensures NoMatchIn(m, r[k - 1].end, r[k].start) {
      if k == 1 {
        assert r[0] == sp && r[1] == rest[0];
      } else {
        assert r[k - 1] == rest[k - 2] && r[k] == rest[k - 1];
      }
    }
  }

  /** No match between two consecutive ones found. */
  lemma {:induction false} InnerGaps(n: nat, m: nat -> Option<nat>, pos: nat)
    requires forall i: nat :: m(i).Some? ==> i < m(i).value <= n
    decreases if pos <= n then n + 1 - pos else 0
    ensures NoMatchBetween(m, FindAll(n, m, pos))
  {
    if pos > n {
      assert FindAll(n, m, pos) == [];
    } else if m(pos).Some? {
      var e := m(pos).value;
      InnerGaps(n, m, e);
      FirstGap(n, m, e);
      var rest := FindAll(n, m, e);
      assert FindAll(n, m, pos) == [Span(pos, e)] + rest;
      NoMatchBetweenCons(m, Span(pos, e), rest);
    } else {
      InnerGaps(n, m, pos + 1);
      assert FindAll(n, m, pos) == FindAll(n, m, pos + 1);
    }
  }

  /** The texts of the spans: the list `re.findall` returns. */
  function Texts(s: string, spans: seq<Span>): (r: seq<string>)
    requires forall k :: 0 <= k < |spans| ==> spans[k].start <= spans[k].end <= |s|
    ensures |r| == |spans|
    ensures forall k :: 0 <= k < |r| ==> r[k] == s[spans[k].start..spans[k].end]
  {
    seq(|spans|, k requires 0 <= k < |spans| => s[spans[k].start..spans[k].end])
  }

  /** `max(xs, key=len)`: the index of the first of the longest strings. */
  function FirstLongest(xs: seq<string>): (k: nat)
    requires |xs| > 0
    ensures k < |xs|
    ensures forall j :: 0 <= j < |xs| ==> |xs[j]| <= |xs[k]|
    ensures forall j :: 0 <= j < k ==> |xs[j]| < |xs[k]|
  {
    if |xs| == 1 then 0
    else
      var k := FirstLongest(xs[..|xs| - 1]);
      if |xs[|xs| - 1]| > |xs[k]| then |xs| - 1 else k
  }
}
