/** The regular expressions of the OCR service, each written as a scanner that
    answers "does the pattern match at index i, and where does the match end".

    Each pattern here is deterministic at a given start index: greedy
    quantifiers either take the maximal run or the whole match fails, because
    the character after a shorter run can never start the next part of the
    pattern (digits are never separators, letters are never whitespace). The
    scanners therefore do no backtracking. For the ID and date patterns the
    lemmas `IdScanIsPattern` and `DateScanIsPattern` show the scanner accepts
    exactly the strings of the pattern's language. */
module Patterns {

  import opened Wrappers
  import opened Text

  function Min(a: nat, b: nat): nat {
    if a <= b then a else b
  }

  /** `n` digits start at index `j`. */
  predicate DigitsAt(s: string, j: nat, n: nat) {
    j + n <= |s| && forall k :: j <= k < j + n ==> IsDigit(s[k])
  }

  /** Digits found in a slice are digits of the whole string, and back. */
  lemma DigitsSlice(s: string, i: nat, e: nat, a: nat, n: nat)
    requires i <= e <= |s| && a + n <= e - i
    ensures DigitsAt(s[i..e], a, n) <==> DigitsAt(s, i + a, n)
  {
    var w := s[i..e];
    assert forall k :: a <= k < a + n ==> w[k] == s[i + k];
    if DigitsAt(w, a, n) {
      forall k | i + a <= k < i + a + n ensures IsDigit(s[k]) {
        assert w[k - i] == s[k];
      }
    }
  }

  /** `w` (written in lower case) occurs at index `i` under `re.IGNORECASE`. */
  predicate StartsAtCI(s: string, i: nat, w: string) {
    i + |w| <= |s| && forall k :: 0 <= k < |w| ==> LowerChar(s[i + k]) == w[k]
  }

  // ---------------------------------------------------------------------
  // ID number: 784[-\s]?\d{4}[-\s]?\d{7}[-\s]?\d{1}
  // ---------------------------------------------------------------------

  /** The class `[-\s]`. */
  predicate IsIdSep(c: char) {
    c == '-' || IsSpace(c)
  }

  /** Index after an optional `[-\s]?` at `j`. */
  function OptSep(s: string, j: nat): (k: nat)
    requires j <= |s|
    ensures k == j || (k == j + 1 && j < |s| && IsIdSep(s[j]))
    ensures k == j ==> j == |s| || !IsIdSep(s[j])
  {
    if j < |s| && IsIdSep(s[j]) then j + 1 else j
  }

  /** End of the ID pattern's match starting at index `i`, if it matches there. */
  function MatchIdAt(s: string, i: nat): (r: Option<nat>)
    requires i <= |s|
    ensures r.Some? ==> i + 15 <= r.value <= i + 18 && r.value <= |s|
  {
    if !StartsAt(s, i, "784") then None
    else
      var a := OptSep(s, i + 3);
      if !DigitsAt(s, a, 4) then None
      else
        var b := OptSep(s, a + 4);
        if !DigitsAt(s, b, 7) then None
        else
          var c := OptSep(s, b + 7);
          if !DigitsAt(s, c, 1) then None
          else Some(c + 1)
  }

  /** `w` is "784", a 4-digit group, a 7-digit group and a check digit, each
      group optionally preceded by one `[-\s]` character; `a`, `b` and `c` are
      where the three groups after "784" start. */
  ghost predicate IdSplit(w: string, a: nat, b: nat, c: nat) {
    && 3 <= a <= 4 && a + 4 <= b <= a + 5 && b + 7 <= c <= b + 8 && |w| == c + 1
    && StartsAt(w, 0, "784")
    && (a == 4 ==> IsIdSep(w[3])) && DigitsAt(w, a, 4)
    && (b == a + 5 ==> IsIdSep(w[a + 4])) && DigitsAt(w, b, 7)
    && (c == b + 8 ==> IsIdSep(w[b + 7])) && IsDigit(w[c])
  }

  /** `w` belongs to the language of the ID pattern. */
  ghost predicate IdShape(w: string) {
    exists a, b, c :: IdSplit(w, a, b, c)
  }

  /** The ID scanner matches from `i` to `e` exactly when `s[i..e]` is in the
      pattern's language. */
  lemma IdScanIsPattern(s: string, i: nat, e: nat)
    requires i <= e <= |s|
    ensures MatchIdAt(s, i) == Some(e) <==> IdShape(s[i..e])
  {
    if MatchIdAt(s, i) == Some(e) {
      IdScanSound(s, i);
    }
    if IdShape(s[i..e]) {
      var a: nat, b: nat, c: nat :| IdSplit(s[i..e], a, b, c);
      IdScanComplete(s, i, e, a, b, c);
    }
  }

  lemma IdScanSound(s: string, i: nat)
    requires i <= |s| && MatchIdAt(s, i).Some?
    ensures IdShape(s[i..MatchIdAt(s, i).value])
  {
    var e := MatchIdAt(s, i).value;
    var w := s[i..e];
    var a := OptSep(s, i + 3);
    var b := OptSep(s, a + 4);
    var c := OptSep(s, b + 7);
    assert w[..3] == s[i..i + 3];
    DigitsSlice(s, i, e, a - i, 4);
    DigitsSlice(s, i, e, b - i, 7);
    assert IdSplit(w, a - i, b - i, c - i);
  }

  lemma IdScanComplete(s: string, i: nat, e: nat, a: nat, b: nat, c: nat)
    requires i <= e <= |s| && IdSplit(s[i..e], a, b, c)
    ensures MatchIdAt(s, i) == Some(e)
  {
    var w := s[i..e];
    assert s[i..i + 3] == w[..3];
    DigitsSlice(s, i, e, a, 4);
    DigitsSlice(s, i, e, b, 7);
    DigitsSlice(s, i, e, c, 1);
    assert OptSep(s, i + 3) == i + a by {
      if a == 3 { assert IsDigit(w[3]); }
    }
    assert OptSep(s, i + a + 4) == i + b by {
      if b == a + 4 { assert IsDigit(w[b]); }
    }
    assert OptSep(s, i + b + 7) == i + c by {
      if c == b + 7 { assert IsDigit(w[c]); }
    }
  }

  /** Replacing spaces by dashes keeps a string in the ID pattern's language. */
  lemma IdShapeNormalized(w: string)
    requires IdShape(w)
    ensures IdShape(ReplaceChar(w, ' ', '-'))
  {
    var a: nat, b: nat, c: nat :| IdSplit(w, a, b, c);
    var v := ReplaceChar(w, ' ', '-');
    assert v[..3] == w[..3];
    assert IdSplit(v, a, b, c);
  }

  // ---------------------------------------------------------------------
  // Dates: \d{1,2}[/-]\d{1,2}[/-]\d{4}
  // ---------------------------------------------------------------------

  /** The class `[/-]`. */
  predicate IsDateSep(c: char) {
    c == '/' || c == '-'
  }

  /** End of the date pattern's match starting at index `i`, if any. */
  function MatchDateAt(s: string, i: nat): (r: Option<nat>)
    requires i <= |s|
    ensures r.Some? ==> i + 8 <= r.value <= i + 10 && r.value <= |s|
  {
    var a := Min(Run(s, i, IsDigit), 2);
    if a == 0 || i + a >= |s| || !IsDateSep(s[i + a]) then None
    else
      var j := i + a + 1;
      var b := Min(Run(s, j, IsDigit), 2);
      if b == 0 || j + b >= |s| || !IsDateSep(s[j + b]) then None
      else if DigitsAt(s, j + b + 1, 4) then Some(j + b + 5)
      else None
  }

  /** `w` is one or two digits, a separator at `p`, one or two digits, a
      separator at `q`, and four digits. */
  ghost predicate DateSplit(w: string, p: nat, q: nat) {
    && 1 <= p <= 2 && p + 2 <= q <= p + 3 && |w| == q + 5
    && DigitsAt(w, 0, p) && IsDateSep(w[p])
    && DigitsAt(w, p + 1, q - p - 1) && IsDateSep(w[q])
    && DigitsAt(w, q + 1, 4)
  }

  /** `w` belongs to the language of the date pattern. */
  ghost predicate DateShape(w: string) {
    exists p, q :: DateSplit(w, p, q)
  }

  /** The date scanner matches from `i` to `e` exactly when `s[i..e]` is in the
      pattern's language. */
  lemma DateScanIsPattern(s: string, i: nat, e: nat)
    requires i <= e <= |s|
    ensures MatchDateAt(s, i) == Some(e) <==> DateShape(s[i..e])
  {
    if MatchDateAt(s, i) == Some(e) {
      DateScanSound(s, i);
    }
    if DateShape(s[i..e]) {
      var p: nat, q: nat :| DateSplit(s[i..e], p, q);
      DateScanComplete(s, i, e, p, q);
    }
  }

  lemma DateScanSound(s: string, i: nat)
    requires i <= |s| && MatchDateAt(s, i).Some?
    ensures DateShape(s[i..MatchDateAt(s, i).value])
  {
    var e := MatchDateAt(s, i).value;
    var a := Min(Run(s, i, IsDigit), 2);
    var b := Min(Run(s, i + a + 1, IsDigit), 2);
    DigitsSlice(s, i, e, 0, a);
    DigitsSlice(s, i, e, a + 1, b);
    DigitsSlice(s, i, e, a + b + 2, 4);
    assert DateSplit(s[i..e], a, a + 1 + b);
  }

  lemma DateScanComplete(s: string, i: nat, e: nat, p: nat, q: nat)
    requires i <= e <= |s| && DateSplit(s[i..e], p, q)
    ensures MatchDateAt(s, i) == Some(e)
  {
    var w := s[i..e];
    DigitsSlice(s, i, e, 0, p);
    DigitsSlice(s, i, e, p + 1, q - p - 1);
    DigitsSlice(s, i, e, q + 1, 4);
    assert w[p] == s[i + p] && w[q] == s[i + q];
    RunExact(s, i, p, IsDigit);
    RunExact(s, i + p + 1, q - p - 1, IsDigit);
  }

  // ---------------------------------------------------------------------
  // Names: [A-Z][a-z]+(?:\s+[A-Z][a-z]+)+ under re.IGNORECASE
  // ---------------------------------------------------------------------

  /** No character is both whitespace in the class `sp` and a letter. The
      name scanner and its proofs are stated for any such class `sp` and used
      with `IsSpace`, so that the proofs need not look inside `IsSpace`. */
  ghost predicate ApartFromLetters(sp: char -> bool) {
    forall c :: sp(c) ==> !IsLetter(c)
  }

  lemma SpaceApartFromLetters()
    ensures ApartFromLetters(IsSpace)
  {
  }

  /** One more `\s+[A-Za-z]{2,}` at index `i`, with `sp` standing for `\s`:
      the index after the word, when whitespace and then a word of two
      letters or more follow. */
  function NextWord(s: string, i: nat, sp: char -> bool): (r: Option<nat>)
    requires i <= |s|
    ensures r.Some? ==> i < r.value <= |s|
  {
    var w := Run(s, i, sp);
    if w == 0 then None
    else
      var l := Run(s, i + w, IsLetter);
      if l < 2 then None else Some(i + w + l)
  }

  /** The end of the greedy `(?:\s+[A-Za-z]{2,})*` starting at index `i`. */
  function MoreWords(s: string, i: nat, sp: char -> bool): (e: nat)
    requires i <= |s|
    decreases |s| - i
    ensures i <= e <= |s|
  {
    match NextWord(s, i, sp)
    case None => i
    case Some(j) => MoreWords(s, j, sp)
  }

  /** End of a name match (two or more words of two or more letters) at `i`. */
  function MatchNameBy(s: string, i: nat, sp: char -> bool): (r: Option<nat>)
    requires i <= |s|
    ensures r.Some? ==> i < r.value <= |s|
  {
    var l := Run(s, i, IsLetter);
    if l < 2 then None
    else
      var e := MoreWords(s, i + l, sp);
      if e == i + l then None else Some(e)
  }

  /** End of a match of `[A-Z][a-z]+(?:\s+[A-Z][a-z]+)+` (case-insensitive)
      at `i`. */
  function MatchNameAt(s: string, i: nat): (r: Option<nat>)
    requires i <= |s|
    ensures r.Some? ==> i < r.value <= |s|
  {
    MatchNameBy(s, i, IsSpace)
  }

  /** A letter of `w` at index `k` that starts a word. */
  predicate WordStart(w: string, k: nat)
    requires k < |w|
  {
    IsLetter(w[k]) && (k == 0 || !IsLetter(w[k - 1]))
  }

  /** `w` is two or more whitespace-separated words of two or more letters,
      with no whitespace around them. */
  ghost predicate NameShape(w: string) {
    NameChars(w, IsSpace) && NameWords(w)
  }

  /** `w` is letters and `sp`-whitespace, starts and ends with a letter and
      holds some whitespace: two words at least. */
  ghost predicate NameChars(w: string, sp: char -> bool) {
    && |w| > 0 && IsLetter(w[0]) && IsLetter(w[|w| - 1])
    && (forall k :: 0 <= k < |w| ==> IsLetter(w[k]) || sp(w[k]))
    && (exists k :: 0 <= k < |w| && sp(w[k]))
  }

  /** Every word of `w` has two letters or more. */
  ghost predicate NameWords(w: string) {
    forall k :: 0 <= k < |w| && WordStart(w, k) ==> k + 1 < |w| && IsLetter(w[k + 1])
  }

  /** `s[i..j]` is whitespace up to `m`, then two letters or more, and no
      letter follows. */
  ghost predicate WordStep(s: string, i: nat, m: nat, j: nat, sp: char -> bool) {
    && i < m && m + 2 <= j <= |s|
    && (forall k :: i <= k < m ==> sp(s[k]))
    && (forall k :: m <= k < j ==> IsLetter(s[k]))
    && (j == |s| || !IsLetter(s[j]))
  }

  /** What `NextWord` consumes is a `WordStep`. */
  lemma NextWordStep(s: string, i: nat, sp: char -> bool)
    requires i <= |s| && NextWord(s, i, sp).Some?
    ensures WordStep(s, i, i + Run(s, i, sp), NextWord(s, i, sp).value, sp)
  {
  }

  /** `s[i..e]` is letters and `sp`-whitespace. */
  ghost predicate Spelled(s: string, i: nat, e: nat, sp: char -> bool)
    requires i <= e <= |s|
  {
    forall k :: i <= k < e ==> IsLetter(s[k]) || sp(s[k])
  }

  /** `s[i..e]`, unless empty, starts with whitespace and ends with a letter,
      and no letter follows it. */
  ghost predicate WordsEnd(s: string, i: nat, e: nat, sp: char -> bool)
    requires i <= e <= |s|
  {
    && (e > i ==> IsLetter(s[e - 1]) && sp(s[i]))
    && (e == |s| || !IsLetter(s[e]))
  }

  /** Every word starting in `s[i..e]` has two letters or more inside it. */
  ghost predicate WordsLong(s: string, i: nat, e: nat)
    requires i <= e <= |s|
  {
    forall k :: i <= k < e && WordStart(s, k) ==> k + 1 < e && IsLetter(s[k + 1])
  }

  /** What `MoreWords` consumes is letters and whitespace. */
  lemma {:induction false} MoreWordsChars(s: string, i: nat, sp: char -> bool)
    requires i <= |s|
    decreases |s| - i
    ensures Spelled(s, i, MoreWords(s, i, sp), sp)
  {
    match NextWord(s, i, sp)
    case None =>
    case Some(j) =>
      NextWordStep(s, i, sp);
      MoreWordsChars(s, j, sp);
      CharsStep(s, i, i + Run(s, i, sp), j, MoreWords(s, j, sp), sp);
  }

  lemma CharsStep(s: string, i: nat, m: nat, j: nat, e: nat, sp: char -> bool)
    requires WordStep(s, i, m, j, sp) && j <= e <= |s| && Spelled(s, j, e, sp)
    ensures Spelled(s, i, e, sp)
  {
  }

  /** What `MoreWords` consumes from a point no letter continues starts with
      whitespace and ends with a letter, and no letter follows it. */
  lemma {:induction false} MoreWordsEnds(s: string, i: nat, sp: char -> bool)
    requires i <= |s| && (i == |s| || !IsLetter(s[i]))
    decreases |s| - i
    ensures WordsEnd(s, i, MoreWords(s, i, sp), sp)
  {
    match NextWord(s, i, sp)
    case None =>
    case Some(j) =>
      NextWordStep(s, i, sp);
      MoreWordsEnds(s, j, sp);
      EndsStep(s, i, i + Run(s, i, sp), j, MoreWords(s, j, sp), sp);
  }

  lemma EndsStep(s: string, i: nat, m: nat, j: nat, e: nat, sp: char -> bool)
    requires WordStep(s, i, m, j, sp) && j <= e <= |s| && WordsEnd(s, j, e, sp)
    ensures WordsEnd(s, i, e, sp)
  {
  }

  /** Every word `MoreWords` consumes has two letters or more. */
  lemma {:induction false} MoreWordsWords(s: string, i: nat, sp: char -> bool)
    requires ApartFromLetters(sp) && i <= |s|
    decreases |s| - i
    ensures WordsLong(s, i, MoreWords(s, i, sp))
  {
    match NextWord(s, i, sp)
    case None =>
    case Some(j) =>
      NextWordStep(s, i, sp);
      MoreWordsWords(s, j, sp);
      WordsStep(s, i, i + Run(s, i, sp), j, MoreWords(s, j, sp), sp);
  }

  lemma WordsStep(s: string, i: nat, m: nat, j: nat, e: nat, sp: char -> bool)
    requires ApartFromLetters(sp)
    requires WordStep(s, i, m, j, sp) && j <= e <= |s| && WordsLong(s, j, e)
    ensures WordsLong(s, i, e)
  {
    forall k | i <= k < e && WordStart(s, k) ensures k + 1 < e && IsLetter(s[k + 1]) {
      if k == m {
        assert IsLetter(s[k + 1]);
      }
    }
  }

  /** A name match is a name-shaped string that a letter does not continue. */
  lemma NameMatchShape(s: string, i: nat)
    requires i <= |s| && MatchNameAt(s, i).Some?
    ensures var e := MatchNameAt(s, i).value;
      NameShape(s[i..e]) && (e == |s| || !IsLetter(s[e]))
  {
    SpaceApartFromLetters();
    NameMatchChars(s, i, IsSpace);
    NameMatchWords(s, i, IsSpace);
    NameMatchEnd(s, i, IsSpace);
  }

  /** The converse: wherever a name-shaped stretch `s[i..j]` starts, the
      scanner matches, and its greedy match reaches at least to `j`. So the
      match at `i` ends exactly at the longest name-shaped stretch from `i`,
      and there is one exactly when some stretch from `i` is name-shaped. */
  lemma NameShapeMatched(s: string, i: nat, j: nat)
    requires i <= j <= |s| && NameShape(s[i..j])
    ensures MatchNameAt(s, i).Some? && j <= MatchNameAt(s, i).value
  {
    SpaceApartFromLetters();
    NameCharsMatched(s, i, j, IsSpace);
  }

  /** The name scanner accepts the language of the pattern: it matches at
      `i` exactly when some stretch from `i` is name-shaped, and its match
      is the longest such stretch, as the greedy pattern's is. */
  lemma NameScanIsPattern(s: string, i: nat)
    requires i <= |s|
    ensures MatchNameAt(s, i).Some? <==> exists j :: i <= j <= |s| && NameShape(s[i..j])
    ensures MatchNameAt(s, i).Some? ==> NameShape(s[i..MatchNameAt(s, i).value])
    ensures MatchNameAt(s, i).Some? ==>
              forall j :: i <= j <= |s| && NameShape(s[i..j]) ==> j <= MatchNameAt(s, i).value
  {
    if MatchNameAt(s, i).Some? {
      NameMatchShape(s, i);
      forall j | i <= j <= |s| && NameShape(s[i..j]) ensures j <= MatchNameAt(s, i).value {
        NameShapeMatched(s, i, j);
      }
    }
    if exists j :: i <= j <= |s| && NameShape(s[i..j]) {
      var j :| i <= j <= |s| && NameShape(s[i..j]);
      NameShapeMatched(s, i, j);
    }
  }

  /** `NameShapeMatched` for any whitespace class `sp` apart from letters. */
  lemma NameCharsMatched(s: string, i: nat, j: nat, sp: char -> bool)
    requires ApartFromLetters(sp)
    requires i <= j <= |s| && NameChars(s[i..j], sp) && NameWords(s[i..j])
    ensures MatchNameBy(s, i, sp).Some? && j <= MatchNameBy(s, i, sp).value
  {
    var w := s[i..j];
    var l := Run(s, i, IsLetter);
    assert WordStart(w, 0);
    assert w[0] == s[i] && w[1] == s[i + 1];
    RunAtLeastTwo(s, i);
    var c :| 0 <= c < |w| && sp(w[c]);
    assert s[i + c] == w[c];
    assert l <= c;
    assert w[l] == s[i + l];
    SliceTailSpelled(s, i, j, l, sp);
    SliceTailWords(s, i, j, l);
    assert w[|w| - 1] == s[j - 1];
    MoreWordsReach(s, i + l, j, sp);
  }

  lemma SliceTailSpelled(s: string, i: nat, j: nat, l: nat, sp: char -> bool)
    requires i + l <= j <= |s| && |s[i..j]| > 0
    requires forall k :: 0 <= k < |s[i..j]| ==> IsLetter(s[i..j][k]) || sp(s[i..j][k])
    ensures Spelled(s, i + l, j, sp)
  {
    forall k | i + l <= k < j ensures IsLetter(s[k]) || sp(s[k]) {
      assert s[k] == s[i..j][k - i];
    }
  }

  lemma SliceTailWords(s: string, i: nat, j: nat, l: nat)
    requires 0 < l && i + l <= j <= |s| && NameWords(s[i..j])
    ensures WordsLong(s, i + l, j)
  {
    var w := s[i..j];
    forall k | i + l <= k < j && WordStart(s, k) ensures k + 1 < j && IsLetter(s[k + 1]) {
      SliceWordStart(s, i, j, k - i);
      assert s[k + 1] == w[k - i + 1];
    }
  }

  /** Two letters at `i` make a letter run of two or more there. */
  lemma RunAtLeastTwo(s: string, i: nat)
    requires i + 1 < |s| && IsLetter(s[i]) && IsLetter(s[i + 1])
    ensures Run(s, i, IsLetter) >= 2
  {
    assert Run(s, i, IsLetter) == 1 + Run(s, i + 1, IsLetter);
  }

  /** From a non-letter `p`, a stretch up to `j` of letters and whitespace
      whose words have two letters or more and that ends with a letter is
      all consumed by the further words of a name. */
  lemma {:induction false} MoreWordsReach(s: string, p: nat, j: nat, sp: char -> bool)
    requires ApartFromLetters(sp)
    requires p <= j <= |s| && Spelled(s, p, j, sp) && WordsLong(s, p, j)
    requires p < j ==> IsLetter(s[j - 1]) && !IsLetter(s[p])
    decreases |s| - p
    ensures j <= MoreWords(s, p, sp)
  {
    if p < j {
      var w := Run(s, p, sp);
      var m := p + w;
      assert sp(s[p]);
      assert !sp(s[j - 1]);
      assert m < j;
      assert IsLetter(s[m]) && WordStart(s, m);
      RunAtLeastTwo(s, m);
      var q := m + Run(s, m, IsLetter);
      assert NextWord(s, p, sp) == Some(q);
      if q < j {
        MoreWordsReach(s, q, j, sp);
      }
    }
  }

  /** A name match is a first word of two letters or more, which the
      further words extend. */
  lemma MatchNameParts(s: string, i: nat, sp: char -> bool)
    requires i <= |s| && MatchNameBy(s, i, sp).Some?
    ensures var l := Run(s, i, IsLetter);
      && 2 <= l && i + l < MatchNameBy(s, i, sp).value
      && MatchNameBy(s, i, sp).value == MoreWords(s, i + l, sp)
      && (forall k :: i <= k < i + l ==> IsLetter(s[k]))
      && (i + l == |s| || !IsLetter(s[i + l]))
  {
  }

  /** No letter follows a name match. */
  lemma NameMatchEnd(s: string, i: nat, sp: char -> bool)
    requires i <= |s| && MatchNameBy(s, i, sp).Some?
    ensures var e := MatchNameBy(s, i, sp).value;
      e == |s| || !IsLetter(s[e])
  {
    MatchNameParts(s, i, sp);
    MoreWordsEnds(s, i + Run(s, i, IsLetter), sp);
  }

  lemma NameMatchChars(s: string, i: nat, sp: char -> bool)
    requires i <= |s| && MatchNameBy(s, i, sp).Some?
    ensures NameChars(s[i..MatchNameBy(s, i, sp).value], sp)
  {
    MatchNameParts(s, i, sp);
    var l := Run(s, i, IsLetter);
    MoreWordsChars(s, i + l, sp);
    MoreWordsEnds(s, i + l, sp);
    SliceNameChars(s, i, MatchNameBy(s, i, sp).value, l, sp);
  }

  /** A word followed by letters and whitespace that start with whitespace
      and end with a letter is `NameChars`. */
  lemma SliceNameChars(s: string, i: nat, e: nat, l: nat, sp: char -> bool)
    requires 0 < l && i + l < e <= |s|
    requires forall k :: i <= k < i + l ==> IsLetter(s[k])
    requires Spelled(s, i + l, e, sp) && WordsEnd(s, i + l, e, sp)
    ensures NameChars(s[i..e], sp)
  {
    var w := s[i..e];
    assert w[0] == s[i] && w[|w| - 1] == s[e - 1];
    assert sp(w[l]) by { assert w[l] == s[i + l]; }
    forall k | 0 <= k < |w| ensures IsLetter(w[k]) || sp(w[k]) {
      assert w[k] == s[i + k];
    }
  }

  lemma NameMatchWords(s: string, i: nat, sp: char -> bool)
    requires ApartFromLetters(sp)
    requires i <= |s| && MatchNameBy(s, i, sp).Some?
    ensures NameWords(s[i..MatchNameBy(s, i, sp).value])
  {
    MatchNameParts(s, i, sp);
    var l := Run(s, i, IsLetter);
    MoreWordsWords(s, i + l, sp);
    SliceNameWords(s, i, MatchNameBy(s, i, sp).value, l);
  }

  /** A word of two letters or more, followed by a stretch whose every word
      has two letters or more, has only words of two letters or more. */
  lemma SliceNameWords(s: string, i: nat, e: nat, l: nat)
    requires 2 <= l && i + l <= e <= |s|
    requires forall k :: i <= k < i + l ==> IsLetter(s[k])
    requires WordsLong(s, i + l, e)
    ensures NameWords(s[i..e])
  {
    var w := s[i..e];
    forall k | 0 <= k < |w| && WordStart(w, k) ensures k + 1 < |w| && IsLetter(w[k + 1]) {
      if k >= l {
        SliceWordStart(s, i, e, k);
        assert w[k + 1] == s[i + k + 1];
      } else if k > 0 {
        assert false;
      } else {
        assert w[1] == s[i + 1];
      }
    }
  }

  /** Inside a slice, a word starts where it starts in the whole string. */
  lemma SliceWordStart(s: string, i: nat, e: nat, k: nat)
    requires i <= e <= |s| && 0 < k < e - i
    ensures WordStart(s[i..e], k) <==> WordStart(s, i + k)
  {
    assert s[i..e][k] == s[i + k] && s[i..e][k - 1] == s[i + k - 1];
  }

  // ---------------------------------------------------------------------
  // Labels: (?:name|اسم)[:\s]+ and (?:issue|issued|تاريخ\s*الإصدار)[:\s]+
  // ---------------------------------------------------------------------

  /** The Arabic word for "name", U+0627 U+0633 U+0645. */
  const ArabicName: string := "\U{0627}\U{0633}\U{0645}"
  /** The Arabic word for "date", U+062A U+0627 U+0631 U+064A U+062E. */
  const ArabicDate: string := "\U{062a}\U{0627}\U{0631}\U{064a}\U{062e}"
  /** The Arabic word for "issuance", U+0627 U+0644 U+0625 U+0635 U+062F U+0627 U+0631. */
  const ArabicIssuance: string := "\U{0627}\U{0644}\U{0625}\U{0635}\U{062f}\U{0627}\U{0631}"

  /** The class `[:\s]`. */
  predicate IsLabelSep(c: char) {
    c == ':' || IsSpace(c)
  }

  /** End of the label `name` (any case) or its Arabic counterpart at `i`. */
  function NameLabelAt(s: string, i: nat): (r: Option<nat>)
    requires i <= |s|
    ensures r.Some? ==> i < r.value <= |s|
    ensures r.Some? <==> StartsAtCI(s, i, "name") || StartsAt(s, i, ArabicName)
  {
    if StartsAtCI(s, i, "name") then Some(i + 4)
    else if StartsAt(s, i, ArabicName) then Some(i + 3)
    else None
  }

  /** Group 1 of the labelled name pattern matched at index `i`. */
  function MatchLabelledNameAt(s: string, i: nat): (r: Option<Span>)
    requires i <= |s|
    ensures r.Some? ==> i < r.value.start < r.value.end <= |s|
    ensures r.Some? ==> MatchNameAt(s, r.value.start) == Some(r.value.end)
    ensures r.Some? ==> NameLabelAt(s, i).Some?
  {
    match NameLabelAt(s, i)
    case None => None
    case Some(j) =>
      var w := Run(s, j, IsLabelSep);
      if w == 0 then None
      else match MatchNameAt(s, j + w)
        case None => None
        case Some(e) => Some(Span(j + w, e))
  }

  /** `[:\s]+` then a date, from index `j`: the span of the date. */
  function LabelledDateFrom(s: string, j: nat): (r: Option<Span>)
    requires j <= |s|
    ensures r.Some? ==> j < r.value.start < r.value.end <= |s|
    ensures r.Some? ==> MatchDateAt(s, r.value.start) == Some(r.value.end)
  {
    var w := Run(s, j, IsLabelSep);
    if w == 0 then None
    else match MatchDateAt(s, j + w)
      case None => None
      case Some(e) => Some(Span(j + w, e))
  }

  /** Group 1 of the issue-date pattern matched at index `i`: the alternatives
      are tried in the order "issue", "issued", Arabic "date of issuance". */
  function MatchIssueAt(s: string, i: nat): (r: Option<Span>)
    requires i <= |s|
    ensures r.Some? ==> i < r.value.start < r.value.end <= |s|
    ensures r.Some? ==> MatchDateAt(s, r.value.start) == Some(r.value.end)
  {
    var first := if StartsAtCI(s, i, "issue") then LabelledDateFrom(s, i + 5) else None;
    if first.Some? then first
    else
      var second := if StartsAtCI(s, i, "issued") then LabelledDateFrom(s, i + 6) else None;
      if second.Some? then second
      else if StartsAt(s, i, ArabicDate) then
        var j := i + 5 + Run(s, i + 5, IsSpace);
        if StartsAt(s, j, ArabicIssuance) then LabelledDateFrom(s, j + 7) else None
      else None
  }

  // ---------------------------------------------------------------------
  // Whole words: \b(w1|w2|...)\b under re.IGNORECASE
  // ---------------------------------------------------------------------

  /** One of the lower-case alternatives `ws` matches at `i` between word boundaries. */
  predicate WholeWordAt(s: string, i: nat, ws: seq<string>)
    requires i <= |s|
  {
    Boundary(s, i) && exists k | 0 <= k < |ws| :: StartsAtCI(s, i, ws[k]) && Boundary(s, i + |ws[k]|)
  }

  // ---------------------------------------------------------------------
  // Card numbers: \b\d{9,}\b, and Arabic runs: [\u0600-\u06FF\s]+
  // ---------------------------------------------------------------------

  /** End of a card-number match at `i`: nine or more digits between word boundaries. */
  function MatchCardAt(s: string, i: nat): (r: Option<nat>)
    requires i <= |s|
    ensures r.Some? ==> i + 9 <= r.value <= |s|
    ensures r.Some? ==> DigitsAt(s, i, r.value - i)
  {
    var l := Run(s, i, IsDigit);
    if Boundary(s, i) && l >= 9 && Boundary(s, i + l) then Some(i + l) else None
  }

  /** The class `[\u0600-\u06FF\s]`. */
  predicate IsArabicOrSpace(c: char) {
    IsArabicBlock(c) || IsSpace(c)
  }

  /** End of a greedy `[\u0600-\u06FF\s]+` at `i`. */
  function MatchArabicRunAt(s: string, i: nat): (r: Option<nat>)
    requires i <= |s|
    ensures r.Some? ==> i < r.value <= |s|
    ensures r.Some? ==> forall k :: i <= k < r.value ==> IsArabicOrSpace(s[k])
  {
    var l := Run(s, i, IsArabicOrSpace);
    if l > 0 then Some(i + l) else None
  }
}
