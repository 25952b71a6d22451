/** `_parse_front_side`: the fields read off the text of the front of the
    card, one rule per field, each rule a regular-expression search or a
    keyword test on the raw text. */
module FrontSide {

  import opened Wrappers
  import opened Text
  import opened Patterns
  import opened Fields
  import opened IdNumber

  // ---------------------------------------------------------------------
  // Dates: re.findall(r'\d{1,2}[/-]\d{1,2}[/-]\d{4}', raw_text)
  // ---------------------------------------------------------------------

  /** The date scanner as a match function over the whole text. */
  function DateMatcher(s: string): (m: nat -> Option<nat>)
    ensures forall i: nat :: m(i).Some? ==> i < m(i).value <= |s|
    ensures forall i: nat :: i <= |s| ==> m(i) == MatchDateAt(s, i)
  {
    (i: nat) => if i <= |s| then MatchDateAt(s, i) else None
  }

  /** The spans of the dates `re.findall` reports, left to right. */
  function DateSpans(s: string): (r: seq<Span>)
    ensures forall k :: 0 <= k < |r| ==> r[k].start < r[k].end <= |s|
    ensures forall k :: 0 <= k < |r| ==> MatchDateAt(s, r[k].start) == Some(r[k].end)
  {
    FindAll(|s|, DateMatcher(s), 0)
  }

  /** The date strings `re.findall` returns: every one is in the date
      pattern's language, and there are none exactly when no substring of
      the text is. */
  function FindDates(s: string): (r: seq<string>)
    ensures |r| == |DateSpans(s)|
    ensures forall k :: 0 <= k < |r| ==> DateShape(r[k])
    ensures |r| == 0 <==> forall i, e :: 0 <= i <= e <= |s| ==> !DateShape(s[i..e])
  {
    var spans := DateSpans(s);
    var r := Texts(s, spans);
    forall k | 0 <= k < |r| ensures DateShape(r[k]) {
      DateScanIsPattern(s, spans[k].start, spans[k].end);
    }
    NoDatesIffNoShape(s);
    r
  }

  lemma NoDatesIffNoShape(s: string)
    ensures |DateSpans(s)| == 0 <==> forall i, e :: 0 <= i <= e <= |s| ==> !DateShape(s[i..e])
  {
    var m := DateMatcher(s);
    FindAllComplete(|s|, m, 0);
    if |DateSpans(s)| == 0 {
      forall i, e | 0 <= i <= e <= |s| ensures !DateShape(s[i..e]) {
        DateScanIsPattern(s, i, e);
        assert m(i).None?;
      }
    } else {
      var sp := DateSpans(s)[0];
      DateScanIsPattern(s, sp.start, sp.end);
    }
  }

  /** The first date found is the leftmost date-shaped substring of the text. */
  lemma FirstDateIsLeftmost(s: string)
    requires |FindDates(s)| > 0
    ensures var sp := DateSpans(s)[0];
      && FindDates(s)[0] == s[sp.start..sp.end]
      && forall i, e :: 0 <= i < sp.start && i <= e <= |s| ==> !DateShape(s[i..e])
  {
    var m := DateMatcher(s);
    FindAllComplete(|s|, m, 0);
    var sp := DateSpans(s)[0];
    forall i, e | 0 <= i < sp.start && i <= e <= |s| ensures !DateShape(s[i..e]) {
      DateScanIsPattern(s, i, e);
      assert m(i).None?;
    }
  }

  /** `'expiry' in t or 'exp' in t`. */
  predicate MentionsExpiry(s: string) {
    Contains(Lower(s), "expiry") || Contains(Lower(s), "exp")
  }

  /** The "expiry" test is redundant: the text mentions expiry exactly when
      its lower-cased form contains "exp" anywhere. */
  lemma MentionsExpiryIsExp(s: string)
    ensures MentionsExpiry(s) <==> Contains(Lower(s), "exp")
  {
    var t := Lower(s);
    if Contains(t, "expiry") {
      var i :| 0 <= i <= |t| && StartsAt(t, i, "expiry");
      assert t[i..i + 3] == t[i..i + 6][..3];
      assert StartsAt(t, i, "exp");
    }
  }

  /** How the dates found are assigned: two or more give the date of birth
      and the expiry date in order of appearance, one goes to the expiry date
      when the text mentions expiry and to the date of birth otherwise. */
  function AssignDates(s: string, dates: seq<string>, m: FieldMap): (r: FieldMap)
    ensures |dates| >= 2 ==> r == m[DateOfBirthKey := dates[0]][ExpiryDateKey := dates[1]]
    ensures |dates| == 1 && Contains(Lower(s), "exp") ==> r == m[ExpiryDateKey := dates[0]]
    ensures |dates| == 1 && !Contains(Lower(s), "exp") ==> r == m[DateOfBirthKey := dates[0]]
    ensures |dates| == 0 ==> r == m
  {
    MentionsExpiryIsExp(s);
    if |dates| >= 2 then m[DateOfBirthKey := dates[0]][ExpiryDateKey := dates[1]]
    else if |dates| == 1 then
      if MentionsExpiry(s) then m[ExpiryDateKey := dates[0]] else m[DateOfBirthKey := dates[0]]
    else m
  }

  // ---------------------------------------------------------------------
  // Name: labelled pattern first, then the pattern anchored at the start
  // ---------------------------------------------------------------------

  /** The labelled name pattern matches at index `i`. */
  predicate LabelledNameAt(s: string, i: nat) {
    i <= |s| && MatchLabelledNameAt(s, i).Some?
  }

  /** No labelled name match starts before index `i`. */
  predicate NoLabelledNameBefore(s: string, i: nat) {
    forall j :: 0 <= j < i ==> !LabelledNameAt(s, j)
  }

  /** `re.search` with the labelled name pattern: the span of group 1 of the
      leftmost match. */
  function SearchLabelledName(s: string): (r: Option<Span>)
    ensures r.Some? ==> r.value.start < r.value.end <= |s|
    ensures r.Some? ==> MatchNameAt(s, r.value.start) == Some(r.value.end)
  {
    match Leftmost((i: nat) => LabelledNameAt(s, i), 0, |s|)
    case None => None
    case Some(i) => MatchLabelledNameAt(s, i)
  }

  /** The search finds nothing exactly when the pattern matches nowhere. */
  lemma SearchLabelledNameNone(s: string)
    ensures SearchLabelledName(s).None? <==> NoLabelledNameBefore(s, |s| + 1)
  {
    var p: nat -> bool := (i: nat) => LabelledNameAt(s, i);
    match Leftmost(p, 0, |s|)
    case None =>
      forall j | 0 <= j < |s| + 1 ensures !LabelledNameAt(s, j) { assert !p(j); }
    case Some(i) =>
      assert p(i);
  }

  /** What the search finds is the match at the leftmost index where the
      pattern matches. */
  lemma SearchLabelledNameLeftmost(s: string)
    requires SearchLabelledName(s).Some?
    ensures exists i :: 0 <= i <= |s| && MatchLabelledNameAt(s, i) == SearchLabelledName(s) && NoLabelledNameBefore(s, i)
  {
    var p: nat -> bool := (i: nat) => LabelledNameAt(s, i);
    var i := Leftmost(p, 0, |s|).value;
    forall j | 0 <= j < i ensures !LabelledNameAt(s, j) { assert !p(j); }
    assert MatchLabelledNameAt(s, i) == SearchLabelledName(s);
  }

  /** A name-shaped string has no surrounding whitespace, so `.strip()`
      leaves it unchanged. */
  lemma StripName(w: string)
    requires NameShape(w)
    ensures Strip(w) == w
  {
    SpaceApartFromLetters();
    assert !IsSpace(w[0]) && !IsSpace(w[|w| - 1]);
    var a, b :| 0 <= a <= b <= |w| && Strip(w) == w[a..b]
                && (forall k :: 0 <= k < a ==> IsSpace(w[k]))
                && (forall k :: b <= k < |w| ==> IsSpace(w[k]));
    assert a == 0;
    assert b == |w|;
  }

  /** The text of a name match. */
  function NameText(s: string, i: nat, e: nat): (r: string)
    requires i <= |s| && MatchNameAt(s, i) == Some(e)
    ensures NameShape(r) && r == s[i..e]
  {
    NameMatchShape(s, i);
    StripName(s[i..e]);
    Strip(s[i..e])
  }

  /** The name: group 1 of the leftmost labelled match when there is one,
      otherwise the name pattern at the very start of the text, stripped. A
      name found is two or more words of two or more letters, with no
      surrounding whitespace. */
  function NameField(s: string): (r: Option<string>)
    ensures r.Some? ==> NameShape(r.value)
    ensures SearchLabelledName(s).Some? ==>
              r == Some(s[SearchLabelledName(s).value.start..SearchLabelledName(s).value.end])
    ensures SearchLabelledName(s).None? ==>
              (r.Some? <==> MatchNameAt(s, 0).Some?)
              && (r.Some? ==> r.value == s[..MatchNameAt(s, 0).value])
  {
    match SearchLabelledName(s)
    case Some(sp) => Some(NameText(s, sp.start, sp.end))
    case None =>
      match MatchNameAt(s, 0)
      case Some(e) => Some(NameText(s, 0, e))
      case None => None
  }

  // ---------------------------------------------------------------------
  // Arabic name: the longest run of [\u0600-\u06FF\s]+, stripped, if longer than 3
  // ---------------------------------------------------------------------

  function ArabicMatcher(s: string): (m: nat -> Option<nat>)
    ensures forall i: nat :: m(i).Some? ==> i < m(i).value <= |s|
    ensures forall i: nat :: i <= |s| ==> m(i) == MatchArabicRunAt(s, i)
  {
    (i: nat) => if i <= |s| then MatchArabicRunAt(s, i) else None
  }

  /** The spans of `re.findall(r'[\u0600-\u06FF\s]+', raw_text)`. */
  function ArabicSpans(s: string): (r: seq<Span>)
    ensures forall k :: 0 <= k < |r| ==> r[k].start < r[k].end <= |s|
    ensures forall k :: 0 <= k < |r| ==> MatchArabicRunAt(s, r[k].start) == Some(r[k].end)
  {
    FindAll(|s|, ArabicMatcher(s), 0)
  }

  /** The runs `re.findall(r'[\u0600-\u06FF\s]+', raw_text)` returns. */
  function ArabicRuns(s: string): (r: seq<string>)
    ensures |r| == |ArabicSpans(s)|
    ensures forall k, j :: 0 <= k < |r| && 0 <= j < |r[k]| ==> IsArabicOrSpace(r[k][j])
    ensures forall k :: 0 <= k < |r| ==> |r[k]| > 0
  {
    var spans := ArabicSpans(s);
    var r := Texts(s, spans);
    forall k, j | 0 <= k < |r| && 0 <= j < |r[k]| ensures IsArabicOrSpace(r[k][j]) {
      assert r[k][j] == s[spans[k].start + j];
    }
    r
  }

  /** There is no Arabic run exactly when no character of the text is an
      Arabic-block character or whitespace. */
  lemma NoArabicRunsIffNoClassChar(s: string)
    ensures |ArabicRuns(s)| == 0 <==> forall i :: 0 <= i < |s| ==> !IsArabicOrSpace(s[i])
  {
    var m := ArabicMatcher(s);
    FindAllComplete(|s|, m, 0);
    if |ArabicSpans(s)| == 0 {
      forall i | 0 <= i < |s| ensures !IsArabicOrSpace(s[i]) {
        assert m(i).None?;
      }
    } else {
      var sp := ArabicSpans(s)[0];
      assert IsArabicOrSpace(s[sp.start]);
    }
  }

  /** An Arabic run is maximal: the characters just before and just after
      it are outside the class. */
  lemma ArabicRunMaximal(s: string, k: nat)
    requires k < |ArabicSpans(s)|
    ensures var sp := ArabicSpans(s)[k];
      && (sp.start == 0 || !IsArabicOrSpace(s[sp.start - 1]))
      && (sp.end == |s| || !IsArabicOrSpace(s[sp.end]))
  {
    var sp := ArabicSpans(s)[k];
    var m := ArabicMatcher(s);
    ArabicMatchesApart(s);
    if sp.start > 0 {
      GapBefore(|s|, m, 0, k);
      assert MatchArabicRunAt(s, sp.start - 1).None?;
    }
  }

  /** Every Arabic-block or whitespace character of the text lies in some
      run found. */
  lemma ArabicRunsCover(s: string, i: nat)
    requires i < |s| && IsArabicOrSpace(s[i])
    ensures exists k :: 0 <= k < |ArabicSpans(s)| && ArabicSpans(s)[k].start <= i < ArabicSpans(s)[k].end
  {
    assert ArabicMatcher(s)(i).Some?;
    Covered(|s|, ArabicMatcher(s), 0, i);
    var spans := ArabicSpans(s);
    var k :| 0 <= k < |spans| && spans[k].start <= i < spans[k].end;
  }

  /** An Arabic run ends where no run starts. */
  lemma ArabicMatchesApart(s: string)
    ensures forall i: nat :: ArabicMatcher(s)(i).Some? ==> ArabicMatcher(s)(ArabicMatcher(s)(i).value).None?
  {
    var m := ArabicMatcher(s);
    forall i: nat | m(i).Some? ensures m(m(i).value).None? {
      RunEndsRun(s, i, IsArabicOrSpace);
    }
  }

  /** The Arabic name: the first of the longest runs, stripped, kept when it
      has more than three characters. It is Arabic-block characters and
      whitespace, starts and ends with a non-whitespace character, and is
      the stripped form of a run no shorter than any other. */
  function ArabicNameField(s: string): (r: Option<string>)
    ensures r.Some? ==> |r.value| > 3
    ensures r.Some? ==> forall j :: 0 <= j < |r.value| ==> IsArabicOrSpace(r.value[j])
    ensures r.Some? ==> !IsSpace(r.value[0]) && !IsSpace(r.value[|r.value| - 1])
    ensures r.Some? <==> |ArabicRuns(s)| > 0 && |Strip(ArabicRuns(s)[FirstLongest(ArabicRuns(s))])| > 3
    ensures r.Some? ==> r.value == Strip(ArabicRuns(s)[FirstLongest(ArabicRuns(s))])
  {
    var runs := ArabicRuns(s);
    if |runs| == 0 then None
    else
      var k := FirstLongest(runs);
      var a := Strip(runs[k]);
      StripKeepsClass(runs[k]);
      if |a| > 3 then Some(a) else None
  }

  /** The Arabic name is the stripped form of the first of the longest runs:
      no run is longer, and every run before it is shorter. */
  lemma ArabicNameIsFirstLongest(s: string)
    requires ArabicNameField(s).Some?
    ensures var runs := ArabicRuns(s);
      exists k :: 0 <= k < |runs| && ArabicNameField(s).value == Strip(runs[k])
        && (forall j :: 0 <= j < |runs| ==> |runs[j]| <= |runs[k]|)
        && (forall j :: 0 <= j < k ==> |runs[j]| < |runs[k]|)
  {
    var k := FirstLongest(ArabicRuns(s));
  }

  /** Stripping keeps only characters of the string. */
  lemma StripKeepsClass(x: string)
    requires forall j :: 0 <= j < |x| ==> IsArabicOrSpace(x[j])
    ensures forall j :: 0 <= j < |Strip(x)| ==> IsArabicOrSpace(Strip(x)[j])
  {
    var a, b :| 0 <= a <= b <= |x| && Strip(x) == x[a..b];
    assert forall j :: 0 <= j < b - a ==> x[a..b][j] == x[a + j];
  }

  // ---------------------------------------------------------------------
  // Nationality: the first keyword of the list found in the text
  // ---------------------------------------------------------------------

  const Nationalities: seq<string> :=
    ["Filipino", "Indian", "Pakistani", "Bangladeshi", "Egyptian", "Lebanese"]

  /** `keyword.lower() in raw_text.lower()`. */
  predicate Mentions(s: string, keyword: string) {
    Contains(Lower(s), Lower(keyword))
  }

  /** Index of the first keyword of `ks` (from `k` on) that the text mentions. */
  function FirstMentioned(s: string, ks: seq<string>, k: nat): (r: Option<nat>)
    requires k <= |ks|
    decreases |ks| - k
    ensures r.Some? ==> k <= r.value < |ks| && Mentions(s, ks[r.value])
    ensures r.Some? ==> forall j :: k <= j < r.value ==> !Mentions(s, ks[j])
    ensures r.None? ==> forall j :: k <= j < |ks| ==> !Mentions(s, ks[j])
  {
    if k == |ks| then None
    else if Mentions(s, ks[k]) then Some(k)
    else FirstMentioned(s, ks, k + 1)
  }

  /** The nationality: the first keyword, in list order, whose lower-case
      form occurs in the lower-cased text, in its canonical spelling. */
  function NationalityField(s: string): (r: Option<string>)
    ensures r.None? <==> forall j :: 0 <= j < |Nationalities| ==> !Mentions(s, Nationalities[j])
    ensures r.Some? ==> exists k :: 0 <= k < |Nationalities| && r.value == Nationalities[k]
                          && Mentions(s, Nationalities[k])
                          && forall j :: 0 <= j < k ==> !Mentions(s, Nationalities[j])
  {
    match FirstMentioned(s, Nationalities, 0)
    case None => None
    case Some(k) => Some(Nationalities[k])
  }

  // ---------------------------------------------------------------------
  // Gender: \b(male|m|ذكر)\b, then \b(female|f|أنثى)\b, ignoring case
  // ---------------------------------------------------------------------

  /** The Arabic word for "male", U+0630 U+0643 U+0631. */
  const ArabicMale: string := "\U{0630}\U{0643}\U{0631}"
  /** The Arabic word for "female", U+0623 U+0646 U+062B U+0649. */
  const ArabicFemale: string := "\U{0623}\U{0646}\U{062b}\U{0649}"

  const MaleWords: seq<string> := ["male", "m", ArabicMale]
  const FemaleWords: seq<string> := ["female", "f", ArabicFemale]

  /** `re.search(r'\b(w1|w2|...)\b', raw_text, re.IGNORECASE)` succeeds. */
  function HasWord(s: string, ws: seq<string>): (found: bool)
    ensures found <==> exists i :: 0 <= i <= |s| && WholeWordAt(s, i, ws)
  {
    var p: nat -> bool := (i: nat) => i <= |s| && WholeWordAt(s, i, ws);
    match Leftmost(p, 0, |s|)
    case Some(i) =>
      assert p(i);
      true
    case None =>
      assert forall i :: 0 <= i <= |s| ==> !WholeWordAt(s, i, ws) by {
        forall i | 0 <= i <= |s| ensures !WholeWordAt(s, i, ws) { assert !p(i); }
      }
      false
  }

  /** The gender: "Male" when a male word occurs as a whole word, otherwise
      "Female" when a female word does. */
  function GenderField(s: string): (r: Option<string>)
    ensures r == Some("Male") <==> HasWord(s, MaleWords)
    ensures r == Some("Female") <==> !HasWord(s, MaleWords) && HasWord(s, FemaleWords)
    ensures r.None? <==> !HasWord(s, MaleWords) && !HasWord(s, FemaleWords)
  {
    if HasWord(s, MaleWords) then Some("Male")
    else if HasWord(s, FemaleWords) then Some("Female")
    else None
  }

  // ---------------------------------------------------------------------
  // Issue date: (?:issue|issued|تاريخ\s*الإصدار)[:\s]+(date)
  // ---------------------------------------------------------------------

  predicate IssueAt(s: string, i: nat) {
    i <= |s| && MatchIssueAt(s, i).Some?
  }

  /** `re.search` with the issue-date pattern: the leftmost index where it
      matches. */
  function SearchIssue(s: string): (r: Option<nat>)
    ensures r.None? <==> forall i :: 0 <= i <= |s| ==> !IssueAt(s, i)
    ensures r.Some? ==> IssueAt(s, r.value) && forall j :: 0 <= j < r.value ==> !IssueAt(s, j)
  {
    var p: nat -> bool := (i: nat) => IssueAt(s, i);
    match Leftmost(p, 0, |s|)
    case None =>
      assert forall i :: 0 <= i <= |s| ==> !IssueAt(s, i) by {
        forall i | 0 <= i <= |s| ensures !IssueAt(s, i) { assert !p(i); }
      }
      None
    case Some(i) =>
      assert forall j :: 0 <= j < i ==> !IssueAt(s, j) by {
        forall j | 0 <= j < i ensures !IssueAt(s, j) { assert !p(j); }
      }
      Some(i)
  }

  /** The issue date: group 1 of the leftmost match of the labelled pattern.
      It is always in the date pattern's language. */
  function IssueDateField(s: string): (r: Option<string>)
    ensures r.None? <==> forall i :: 0 <= i <= |s| ==> !IssueAt(s, i)
    ensures r.Some? ==> DateShape(r.value)
    ensures r.Some? ==> exists i :: 0 <= i <= |s| && IssueAt(s, i)
                          && (forall j :: 0 <= j < i ==> !IssueAt(s, j))
                          && r.value == s[MatchIssueAt(s, i).value.start..MatchIssueAt(s, i).value.end]
  {
    match SearchIssue(s)
    case None => None
    case Some(i) =>
      var sp := MatchIssueAt(s, i).value;
      DateScanIsPattern(s, sp.start, sp.end);
      Some(s[sp.start..sp.end])
  }

  // ---------------------------------------------------------------------
  // The whole front side
  // ---------------------------------------------------------------------

  /** The keys the front-side parser may set. */
  const FrontKeys: set<string> :=
    {IdNumberKey, DateOfBirthKey, ExpiryDateKey, NameKey, NameArabicKey,
     NationalityKey, GenderKey, IssueDateKey}

  /** `_parse_front_side`: the rules run in order, each adding its key to
      the dictionary when it fires. Every field comes from its own rule and
      from no other: each key is set exactly when its rule fires, to the
      value that rule found, and no other key is ever set. In particular the
      issue date never changes the date of birth or the expiry date. */
  function ParseFrontSide(s: string): (r: FieldMap)
    ensures r.Keys <= FrontKeys
    ensures Holds(r, IdNumberKey, ExtractIdNumber(s))
    ensures Holds(r, DateOfBirthKey, BirthPick(s))
    ensures Holds(r, ExpiryDateKey, ExpiryPick(s))
    ensures Holds(r, NameKey, NameField(s))
    ensures Holds(r, NameArabicKey, ArabicNameField(s))
    ensures Holds(r, NationalityKey, NationalityField(s))
    ensures Holds(r, GenderKey, GenderField(s))
    ensures Holds(r, IssueDateKey, IssueDateField(s))
  {
    var m0 := SetIf(map[], IdNumberKey, ExtractIdNumber(s));
    var m1 := AssignDates(s, FindDates(s), m0);
    var m2 := SetIf(m1, NameKey, NameField(s));
    var m3 := SetIf(m2, NameArabicKey, ArabicNameField(s));
    var m4 := SetIf(m3, NationalityKey, NationalityField(s));
    var m5 := SetIf(m4, GenderKey, GenderField(s));
    DatesStep(s, m0);
    LaterRules(m1, NameField(s), ArabicNameField(s), NationalityField(s), GenderField(s), IssueDateField(s));
    var r := SetIf(m5, IssueDateKey, IssueDateField(s));
    var first := {IdNumberKey, DateOfBirthKey, ExpiryDateKey};
    HoldsAgree(r, m1, first, IdNumberKey, ExtractIdNumber(s));
    HoldsAgree(r, m1, first, DateOfBirthKey, BirthPick(s));
    HoldsAgree(r, m1, first, ExpiryDateKey, ExpiryPick(s));
    r
  }

  /** `opt` describes key `k` of `m`: set to its value when `opt` holds one,
      absent otherwise. */
  predicate Holds(m: FieldMap, k: string, opt: Option<string>) {
    if opt.Some? then k in m && m[k] == opt.value else k !in m
  }

  /** The date of birth the date rule assigns. */
  function BirthPick(s: string): (r: Option<string>)
    ensures r.Some? <==> |FindDates(s)| >= 2 || (|FindDates(s)| == 1 && !Contains(Lower(s), "exp"))
    ensures r.Some? ==> r.value == FindDates(s)[0]
  {
    var d := FindDates(s);
    if |d| >= 2 || (|d| == 1 && !Contains(Lower(s), "exp")) then Some(d[0]) else None
  }

  /** The expiry date the date rule assigns. */
  function ExpiryPick(s: string): (r: Option<string>)
    ensures r.Some? <==> |FindDates(s)| >= 2 || (|FindDates(s)| == 1 && Contains(Lower(s), "exp"))
    ensures |FindDates(s)| >= 2 ==> r == Some(FindDates(s)[1])
    ensures |FindDates(s)| == 1 && r.Some? ==> r == Some(FindDates(s)[0])
  {
    var d := FindDates(s);
    if |d| >= 2 then Some(d[1])
    else if |d| == 1 && Contains(Lower(s), "exp") then Some(d[0])
    else None
  }

  /** The rules after the dates each set their own key. */
  lemma LaterRules(m1: FieldMap, name: Option<string>, arabic: Option<string>, nationality: Option<string>,
                   gender: Option<string>, issue: Option<string>)
    requires m1.Keys <= {IdNumberKey, DateOfBirthKey, ExpiryDateKey}
    ensures var r := SetIf(SetIf(SetIf(SetIf(SetIf(m1, NameKey, name), NameArabicKey, arabic),
                                         NationalityKey, nationality), GenderKey, gender), IssueDateKey, issue);
      && r.Keys <= FrontKeys
      && Holds(r, NameKey, name) && Holds(r, NameArabicKey, arabic) && Holds(r, NationalityKey, nationality)
      && Holds(r, GenderKey, gender) && Holds(r, IssueDateKey, issue)
      && Agree(r, m1, {IdNumberKey, DateOfBirthKey, ExpiryDateKey})
  {
    LaterKeysDistinct();
    FiveRules(m1, {IdNumberKey, DateOfBirthKey, ExpiryDateKey}, NameKey, name, NameArabicKey, arabic,
              NationalityKey, nationality, GenderKey, gender, IssueDateKey, issue);
  }

  /** The keys of the later rules differ from each other and from the first
      three, and all eight make up `FrontKeys`. */
  lemma LaterKeysDistinct()
    ensures var first := {IdNumberKey, DateOfBirthKey, ExpiryDateKey};
      && NameKey !in first && NameArabicKey !in first && NationalityKey !in first
      && GenderKey !in first && IssueDateKey !in first
      && NameKey != NameArabicKey && NameKey != NationalityKey && NameKey != GenderKey && NameKey != IssueDateKey
      && NameArabicKey != NationalityKey && NameArabicKey != GenderKey && NameArabicKey != IssueDateKey
      && NationalityKey != GenderKey && NationalityKey != IssueDateKey && GenderKey != IssueDateKey
      && first + {NameKey, NameArabicKey} + {NationalityKey, GenderKey, IssueDateKey} == FrontKeys
  {
    KeysDistinct();
  }

  /** Five rules with keys of their own, run after those of `keys`. */
  lemma FiveRules(m: FieldMap, keys: set<string>, ka: string, va: Option<string>, kb: string, vb: Option<string>,
                  kc: string, vc: Option<string>, kd: string, vd: Option<string>, ke: string, ve: Option<string>)
    requires m.Keys <= keys
    requires ka !in keys && kb !in keys && kc !in keys && kd !in keys && ke !in keys
    requires ka != kb && ka != kc && ka != kd && ka != ke && kb != kc && kb != kd && kb != ke
    requires kc != kd && kc != ke && kd != ke
    ensures var r := SetIf(SetIf(SetIf(SetIf(SetIf(m, ka, va), kb, vb), kc, vc), kd, vd), ke, ve);
      && r.Keys <= keys + {ka, kb} + {kc, kd, ke}
      && Holds(r, ka, va) && Holds(r, kb, vb) && Holds(r, kc, vc) && Holds(r, kd, vd) && Holds(r, ke, ve)
      && Agree(r, m, keys)
  {
    var m2 := SetIf(SetIf(m, ka, va), kb, vb);
    TwoRules(m, keys, ka, va, kb, vb);
    var k2 := keys + {ka, kb};
    ThreeRules(m2, k2, kc, vc, kd, vd, ke, ve);
    var r := SetIf(SetIf(SetIf(m2, kc, vc), kd, vd), ke, ve);
    HoldsAgree(r, m2, k2, ka, va);
    HoldsAgree(r, m2, k2, kb, vb);
    AgreeTrans(r, m2, m, keys, k2);
  }

  lemma HoldsAgree(r: FieldMap, m: FieldMap, keys: set<string>, k: string, v: Option<string>)
    requires Agree(r, m, keys) && k in keys && Holds(m, k, v)
    ensures Holds(r, k, v)
  {
  }

  lemma AgreeTrans(a: FieldMap, b: FieldMap, c: FieldMap, keys: set<string>, wider: set<string>)
    requires Agree(a, b, wider) && Agree(b, c, keys) && keys <= wider
    ensures Agree(a, c, keys)
  {
  }

  /** Two rules with keys of their own, run after those of `keys`. */
  lemma TwoRules(m: FieldMap, keys: set<string>, ka: string, va: Option<string>, kb: string, vb: Option<string>)
    requires m.Keys <= keys && ka !in keys && kb !in keys && ka != kb
    ensures var r := SetIf(SetIf(m, ka, va), kb, vb);
      && r.Keys <= keys + {ka, kb}
      && Holds(r, ka, va) && Holds(r, kb, vb)
      && Agree(r, m, keys)
  {
    var m1 := SetIf(m, ka, va);
    SetIfStep(m, ka, va, keys);
    SetIfStep(m1, kb, vb, keys + {ka});
    HoldsAgree(SetIf(m1, kb, vb), m1, keys + {ka}, ka, va);
    AgreeTrans(SetIf(m1, kb, vb), m1, m, keys, keys + {ka});
  }

  /** Three rules with keys of their own, run after those of `keys`. */
  lemma ThreeRules(m: FieldMap, keys: set<string>, ka: string, va: Option<string>, kb: string, vb: Option<string>,
                   kc: string, vc: Option<string>)
    requires m.Keys <= keys && ka !in keys && kb !in keys && kc !in keys && ka != kb && ka != kc && kb != kc
    ensures var r := SetIf(SetIf(SetIf(m, ka, va), kb, vb), kc, vc);
      && r.Keys <= keys + {ka, kb, kc}
      && Holds(r, ka, va) && Holds(r, kb, vb) && Holds(r, kc, vc)
      && Agree(r, m, keys)
  {
    var m2 := SetIf(SetIf(m, ka, va), kb, vb);
    TwoRules(m, keys, ka, va, kb, vb);
    SetIfStep(m2, kc, vc, keys + {ka, kb});
    var r := SetIf(m2, kc, vc);
    HoldsAgree(r, m2, keys + {ka, kb}, ka, va);
    HoldsAgree(r, m2, keys + {ka, kb}, kb, vb);
    AgreeTrans(r, m2, m, keys, keys + {ka, kb});
  }

  /** `r` and `m` agree on the keys `keys`. */
  ghost predicate Agree(r: FieldMap, m: FieldMap, keys: set<string>) {
    forall j :: j in keys ==> (j in r <==> j in m) && (j in m ==> r[j] == m[j])
  }

  /** The ID and date rules set the first three keys. */
  lemma DatesStep(s: string, m0: FieldMap)
    requires m0 == SetIf(map[], IdNumberKey, ExtractIdNumber(s))
    ensures var m1 := AssignDates(s, FindDates(s), m0);
      && m1.Keys <= {IdNumberKey, DateOfBirthKey, ExpiryDateKey}
      && Holds(m1, IdNumberKey, ExtractIdNumber(s))
      && Holds(m1, DateOfBirthKey, BirthPick(s))
      && Holds(m1, ExpiryDateKey, ExpiryPick(s))
  {
    var d := FindDates(s);
    DatesAssigned(m0, ExtractIdNumber(s), d, Contains(Lower(s), "exp"),
                  AssignDates(s, d, m0), BirthPick(s), ExpiryPick(s));
  }

  /** The date assignment, for any ID outcome `id`, dates `d`, mention of
      "exp" `e` and resulting picks `b` (birth) and `x` (expiry). */
  lemma DatesAssigned(m0: FieldMap, id: Option<string>, d: seq<string>, e: bool,
                      m1: FieldMap, b: Option<string>, x: Option<string>)
    requires m0 == SetIf(map[], IdNumberKey, id)
    requires |d| >= 2 ==> m1 == m0[DateOfBirthKey := d[0]][ExpiryDateKey := d[1]] && b == Some(d[0]) && x == Some(d[1])
    requires |d| == 1 && e ==> m1 == m0[ExpiryDateKey := d[0]] && b.None? && x == Some(d[0])
    requires |d| == 1 && !e ==> m1 == m0[DateOfBirthKey := d[0]] && b == Some(d[0]) && x.None?
    requires |d| == 0 ==> m1 == m0 && b.None? && x.None?
    ensures m1.Keys <= {IdNumberKey, DateOfBirthKey, ExpiryDateKey}
    ensures Holds(m1, IdNumberKey, id) && Holds(m1, DateOfBirthKey, b) && Holds(m1, ExpiryDateKey, x)
  {
    KeysDistinct();
  }

  /** One more rule: its key, new to the map, is described by the rule's
      outcome, and the keys already there keep their values. */
  lemma SetIfStep(m: FieldMap, k: string, v: Option<string>, keys: set<string>)
    requires m.Keys <= keys && k !in keys
    ensures SetIf(m, k, v).Keys <= keys + {k}
    ensures Holds(SetIf(m, k, v), k, v)
    ensures Agree(SetIf(m, k, v), m, keys)
  {
  }
}
