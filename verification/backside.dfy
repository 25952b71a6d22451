/** `_parse_back_side`: the card number and, when present, the ID number
    read off the text of the back of the card. */
module BackSide {

  import opened Wrappers
  import opened Text
  import opened Patterns
  import opened Fields
  import opened IdNumber

  /** The card-number scanner `\b\d{9,}\b` as a match function. */
  function CardMatcher(s: string): (m: nat -> Option<nat>)
    ensures forall i: nat :: m(i).Some? ==> i < m(i).value <= |s|
    ensures forall i: nat :: i <= |s| ==> m(i) == MatchCardAt(s, i)
  {
    (i: nat) => if i <= |s| then MatchCardAt(s, i) else None
  }

  /** The spans of `re.findall(r'\b\d{9,}\b', raw_text)`. */
  function CardSpans(s: string): (r: seq<Span>)
    ensures forall k :: 0 <= k < |r| ==> r[k].start < r[k].end <= |s|
    ensures forall k :: 0 <= k < |r| ==> MatchCardAt(s, r[k].start) == Some(r[k].end)
  {
    FindAll(|s|, CardMatcher(s), 0)
  }

  /** The runs of nine or more digits standing as whole words. */
  function CardRuns(s: string): (r: seq<string>)
    ensures |r| == |CardSpans(s)|
    ensures forall k :: 0 <= k < |r| ==> |r[k]| >= 9 && AllDigits(r[k])
  {
    var spans := CardSpans(s);
    var r := Texts(s, spans);
    forall k | 0 <= k < |r| ensures |r[k]| >= 9 && AllDigits(r[k]) {
      var sp := spans[k];
      assert forall j :: 0 <= j < |r[k]| ==> r[k][j] == s[sp.start + j];
    }
    r
  }

  /** There is no card run exactly when the scanner matches nowhere. */
  lemma NoCardRunsIffNoMatch(s: string)
    ensures |CardRuns(s)| == 0 <==> forall i :: 0 <= i <= |s| ==> MatchCardAt(s, i).None?
  {
    var m := CardMatcher(s);
    FindAllComplete(|s|, m, 0);
    if |CardSpans(s)| == 0 {
      forall i | 0 <= i <= |s| ensures MatchCardAt(s, i).None? {
        assert m(i).None?;
      }
    }
  }

  /** `max(card_matches, key=len)`: the card number is the first of the
      longest runs; it has nine or more digits, no run is longer and every
      run before it is shorter. */
  function CardNumberField(s: string): (r: Option<string>)
    ensures r.None? <==> |CardRuns(s)| == 0
    ensures r.Some? ==> |r.value| >= 9 && AllDigits(r.value)
    ensures r.Some? ==> exists k :: 0 <= k < |CardRuns(s)| && r.value == CardRuns(s)[k]
                          && (forall j :: 0 <= j < |CardRuns(s)| ==> |CardRuns(s)[j]| <= |r.value|)
                          && (forall j :: 0 <= j < k ==> |CardRuns(s)[j]| < |r.value|)
  {
    var runs := CardRuns(s);
    if |runs| == 0 then None
    else
      var k := FirstLongest(runs);
      Some(runs[k])
  }

  /** A card run is a maximal run of digits: no digit precedes or follows it. */
  lemma CardRunMaximal(s: string, k: nat)
    requires k < |CardSpans(s)|
    ensures var sp := CardSpans(s)[k];
      && (sp.start == 0 || !IsDigit(s[sp.start - 1]))
      && (sp.end == |s| || !IsDigit(s[sp.end]))
  {
    var sp := CardSpans(s)[k];
    assert Boundary(s, sp.start) && Boundary(s, sp.end);
  }

  /** `_parse_back_side`: the card number, then the ID number found by the
      same rule as on the front. Only those two keys are set, each exactly
      when its rule fires, to the value that rule found. */
  function ParseBackSide(s: string): (r: FieldMap)
    ensures r.Keys <= {CardNumberKey, IdNumberKey}
    ensures CardNumberKey in r <==> CardNumberField(s).Some?
    ensures CardNumberKey in r ==> r[CardNumberKey] == CardNumberField(s).value
    ensures IdNumberKey in r <==> ExtractIdNumber(s).Some?
    ensures IdNumberKey in r ==> r[IdNumberKey] == ExtractIdNumber(s).value
  {
    KeysDistinct();
    var m0 := SetIf(map[], CardNumberKey, CardNumberField(s));
    SetIf(m0, IdNumberKey, ExtractIdNumber(s))
  }
}
