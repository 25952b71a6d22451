/** What the validator says about what the extractor found: the two halves
    of the service composed on the same raw text. */
module Pipeline {

  import opened Wrappers
  import opened Text
  import opened Fields
  import opened Calendar
  import opened IdNumber
  import opened IdFormat
  import opened BackSide
  import opened OcrService
  import opened Messages
  import opened Validation

  /** The extractor only reports well-formed ID numbers, so on an extracted
      front side the validator never reports a malformed number: the side is
      an Emirates ID exactly when an ID number was found, and valid exactly
      when, in addition, the expiry date is not a readable date of today or
      earlier. */
  lemma FrontPipeline(raw: string, now: Instant)
    ensures var m := ParseSide("front", raw);
      var v := ValidateEmiratesId(m, "front", now);
      && (v.isEmiratesId <==> ExtractIdNumber(raw).Some?)
      && (v.isValid <==> ExtractIdNumber(raw).Some? && !ExpiryPassed(m, now))
      && (forall e :: e in v.errors ==> e.Expired?)
  {
    ExtractedIdAccepted("front", raw);
    FrontWithoutIdError(ParseSide("front", raw), now);
  }

  /** The front verdict for a map whose ID number, if any, is well formed. */
  lemma FrontWithoutIdError(m: FieldMap, now: Instant)
    requires !IdRejected(m)
    ensures var v := ValidateEmiratesId(m, "front", now);
      && (v.isEmiratesId <==> Present(m, IdNumberKey))
      && (v.isValid <==> Present(m, IdNumberKey) && !ExpiryPassed(m, now))
      && (forall e :: e in v.errors ==> e.Expired?)
  {
    FrontVerdict(m, now);
    FrontErrorFacts(m, now);
  }

  /** On an extracted back side the validator never doubts the ID number: the
      side is valid exactly when a card number or an ID number was found, its
      score is 70 exactly when an ID number was found, and the only possible
      warning is the low-score one. */
  lemma BackPipeline(raw: string, side: string, now: Instant)
    requires side != "front"
    ensures var m := ParseSide(side, raw);
      var v := ValidateEmiratesId(m, side, now);
      && (v.isValid <==> CardNumberField(raw).Some? || ExtractIdNumber(raw).Some?)
      && (v.confidence == 70 <==> ExtractIdNumber(raw).Some?)
      && (forall w :: w in v.warnings ==> w.LowConfidence?)
  {
    var m := ParseSide(side, raw);
    ExtractedIdAccepted(side, raw);
    ParsedValuesPresent(side, raw, CardNumberKey);
    BackVerdict(m, side, now);
    assert ValidateBack(m).warnings == When(BackScore(m) < BackThreshold, LowConfidence(BackScore(m)));
  }

  /** On either side, the parsed ID number is there exactly when the
      extractor found one, and then the validator accepts its format. */
  lemma ExtractedIdAccepted(side: string, raw: string)
    ensures Present(ParseSide(side, raw), IdNumberKey) <==> ExtractIdNumber(raw).Some?
    ensures IdAccepted(ParseSide(side, raw)) <==> ExtractIdNumber(raw).Some?
    ensures !IdRejected(ParseSide(side, raw))
  {
    ParsedValuesPresent(side, raw, IdNumberKey);
    if ExtractIdNumber(raw).Some? {
      ExtractedIdWellFormed(raw);
    }
  }

  /** The front and back parsers report the same ID number for the same text. */
  lemma SidesAgreeOnId(raw: string, side: string)
    ensures IdNumberKey in ParseSide("front", raw) <==> IdNumberKey in ParseSide(side, raw)
    ensures IdNumberKey in ParseSide(side, raw) ==>
              ParseSide("front", raw)[IdNumberKey] == ParseSide(side, raw)[IdNumberKey]
  {
  }

  /** An extracted ID number always passes the length and digit tests of the
      checksum placeholder, so its verdict rests on the check digit alone. */
  lemma ExtractedIdChecksum(raw: string)
    requires ExtractIdNumber(raw).Some?
    ensures var d := RemoveSeps(ExtractIdNumber(raw).value);
      && |d| == 15 && AllDigits(d)
      && (ValidateIdNumberChecksum(ExtractIdNumber(raw).value) <==> d[14] == CheckDigit(d[..14]))
  {
    var id := ExtractIdNumber(raw).value;
    IdShapeDigits(id);
    var d := RemoveSeps(id);
    ChecksumOfDigits(d);
  }

  /** For fifteen digits the placeholder compares the last one with the
      check digit of the first fourteen. */
  lemma ChecksumOfDigits(d: string)
    requires |d| == 15 && AllDigits(d)
    ensures ChecksumDigits(d) <==> d[14] == CheckDigit(d[..14])
  {
    assert d == d[..14] + [d[14]];
    ChecksumUnique(d[..14], d[14]);
    RemoveSepsDigits(d);
  }
}
