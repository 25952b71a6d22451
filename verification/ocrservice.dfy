/** `OCRService.extract_text` after recognition: the recognised pieces of
    text are joined into one raw text, which the parser of the requested side
    turns into a field map. */
module OcrService {

  import opened Wrappers
  import opened Fields
  import opened Splitting
  import opened Patterns
  import opened IdNumber
  import opened FrontSide
  import opened BackSide

  /** No piece holds a space. */
  predicate NoSpaces(texts: seq<string>) {
    forall k, j :: 0 <= k < |texts| && 0 <= j < |texts[k]| ==> texts[k][j] != ' '
  }

  /** `' '.join(result[1] for result in results)`: the recognised pieces,
      one space between two. When no piece holds a space, splitting the raw
      text at spaces gives the pieces back. */
  function RawText(texts: seq<string>): (r: string)
    ensures |texts| == 0 ==> r == ""
    ensures |texts| >= 1 && NoSpaces(texts) ==> Split(r, ' ') == texts
  {
    SplitRawText(texts);
    Join(texts, ' ')
  }

  lemma SplitRawText(texts: seq<string>)
    ensures |texts| >= 1 && NoSpaces(texts) ==> Split(Join(texts, ' '), ' ') == texts
  {
    if |texts| >= 1 && NoSpaces(texts) {
      SplitJoin(texts, ' ');
    }
  }

  /** The parser of a side: `_parse_front_side` for `"front"`,
      `_parse_back_side` for any other side. Both report the same ID number,
      the one `extract_id_number` finds; the back sets nothing but the card
      number and the ID number. */
  function ParseSide(side: string, raw: string): (m: FieldMap)
    ensures Holds(m, IdNumberKey, ExtractIdNumber(raw))
    ensures side == "front" ==> m.Keys <= FrontKeys
    ensures side != "front" ==> m.Keys <= {CardNumberKey, IdNumberKey}
    ensures side != "front" ==> Holds(m, CardNumberKey, CardNumberField(raw))
  {
    if side == "front" then ParseFrontSide(raw) else ParseBackSide(raw)
  }

  /** The successful answer of `extract_text`, without the recogniser's own
      results and average confidence. */
  datatype Extraction = Extraction(data: FieldMap, rawText: string)

  /** `extract_text` on the recognised pieces of one side. The raw text
      gives the pieces back when split at spaces, provided none holds a
      space; the data holds the ID number `extract_id_number` finds in the
      raw text, no empty value, and only the keys of the requested side. */
  function ExtractText(texts: seq<string>, side: string): (e: Extraction)
    ensures |texts| == 0 ==> e.rawText == ""
    ensures |texts| >= 1 && NoSpaces(texts) ==> Split(e.rawText, ' ') == texts
    ensures Holds(e.data, IdNumberKey, ExtractIdNumber(e.rawText))
    ensures side == "front" ==> e.data.Keys <= FrontKeys
    ensures side != "front" ==> e.data.Keys <= {CardNumberKey, IdNumberKey}
    ensures side != "front" ==> Holds(e.data, CardNumberKey, CardNumberField(e.rawText))
    ensures forall k :: k in e.data ==> e.data[k] != ""
  {
    var raw := RawText(texts);
    ParsedValuesNonEmpty(side, raw);
    Extraction(ParseSide(side, raw), raw)
  }

  /** No parser reports an empty value. */
  lemma ParsedValuesNonEmpty(side: string, raw: string)
    ensures forall k :: k in ParseSide(side, raw) ==> ParseSide(side, raw)[k] != ""
  {
    forall k | k in ParseSide(side, raw) ensures ParseSide(side, raw)[k] != "" {
      ParsedValuesPresent(side, raw, k);
    }
  }

  /** Every value the parsers report is a non-empty string, so for the
      validator a parsed field is there exactly when its key is. */
  lemma ParsedValuesPresent(side: string, raw: string, k: string)
    ensures k in ParseSide(side, raw) <==> Present(ParseSide(side, raw), k)
  {
    var m := ParseSide(side, raw);
    if k in m {
      if side == "front" {
        FrontValueNonEmpty(raw, k);
      } else {
        KeysDistinct();
        assert k == CardNumberKey || k == IdNumberKey;
      }
    }
  }

  lemma FrontValueNonEmpty(raw: string, k: string)
    requires k in ParseFrontSide(raw)
    ensures ParseFrontSide(raw)[k] != ""
  {
    FieldsNonEmpty(raw);
    HeldValuesNonEmpty(ParseFrontSide(raw), ExtractIdNumber(raw), BirthPick(raw), ExpiryPick(raw), NameField(raw),
                       ArabicNameField(raw), NationalityField(raw), GenderField(raw), IssueDateField(raw));
  }

  /** No front-side rule finds an empty string. */
  lemma FieldsNonEmpty(raw: string)
    ensures ExtractIdNumber(raw) != Some("") && BirthPick(raw) != Some("") && ExpiryPick(raw) != Some("")
    ensures NameField(raw) != Some("") && ArabicNameField(raw) != Some("") && NationalityField(raw) != Some("")
    ensures GenderField(raw) != Some("") && IssueDateField(raw) != Some("")
  {
    var birth, expiry, issue := BirthPick(raw), ExpiryPick(raw), IssueDateField(raw);
    if birth.Some? { DateNonEmpty(birth.value); }
    if expiry.Some? { DateNonEmpty(expiry.value); }
    if issue.Some? { DateNonEmpty(issue.value); }
    NationalitiesNonEmpty();
  }

  /** A map whose every key is described by a non-empty option holds no empty
      string. */
  lemma HeldValuesNonEmpty(r: FieldMap, id: Option<string>, birth: Option<string>, expiry: Option<string>,
                           name: Option<string>, arabic: Option<string>, nationality: Option<string>,
                           gender: Option<string>, issue: Option<string>)
    requires r.Keys <= FrontKeys
    requires Holds(r, IdNumberKey, id) && Holds(r, DateOfBirthKey, birth) && Holds(r, ExpiryDateKey, expiry)
    requires Holds(r, NameKey, name) && Holds(r, NameArabicKey, arabic) && Holds(r, NationalityKey, nationality)
    requires Holds(r, GenderKey, gender) && Holds(r, IssueDateKey, issue)
    requires id != Some("") && birth != Some("") && expiry != Some("") && name != Some("")
    requires arabic != Some("") && nationality != Some("") && gender != Some("") && issue != Some("")
    ensures forall k :: k in r ==> r[k] != ""
  {
  }

  lemma DateNonEmpty(w: string)
    requires DateShape(w)
    ensures w != ""
  {
    var p: nat, q: nat :| DateSplit(w, p, q);
  }

  lemma NationalitiesNonEmpty()
    ensures forall j :: 0 <= j < |Nationalities| ==> Nationalities[j] != ""
  {
  }
}
