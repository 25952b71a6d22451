/** The errors and warnings the validator reports, and the text each one
    becomes in the response. */
module Messages {

  import opened Wrappers
  import opened Text
  import opened DateParse

  /** One reported problem. The strings carried are the field values the
      message quotes; `LowConfidence` carries the score in hundredths. */
  datatype Issue =
    | InvalidIdFormat(id: string)
    | IdNotFound
    | NameNotFound
    | BirthImplausible(dob: string)
    | BirthUnclear(dob: string)
    | Expired(expiry: string)
    | ExpiryUnclear(expiry: string)
    | ExpiryNotFound
    | LowConfidence(score: nat)
    | IdUnclear(id: string)
    | Internal(reason: string)

  /** The value of a string of decimal digits. */
  function DecimalValue(s: string): (n: nat)
    requires AllDigits(s)
  {
    if |s| == 0 then 0 else 10 * DecimalValue(s[..|s| - 1]) + DigitValue(s[|s| - 1])
  }

  /** `str(n)`: the decimal digits of `n`, without leading zeros. */
  function NatText(n: nat): (r: string)
    ensures |r| >= 1 && AllDigits(r) && DecimalValue(r) == n
    ensures r[0] == '0' ==> n == 0
    decreases n
  {
    if n < 10 then [DigitChar(n)]
    else
      var h := NatText(n / 10);
      var r := h + [DigitChar(n % 10)];
      assert r[..|r| - 1] == h;
      r
  }

  /** `f"{x:.2f}"` for the number `x` written as `n` hundredths: the whole
      part, a point and two decimals, which together give back `n`. */
  function Fixed2(n: nat): (r: string)
    ensures |r| >= 4 && r[|r| - 3] == '.'
    ensures AllDigits(r[..|r| - 3]) && IsDigit(r[|r| - 2]) && IsDigit(r[|r| - 1])
    ensures 100 * DecimalValue(r[..|r| - 3]) + TwoDigits(r[|r| - 2], r[|r| - 1]) == n
    ensures n < 100 ==> r[..2] == "0."
  {
    var w := NatText(n / 100);
    var d := Pad2(n % 100);
    var r := w + "." + d;
    assert r[..|r| - 3] == w;
    assert r[|r| - 2] == d[0] && r[|r| - 1] == d[1];
    r
  }

  /** The fixed opening of each message: the whole text for the issues that
      quote nothing. */
  const InvalidIdPrefix: string := "Invalid ID number format: "
  const IdNotFoundText: string := "ID number not found in extracted text"
  const NameNotFoundText: string := "Name not found"
  const BirthImplausiblePrefix: string := "Date of birth seems invalid: "
  const BirthUnclearPrefix: string := "Date of birth format unclear: "
  const ExpiredPrefix: string := "Emirates ID has expired: "
  const ExpiryUnclearPrefix: string := "Expiry date format unclear: "
  const ExpiryNotFoundText: string := "Expiry date not found"
  const LowConfidencePrefix: string := "Low confidence score: "
  const IdUnclearPrefix: string := "ID number format unclear: "
  const InternalPrefix: string := "Validation error: "

  /** The fixed opening of the message of `i`. */
  function Prefix(i: Issue): string
  {
    match i
    case InvalidIdFormat(_) => InvalidIdPrefix
    case IdNotFound => IdNotFoundText
    case NameNotFound => NameNotFoundText
    case BirthImplausible(_) => BirthImplausiblePrefix
    case BirthUnclear(_) => BirthUnclearPrefix
    case Expired(_) => ExpiredPrefix
    case ExpiryUnclear(_) => ExpiryUnclearPrefix
    case ExpiryNotFound => ExpiryNotFoundText
    case LowConfidence(_) => LowConfidencePrefix
    case IdUnclear(_) => IdUnclearPrefix
    case Internal(_) => InternalPrefix
  }

  /** What the message of `i` quotes after its opening. */
  function Quoted(i: Issue): string {
    match i
    case InvalidIdFormat(id) => id
    case BirthImplausible(dob) => dob
    case BirthUnclear(dob) => dob
    case Expired(expiry) => expiry
    case ExpiryUnclear(expiry) => expiry
    case LowConfidence(score) => Fixed2(score)
    case IdUnclear(id) => id
    case Internal(reason) => reason
    case _ => ""
  }

  /** The text of each issue, as the response carries it: the fixed opening
      of its kind, then the value it quotes. */
  function Message(i: Issue): (r: string)
    ensures StartsAt(r, 0, Prefix(i))
  {
    var r := Prefix(i) + Quoted(i);
    assert r[0..|Prefix(i)|] == Prefix(i);
    r
  }

  /** A score written by `Fixed2`, read back. */
  function ReadFixed2(w: string): (r: Option<nat>)
  {
    if |w| >= 4 && w[|w| - 3] == '.' && AllDigits(w[..|w| - 3]) && IsDigit(w[|w| - 2]) && IsDigit(w[|w| - 1]) then
      Some(100 * DecimalValue(w[..|w| - 3]) + TwoDigits(w[|w| - 2], w[|w| - 1]))
    else None
  }

  /** The character at index `k`, or NUL past the end. */
  function CharAt(t: string, k: nat): char {
    if k < |t| then t[k] else '\0'
  }

  /** The kind of issue a line of the response reports, told apart by a few
      characters of its opening, given as the issue with nothing quoted. */
  function KindOf(t: string): Option<Issue>
  {
    match CharAt(t, 0)
    case 'I' =>
      if CharAt(t, 1) == 'n' then Some(InvalidIdFormat(""))
      else if CharAt(t, 10) == 'n' then Some(IdNotFound)
      else Some(IdUnclear(""))
    case 'N' => Some(NameNotFound)
    case 'D' => if CharAt(t, 14) == 's' then Some(BirthImplausible("")) else Some(BirthUnclear(""))
    case 'E' =>
      if CharAt(t, 1) == 'm' then Some(Expired(""))
      else if CharAt(t, 12) == 'f' then Some(ExpiryUnclear(""))
      else Some(ExpiryNotFound)
    case 'L' => Some(LowConfidence(0))
    case 'V' => Some(Internal(""))
    case _ => None
  }

  /** The issue of kind `kind` quoting `rest`, if `rest` is something that
      kind can quote. */
  function Fill(kind: Issue, rest: string): Option<Issue>
  {
    match kind
    case InvalidIdFormat(_) => Some(InvalidIdFormat(rest))
    case BirthImplausible(_) => Some(BirthImplausible(rest))
    case BirthUnclear(_) => Some(BirthUnclear(rest))
    case Expired(_) => Some(Expired(rest))
    case ExpiryUnclear(_) => Some(ExpiryUnclear(rest))
    case IdUnclear(_) => Some(IdUnclear(rest))
    case Internal(_) => Some(Internal(rest))
    case LowConfidence(_) =>
      (match ReadFixed2(rest)
       case Some(n) => Some(LowConfidence(n))
       case None => None)
    case _ => if rest == "" then Some(kind) else None
  }

  /** The issue a line of the response reports: its kind, then the value
      quoted after the kind's opening. */
  function ReadIssue(t: string): Option<Issue>
  {
    match KindOf(t)
    case None => None
    case Some(kind) =>
      if StartsAt(t, 0, Prefix(kind)) then Fill(kind, t[|Prefix(kind)|..]) else None
  }

  /** The issue `i` with nothing quoted. */
  function Blank(i: Issue): Issue {
    match i
    case InvalidIdFormat(_) => InvalidIdFormat("")
    case BirthImplausible(_) => BirthImplausible("")
    case BirthUnclear(_) => BirthUnclear("")
    case Expired(_) => Expired("")
    case ExpiryUnclear(_) => ExpiryUnclear("")
    case LowConfidence(_) => LowConfidence(0)
    case IdUnclear(_) => IdUnclear("")
    case Internal(_) => Internal("")
    case _ => i
  }

  /** Whatever follows an opening, the kind read off it is the opening's. */
  lemma KindOfOpening(i: Issue, x: string)
    ensures KindOf(Prefix(i) + x) == Some(Blank(i))
    ensures Prefix(Blank(i)) == Prefix(i)
  {
  }

  /** A score written with two decimals reads back as itself. */
  lemma Fixed2RoundTrip(n: nat)
    ensures ReadFixed2(Fixed2(n)) == Some(n)
  {
  }

  /** The quoted value is read back, the score through its two decimals. */
  lemma FillQuoted(i: Issue)
    ensures Fill(Blank(i), Quoted(i)) == Some(i)
  {
    if i.LowConfidence? {
      Fixed2RoundTrip(i.score);
    }
  }

  /** Reading a message gives back the issue it reports. */
  lemma MessageRoundTrip(i: Issue)
    ensures ReadIssue(Message(i)) == Some(i)
  {
    var t := Message(i);
    KindOfOpening(i, Quoted(i));
    FillQuoted(i);
    assert t[|Prefix(i)|..] == Quoted(i);
  }

  /** Distinct issues never share a message text. */
  lemma MessageInjective(i: Issue, j: Issue)
    ensures Message(i) == Message(j) ==> i == j
  {
    MessageRoundTrip(i);
    MessageRoundTrip(j);
  }
}
