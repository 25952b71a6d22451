/** `validate_date_of_birth`, `validate_expiry_date` and `is_id_expired`: a
    parsed date (its midnight) compared with the current time. The current
    time is the parameter `now` in place of `datetime.now()`. */
module DateChecks {

  import opened Wrappers
  import opened Calendar
  import opened DateParse

  /** `datetime(1900, 1, 1)`, the earliest accepted date of birth. */
  const MinBirthDate: Date := Date(1900, 1, 1)

  /** `validate_date_of_birth`: the date parses, is not in the future and is
      not before 1 January 1900. Both bounds are inclusive, and a birth date
      of today is accepted whatever the time of day. */
  function ValidateDateOfBirth(s: string, now: Instant): (ok: bool)
    ensures ok <==> && ParseDate(s).Some?
                    && !Before(ParseDate(s).value, MinBirthDate)
                    && !Before(now.date, ParseDate(s).value)
  {
    match ParseDate(s)
    case None => false
    case Some(dob) =>
      MidnightOrder(dob, now);
      MidnightOrder(MinBirthDate, Midnight(dob));
      if InstantBefore(now, Midnight(dob)) then false
      else if InstantBefore(Midnight(dob), Midnight(MinBirthDate)) then false
      else true
  }

  /** `validate_expiry_date`: the date parses and its midnight lies after the
      current time, that is, it is a later day than today. */
  function ValidateExpiryDate(s: string, now: Instant): (ok: bool)
    ensures ok <==> ParseDate(s).Some? && Before(now.date, ParseDate(s).value)
  {
    match ParseDate(s)
    case None => false
    case Some(expiry) =>
      MidnightOrder(expiry, now);
      InstantBefore(now, Midnight(expiry))
  }

  /** `is_id_expired`: an unreadable date counts as expired; otherwise the
      card has expired once its expiry day's midnight has passed, so it is
      expired during its whole expiry day except at the very stroke of
      midnight. */
  function IsIdExpired(s: string, now: Instant): (expired: bool)
    ensures expired <==> || ParseDate(s).None?
                         || Before(ParseDate(s).value, now.date)
                         || (ParseDate(s).value == now.date && now.micros > 0)
  {
    match ParseDate(s)
    case None => true
    case Some(expiry) =>
      MidnightOrder(expiry, now);
      InstantBefore(Midnight(expiry), now)
  }

  /** An expiry date that `validate_expiry_date` accepts is not expired. */
  lemma ExpiryValidNotExpired(s: string, now: Instant)
    ensures ValidateExpiryDate(s, now) ==> !IsIdExpired(s, now)
  {
    if ParseDate(s).Some? {
      BeforeTrichotomy(ParseDate(s).value, now.date);
    }
  }

  /** For a readable date exactly one of three things holds: the date is a
      valid expiry, the card has expired, or the current time is exactly the
      expiry day's midnight (then neither check fires). */
  lemma ExpiryCases(s: string, now: Instant)
    requires ParseDate(s).Some?
    ensures ValidateExpiryDate(s, now) || IsIdExpired(s, now) || now == Midnight(ParseDate(s).value)
    ensures !(ValidateExpiryDate(s, now) && IsIdExpired(s, now))
    ensures now == Midnight(ParseDate(s).value) ==> !ValidateExpiryDate(s, now) && !IsIdExpired(s, now)
  {
    BeforeTrichotomy(ParseDate(s).value, now.date);
  }

  /** A date of birth accepted on some day stays accepted on every later day. */
  lemma BirthStaysValid(s: string, now: Instant, later: Instant)
    requires !Before(later.date, now.date)
    ensures ValidateDateOfBirth(s, now) ==> ValidateDateOfBirth(s, later)
  {
    if ParseDate(s).Some? {
      BeforeTrichotomy(later.date, now.date);
      BeforeTrichotomy(now.date, ParseDate(s).value);
    }
  }

  /** An expiry date rejected on some day stays rejected on every later day. */
  lemma ExpiryStaysInvalid(s: string, now: Instant, later: Instant)
    requires !Before(later.date, now.date)
    ensures !ValidateExpiryDate(s, now) ==> !ValidateExpiryDate(s, later)
  {
    if ParseDate(s).Some? {
      BeforeTrichotomy(later.date, now.date);
      BeforeTrichotomy(now.date, ParseDate(s).value);
    }
  }
}
