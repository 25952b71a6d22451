/** `ValidationService`: the score, the Emirates ID verdict, the errors and
    the warnings the validator gives a field map, side by side, and the
    composed response. Confidence is counted in hundredths: 40 stands for
    the `0.4` the source adds. */
module Validation {

  import opened Fields
  import opened Calendar
  import opened DateParse
  import opened DateChecks
  import opened IdFormat
  import opened Messages

  /** What a side validator hands back, together with the problems it
      appended to the shared lists. */
  datatype SideReport = SideReport(confidence: nat, isEmiratesId: bool, errors: seq<Issue>, warnings: seq<Issue>)

  /** The running state of a side validator. */
  datatype Tally = Tally(confidence: nat, isEmiratesId: bool, errors: seq<Issue>, warnings: seq<Issue>)
  {
    function Add(w: nat): Tally {
      this.(confidence := confidence + w)
    }

    function Warn(i: Issue): Tally {
      this.(warnings := warnings + [i])
    }

    function Fail(i: Issue): Tally {
      this.(errors := errors + [i])
    }

    /** The tally after a check that earned `w` and reported `es` and `ws`. */
    function Then(w: nat, es: seq<Issue>, ws: seq<Issue>): Tally {
      Tally(confidence + w, isEmiratesId, errors + es, warnings + ws)
    }
  }

  function Min(a: nat, b: nat): nat {
    if a <= b then a else b
  }

  // ---------------------------------------------------------------------
  // What each field earns, read off the map
  // ---------------------------------------------------------------------

  /** The ID number is there and well formed. */
  predicate IdAccepted(m: FieldMap) {
    Present(m, IdNumberKey) && ValidateIdNumberFormat(m[IdNumberKey])
  }

  /** The ID number is there but not well formed. */
  predicate IdRejected(m: FieldMap) {
    Present(m, IdNumberKey) && !ValidateIdNumberFormat(m[IdNumberKey])
  }

  /** The date of birth is a readable, plausible date. */
  predicate BirthAccepted(m: FieldMap, now: Instant) {
    Present(m, DateOfBirthKey) && ValidateDateOfBirth(m[DateOfBirthKey], now)
  }

  /** The expiry date is a readable date after today. */
  predicate ExpiryAccepted(m: FieldMap, now: Instant) {
    Present(m, ExpiryDateKey) && ValidateExpiryDate(m[ExpiryDateKey], now)
  }

  /** The expiry date is a readable date that is today or earlier. */
  predicate ExpiryPassed(m: FieldMap, now: Instant) {
    && Present(m, ExpiryDateKey)
    && ParseDate(m[ExpiryDateKey]).Some?
    && !Before(now.date, ParseDate(m[ExpiryDateKey]).value)
  }

  function Weight(b: bool, w: nat): nat {
    if b then w else 0
  }

  /** The front score as the sum of the weights of the checks that pass:
      ID number 40, name 20, date of birth 10, expiry date 20, nationality 5
      and gender 5. */
  function FrontScore(m: FieldMap, now: Instant): nat {
    Weight(IdAccepted(m), 40)
    + Weight(Present(m, NameKey), 20)
    + Weight(BirthAccepted(m, now), 10)
    + Weight(ExpiryAccepted(m, now), 20)
    + Weight(Present(m, NationalityKey), 5)
    + Weight(Present(m, GenderKey), 5)
  }

  /** The score below which the front side is reported as doubtful. */
  const FrontThreshold: nat := 50
  /** The score below which the back side is reported as doubtful. */
  const BackThreshold: nat := 30

  // ---------------------------------------------------------------------
  // What each check reports
  // ---------------------------------------------------------------------

  /** `[x]` when `b` holds, `[]` otherwise. */
  function When(b: bool, x: Issue): (r: seq<Issue>)
    ensures |r| <= 1 && (x in r <==> b) && (forall y :: y in r ==> y == x)
  {
    if b then [x] else []
  }

  /** The front side's errors: a malformed ID number, then an expiry date
      that is today or earlier. */
  function FrontErrors(m: FieldMap, now: Instant): seq<Issue> {
    When(IdRejected(m), InvalidIdFormat(Get(m, IdNumberKey)))
      + When(ExpiryPassed(m, now), Expired(Get(m, ExpiryDateKey)))
  }

  /** Warnings about a date field that is there: unreadable, or readable
      but failing `ok`. */
  function DateWarnings(v: string, ok: bool, unclear: Issue, doubtful: Issue): seq<Issue> {
    if v == "" then []
    else if ParseDate(v).None? then [unclear]
    else When(!ok, doubtful)
  }

  function BirthWarnings(m: FieldMap, now: Instant): seq<Issue> {
    var dob := Get(m, DateOfBirthKey);
    DateWarnings(dob, ValidateDateOfBirth(dob, now), BirthUnclear(dob), BirthImplausible(dob))
  }

  function ExpiryWarnings(m: FieldMap): seq<Issue> {
    var expiry := Get(m, ExpiryDateKey);
    if expiry == "" then [ExpiryNotFound]
    else When(ParseDate(expiry).None?, ExpiryUnclear(expiry))
  }

  /** The front side's warnings, in the order the checks run. */
  function FrontWarnings(m: FieldMap, now: Instant): seq<Issue> {
    When(!Present(m, IdNumberKey), IdNotFound)
      + When(!Present(m, NameKey), NameNotFound)
      + BirthWarnings(m, now)
      + ExpiryWarnings(m)
      + When(FrontScore(m, now) < FrontThreshold, LowConfidence(FrontScore(m, now)))
  }

  /** The back side's score: 30 for a card number or an ID number, 40 more
      for a well-formed ID number. */
  function BackScore(m: FieldMap): nat {
    Weight(Present(m, CardNumberKey) || Present(m, IdNumberKey), 30) + Weight(IdAccepted(m), 40)
  }

  function BackWarnings(m: FieldMap): seq<Issue> {
    When(IdRejected(m), IdUnclear(Get(m, IdNumberKey)))
      + When(BackScore(m) < BackThreshold, LowConfidence(BackScore(m)))
  }

  // ---------------------------------------------------------------------
  // Front side
  // ---------------------------------------------------------------------

  /** The ID number check: 40 and the Emirates ID verdict for a well-formed
      number, an error for a malformed one, a warning for a missing one. */
  function IdStep(m: FieldMap): (t: Tally)
    ensures t == Tally(0, false, [], []).Then(Weight(IdAccepted(m), 40), When(IdRejected(m), InvalidIdFormat(Get(m, IdNumberKey))),
                                             When(!Present(m, IdNumberKey), IdNotFound)).(isEmiratesId := IdAccepted(m))
  {
    var id := Get(m, IdNumberKey);
    if id != "" then
      if ValidateIdNumberFormat(id) then Tally(40, true, [], [])
      else Tally(0, false, [InvalidIdFormat(id)], [])
    else Tally(0, false, [], [IdNotFound])
  }

  function NameStep(m: FieldMap, t: Tally): (r: Tally)
    ensures r == t.Then(Weight(Present(m, NameKey), 20), [], When(!Present(m, NameKey), NameNotFound))
  {
    if Get(m, NameKey) != "" then t.Add(20) else t.Warn(NameNotFound)
  }

  function BirthStep(m: FieldMap, now: Instant, t: Tally): (r: Tally)
    ensures r == t.Then(Weight(BirthAccepted(m, now), 10), [], BirthWarnings(m, now))
  {
    var dob := Get(m, DateOfBirthKey);
    BirthFacts(m, now);
    OptionalDateStep(t, dob, ValidateDateFormat(dob), ValidateDateOfBirth(dob, now), 10,
                     BirthUnclear(dob), BirthImplausible(dob))
  }

  /** The check of a date that may be missing: `w` when it is there, readable
      and `ok`; a warning when it is unreadable or not `ok`. */
  function OptionalDateStep(t: Tally, v: string, readable: bool, ok: bool, w: nat, unclear: Issue, doubtful: Issue): (r: Tally)
    ensures r == t.Then(Weight(v != "" && readable && ok, w), [],
                        if v == "" then [] else if !readable then [unclear] else When(!ok, doubtful))
  {
    if v != "" then
      if readable then
        if ok then t.Add(w) else t.Warn(doubtful)
      else t.Warn(unclear)
    else t
  }

  lemma BirthFacts(m: FieldMap, now: Instant)
    ensures var dob := Get(m, DateOfBirthKey);
      && (BirthAccepted(m, now) <==> dob != "" && ValidateDateFormat(dob) && ValidateDateOfBirth(dob, now))
      && BirthWarnings(m, now) == if dob == "" then []
                                  else if !ValidateDateFormat(dob) then [BirthUnclear(dob)]
                                  else When(!ValidateDateOfBirth(dob, now), BirthImplausible(dob))
  {
  }

  function ExpiryStep(m: FieldMap, now: Instant, t: Tally): (r: Tally)
    ensures r == t.Then(Weight(ExpiryAccepted(m, now), 20),
                        When(ExpiryPassed(m, now), Expired(Get(m, ExpiryDateKey))), ExpiryWarnings(m))
  {
    var expiry := Get(m, ExpiryDateKey);
    ExpiryFacts(m, now);
    RequiredDateStep(t, expiry, ValidateDateFormat(expiry), ValidateExpiryDate(expiry, now))
  }

  /** The expiry check: 20 when the date is there, readable and later than
      today; an error when it is readable but not later; a warning when it is
      unreadable or missing. */
  function RequiredDateStep(t: Tally, v: string, readable: bool, ok: bool): (r: Tally)
    ensures r == t.Then(Weight(v != "" && readable && ok, 20), When(v != "" && readable && !ok, Expired(v)),
                        if v == "" then [ExpiryNotFound] else When(!readable, ExpiryUnclear(v)))
  {
    if v != "" then
      if readable then
        if ok then t.Add(20) else t.Fail(Expired(v))
      else t.Warn(ExpiryUnclear(v))
    else t.Warn(ExpiryNotFound)
  }

  lemma ExpiryFacts(m: FieldMap, now: Instant)
    ensures var expiry := Get(m, ExpiryDateKey);
      && (ExpiryAccepted(m, now) <==> expiry != "" && ValidateDateFormat(expiry) && ValidateExpiryDate(expiry, now))
      && (ExpiryPassed(m, now) <==> expiry != "" && ValidateDateFormat(expiry) && !ValidateExpiryDate(expiry, now))
      && ExpiryWarnings(m) == if expiry == "" then [ExpiryNotFound]
                              else When(!ValidateDateFormat(expiry), ExpiryUnclear(expiry))
  {
  }

  function ExtrasStep(m: FieldMap, t: Tally): (r: Tally)
    ensures r == t.Then(Weight(Present(m, NationalityKey), 5) + Weight(Present(m, GenderKey), 5), [], [])
  {
    var t1 := if Get(m, NationalityKey) != "" then t.Add(5) else t;
    if Get(m, GenderKey) != "" then t1.Add(5) else t1
  }

  /** The low-confidence warning, with the score it reports. */
  function ThresholdStep(t: Tally, limit: nat): (r: Tally)
    ensures r == t.Then(0, [], When(t.confidence < limit, LowConfidence(t.confidence)))
  {
    if t.confidence < limit then t.Warn(LowConfidence(t.confidence)) else t
  }

  /** `_validate_front_side`: the checks in the source's order. The score is
      the sum of the weights of the checks that pass and never exceeds 100,
      so the final `min` never binds; the side counts as an Emirates ID
      exactly when its ID number is well formed; the errors and warnings are
      those the checks report, in order. */
  function ValidateFront(m: FieldMap, now: Instant): (r: SideReport)
    ensures r.confidence == FrontScore(m, now) <= 100
    ensures r.isEmiratesId <==> IdAccepted(m)
  {
    var t0 := IdStep(m);
    var t1 := NameStep(m, t0);
    var t2 := BirthStep(m, now, t1);
    var t3 := ExpiryStep(m, now, t2);
    var t4 := ExtrasStep(m, t3);
    var t := ThresholdStep(t4, FrontThreshold);
    assert t.confidence == t4.confidence == FrontScore(m, now) by {
      WeightsRange(IdAccepted(m), Present(m, NameKey), BirthAccepted(m, now),
                   ExpiryAccepted(m, now), Present(m, NationalityKey), Present(m, GenderKey));
    }
    assert t.isEmiratesId == t0.isEmiratesId;
    SideReport(Min(t.confidence, 100), t.isEmiratesId, t.errors, t.warnings)
  }

  /** The front side reports exactly the errors of its ID number and expiry
      checks, in that order. */
  lemma FrontReportsErrors(m: FieldMap, now: Instant)
    ensures ValidateFront(m, now).errors == FrontErrors(m, now)
  {
  }

  /** The front side reports exactly the warnings of its checks, in the order
      they run. */
  lemma FrontReportsWarnings(m: FieldMap, now: Instant)
    ensures ValidateFront(m, now).warnings == FrontWarnings(m, now)
  {
  }

  // ---------------------------------------------------------------------
  // Back side
  // ---------------------------------------------------------------------

  /** `_validate_back_side`: 30 for a card number or an ID number, 40 more for
      a well-formed ID number, a warning for a malformed one, and a warning
      when nothing was found. It never reports an error; the side counts as
      an Emirates ID exactly when a card number or an ID number is there. */
  function ValidateBack(m: FieldMap): (r: SideReport)
    ensures r.confidence == BackScore(m) && r.confidence in {0, 30, 70}
    ensures r.isEmiratesId <==> Present(m, CardNumberKey) || Present(m, IdNumberKey)
    ensures r.errors == []
    ensures r.warnings == BackWarnings(m)
  {
    var found := Get(m, CardNumberKey) != "" || Get(m, IdNumberKey) != "";
    var t1 := if found then Tally(30, true, [], []) else Tally(0, false, [], []);
    var id := Get(m, IdNumberKey);
    var t2 :=
      if id != "" then
        if ValidateIdNumberFormat(id) then t1.Add(40) else t1.Warn(IdUnclear(id))
      else t1;
    var t3 := ThresholdStep(t2, BackThreshold);
    SideReport(Min(t3.confidence, 100), t3.isEmiratesId || t3.confidence >= BackThreshold, t3.errors, t3.warnings)
  }

  // ---------------------------------------------------------------------
  // The response
  // ---------------------------------------------------------------------

  /** The dictionary `validate_emirates_id` returns. */
  datatype Verdict = Verdict(isValid: bool, isEmiratesId: bool, confidence: nat, errors: seq<Issue>, warnings: seq<Issue>)

  /** How a side validator ended: with a report, or by raising after having
      appended `errors` and `warnings` to the shared lists. */
  datatype SideRun =
    | Completed(report: SideReport)
    | Faulted(errors: seq<Issue>, warnings: seq<Issue>, reason: string)

  /** The body of `validate_emirates_id` after the side validator has run. A
      response is valid exactly when the side validator completed, found an
      Emirates ID and reported no error. After a fault the response keeps the
      problems appended so far, adds the fault as the last error, and reports
      no Emirates ID and a zero score. */
  function Respond(run: SideRun): (v: Verdict)
    ensures v.isValid <==> run.Completed? && run.report.isEmiratesId && run.report.errors == []
    ensures v.isValid ==> v.isEmiratesId && v.errors == []
    ensures run.Completed? ==> v.errors == run.report.errors && v.warnings == run.report.warnings
    ensures run.Completed? ==> v.confidence == run.report.confidence && v.isEmiratesId == run.report.isEmiratesId
    ensures run.Faulted? ==> !v.isEmiratesId && v.confidence == 0 && v.warnings == run.warnings
    ensures run.Faulted? ==> |v.errors| == |run.errors| + 1 && v.errors[..|run.errors|] == run.errors
                             && v.errors[|run.errors|] == Internal(run.reason)
  {
    match run
    case Completed(report) =>
      Verdict(report.isEmiratesId && |report.errors| == 0, report.isEmiratesId, report.confidence,
              report.errors, report.warnings)
    case Faulted(errors, warnings, reason) =>
      var es := errors + [Internal(reason)];
      assert es[..|errors|] == errors;
      Verdict(false, false, 0, es, warnings)
  }

  /** `validate_emirates_id`: the front validator for the side `"front"`,
      the back validator for any other side. The side validators are total on
      a map from field names to strings, so the run always completes. */
  function ValidateEmiratesId(m: FieldMap, side: string, now: Instant): (v: Verdict)
    ensures v.confidence <= 100
    ensures v.isValid ==> v.isEmiratesId
  {
    Respond(Completed(if side == "front" then ValidateFront(m, now) else ValidateBack(m)))
  }

  /** On the front, the response is valid exactly when the ID number is well
      formed and the expiry date is not a readable date of today or earlier;
      it names an Emirates ID exactly when the ID number is well formed; its
      score is the sum of the weights of the checks that pass. */
  lemma FrontVerdict(m: FieldMap, now: Instant)
    ensures var v := ValidateEmiratesId(m, "front", now);
      && (v.isValid <==> IdAccepted(m) && !ExpiryPassed(m, now))
      && (v.isEmiratesId <==> IdAccepted(m))
      && v.confidence == FrontScore(m, now)
  {
    FrontReportsErrors(m, now);
  }

  /** On the back, the response never carries an error, so it is valid
      exactly when it names an Emirates ID, which it does exactly when a card
      number or an ID number was found; the score is 0, 30 or 70. */
  lemma BackVerdict(m: FieldMap, side: string, now: Instant)
    requires side != "front"
    ensures var v := ValidateEmiratesId(m, side, now);
      && v.errors == []
      && (v.isValid <==> v.isEmiratesId)
      && (v.isValid <==> Present(m, CardNumberKey) || Present(m, IdNumberKey))
      && v.confidence in {0, 30, 70}
      && (v.confidence == 70 <==> IdAccepted(m))
  {
  }

  // ---------------------------------------------------------------------
  // Errors and warnings
  // ---------------------------------------------------------------------

  /** The front side reports at most two errors: a malformed ID number, then
      an expiry date of today or earlier, each exactly when it applies. */
  lemma FrontErrorFacts(m: FieldMap, now: Instant)
    ensures var es := ValidateFront(m, now).errors;
      && |es| <= 2
      && (forall e :: e in es ==> e.InvalidIdFormat? || e.Expired?)
      && (InvalidIdFormat(Get(m, IdNumberKey)) in es <==> IdRejected(m))
      && (Expired(Get(m, ExpiryDateKey)) in es <==> ExpiryPassed(m, now))
      && (IdRejected(m) ==> es[0] == InvalidIdFormat(Get(m, IdNumberKey)))
  {
    FrontReportsErrors(m, now);
    ErrorFacts(IdRejected(m), Get(m, IdNumberKey), ExpiryPassed(m, now), Get(m, ExpiryDateKey));
  }

  /** The facts of `FrontErrorFacts` for any outcome of the two checks. */
  lemma ErrorFacts(idRejected: bool, id: string, expiryPassed: bool, expiry: string)
    ensures var es := When(idRejected, InvalidIdFormat(id)) + When(expiryPassed, Expired(expiry));
      && |es| <= 2
      && (forall e :: e in es ==> e.InvalidIdFormat? || e.Expired?)
      && (InvalidIdFormat(id) in es <==> idRejected)
      && (Expired(expiry) in es <==> expiryPassed)
      && (idRejected ==> es[0] == InvalidIdFormat(id))
  {
  }

  /** The position of each kind of warning in the order of the checks. */
  function Rank(i: Issue): nat {
    match i
    case IdNotFound => 0
    case IdUnclear(_) => 0
    case NameNotFound => 1
    case BirthUnclear(_) => 2
    case BirthImplausible(_) => 2
    case ExpiryUnclear(_) => 3
    case ExpiryNotFound => 3
    case LowConfidence(_) => 4
    case _ => 5
  }

  /** Warnings strictly ordered by kind: each kind at most once, in the
      order of the checks. */
  predicate Ranked(ws: seq<Issue>) {
    forall i, j :: 0 <= i < j < |ws| ==> Rank(ws[i]) < Rank(ws[j])
  }

  predicate RanksBelow(ws: seq<Issue>, k: nat) {
    forall i :: 0 <= i < |ws| ==> Rank(ws[i]) < k
  }

  /** Appending at most one warning of the next kind keeps the order. */
  lemma AppendRanked(ws: seq<Issue>, p: seq<Issue>, k: nat)
    requires Ranked(ws) && RanksBelow(ws, k)
    requires |p| <= 1 && forall x :: x in p ==> Rank(x) == k
    ensures Ranked(ws + p) && RanksBelow(ws + p, k + 1)
  {
    if |p| == 1 {
      assert Rank(p[0]) == k;
      assert forall i :: 0 <= i < |ws| ==> (ws + p)[i] == ws[i];
    }
  }

  /** The front side's warnings come in the order of the checks, at most one
      of each kind, and the missing-field and low-score warnings are there
      exactly when their condition holds. */
  lemma FrontWarningFacts(m: FieldMap, now: Instant)
    ensures var ws := ValidateFront(m, now).warnings;
      && Ranked(ws) && |ws| <= 5
      && (IdNotFound in ws <==> !Present(m, IdNumberKey))
      && (NameNotFound in ws <==> !Present(m, NameKey))
      && (ExpiryNotFound in ws <==> !Present(m, ExpiryDateKey))
      && (LowConfidence(FrontScore(m, now)) in ws <==> FrontScore(m, now) < FrontThreshold)
      && (forall w :: w in ws ==> Rank(w) < 5)
  {
    FrontReportsWarnings(m, now);
    var score := FrontScore(m, now);
    BirthWarningKinds(m, now);
    ExpiryWarningKinds(m);
    WarningFacts(!Present(m, IdNumberKey), !Present(m, NameKey), BirthWarnings(m, now), ExpiryWarnings(m),
                 !Present(m, ExpiryDateKey), score);
  }

  /** The facts of `FrontWarningFacts` for any outcome of the five checks. */
  lemma WarningFacts(idMissing: bool, nameMissing: bool, c: seq<Issue>, d: seq<Issue>, expiryMissing: bool, score: nat)
    requires |c| <= 1 && forall x :: x in c ==> Rank(x) == 2
    requires |d| <= 1 && forall x :: x in d ==> Rank(x) == 3
    requires ExpiryNotFound in d <==> expiryMissing
    ensures var ws := When(idMissing, IdNotFound) + When(nameMissing, NameNotFound) + c + d
                      + When(score < FrontThreshold, LowConfidence(score));
      && Ranked(ws) && |ws| <= 5
      && (IdNotFound in ws <==> idMissing)
      && (NameNotFound in ws <==> nameMissing)
      && (ExpiryNotFound in ws <==> expiryMissing)
      && (LowConfidence(score) in ws <==> score < FrontThreshold)
      && (forall w :: w in ws ==> Rank(w) < 5)
  {
    var a := When(idMissing, IdNotFound);
    var b := When(nameMissing, NameNotFound);
    var e := When(score < FrontThreshold, LowConfidence(score));
    FiveRanked(a, b, c, d, e);
  }

  lemma BirthWarningKinds(m: FieldMap, now: Instant)
    ensures |BirthWarnings(m, now)| <= 1
    ensures forall x :: x in BirthWarnings(m, now) ==> Rank(x) == 2
  {
  }

  lemma ExpiryWarningKinds(m: FieldMap)
    ensures |ExpiryWarnings(m)| <= 1
    ensures forall x :: x in ExpiryWarnings(m) ==> Rank(x) == 3
    ensures ExpiryNotFound in ExpiryWarnings(m) <==> !Present(m, ExpiryDateKey)
  {
  }

  /** Five checks, each warning at most once with a kind of its own, give
      warnings ordered by kind. */
  lemma FiveRanked(a: seq<Issue>, b: seq<Issue>, c: seq<Issue>, d: seq<Issue>, e: seq<Issue>)
    requires |a| <= 1 && |b| <= 1 && |c| <= 1 && |d| <= 1 && |e| <= 1
    requires forall x :: x in a ==> Rank(x) == 0
    requires forall x :: x in b ==> Rank(x) == 1
    requires forall x :: x in c ==> Rank(x) == 2
    requires forall x :: x in d ==> Rank(x) == 3
    requires forall x :: x in e ==> Rank(x) == 4
    ensures var ws := a + b + c + d + e;
      && Ranked(ws) && |ws| <= 5
      && (forall x :: x in ws <==> x in a || x in b || x in c || x in d || x in e)
      && (forall x :: x in ws ==> Rank(x) < 5)
  {
    AppendRanked([], a, 0);
    assert [] + a == a;
    AppendRanked(a, b, 1);
    AppendRanked(a + b, c, 2);
    AppendRanked(a + b + c, d, 3);
    AppendRanked(a + b + c + d, e, 4);
  }

  /** The back side warns about a malformed ID number, then about a score
      below 30, which happens exactly when neither a card number nor an ID
      number was found. */
  lemma BackWarningFacts(m: FieldMap)
    ensures var ws := ValidateBack(m).warnings;
      && Ranked(ws) && |ws| <= 2
      && (IdUnclear(Get(m, IdNumberKey)) in ws <==> IdRejected(m))
      && (LowConfidence(0) in ws <==> !Present(m, CardNumberKey) && !Present(m, IdNumberKey))
  {
    var a := When(IdRejected(m), IdUnclear(Get(m, IdNumberKey)));
    var e := When(BackScore(m) < BackThreshold, LowConfidence(BackScore(m)));
    AppendRanked([], a, 0);
    assert [] + a == a;
    AppendRanked(a, [], 1);
    AppendRanked(a, [], 2);
    AppendRanked(a, [], 3);
    assert a + [] == a;
    AppendRanked(a, e, 4);
  }

  // ---------------------------------------------------------------------
  // Scores
  // ---------------------------------------------------------------------

  /** `more` keeps every field of `m` that is there, with the same value. */
  ghost predicate Extends(m: FieldMap, more: FieldMap) {
    forall k :: Present(m, k) ==> k in more && more[k] == m[k]
  }

  /** Finding more fields never lowers the front score. */
  lemma FrontScoreMonotone(m: FieldMap, more: FieldMap, now: Instant)
    requires Extends(m, more)
    ensures FrontScore(m, now) <= FrontScore(more, now)
  {
    assert Present(m, IdNumberKey) ==> Present(more, IdNumberKey);
    assert Present(m, NameKey) ==> Present(more, NameKey);
    assert Present(m, DateOfBirthKey) ==> Present(more, DateOfBirthKey);
    assert Present(m, ExpiryDateKey) ==> Present(more, ExpiryDateKey);
    assert Present(m, NationalityKey) ==> Present(more, NationalityKey);
    assert Present(m, GenderKey) ==> Present(more, GenderKey);
  }

  /** Finding more fields never lowers the back score. */
  lemma BackScoreMonotone(m: FieldMap, more: FieldMap)
    requires Extends(m, more)
    ensures BackScore(m) <= BackScore(more)
  {
    assert Present(m, IdNumberKey) ==> Present(more, IdNumberKey);
    assert Present(m, CardNumberKey) ==> Present(more, CardNumberKey);
  }

  /** The front score is a multiple of 5 between 0 and 100, and reaches 100
      exactly when all six checks pass. */
  lemma FrontScoreRange(m: FieldMap, now: Instant)
    ensures FrontScore(m, now) % 5 == 0 && FrontScore(m, now) <= 100
    ensures FrontScore(m, now) == 100 <==>
              && IdAccepted(m) && Present(m, NameKey) && BirthAccepted(m, now)
              && ExpiryAccepted(m, now) && Present(m, NationalityKey) && Present(m, GenderKey)
  {
    WeightsRange(IdAccepted(m), Present(m, NameKey), BirthAccepted(m, now),
                 ExpiryAccepted(m, now), Present(m, NationalityKey), Present(m, GenderKey));
  }

  lemma WeightsRange(a: bool, b: bool, c: bool, d: bool, e: bool, f: bool)
    ensures var w := Weight(a, 40) + Weight(b, 20) + Weight(c, 10) + Weight(d, 20) + Weight(e, 5) + Weight(f, 5);
      w % 5 == 0 && w <= 100 && (w == 100 <==> a && b && c && d && e && f)
  {
  }
}
