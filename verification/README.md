# Emirates ID field extraction and validation, modelled in Dafny

This project models the decision logic of the Emirates ID service of the
booking-forms backend. It has two halves.

- **The extractor** (`OCRService` in `services/ocr_service.py`). It joins the
  recognised pieces of text into one raw text and reads the card's fields off
  it with regular expressions and keyword tests:
  - on the front side: ID number, date of birth, expiry date, English name,
    Arabic name, nationality, gender and issue date;
  - on the back side: card number and ID number;
  - `extract_dates`: the stand-alone context-based date classifier.
- **The validator** (`ValidationService` in `services/validation_service.py`).
  It scores the field map, decides whether it is an Emirates ID and whether it
  is valid, and lists errors and warnings. Its helpers are modelled too: ID
  number format, the five date formats, date of birth and expiry checks, and
  the placeholder checksum.

Modelling choices:

- Every regular expression is written as a deterministic scanner. The scanners
  need no backtracking: the character after a shorter run can never start the
  next part of the pattern. For the ID and date patterns, lemmas show that the
  scanner accepts exactly the strings in the pattern's language.
- `re.search` is the leftmost index where the scanner matches.
- `re.findall` is a left-to-right scan of non-overlapping matches, and a lemma
  shows that no match starts in a gap the scan skipped.
- `datetime.strptime` with the five `DATE_FORMATS` is modelled directly:
  - `%d`, `%m` and `%Y` accept what CPython's directive patterns accept, and
    `%d` also accepts a leading space;
  - the date must exist, so 30 February and year 0 are rejected.
- The current time is a parameter, `now: Instant`: a date plus the
  microseconds since its midnight.
- The validator's float confidence is counted in integer hundredths: 40 stands
  for `0.4`.
- The modules follow the program:
  - `Text`, `Splitting`, `Patterns`: string primitives and scanners;
  - `IdNumber`, `FrontSide`, `BackSide`, `ContextDates`, `OcrService`: the
    extractor;
  - `Calendar`, `DateParse`, `DateChecks`, `IdFormat`, `Messages`,
    `Validation`: the validator;
  - `Pipeline`: what the validator says about what the extractor found.

Where the design description and the code disagree, the model follows the
code:

- The English name patterns run with `re.IGNORECASE`. A name is therefore two
  or more words of two or more letters in any case, not necessarily
  capitalised words.
- When exactly one date is found on the front side, the code ignores the
  position it computes. The date goes to the expiry date when "exp" occurs
  anywhere in the lower-cased text, not just near the date.
- `extract_dates` classifies every date, not only a single candidate, by the
  40-character window around its first occurrence. A later date overwrites an
  earlier one with the same role.
- The `$` of `ID_NUMBER_PATTERN` also matches just before a final newline. The
  format check therefore accepts a well-formed number followed by one `\n`.

## Model

| member | source | states |
|---|---|---|
| Text.Find | Booking-Forms-Backend-Python/services/ocr_service.py:255 | `str.find` answers -1 exactly when the word does not occur; otherwise the first index where it occurs |
| Text.Strip | Booking-Forms-Backend-Python/services/ocr_service.py:180 | `str.strip` gives a slice of the string with only whitespace cut on either side, and never begins or ends with whitespace |
| Text.Leftmost | Booking-Forms-Backend-Python/services/ocr_service.py:143 | the search answers the least index where the predicate holds, and nothing only when it holds nowhere in the range |
| Text.FindAll | Booking-Forms-Backend-Python/services/ocr_service.py:149 | `re.findall` returns matches of the pattern, in text order, without overlaps |
| Text.Covered | Booking-Forms-Backend-Python/services/ocr_service.py:149 | every index where a match of the pattern starts lies inside some match `re.findall` returned |
| Text.FindAllComplete | Booking-Forms-Backend-Python/services/ocr_service.py:149 | no match of the pattern starts before the first match found, between two consecutive ones, or after the last |
| Text.FirstLongest | Booking-Forms-Backend-Python/services/ocr_service.py:221 | `max(..., key=len)` picks an element no shorter than any other, and every element before it is strictly shorter (ties go to the first) |
| Text.Run | Booking-Forms-Backend-Python/services/ocr_service.py:217 | a greedy run of a character class is maximal: all of it is in the class, and the next character is not |
| Splitting.JoinSplit | Booking-Forms-Backend-Python/services/ocr_service.py:98 | joining the pieces of a split with the same separator gives back the original string |
| Splitting.SplitJoin | Booking-Forms-Backend-Python/services/ocr_service.py:98 | splitting a `sep.join` of separator-free pieces at the separator gives back the pieces |
| Patterns.IdScanIsPattern | Booking-Forms-Backend-Python/services/ocr_service.py:142 | the ID scanner matches from i to e exactly when the substring is "784", 4, 7 and 1 digits, each group optionally after one dash or whitespace |
| Patterns.IdShapeNormalized | Booking-Forms-Backend-Python/services/ocr_service.py:145 | turning spaces into dashes keeps a matched ID number in the pattern's language |
| Patterns.DateScanIsPattern | Booking-Forms-Backend-Python/services/ocr_service.py:148 | the date scanner matches from i to e exactly when the substring is 1-2 digits, `/` or `-`, 1-2 digits, `/` or `-`, 4 digits |
| Patterns.NameShapeMatched | Booking-Forms-Backend-Python/services/ocr_service.py:167 | wherever a name-shaped stretch starts, the name scanner matches there and its match reaches at least to the end of that stretch |
| Patterns.NameScanIsPattern | Booking-Forms-Backend-Python/services/ocr_service.py:167 | the name scanner matches at an index exactly when some stretch from it is name-shaped, and its match is the longest such stretch, as the greedy pattern's is |
| Patterns.NameMatchShape | Booking-Forms-Backend-Python/services/ocr_service.py:167 | a name match is two or more whitespace-separated words of two or more letters, and no letter follows it |
| Patterns.NameLabelAt | Booking-Forms-Backend-Python/services/ocr_service.py:166 | the label matches exactly where "name" in any case, or the Arabic word for name, begins |
| Patterns.MatchLabelledNameAt | Booking-Forms-Backend-Python/services/ocr_service.py:166 | a labelled match needs the label, then `[:\s]+`, then a name match; group 1 is that name match |
| Patterns.MatchIssueAt | Booking-Forms-Backend-Python/services/ocr_service.py:198 | a labelled issue-date match ends in a date match strictly after the label; group 1 is that date |
| Patterns.MatchCardAt | Booking-Forms-Backend-Python/services/ocr_service.py:217 | a card-number match is nine or more digits |
| Patterns.MatchArabicRunAt | Booking-Forms-Backend-Python/services/ocr_service.py:176 | an Arabic run is non-empty and consists of Arabic-block characters and whitespace |
| IdNumber.SearchId | Booking-Forms-Backend-Python/services/ocr_service.py:238 | `re.search` with the ID pattern finds the leftmost index where it matches, and nothing only when it matches nowhere |
| IdNumber.ExtractIdNumber | Booking-Forms-Backend-Python/services/ocr_service.py:231-241 | a number is found exactly when the pattern matches somewhere; it is then in the pattern's language, starts with "784", has 15 to 18 characters and no space |
| IdNumber.IdShapePrefix | Booking-Forms-Backend-Python/services/ocr_service.py:237 | every string in the ID pattern's language starts with "784" and has 15 to 18 characters |
| IdNumber.ExtractIdNumberIsLeftmostShape | Booking-Forms-Backend-Python/services/ocr_service.py:237-240 | the reported number is the leftmost substring in the pattern's language with spaces turned into dashes, and it is absent exactly when no substring is in the language |
| FrontSide.DateSpans | Booking-Forms-Backend-Python/services/ocr_service.py:149 | each span found is a match of the date pattern within the text |
| FrontSide.FindDates | Booking-Forms-Backend-Python/services/ocr_service.py:148-149 | every date found is in the date pattern's language, and none is found exactly when no substring is |
| FrontSide.NoDatesIffNoShape | Booking-Forms-Backend-Python/services/ocr_service.py:149 | no date is found exactly when no substring of the text is date-shaped |
| FrontSide.FirstDateIsLeftmost | Booking-Forms-Backend-Python/services/ocr_service.py:154 | the first date found is the leftmost date-shaped substring: none starts earlier |
| FrontSide.MentionsExpiryIsExp | Booking-Forms-Backend-Python/services/ocr_service.py:159 | the "expiry" test adds nothing: the text mentions expiry exactly when its lower-cased form contains "exp" |
| FrontSide.AssignDates | Booking-Forms-Backend-Python/services/ocr_service.py:153-162 | with two or more dates, the first is the date of birth and the second the expiry date; a single date is the expiry date when "exp" occurs and the date of birth otherwise; with none, nothing changes |
| FrontSide.BirthPick | Booking-Forms-Backend-Python/services/ocr_service.py:153-162 | a date of birth is set exactly when there are two or more dates, or one and no "exp"; it is the first date |
| FrontSide.ExpiryPick | Booking-Forms-Backend-Python/services/ocr_service.py:153-162 | an expiry date is set exactly when there are two or more dates, or one and "exp" occurs; it is the second date, or the only one |
| FrontSide.SearchLabelledName | Booking-Forms-Backend-Python/services/ocr_service.py:170 | the labelled search reports a name match inside the text |
| FrontSide.SearchLabelledNameNone | Booking-Forms-Backend-Python/services/ocr_service.py:166-171 | the labelled search finds nothing exactly when the labelled pattern matches at no index |
| FrontSide.SearchLabelledNameLeftmost | Booking-Forms-Backend-Python/services/ocr_service.py:170-171 | the labelled search reports the match at the leftmost index where the labelled pattern matches |
| FrontSide.StripName | Booking-Forms-Backend-Python/services/ocr_service.py:172 | `.strip()` leaves a matched name unchanged |
| FrontSide.NameText | Booking-Forms-Backend-Python/services/ocr_service.py:172 | the stripped text of a name match is the matched substring itself, and name-shaped |
| FrontSide.NameField | Booking-Forms-Backend-Python/services/ocr_service.py:164-173 | the labelled match wins when there is one; otherwise the name is the match anchored at the start of the text, if any; a name found is always name-shaped |
| FrontSide.ArabicSpans | Booking-Forms-Backend-Python/services/ocr_service.py:176-177 | each span `re.findall` returns is a greedy match of the Arabic run pattern within the text |
| FrontSide.ArabicRuns | Booking-Forms-Backend-Python/services/ocr_service.py:176-177 | one run per span found; every run is non-empty and made of Arabic-block characters and whitespace |
| FrontSide.NoArabicRunsIffNoClassChar | Booking-Forms-Backend-Python/services/ocr_service.py:176-177 | no run is found exactly when no character of the text is an Arabic-block character or whitespace |
| FrontSide.ArabicRunMaximal | Booking-Forms-Backend-Python/services/ocr_service.py:176-177 | each run is maximal: the characters just before and just after it are neither Arabic-block characters nor whitespace |
| FrontSide.ArabicRunsCover | Booking-Forms-Backend-Python/services/ocr_service.py:176-177 | every Arabic-block or whitespace character of the text lies inside some run found |
| FrontSide.ArabicNameField | Booking-Forms-Backend-Python/services/ocr_service.py:175-182 | the Arabic name is set exactly when the stripped first longest run has more than three characters; it is that stripped run, Arabic-block characters and whitespace, with no whitespace at either end |
| FrontSide.ArabicNameIsFirstLongest | Booking-Forms-Backend-Python/services/ocr_service.py:180 | the Arabic name strips a run that no run is longer than, and every earlier run is strictly shorter |
| FrontSide.StripKeepsClass | Booking-Forms-Backend-Python/services/ocr_service.py:180 | stripping a run keeps only characters of the run's class |
| FrontSide.FirstMentioned | Booking-Forms-Backend-Python/services/ocr_service.py:186-189 | the loop stops at the first keyword the text mentions; every keyword before it is not mentioned |
| FrontSide.NationalityField | Booking-Forms-Backend-Python/services/ocr_service.py:184-189 | no nationality exactly when no keyword occurs case-insensitively; otherwise the first listed keyword that occurs, in its canonical spelling |
| FrontSide.HasWord | Booking-Forms-Backend-Python/services/ocr_service.py:192 | the whole-word search succeeds exactly when one of the words occurs between word boundaries, in any case |
| FrontSide.GenderField | Booking-Forms-Backend-Python/services/ocr_service.py:191-195 | "Male" exactly when a male word occurs; otherwise "Female" exactly when a female word does; otherwise no gender |
| FrontSide.SearchIssue | Booking-Forms-Backend-Python/services/ocr_service.py:199 | the issue search finds the leftmost index where the labelled issue pattern matches, and nothing only when it matches nowhere |
| FrontSide.IssueDateField | Booking-Forms-Backend-Python/services/ocr_service.py:197-201 | the issue date is absent exactly when the labelled pattern matches nowhere; otherwise it is group 1 of the leftmost match and is date-shaped |
| FrontSide.ParseFrontSide | Booking-Forms-Backend-Python/services/ocr_service.py:126-203 | each of the eight keys is set exactly when its own rule fires, to the value that rule found, and no other key is set; the issue date never disturbs the other dates |
| FrontSide.LaterRules | Booking-Forms-Backend-Python/services/ocr_service.py:164-201 | the rules after the dates set only their own keys and leave the ID and date keys as they were |
| BackSide.CardSpans | Booking-Forms-Backend-Python/services/ocr_service.py:218 | each span found is a card-number match within the text |
| BackSide.CardRuns | Booking-Forms-Backend-Python/services/ocr_service.py:217-218 | every run found has nine or more characters, all digits |
| BackSide.NoCardRunsIffNoMatch | Booking-Forms-Backend-Python/services/ocr_service.py:218-219 | no run is found exactly when the card pattern matches nowhere |
| BackSide.CardRunMaximal | Booking-Forms-Backend-Python/services/ocr_service.py:217 | a run found is a maximal run of digits: no digit precedes or follows it |
| BackSide.CardNumberField | Booking-Forms-Backend-Python/services/ocr_service.py:216-221 | a card number is found exactly when some run is; it is the first of the longest runs, nine or more digits |
| BackSide.ParseBackSide | Booking-Forms-Backend-Python/services/ocr_service.py:205-229 | the back side sets only the card number and the ID number, each exactly when its rule fires, to the value found |
| ContextDates.Slice | Booking-Forms-Backend-Python/services/ocr_service.py:256 | a Python slice with non-negative bounds clips both bounds to the length, and is empty when the end is not after the start |
| ContextDates.Context | Booking-Forms-Backend-Python/services/ocr_service.py:256 | the context is at most 40 characters: up to 20 before the date's position and 20 from it, cut at the ends of the text |
| ContextDates.Classify | Booking-Forms-Backend-Python/services/ocr_service.py:258-263 | the role is birth exactly when a birth word occurs, expiry exactly when no birth word does and "exp" or "valid" occurs, issue exactly when none of those does and "issue" occurs |
| ContextDates.ContainsPrefix | Booking-Forms-Backend-Python/services/ocr_service.py:260 | a context containing a word contains each of its prefixes, so the tests for "expiry" and "issued" are subsumed |
| ContextDates.AssignLastWins | Booking-Forms-Backend-Python/services/ocr_service.py:254-263 | after the loop a key is set exactly when some date has that role, and it holds the last such date |
| ContextDates.ExtractDates | Booking-Forms-Backend-Python/services/ocr_service.py:243-265 | `extract_dates` sets only the date of birth, expiry date and issue date keys; `ExtractDatesLastWins` says which date each key holds |
| ContextDates.ExtractDatesLastWins | Booking-Forms-Backend-Python/services/ocr_service.py:243-265 | each key is set exactly when some date's context gives that role, and holds the last date with that role; no later date has it |
| ContextDates.DatePositionFound | Booking-Forms-Backend-Python/services/ocr_service.py:255 | each date found occurs in the lower-cased text, at or before its own position (its first occurrence may be an earlier equal date) |
| OcrService.RawText | Booking-Forms-Backend-Python/services/ocr_service.py:98 | no pieces give the empty text; for pieces without spaces, splitting the raw text at spaces gives the pieces back |
| OcrService.ParseSide | Booking-Forms-Backend-Python/services/ocr_service.py:101-105 | both sides report the same ID number; the front sets only front keys; every other side sets only the card number and the ID number |
| OcrService.ExtractText | Booking-Forms-Backend-Python/services/ocr_service.py:97-114 | the raw text is empty for no pieces and splits back into the pieces when none holds a space; the data holds the ID number `extract_id_number` finds in the raw text, no empty value, only the front keys for "front", and only the card and ID numbers, the card number as found, for any other side |
| OcrService.ParsedValuesNonEmpty | Booking-Forms-Backend-Python/services/ocr_service.py:139-229 | neither parser stores an empty string |
| OcrService.ParsedValuesPresent | Booking-Forms-Backend-Python/services/ocr_service.py:144-145 | every value the parsers store is a non-empty string, so a stored key always counts as present for the validator |
| OcrService.FieldsNonEmpty | Booking-Forms-Backend-Python/services/ocr_service.py:141-201 | no front-side rule ever finds an empty string |
| Calendar.DaysInMonth | Booking-Forms-Backend-Python/services/validation_service.py:202 | a month has 28 to 31 days, and February has 29 exactly in a Gregorian leap year |
| Calendar.BeforeTrichotomy | Booking-Forms-Backend-Python/services/validation_service.py:219 | date comparison is a strict total order |
| Calendar.MidnightOrder | Booking-Forms-Backend-Python/services/validation_service.py:231 | the current time is before a date's midnight exactly when today is an earlier day, and after it exactly when today is a later day or it is past midnight on that day |
| DateParse.DayField | Booking-Forms-Backend-Python/services/validation_service.py:22 | a `%d` field is one or two digits, or a space and a digit, with value 1 to 31 |
| DateParse.MonthField | Booking-Forms-Backend-Python/services/validation_service.py:22 | a `%m` field is one or two digits with value 1 to 12 |
| DateParse.DayFieldSpellings | Booking-Forms-Backend-Python/services/validation_service.py:21-27 | `%d` accepts a day from 1 to 31 written with two digits and a day from 1 to 9 also with one digit or a space before it, reads each as that day, and accepts nothing else |
| DateParse.MonthFieldSpellings | Booking-Forms-Backend-Python/services/validation_service.py:21-27 | `%m` accepts a month from 1 to 12 written with two digits and a month from 1 to 9 also with one digit, reads each as that month, and accepts nothing else |
| DateParse.YearField | Booking-Forms-Backend-Python/services/validation_service.py:22 | a `%Y` field is accepted exactly when it is four digits |
| DateParse.MakeDate | Booking-Forms-Backend-Python/services/validation_service.py:202 | a date is built exactly when all three fields were read and they name a day that exists |
| DateParse.ParseWith | Booking-Forms-Backend-Python/services/validation_service.py:202 | every date `strptime` returns exists in the calendar |
| DateParse.FirstParse | Booking-Forms-Backend-Python/services/validation_service.py:200-205 | the loop succeeds exactly when some format parses, and returns the result of the first format that does |
| DateParse.ParseDate | Booking-Forms-Backend-Python/services/validation_service.py:198-205 | `parse_date` succeeds exactly when one of the five formats parses the string, and then returns an existing date |
| DateParse.ValidateDateFormat | Booking-Forms-Backend-Python/services/validation_service.py:188-196 | the format check accepts exactly the strings `parse_date` can parse |
| DateParse.FormatsExclusive | Booking-Forms-Backend-Python/services/validation_service.py:21-27 | no string parses under two different formats, so the order of `DATE_FORMATS` never matters |
| DateParse.ParseDateIsAnyFormat | Booking-Forms-Backend-Python/services/validation_service.py:198-205 | whichever format parses a string, `parse_date` returns that same date |
| DateParse.FormatRoundTrip | Booking-Forms-Backend-Python/services/validation_service.py:202 | a date written zero-padded in a format parses back under that format to the same date |
| DateParse.ParseDateRoundTrip | Booking-Forms-Backend-Python/services/validation_service.py:198-205 | a date written zero-padded in any of the five formats is read back by `parse_date` |
| DateParse.ParseDateUsesOwnFormat | Booking-Forms-Backend-Python/services/validation_service.py:200-204 | `parse_date` can only succeed with the format the string itself is written in |
| DateParse.ParsedFormat | Booking-Forms-Backend-Python/services/validation_service.py:21-27 | a string that parses under a format is written in that format: its separator and field order are read off the string |
| DateParse.ParsedSeparators | Booking-Forms-Backend-Python/services/validation_service.py:21-27 | a date that parses uses one separator throughout, so mixed separators never parse |
| DateParse.ExampleDayFirst | Booking-Forms-Backend-Python/services/validation_service.py:22 | "01/02/2020" is read day first, as 1 February 2020 |
| DateParse.ExampleNoSuchDay | Booking-Forms-Backend-Python/services/validation_service.py:202 | "30/02/2020" does not parse: the day does not exist |
| DateParse.ExampleMixedSeparators | Booking-Forms-Backend-Python/services/validation_service.py:21-27 | "01/02-2020" does not parse: the separators differ |
| DateChecks.ValidateDateOfBirth | Booking-Forms-Backend-Python/services/validation_service.py:207-222 | a date of birth is accepted exactly when it parses, is not before 1 January 1900 and is not a later day than today |
| DateChecks.ValidateExpiryDate | Booking-Forms-Backend-Python/services/validation_service.py:224-231 | an expiry date is accepted exactly when it parses and is a later day than today |
| DateChecks.IsIdExpired | Booking-Forms-Backend-Python/services/validation_service.py:233-239 | a card counts as expired exactly when its expiry does not parse, is an earlier day, or is today and midnight has passed |
| DateChecks.ExpiryValidNotExpired | Booking-Forms-Backend-Python/services/validation_service.py:224-239 | an expiry date the validator accepts is never reported as expired |
| DateChecks.ExpiryCases | Booking-Forms-Backend-Python/services/validation_service.py:224-239 | for a readable date, at most one of "valid expiry" and "expired" holds, and neither holds only at exactly the expiry day's midnight |
| DateChecks.BirthStaysValid | Booking-Forms-Backend-Python/services/validation_service.py:207-222 | a date of birth accepted on some day stays accepted on every later day |
| DateChecks.ExpiryStaysInvalid | Booking-Forms-Backend-Python/services/validation_service.py:224-231 | an expiry date rejected on some day stays rejected on every later day |
| IdFormat.ValidateIdNumberFormat | Booking-Forms-Backend-Python/services/validation_service.py:166-186 | the format check accepts exactly the strings in the ID pattern's language, possibly followed by one newline; turning spaces into dashes never changes the verdict |
| IdFormat.FullMatchShape | Booking-Forms-Backend-Python/services/validation_service.py:18 | the anchored pattern matches the normalised number exactly when the number, or the number without a final newline, is in the ID pattern's language |
| IdFormat.NormalizedShape | Booking-Forms-Backend-Python/services/validation_service.py:177 | a string is in the ID pattern's language exactly when it is after its spaces become dashes |
| IdFormat.ExtractedIdWellFormed | Booking-Forms-Backend-Python/services/validation_service.py:166-186 | every ID number the extractor reports passes the format check |
| IdFormat.RemoveSeps | Booking-Forms-Backend-Python/services/validation_service.py:247 | removing dashes and whitespace leaves no dash or whitespace and never lengthens the string |
| IdFormat.RemoveAppend | Booking-Forms-Backend-Python/services/validation_service.py:247 | removing characters from a concatenation removes them from each part |
| IdFormat.RemoveNone | Booking-Forms-Backend-Python/services/validation_service.py:247 | a string with no character of the class is left unchanged |
| IdFormat.DigitSum | Booking-Forms-Backend-Python/services/validation_service.py:260 | the digit sum is at most nine per digit |
| IdFormat.ChecksumDigits | Booking-Forms-Backend-Python/services/validation_service.py:249-265 | the test only passes fifteen characters that are all digits (a non-digit makes `int` raise, answered with False) |
| IdFormat.ValidateIdNumberChecksum | Booking-Forms-Backend-Python/services/validation_service.py:241-265 | the placeholder only accepts numbers that leave exactly fifteen digits once separators are removed |
| IdFormat.CheckDigit | Booking-Forms-Backend-Python/services/validation_service.py:261 | the expected check digit is a digit |
| IdFormat.ChecksumUnique | Booking-Forms-Backend-Python/services/validation_service.py:256-263 | among the fifteen-digit numbers with given first fourteen digits, the placeholder accepts exactly the one ending in the digit sum modulo 10 |
| IdFormat.ChecksumIgnoresSeparator | Booking-Forms-Backend-Python/services/validation_service.py:247 | inserting or deleting a dash or whitespace anywhere never changes the checksum verdict |
| IdFormat.IdShapeDigits | Booking-Forms-Backend-Python/services/validation_service.py:247-249 | a number in the ID pattern's language always leaves exactly fifteen digits after separator removal |
| IdFormat.FormatDoesNotImplyChecksum | Booking-Forms-Backend-Python/services/validation_service.py:241-265 | the format check does not imply the checksum: fifteen digits starting with "784" with the wrong last digit pass one and fail the other |
| Messages.NatText | Booking-Forms-Backend-Python/services/validation_service.py:130 | the whole part is written as digits without leading zeros that read back as the number |
| Messages.Fixed2 | Booking-Forms-Backend-Python/services/validation_service.py:130 | `:.2f` writes the whole part, a point and exactly two decimals, which together read back as the score; a score below 1 starts with "0." |
| Messages.Message | Booking-Forms-Backend-Python/services/validation_service.py:62-159 | every message opens with the fixed text of its kind, followed by the value it quotes |
| Messages.KindOfOpening | Booking-Forms-Backend-Python/services/validation_service.py:62-159 | the openings of the eleven kinds of message are told apart by their first characters, whatever value follows |
| Messages.Fixed2RoundTrip | Booking-Forms-Backend-Python/services/validation_service.py:130 | a score written with two decimals reads back as the same score |
| Messages.MessageRoundTrip | Booking-Forms-Backend-Python/services/validation_service.py:62-159 | reading a message back gives the issue it reports, including the quoted value or score |
| Messages.MessageInjective | Booking-Forms-Backend-Python/services/validation_service.py:62-159 | distinct issues never produce the same message text |
| Validation.IdStep | Booking-Forms-Backend-Python/services/validation_service.py:77-87 | a well-formed ID number earns 40 and the Emirates ID verdict; a malformed one gives the format error; a missing one gives the not-found warning |
| Validation.NameStep | Booking-Forms-Backend-Python/services/validation_service.py:89-93 | a name earns 20, and a missing one gives the not-found warning |
| Validation.BirthStep | Booking-Forms-Backend-Python/services/validation_service.py:95-104 | a plausible date of birth earns 10; an unreadable or implausible one gives its warning; a missing one gives nothing |
| Validation.OptionalDateStep | Booking-Forms-Backend-Python/services/validation_service.py:96-104 | an optional date earns its weight only when present, readable and acceptable; otherwise it warns, except when it is missing |
| Validation.BirthFacts | Booking-Forms-Backend-Python/services/validation_service.py:95-104 | the date of birth earns its weight exactly when it is present, readable and plausible, and the warnings are those of the nested checks |
| Validation.ExpiryStep | Booking-Forms-Backend-Python/services/validation_service.py:106-117 | a later expiry date earns 20; a readable one of today or earlier is the expired error; an unreadable or missing one gives its warning |
| Validation.RequiredDateStep | Booking-Forms-Backend-Python/services/validation_service.py:107-117 | a required date earns 20 when it is acceptable, is an error when readable but not acceptable, and warns when unreadable or missing |
| Validation.ExpiryFacts | Booking-Forms-Backend-Python/services/validation_service.py:106-117 | the expiry date earns its weight or yields the expired error exactly as the nested checks decide, and is reported missing exactly when absent |
| Validation.ExtrasStep | Booking-Forms-Backend-Python/services/validation_service.py:119-125 | nationality and gender earn 5 each when present and report nothing |
| Validation.ThresholdStep | Booking-Forms-Backend-Python/services/validation_service.py:127-130 | a score below the threshold adds one low-confidence warning quoting the score, and changes nothing else |
| Validation.ValidateFront | Booking-Forms-Backend-Python/services/validation_service.py:72-135 | the front score is the sum of the weights of the checks that pass and is at most 100, so the final `min` never binds; the side is an Emirates ID exactly when its ID number is well formed |
| Validation.FrontReportsErrors | Booking-Forms-Backend-Python/services/validation_service.py:78-117 | the front side reports exactly the errors of its ID number and expiry checks, in that order |
| Validation.FrontReportsWarnings | Booking-Forms-Backend-Python/services/validation_service.py:78-130 | the front side reports exactly the warnings of its checks, in the order they run |
| Validation.ValidateBack | Booking-Forms-Backend-Python/services/validation_service.py:137-164 | the back score is 0, 30 or 70; the side is an Emirates ID exactly when a card number or ID number is present; it never reports an error |
| Validation.Respond | Booking-Forms-Backend-Python/services/validation_service.py:50-70 | the response is valid exactly when the side validator completed, found an Emirates ID and reported no error; after a fault the problems so far are kept, the fault is the last error, and the score is 0 |
| Validation.ValidateEmiratesId | Booking-Forms-Backend-Python/services/validation_service.py:33-70 | the confidence never exceeds 100 hundredths, and a valid response always names an Emirates ID |
| Validation.FrontVerdict | Booking-Forms-Backend-Python/services/validation_service.py:51-58 | on the front, valid exactly when the ID number is well formed and the expiry is not a readable date of today or earlier; an Emirates ID exactly when the number is well formed |
| Validation.BackVerdict | Booking-Forms-Backend-Python/services/validation_service.py:137-164 | on the back, no error is ever reported, so valid means Emirates ID, which means a card or ID number is present; the score is 70 exactly when the ID number is well formed |
| Validation.FrontErrorFacts | Booking-Forms-Backend-Python/services/validation_service.py:78-117 | the front reports at most two errors: a format error exactly when the ID number is malformed (and then first), and an expired error exactly when the expiry has passed |
| Validation.FrontWarningFacts | Booking-Forms-Backend-Python/services/validation_service.py:86-130 | the front warnings follow the order of the checks, at most one of each kind, and each missing-field or low-score warning is there exactly when its condition holds |
| Validation.BackWarningFacts | Booking-Forms-Backend-Python/services/validation_service.py:148-159 | the back warns about a malformed ID number exactly when it is malformed, and about a zero score exactly when neither number was found |
| Validation.FrontScoreMonotone | Booking-Forms-Backend-Python/services/validation_service.py:77-125 | finding more fields never lowers the front score |
| Validation.BackScoreMonotone | Booking-Forms-Backend-Python/services/validation_service.py:142-152 | finding more fields never lowers the back score |
| Validation.FrontScoreRange | Booking-Forms-Backend-Python/services/validation_service.py:77-133 | the front score is a multiple of 5 between 0 and 100, and reaches 100 exactly when all six checks pass |
| Pipeline.FrontPipeline | Booking-Forms-Backend-Python/services/validation_service.py:51-58 | for an extracted front side, the verdict names an Emirates ID exactly when an ID number was found, is valid exactly when the expiry has not passed as well, and the only possible error is the expired one |
| Pipeline.FrontWithoutIdError | Booking-Forms-Backend-Python/services/validation_service.py:77-117 | when the ID number, if any, is well formed, the front's only possible error is the expired one |
| Pipeline.BackPipeline | Booking-Forms-Backend-Python/services/validation_service.py:137-164 | for an extracted back side, valid exactly when a card number or ID number was found, score 70 exactly when an ID number was, and only the low-score warning is possible |
| Pipeline.ExtractedIdAccepted | Booking-Forms-Backend-Python/services/ocr_service.py:141-145 | on either side the parsed ID number is present exactly when the extractor found one, and then the validator accepts its format |
| Pipeline.SidesAgreeOnId | Booking-Forms-Backend-Python/services/ocr_service.py:224-227 | the front and back parsers report the same ID number for the same text |
| Pipeline.ExtractedIdChecksum | Booking-Forms-Backend-Python/services/validation_service.py:241-265 | an extracted ID number always has fifteen digits, so the checksum verdict rests on the check digit alone |
| Pipeline.ChecksumOfDigits | Booking-Forms-Backend-Python/services/validation_service.py:249-263 | for fifteen digits the placeholder compares the last with the digit sum of the first fourteen modulo 10 |
| Fields.Get | Booking-Forms-Backend-Python/services/validation_service.py:78 | `data.get(k, '')` is non-empty exactly when the field is present, and is the stored value when the key is there |
| Fields.SetIf | Booking-Forms-Backend-Python/services/ocr_service.py:144-145 | a rule that fired adds its key with the value found, one that did not leaves the map as it was; other keys keep their values |

## Left out

- Image decoding, OpenCV preprocessing and EasyOCR recognition are not modelled. The extractor starts from the recognised pieces of text.
- The average recognition confidence and the `ocrResults` list of `extract_text` are not modelled. Neither affects the parsed fields or the verdict.
- The error answers of `extract_text` (ocr_service.py:119-124) are not modelled. They come from image and recognition failures.
- Logging is not modelled.
- `datetime.now()` is not read: it is the parameter `now`.
- Python dictionaries keep insertion order; the model's maps do not. No decision depends on the order.
- Validation.ValidateFront: the score is exact hundredths rather than a binary float. Python's float sum of the weights can differ from the exact value in the last binary digits (for example 0.1 + 0.2). The threshold decisions and the `:.2f` texts are the same; the returned `confidence` number is not modelled bit for bit.
- Validation.ValidateEmiratesId: never takes the exception branch. The side validators are total on a map from strings to strings, and only values that are not strings could make them raise. The branch itself is modelled by `Validation.Respond` on a `Faulted` run.
- Character classes are restricted. `\d` and `int()` accept only ASCII digits. Case folding is ASCII only. `\w` (and so `\b`) is ASCII letters, digits and `_`, plus Python's word characters in the Arabic block U+0600..U+06FF; other non-ASCII word characters are treated as non-word characters. `\s` is Python's full whitespace set.
