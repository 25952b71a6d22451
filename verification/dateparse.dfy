/** `parse_date` and `validate_date_format`: `datetime.strptime` tried with the
    five formats of `DATE_FORMATS`, in order, the first success winning.

    `strptime` turns each directive into a regular expression and requires it
    to match the whole string: `%d` is `3[01]|[12]\d|0[1-9]|[1-9]| [1-9]`,
    `%m` is `1[0-2]|0[1-9]|[1-9]` and `%Y` is four digits. A field never holds
    the separator, so a string parses under a format exactly when splitting it
    at the format's separator gives three fields in the directives' languages
    and the fields name a day that `datetime` accepts (year 0 and 30 February
    raise `ValueError`). */
module DateParse {

  import opened Wrappers
  import opened Text
  import opened Calendar
  import opened Splitting

  /** One entry of `DATE_FORMATS`: `%d<sep>%m<sep>%Y` or `%Y<sep>%m<sep>%d`. */
  datatype Format = DayFirst(sep: char) | YearFirst(sep: char)

  /** `DATE_FORMATS`, in the order they are tried. */
  const DateFormats: seq<Format> :=
    [DayFirst('/'), DayFirst('-'), YearFirst('/'), YearFirst('-'), DayFirst('.')]

  /** Value of two ASCII digits. */
  function TwoDigits(a: char, b: char): (v: nat)
    requires IsDigit(a) && IsDigit(b)
    ensures v <= 99
  {
    10 * DigitValue(a) + DigitValue(b)
  }

  /** A `%d` field and its value. */
  function DayField(f: string): (r: Option<int>)
    ensures r.Some? ==> 1 <= r.value <= 31
    ensures r.Some? ==> 1 <= |f| <= 2 && forall k :: 0 <= k < |f| ==> IsDigit(f[k]) || f[k] == ' '
  {
    if |f| == 1 && '1' <= f[0] <= '9' then Some(DigitValue(f[0]))
    else if |f| == 2 && f[0] == ' ' && '1' <= f[1] <= '9' then Some(DigitValue(f[1]))
    else if |f| == 2 && IsDigit(f[0]) && IsDigit(f[1]) && 1 <= TwoDigits(f[0], f[1]) <= 31 then
      Some(TwoDigits(f[0], f[1]))
    else None
  }

  /** A `%m` field and its value. */
  function MonthField(f: string): (r: Option<int>)
    ensures r.Some? ==> 1 <= r.value <= 12
    ensures r.Some? ==> 1 <= |f| <= 2 && AllDigits(f)
  {
    if |f| == 1 && '1' <= f[0] <= '9' then Some(DigitValue(f[0]))
    else if |f| == 2 && IsDigit(f[0]) && IsDigit(f[1]) && 1 <= TwoDigits(f[0], f[1]) <= 12 then
      Some(TwoDigits(f[0], f[1]))
    else None
  }

  /** A `%Y` field and its value. */
  function YearField(f: string): (r: Option<int>)
    ensures r.Some? ==> 0 <= r.value <= 9999
    ensures r.Some? <==> |f| == 4 && AllDigits(f)
  {
    if |f| == 4 && AllDigits(f) then
      Some(100 * TwoDigits(f[0], f[1]) + TwoDigits(f[2], f[3]))
    else None
  }

  /** The date built from field values, if `datetime` accepts it. */
  function MakeDate(y: Option<int>, m: Option<int>, d: Option<int>): (r: Option<Date>)
    ensures r.Some? ==> ValidDate(r.value)
    ensures r.Some? <==> y.Some? && m.Some? && d.Some? && ValidDate(Date(y.value, m.value, d.value))
  {
    if y.Some? && m.Some? && d.Some? && ValidDate(Date(y.value, m.value, d.value)) then
      Some(Date(y.value, m.value, d.value))
    else None
  }

  /** `datetime.strptime(s, f)`, `None` standing for `ValueError`. */
  function ParseWith(s: string, f: Format): (r: Option<Date>)
    ensures r.Some? ==> ValidDate(r.value)
  {
    var parts := Split(s, f.sep);
    if |parts| != 3 then None
    else match f
      case DayFirst(_) => MakeDate(YearField(parts[2]), MonthField(parts[1]), DayField(parts[0]))
      case YearFirst(_) => MakeDate(YearField(parts[0]), MonthField(parts[1]), DayField(parts[2]))
  }

  /** The first format of `fs` under which `s` parses. */
  function FirstParse(s: string, fs: seq<Format>): (r: Option<Date>)
    decreases |fs|
    ensures r.Some? <==> exists k :: 0 <= k < |fs| && ParseWith(s, fs[k]).Some?
    ensures r.Some? ==> exists k :: 0 <= k < |fs| && r == ParseWith(s, fs[k])
                                    && forall j :: 0 <= j < k ==> ParseWith(s, fs[j]).None?
  {
    if |fs| == 0 then None
    else
      var r := ParseWith(s, fs[0]);
      if r.Some? then r
      else
        var rest := FirstParse(s, fs[1..]);
        assert forall k :: 1 <= k < |fs| ==> fs[k] == fs[1..][k - 1];
        assert rest.Some? ==> exists k :: 0 <= k < |fs| && rest == ParseWith(s, fs[k])
                                          && forall j :: 0 <= j < k ==> ParseWith(s, fs[j]).None? by {
          if rest.Some? {
            var k :| 0 <= k < |fs[1..]| && rest == ParseWith(s, fs[1..][k])
                     && forall j :: 0 <= j < k ==> ParseWith(s, fs[1..][j]).None?;
            assert forall j :: 0 <= j < k + 1 ==> ParseWith(s, fs[j]).None? by {
              forall j | 0 <= j < k + 1 ensures ParseWith(s, fs[j]).None? {
                if j > 0 { assert fs[j] == fs[1..][j - 1]; }
              }
            }
          }
        }
        rest
  }

  /** `parse_date`. */
  function ParseDate(s: string): (r: Option<Date>)
    ensures r.Some? ==> ValidDate(r.value)
    ensures r.Some? <==> exists k :: 0 <= k < |DateFormats| && ParseWith(s, DateFormats[k]).Some?
  {
    FirstParse(s, DateFormats)
  }

  /** `validate_date_format`: the same loop as `parse_date`, answering whether
      some format succeeded. */
  function ValidateDateFormat(s: string): (ok: bool)
    ensures ok <==> ParseDate(s).Some?
  {
    FormatFound(s, DateFormats)
  }

  function FormatFound(s: string, fs: seq<Format>): (ok: bool)
    decreases |fs|
    ensures ok <==> FirstParse(s, fs).Some?
  {
    if |fs| == 0 then false
    else if ParseWith(s, fs[0]).Some? then true
    else FormatFound(s, fs[1..])
  }

  // ---------------------------------------------------------------------
  // The formats exclude one another
  // ---------------------------------------------------------------------

  /** `sepa.join` of three pieces. */
  lemma Join3(p: seq<string>, sep: char)
    requires |p| == 3
    ensures Join(p, sep) == p[0] + [sep] + p[1] + [sep] + p[2]
  {
    assert p[1..][1..] == [p[2]];
    assert Join(p[1..], sep) == p[1] + [sep] + p[2];
  }

  /** The characters a date field may hold. */
  predicate IsFieldChar(c: char) {
    IsDigit(c) || c == ' '
  }

  /** The format a date string is written in, read off the string itself:
      the separator is the first character that no field may hold, and the
      year comes first when four characters precede it. */
  function FormatOf(s: string): (r: Option<Format>)
  {
    var n := Run(s, 0, IsFieldChar);
    if n == |s| then None
    else if n == 4 then Some(YearFirst(s[n]))
    else Some(DayFirst(s[n]))
  }

  /** A string parses under a format of `DATE_FORMATS` only if that format
      is the one it is written in. */
  lemma ParsedFormat(s: string, f: Format)
    requires f in DateFormats && ParseWith(s, f).Some?
    ensures FormatOf(s) == Some(f)
  {
    var p := Split(s, f.sep);
    ParsedFieldChars(s, f);
    JoinSplit(s, f.sep);
    FormatOfJoin(p, f.sep);
    match f
    case DayFirst(_) =>
      assert DayField(p[0]).Some?;
    case YearFirst(_) =>
      assert YearField(p[0]).Some?;
  }

  /** Three pieces of field characters joined by a separator are written in
      the format with that separator, the year first when the first piece
      has four characters. */
  lemma FormatOfJoin(p: seq<string>, sep: char)
    requires |p| == 3 && !IsFieldChar(sep)
    requires forall j, k :: 0 <= j < 3 && 0 <= k < |p[j]| ==> IsFieldChar(p[j][k])
    ensures FormatOf(Join(p, sep)) == if |p[0]| == 4 then Some(YearFirst(sep)) else Some(DayFirst(sep))
  {
    Join3(p, sep);
    var s := Join(p, sep);
    assert forall k :: 0 <= k < |p[0]| ==> s[k] == p[0][k];
    assert s[|p[0]|] == sep;
    RunExact(s, 0, |p[0]|, IsFieldChar);
  }

  /** A string parses under at most one of the formats, so the order in which
      `parse_date` tries them never changes its result. */
  lemma FormatsExclusive(s: string, f: Format, g: Format)
    requires f in DateFormats && g in DateFormats
    ensures ParseWith(s, f).Some? && ParseWith(s, g).Some? ==> f == g
  {
    if ParseWith(s, f).Some? && ParseWith(s, g).Some? {
      ParsedFormat(s, f);
      ParsedFormat(s, g);
    }
  }

  /** Whatever format of `DATE_FORMATS` parses a string, `parse_date` finds
      that same date. */
  lemma ParseDateIsAnyFormat(s: string, f: Format)
    requires f in DateFormats && ParseWith(s, f).Some?
    ensures ParseDate(s) == ParseWith(s, f)
  {
    var j :| 0 <= j < |DateFormats| && DateFormats[j] == f;
    assert ParseDate(s).Some?;
    var k :| 0 <= k < |DateFormats| && ParseDate(s) == ParseWith(s, DateFormats[k])
              && forall j :: 0 <= j < k ==> ParseWith(s, DateFormats[j]).None?;
    ParsedFormat(s, f);
    assert DateFormats[k] in DateFormats;
    ParsedFormat(s, DateFormats[k]);
  }

  // ---------------------------------------------------------------------
  // Writing a date back: the inverse of parsing
  // ---------------------------------------------------------------------

  function DigitChar(n: nat): (c: char)
    requires n <= 9
    ensures IsDigit(c) && DigitValue(c) == n
  {
    ('0' as int + n) as char
  }

  /** `n` written with two digits, zero-padded. */
  function Pad2(n: nat): (r: string)
    requires n <= 99
    ensures |r| == 2 && IsDigit(r[0]) && IsDigit(r[1]) && TwoDigits(r[0], r[1]) == n
  {
    [DigitChar(n / 10), DigitChar(n % 10)]
  }

  /** `n` written with four digits, zero-padded. */
  function Pad4(n: nat): (r: string)
    requires n <= 9999
    ensures YearField(r) == Some(n)
  {
    var r := Pad2(n / 100) + Pad2(n % 100);
    assert AllDigits(r);
    r
  }

  /** The three fields `d.strftime` writes with format `f`, in order. */
  function FormatFields(d: Date, f: Format): (p: seq<string>)
    requires ValidDate(d)
    ensures |p| == 3 && forall j, k :: 0 <= j < 3 && 0 <= k < |p[j]| ==> IsDigit(p[j][k])
  {
    var p := match f
      case DayFirst(_) => [Pad2(d.day), Pad2(d.month), Pad4(d.year)]
      case YearFirst(_) => [Pad4(d.year), Pad2(d.month), Pad2(d.day)];
    assert YearField(Pad4(d.year)).Some?;
    p
  }

  /** `d.strftime` with format `f`: every field zero-padded. */
  function FormatDate(d: Date, f: Format): string
    requires ValidDate(d)
  {
    Join(FormatFields(d, f), f.sep)
  }

  /** Each field written zero-padded reads back as its value. */
  lemma PaddedFields(d: Date)
    requires ValidDate(d)
    ensures DayField(Pad2(d.day)) == Some(d.day)
    ensures MonthField(Pad2(d.month)) == Some(d.month)
    ensures YearField(Pad4(d.year)) == Some(d.year)
  {
  }

  /** The spellings `%d` accepts: a day from 1 to 31 written with two
      digits, and a day from 1 to 9 also written with one digit or with a
      space before its digit; each is read as that day and nothing else is
      accepted. */
  lemma DayFieldSpellings(f: string, v: int)
    ensures DayField(f) == Some(v) <==>
              1 <= v <= 31 && (f == Pad2(v) || (v <= 9 && (f == [DigitChar(v)] || f == [' ', DigitChar(v)])))
  {
    if DayField(f) == Some(v) {
      if |f| == 1 {
        assert f == [DigitChar(v)];
      } else if f[0] == ' ' {
        assert f == [' ', DigitChar(v)];
      } else {
        TwoDigitsPad(f);
      }
    }
  }

  /** The spellings `%m` accepts: a month from 1 to 12 written with two
      digits, and a month from 1 to 9 also written with one digit; each is
      read as that month and nothing else is accepted. */
  lemma MonthFieldSpellings(f: string, v: int)
    ensures MonthField(f) == Some(v) <==> 1 <= v <= 12 && (f == Pad2(v) || (v <= 9 && f == [DigitChar(v)]))
  {
    if MonthField(f) == Some(v) {
      if |f| == 1 {
        assert f == [DigitChar(v)];
      } else {
        TwoDigitsPad(f);
      }
    }
  }

  /** Two digits are the zero-padded spelling of their value. */
  lemma TwoDigitsPad(f: string)
    requires |f| == 2 && IsDigit(f[0]) && IsDigit(f[1])
    ensures f == Pad2(TwoDigits(f[0], f[1]))
  {
    var v := TwoDigits(f[0], f[1]);
    assert v / 10 == DigitValue(f[0]) && v % 10 == DigitValue(f[1]);
  }

  /** Parsing a date written in one of the formats gives the date back. */
  lemma FormatRoundTrip(d: Date, f: Format)
    requires ValidDate(d) && f in DateFormats
    ensures ParseWith(FormatDate(d, f), f) == Some(d)
  {
    var p := FormatFields(d, f);
    assert !IsDigit(f.sep);
    SplitJoin(p, f.sep);
    PaddedFields(d);
  }

  /** Whatever format a date is written in, `parse_date` reads it back. */
  lemma ParseDateRoundTrip(d: Date, f: Format)
    requires ValidDate(d) && f in DateFormats
    ensures ParseDate(FormatDate(d, f)) == Some(d)
  {
    FormatRoundTrip(d, f);
    ParseDateIsAnyFormat(FormatDate(d, f), f);
  }

  /** `parse_date` can only succeed with the format the string is written in. */
  lemma ParseDateUsesOwnFormat(s: string)
    ensures ParseDate(s).Some? ==> FormatOf(s).Some? && ParseDate(s) == ParseWith(s, FormatOf(s).value)
  {
    if ParseDate(s).Some? {
      var k :| 0 <= k < |DateFormats| && ParseDate(s) == ParseWith(s, DateFormats[k]);
      assert DateFormats[k] in DateFormats;
      ParsedFormat(s, DateFormats[k]);
    }
  }

  // ---------------------------------------------------------------------
  // Examples
  // ---------------------------------------------------------------------

  /** "01/02/2020" is the first of February: the day comes first. */
  lemma ExampleDayFirst()
    ensures ParseDate("01/02/2020") == Some(Date(2020, 2, 1))
  {
    ExampleDayFirstSplit();
    ExampleDayFirstFields();
    DayFirstParses("01/02/2020", '/', ["01", "02", "2020"], Date(2020, 2, 1));
  }

  lemma ExampleDayFirstFields()
    ensures DayField("01") == Some(1) && MonthField("02") == Some(2) && YearField("2020") == Some(2020)
    ensures ValidDate(Date(2020, 2, 1))
  {
    assert TwoDigits('0', '1') == 1 && TwoDigits('0', '2') == 2 && TwoDigits('2', '0') == 20;
  }

  /** A string whose three pieces read as a valid date, day first, parses
      to that date. */
  lemma DayFirstParses(s: string, sep: char, parts: seq<string>, d: Date)
    requires DayFirst(sep) in DateFormats && Split(s, sep) == parts && |parts| == 3
    requires DayField(parts[0]) == Some(d.day) && MonthField(parts[1]) == Some(d.month)
    requires YearField(parts[2]) == Some(d.year) && ValidDate(d)
    ensures ParseDate(s) == Some(d)
  {
    ParseDateIsAnyFormat(s, DayFirst(sep));
  }

  lemma ExampleDayFirstSplit()
    ensures Split("01/02/2020", '/') == ["01", "02", "2020"]
  {
    var parts := ["01", "02", "2020"];
    Join3(parts, '/');
    assert Join(parts, '/') == "01/02/2020";
    SplitJoin(parts, '/');
  }

  /** 30 February does not exist, in a leap year or otherwise. */
  lemma ExampleNoSuchDay()
    ensures ParseDate("30/02/2020") == None
  {
    var s := "30/02/2020";
    ExampleNoSuchDayFormat();
    assert TwoDigits('3', '0') == 30;
    assert DayField("30") == Some(30);
    ParseDateUsesOwnFormat(s);
  }

  lemma ExampleNoSuchDayFormat()
    ensures Split("30/02/2020", '/') == ["30", "02", "2020"]
    ensures FormatOf("30/02/2020") == Some(DayFirst('/'))
  {
    var parts := ["30", "02", "2020"];
    ExampleNoSuchDayJoin();
    SplitJoin(parts, '/');
    FormatOfJoin(parts, '/');
  }

  lemma ExampleNoSuchDayJoin()
    ensures Join(["30", "02", "2020"], '/') == "30/02/2020"
  {
    Join3(["30", "02", "2020"], '/');
  }

  /** The two separators of a date must be the same. */
  lemma ExampleMixedSeparators()
    ensures ParseDate("01/02-2020") == None
  {
    var s := "01/02-2020";
    RunExact(s, 0, 2, IsFieldChar);
    assert FormatOf(s) == Some(DayFirst('/'));
    assert !IsFieldChar(s[5]) && s[5] != '/';
    if ParseDate(s).Some? {
      ParsedSeparators(s);
    }
  }

  /** The three fields of a string that parses hold only field characters. */
  lemma ParsedFieldChars(s: string, f: Format)
    requires ParseWith(s, f).Some?
    ensures |Split(s, f.sep)| == 3
    ensures forall j, k :: 0 <= j < 3 && 0 <= k < |Split(s, f.sep)[j]| ==> IsFieldChar(Split(s, f.sep)[j][k])
  {
    var p := Split(s, f.sep);
    match f
    case DayFirst(_) =>
      assert DayField(p[0]).Some? && MonthField(p[1]).Some? && YearField(p[2]).Some?;
    case YearFirst(_) =>
      assert YearField(p[0]).Some? && MonthField(p[1]).Some? && DayField(p[2]).Some?;
  }

  /** A string that `parse_date` accepts is made of digits, spaces and one
      separator character, the one of its format: dates with mixed
      separators never parse. */
  lemma ParsedSeparators(s: string)
    requires ParseDate(s).Some?
    ensures FormatOf(s).Some?
    ensures forall k :: 0 <= k < |s| ==> IsFieldChar(s[k]) || s[k] == FormatOf(s).value.sep
  {
    ParseDateUsesOwnFormat(s);
    var f := FormatOf(s).value;
    ParsedFieldChars(s, f);
    JoinSplit(s, f.sep);
    JoinFieldChars(Split(s, f.sep), f.sep);
  }

  /** Joining three pieces of field characters gives field characters and
      separators. */
  lemma JoinFieldChars(p: seq<string>, sep: char)
    requires |p| == 3
    requires forall j, k :: 0 <= j < 3 && 0 <= k < |p[j]| ==> IsFieldChar(p[j][k])
    ensures forall k :: 0 <= k < |Join(p, sep)| ==> IsFieldChar(Join(p, sep)[k]) || Join(p, sep)[k] == sep
  {
    Join3(p, sep);
    var s := Join(p, sep);
    var a := |p[0]|;
    var b := a + 1 + |p[1]|;
    forall k | 0 <= k < |s| ensures IsFieldChar(s[k]) || s[k] == sep {
      if k < a {
        assert s[k] == p[0][k];
      } else if a < k < b {
        assert s[k] == p[1][k - a - 1];
      } else if b < k {
        assert s[k] == p[2][k - b - 1];
      }
    }
  }
}
