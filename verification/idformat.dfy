/** `validate_id_number_format` and the placeholder
    `validate_id_number_checksum` of the validation service. */
module IdFormat {

  import opened Wrappers
  import opened Text
  import opened Patterns
  import opened IdNumber

  // ---------------------------------------------------------------------
  // Format: ^784[-\s]?\d{4}[-\s]?\d{7}[-\s]?\d{1}$ after replace(' ', '-')
  // ---------------------------------------------------------------------

  /** `ID_NUMBER_PATTERN.match(normalized)`: the pattern matches from the
      start, and `$` accepts the end of the string or a final newline. */
  predicate FullIdMatch(n: string) {
    var e := MatchIdAt(n, 0);
    e == Some(|n|) || (e.Some? && e.value + 1 == |n| && n[e.value] == '\n')
  }

  /** `validate_id_number_format`: spaces are turned into dashes, then the
      anchored pattern must match. Since a space and a dash are both
      separators, the normalisation never changes the verdict: the number is
      accepted exactly when it is in the pattern's language, possibly
      followed by one newline. */
  function ValidateIdNumberFormat(id: string): (ok: bool)
    ensures ok <==> || IdShape(id)
                    || (|id| > 0 && id[|id| - 1] == '\n' && IdShape(id[..|id| - 1]))
  {
    FullMatchShape(id);
    FullIdMatch(ReplaceChar(id, ' ', '-'))
  }

  lemma FullMatchShape(id: string)
    ensures FullIdMatch(ReplaceChar(id, ' ', '-')) <==>
              || IdShape(id)
              || (|id| > 0 && id[|id| - 1] == '\n' && IdShape(id[..|id| - 1]))
  {
    var n := ReplaceChar(id, ' ', '-');
    IdScanIsPattern(n, 0, |n|);
    assert n[0..|n|] == n;
    NormalizedShape(id);
    if |n| > 0 {
      IdScanIsPattern(n, 0, |n| - 1);
      assert n[0..|n| - 1] == ReplaceChar(id[..|id| - 1], ' ', '-');
      NormalizedShape(id[..|id| - 1]);
    }
  }

  /** A string is in the ID pattern's language exactly when it is after its
      spaces are turned into dashes. */
  lemma NormalizedShape(w: string)
    ensures IdShape(ReplaceChar(w, ' ', '-')) <==> IdShape(w)
  {
    var v := ReplaceChar(w, ' ', '-');
    if IdShape(w) {
      IdShapeNormalized(w);
    }
    if IdShape(v) {
      var a: nat, b: nat, c: nat :| IdSplit(v, a, b, c);
      assert w[..3] == v[..3] by {
        forall k | 0 <= k < 3 ensures w[k] == v[k] { assert v[k] != '-'; }
      }
      assert forall k :: 0 <= k < |v| && IsDigit(v[k]) ==> w[k] == v[k];
      assert IdSplit(w, a, b, c);
    }
  }

  /** Every ID number the extractor reports passes the format check. */
  lemma ExtractedIdWellFormed(s: string)
    requires ExtractIdNumber(s).Some?
    ensures ValidateIdNumberFormat(ExtractIdNumber(s).value)
  {
  }

  // ---------------------------------------------------------------------
  // Checksum placeholder
  // ---------------------------------------------------------------------

  /** The characters of `s` outside the class `cls`, in order. */
  function Remove(s: string, cls: char -> bool): (r: string)
    ensures |r| <= |s|
    ensures forall k :: 0 <= k < |r| ==> !cls(r[k])
  {
    if |s| == 0 then []
    else if cls(s[0]) then Remove(s[1..], cls)
    else [s[0]] + Remove(s[1..], cls)
  }

  /** `re.sub(r'[-\s]', '', s)`: the string without dashes and whitespace. */
  function RemoveSeps(s: string): (r: string)
    ensures |r| <= |s|
    ensures forall k :: 0 <= k < |r| ==> !IsIdSep(r[k])
  {
    Remove(s, IsIdSep)
  }

  /** Removing characters works piece by piece. */
  lemma {:induction false} RemoveAppend(a: string, b: string, cls: char -> bool)
    ensures Remove(a + b, cls) == Remove(a, cls) + Remove(b, cls)
    decreases |a|
  {
    if |a| > 0 {
      assert (a + b)[1..] == a[1..] + b;
      RemoveAppend(a[1..], b, cls);
    } else {
      assert a + b == b;
    }
  }

  /** A string without class characters is left unchanged. */
  lemma {:induction false} RemoveNone(s: string, cls: char -> bool)
    requires forall k :: 0 <= k < |s| ==> !cls(s[k])
    ensures Remove(s, cls) == s
    decreases |s|
  {
    if |s| > 0 {
      RemoveNone(s[1..], cls);
    }
  }

  /** A class character between two pieces is dropped. */
  lemma RemoveMiddle(a: string, c: char, b: string, cls: char -> bool)
    requires cls(c)
    ensures Remove(a + [c] + b, cls) == Remove(a, cls) + Remove(b, cls)
  {
    RemoveAppend(a + [c], b, cls);
    RemoveAppend(a, [c], cls);
    assert [c][1..] == [];
  }

  /** Digits are not separators. */
  lemma DigitsNotSeps(s: string)
    requires AllDigits(s)
    ensures forall k :: 0 <= k < |s| ==> !IsIdSep(s[k])
  {
  }

  /** Sum of the values of a string of digits. */
  function DigitSum(d: string): (n: nat)
    requires AllDigits(d)
    ensures n <= 9 * |d|
  {
    if |d| == 0 then 0 else DigitValue(d[0]) + DigitSum(d[1..])
  }

  /** The placeholder's test on the string left after removing separators:
      fifteen characters, all digits (a non-digit makes `int` raise
      `ValueError`, answered with `False`), the last equal to the sum of the
      first fourteen modulo 10. */
  function ChecksumDigits(d: string): (ok: bool)
    ensures ok ==> |d| == 15 && AllDigits(d)
  {
    if |d| != 15 then false
    else if !IsDigit(d[14]) then false
    else if !AllDigits(d[..14]) then false
    else
      assert AllDigits(d);
      DigitSum(d[..14]) % 10 == DigitValue(d[14])
  }

  /** `validate_id_number_checksum`. */
  function ValidateIdNumberChecksum(id: string): (ok: bool)
    ensures ok ==> |RemoveSeps(id)| == 15 && AllDigits(RemoveSeps(id))
  {
    ChecksumDigits(RemoveSeps(id))
  }

  /** The check digit the placeholder expects after fourteen digits. */
  function CheckDigit(p: string): (c: char)
    requires AllDigits(p)
    ensures IsDigit(c)
  {
    ('0' as int + DigitSum(p) % 10) as char
  }

  /** Among the fifteen-digit strings with a given first fourteen digits, the
      placeholder accepts exactly one: the one ending in `CheckDigit`. */
  lemma ChecksumUnique(p: string, c: char)
    requires |p| == 14 && AllDigits(p) && IsDigit(c)
    ensures ValidateIdNumberChecksum(p + [c]) <==> c == CheckDigit(p)
  {
    var d := p + [c];
    DigitsNotSeps(d);
    RemoveNone(d, IsIdSep);
    assert d[..14] == p;
  }

  /** Separators may be added or removed anywhere without changing the
      checksum verdict. */
  lemma ChecksumIgnoresSeparator(a: string, c: char, b: string)
    requires IsIdSep(c)
    ensures ValidateIdNumberChecksum(a + [c] + b) == ValidateIdNumberChecksum(a + b)
  {
    RemoveMiddle(a, c, b, IsIdSep);
    RemoveAppend(a, b, IsIdSep);
  }

  /** A digit group passes through separator removal unchanged. */
  lemma RemoveSepsDigits(x: string)
    requires AllDigits(x)
    ensures RemoveSeps(x) == x
  {
    DigitsNotSeps(x);
    RemoveNone(x, IsIdSep);
  }

  /** An optional separator disappears. */
  lemma RemoveSepsOptSep(x: string)
    requires |x| <= 1 && (|x| == 1 ==> IsIdSep(x[0]))
    ensures RemoveSeps(x) == []
  {
    if |x| == 1 {
      assert x[1..] == [];
    }
  }

  /** Removing separators from a string in the ID pattern's language leaves
      its fifteen digits, so the placeholder's length test always passes on a
      well-formed number and only the check digit decides. */
  lemma IdShapeDigits(w: string)
    requires IdShape(w)
    ensures |RemoveSeps(w)| == 15 && AllDigits(RemoveSeps(w))
  {
    var a: nat, b: nat, c: nat :| IdSplit(w, a, b, c);
    assert w[..3] == "784";
    RemoveSepsDigits(w[..3]);
    RemoveSepsPrefixStep(w, 3, a, a + 4);
    RemoveSepsPrefixStep(w, a + 4, b, b + 7);
    RemoveSepsPrefixStep(w, b + 7, c, c + 1);
    assert w[..c + 1] == w;
  }

  /** Extending a prefix by an optional separator and a digit group adds the
      digits to what separator removal leaves. */
  lemma RemoveSepsPrefixStep(w: string, x: nat, y: nat, z: nat)
    requires x <= y <= x + 1 && y <= z <= |w|
    requires y == x + 1 ==> IsIdSep(w[x])
    requires DigitsAt(w, y, z - y)
    ensures RemoveSeps(w[..z]) == RemoveSeps(w[..x]) + w[y..z]
    ensures AllDigits(w[y..z])
  {
    SliceDigits(w, y, z - y);
    assert w[..y] == w[..x] + w[x..y];
    assert w[..z] == w[..x] + w[x..y] + w[y..z];
    RemoveSepsStep(w[..x], w[x..y], w[y..z]);
  }

  /** The slice holding `n` digits found at `j`. */
  lemma SliceDigits(w: string, j: nat, n: nat)
    requires DigitsAt(w, j, n)
    ensures AllDigits(w[j..j + n]) && |w[j..j + n]| == n
  {
    var x := w[j..j + n];
    assert forall k :: 0 <= k < n ==> x[k] == w[j + k];
  }

  /** An optional separator and a digit group appended to a string: the
      separator disappears and the digits remain. */
  lemma RemoveSepsStep(t: string, sep: string, g: string)
    requires |sep| <= 1 && (|sep| == 1 ==> IsIdSep(sep[0]))
    requires AllDigits(g)
    ensures RemoveSeps(t + sep + g) == RemoveSeps(t) + g
  {
    RemoveSepsDigits(g);
    RemoveSepsOptSep(sep);
    RemoveAppend(t + sep, g, IsIdSep);
    RemoveAppend(t, sep, IsIdSep);
  }

  /** The checksum is independent of the format check: a run of fifteen
      digits starting with "784" is always well formed, and the placeholder
      rejects it whenever its last digit is not the expected one. */
  lemma FormatDoesNotImplyChecksum(p: string, c: char)
    requires |p| == 14 && AllDigits(p) && StartsAt(p, 0, "784")
    requires IsDigit(c) && c != CheckDigit(p)
    ensures ValidateIdNumberFormat(p + [c])
    ensures !ValidateIdNumberChecksum(p + [c])
  {
    var w := p + [c];
    assert w[..3] == p[..3];
    assert IdSplit(w, 3, 7, 14);
    ChecksumUnique(p, c);
  }
}
