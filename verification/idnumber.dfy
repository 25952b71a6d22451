/** The Emirates ID number as the extractor reports it: the leftmost match of
    `784[-\s]?\d{4}[-\s]?\d{7}[-\s]?\d{1}` with every space turned into a dash.
    `_parse_front_side`, `_parse_back_side` and `extract_id_number` all apply
    this same rule. */
module IdNumber {

  import opened Wrappers
  import opened Text
  import opened Patterns

  /** The ID pattern matches at index `i` of `s`. */
  predicate IdAt(s: string, i: nat) {
    i <= |s| && MatchIdAt(s, i).Some?
  }

  /** `re.search` with the ID pattern: the span of the leftmost match. */
  function SearchId(s: string): (r: Option<Span>)
    ensures r.None? ==> forall i :: 0 <= i <= |s| ==> !IdAt(s, i)
    ensures r.Some? ==> IdAt(s, r.value.start) && MatchIdAt(s, r.value.start) == Some(r.value.end)
    ensures r.Some? ==> forall j :: 0 <= j < r.value.start ==> !IdAt(s, j)
  {
    var p: nat -> bool := (i: nat) => IdAt(s, i);
    match Leftmost(p, 0, |s|)
    case None =>
      assert forall i :: 0 <= i <= |s| ==> !IdAt(s, i) by {
        forall i | 0 <= i <= |s| ensures !IdAt(s, i) { assert !p(i); }
      }
      None
    case Some(i) =>
      assert forall j :: 0 <= j < i ==> !IdAt(s, j) by {
        forall j | 0 <= j < i ensures !IdAt(s, j) { assert !p(j); }
      }
      Some(Span(i, MatchIdAt(s, i).value))
  }

  /** `extract_id_number`: the leftmost match with `.replace(' ', '-')`
      applied. The number found is in the pattern's language, starts with
      "784", holds no space and is 15 to 18 characters long. */
  function ExtractIdNumber(s: string): (r: Option<string>)
    ensures r.Some? <==> exists i :: 0 <= i <= |s| && IdAt(s, i)
    ensures r.Some? ==> IdShape(r.value) && StartsAt(r.value, 0, "784") && 15 <= |r.value| <= 18
    ensures r.Some? ==> forall k :: 0 <= k < |r.value| ==> r.value[k] != ' '
  {
    match SearchId(s)
    case None => None
    case Some(sp) =>
      IdScanIsPattern(s, sp.start, sp.end);
      var x := ReplaceChar(s[sp.start..sp.end], ' ', '-');
      IdShapeNormalized(s[sp.start..sp.end]);
      IdShapePrefix(x);
      Some(x)
  }

  /** A string in the ID pattern's language starts with "784" and has 15 to
      18 characters. */
  lemma IdShapePrefix(x: string)
    requires IdShape(x)
    ensures StartsAt(x, 0, "784") && 15 <= |x| <= 18
  {
    var a: nat, b: nat, c: nat :| IdSplit(x, a, b, c);
  }

  /** The ID number, when found, is the leftmost substring of the text in the
      pattern's language, with spaces turned into dashes; it is absent exactly
      when no substring is in that language. */
  lemma ExtractIdNumberIsLeftmostShape(s: string)
    ensures ExtractIdNumber(s).None? <==>
              forall i, e :: 0 <= i <= e <= |s| ==> !IdShape(s[i..e])
    ensures ExtractIdNumber(s).Some? ==>
              exists i, e :: 0 <= i <= e <= |s| && IdShape(s[i..e])
                && (forall j, f :: 0 <= j < i && j <= f <= |s| ==> !IdShape(s[j..f]))
                && ExtractIdNumber(s).value == ReplaceChar(s[i..e], ' ', '-')
  {
    if SearchId(s).Some? {
      var sp := SearchId(s).value;
      IdScanIsPattern(s, sp.start, sp.end);
      forall j, f | 0 <= j < sp.start && j <= f <= |s| ensures !IdShape(s[j..f]) {
        IdScanIsPattern(s, j, f);
        assert !IdAt(s, j);
      }
    } else {
      forall i, e | 0 <= i <= e <= |s| ensures !IdShape(s[i..e]) {
        IdScanIsPattern(s, i, e);
        assert !IdAt(s, i);
      }
    }
  }
}
