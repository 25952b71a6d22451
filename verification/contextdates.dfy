/** `extract_dates`: every date found in the text is given a role by the
    keywords near its first occurrence in the lower-cased text, and a later
    date overwrites an earlier one with the same role. */
module ContextDates {

  import opened Wrappers
  import opened Text
  import opened Patterns
  import opened Fields
  import opened FrontSide

  function Max(a: int, b: int): int {
    if a >= b then a else b
  }

  /** `t[a:b]` for non-negative bounds: both bounds are clipped to the
      length, and a slice whose end is not after its start is empty. */
  function Slice(t: string, a: nat, b: nat): (r: string)
    ensures |r| <= |t|
    ensures b <= |t| && a <= b ==> r == t[a..b]
    ensures a >= b || a >= |t| ==> r == []
  {
    var lo := Min(a, |t|);
    var hi := Min(b, |t|);
    if hi <= lo then [] else t[lo..hi]
  }

  /** `text_lower[max(0, date_pos-20):date_pos+20]`, where `date_pos` is a
      `str.find` result (so at least -1). */
  function Context(t: string, p: int): (r: string)
    requires p >= -1
    ensures |r| <= 40
    ensures 0 <= p && p + 20 <= |t| ==> r == t[Max(0, p - 20)..p + 20]
    ensures 0 <= p <= |t| < p + 20 ==> r == t[Max(0, p - 20)..]
  {
    Slice(t, Max(0, p - 20), p + 20)
  }

  /** The role the keywords of a context give a date, birth first, then
      expiry, then issue. */
  function Classify(ctx: string): (r: Option<string>)
    ensures r.Some? ==> r.value in {DateOfBirthKey, ExpiryDateKey, IssueDateKey}
    ensures r == Some(DateOfBirthKey) <==> BirthWords(ctx)
    ensures r == Some(ExpiryDateKey) <==> !BirthWords(ctx) && (Contains(ctx, "exp") || Contains(ctx, "valid"))
    ensures r == Some(IssueDateKey) <==> !BirthWords(ctx) && !Contains(ctx, "exp") && !Contains(ctx, "valid") && Contains(ctx, "issue")
  {
    KeysDistinct();
    ContainsPrefix(ctx, "expiry", 3);
    ContainsPrefix(ctx, "issued", 5);
    assert "expiry"[..3] == "exp" && "issued"[..5] == "issue";
    if BirthWords(ctx) then Some(DateOfBirthKey)
    else if Contains(ctx, "expiry") || Contains(ctx, "exp") || Contains(ctx, "valid") then Some(ExpiryDateKey)
    else if Contains(ctx, "issue") || Contains(ctx, "issued") then Some(IssueDateKey)
    else None
  }

  /** `'birth' in ctx or 'dob' in ctx or 'born' in ctx`. */
  predicate BirthWords(ctx: string) {
    Contains(ctx, "birth") || Contains(ctx, "dob") || Contains(ctx, "born")
  }

  /** A string containing a word contains each of its prefixes: the tests
      for "expiry" and "issued" add nothing to those for "exp" and "issue". */
  lemma ContainsPrefix(t: string, w: string, n: nat)
    requires n <= |w|
    ensures Contains(t, w) ==> Contains(t, w[..n])
  {
    if Contains(t, w) {
      var i :| 0 <= i <= |t| && StartsAt(t, i, w);
      assert t[i..i + n] == t[i..i + |w|][..n];
      assert StartsAt(t, i, w[..n]);
    }
  }

  /** The role of date `d` in the lower-cased text `t`. */
  function Role(t: string, d: string): (r: Option<string>)
    ensures r.Some? ==> r.value in {DateOfBirthKey, ExpiryDateKey, IssueDateKey}
  {
    Classify(Context(t, Find(t, d)))
  }

  /** The role of each date of `ds`. */
  function Roles(t: string, ds: seq<string>): (r: seq<Option<string>>)
    ensures |r| == |ds|
    ensures forall j :: 0 <= j < |ds| ==> r[j] == Role(t, ds[j])
  {
    seq(|ds|, j requires 0 <= j < |ds| => Role(t, ds[j]))
  }

  /** The loop of `extract_dates` over the first `n` dates of `ds`, whose
      roles are `roles`: a date with a role is written under that key. */
  function Assign(ds: seq<string>, roles: seq<Option<string>>, n: nat): (r: FieldMap)
    requires n <= |ds| == |roles|
  {
    if n == 0 then map[]
    else
      var m := Assign(ds, roles, n - 1);
      match roles[n - 1]
      case Some(k) => m[k := ds[n - 1]]
      case None => m
  }

  /** The index of the last of the first `n` dates whose role is `k`. */
  function LastWithRole(roles: seq<Option<string>>, n: nat, k: string): (r: Option<nat>)
    requires n <= |roles|
    ensures r.Some? ==> r.value < n && roles[r.value] == Some(k)
    ensures r.Some? ==> forall j :: r.value < j < n ==> roles[j] != Some(k)
    ensures r.None? ==> forall j :: 0 <= j < n ==> roles[j] != Some(k)
  {
    if n == 0 then None
    else if roles[n - 1] == Some(k) then Some(n - 1)
    else LastWithRole(roles, n - 1, k)
  }

  /** The last write wins: a key is set exactly when some date has its role,
      and then holds the last such date. */
  lemma {:induction false} AssignLastWins(ds: seq<string>, roles: seq<Option<string>>, n: nat, k: string)
    requires n <= |ds| == |roles|
    ensures k in Assign(ds, roles, n) <==> LastWithRole(roles, n, k).Some?
    ensures k in Assign(ds, roles, n) ==> Assign(ds, roles, n)[k] == ds[LastWithRole(roles, n, k).value]
  {
    if n > 0 {
      AssignLastWins(ds, roles, n - 1, k);
    }
  }

  /** `extract_dates`: only the three date keys are ever set. */
  function ExtractDates(s: string): (r: FieldMap)
    ensures r.Keys <= {DateOfBirthKey, ExpiryDateKey, IssueDateKey}
  {
    var ds := FindDates(s);
    AssignKeys(ds, Roles(Lower(s), ds), |ds|, {DateOfBirthKey, ExpiryDateKey, IssueDateKey});
    Assign(ds, Roles(Lower(s), ds), |ds|)
  }

  /** The loop writes only keys that are roles of some date. */
  lemma {:induction false} AssignKeys(ds: seq<string>, roles: seq<Option<string>>, n: nat, keys: set<string>)
    requires n <= |ds| == |roles|
    requires forall j :: 0 <= j < |roles| && roles[j].Some? ==> roles[j].value in keys
    ensures Assign(ds, roles, n).Keys <= keys
  {
    if n > 0 {
      AssignKeys(ds, roles, n - 1, keys);
    }
  }

  /** Each key of `extract_dates` holds the last date whose context gives
      it that role (`Roles` gives the role of each date), and is absent when
      no date's context does. */
  lemma ExtractDatesLastWins(s: string, k: string)
    ensures var ds := FindDates(s);
      var roles := Roles(Lower(s), ds);
      var last := LastWithRole(roles, |ds|, k);
      && (k in ExtractDates(s) <==> last.Some?)
      && (last.Some? ==> ExtractDates(s)[k] == ds[last.value] && roles[last.value] == Some(k))
      && (last.Some? ==> forall j :: last.value < j < |ds| ==> roles[j] != Some(k))
      && (last.None? ==> forall j :: 0 <= j < |ds| ==> roles[j] != Some(k))
  {
    var ds := FindDates(s);
    AssignLastWins(ds, Roles(Lower(s), ds), |ds|, k);
  }

  /** Lower-casing leaves digits and date separators alone, so each date
      found also occurs in the lower-cased text, at its own position; the
      position used for its context is that of its first occurrence, which
      may be an earlier date with the same text. */
  lemma DatePositionFound(s: string, k: nat)
    requires k < |FindDates(s)|
    ensures var p := Find(Lower(s), FindDates(s)[k]);
      0 <= p <= DateSpans(s)[k].start
  {
    var sp := DateSpans(s)[k];
    DatePosition(s, FindDates(s)[k], sp.start, sp.end);
  }

  lemma DatePosition(s: string, d: string, i: nat, e: nat)
    requires i <= e <= |s| && d == s[i..e] && DateShape(d)
    ensures 0 <= Find(Lower(s), d) <= i
  {
    DateHasNoUpper(d);
    LowerSliceUnchanged(s, i, e);
    FindAtMost(Lower(s), d, i, e);
  }

  /** `str.find` answers an index no later than any occurrence. */
  lemma FindAtMost(t: string, d: string, i: nat, e: nat)
    requires i <= e <= |t| && t[i..e] == d
    ensures 0 <= Find(t, d) <= i
  {
    assert StartsAt(t, i, d);
  }

  /** A date-shaped string has no upper-case letter. */
  lemma DateHasNoUpper(d: string)
    requires DateShape(d)
    ensures forall j :: 0 <= j < |d| ==> !IsUpper(d[j])
  {
    var p: nat, q: nat :| DateSplit(d, p, q);
  }

  /** Lower-casing leaves a stretch without upper-case letters unchanged. */
  lemma LowerSliceUnchanged(s: string, i: nat, e: nat)
    requires i <= e <= |s|
    requires forall j :: 0 <= j < e - i ==> !IsUpper(s[i..e][j])
    ensures Lower(s)[i..e] == s[i..e]
  {
    forall j | 0 <= j < e - i ensures Lower(s)[i..e][j] == s[i..e][j] {
      assert s[i..e][j] == s[i + j];
    }
  }
}
