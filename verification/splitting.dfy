/** `sep.join(parts)` and `s.split(sep)` for a one-character separator, and
    the two round trips between them. */
module Splitting {

  /** Index of the first `c` in `s`, or `|s|` when there is none. */
  function IndexOf(s: string, c: char): (i: nat)
    ensures i <= |s|
    ensures i < |s| ==> s[i] == c
    ensures forall j :: 0 <= j < i ==> s[j] != c
  {
    if |s| == 0 || s[0] == c then 0 else 1 + IndexOf(s[1..], c)
  }

  /** `s.split(sep)`: the pieces between occurrences of `sep`, empty pieces
      included. */
  function Split(s: string, sep: char): (r: seq<string>)
    decreases |s|
    ensures |r| >= 1
    ensures forall k, j :: 0 <= k < |r| && 0 <= j < |r[k]| ==> r[k][j] != sep
  {
    var i := IndexOf(s, sep);
    if i == |s| then [s] else [s[..i]] + Split(s[i + 1..], sep)
  }

  /** `sep.join(parts)`. */
  function Join(parts: seq<string>, sep: char): (s: string)
    decreases |parts|
  {
    if |parts| == 0 then ""
    else if |parts| == 1 then parts[0]
    else parts[0] + [sep] + Join(parts[1..], sep)
  }

  /** Splitting then joining gives back the string. */
  lemma {:induction false} JoinSplit(s: string, sep: char)
    decreases |s|
    ensures Join(Split(s, sep), sep) == s
  {
    var i := IndexOf(s, sep);
    if i < |s| {
      var head, tail := s[..i], s[i + 1..];
      var rest := Split(tail, sep);
      assert Split(s, sep) == [head] + rest;
      calc {
        Join(Split(s, sep), sep);
        Join([head] + rest, sep);
        { JoinCons(head, rest, sep); }
        head + [sep] + Join(rest, sep);
        { JoinSplit(tail, sep); }
        head + [sep] + tail;
        { assert s == s[..i] + [s[i]] + s[i + 1..]; }
        s;
      }
    } else {
      assert Split(s, sep) == [s];
    }
  }

  /** Joining one more piece in front. */
  lemma JoinCons(p: string, rest: seq<string>, sep: char)
    requires |rest| >= 1
    ensures Join([p] + rest, sep) == p + [sep] + Join(rest, sep)
  {
    assert ([p] + rest)[1..] == rest;
  }

  /** Joining pieces that do not hold the separator, then splitting, gives
      back the pieces. */
  lemma {:induction false} SplitJoin(parts: seq<string>, sep: char)
    requires |parts| >= 1
    requires forall k, j :: 0 <= k < |parts| && 0 <= j < |parts[k]| ==> parts[k][j] != sep
    decreases |parts|
    ensures Split(Join(parts, sep), sep) == parts
  {
    var p := parts[0];
    IndexOfAbsent(p, sep);
    if |parts| == 1 {
    } else {
      var rest := Join(parts[1..], sep);
      var s := p + [sep] + rest;
      assert Join(parts, sep) == s;
      IndexOfAfter(p, sep, rest);
      assert s[..|p|] == p && s[|p| + 1..] == rest;
      SplitJoin(parts[1..], sep);
      assert parts == [p] + parts[1..];
    }
  }

  lemma IndexOfAbsent(p: string, sep: char)
    requires forall j :: 0 <= j < |p| ==> p[j] != sep
    ensures IndexOf(p, sep) == |p|
  {
  }

  lemma IndexOfAfter(p: string, sep: char, rest: string)
    requires forall j :: 0 <= j < |p| ==> p[j] != sep
    ensures IndexOf(p + [sep] + rest, sep) == |p|
  {
    var s := p + [sep] + rest;
    assert s[|p|] == sep;
    assert forall j :: 0 <= j < |p| ==> s[j] == p[j];
  }
}
