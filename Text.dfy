/** The .NET string operations the utility relies on, stated over seq<char>:
    `Replace(char, char)`, ordinal `Replace(string, string)` and `string.Join`
    with a one-character separator. Prefix tests and a first-occurrence
    `IndexOf` are reference definitions that characterise `Replace`, and
    `Split`, the inverse of `Join`, states what joining keeps. */
module Text {

  /** `s` starts with `p` (ordinal comparison). */
  predicate HasPrefix(s: string, p: string) {
    |p| <= |s| && s[..|p|] == p
  }

  /** `s` ends with `p`. */
  predicate HasSuffix(s: string, p: string) {
    |p| <= |s| && s[|s| - |p|..] == p
  }

  /** `pat` occurs in `s` starting at index `i`. */
  predicate MatchAt(s: string, pat: string, i: int) {
    0 <= i && i + |pat| <= |s| && s[i..i + |pat|] == pat
  }

  lemma MatchAtShift(s: string, pat: string, i: nat)
    requires |s| > 0
    ensures MatchAt(s[1..], pat, i) <==> MatchAt(s, pat, i + 1)
  {
    if 0 <= i && i + |pat| <= |s| - 1 {
      assert s[1..][i..i + |pat|] == s[i + 1..i + 1 + |pat|];
    }
  }

  /** Ordinal `IndexOf(pat)` on the suffix starting at `k`: the first match at or after `k`. */
  function IndexOfFrom(s: string, pat: string, k: nat): (r: Option<nat>)
    requires k <= |s|
    ensures r.Some? ==> k <= r.value && MatchAt(s, pat, r.value)
    ensures r.Some? ==> forall j :: k <= j < r.value ==> !MatchAt(s, pat, j)
    ensures r.None? ==> forall j :: k <= j ==> !MatchAt(s, pat, j)
    decreases |s| - k
  {
    if MatchAt(s, pat, k) then Some(k)
    else if k == |s| then None
    else IndexOfFrom(s, pat, k + 1)
  }

  /** Ordinal `IndexOf(pat)`: the index of the first occurrence of `pat`, if any. */
  function IndexOf(s: string, pat: string): (r: Option<nat>)
    ensures r.Some? ==> MatchAt(s, pat, r.value) && forall j :: 0 <= j < r.value ==> !MatchAt(s, pat, j)
    ensures r.None? <==> forall j :: !MatchAt(s, pat, j)
  {
    IndexOfFrom(s, pat, 0)
  }

  /** `Replace(char, char)`: every occurrence of `from` becomes `to`. */
  function ReplaceChar(s: string, from: char, to: char): (r: string)
    ensures |r| == |s|
    ensures forall i :: 0 <= i < |s| ==> r[i] == (if s[i] == from then to else s[i])
    ensures from != to ==> from !in r
    ensures from in s ==> to in r
  {
    seq(|s|, i requires 0 <= i < |s| => if s[i] == from then to else s[i])
  }

  /** Ordinal `Replace(pat, rep)`: scans left to right and replaces every
      non-overlapping occurrence of `pat` by `rep`. .NET rejects an empty `pat`. */
  function ReplaceAll(s: string, pat: string, rep: string): (r: string)
    requires |pat| > 0
    ensures |rep| == |pat| ==> |r| == |s|
    decreases |s|
  {
    if s == [] then []
    else if MatchAt(s, pat, 0) then rep + ReplaceAll(s[|pat|..], pat, rep)
    else [s[0]] + ReplaceAll(s[1..], pat, rep)
  }

  /** A string in which `pat` does not occur is left unchanged. */
  lemma {:induction false} ReplaceAllNoMatch(s: string, pat: string, rep: string)
    requires |pat| > 0
    requires forall j :: !MatchAt(s, pat, j)
    ensures ReplaceAll(s, pat, rep) == s
    decreases |s|
  {
    if s != [] {
      assert !MatchAt(s, pat, 0);
      forall j: nat ensures !MatchAt(s[1..], pat, j) {
        MatchAtShift(s, pat, j);
      }
      ReplaceAllNoMatch(s[1..], pat, rep);
    }
  }

  /** The first occurrence of `pat` (the one after a prefix `a` in which no
      match starts) is replaced, and the scan resumes right after it. */
  lemma {:induction false} ReplaceAllFirst(a: string, pat: string, rep: string, b: string)
    requires |pat| > 0
    requires forall j :: 0 <= j < |a| ==> !MatchAt(a + pat + b, pat, j)
    ensures ReplaceAll(a + pat + b, pat, rep) == a + rep + ReplaceAll(b, pat, rep)
    decreases |a|
  {
    var s := a + pat + b;
    if a == [] {
      assert s == pat + b && s[..|pat|] == pat && s[|pat|..] == b;
    } else {
      assert !MatchAt(s, pat, 0);
      assert s[1..] == a[1..] + pat + b;
      forall j | 0 <= j < |a[1..]| ensures !MatchAt(a[1..] + pat + b, pat, j) {
        MatchAtShift(s, pat, j);
      }
      ReplaceAllFirst(a[1..], pat, rep, b);
      assert [a[0]] + a[1..] == a;
    }
  }

  /** Reference characterisation of `Replace(pat, rep)` through `IndexOf`: no
      occurrence leaves the string as it is; otherwise the text before the first
      occurrence is kept, the occurrence becomes `rep`, and the rest is
      rewritten the same way. */
  lemma ReplaceAllByIndexOf(s: string, pat: string, rep: string)
    requires |pat| > 0
    ensures IndexOf(s, pat).None? ==> ReplaceAll(s, pat, rep) == s
    ensures IndexOf(s, pat).Some? ==>
      var i := IndexOf(s, pat).value;
      ReplaceAll(s, pat, rep) == s[..i] + rep + ReplaceAll(s[i + |pat|..], pat, rep)
  {
    match IndexOf(s, pat)
    case None =>
      ReplaceAllNoMatch(s, pat, rep);
    case Some(i) =>
      var a, b := s[..i], s[i + |pat|..];
      assert a + pat + b == s;
      ReplaceAllFirst(a, pat, rep, b);
  }

  /** `string.Join(sep, a)`: the elements in order with one `sep` between neighbours. */
  function Join(a: seq<string>, sep: char): (r: string)
    ensures |a| > 0 ==> HasPrefix(r, a[0])
    decreases |a|
  {
    if |a| == 0 then ""
    else if |a| == 1 then a[0]
    else a[0] + [sep] + Join(a[1..], sep)
  }

  /** Splitting at every `sep`; the empty string yields one empty piece. */
  function Split(s: string, sep: char): (r: seq<string>)
    ensures |r| > 0
    decreases |s|
  {
    if s == [] then [""]
    else if s[0] == sep then [""] + Split(s[1..], sep)
    else
      var t := Split(s[1..], sep);
      [[s[0]] + t[0]] + t[1..]
  }

  /** Joining the pieces of a split restores the string exactly. */
  lemma {:induction false} JoinSplit(s: string, sep: char)
    ensures Join(Split(s, sep), sep) == s
    decreases |s|
  {
    if s != [] {
      var t := Split(s[1..], sep);
      JoinSplit(s[1..], sep);
      if s[0] == sep {
        assert Split(s, sep) == [""] + t;
        assert Join(Split(s, sep), sep) == "" + [sep] + Join(t, sep);
        assert s == [s[0]] + s[1..];
      } else {
        var r := Split(s, sep);
        assert r == [[s[0]] + t[0]] + t[1..];
        if |t| == 1 {
          assert Join(r, sep) == [s[0]] + t[0];
          assert s == [s[0]] + s[1..];
        } else {
          assert r[1..] == t[1..];
          assert Join(t, sep) == t[0] + [sep] + Join(t[1..], sep);
          assert Join(r, sep) == [s[0]] + t[0] + [sep] + Join(t[1..], sep);
          assert s == [s[0]] + s[1..];
        }
      }
    }
  }

  lemma {:induction false} SplitNoSep(x: string, sep: char)
    requires sep !in x
    ensures Split(x, sep) == [x]
    decreases |x|
  {
    if x != [] {
      SplitNoSep(x[1..], sep);
      assert [x[0]] + x[1..] == x;
    }
  }

  lemma {:induction false} SplitAfterPiece(x: string, sep: char, rest: string)
    requires sep !in x
    ensures Split(x + [sep] + rest, sep) == [x] + Split(rest, sep)
    decreases |x|
  {
    var s := x + [sep] + rest;
    if x == [] {
      assert s[0] == sep && s[1..] == rest;
    } else {
      assert s[0] == x[0] && s[1..] == x[1..] + [sep] + rest;
      SplitAfterPiece(x[1..], sep, rest);
      assert [x[0]] + x[1..] == x;
    }
  }

  /** A non-empty list of pieces none of which contains `sep` is recovered
      exactly by splitting their join: joining adds nothing but separators
      and merges no two pieces. */
  lemma {:induction false} SplitJoin(a: seq<string>, sep: char)
    requires |a| > 0
    requires forall i :: 0 <= i < |a| ==> sep !in a[i]
    ensures Split(Join(a, sep), sep) == a
    decreases |a|
  {
    if |a| == 1 {
      SplitNoSep(a[0], sep);
    } else {
      SplitJoin(a[1..], sep);
      SplitAfterPiece(a[0], sep, Join(a[1..], sep));
      assert [a[0]] + a[1..] == a;
    }
  }

  /** Joined length: the pieces' lengths plus one separator between neighbours. */
  function TotalLength(a: seq<string>): nat
    decreases |a|
  {
    if a == [] then 0 else |a[0]| + TotalLength(a[1..])
  }

  lemma {:induction false} JoinLength(a: seq<string>, sep: char)
    ensures |a| > 0 ==> |Join(a, sep)| == TotalLength(a) + |a| - 1
    decreases |a|
  {
    if |a| > 1 {
      JoinLength(a[1..], sep);
    }
  }

  datatype Option<+T> = None | Some(value: T)
}
