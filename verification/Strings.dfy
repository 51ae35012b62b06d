/** The string operations of Go's `strings` package that the provider relies on,
    with the facts about them that the other modules need. */
module Strings {

  /** strings.Contains */
  predicate Contains(s: string, t: string) {
    exists i :: 0 <= i <= |s| && OccursAt(s, t, i)
  }

  predicate OccursAt(s: string, t: string, i: int) {
    0 <= i <= |s| - |t| && s[i..i + |t|] == t
  }

  /** strings.Join with the separator "," */
  function Join(xs: seq<string>): string {
    if |xs| == 0 then ""
    else if |xs| == 1 then xs[0]
    else xs[0] + "," + Join(xs[1..])
  }

  function LowerChar(c: char): char {
    if 'A' <= c <= 'Z' then ((c as int) + 32) as char else c
  }

  /** strings.ToLower, on ASCII letters */
  function ToLower(s: string): (r: string)
    ensures |r| == |s|
  {
    seq(|s|, i requires 0 <= i < |s| => LowerChar(s[i]))
  }

  function LowerAll(xs: seq<string>): (r: seq<string>)
    ensures |r| == |xs|
  {
    seq(|xs|, i requires 0 <= i < |xs| => ToLower(xs[i]))
  }

  /** strings.EqualFold, on ASCII letters */
  predicate EqualFold(s: string, t: string) {
    ToLower(s) == ToLower(t)
  }

  /** The same character, or the upper- and the lower-case form of one letter. */
  predicate SameLetter(c: char, d: char) {
    || c == d
    || ('A' <= c <= 'Z' && d as int == c as int + 32)
    || ('A' <= d <= 'Z' && c as int == d as int + 32)
  }

  /** Equal letter case aside, character by character. */
  predicate SameLetters(s: string, t: string) {
    |s| == |t| && forall i :: 0 <= i < |s| ==> SameLetter(s[i], t[i])
  }

  lemma EqualFoldMeaning(s: string, t: string)
    ensures EqualFold(s, t) <==> SameLetters(s, t)
  {
    if EqualFold(s, t) {
      forall i | 0 <= i < |s| ensures SameLetter(s[i], t[i]) {
        assert ToLower(s)[i] == ToLower(t)[i];
      }
    }
  }

  lemma ToLowerConcat(s: string, t: string)
    ensures ToLower(s + t) == ToLower(s) + ToLower(t)
  {
  }

  lemma ContainsInside(a: string, s: string, b: string, t: string)
    requires Contains(s, t)
    ensures Contains(a + s + b, t)
  {
    var i :| 0 <= i <= |s| && OccursAt(s, t, i);
    assert (a + s + b)[|a| + i..|a| + i + |t|] == s[i..i + |t|];
    assert OccursAt(a + s + b, t, |a| + i);
  }

  lemma {:induction false} JoinPrefix(xs: seq<string>, ys: seq<string>)
    ensures Join(xs) <= Join(xs + ys)
  {
    if |xs| == 0 {
    } else if |xs| == 1 {
      assert ys != [] ==> (xs + ys)[1..] == ys;
      assert ys == [] ==> xs + ys == xs;
    } else {
      JoinPrefix(xs[1..], ys);
      assert (xs + ys)[1..] == xs[1..] + ys;
    }
  }

  lemma {:induction false} JoinHasElement(xs: seq<string>, k: nat)
    requires k < |xs|
    ensures Contains(Join(xs), xs[k])
  {
    if |xs| == 1 {
      assert OccursAt(Join(xs), xs[0], 0);
    } else if k == 0 {
      assert OccursAt(Join(xs), xs[0], 0);
    } else {
      JoinHasElement(xs[1..], k - 1);
      ContainsInside(xs[0] + ",", Join(xs[1..]), "", xs[k]);
      assert xs[0] + "," + Join(xs[1..]) + "" == Join(xs);
    }
  }

  lemma {:induction false} LowerJoin(xs: seq<string>)
    ensures ToLower(Join(xs)) == Join(LowerAll(xs))
  {
    if |xs| > 1 {
      LowerJoin(xs[1..]);
      ToLowerConcat(xs[0] + ",", Join(xs[1..]));
      ToLowerConcat(xs[0], ",");
      assert LowerAll(xs)[1..] == LowerAll(xs[1..]);
      assert ToLower(",") == ",";
    }
  }

  /** A word without commas cannot straddle a separator: it occurs in the joined list
      exactly when it occurs inside one of the elements. */
  lemma {:induction false} OccursInJoinIffInElement(xs: seq<string>, v: string)
    requires ',' !in v && (v != "" || xs != [])
    ensures Contains(Join(xs), v) <==> exists k :: 0 <= k < |xs| && Contains(xs[k], v)
  {
    if exists k :: 0 <= k < |xs| && Contains(xs[k], v) {
      var k :| 0 <= k < |xs| && Contains(xs[k], v);
      JoinHasElement(xs, k);
      ContainsTransitive(Join(xs), xs[k], v);
    }
    if Contains(Join(xs), v) {
      InJoinGivesElement(xs, v);
    }
  }

  lemma ContainsTransitive(s: string, t: string, v: string)
    requires Contains(s, t) && Contains(t, v)
    ensures Contains(s, v)
  {
    var i :| 0 <= i <= |s| && OccursAt(s, t, i);
    assert s == s[..i] + t + s[i + |t|..];
    ContainsInside(s[..i], t, s[i + |t|..], v);
  }

  lemma {:induction false} InJoinGivesElement(xs: seq<string>, v: string)
    requires ',' !in v && (v != "" || xs != [])
    requires Contains(Join(xs), v)
    ensures exists k :: 0 <= k < |xs| && Contains(xs[k], v)
  {
    var i :| 0 <= i <= |Join(xs)| && OccursAt(Join(xs), v, i);
    if |xs| == 0 {
      assert false;
    } else if |xs| == 1 {
      assert Contains(xs[0], v);
    } else {
      var n, rest := |xs[0]|, Join(xs[1..]);
      assert Join(xs)[n] == ',';
      if i + |v| <= n {
        assert Join(xs)[i..i + |v|] == xs[0][i..i + |v|];
        assert OccursAt(xs[0], v, i);
      } else if i <= n {
        assert false;
      } else {
        assert Join(xs)[i..i + |v|] == rest[i - n - 1..i - n - 1 + |v|];
        assert OccursAt(rest, v, i - n - 1);
        InJoinGivesElement(xs[1..], v);
        var k :| 0 <= k < |xs[1..]| && Contains(xs[1..][k], v);
        assert xs[k + 1] == xs[1..][k];
      }
    }
  }

  // ---- strings.Split ----

  /** First position of t in s at or after k, or |s| + 1. */
  function IndexFrom(s: string, t: string, k: nat): (i: nat)
    requires k <= |s| + 1
    ensures k <= i <= |s| + 1
    ensures i <= |s| ==> OccursAt(s, t, i)
    ensures forall j :: k <= j < i ==> !OccursAt(s, t, j)
    decreases |s| + 1 - k
  {
    if k > |s| then k
    else if OccursAt(s, t, k) then k
    else IndexFrom(s, t, k + 1)
  }

  /** strings.Split with a non-empty separator. */
  function Split(s: string, separator: string): (parts: seq<string>)
    requires separator != ""
    ensures |parts| >= 1
  {
    var i := IndexFrom(s, separator, 0);
    if i > |s| then [s] else [s[..i]] + Split(s[i + |separator|..], separator)
  }

  lemma SplitContaining(s: string, separator: string)
    requires separator != "" && Contains(s, separator)
    ensures |Split(s, separator)| >= 2
  {
  }

  /** strings.Replace(s, from, to, -1) for a non-empty `from`: every occurrence, left to right. */
  function ReplaceAll(s: string, from: string, to: string): string
    requires from != ""
  {
    if s == "" then ""
    else if from <= s then to + ReplaceAll(s[|from|..], from, to)
    else [s[0]] + ReplaceAll(s[1..], from, to)
  }
}
