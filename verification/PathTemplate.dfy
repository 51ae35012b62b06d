/** Request.path: filling a path pattern by replacing one placeholder after the other, in the
    order in which Go happens to iterate over the parameter map. */
module PathTemplate {
  import opened Strings

  function Placeholder(k: string): string {
    "{" + k + "}"
  }

  predicate BraceFree(s: string) {
    '{' !in s && '}' !in s
  }

  /** Braces come in pairs and are not nested. */
  predicate Flat(p: string, inside: bool) {
    if p == "" then !inside
    else if p[0] == '{' then !inside && Flat(p[1..], true)
    else if p[0] == '}' then inside && Flat(p[1..], false)
    else Flat(p[1..], inside)
  }

  // ---- One replacement after the other ----

  /** Replaces the placeholders in this order. */
  function InOrder(p: string, params: map<string, string>, order: seq<string>): string
    requires forall k :: k in order ==> k in params
    decreases order
  {
    if order == [] then p
    else InOrder(ReplaceAll(p, Placeholder(order[0]), params[order[0]]), params, order[1..])
  }

  ghost predicate OrderOf(order: seq<string>, keys: set<string>) {
    (forall k :: k in order <==> k in keys) && forall i, j :: 0 <= i < j < |order| ==> order[i] != order[j]
  }

  lemma {:induction false} InOrderSnoc(p: string, params: map<string, string>, order: seq<string>, k: string)
    requires k in params && forall x :: x in order ==> x in params
    ensures InOrder(p, params, order + [k])
         == ReplaceAll(InOrder(p, params, order), Placeholder(k), params[k])
    decreases order
  {
    if order == [] {
      assert order + [k] == [k] && [k][1..] == [];
    } else {
      assert (order + [k])[0] == order[0] && (order + [k])[1..] == order[1..] + [k];
      InOrderSnoc(ReplaceAll(p, Placeholder(order[0]), params[order[0]]), params, order[1..], k);
    }
  }

  // ---- The reference: all placeholders at once ----

  /** Position of the first '}', or the length. */
  function Close(p: string): (c: nat)
    ensures c <= |p|
    ensures c < |p| ==> p[c] == '}'
    ensures forall j :: 0 <= j < c ==> p[j] != '}'
  {
    if p == "" || p[0] == '}' then 0 else 1 + Close(p[1..])
  }

  /** One pass over the pattern: a placeholder whose name is a parameter gives its value,
      everything else is copied. */
  function Expand(p: string, params: map<string, string>): string
    decreases |p|
  {
    if p == "" then ""
    else if p[0] == '{' && Close(p) < |p| then
      var c := Close(p);
      (if p[1..c] in params then params[p[1..c]] else p[..c + 1]) + Expand(p[c + 1..], params)
    else [p[0]] + Expand(p[1..], params)
  }

  // ---- Why the order does not matter ----

  /** Inside a placeholder, the next brace closes it. */
  lemma {:induction false} FlatInside(p: string)
    requires Flat(p, true)
    ensures Close(p) < |p| && BraceFree(p[..Close(p)]) && Flat(p[Close(p) + 1..], false)
  {
    if p[0] != '}' {
      FlatInside(p[1..]);
      assert p[..Close(p)] == [p[0]] + p[1..][..Close(p[1..])];
      assert p[Close(p) + 1..] == p[1..][Close(p[1..]) + 1..];
    }
  }

  lemma HoleSplit(p: string, c: nat)
    requires c + 1 < |p| && p[0] == '{' && p[c + 1] == '}'
    ensures p == Placeholder(p[1..c + 1]) + p[c + 2..]
  {
    var name, rest := p[1..c + 1], p[c + 2..];
    assert p == ("{" + name + "}") + rest;
  }

  lemma FrontOpen(p: string)
    requires Flat(p, false) && p != "" && p[0] == '{'
    ensures Flat(p[1..], true) && Close(p) == 1 + Close(p[1..])
  {
  }

  /** A placeholder at the front of a flat pattern: its name is brace-free, the rest is flat. */
  lemma FlatHole(p: string) returns (name: string, rest: string)
    requires Flat(p, false) && p != "" && p[0] == '{'
    ensures BraceFree(name) && Flat(rest, false) && |rest| < |p| && p == Placeholder(name) + rest
    ensures Close(p) == |name| + 1 < |p| && p[1..Close(p)] == name && p[Close(p) + 1..] == rest
  {
    FrontOpen(p);
    var q := p[1..];
    FlatInside(q);
    hide Flat, BraceFree, Close, Placeholder;
    var c := Close(q);
    name, rest := p[1..c + 1], p[c + 2..];
    assert q[..c] == name && q[c + 1..] == rest && p[c + 1] == q[c];
    HoleSplit(p, c);
  }

  lemma HoleExpands(p: string, params: map<string, string>, name: string, rest: string)
    requires p != "" && p[0] == '{' && Close(p) < |p| && name == p[1..Close(p)] && rest == p[Close(p) + 1..]
    requires p == Placeholder(name) + rest
    ensures Expand(p, params) == (if name in params then params[name] else Placeholder(name)) + Expand(rest, params)
  {
    assert p[..Close(p) + 1] == Placeholder(name);
  }

  /** A flat pattern that starts with neither brace. */
  lemma LiteralExpands(p: string, params: map<string, string>)
    requires Flat(p, false) && p != "" && p[0] != '{'
    ensures p[0] != '}' && Flat(p[1..], false) && Expand(p, params) == [p[0]] + Expand(p[1..], params)
  {
  }

  lemma {:induction false} LiteralFlat(v: string, p: string)
    requires BraceFree(v)
    ensures Flat(v + p, false) == Flat(p, false)
  {
    if v == "" {
      assert v + p == p;
    } else {
      assert (v + p)[1..] == v[1..] + p;
      LiteralFlat(v[1..], p);
    }
  }

  lemma {:induction false} InsideFlat(name: string, p: string)
    requires BraceFree(name)
    ensures Flat(name + "}" + p, true) == Flat(p, false)
    ensures Close(name + "}" + p) == |name|
  {
    var s := name + "}" + p;
    if name == "" {
      assert s[1..] == p;
    } else {
      assert s[1..] == name[1..] + "}" + p;
      InsideFlat(name[1..], p);
    }
  }

  lemma HoleFlat(name: string, p: string)
    requires BraceFree(name)
    ensures Flat(Placeholder(name) + p, false) == Flat(p, false)
  {
    InsideFlat(name, p);
    assert (Placeholder(name) + p)[1..] == name + "}" + p;
  }

  lemma OneLater(c: string, rest: string, t: string, i: nat)
    ensures OccursAt(rest, t, i) ==> OccursAt(c + rest, t, i + |c|)
  {
    if i + |t| <= |rest| {
      assert (c + rest)[i + |c|..i + |c| + |t|] == rest[i..i + |t|];
    }
  }

  /** Replacing skips over text in which no occurrence starts. */
  lemma {:induction false} ReplaceSkipsText(x: string, s: string, from: string, to: string)
    requires from != "" && forall i: nat :: i < |x| ==> !OccursAt(x + s, from, i)
    ensures ReplaceAll(x + s, from, to) == x + ReplaceAll(s, from, to)
  {
    if x == "" {
      assert x + s == s;
    } else {
      var all, rest := x + s, x[1..] + s;
      assert all[0] == x[0] && all[1..] == rest;
      assert !(from <= all) by {
        assert !OccursAt(all, from, 0);
      }
      forall i: nat | i < |x[1..]| ensures !OccursAt(rest, from, i) {
        assert !OccursAt(all, from, i + 1);
        OneLater([x[0]], rest, from, i);
        assert all == [x[0]] + rest;
      }
      ReplaceSkipsText(x[1..], s, from, to);
      assert [x[0]] + (x[1..] + ReplaceAll(s, from, to)) == x + ReplaceAll(s, from, to);
    }
  }

  lemma ReplaceSkips(u: string, p: string, k: string, v: string)
    requires '{' !in u
    ensures ReplaceAll(u + p, Placeholder(k), v) == u + ReplaceAll(p, Placeholder(k), v)
  {
    forall i: nat | i < |u| ensures !OccursAt(u + p, Placeholder(k), i) {
      assert (u + p)[i] == u[i];
      NotHere(u + p, Placeholder(k), i);
    }
    ReplaceSkipsText(u, p, Placeholder(k), v);
  }

  lemma NotHere(s: string, t: string, i: nat)
    requires i < |s| && t != "" && s[i] != t[0]
    ensures !OccursAt(s, t, i)
  {
    if i + |t| <= |s| {
      assert s[i..i + |t|][0] == s[i];
    }
  }

  lemma FrontOccurrence(p: string, t: string, i: nat)
    requires OccursAt(p, t, i) && t != ""
    ensures i < |p| && p[i] == t[0] && (i == 0 ==> t <= p)
  {
    assert p[i] == p[i..i + |t|][0];
  }

  lemma TailOccurrence(p: string, t: string, i: nat, d: nat)
    requires OccursAt(p, t, i) && d <= i
    ensures OccursAt(p[d..], t, i - d)
  {
    assert p[d..][i - d..i - d + |t|] == p[i..i + |t|];
  }

  lemma FrontName(name: string, p: string, k: string)
    requires BraceFree(name) && BraceFree(k) && Placeholder(k) <= Placeholder(name) + p
    ensures name == k
  {
    var s := Placeholder(name) + p;
    InsideFlat(name, p);
    InsideFlat(k, s[|k| + 2..]);
    assert s[1..] == name + "}" + p;
    assert s[1..] == k + "}" + s[|k| + 2..];
    assert name == s[1..][..|name|];
    assert k == s[1..][..|k|];
  }

  /** Replacing acts on a placeholder as a whole. */
  lemma ReplaceHole(name: string, p: string, k: string, v: string)
    requires BraceFree(name) && BraceFree(k)
    ensures ReplaceAll(Placeholder(name) + p, Placeholder(k), v)
         == (if name == k then v else Placeholder(name)) + ReplaceAll(p, Placeholder(k), v)
  {
    var s := Placeholder(name) + p;
    if name == k {
      assert s[|Placeholder(k)|..] == p;
    } else {
      if Placeholder(k) <= s {
        FrontName(name, p, k);
      }
      assert s[1..] == (name + "}") + p;
      ReplaceSkips(name + "}", p, k, v);
      assert ['{'] + ((name + "}") + ReplaceAll(p, Placeholder(k), v))
          == Placeholder(name) + ReplaceAll(p, Placeholder(k), v);
    }
  }

  lemma {:induction false} ReplaceSelf(s: string, from: string)
    requires from != ""
    ensures ReplaceAll(s, from, from) == s
  {
    if s == "" {
    } else if from <= s {
      ReplaceSelf(s[|from|..], from);
    } else {
      ReplaceSelf(s[1..], from);
    }
  }

  // ---- Values that spell a placeholder ----

  predicate EndsWith(s: string, t: string) {
    |t| <= |s| && s[|s| - |t|..] == t
  }

  /** x ends with an opening brace and the first m characters of k. */
  predicate Opens(x: string, k: string, m: nat)
    requires m <= |k|
  {
    EndsWith(x, "{" + k[..m])
  }

  /** y starts with the characters of k from the n-th on and a closing brace. */
  predicate Closes(y: string, k: string, n: nat)
    requires n <= |k|
  {
    k[n..] + "}" <= y
  }

  /** The placeholder of k is part of x, or x supplies its beginning and y its end. */
  predicate Spells(x: string, y: string, k: string) {
    Contains(x, Placeholder(k)) || exists m: nat, n: nat :: m <= n <= |k| && Opens(x, k, m) && Closes(y, k, n)
  }

  /** One value, or two, supply the opening and the closing brace of the placeholder of k. */
  predicate Spelled(params: map<string, string>, k: string) {
    exists a, b :: a in params && b in params && Spells(params[a], params[b], k)
  }

  /** The values of other parameters spell the placeholder of a parameter that has another value
      than that placeholder. */
  predicate Collision(params: map<string, string>) {
    exists k :: k in params && params[k] != Placeholder(k) && Spelled(params - {k}, k)
  }

  lemma PrefixSplit(s: string, x: string, e: string)
    requires s <= x + e
    ensures if |s| <= |x| then s <= x else s[|x|..] <= e
  {
    assert (x + e)[..|x|] == x && (x + e)[|x|..] == e;
    if |s| > |x| {
      assert s[|x|..] == (x + e)[|x|..][..|s| - |x|];
    }
  }

  /** Brace-free text and a closing brace, at the front of an expanded flat pattern: the brace
      comes from a value. */
  lemma {:induction false} ClosedByValue(p: string, params: map<string, string>, r: string)
      returns (b: string, n: nat)
    requires Flat(p, false) && BraceFree(r) && r + "}" <= Expand(p, params)
    ensures b in params && n <= |r| && Closes(params[b], r, n)
    decreases |p|
  {
    hide Flat, Expand, Close, Placeholder;
    assert p != "" by {
      ExpandEmpty(params);
    }
    var s, e := r + "}", Expand(p, params);
    assert s[0] == e[0] && s[0] != '{';
    var front, rest := [p[0]], p[1..];
    if p[0] == '{' {
      var name;
      name, rest := FlatHole(p);
      HoleExpands(p, params, name, rest);
      FrontCharacter(name);
      front := params[name];
      b := name;
    } else {
      LiteralExpands(p, params);
    }
    assert e == front + Expand(rest, params);
    PrefixSplit(s, front, Expand(rest, params));
    if |s| <= |front| {
      n := 0;
    } else {
      assert s[|front|..] == r[|front|..] + "}";
      b, n := ClosedByValue(rest, params, r[|front|..]);
      assert r[|front|..][n..] == r[|front| + n..];
      n := |front| + n;
    }
  }

  lemma ExpandEmpty(params: map<string, string>)
    ensures Expand("", params) == ""
  {
  }

  /** A placeholder that starts inside a value and does not end there starts at its last brace. */
  lemma OpenedByValue(x: string, e: string, k: string, i: nat) returns (m: nat)
    requires i < |x| && OccursAt(x + e, Placeholder(k), i) && !Contains(x, Placeholder(k))
    ensures m <= |k| && Opens(x, k, m) && k[m..] + "}" <= e
  {
    var t := Placeholder(k);
    if i + |t| <= |x| {
      assert x[i..i + |t|] == (x + e)[i..i + |t|];
      assert OccursAt(x, t, i);
    }
    m := |x| - i - 1;
    assert t[..m + 1] == "{" + k[..m] && t[m + 1..] == k[m..] + "}";
    assert x[i..] == (x + e)[i..i + |t|][..m + 1];
    assert e[..|t| - m - 1] == (x + e)[i..i + |t|][m + 1..];
  }

  lemma StartedByValue(a: string, rest: string, params: map<string, string>, k: string, i: nat)
    requires a in params && Flat(rest, false) && BraceFree(k)
    requires i < |params[a]| && OccursAt(params[a] + Expand(rest, params), Placeholder(k), i)
    ensures Spelled(params, k)
  {
    var x := params[a];
    if Contains(x, Placeholder(k)) {
      assert Spells(x, x, k);
    } else {
      var m := OpenedByValue(x, Expand(rest, params), k, i);
      var b, n := ClosedByValue(rest, params, k[m..]);
      assert k[m..][n..] == k[m + n..];
      assert Closes(params[b], k, m + n);
      assert Spells(x, params[b], k);
    }
  }

  /** One replacement adds one parameter to the simultaneous substitution, unless the values put
      in so far spell its placeholder. */
  lemma {:induction false} ReplaceIsExpand(p: string, params: map<string, string>, k: string, v: string)
    requires Flat(p, false) && BraceFree(k) && k !in params
    requires v == Placeholder(k) || !Spelled(params, k)
    ensures ReplaceAll(Expand(p, params), Placeholder(k), v) == Expand(p, params[k := v])
    decreases |p|
  {
    if p == "" {
      ExpandEmpty(params);
    } else if p[0] == '{' {
      hide Spelled, Flat, Close, Expand, Placeholder;
      var name, rest := FlatHole(p);
      var e, t := Expand(rest, params), Placeholder(k);
      ReplaceIsExpand(rest, params, k, v);
      HoleExpands(p, params, name, rest);
      HoleExpands(p, params[k := v], name, rest);
      FrontCharacter(k);
      if name !in params {
        ReplaceHole(name, e, k, v);
      } else if v == t {
        ReplaceSelf(params[name] + e, v);
        ReplaceSelf(e, v);
      } else {
        forall i: nat | i < |params[name]| ensures !OccursAt(params[name] + e, t, i) {
          if OccursAt(params[name] + e, t, i) {
            StartedByValue(name, rest, params, k, i);
          }
        }
        ReplaceSkipsText(params[name], e, t, v);
      }
    } else {
      hide Spelled, Flat, Close, Expand, Placeholder;
      LiteralExpands(p, params);
      LiteralExpands(p, params[k := v]);
      ReplaceIsExpand(p[1..], params, k, v);
      ReplaceSkips([p[0]], Expand(p[1..], params), k, v);
    }
  }

  lemma {:induction false} ExpandNothing(p: string)
    requires Flat(p, false)
    ensures Expand(p, map[]) == p
    decreases |p|
  {
    if p == "" {
    } else if p[0] == '{' {
      var name, rest := FlatHole(p);
      HoleExpands(p, map[], name, rest);
      ExpandNothing(rest);
    } else {
      ExpandNothing(p[1..]);
    }
  }

  function Restrict(params: map<string, string>, order: seq<string>): map<string, string> {
    map k | k in order && k in params :: params[k]
  }

  lemma {:induction false} InOrderIsExpand(p: string, params: map<string, string>, order: seq<string>)
    requires Flat(p, false) && !Collision(params) && forall k :: k in params ==> BraceFree(k)
    requires forall k :: k in order ==> k in params
    requires forall i, j :: 0 <= i < j < |order| ==> order[i] != order[j]
    ensures InOrder(p, params, order) == Expand(p, Restrict(params, order))
    decreases |order|
  {
    hide Spelled, Flat, Expand;
    if order == [] {
      ExpandNothing(p);
      assert Restrict(params, order) == map[];
    } else {
      var front, k := order[..|order| - 1], order[|order| - 1];
      assert order == front + [k];
      InOrderIsExpand(p, params, front);
      InOrderSnoc(p, params, front, k);
      var done := Restrict(params, front);
      assert Restrict(params, order) == done[k := params[k]];
      if Spelled(done, k) {
        SpelledByMore(done, params - {k}, k);
      }
      ReplaceIsExpand(p, done, k, params[k]);
    }
  }

  lemma SpelledByMore(some: map<string, string>, more: map<string, string>, k: string)
    requires Spelled(some, k) && forall a :: a in some ==> a in more && more[a] == some[a]
    ensures Spelled(more, k)
  {
    hide Spells;
    var a, b :| a in some && b in some && Spells(some[a], some[b], k);
    assert Spells(more[a], more[b], k);
  }

  /** A placeholder of a supplied parameter that is left in the result is spelled by the values. */
  lemma {:induction false} LeftIsSpelled(p: string, params: map<string, string>, k: string, i: nat)
    requires Flat(p, false) && BraceFree(k) && k in params && OccursAt(Expand(p, params), Placeholder(k), i)
    ensures Spelled(params, k)
    decreases |p|
  {
    assert p != "" by {
      ExpandEmpty(params);
    }
    hide OccursAt, Spelled, Placeholder, Flat, Close, Expand;
    FrontCharacter(k);
    var e, t := Expand(p, params), Placeholder(k);
    FrontOccurrence(e, t, i);
    if p[0] == '{' {
      var name, rest := FlatHole(p);
      HoleExpands(p, params, name, rest);
      var e' := Expand(rest, params);
      var x := if name in params then params[name] else Placeholder(name);
      if i >= |x| {
        TailOccurrence(e, t, i, |x|);
        assert e[|x|..] == e';
        LeftIsSpelled(rest, params, k, i - |x|);
      } else if name in params {
        StartedByValue(name, rest, params, k, i);
      } else {
        assert x[i] == e[i];
        OnlyOneBrace(name);
        FrontName(name, e', k);
      }
    } else {
      LiteralExpands(p, params);
      TailOccurrence(e, t, i, 1);
      assert e[1..] == Expand(p[1..], params);
      LeftIsSpelled(p[1..], params, k, i - 1);
    }
  }

  lemma FrontCharacter(k: string)
    ensures Placeholder(k) != "" && Placeholder(k)[0] == '{'
  {
  }

  lemma OnlyOneBrace(name: string)
    requires BraceFree(name)
    ensures forall i :: 0 < i < |Placeholder(name)| ==> Placeholder(name)[i] != '{'
  {
    forall i | 0 < i < |Placeholder(name)| ensures Placeholder(name)[i] != '{' {
      assert i <= |name| ==> Placeholder(name)[i] == name[i - 1];
    }
  }

  /** Confluence: unless the values collide, the loop computes the simultaneous substitution,
      whatever the order of iteration, and a placeholder of a supplied parameter is left only if
      the values themselves spell it. */
  lemma Confluence(pattern: string, params: map<string, string>, order: seq<string>)
    requires Flat(pattern, false) && OrderOf(order, params.Keys)
    requires !Collision(params) && forall k :: k in params ==> BraceFree(k)
    ensures InOrder(pattern, params, order) == Expand(pattern, params)
    ensures forall k :: k in params && Contains(Expand(pattern, params), Placeholder(k)) ==> Spelled(params, k)
  {
    hide Spelled;
    InOrderIsExpand(pattern, params, order);
    assert Restrict(params, order) == params;
    var path := Expand(pattern, params);
    forall k | k in params && Contains(path, Placeholder(k)) ensures Spelled(params, k) {
      var i :| 0 <= i <= |path| && OccursAt(path, Placeholder(k), i);
      LeftIsSpelled(pattern, params, k, i);
    }
  }

  /** One kind of brace in the values does no harm: without the other they spell nothing. */
  lemma OneKindOfBrace(params: map<string, string>)
    requires (forall k :: k in params ==> '{' !in params[k]) || (forall k :: k in params ==> '}' !in params[k])
    ensures !Collision(params) && forall k :: !Spelled(params, k)
  {
    forall k ensures !Spelled(params, k) {
      forall a, b | a in params && b in params ensures !Spells(params[a], params[b], k) {
        if Spells(params[a], params[b], k) {
          SpellingNeedsBoth(params[a], params[b], k);
        }
      }
    }
    forall k | k in params ensures !Spelled(params - {k}, k) {
      if Spelled(params - {k}, k) {
        SpelledByMore(params - {k}, params, k);
      }
    }
  }

  lemma SpellingNeedsBoth(x: string, y: string, k: string)
    requires Spells(x, y, k)
    ensures '{' in x && ('}' in x || '}' in y)
  {
    var t := Placeholder(k);
    if Contains(x, t) {
      var i :| 0 <= i <= |x| && OccursAt(x, t, i);
      FrontOccurrence(x, t, i);
      assert x[i + |t| - 1] == x[i..i + |t|][|t| - 1] == '}';
    } else {
      var m: nat, n: nat :| m <= n <= |k| && Opens(x, k, m) && Closes(y, k, n);
      assert x[|x| - m - 1..][0] == '{';
      assert y[|k| - n] == (k[n..] + "}")[|k| - n] == '}';
    }
  }

  // ---- When the order shows ----

  lemma {:induction false} ReplaceLength(s: string, from: string, to: string)
    requires from != ""
    ensures |to| >= |from| ==> |ReplaceAll(s, from, to)| >= |s|
    ensures |to| <= |from| ==> |ReplaceAll(s, from, to)| <= |s|
  {
    if s == "" {
    } else if from <= s {
      ReplaceLength(s[|from|..], from, to);
    } else {
      ReplaceLength(s[1..], from, to);
    }
  }

  /** Replacing something that occurs by something else changes the text. */
  lemma {:induction false} ReplaceChanges(s: string, from: string, to: string, i: nat)
    requires from != "" && to != from && OccursAt(s, from, i)
    ensures ReplaceAll(s, from, to) != s
  {
    if from <= s {
      var rest := s[|from|..];
      ReplaceLength(rest, from, to);
      assert s == from + rest;
      if |to| == |from| {
        assert s[..|from|] == from;
        assert (to + ReplaceAll(rest, from, to))[..|from|] == to;
      }
    } else {
      assert i > 0;
      TailOccurrence(s, from, i, 1);
      ReplaceChanges(s[1..], from, to, i - 1);
      assert ReplaceAll(s, from, to)[1..] == ReplaceAll(s[1..], from, to);
    }
  }

  lemma {:induction false} InOrderConcat(p: string, params: map<string, string>, x: seq<string>, y: seq<string>)
    requires forall k :: k in x + y ==> k in params
    ensures (forall k :: k in x ==> k in params) && (forall k :: k in y ==> k in params)
    ensures InOrder(p, params, x + y) == InOrder(InOrder(p, params, x), params, y)
    decreases x
  {
    assert forall k :: k in x || k in y ==> k in x + y;
    if x == [] {
      assert x + y == y;
    } else {
      assert (x + y)[0] == x[0] && (x + y)[1..] == x[1..] + y;
      InOrderConcat(ReplaceAll(p, Placeholder(x[0]), params[x[0]]), params, x[1..], y);
    }
  }

  lemma {:induction false} SomeOrder(keys: set<string>) returns (order: seq<string>)
    ensures OrderOf(order, keys)
  {
    if keys == {} {
      order := [];
    } else {
      var k :| k in keys;
      order := SomeOrder(keys - {k});
      order := order + [k];
    }
  }

  lemma OrderJoin(x: seq<string>, y: seq<string>, xs: set<string>, ys: set<string>)
    requires OrderOf(x, xs) && OrderOf(y, ys) && xs !! ys
    ensures OrderOf(x + y, xs + ys)
  {
    forall i, j | 0 <= i < j < |x + y| ensures (x + y)[i] != (x + y)[j] {
      if i < |x| <= j {
        assert x[i] in xs && y[j - |x|] in ys;
      }
    }
  }

  /** Replacing this parameter leaves the pattern as it is. */
  ghost predicate Untouched(p: string, params: map<string, string>, k: string)
    requires k in params
  {
    ReplaceAll(p, Placeholder(k), params[k]) == p
  }

  lemma {:induction false} AllUntouched(p: string, params: map<string, string>, order: seq<string>)
    requires forall k :: k in order ==> k in params && Untouched(p, params, k)
    ensures InOrder(p, params, order) == p
    decreases order
  {
    if order != [] {
      AllUntouched(p, params, order[1..]);
    }
  }

  /** If the pattern, with just the keys in `fill` filled in, contains the placeholder of k, it
      matters whether k comes before or after them. */
  lemma TwoOrders(p: string, params: map<string, string>, fill: seq<string>, k: string, i: nat)
      returns (first: seq<string>, last: seq<string>)
    requires OrderOf(fill, set x | x in fill) && (forall x :: x in fill ==> x in params)
    requires k in params && k !in fill && params[k] != Placeholder(k)
    requires forall x :: x in params && x !in fill ==> Untouched(p, params, x)
    requires OccursAt(InOrder(p, params, fill), Placeholder(k), i)
    ensures OrderOf(first, params.Keys) && OrderOf(last, params.Keys)
    ensures InOrder(p, params, first) != InOrder(p, params, last)
  {
    var filled := set x | x in fill;
    var left := params.Keys - filled - {k};
    var others := SomeOrder(left);
    OrderJoin(others, [k], left, {k});
    OrderJoin(others + [k], fill, left + {k}, filled);
    OrderJoin(others, fill, left, filled);
    OrderJoin(others + fill, [k], left + filled, {k});
    assert left + {k} + filled == params.Keys == left + filled + {k};
    AllUntouched(p, params, others);
    AllUntouched(p, params, others + [k]);
    first, last := others + [k] + fill, others + fill + [k];
    var q := InOrder(p, params, fill);
    InOrderConcat(p, params, others + [k], fill);
    InOrderConcat(p, params, others, fill);
    InOrderSnoc(p, params, others + fill, k);
    ReplaceChanges(q, Placeholder(k), params[k], i);
  }

  /** The order of iteration shows on some flat pattern. */
  ghost predicate OrderShows(params: map<string, string>) {
    exists p, first, last :: OrderShowsOn(params, p, first, last)
  }

  ghost predicate OrderShowsOn(params: map<string, string>, p: string, first: seq<string>, last: seq<string>) {
    && Flat(p, false) && OrderOf(first, params.Keys) && OrderOf(last, params.Keys)
    && InOrder(p, params, first) != InOrder(p, params, last)
  }

  lemma InOrderOne(p: string, params: map<string, string>, a: string)
    requires a in params
    ensures InOrder(p, params, [a]) == ReplaceAll(p, Placeholder(a), params[a])
  {
    assert [a][1..] == [];
  }

  /** The value of a contains the placeholder of k. */
  lemma ContainedShows(params: map<string, string>, k: string, a: string)
    requires forall x :: x in params ==> BraceFree(x)
    requires k in params && params[k] != Placeholder(k)
    requires a in params && a != k && Contains(params[a], Placeholder(k))
    ensures OrderShows(params)
  {
    var p := Placeholder(a);
    assert p + "" == p;
    HoleFlat(a, "");
    forall x | x in params && x != a ensures Untouched(p, params, x) {
      OnlyPlaceholder(a, x, params[x]);
    }
    InOrderOne(p, params, a);
    OnlyPlaceholder(a, a, params[a]);
    var i :| 0 <= i <= |params[a]| && OccursAt(params[a], Placeholder(k), i);
    var first, last := TwoOrders(p, params, [a], k, i);
    assert OrderShowsOn(params, p, first, last);
  }

  /** Two placeholders with brace-free text between them, and what one replacement makes of it. */
  function Pair(a: string, mid: string, b: string): string {
    Placeholder(a) + (mid + Placeholder(b))
  }

  lemma PairReplaced(a: string, mid: string, b: string, k: string, v: string)
    requires BraceFree(a) && BraceFree(mid) && BraceFree(b) && BraceFree(k)
    ensures Flat(Pair(a, mid, b), false)
    ensures ReplaceAll(Pair(a, mid, b), Placeholder(k), v)
         == (if a == k then v else Placeholder(a)) + (mid + if b == k then v else Placeholder(b))
  {
    assert Placeholder(b) + "" == Placeholder(b);
    HoleFlat(b, "");
    LiteralFlat(mid, Placeholder(b));
    HoleFlat(a, mid + Placeholder(b));
    ReplaceHole(a, mid + Placeholder(b), k, v);
    ReplaceSkips(mid, Placeholder(b), k, v);
    OnlyPlaceholder(b, k, v);
  }

  lemma NotClosed(mid: string, b: string, m: nat)
    requires BraceFree(mid) && BraceFree(b) && m <= |b|
    ensures !(b[m..] + "}" <= mid + Placeholder(b))
  {
    var s, e := b[m..] + "}", mid + Placeholder(b);
    if |s| > |mid| {
      assert e[|mid|] == '{' != s[|mid|];
    } else {
      assert s[|s| - 1] == '}' != mid[|s| - 1] == e[|s| - 1];
    }
  }

  /** A value that does not contain a placeholder, and brace-free text before that placeholder. */
  lemma ReplaceAfterValue(x: string, mid: string, b: string, v: string)
    requires BraceFree(mid) && BraceFree(b) && !Contains(x, Placeholder(b))
    ensures ReplaceAll(x + (mid + Placeholder(b)), Placeholder(b), v) == x + (mid + v)
  {
    var t := Placeholder(b);
    var e := mid + t;
    forall i: nat | i < |x| ensures !OccursAt(x + e, t, i) {
      if OccursAt(x + e, t, i) {
        var m := OpenedByValue(x, e, b, i);
        NotClosed(mid, b, m);
      }
    }
    ReplaceSkipsText(x, e, t, v);
    ReplaceSkips(mid, t, b, v);
    OnlyPlaceholder(b, b, v);
  }

  /** The value of a begins the placeholder of k, the value of b ends it. */
  lemma AcrossShows(params: map<string, string>, k: string, a: string, b: string, m: nat, n: nat)
    requires forall x :: x in params ==> BraceFree(x)
    requires k in params && params[k] != Placeholder(k) && a in params && b in params && a != k && b != k
    requires m <= n <= |k| && Opens(params[a], k, m) && Closes(params[b], k, n)
    ensures OrderShows(params)
  {
    var mid, x, y := k[m..n], params[a], params[b];
    assert y != Placeholder(b) by {
      assert y[0] == (k[n..] + "}")[0] != '{';
    }
    if a != b && Contains(x, Placeholder(b)) {
      ContainedShows(params, b, a);
    } else {
      var p, fill := Pair(a, mid, b), if a == b then [a] else [a, b];
      forall z | z in params ensures Flat(p, false) && (z !in fill ==> Untouched(p, params, z)) {
        PairReplaced(a, mid, b, z, params[z]);
      }
      PairReplaced(a, mid, b, a, x);
      if a == b {
        InOrderOne(p, params, a);
      } else {
        InOrderTwo(p, params, a, b);
        ReplaceAfterValue(x, mid, b, y);
      }
      var q := x + (mid + y);
      assert InOrder(p, params, fill) == q;
      var i := AcrossOccurs(x, y, k, m, n);
      var first, last := TwoOrders(p, params, fill, k, i);
      assert OrderShowsOn(params, p, first, last);
    }
  }

  lemma PlaceholderSplit(k: string, m: nat, n: nat)
    requires m <= n <= |k|
    ensures Placeholder(k) == ("{" + k[..m]) + k[m..n] + (k[n..] + "}")
  {
    assert k == k[..m] + k[m..n] + k[n..];
  }

  lemma AcrossOccurs(x: string, y: string, k: string, m: nat, n: nat) returns (i: nat)
    requires m <= n <= |k| && Opens(x, k, m) && Closes(y, k, n)
    ensures OccursAt(x + (k[m..n] + y), Placeholder(k), i)
  {
    i := |x| - m - 1;
    var open, mid, close, t := "{" + k[..m], k[m..n], k[n..] + "}", Placeholder(k);
    var front, back := x[..i], y[|close|..];
    assert x == front + open && y == close + back;
    PlaceholderSplit(k, m, n);
    var q := front + (t + back);
    hide Placeholder;
    assert q == x + (mid + y);
    assert q[i..i + |t|] == t;
  }

  /** Exactly when the order of iteration shows: there is a flat pattern on which two orders give
      different paths if and only if the values of other parameters, one or two of them, supply
      the opening and the closing brace of a parameter's placeholder. */
  lemma OrderShowsExactly(params: map<string, string>)
    requires forall k :: k in params ==> BraceFree(k)
    ensures OrderShows(params) <==> Collision(params)
  {
    if Collision(params) {
      var k :| k in params && params[k] != Placeholder(k) && Spelled(params - {k}, k);
      var rest := params - {k};
      var a, b :| a in rest && b in rest && Spells(rest[a], rest[b], k);
      if Contains(params[a], Placeholder(k)) {
        ContainedShows(params, k, a);
      } else {
        var m: nat, n: nat :| m <= n <= |k| && Opens(params[a], k, m) && Closes(params[b], k, n);
        AcrossShows(params, k, a, b, m, n);
      }
    } else {
      forall p, first, last ensures !OrderShowsOn(params, p, first, last) {
        if Flat(p, false) && OrderOf(first, params.Keys) && OrderOf(last, params.Keys) {
          Confluence(p, params, first);
          Confluence(p, params, last);
        }
      }
    }
  }

  /** The loop over the map, in whatever order the keys come. */
  method Path(pattern: string, params: map<string, string>) returns (path: string)
    ensures exists order :: OrderOf(order, params.Keys) && path == InOrder(pattern, params, order)
    ensures Flat(pattern, false) && !Collision(params) && (forall k :: k in params ==> BraceFree(k))
        ==> path == Expand(pattern, params)
  {
    path := pattern;
    var keys := params.Keys;
    ghost var order: seq<string> := [];
    while keys != {}
      invariant keys <= params.Keys
      invariant OrderOf(order, params.Keys - keys)
      invariant path == InOrder(pattern, params, order)
    {
      var k :| k in keys;
      path := ReplaceAll(path, Placeholder(k), params[k]);
      InOrderSnoc(pattern, params, order, k);
      order := order + [k];
      keys := keys - {k};
    }
    if Flat(pattern, false) && !Collision(params) && forall k :: k in params ==> BraceFree(k) {
      Confluence(pattern, params, order);
    }
  }

  /** The patterns of the file-share service are flat: brace-free text, a placeholder, and
      perhaps more text and a second placeholder. */
  lemma ServicePatternsAreFlat(before: string, name: string, between: string, name': string, after: string)
    requires BraceFree(before) && BraceFree(name) && BraceFree(between) && BraceFree(name') && BraceFree(after)
    ensures Flat(before + Placeholder(name) + after, false)
    ensures Flat(before + Placeholder(name) + (between + Placeholder(name') + after), false)
  {
    assert after + "" == after;
    LiteralFlat(after, "");
    OnePlaceholder(before, name, after);
    OnePlaceholder(between, name', after);
    OnePlaceholder(before, name, between + Placeholder(name') + after);
  }

  lemma OnePlaceholder(before: string, name: string, after: string)
    requires BraceFree(before) && BraceFree(name) && Flat(after, false)
    ensures Flat(before + Placeholder(name) + after, false)
  {
    HoleFlat(name, after);
    LiteralFlat(before, Placeholder(name) + after);
    assert before + (Placeholder(name) + after) == before + Placeholder(name) + after;
  }

  /** With braces in a value the order shows: when the value of one parameter is the placeholder
      of another, the two orders give different paths for every value of the other. */
  lemma BracesInValuesBreakConfluence(a: string, b: string, x: string)
    requires BraceFree(a) && BraceFree(b) && a != b && BraceFree(x)
    ensures var pattern, params := Placeholder(a) + Placeholder(b), map[a := Placeholder(b), b := x];
      && InOrder(pattern, params, [a, b]) == x + x
      && InOrder(pattern, params, [b, a]) == Placeholder(b) + x
      && x + x != Placeholder(b) + x
  {
    var pattern, params := Placeholder(a) + Placeholder(b), map[a := Placeholder(b), b := x];
    OnlyPlaceholder(b, a, Placeholder(b));
    OnlyPlaceholder(b, b, x);
    ReplaceHole(a, Placeholder(b), a, Placeholder(b));
    ReplaceHole(b, Placeholder(b), b, x);
    ReplaceHole(a, Placeholder(b), b, x);
    ReplaceHole(a, x, a, Placeholder(b));
    ReplaceSkips(x, "", a, Placeholder(b));
    assert x + "" == x;
    InOrderTwo(pattern, params, a, b);
    InOrderTwo(pattern, params, b, a);
    assert ReplaceAll(pattern, Placeholder(a), params[a]) == Placeholder(b) + Placeholder(b);
    assert ReplaceAll(pattern, Placeholder(b), params[b]) == Placeholder(a) + x;
    assert (Placeholder(b) + x)[0] == '{';
    assert x != "" ==> (x + x)[0] == x[0] != '{';
  }

  lemma InOrderTwo(p: string, params: map<string, string>, a: string, b: string)
    requires a in params && b in params
    ensures InOrder(p, params, [a, b])
         == ReplaceAll(ReplaceAll(p, Placeholder(a), params[a]), Placeholder(b), params[b])
  {
    var p' := ReplaceAll(p, Placeholder(a), params[a]);
    var p'' := ReplaceAll(p', Placeholder(b), params[b]);
    assert [a, b][1..] == [b] && [b][1..] == [];
    assert InOrder(p'', params, []) == p'';
    assert InOrder(p', params, [b]) == p'';
  }

  lemma OnlyPlaceholder(name: string, k: string, v: string)
    requires BraceFree(name) && BraceFree(k)
    ensures ReplaceAll(Placeholder(name), Placeholder(k), v) == if name == k then v else Placeholder(name)
  {
    ReplaceHole(name, "", k, v);
    assert Placeholder(name) + "" == Placeholder(name);
  }
}
