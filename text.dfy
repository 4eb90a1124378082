/**
  Strings as the dashboard and the consolidation code use them: lower-casing,
  the substring tests `includes`, `startsWith` and `endsWith`, and the
  single-character `split` and `join` of JavaScript strings and arrays.
  Lower-casing is ASCII only: JavaScript's `toLowerCase` also folds other
  alphabets, which this model leaves as they are.
 */
module Text {

  /** `c.toLowerCase()` for ASCII letters; every other character is unchanged. */
  function LowerChar(c: char): char
  {
    if 'A' <= c <= 'Z' then (c as int - 'A' as int + 'a' as int) as char else c
  }

  /** `s.toLowerCase()`, character by character. */
  function Lower(s: string): (r: string)
    ensures |r| == |s|
    ensures forall i :: 0 <= i < |s| ==> r[i] == LowerChar(s[i])
  {
    if s == [] then [] else [LowerChar(s[0])] + Lower(s[1..])
  }

  /** No character is changed by lower-casing it twice. */
  lemma LowerCharIdempotent(c: char)
    ensures LowerChar(LowerChar(c)) == LowerChar(c)
  {
  }

  /** Lower-casing an already lower-cased string changes nothing. */
  lemma LowerIdempotent(s: string)
    ensures Lower(Lower(s)) == Lower(s)
  {
    forall i | 0 <= i < |s|
      ensures Lower(Lower(s))[i] == Lower(s)[i]
    {
      LowerCharIdempotent(s[i]);
    }
  }

  /** `s.startsWith(p)` */
  predicate StartsWith(s: string, p: string)
  {
    |p| <= |s| && s[..|p|] == p
  }

  /** `s.endsWith(p)` */
  predicate EndsWith(s: string, p: string)
  {
    |p| <= |s| && s[|s| - |p|..] == p
  }

  /** p occurs in s starting at index i. */
  predicate OccursAt(s: string, p: string, i: int)
  {
    0 <= i <= |s| - |p| && s[i..i + |p|] == p
  }

  /** `s.includes(p)`: p starts at some position of s. */
  predicate Includes(s: string, p: string)
    decreases |s|
  {
    StartsWith(s, p) || (s != [] && Includes(s[1..], p))
  }

  /** `Includes` holds exactly when p occurs at some index of s. */
  lemma {:induction false} IncludesIffOccurs(s: string, p: string)
    ensures Includes(s, p) <==> exists i :: OccursAt(s, p, i)
    decreases |s|
  {
    if StartsWith(s, p) {
      assert OccursAt(s, p, 0);
    } else if s != [] {
      IncludesIffOccurs(s[1..], p);
      if Includes(s[1..], p) {
        var i :| OccursAt(s[1..], p, i);
        assert s[i + 1..i + 1 + |p|] == s[1..][i..i + |p|];
        assert OccursAt(s, p, i + 1);
      }
      if exists i :: OccursAt(s, p, i) {
        var i :| OccursAt(s, p, i);
        if i > 0 {
          assert s[1..][i - 1..i - 1 + |p|] == s[i..i + |p|];
          assert OccursAt(s[1..], p, i - 1);
        }
      }
    }
  }

  /** A string includes every string placed inside it. */
  lemma IncludesInfix(a: string, p: string, b: string)
    ensures Includes(a + p + b, p)
  {
    var s := a + p + b;
    assert s[|a|..|a| + |p|] == p;
    assert OccursAt(s, p, |a|);
    IncludesIffOccurs(s, p);
  }

  /** `includes` is transitive: a string includes whatever a string it includes does. */
  lemma IncludesTrans(s: string, a: string, b: string)
    requires Includes(s, a) && Includes(a, b)
    ensures Includes(s, b)
  {
    IncludesIffOccurs(s, a);
    IncludesIffOccurs(a, b);
    var i :| OccursAt(s, a, i);
    var j :| OccursAt(a, b, j);
    forall m | 0 <= m < |b|
      ensures s[i + j..i + j + |b|][m] == b[m]
    {
      assert b[m] == a[j + m] == s[i + j + m];
    }
    assert OccursAt(s, b, i + j);
    IncludesIffOccurs(s, b);
  }

  /** `s.split(c)` for a one-character separator: the pieces between the separators. */
  function Split(s: string, c: char): (r: seq<string>)
    ensures |r| >= 1
    decreases |s|
  {
    if s == [] then [""]
    else if s[0] == c then [""] + Split(s[1..], c)
    else
      var rest := Split(s[1..], c);
      [[s[0]] + rest[0]] + rest[1..]
  }

  /** `xs.join(sep)`; the join of no strings is the empty string. */
  function Join(xs: seq<string>, sep: string): string
  {
    if xs == [] then ""
    else if |xs| == 1 then xs[0]
    else xs[0] + sep + Join(xs[1..], sep)
  }

  /** Splitting a separator-free prefix followed by t glues the prefix onto t's first piece. */
  lemma {:induction false} SplitFreePrefix(x: string, t: string, c: char)
    requires c !in x
    ensures Split(x + t, c) == [x + Split(t, c)[0]] + Split(t, c)[1..]
    decreases |x|
  {
    if x != [] {
      assert (x + t)[1..] == x[1..] + t;
      SplitFreePrefix(x[1..], t, c);
      assert [x[0]] + (x[1..] + Split(t, c)[0]) == x + Split(t, c)[0];
    } else {
      assert x + t == t;
      var r := Split(t, c);
      assert x + r[0] == r[0];
      assert r == [r[0]] + r[1..];
    }
  }

  /** No piece produced by `Split` contains the separator. */
  lemma {:induction false} SplitPiecesFree(s: string, c: char)
    ensures forall i :: 0 <= i < |Split(s, c)| ==> c !in Split(s, c)[i]
    decreases |s|
  {
    if s != [] {
      SplitPiecesFree(s[1..], c);
    }
  }

  /** Splitting a join recovers the joined strings when none of them contains the separator. */
  lemma {:induction false} SplitJoin(xs: seq<string>, c: char)
    requires |xs| >= 1
    requires forall i :: 0 <= i < |xs| ==> c !in xs[i]
    ensures Split(Join(xs, [c]), c) == xs
    decreases |xs|
  {
    if |xs| == 1 {
      assert Split("", c) == [""];
      SplitFreePrefix(xs[0], "", c);
      assert xs[0] + "" == xs[0];
      assert Join(xs, [c]) == xs[0];
      assert [xs[0]] == xs;
    } else {
      var rest := Join(xs[1..], [c]);
      SplitJoin(xs[1..], c);
      assert Join(xs, [c]) == xs[0] + ([c] + rest);
      SplitFreePrefix(xs[0], [c] + rest, c);
      assert ([c] + rest)[1..] == rest;
      assert Split([c] + rest, c) == [""] + Split(rest, c);
      assert xs[0] + "" == xs[0];
      assert xs == [xs[0]] + xs[1..];
    }
  }

  /** A string without the separator splits into itself alone. */
  lemma SplitFree(s: string, c: char)
    requires c !in s
    ensures Split(s, c) == [s]
  {
    SplitJoin([s], c);
  }

  /** Joining (a + b) in front of more strings puts a in front of the join. */
  lemma JoinGlue(a: string, b: string, ys: seq<string>, sep: string)
    ensures Join([a + b] + ys, sep) == a + Join([b] + ys, sep)
  {
    if ys != [] {
      assert ([a + b] + ys)[1..] == ys;
      assert ([b] + ys)[1..] == ys;
    }
  }

  /** Joining the pieces of a split with the separator gives back the string. */
  lemma {:induction false} JoinSplit(s: string, c: char)
    ensures Join(Split(s, c), [c]) == s
    decreases |s|
  {
    if s != [] {
      var rest := Split(s[1..], c);
      JoinSplit(s[1..], c);
      assert s == [s[0]] + s[1..];
      if s[0] == c {
        assert Split(s, c) == [""] + rest;
        assert ([""] + rest)[1..] == rest;
        assert Join([""] + rest, [c]) == "" + [c] + Join(rest, [c]);
      } else {
        assert Split(s, c) == [[s[0]] + rest[0]] + rest[1..];
        JoinGlue([s[0]], rest[0], rest[1..], [c]);
        assert [rest[0]] + rest[1..] == rest;
      }
    }
  }

  /** Each string followed by the terminator c. */
  function Terminated(xs: seq<string>, c: char): string
  {
    if xs == [] then "" else xs[0] + [c] + Terminated(xs[1..], c)
  }

  /** Adding a string at the end appends it and its terminator. */
  lemma {:induction false} TerminatedSnoc(xs: seq<string>, x: string, c: char)
    ensures Terminated(xs + [x], c) == Terminated(xs, c) + x + [c]
    decreases |xs|
  {
    if xs == [] {
      assert [x][1..] == [];
    } else {
      assert (xs + [x])[1..] == xs[1..] + [x];
      TerminatedSnoc(xs[1..], x, c);
    }
  }

  /** Splitting a string after a separator-free prefix and the separator gives the prefix first. */
  lemma SplitAfter(a: string, b: string, c: char)
    requires c !in a
    ensures Split(a + [c] + b, c) == [a] + Split(b, c)
  {
    SplitFreePrefix(a, [c] + b, c);
    assert a + [c] + b == a + ([c] + b);
    assert ([c] + b)[1..] == b;
    assert Split([c] + b, c) == [""] + Split(b, c);
    assert a + "" == a;
  }

  /** Splitting terminated strings gives them back, followed by the empty piece after the last terminator. */
  lemma {:induction false} SplitTerminated(xs: seq<string>, c: char)
    requires forall i :: 0 <= i < |xs| ==> c !in xs[i]
    ensures Split(Terminated(xs, c), c) == xs + [""]
    decreases |xs|
  {
    if xs != [] {
      SplitTerminated(xs[1..], c);
      SplitAfter(xs[0], Terminated(xs[1..], c), c);
      assert xs == [xs[0]] + xs[1..];
    }
  }

  /** A join of strings without c, with a separator without c, has no c. */
  lemma {:induction false} JoinFree(xs: seq<string>, sep: string, c: char)
    requires c !in sep
    requires forall i :: 0 <= i < |xs| ==> c !in xs[i]
    ensures c !in Join(xs, sep)
    decreases |xs|
  {
    if |xs| > 1 {
      JoinFree(xs[1..], sep, c);
    }
  }
}
