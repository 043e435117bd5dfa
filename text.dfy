/** String operations the scripts rely on: comparison of `str` values,
    ASCII `str.upper`, the `in` substring test, `str.strip(chars)`,
    `str.replace(c, '')` and `list.index`. */
module Text {

  // ---------------------------------------------------------------------
  // Ordering: Python's `<=` on `str` and SQLite's BINARY collation both
  // compare code point by code point, a proper prefix coming first.
  // ---------------------------------------------------------------------

  predicate LexLe(a: string, b: string)
  {
    |a| == 0 || (|b| > 0 && (a[0] < b[0] || (a[0] == b[0] && LexLe(a[1..], b[1..]))))
  }

  lemma {:induction false} LexLeReflexive(a: string)
    ensures LexLe(a, a)
  {
    if |a| > 0 {
      LexLeReflexive(a[1..]);
    }
  }

  lemma {:induction false} LexLeTotal(a: string, b: string)
    ensures LexLe(a, b) || LexLe(b, a)
  {
    if |a| > 0 && |b| > 0 && a[0] == b[0] {
      LexLeTotal(a[1..], b[1..]);
    }
  }

  lemma {:induction false} LexLeAntisymmetric(a: string, b: string)
    requires LexLe(a, b) && LexLe(b, a)
    ensures a == b
  {
    if |a| > 0 && |b| > 0 {
      LexLeAntisymmetric(a[1..], b[1..]);
      assert a == [a[0]] + a[1..];
      assert b == [b[0]] + b[1..];
    }
  }

  lemma {:induction false} LexLeTransitive(a: string, b: string, c: string)
    requires LexLe(a, b) && LexLe(b, c)
    ensures LexLe(a, c)
  {
    if |a| > 0 && |b| > 0 && |c| > 0 && a[0] == b[0] && b[0] == c[0] {
      LexLeTransitive(a[1..], b[1..], c[1..]);
    }
  }

  // ---------------------------------------------------------------------
  // ASCII upper-casing (`str.upper` restricted to ASCII letters).
  // ---------------------------------------------------------------------

  function UpperChar(c: char): (u: char)
    ensures 'a' <= c <= 'z' ==> u as int == c as int - 32
    ensures !('a' <= c <= 'z') ==> u == c
  {
    if 'a' <= c <= 'z' then (c as int - 32) as char else c
  }

  function Upper(s: string): (u: string)
    ensures |u| == |s|
    ensures forall i :: 0 <= i < |s| ==> u[i] == UpperChar(s[i])
  {
    seq(|s|, i requires 0 <= i < |s| => UpperChar(s[i]))
  }

  /** An upper-cased string no longer contains a lower-case ASCII letter,
      so upper-casing it again changes nothing. */
  lemma UpperIdempotent(s: string)
    ensures forall i :: 0 <= i < |Upper(s)| ==> !('a' <= Upper(s)[i] <= 'z')
    ensures Upper(Upper(s)) == Upper(s)
  {
  }

  // ---------------------------------------------------------------------
  // Substring test: Python's `p in s` on two strings.
  // ---------------------------------------------------------------------

  /** `p` occurs in `s` starting at index `i`. */
  predicate OccursAt(s: string, p: string, i: int)
  {
    0 <= i && i + |p| <= |s| && s[i..i + |p|] == p
  }

  function Contains(s: string, p: string): (b: bool)
    ensures b <==> exists i :: OccursAt(s, p, i)
    decreases |s|
  {
    if |p| <= |s| && s[..|p|] == p then
      assert OccursAt(s, p, 0);
      true
    else if |s| == 0 then
      assert forall i :: !OccursAt(s, p, i);
      false
    else
      var rest := Contains(s[1..], p);
      assert forall i :: OccursAt(s[1..], p, i) <==> OccursAt(s, p, i + 1) by {
        forall i ensures OccursAt(s[1..], p, i) <==> OccursAt(s, p, i + 1) {
          if 0 <= i && i + |p| <= |s| - 1 {
            assert s[1..][i..i + |p|] == s[i + 1..i + 1 + |p|];
          }
        }
      }
      assert !OccursAt(s, p, 0);
      assert (exists i :: OccursAt(s, p, i)) ==> exists i :: OccursAt(s[1..], p, i) by {
        if exists i :: OccursAt(s, p, i) {
          var i :| OccursAt(s, p, i);
          assert OccursAt(s[1..], p, i - 1);
        }
      }
      rest
  }

  // ---------------------------------------------------------------------
  // `str.strip(chars)`: drop every leading and trailing character that
  // belongs to `cs`.
  // ---------------------------------------------------------------------

  predicate AllIn(s: string, cs: set<char>)
  {
    forall i :: 0 <= i < |s| ==> s[i] in cs
  }

  /** Neither end of `s` is a character of `cs` (the empty string counts as clean). */
  predicate Clean(s: string, cs: set<char>)
  {
    |s| == 0 || (s[0] !in cs && s[|s| - 1] !in cs)
  }

  function StripLeft(s: string, cs: set<char>): (r: string)
    ensures |r| <= |s| && r == s[|s| - |r|..]
    ensures AllIn(s[..|s| - |r|], cs)
    ensures |r| > 0 ==> r[0] !in cs
  {
    if |s| > 0 && s[0] in cs then StripLeft(s[1..], cs) else s
  }

  function StripRight(s: string, cs: set<char>): (r: string)
    ensures |r| <= |s| && r == s[..|r|]
    ensures AllIn(s[|r|..], cs)
    ensures |r| > 0 ==> r[|r| - 1] !in cs
  {
    if |s| > 0 && s[|s| - 1] in cs then StripRight(s[..|s| - 1], cs) else s
  }

  /** `s` without its leading and trailing characters from `cs`. */
  function Strip(s: string, cs: set<char>): (r: string)
    ensures |r| <= |s| && Clean(r, cs)
  {
    StripRight(StripLeft(s, cs), cs)
  }

  /** What `Strip` keeps is a contiguous piece of `s` framed by characters
      of `cs` only. */
  lemma StripPiece(s: string, cs: set<char>)
    ensures var r := Strip(s, cs);
            exists k :: 0 <= k <= |s| - |r| && r == s[k..k + |r|] && AllIn(s[..k], cs) && AllIn(s[k + |r|..], cs)
  {
    var l := StripLeft(s, cs);
    var r := StripRight(l, cs);
    var k := |s| - |l|;
    assert l == s[k..] && r == l[..|r|];
    assert r == s[k..k + |r|] by {
      assert s[k..k + |r|] == l[..|r|];
    }
    assert AllIn(s[k + |r|..], cs) by {
      assert s[k + |r|..] == l[|r|..];
    }
    assert AllIn(s[..k], cs);
  }

  lemma {:induction false} StripLeftPrefix(pre: string, w: string, cs: set<char>)
    requires AllIn(pre, cs)
    requires |w| > 0 && w[0] !in cs
    ensures StripLeft(pre + w, cs) == w
  {
    if |pre| > 0 {
      assert (pre + w)[1..] == pre[1..] + w;
      StripLeftPrefix(pre[1..], w, cs);
    } else {
      assert pre + w == w;
    }
  }

  lemma {:induction false} StripRightSuffix(w: string, post: string, cs: set<char>)
    requires AllIn(post, cs)
    requires |w| > 0 && w[|w| - 1] !in cs
    ensures StripRight(w + post, cs) == w
  {
    if |post| > 0 {
      assert (w + post)[..|w + post| - 1] == w + post[..|post| - 1];
      StripRightSuffix(w, post[..|post| - 1], cs);
    } else {
      assert w + post == w;
    }
  }

  /** `strip` removes exactly the padding around a clean core: a complete
      description of what it does to a string of that shape. */
  lemma StripFrame(pre: string, core: string, post: string, cs: set<char>)
    requires AllIn(pre, cs) && AllIn(post, cs)
    requires |core| > 0 && Clean(core, cs)
    ensures Strip(pre + core + post, cs) == core
  {
    assert pre + core + post == pre + (core + post);
    StripLeftPrefix(pre, core + post, cs);
    StripRightSuffix(core, post, cs);
  }

  /** A string made only of characters of `cs` strips to the empty string. */
  lemma {:induction false} StripAllPadding(s: string, cs: set<char>)
    requires AllIn(s, cs)
    ensures StripLeft(s, cs) == [] && Strip(s, cs) == []
  {
    if |s| > 0 {
      StripAllPadding(s[1..], cs);
    }
  }

  // ---------------------------------------------------------------------
  // `s.replace(c, '')`: every occurrence of `c` removed.
  // ---------------------------------------------------------------------

  function RemoveChar(s: string, c: char): (r: string)
    ensures c !in r
    ensures c !in s ==> r == s
    ensures forall x :: x != c ==> multiset(r)[x] == multiset(s)[x]
  {
    if |s| == 0 then []
    else
      var rest := RemoveChar(s[1..], c);
      assert s == [s[0]] + s[1..];
      if s[0] == c then rest else [s[0]] + rest
  }

  lemma {:induction false} RemoveCharConcat(s: string, t: string, c: char)
    ensures RemoveChar(s + t, c) == RemoveChar(s, c) + RemoveChar(t, c)
  {
    if |s| > 0 {
      assert (s + t)[1..] == s[1..] + t;
      RemoveCharConcat(s[1..], t, c);
    } else {
      assert s + t == t;
    }
  }

  // ---------------------------------------------------------------------
  // `list.index(x)`: the first position of `x`.
  // ---------------------------------------------------------------------

  function IndexOf<T(==)>(xs: seq<T>, x: T): (i: nat)
    requires x in xs
    ensures i < |xs| && xs[i] == x
    ensures forall j :: 0 <= j < i ==> xs[j] != x
  {
    if xs[0] == x then 0 else 1 + IndexOf(xs[1..], x)
  }
}
