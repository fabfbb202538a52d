/**
 * The string operations the validators use: Python's `str.isspace`,
 * `str.strip` and `str.replace`, on strings seen as sequences of code points.
 */
module Text {

  /** The characters Python's `str.isspace` accepts (and `\s` in a `str` regex). */
  predicate IsSpace(c: char) {
    || c == ' ' || c == '\t' || c == '\n' || c == '\r' || c == '\U{B}' || c == '\U{C}'
    || ('\U{1C}' <= c <= '\U{1F}')
    || c == '\U{85}' || c == '\U{A0}' || c == '\U{1680}'
    || ('\U{2000}' <= c <= '\U{200A}')
    || c == '\U{2028}' || c == '\U{2029}' || c == '\U{202F}' || c == '\U{205F}' || c == '\U{3000}'
  }

  /** Drops leading whitespace. */
  function TrimStart(s: string): (r: string)
    ensures |r| <= |s| && r == s[|s| - |r|..]
    ensures r == [] || !IsSpace(r[0])
    ensures forall i :: 0 <= i < |s| - |r| ==> IsSpace(s[i])
  {
    if s != [] && IsSpace(s[0]) then TrimStart(s[1..]) else s
  }

  /** Drops trailing whitespace. */
  function TrimEnd(s: string): (r: string)
    ensures |r| <= |s| && r == s[..|r|]
    ensures r == [] || !IsSpace(r[|r| - 1])
    ensures forall i :: |r| <= i < |s| ==> IsSpace(s[i])
  {
    if s != [] && IsSpace(s[|s| - 1]) then TrimEnd(s[..|s| - 1]) else s
  }

  /**
   * Python's `s.strip()`: the longest infix of `s` that neither starts nor
   * ends with whitespace, everything cut off being whitespace.
   */
  function Strip(s: string): (r: string)
    ensures exists i, j :: 0 <= i <= j <= |s| && r == s[i..j]
                          && (forall k :: 0 <= k < i ==> IsSpace(s[k]))
                          && (forall k :: j <= k < |s| ==> IsSpace(s[k]))
    ensures r == [] || (!IsSpace(r[0]) && !IsSpace(r[|r| - 1]))
  {
    var t := TrimStart(s);
    var r := TrimEnd(t);
    var i := |s| - |t|;
    assert r == s[i..i + |r|];
    r
  }

  /** True when `pat` occurs in `s` starting at index `i`. */
  predicate OccursAt(s: string, pat: string, i: nat) {
    i + |pat| <= |s| && s[i..i + |pat|] == pat
  }

  /**
   * Python's `s.replace(pat, rep)`: scans left to right and replaces each
   * non-overlapping occurrence of `pat` by `rep`.
   */
  function Replace(s: string, pat: string, rep: string): string
    requires pat != []
  {
    if s == [] then []
    else if OccursAt(s, pat, 0) then rep + Replace(s[|pat|..], pat, rep)
    else [s[0]] + Replace(s[1..], pat, rep)
  }

  /** Number of occurrences of the character `c` in `s`. */
  function Count(s: string, c: char): nat {
    if s == [] then 0 else (if s[0] == c then 1 else 0) + Count(s[1..], c)
  }

  lemma {:induction false} CountAppend(a: string, b: string, c: char)
    ensures Count(a + b, c) == Count(a, c) + Count(b, c)
  {
    if a != [] {
      assert (a + b)[0] == a[0] && (a + b)[1..] == a[1..] + b;
      CountAppend(a[1..], b, c);
    } else {
      assert a + b == b;
    }
  }

  /** A character that does not occur in `s` occurs nowhere as a one-character pattern. */
  lemma CharNowhere(s: string, c: char)
    requires c !in s
    ensures forall i: nat :: !OccursAt(s, [c], i)
  {
    forall i: nat ensures !OccursAt(s, [c], i) {
      if i < |s| {
        assert s[i..i + 1] == [s[i]];
      }
    }
  }

  /** A string without the pattern's occurrences is left untouched. */
  lemma {:induction false} ReplaceAbsent(s: string, pat: string, rep: string)
    requires pat != []
    requires forall i: nat :: !OccursAt(s, pat, i)
    ensures Replace(s, pat, rep) == s
  {
    if s != [] {
      assert !OccursAt(s, pat, 0);
      forall i: nat ensures !OccursAt(s[1..], pat, i) {
        assert !OccursAt(s, pat, i + 1);
        if i + |pat| <= |s| - 1 {
          assert s[1..][i..i + |pat|] == s[i + 1..i + 1 + |pat|];
        }
      }
      ReplaceAbsent(s[1..], pat, rep);
    }
  }

  /**
   * Replacing the one-character pattern `[a]` by `[b]` (with `b != a`):
   * no `a` is left, every `a` became a `b`, and the length is kept.
   */
  lemma {:induction false} ReplaceCharCounts(s: string, a: char, b: char)
    requires a != b
    ensures var r := Replace(s, [a], [b]);
            |r| == |s| && Count(r, a) == 0 && Count(r, b) == Count(s, b) + Count(s, a)
  {
    if s != [] {
      ReplaceCharCounts(s[1..], a, b);
      var rest := Replace(s[1..], [a], [b]);
      if s[0] == a {
        assert OccursAt(s, [a], 0);
        assert Replace(s, [a], [b]) == [b] + rest;
      } else {
        assert s[0..1] == [s[0]];
        assert Replace(s, [a], [b]) == [s[0]] + rest;
      }
      CountAppend([Replace(s, [a], [b])[0]], rest, a);
      CountAppend([Replace(s, [a], [b])[0]], rest, b);
    }
  }

  /**
   * Deleting the one-character pattern `[a]`: no `a` is left, the length
   * drops by the number of `a`s, and every other character count is kept.
   */
  lemma {:induction false} RemoveCharCounts(s: string, a: char, c: char)
    ensures var r := Replace(s, [a], []);
            |r| == |s| - Count(s, a) && Count(r, a) == 0
            && (c != a ==> Count(r, c) == Count(s, c))
  {
    if s != [] {
      RemoveCharCounts(s[1..], a, c);
      var rest := Replace(s[1..], [a], []);
      if s[0] == a {
        assert OccursAt(s, [a], 0);
        assert Replace(s, [a], []) == rest;
      } else {
        assert s[0..1] == [s[0]];
        assert Replace(s, [a], []) == [s[0]] + rest;
        CountAppend([s[0]], rest, a);
        CountAppend([s[0]], rest, c);
      }
    }
  }

  /**
   * SQLite's BINARY collation on text, which `ORDER BY nome` uses: code
   * point by code point, a proper prefix first.
   */
  predicate LexLe(a: string, b: string) {
    a == [] || (b != [] && (a[0] < b[0] || (a[0] == b[0] && LexLe(a[1..], b[1..]))))
  }

  lemma {:induction false} LexLeTotal(a: string, b: string)
    ensures LexLe(a, b) || LexLe(b, a)
  {
    if a != [] && b != [] && a[0] == b[0] {
      LexLeTotal(a[1..], b[1..]);
    }
  }

  lemma {:induction false} LexLeTransitive(a: string, b: string, c: string)
    requires LexLe(a, b) && LexLe(b, c)
    ensures LexLe(a, c)
  {
    if a != [] && a[0] == b[0] && b[0] == c[0] {
      LexLeTransitive(a[1..], b[1..], c[1..]);
    }
  }

  lemma {:induction false} LexLeAntisymmetric(a: string, b: string)
    requires LexLe(a, b) && LexLe(b, a)
    ensures a == b
  {
    if a != [] && b != [] {
      LexLeAntisymmetric(a[1..], b[1..]);
      assert a == [a[0]] + a[1..] && b == [b[0]] + b[1..];
    }
  }
}
