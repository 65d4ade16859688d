/**
 * The string operations the application relies on, with Python's meaning:
 * `str.endswith`, `str.startswith`, the first and last position of a
 * character, and the ordering `<` of `str` (code point by code point, a
 * proper prefix sorting first), which `list.sort` uses.
 */
module Strings {

  /** `s.endswith(suffix)` */
  predicate EndsWith(s: string, suffix: string) {
    |suffix| <= |s| && s[|s| - |suffix|..] == suffix
  }

  /** `s.startswith(prefix)` */
  predicate StartsWith(s: string, prefix: string) {
    |prefix| <= |s| && s[..|prefix|] == prefix
  }

  /** The position of the first `c` in `s` at or after `from`, or -1. */
  function FirstIndexFrom(s: string, c: char, from: nat): (i: int)
    requires from <= |s|
    ensures i == -1 || from <= i < |s|
    ensures i >= 0 ==> s[i] == c
    ensures forall k :: from <= k < |s| && (i < 0 || k < i) ==> s[k] != c
    decreases |s| - from
  {
    if from == |s| then -1
    else if s[from] == c then from
    else FirstIndexFrom(s, c, from + 1)
  }

  /** The position of the first `c` in `s`, or -1 (`s.find(c)`). */
  function FirstIndex(s: string, c: char): (i: int)
    ensures -1 <= i < |s|
    ensures i >= 0 ==> s[i] == c
    ensures forall k :: 0 <= k < |s| && (i < 0 || k < i) ==> s[k] != c
  {
    FirstIndexFrom(s, c, 0)
  }

  /** The position of the last `c` in `s` before `n`, or -1. */
  function LastIndexBelow(s: string, c: char, n: nat): (i: int)
    requires n <= |s|
    ensures -1 <= i < n
    ensures i >= 0 ==> s[i] == c
    ensures forall k :: i < k < n ==> s[k] != c
  {
    if n == 0 then -1
    else if s[n - 1] == c then n - 1
    else LastIndexBelow(s, c, n - 1)
  }

  /** The position of the last `c` in `s`, or -1 (`s.rfind(c)`). */
  function LastIndex(s: string, c: char): (i: int)
    ensures -1 <= i < |s|
    ensures i >= 0 ==> s[i] == c
    ensures forall k :: i < k < |s| ==> s[k] != c
  {
    LastIndexBelow(s, c, |s|)
  }

  /** Python's `a < b` on strings. */
  predicate Below(a: string, b: string) {
    if a == [] then b != []
    else if b == [] then false
    else if a[0] != b[0] then a[0] < b[0]
    else Below(a[1..], b[1..])
  }

  lemma {:induction false} BelowIrreflexive(a: string)
    ensures !Below(a, a)
  {
    if a != [] {
      BelowIrreflexive(a[1..]);
    }
  }

  lemma {:induction false} BelowTransitive(a: string, b: string, c: string)
    requires Below(a, b) && Below(b, c)
    ensures Below(a, c)
  {
    if a != [] && a[0] == b[0] && b[0] == c[0] {
      BelowTransitive(a[1..], b[1..], c[1..]);
    }
  }

  /** Any two different strings are ordered one way or the other. */
  lemma {:induction false} BelowTotal(a: string, b: string)
    requires a != b
    ensures Below(a, b) || Below(b, a)
  {
    if a != [] && b != [] && a[0] == b[0] {
      assert a == [a[0]] + a[1..] && b == [b[0]] + b[1..];
      BelowTotal(a[1..], b[1..]);
    }
  }

  lemma BelowAsymmetric(a: string, b: string)
    requires Below(a, b)
    ensures !Below(b, a)
  {
    if Below(b, a) {
      BelowTransitive(a, b, a);
      BelowIrreflexive(a);
    }
  }

  /**
   * Comparing two strings that start with parts of equal length compares
   * those parts first and the rest only when they are equal.
   */
  lemma {:induction false} BelowAppend(x1: string, y1: string, x2: string, y2: string)
    requires |x1| == |x2|
    ensures Below(x1 + y1, x2 + y2) <==> Below(x1, x2) || (x1 == x2 && Below(y1, y2))
  {
    if x1 == [] {
      assert x1 + y1 == y1 && x2 + y2 == y2;
    } else {
      assert (x1 + y1)[0] == x1[0] && (x2 + y2)[0] == x2[0];
      assert (x1 + y1)[1..] == x1[1..] + y1 && (x2 + y2)[1..] == x2[1..] + y2;
      BelowAppend(x1[1..], y1, x2[1..], y2);
      if x1[0] == x2[0] && x1[1..] == x2[1..] {
        assert x1 == [x1[0]] + x1[1..] && x2 == [x2[0]] + x2[1..];
      }
    }
  }

  /** Strings that share a prefix compare as what follows it. */
  lemma SharedPrefix(p: string, x: string, y: string)
    ensures Below(p + x, p + y) <==> Below(x, y)
    ensures p + x == p + y <==> x == y
  {
    BelowAppend(p, x, p, y);
    BelowIrreflexive(p);
    if p + x == p + y {
      assert x == (p + x)[|p|..] && y == (p + y)[|p|..];
    }
  }

  /** Strings of one length followed by a shared suffix compare as those strings. */
  lemma SharedSuffix(x: string, y: string, q: string)
    requires |x| == |y|
    ensures Below(x + q, y + q) <==> Below(x, y)
    ensures x + q == y + q <==> x == y
  {
    BelowAppend(x, q, y, q);
    BelowIrreflexive(q);
    if x + q == y + q {
      assert x == (x + q)[..|x|] && y == (y + q)[..|y|];
    }
  }
}
