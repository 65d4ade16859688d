/**
 * Directory listings as the application builds them: the entries of a
 * folder (in whatever order `os.listdir` yields them) filtered by suffix,
 * then sorted with `list.sort()`.
 */
module Listing {
  import opened Strings

  /** Ascending under Python's string order: no name sorts below an earlier one. */
  predicate Sorted(s: seq<string>) {
    forall i, j :: 0 <= i < j < |s| ==> !Below(s[j], s[i])
  }

  /** Ascending with no name repeated. */
  predicate StrictlySorted(s: seq<string>) {
    forall i, j :: 0 <= i < j < |s| ==> Below(s[i], s[j])
  }

  ghost predicate NoDuplicates(s: seq<string>) {
    forall x :: multiset(s)[x] <= 1
  }

  /** `x` placed into the sorted `s` before the first name that does not sort below it. */
  function Insert(s: seq<string>, x: string): (r: seq<string>)
    requires Sorted(s)
    ensures Sorted(r)
    ensures multiset(r) == multiset(s) + multiset{x}
  {
    if s == [] then [x]
    else if !Below(s[0], x) then
      assert forall j :: 0 <= j < |s| ==> !Below(s[j], x) by {
        forall j | 0 <= j < |s| ensures !Below(s[j], x) {
          if j > 0 && Below(s[j], x) {
            BelowTotal(s[0], s[j]);
            BelowTransitive(s[0], s[j], x);
          }
        }
      }
      [x] + s
    else
      var rest := Insert(s[1..], x);
      assert s == [s[0]] + s[1..];
      assert forall j :: 0 <= j < |rest| ==> !Below(rest[j], s[0]) by {
        forall j | 0 <= j < |rest| ensures !Below(rest[j], s[0]) {
          assert rest[j] in multiset(rest);
          if rest[j] == x {
            BelowAsymmetric(s[0], x);
          } else {
            assert rest[j] in s[1..];
          }
        }
      }
      [s[0]] + rest
  }

  /** What `list.sort()` leaves in the list: the same names, ascending. */
  method SortNames(s: seq<string>) returns (r: seq<string>)
    ensures Sorted(r)
    ensures multiset(r) == multiset(s)
  {
    r := [];
    for i := 0 to |s|
      invariant Sorted(r)
      invariant multiset(r) == multiset(s[..i])
    {
      r := Insert(r, s[i]);
      assert s[..i + 1] == s[..i] + [s[i]];
    }
    assert s[..|s|] == s;
  }

  lemma RepeatCounted(s: seq<string>, i: nat, j: nat)
    requires i < j < |s| && s[i] == s[j]
    ensures multiset(s)[s[i]] >= 2
  {
    assert s == s[..i] + [s[i]] + s[i + 1..j] + [s[j]] + s[j + 1..];
  }

  lemma SortedDistinctIsStrict(s: seq<string>)
    requires Sorted(s) && NoDuplicates(s)
    ensures StrictlySorted(s)
  {
    forall i, j | 0 <= i < j < |s| ensures Below(s[i], s[j]) {
      if s[i] == s[j] {
        RepeatCounted(s, i, j);
      }
      BelowTotal(s[i], s[j]);
    }
  }

  /**
   * `[f for f in os.listdir(folder) if f.endswith(suffix)]` followed by
   * `sort()`: exactly the entries with the suffix, each once, ascending.
   */
  method ListWithSuffix(entries: set<string>, suffix: string) returns (files: seq<string>)
    ensures forall n :: n in files <==> n in entries && EndsWith(n, suffix)
    ensures StrictlySorted(files)
  {
    var kept: seq<string> := [];
    var rest := entries;
    while rest != {}
      invariant rest <= entries
      invariant forall n :: n in kept <==> n in entries && n !in rest && EndsWith(n, suffix)
      invariant NoDuplicates(kept)
      decreases rest
    {
      var n :| n in rest;
      if EndsWith(n, suffix) {
        assert n !in kept;
        kept := kept + [n];
      }
      rest := rest - {n};
    }
    files := SortNames(kept);
    assert forall n :: n in files <==> n in multiset(kept);
    SortedDistinctIsStrict(files);
  }

  /**
   * A strictly ascending listing is determined by the names it holds, so the
   * order in which the folder was read does not show in it.
   */
  lemma {:induction false} ListingDeterminedByNames(a: seq<string>, b: seq<string>)
    requires StrictlySorted(a) && StrictlySorted(b)
    requires forall n :: n in a <==> n in b
    ensures a == b
  {
    assert a == [] <==> b == [] by {
      if a != [] { assert a[0] in b; }
      if b != [] { assert b[0] in a; }
    }
    if a != [] {
      if a[0] != b[0] {
        assert a[0] in b && b[0] in a;
        var k :| 0 <= k < |b| && b[k] == a[0];
        var m :| 0 <= m < |a| && a[m] == b[0];
        BelowAsymmetric(b[0], a[0]);
      }
      assert a == [a[0]] + a[1..] && b == [b[0]] + b[1..];
      forall n ensures n in a[1..] <==> n in b[1..] {
        if n in a[1..] {
          var i :| 0 <= i < |a| - 1 && a[1..][i] == n;
          assert Below(a[0], a[i + 1]);
          BelowIrreflexive(n);
          assert n in b && n != b[0];
        }
        if n in b[1..] {
          var i :| 0 <= i < |b| - 1 && b[1..][i] == n;
          assert Below(b[0], b[i + 1]);
          BelowIrreflexive(n);
          assert n in a && n != a[0];
        }
      }
      ListingDeterminedByNames(a[1..], b[1..]);
    }
  }
}
