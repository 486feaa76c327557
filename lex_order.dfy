/**
 * The order `Array.prototype.sort()` uses when no comparator is given: strings compared
 * character by character, a proper prefix first. Dafny's own `<` on sequences is the
 * proper-prefix relation, so the order is written out here.
 */
module LexOrder {

  /** `a` sorts no later than `b`. */
  predicate Below(a: string, b: string)
    decreases |a|
  {
    |a| == 0 || (|b| > 0 && (a[0] < b[0] || (a[0] == b[0] && Below(a[1..], b[1..]))))
  }

  /** `a` sorts strictly before `b`. */
  predicate Less(a: string, b: string) {
    Below(a, b) && a != b
  }

  lemma {:induction false} BelowReflexive(a: string)
    ensures Below(a, a)
    decreases |a|
  {
    if |a| > 0 {
      BelowReflexive(a[1..]);
    }
  }

  lemma {:induction false} BelowTotal(a: string, b: string)
    ensures Below(a, b) || Below(b, a)
    decreases |a|
  {
    if |a| > 0 && |b| > 0 && a[0] == b[0] {
      BelowTotal(a[1..], b[1..]);
    }
  }

  lemma {:induction false} BelowAntisymmetric(a: string, b: string)
    requires Below(a, b) && Below(b, a)
    ensures a == b
    decreases |a|
  {
    if |a| > 0 {
      BelowAntisymmetric(a[1..], b[1..]);
      assert a == [a[0]] + a[1..] && b == [b[0]] + b[1..];
    }
  }

  lemma {:induction false} BelowTransitive(a: string, b: string, c: string)
    requires Below(a, b) && Below(b, c)
    ensures Below(a, c)
    decreases |a|
  {
    if |a| > 0 && a[0] == b[0] && b[0] == c[0] {
      BelowTransitive(a[1..], b[1..], c[1..]);
    }
  }

  predicate Sorted(s: seq<string>) {
    forall i, j :: 0 <= i < j < |s| ==> Below(s[i], s[j])
  }

  predicate StrictlySorted(s: seq<string>) {
    forall i, j :: 0 <= i < j < |s| ==> Less(s[i], s[j])
  }

  predicate NoDuplicates(s: seq<string>) {
    forall i, j :: 0 <= i < j < |s| ==> s[i] != s[j]
  }

  /** Places `x` into a sorted sequence after every element that sorts before it. */
  function Insert(s: seq<string>, x: string): (r: seq<string>)
    requires Sorted(s)
    ensures Sorted(r) && multiset(r) == multiset(s) + multiset{x}
  {
    if s == [] then [x]
    else if Below(x, s[0]) then
      InsertFront(s, x);
      [x] + s
    else
      var rest := Insert(s[1..], x);
      InsertBehind(s, x, rest);
      [s[0]] + rest
  }

  lemma InsertFront(s: seq<string>, x: string)
    requires Sorted(s) && s != [] && Below(x, s[0])
    ensures Sorted([x] + s)
  {
    forall j | 0 < j < |s| ensures Below(x, s[j]) {
      BelowTransitive(x, s[0], s[j]);
    }
  }

  lemma InsertBehind(s: seq<string>, x: string, rest: seq<string>)
    requires Sorted(s) && s != [] && !Below(x, s[0])
    requires Sorted(rest) && multiset(rest) == multiset(s[1..]) + multiset{x}
    ensures Sorted([s[0]] + rest) && multiset([s[0]] + rest) == multiset(s) + multiset{x}
  {
    BelowTotal(x, s[0]);
    forall j | 0 <= j < |rest| ensures Below(s[0], rest[j]) {
      assert rest[j] in multiset(rest);
      if rest[j] != x {
        assert rest[j] in multiset(s[1..]);
        var k :| 0 <= k < |s[1..]| && s[1..][k] == rest[j];
        assert s[k + 1] == rest[j];
      }
    }
    assert s == [s[0]] + s[1..];
  }

  /** `Array.prototype.sort()` on strings: a sorted rearrangement of the input. */
  function SortStrings(xs: seq<string>): (r: seq<string>)
    ensures Sorted(r) && multiset(r) == multiset(xs)
  {
    if xs == [] then []
    else
      var init := xs[..|xs| - 1];
      assert xs == init + [xs[|xs| - 1]];
      Insert(SortStrings(init), xs[|xs| - 1])
  }

  /** Sorting a duplicate-free sequence gives a strictly increasing one with the same elements. */
  lemma SortDistinct(xs: seq<string>)
    requires NoDuplicates(xs)
    ensures StrictlySorted(SortStrings(xs))
    ensures forall x :: x in SortStrings(xs) <==> x in xs
  {
    var r := SortStrings(xs);
    forall i, j | 0 <= i < j < |r| ensures r[i] != r[j] {
      if r[i] == r[j] {
        CountAtLeastTwo(r, i, j);
        CountAtMostOne(xs, r[i]);
        assert false;
      }
    }
    forall x ensures x in r <==> x in xs {
      assert x in r <==> x in multiset(r);
      assert x in xs <==> x in multiset(xs);
    }
  }

  lemma CountAtLeastTwo(r: seq<string>, i: nat, j: nat)
    requires i < j < |r| && r[i] == r[j]
    ensures multiset(r)[r[i]] >= 2
  {
    assert r == r[..j] + r[j..];
    assert multiset(r) == multiset(r[..j]) + multiset(r[j..]);
    assert r[..j][i] == r[i];
    assert r[j..][0] == r[i];
  }

  lemma {:induction false} CountAtMostOne(xs: seq<string>, x: string)
    requires NoDuplicates(xs)
    ensures multiset(xs)[x] <= 1
  {
    if xs != [] {
      CountAtMostOne(xs[1..], x);
      assert xs == [xs[0]] + xs[1..];
      if xs[0] == x {
        assert x !in xs[1..];
      }
    }
  }

  /**
   * Two strictly increasing sequences with the same elements are equal: the sorted
   * list of distinct strings does not depend on the order they were collected in.
   */
  lemma {:induction false} StrictlySortedUnique(a: seq<string>, b: seq<string>)
    requires StrictlySorted(a) && StrictlySorted(b)
    requires forall x :: x in a <==> x in b
    ensures a == b
    decreases |a|
  {
    assert a != [] ==> a[0] in b;
    assert b != [] ==> b[0] in a;
    if a != [] && b != [] {
      if a[0] != b[0] {
        assert b[0] in a;
        var i :| 0 <= i < |a| && a[i] == b[0];
        assert a[0] in b;
        var j :| 0 <= j < |b| && b[j] == a[0];
        assert i > 0 && j > 0;
        assert Below(a[0], b[0]) && Below(b[0], a[0]);
        BelowAntisymmetric(a[0], b[0]);
      }
      assert a == [a[0]] + a[1..] && b == [b[0]] + b[1..];
      forall x ensures x in a[1..] <==> x in b[1..] {
        if x in a[1..] {
          var i :| 0 <= i < |a[1..]| && a[1..][i] == x;
          assert Less(a[0], a[i + 1]);
          assert x in b && x != b[0];
          var k :| 0 <= k < |b| && b[k] == x;
          assert b[1..][k - 1] == x;
        }
        if x in b[1..] {
          var j :| 0 <= j < |b[1..]| && b[1..][j] == x;
          assert Less(b[0], b[j + 1]);
          assert x in a && x != a[0];
          var k :| 0 <= k < |a| && a[k] == x;
          assert a[1..][k - 1] == x;
        }
      }
      StrictlySortedUnique(a[1..], b[1..]);
    }
  }
}
