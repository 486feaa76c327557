/** The `Array.prototype` readers the store uses: `findIndex`, `find` and `filter`. */
module JsArray {
  import opened Wrappers

  /** `i` is the first index whose element satisfies `f`. */
  predicate IsFirst<T>(s: seq<T>, f: T -> bool, i: int) {
    0 <= i < |s| && f(s[i]) && forall k :: 0 <= k < i ==> !f(s[k])
  }

  /** `s.findIndex(f)`: the first index satisfying `f`, or -1. */
  function FindIndex<T>(s: seq<T>, f: T -> bool): (r: int)
    ensures r == -1 <==> forall k :: 0 <= k < |s| ==> !f(s[k])
    ensures r != -1 ==> IsFirst(s, f, r)
  {
    if s == [] then -1
    else if f(s[0]) then 0
    else
      var i := FindIndex(s[1..], f);
      if i == -1 then -1 else i + 1
  }

  /** `s.find(f)`: the first element satisfying `f`, or `undefined`. */
  function Find<T>(s: seq<T>, f: T -> bool): (r: Option<T>)
    ensures r.None? <==> forall k :: 0 <= k < |s| ==> !f(s[k])
    ensures r.Some? ==> IsFirst(s, f, FindIndex(s, f)) && r.value == s[FindIndex(s, f)]
  {
    var i := FindIndex(s, f);
    if i == -1 then None else Some(s[i])
  }

  /** `findIndex` returns the first satisfying index, whichever way it is found. */
  lemma FindIndexIsFirst<T>(s: seq<T>, f: T -> bool, i: int)
    requires IsFirst(s, f, i)
    ensures FindIndex(s, f) == i
  {
    assert f(s[i]);
  }

  /** Elements appended after a match do not change what `find` returns. */
  lemma FindAppend<T>(s: seq<T>, t: seq<T>, f: T -> bool)
    requires Find(s, f).Some?
    ensures Find(s + t, f) == Find(s, f)
  {
    var i := FindIndex(s, f);
    var st := s + t;
    assert st[i] == s[i];
    forall k | 0 <= k < i ensures !f(st[k]) {
      assert st[k] == s[k];
    }
    assert IsFirst(st, f, i);
    FindIndexIsFirst(st, f, i);
  }

  /** `s.filter(f)`: the elements of `s` that satisfy `f`. */
  function Filter<T>(s: seq<T>, f: T -> bool): (r: seq<T>)
    ensures |r| <= |s|
    ensures forall k :: 0 <= k < |r| ==> f(r[k])
  {
    if s == [] then []
    else (if f(s[0]) then [s[0]] else []) + Filter(s[1..], f)
  }

  /** Each element satisfying `f` is kept exactly as often as it occurs; no other element is kept. */
  lemma {:induction false} FilterCount<T>(s: seq<T>, f: T -> bool, x: T)
    ensures multiset(Filter(s, f))[x] == if f(x) then multiset(s)[x] else 0
  {
    if s != [] {
      FilterCount(s[1..], f, x);
      assert s == [s[0]] + s[1..];
      assert multiset(s) == multiset{s[0]} + multiset(s[1..]);
    }
  }

  /** Membership in a filtered sequence. */
  lemma FilterMembership<T>(s: seq<T>, f: T -> bool, x: T)
    ensures x in Filter(s, f) <==> x in s && f(x)
  {
    FilterCount(s, f, x);
    assert x in Filter(s, f) <==> x in multiset(Filter(s, f));
    assert x in s <==> x in multiset(s);
  }

  /** Filtering distributes over concatenation: the kept elements stay in their original order. */
  lemma {:induction false} FilterAppend<T>(a: seq<T>, b: seq<T>, f: T -> bool)
    ensures Filter(a + b, f) == Filter(a, f) + Filter(b, f)
  {
    if a == [] {
      assert a + b == b;
    } else {
      var ab := a + b;
      assert ab != [];
      assert ab[0] == a[0];
      assert ab[1..] == a[1..] + b;
      FilterAppend(a[1..], b, f);
      var head := if f(a[0]) then [a[0]] else [];
      assert Filter(a, f) == head + Filter(a[1..], f);
      assert Filter(ab, f) == head + Filter(ab[1..], f);
    }
  }

  /** A sequence whose every element satisfies `f` is its own filter. */
  lemma {:induction false} FilterAll<T>(s: seq<T>, f: T -> bool)
    requires forall k :: 0 <= k < |s| ==> f(s[k])
    ensures Filter(s, f) == s
  {
    if s != [] {
      FilterAll(s[1..], f);
    }
  }
}
