/**
 * The JavaScript string operations the pages and handlers use, on `string = seq<char>`:
 * `split` on a separator string, `trim`, the slash-stripping regular expression,
 * `startsWith`, `includes`, `replace` of the first occurrence of a character and
 * the digit filter `replace(/[^\d]/g, '')`.
 */
module Text {
  import opened Wrappers

  /**
   * The characters `String.prototype.trim` removes: ECMAScript WhiteSpace (tab, vertical
   * tab, form feed, space, no-break space, the byte order mark and the Unicode space
   * separators) and LineTerminator (line feed, carriage return, U+2028, U+2029).
   */
  predicate IsWhitespace(c: char) {
    || '\t' <= c <= '\r' || c == ' ' || c == '\U{A0}' || c == '\U{1680}'
    || '\U{2000}' <= c <= '\U{200A}' || c == '\U{2028}' || c == '\U{2029}'
    || c == '\U{202F}' || c == '\U{205F}' || c == '\U{3000}' || c == '\U{FEFF}'
  }

  predicate IsDigit(c: char) {
    '0' <= c <= '9'
  }

  predicate StartsWith(s: string, prefix: string) {
    |prefix| <= |s| && s[..|prefix|] == prefix
  }

  /** `pat` occurs in `s` starting at index `i`. */
  predicate OccursAt(s: string, pat: string, i: nat) {
    i + |pat| <= |s| && forall j :: 0 <= j < |pat| ==> s[i + j] == pat[j]
  }

  /** The index of the first occurrence of a non-empty `pat` in `s` (JavaScript's `indexOf`). */
  function IndexOf(s: string, pat: string): (r: Option<nat>)
    requires |pat| > 0
    ensures r.Some? ==> OccursAt(s, pat, r.value) && forall k :: 0 <= k < r.value ==> !OccursAt(s, pat, k)
    ensures r.None? ==> forall k :: 0 <= k <= |s| ==> !OccursAt(s, pat, k)
    decreases |s|
  {
    if |s| < |pat| then None
    else if s[..|pat|] == pat then Some(0)
    else
      OccursShift(s, pat);
      match IndexOf(s[1..], pat)
      case None => None
      case Some(i) => Some(i + 1)
  }

  lemma OccursShift(s: string, pat: string)
    requires |s| >= 1
    ensures forall k: nat :: 1 <= k ==> (OccursAt(s, pat, k) <==> OccursAt(s[1..], pat, k - 1))
  {
  }

  /** JavaScript's `includes` on strings. */
  predicate Includes(s: string, pat: string)
    requires |pat| > 0
  {
    IndexOf(s, pat).Some?
  }

  /**
   * JavaScript's `s.split(pat)` for a non-empty separator string: the pieces between
   * the leftmost non-overlapping occurrences of `pat`, always at least one piece.
   */
  function Split(s: string, pat: string): (parts: seq<string>)
    requires |pat| > 0
    ensures |parts| >= 1
    decreases |s|
  {
    if |s| < |pat| then [s]
    else if s[..|pat|] == pat then [[]] + Split(s[|pat|..], pat)
    else
      var rest := Split(s[1..], pat);
      [[s[0]] + rest[0]] + rest[1..]
  }

  /** JavaScript's `parts.join(sep)`. */
  function Join(parts: seq<string>, sep: string): string
    requires |parts| >= 1
  {
    if |parts| == 1 then parts[0] else parts[0] + sep + Join(parts[1..], sep)
  }

  /** Joining the pieces of a split with the separator gives back the original string. */
  lemma {:induction false} JoinSplit(s: string, pat: string)
    requires |pat| > 0
    ensures Join(Split(s, pat), pat) == s
    decreases |s|
  {
    if |s| < |pat| {
    } else if s[..|pat|] == pat {
      var tail := s[|pat|..];
      JoinSplit(tail, pat);
      var parts := Split(s, pat);
      assert parts == [[]] + Split(tail, pat);
      assert parts[1..] == Split(tail, pat);
      assert Join(parts, pat) == [] + pat + tail;
      assert s == s[..|pat|] + tail;
    } else {
      JoinSplit(s[1..], pat);
      var rest := Split(s[1..], pat);
      JoinCons(s[0], rest, pat);
      assert s == [s[0]] + s[1..];
    }
  }

  lemma JoinCons(c: char, parts: seq<string>, sep: string)
    requires |parts| >= 1
    ensures Join([[c] + parts[0]] + parts[1..], sep) == [c] + Join(parts, sep)
  {
    var q := [[c] + parts[0]] + parts[1..];
    assert q[1..] == parts[1..];
    if |parts| > 1 {
      assert Join(q, sep) == ([c] + parts[0]) + sep + Join(parts[1..], sep);
    }
  }

  /**
   * The first piece of a split is the text before the first occurrence of the
   * separator (the whole string when there is none); the remaining pieces are the
   * split of the text after that occurrence.
   */
  lemma SplitFirst(s: string, pat: string)
    requires |pat| > 0
    ensures IndexOf(s, pat).None? ==> Split(s, pat) == [s]
    ensures IndexOf(s, pat).Some? ==>
      var i := IndexOf(s, pat).value;
      Split(s, pat) == [s[..i]] + Split(s[i + |pat|..], pat)
  {
    match IndexOf(s, pat)
    case None => SplitNowhere(s, pat);
    case Some(i) => SplitAt(s, pat, i);
  }

  /** With no occurrence of the separator, the split is the whole text. */
  lemma {:induction false} SplitNowhere(s: string, pat: string)
    requires |pat| > 0
    requires forall k :: 0 <= k <= |s| ==> !OccursAt(s, pat, k)
    ensures Split(s, pat) == [s]
    decreases |s|
  {
    if |s| >= |pat| {
      assert !OccursAt(s, pat, 0);
      assert !StartsWith(s, pat);
      forall k | 0 <= k <= |s| - 1 ensures !OccursAt(s[1..], pat, k) {
        OccursShift(s, pat);
        assert !OccursAt(s, pat, k + 1);
      }
      SplitNowhere(s[1..], pat);
      SplitStep(s, pat);
      assert [s[0]] + s[1..] == s;
    }
  }

  /** At the first occurrence of the separator, the first piece ends and the rest is split again. */
  lemma {:induction false} SplitAt(s: string, pat: string, i: nat)
    requires |pat| > 0 && OccursAt(s, pat, i)
    requires forall k :: 0 <= k < i ==> !OccursAt(s, pat, k)
    ensures Split(s, pat) == [s[..i]] + Split(s[i + |pat|..], pat)
    decreases i
  {
    if i == 0 {
      assert s[..|pat|] == pat;
      SplitAtSeparator(s, pat);
      assert s[..0] == [];
    } else {
      assert !OccursAt(s, pat, 0);
      assert !StartsWith(s, pat);
      var t := s[1..];
      assert OccursAt(t, pat, i - 1) by {
        OccursShift(s, pat);
      }
      forall k | 0 <= k < i - 1 ensures !OccursAt(t, pat, k) {
        OccursShift(s, pat);
        assert !OccursAt(s, pat, k + 1);
      }
      SplitAt(t, pat, i - 1);
      SplitStep(s, pat);
      assert s[i + |pat|..] == t[i - 1 + |pat|..];
      var tail := Split(t[i - 1 + |pat|..], pat);
      PieceCons(s[0], t, i - 1, tail);
      assert [s[0]] + t == s;
    }
  }

  lemma PieceCons(x: char, t: string, i: nat, tail: seq<string>)
    requires i <= |t|
    ensures var r := [t[..i]] + tail;
      [[x] + r[0]] + r[1..] == [([x] + t)[..i + 1]] + tail
  {
    var r := [t[..i]] + tail;
    assert r[0] == t[..i] && r[1..] == tail;
    assert ([x] + t)[..i + 1] == [x] + t[..i];
  }

  /** One mismatching character rules out an occurrence. */
  lemma MismatchAt(s: string, pat: string, i: nat, j: nat)
    requires j < |pat| && (i + j >= |s| || s[i + j] != pat[j])
    ensures !OccursAt(s, pat, i)
  {
    if i + j < |s| {
      assert s[i + j] != pat[j];
    }
  }

  /** An occurrence with none before it is the one `indexOf` finds. */
  lemma IndexOfAt(s: string, pat: string, i: nat)
    requires |pat| > 0 && OccursAt(s, pat, i)
    requires forall k :: 0 <= k < i ==> !OccursAt(s, pat, k)
    ensures IndexOf(s, pat) == Some(i)
  {
  }

  /** The first piece is the text up to a position where the separator occurs first, or the whole text. */
  lemma FirstPieceUpTo(s: string, pat: string, j: nat)
    requires |pat| > 0 && j <= |s|
    requires j == |s| || OccursAt(s, pat, j)
    requires forall k :: 0 <= k < j ==> !OccursAt(s, pat, k)
    ensures FirstPiece(s, pat) == s[..j]
  {
    if j < |s| {
      IndexOfAt(s, pat, j);
    }
  }

  /** A split of text that does not start with the separator extends the first piece of the rest. */
  lemma SplitStep(s: string, pat: string)
    requires |pat| > 0 && |s| >= 1 && !StartsWith(s, pat)
    ensures var rest := Split(s[1..], pat);
      Split(s, pat) == [[s[0]] + rest[0]] + rest[1..]
  {
    var rest := Split(s[1..], pat);
    if |s| >= |pat| {
      assert s[..|pat|] != pat;
    } else {
      assert rest == [s[1..]];
      assert s == [s[0]] + s[1..];
    }
  }

  /** A split of text that starts with the separator begins with an empty piece. */
  lemma SplitAtSeparator(s: string, pat: string)
    requires |pat| > 0 && StartsWith(s, pat)
    ensures Split(s, pat) == [[]] + Split(s[|pat|..], pat)
  {
  }

  lemma ConsFirst(x: char, ra: seq<string>, rb: seq<string>)
    requires |ra| >= 1
    ensures [[x] + (ra + rb)[0]] + (ra + rb)[1..] == ([[x] + ra[0]] + ra[1..]) + rb
  {
    assert (ra + rb)[0] == ra[0];
    assert (ra + rb)[1..] == ra[1..] + rb;
  }

  /** Splitting on a one-character separator cuts at that separator and nowhere else in between. */
  lemma {:induction false} SplitAround(a: string, c: char, b: string)
    ensures Split(a + [c] + b, [c]) == Split(a, [c]) + Split(b, [c])
    decreases |a|
  {
    var s := a + [c] + b;
    if a == [] {
      assert s == [c] + b;
      assert s[..1] == [c] && s[1..] == b;
    } else {
      assert s[1..] == a[1..] + [c] + b;
      SplitAround(a[1..], c, b);
      if a[0] == c {
        assert s[..1] == [c] && a[..1] == [c];
        SplitAtSeparator(s, [c]);
        SplitAtSeparator(a, [c]);
      } else {
        assert s[0] == a[0] && s[..1] != [c] && a[..1] != [c];
        SplitStep(s, [c]);
        SplitStep(a, [c]);
        ConsFirst(a[0], Split(a[1..], [c]), Split(b, [c]));
      }
    }
  }

  /** Text without the separator is a single piece. */
  lemma {:induction false} SplitWithout(s: string, c: char)
    requires c !in s
    ensures Split(s, [c]) == [s]
  {
    if s != [] {
      assert s[0] in s && s[..1] == [s[0]];
      SplitWithout(s[1..], c);
      assert s == [s[0]] + s[1..];
    }
  }

  /** Splitting a join on a one-character separator that no part contains gives back the parts. */
  lemma {:induction false} SplitJoin(parts: seq<string>, c: char)
    requires |parts| >= 1
    requires forall k :: 0 <= k < |parts| ==> c !in parts[k]
    ensures Split(Join(parts, [c]), [c]) == parts
  {
    SplitWithout(parts[0], c);
    if |parts| > 1 {
      SplitJoin(parts[1..], c);
      SplitAround(parts[0], c, Join(parts[1..], [c]));
      assert parts == [parts[0]] + parts[1..];
    }
  }

  /** A join holds no character that neither the parts nor the separator hold. */
  lemma {:induction false} JoinWithout(parts: seq<string>, sep: string, c: char)
    requires |parts| >= 1 && c !in sep
    requires forall k :: 0 <= k < |parts| ==> c !in parts[k]
    ensures c !in Join(parts, sep)
  {
    if |parts| > 1 {
      JoinWithout(parts[1..], sep, c);
    }
  }

  /** A join begins with its first part and ends with its last. */
  lemma {:induction false} JoinEnds(parts: seq<string>, sep: string)
    requires |parts| >= 1
    ensures StartsWith(Join(parts, sep), parts[0])
    ensures var j, last := Join(parts, sep), parts[|parts| - 1];
      |last| <= |j| && j[|j| - |last|..] == last
  {
    if |parts| > 1 {
      JoinEnds(parts[1..], sep);
      var rest := Join(parts[1..], sep);
      var j := parts[0] + sep + rest;
      assert j[..|parts[0]|] == parts[0];
      assert j[|j| - |rest|..] == rest;
    }
  }

  /** `s.split(pat)[1]`: the text after the first occurrence of `pat`, up to the next one. */
  function SecondPiece(s: string, pat: string): (r: string)
    requires |pat| > 0 && Includes(s, pat)
    ensures var i := IndexOf(s, pat).value;
      StartsWith(s[i + |pat|..], r) && !Includes(r, pat) && r == FirstPiece(s[i + |pat|..], pat)
  {
    SplitFirst(s, pat);
    var i := IndexOf(s, pat).value;
    SplitFirst(s[i + |pat|..], pat);
    FirstPieceHasNoSeparator(s[i + |pat|..], pat);
    Split(s, pat)[1]
  }

  /** `s.split(pat)[0]`: the text before the first occurrence of `pat`. */
  function FirstPiece(s: string, pat: string): (r: string)
    requires |pat| > 0
    ensures StartsWith(s, r) && !Includes(r, pat)
    ensures IndexOf(s, pat).None? ==> r == s
    ensures IndexOf(s, pat).Some? ==> r == s[..IndexOf(s, pat).value]
    ensures Includes(s, pat) <==> |r| < |s|
  {
    SplitFirst(s, pat);
    FirstPieceHasNoSeparator(s, pat);
    Split(s, pat)[0]
  }

  lemma FirstPieceHasNoSeparator(s: string, pat: string)
    requires |pat| > 0
    ensures StartsWith(s, Split(s, pat)[0]) && !Includes(Split(s, pat)[0], pat)
    ensures IndexOf(s, pat).Some? <==> |Split(s, pat)[0]| < |s|
  {
    SplitFirst(s, pat);
    match IndexOf(s, pat)
    case None =>
    case Some(i) =>
  }

  /** `s.replace(/[^\d]/g, '')`: the decimal digits of `s`, in order. */
  function Digits(s: string): (r: string)
    ensures forall k :: 0 <= k < |r| ==> IsDigit(r[k])
    ensures |r| <= |s|
  {
    if s == [] then []
    else if IsDigit(s[0]) then [s[0]] + Digits(s[1..])
    else Digits(s[1..])
  }

  /** The digit filter looks at one character at a time. */
  lemma DigitsCons(c: char, s: string)
    ensures Digits([c] + s) == (if IsDigit(c) then [c] else []) + Digits(s)
  {
    assert ([c] + s)[0] == c && ([c] + s)[1..] == s;
  }

  /** Filtering digits distributes over concatenation, so it keeps every digit in place. */
  lemma {:induction false} DigitsAppend(a: string, b: string)
    ensures Digits(a + b) == Digits(a) + Digits(b)
  {
    if a == [] {
      assert a + b == b;
    } else {
      var c, rest := a[0], a[1..];
      assert a == [c] + rest && a + b == [c] + (rest + b);
      DigitsAppend(rest, b);
      DigitsCons(c, rest + b);
      DigitsCons(c, rest);
      var h := if IsDigit(c) then [c] else [];
      assert h + (Digits(rest) + Digits(b)) == (h + Digits(rest)) + Digits(b);
    }
  }

  /** A string of digits is its own digit filter. */
  lemma {:induction false} DigitsOfDigits(s: string)
    requires forall k :: 0 <= k < |s| ==> IsDigit(s[k])
    ensures Digits(s) == s
  {
    if s != [] {
      DigitsOfDigits(s[1..]);
    }
  }

  /** The longest prefix of `s` whose characters all satisfy `drop` is removed. */
  function TrimStartBy(s: string, drop: char -> bool): (r: string)
    ensures |r| <= |s| && r == s[|s| - |r|..]
    ensures forall k :: 0 <= k < |s| - |r| ==> drop(s[k])
    ensures r == [] || !drop(r[0])
  {
    if s == [] || !drop(s[0]) then s else TrimStartBy(s[1..], drop)
  }

  /** The longest suffix of `s` whose characters all satisfy `drop` is removed. */
  function TrimEndBy(s: string, drop: char -> bool): (r: string)
    ensures |r| <= |s| && r == s[..|r|]
    ensures forall k :: |r| <= k < |s| ==> drop(s[k])
    ensures r == [] || !drop(r[|r| - 1])
  {
    if s == [] || !drop(s[|s| - 1]) then s else TrimEndBy(s[..|s| - 1], drop)
  }

  /** `s` is `r`, starting at index `i`, with only characters satisfying `drop` around it. */
  predicate PaddedAt(s: string, r: string, i: nat, drop: char -> bool) {
    i + |r| <= |s| && r == s[i..i + |r|]
    && (forall k :: 0 <= k < i ==> drop(s[k]))
    && (forall k :: i + |r| <= k < |s| ==> drop(s[k]))
  }

  /** Both ends stripped: `s` is `r` padded on either side by characters satisfying `drop`. */
  function TrimBy(s: string, drop: char -> bool): (r: string)
    ensures r == [] || (!drop(r[0]) && !drop(r[|r| - 1]))
  {
    TrimEndBy(TrimStartBy(s, drop), drop)
  }

  /**
   * What stripping leaves: `s` is the result with only droppable characters around it,
   * and nothing is left exactly when every character is droppable.
   */
  lemma TrimByShape(s: string, drop: char -> bool)
    ensures exists i :: PaddedAt(s, TrimBy(s, drop), i, drop)
    ensures TrimBy(s, drop) == [] <==> forall k :: 0 <= k < |s| ==> drop(s[k])
  {
    var t := TrimStartBy(s, drop);
    ShapeOf(s, t, TrimEndBy(t, drop), drop);
    assert PaddedAt(s, TrimBy(s, drop), |s| - |t|, drop);
  }

  /** The facts about the two strips, combined: `r` sits in `s` between droppable characters. */
  lemma ShapeOf(s: string, t: string, r: string, drop: char -> bool)
    requires |t| <= |s| && t == s[|s| - |t|..] && forall k :: 0 <= k < |s| - |t| ==> drop(s[k])
    requires t == [] || !drop(t[0])
    requires |r| <= |t| && r == t[..|r|] && forall k :: |r| <= k < |t| ==> drop(t[k])
    ensures PaddedAt(s, r, |s| - |t|, drop)
    ensures r == [] <==> forall k :: 0 <= k < |s| ==> drop(s[k])
  {
    PaddedBetween(s, t, r, drop);
    AllDroppedIffEmpty(s, t, r, |s| - |t|, drop);
  }

  /** The two strips together leave `r` inside `s` with droppable characters on both sides. */
  lemma PaddedBetween(s: string, t: string, r: string, drop: char -> bool)
    requires |t| <= |s| && t == s[|s| - |t|..] && forall k :: 0 <= k < |s| - |t| ==> drop(s[k])
    requires |r| <= |t| && r == t[..|r|] && forall k :: |r| <= k < |t| ==> drop(t[k])
    ensures PaddedAt(s, r, |s| - |t|, drop)
  {
    var i := |s| - |t|;
    assert r == s[i..i + |r|];
    forall k | i + |r| <= k < |s| ensures drop(s[k]) {
      assert s[k] == t[k - i];
    }
  }

  lemma AllDroppedIffEmpty(s: string, t: string, r: string, i: nat, drop: char -> bool)
    requires PaddedAt(s, r, i, drop) && t == s[i..] && r == t[..|r|]
    requires t == [] || !drop(t[0])
    requires forall k :: |r| <= k < |t| ==> drop(t[k])
    ensures r == [] <==> forall k :: 0 <= k < |s| ==> drop(s[k])
  {
    if r != [] {
      assert r[0] == t[0] == s[i];
    }
  }

  /** Text whose ends are kept is left as it is. */
  lemma TrimByUnpadded(s: string, drop: char -> bool)
    requires s == [] || (!drop(s[0]) && !drop(s[|s| - 1]))
    ensures TrimBy(s, drop) == s
  {
    if s != [] {
      assert TrimStartBy(s, drop) == s;
      assert TrimEndBy(s, drop) == s;
    }
  }

  /** Stripping is idempotent. */
  lemma TrimByIdempotent(s: string, drop: char -> bool)
    ensures TrimBy(TrimBy(s, drop), drop) == TrimBy(s, drop)
  {
    var r := TrimBy(s, drop);
    if r != [] {
      assert TrimStartBy(r, drop) == r;
      assert TrimEndBy(r, drop) == r;
    }
  }

  /** Droppable characters in front are stripped, whatever follows them. */
  lemma {:induction false} TrimStartByDropped(lead: string, y: string, drop: char -> bool)
    requires forall k :: 0 <= k < |lead| ==> drop(lead[k])
    ensures TrimStartBy(lead + y, drop) == TrimStartBy(y, drop)
  {
    if lead == [] {
      assert lead + y == y;
    } else {
      var s := lead + y;
      assert s[0] == lead[0] && drop(s[0]) && s[1..] == lead[1..] + y;
      assert TrimStartBy(s, drop) == TrimStartBy(s[1..], drop);
      TrimStartByDropped(lead[1..], y, drop);
    }
  }

  /** Droppable characters at the end are stripped, whatever comes before them. */
  lemma {:induction false} TrimEndByDropped(y: string, trail: string, drop: char -> bool)
    requires forall k :: 0 <= k < |trail| ==> drop(trail[k])
    ensures TrimEndBy(y + trail, drop) == TrimEndBy(y, drop)
  {
    if trail == [] {
      assert y + trail == y;
    } else {
      var s := y + trail;
      var init := trail[..|trail| - 1];
      assert s[|s| - 1] == trail[|trail| - 1] && drop(s[|s| - 1]);
      assert s[..|s| - 1] == y + init;
      assert TrimEndBy(s, drop) == TrimEndBy(s[..|s| - 1], drop);
      TrimEndByDropped(y, init, drop);
    }
  }

  /** Stripping text padded on both sides with droppable characters gives back the middle. */
  lemma TrimByAround(lead: string, x: string, trail: string, drop: char -> bool)
    requires forall k :: 0 <= k < |lead| ==> drop(lead[k])
    requires forall k :: 0 <= k < |trail| ==> drop(trail[k])
    requires x == [] || (!drop(x[0]) && !drop(x[|x| - 1]))
    ensures TrimBy(lead + x + trail, drop) == x
  {
    assert lead + x + trail == lead + (x + trail);
    TrimStartByDropped(lead, x + trail, drop);
    if x == [] {
      assert x + trail == trail + [];
      TrimStartByDropped(trail, [], drop);
    } else {
      StartKept(x, trail, drop);
      TrimEndByDropped(x, trail, drop);
      EndKept(x, drop);
    }
  }

  lemma StartKept(x: string, trail: string, drop: char -> bool)
    requires x != [] && !drop(x[0])
    ensures TrimStartBy(x + trail, drop) == x + trail
  {
    assert (x + trail)[0] == x[0];
  }

  lemma EndKept(x: string, drop: char -> bool)
    requires x != [] && !drop(x[|x| - 1])
    ensures TrimEndBy(x, drop) == x
  {
  }

  /** A string with no whitespace at either end, which `trim()` therefore leaves as it is. */
  predicate Trimmed(s: string) {
    s == [] || (!IsWhitespace(s[0]) && !IsWhitespace(s[|s| - 1]))
  }

  /** JavaScript's `s.trim()`. */
  function Trim(s: string): (r: string)
    ensures Trimmed(r)
  {
    TrimBy(s, IsWhitespace)
  }

  /** `s.trim()` is empty exactly when every character of `s` is whitespace. */
  lemma TrimEmpty(s: string)
    ensures Trim(s) == [] <==> forall k :: 0 <= k < |s| ==> IsWhitespace(s[k])
  {
    TrimByShape(s, IsWhitespace);
  }

  /** `s.replace(c, '')` with a one-character pattern: only the first occurrence goes. */
  function RemoveFirstChar(s: string, c: char): (r: string)
    ensures c !in s ==> r == s
    ensures c in s ==> |r| == |s| - 1 && multiset(r) == multiset(s) - multiset{c}
  {
    if s == [] then []
    else if s[0] == c then assert s == [c] + s[1..]; s[1..]
    else assert s == [s[0]] + s[1..]; [s[0]] + RemoveFirstChar(s[1..], c)
  }

  /** Only the first occurrence goes: text before it that lacks the character is kept, and so is all that follows. */
  lemma {:induction false} RemoveFirstCharAfter(a: string, c: char, b: string)
    requires c !in a
    ensures RemoveFirstChar(a + [c] + b, c) == a + b
  {
    if a == [] {
      RemoveFirstCharHead(c, b);
      assert a + [c] + b == [c] + b && a + b == b;
    } else {
      var x, rest := a[0], a[1..];
      assert a + [c] + b == [x] + (rest + [c] + b) && a + b == [x] + (rest + b);
      RemoveFirstCharCons(x, rest + [c] + b, c);
      RemoveFirstCharAfter(rest, c, b);
    }
  }

  lemma RemoveFirstCharHead(c: char, t: string)
    ensures RemoveFirstChar([c] + t, c) == t
  {
    assert ([c] + t)[1..] == t;
  }

  lemma RemoveFirstCharCons(x: char, t: string, c: char)
    requires x != c
    ensures RemoveFirstChar([x] + t, c) == [x] + RemoveFirstChar(t, c)
  {
    assert ([x] + t)[1..] == t;
  }
}
