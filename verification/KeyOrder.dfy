/** The order JavaScript gives strings, and the stable sort by a string key that
    `Array.prototype.sort` performs. */
module KeyOrder {
  import opened Text

  /** Where a code point stands when strings are compared by UTF-16 code unit:
      the supplementary planes come between U+D7FF and U+E000. */
  function Rank(c: char): int {
    var n := c as int;
    if n < 0xD800 then n
    else if n >= 0x1_0000 then n - 0x1_0000 + 0xD800
    else n + 0x10_0000
  }

  /** A character as UTF-16 writes it. */
  function Units(c: char): seq<int> {
    var n := c as int;
    if n < 0x1_0000 then [n] else [0xD800 + (n - 0x1_0000) / 0x400, 0xDC00 + (n - 0x1_0000) % 0x400]
  }

  function CodeUnits(s: string): seq<int> {
    if s == [] then [] else Units(s[0]) + CodeUnits(s[1..])
  }

  predicate UnitsLess(x: seq<int>, y: seq<int>) {
    y != [] && (x == [] || x[0] < y[0] || (x[0] == y[0] && UnitsLess(x[1..], y[1..])))
  }

  lemma {:induction false} CommonPrefix(p: seq<int>, x: seq<int>, y: seq<int>)
    ensures UnitsLess(p + x, p + y) <==> UnitsLess(x, y)
  {
    if p == [] {
      assert p + x == x && p + y == y;
    } else {
      assert (p + x)[1..] == p[1..] + x && (p + y)[1..] == p[1..] + y;
      CommonPrefix(p[1..], x, y);
    }
  }

  lemma RankInjective(a: char, b: char)
    requires Rank(a) == Rank(b)
    ensures a == b
  {
    assert a as int == b as int;
  }

  predicate Less(a: string, b: string) {
    b != [] && (a == [] || Rank(a[0]) < Rank(b[0]) || (a[0] == b[0] && Less(a[1..], b[1..])))
  }

  /** The order is that of the code units, one by one. */
  lemma {:induction false} LessIff(a: string, b: string)
    ensures Less(a, b) <==> UnitsLess(CodeUnits(a), CodeUnits(b))
  {
    if a != [] && b != [] {
      if a[0] == b[0] {
        LessIff(a[1..], b[1..]);
        CommonPrefix(Units(a[0]), CodeUnits(a[1..]), CodeUnits(b[1..]));
      } else {
        FirstDiffers(a[0], b[0], CodeUnits(a[1..]), CodeUnits(b[1..]));
      }
    }
  }

  lemma {:induction false} LengthCountsUnits(s: string)
    ensures |CodeUnits(s)| == Utf16Length(s)
  {
    if s != [] {
      LengthCountsUnits(s[1..]);
    }
  }

  lemma FirstDiffers(a: char, b: char, x: seq<int>, y: seq<int>)
    requires a != b
    ensures UnitsLess(Units(a) + x, Units(b) + y) <==> Rank(a) < Rank(b)
  {
    var u, v := Units(a) + x, Units(b) + y;
    if |Units(a)| == 2 && |Units(b)| == 2 && u[0] == v[0] {
      assert u[1..][0] == Units(a)[1] && v[1..][0] == Units(b)[1];
    }
  }

  lemma {:induction false} LessIrreflexive(a: string)
    ensures !Less(a, a)
  {
    if a != [] { LessIrreflexive(a[1..]); }
  }

  lemma {:induction false} LessTransitive(a: string, b: string, c: string)
    requires Less(a, b) && Less(b, c)
    ensures Less(a, c)
  {
    if a != [] && a[0] == b[0] == c[0] {
      LessTransitive(a[1..], b[1..], c[1..]);
    }
  }

  lemma {:induction false} LessTotal(a: string, b: string)
    ensures Less(a, b) || a == b || Less(b, a)
  {
    if a != [] && b != [] {
      if a[0] == b[0] {
        LessTotal(a[1..], b[1..]);
        assert a == [a[0]] + a[1..] && b == [b[0]] + b[1..];
      } else if Rank(a[0]) == Rank(b[0]) {
        RankInjective(a[0], b[0]);
      }
    }
  }

  /** `a` may stand before `b`. */
  predicate Leq(a: string, b: string) {
    !Less(b, a)
  }

  lemma LeqTransitive(a: string, b: string, c: string)
    requires Leq(a, b) && Leq(b, c)
    ensures Leq(a, c)
  {
    LessTotal(a, b);
    LessTotal(b, c);
    if Less(c, a) {
      if a == b || b == c {
      } else {
        LessTransitive(a, b, c);
        LessTransitive(a, c, a);
        LessIrreflexive(a);
      }
    }
  }

  // ---- stable sort --------------------------------------------------------

  function Insert<T>(key: T -> string, x: T, xs: seq<T>): seq<T> {
    if xs == [] || Leq(key(x), key(xs[0])) then [x] + xs else [xs[0]] + Insert(key, x, xs[1..])
  }

  function Sort<T>(key: T -> string, xs: seq<T>): seq<T> {
    if xs == [] then [] else Insert(key, xs[0], Sort(key, xs[1..]))
  }

  predicate Sorted<T>(key: T -> string, xs: seq<T>) {
    |xs| >= 2 ==> Leq(key(xs[0]), key(xs[1])) && Sorted(key, xs[1..])
  }

  /** The elements filed under `k`, in order. */
  function Under<T>(key: T -> string, k: string, xs: seq<T>): seq<T> {
    if xs == [] then []
    else (if key(xs[0]) == k then [xs[0]] else []) + Under(key, k, xs[1..])
  }

  lemma {:induction false} InsertSorted<T>(key: T -> string, x: T, xs: seq<T>)
    requires Sorted(key, xs)
    ensures Sorted(key, Insert(key, x, xs))
  {
    if xs == [] || Leq(key(x), key(xs[0])) {
      assert ([x] + xs)[1..] == xs;
    } else {
      InsertSorted(key, x, xs[1..]);
      var r := Insert(key, x, xs[1..]);
      assert ([xs[0]] + r)[1..] == r;
      LessTotal(key(x), key(xs[0]));
      LessFlips(key(x), key(xs[0]));
    }
  }

  lemma LessFlips(a: string, b: string)
    requires Less(b, a)
    ensures Leq(b, a)
  {
    if Less(a, b) {
      LessTransitive(a, b, a);
      LessIrreflexive(a);
    }
  }

  lemma {:induction false} SortSorted<T>(key: T -> string, xs: seq<T>)
    ensures Sorted(key, Sort(key, xs))
  {
    if xs != [] {
      SortSorted(key, xs[1..]);
      InsertSorted(key, xs[0], Sort(key, xs[1..]));
    }
  }

  lemma {:induction false} InsertUnder<T>(key: T -> string, k: string, x: T, xs: seq<T>)
    ensures Under(key, k, Insert(key, x, xs)) == Under(key, k, [x] + xs)
  {
    if xs == [] || Leq(key(x), key(xs[0])) {
    } else {
      InsertUnder(key, k, x, xs[1..]);
      var r := Insert(key, x, xs[1..]);
      assert ([xs[0]] + r)[1..] == r;
      assert ([x] + xs[1..])[1..] == xs[1..];
      assert ([x] + xs)[1..] == xs;
      LessIrreflexive(key(x));
    }
  }

  /** Sorting is stable: it keeps the order of elements that share a key. */
  lemma {:induction false} SortUnder<T>(key: T -> string, k: string, xs: seq<T>)
    ensures Under(key, k, Sort(key, xs)) == Under(key, k, xs)
  {
    if xs != [] {
      SortUnder(key, k, xs[1..]);
      InsertUnder(key, k, xs[0], Sort(key, xs[1..]));
      assert ([xs[0]] + Sort(key, xs[1..]))[1..] == Sort(key, xs[1..]);
    }
  }

  lemma {:induction false} InsertMultiset<T>(key: T -> string, x: T, xs: seq<T>)
    ensures multiset(Insert(key, x, xs)) == multiset{x} + multiset(xs)
  {
    if xs == [] || Leq(key(x), key(xs[0])) {
    } else {
      InsertMultiset(key, x, xs[1..]);
      assert xs == [xs[0]] + xs[1..];
    }
  }

  lemma {:induction false} SortMultiset<T>(key: T -> string, xs: seq<T>)
    ensures multiset(Sort(key, xs)) == multiset(xs)
  {
    if xs != [] {
      SortMultiset(key, xs[1..]);
      InsertMultiset(key, xs[0], Sort(key, xs[1..]));
      assert xs == [xs[0]] + xs[1..];
    }
  }

  lemma {:induction false} SortedHead<T>(key: T -> string, xs: seq<T>, i: nat)
    requires Sorted(key, xs) && i < |xs|
    ensures Leq(key(xs[0]), key(xs[i]))
  {
    if i == 0 {
      LessIrreflexive(key(xs[0]));
    } else {
      SortedHead(key, xs[1..], i - 1);
      LeqTransitive(key(xs[0]), key(xs[1]), key(xs[i]));
    }
  }

  lemma {:induction false} UnderFinds<T>(key: T -> string, k: string, xs: seq<T>)
    requires Under(key, k, xs) != []
    ensures exists i :: 0 <= i < |xs| && key(xs[i]) == k
  {
    if key(xs[0]) != k {
      UnderFinds(key, k, xs[1..]);
      var i :| 0 <= i < |xs[1..]| && key(xs[1..][i]) == k;
      assert key(xs[i + 1]) == k;
    }
  }

  lemma UnderHead<T>(key: T -> string, xs: seq<T>)
    requires xs != []
    ensures Under(key, key(xs[0]), xs) == [xs[0]] + Under(key, key(xs[0]), xs[1..])
  {}

  /** Two lists agree under every key, order included. */
  ghost predicate AgreeUnderKeys<T>(key: T -> string, xs: seq<T>, ys: seq<T>) {
    forall k :: Under(key, k, xs) == Under(key, k, ys)
  }

  /** Sorted lists that agree key by key are the same list. */
  lemma {:induction false} SortedDetermined<T>(key: T -> string, xs: seq<T>, ys: seq<T>)
    requires Sorted(key, xs) && Sorted(key, ys)
    requires AgreeUnderKeys(key, xs, ys)
    ensures xs == ys
  {
    if xs == [] || ys == [] {
      if xs != [] {
        UnderHead(key, xs);
        assert false;
      } else if ys != [] {
        UnderHead(key, ys);
        assert false;
      }
    } else {
      var kx, ky := key(xs[0]), key(ys[0]);
      UnderHead(key, xs);
      UnderHead(key, ys);
      assert Under(key, kx, ys) != [] && Under(key, ky, xs) != [];
      UnderFinds(key, kx, ys);
      UnderFinds(key, ky, xs);
      var i :| 0 <= i < |ys| && key(ys[i]) == kx;
      var j :| 0 <= j < |xs| && key(xs[j]) == ky;
      SortedHead(key, ys, i);
      SortedHead(key, xs, j);
      LessTotal(kx, ky);
      assert kx == ky;
      assert xs[0] == Under(key, kx, xs)[0] == Under(key, kx, ys)[0] == ys[0];
      forall k
        ensures Under(key, k, xs[1..]) == Under(key, k, ys[1..])
      {
        assert Under(key, k, xs) == Under(key, k, ys);
        if k == kx {
          assert Under(key, k, xs)[1..] == Under(key, k, xs[1..]);
          assert Under(key, k, ys)[1..] == Under(key, k, ys[1..]);
        } else {
          assert Under(key, k, xs) == Under(key, k, xs[1..]);
          assert Under(key, k, ys) == Under(key, k, ys[1..]);
        }
      }
      SortedDetermined(key, xs[1..], ys[1..]);
      assert xs == [xs[0]] + xs[1..] && ys == [ys[0]] + ys[1..];
    }
  }

  /** Exactly when two lists sort alike: they agree under every key. */
  lemma SortAgreesIff<T>(key: T -> string, xs: seq<T>, ys: seq<T>)
    ensures Sort(key, xs) == Sort(key, ys) <==> AgreeUnderKeys(key, xs, ys)
  {
    forall k
      ensures Under(key, k, Sort(key, xs)) == Under(key, k, xs)
      ensures Under(key, k, Sort(key, ys)) == Under(key, k, ys)
    {
      SortUnder(key, k, xs);
      SortUnder(key, k, ys);
    }
    SortSorted(key, xs);
    SortSorted(key, ys);
    if AgreeUnderKeys(key, xs, ys) {
      assert AgreeUnderKeys(key, Sort(key, xs), Sort(key, ys));
      SortedDetermined(key, Sort(key, xs), Sort(key, ys));
    }
  }

  predicate DistinctKeys<T>(key: T -> string, xs: seq<T>) {
    forall i, j :: 0 <= i < j < |xs| ==> key(xs[i]) != key(xs[j])
  }

  lemma {:induction false} UnderMember<T>(key: T -> string, xs: seq<T>, k: string, x: T)
    ensures x in Under(key, k, xs) <==> x in xs && key(x) == k
  {
    if xs != [] {
      UnderMember(key, xs[1..], k, x);
      assert xs == [xs[0]] + xs[1..];
    }
  }

  lemma {:induction false} DistinctUnder<T>(key: T -> string, xs: seq<T>, k: string)
    requires DistinctKeys(key, xs)
    ensures |Under(key, k, xs)| <= 1
  {
    if xs != [] {
      forall i, j | 0 <= i < j < |xs[1..]|
        ensures key(xs[1..][i]) != key(xs[1..][j])
      {
        assert key(xs[i + 1]) != key(xs[j + 1]);
      }
      DistinctUnder(key, xs[1..], k);
      if key(xs[0]) == k && Under(key, k, xs[1..]) != [] {
        UnderFinds(key, k, xs[1..]);
        var i :| 0 <= i < |xs[1..]| && key(xs[1..][i]) == k;
        assert false;
      }
    }
  }

  /** With pairwise distinct keys, lists that are rearrangements of each other sort alike. */
  lemma RearrangedSortsAlike<T>(key: T -> string, xs: seq<T>, ys: seq<T>)
    requires DistinctKeys(key, xs) && DistinctKeys(key, ys)
    requires forall x :: x in xs <==> x in ys
    ensures Sort(key, xs) == Sort(key, ys)
  {
    forall k
      ensures Under(key, k, xs) == Under(key, k, ys)
    {
      DistinctUnder(key, xs, k);
      DistinctUnder(key, ys, k);
      var u, v := Under(key, k, xs), Under(key, k, ys);
      if u != [] {
        UnderMember(key, xs, k, u[0]);
        UnderMember(key, ys, k, u[0]);
      }
      if v != [] {
        UnderMember(key, xs, k, v[0]);
        UnderMember(key, ys, k, v[0]);
      }
    }
    SortAgreesIff(key, xs, ys);
  }

  /** Lists with the same keys in the same places are equal when they sort alike. */
  lemma {:induction false} SameKeysSortInjective<T>(key: T -> string, xs: seq<T>, ys: seq<T>)
    requires |xs| == |ys| && forall i :: 0 <= i < |xs| ==> key(xs[i]) == key(ys[i])
    requires AgreeUnderKeys(key, xs, ys)
    ensures xs == ys
  {
    if xs != [] {
      UnderHead(key, xs);
      UnderHead(key, ys);
      assert xs[0] == Under(key, key(xs[0]), xs)[0] == ys[0];
      forall k
        ensures Under(key, k, xs[1..]) == Under(key, k, ys[1..])
      {
        assert Under(key, k, xs) == Under(key, k, ys);
        if key(xs[0]) == k {
          assert Under(key, k, xs)[1..] == Under(key, k, xs[1..]);
          assert Under(key, k, ys)[1..] == Under(key, k, ys[1..]);
        } else {
          assert Under(key, k, xs) == Under(key, k, xs[1..]);
          assert Under(key, k, ys) == Under(key, k, ys[1..]);
        }
      }
      SameKeysSortInjective(key, xs[1..], ys[1..]);
      assert xs == [xs[0]] + xs[1..] && ys == [ys[0]] + ys[1..];
    }
  }

  lemma {:induction false} DistinctMeansOnce<T>(key: T -> string, xs: seq<T>)
    ensures DistinctKeys(key, xs) <==> forall k :: |Under(key, k, xs)| <= 1
  {
    if DistinctKeys(key, xs) {
      forall k
        ensures |Under(key, k, xs)| <= 1
      {
        DistinctUnder(key, xs, k);
      }
    } else {
      var i, j :| 0 <= i < j < |xs| && key(xs[i]) == key(xs[j]);
      TwiceUnder(key, xs, i, j);
    }
  }

  lemma {:induction false} TwiceUnder<T>(key: T -> string, xs: seq<T>, i: nat, j: nat)
    requires i < j < |xs| && key(xs[i]) == key(xs[j])
    ensures |Under(key, key(xs[i]), xs)| >= 2
  {
    var k, t := key(xs[i]), xs[1..];
    if i > 0 {
      TwiceUnder(key, t, i - 1, j - 1);
    } else {
      assert t[j - 1] in t;
      UnderMember(key, t, k, t[j - 1]);
    }
  }

  lemma SortKeepsDistinct<T>(key: T -> string, xs: seq<T>)
    requires DistinctKeys(key, xs)
    ensures DistinctKeys(key, Sort(key, xs))
  {
    DistinctMeansOnce(key, xs);
    DistinctMeansOnce(key, Sort(key, xs));
    forall k
      ensures |Under(key, k, Sort(key, xs))| <= 1
    {
      SortUnder(key, k, xs);
      assert |Under(key, k, xs)| <= 1;
    }
  }
}
