/** Searching and ordering strings. Characters stand for code points. */
module Text {
  import opened Wrappers

  /** The position of the first occurrence of c at or after `from`. */
  function IndexFrom(s: string, c: char, from: nat): (i: Option<nat>)
    requires from <= |s|
    ensures i.None? <==> forall k | from <= k < |s| :: s[k] != c
    ensures i.Some? ==> from <= i.value < |s| && s[i.value] == c && forall k | from <= k < i.value :: s[k] != c
    decreases |s| - from
  {
    if from == |s| then None else if s[from] == c then Some(from) else IndexFrom(s, c, from + 1)
  }

  function IndexOf(s: string, c: char): (i: Option<nat>)
    ensures i.None? <==> c !in s
    ensures i.Some? ==> i.value < |s| && s[i.value] == c && forall k | 0 <= k < i.value :: s[k] != c
  {
    IndexFrom(s, c, 0)
  }

  lemma FirstIndex(e: string, c: char, rest: string)
    requires c !in e
    ensures IndexOf(e + [c] + rest, c) == Some(|e|)
  {
    var s := e + [c] + rest;
    assert s[|e|] == c && forall k | 0 <= k < |e| :: s[k] == e[k];
  }

  /** The order of strings by code point. */
  predicate LexLeq(a: string, b: string) {
    a == "" || (b != "" && (a[0] < b[0] || (a[0] == b[0] && LexLeq(a[1..], b[1..]))))
  }

  lemma {:induction false} LexTotal(a: string, b: string)
    ensures LexLeq(a, b) || LexLeq(b, a)
    ensures LexLeq(a, b) && LexLeq(b, a) ==> a == b
  {
    if a != "" && b != "" {
      LexTotal(a[1..], b[1..]);
      assert a == [a[0]] + a[1..] && b == [b[0]] + b[1..];
    }
  }

  /** The strings agree up to position k, where a ends or has the smaller character. */
  ghost predicate SmallerAt(a: string, b: string, k: nat) {
    && k <= |a| && k <= |b| && a[..k] == b[..k]
    && (k == |a| || (k < |b| && a[k] < b[k]))
  }

  /** The order is that of prefixes and first differences. */
  lemma {:induction false} LexIsFirstDifference(a: string, b: string)
    ensures LexLeq(a, b) <==> exists k: nat :: SmallerAt(a, b, k)
  {
    if a == "" {
      assert SmallerAt(a, b, 0);
    } else if b == "" || a[0] != b[0] {
      assert b != "" && a[0] < b[0] ==> SmallerAt(a, b, 0);
      forall k: nat | SmallerAt(a, b, k) ensures k == 0 {
        if k > 0 {
          SharedFirst(a, b, k);
        }
      }
    } else {
      LexIsFirstDifference(a[1..], b[1..]);
      forall k: nat | k > 0 ensures SmallerAt(a, b, k) <==> SmallerAt(a[1..], b[1..], k - 1) {
        SmallerAtTail(a, b, k);
      }
      if k: nat :| SmallerAt(a[1..], b[1..], k) {
        SmallerAtTail(a, b, k + 1);
      }
    }
  }

  lemma SharedFirst(a: string, b: string, k: nat)
    requires 0 < k <= |a| && k <= |b| && a[..k] == b[..k]
    ensures a[0] == b[0]
  {
    assert a[0] == a[..k][0] && b[0] == b[..k][0];
  }

  lemma SmallerAtTail(a: string, b: string, k: nat)
    requires a != "" && b != "" && a[0] == b[0] && k > 0
    ensures SmallerAt(a, b, k) <==> SmallerAt(a[1..], b[1..], k - 1)
  {
    if k <= |a| && k <= |b| {
      assert a[..k] == [a[0]] + a[1..][..k - 1] && b[..k] == [b[0]] + b[1..][..k - 1];
      assert a[1..][..k - 1] == a[..k][1..] && b[1..][..k - 1] == b[..k][1..];
    }
  }

  lemma {:induction false} LexTransitive(a: string, b: string, c: string)
    requires LexLeq(a, b) && LexLeq(b, c)
    ensures LexLeq(a, c)
  {
    if a != "" && b != "" && c != "" && a[0] == b[0] == c[0] {
      LexTransitive(a[1..], b[1..], c[1..]);
    }
  }

  ghost predicate TotalOrder(leq: (string, string) -> bool) {
    && (forall a, b :: leq(a, b) || leq(b, a))
    && (forall a, b, c :: leq(a, b) && leq(b, c) ==> leq(a, c))
  }

  lemma LexIsTotalOrder()
    ensures TotalOrder(LexLeq)
  {
    forall a, b ensures LexLeq(a, b) || LexLeq(b, a) {
      LexTotal(a, b);
    }
    forall a, b, c | LexLeq(a, b) && LexLeq(b, c) ensures LexLeq(a, c) {
      LexTransitive(a, b, c);
    }
  }

  ghost predicate Sorted(xs: seq<string>, leq: (string, string) -> bool) {
    forall i, j | 0 <= i < j < |xs| :: leq(xs[i], xs[j])
  }

  function Inserted(x: string, xs: seq<string>, leq: (string, string) -> bool): (r: seq<string>)
    ensures multiset(r) == multiset(xs) + multiset{x}
  {
    if xs == [] then [x]
    else if leq(x, xs[0]) then [x] + xs
    else
      assert xs == [xs[0]] + xs[1..];
      [xs[0]] + Inserted(x, xs[1..], leq)
  }

  /** The strings of xs in ascending order. */
  function SortedBy(xs: seq<string>, leq: (string, string) -> bool): (r: seq<string>)
    ensures multiset(r) == multiset(xs)
  {
    if xs == [] then []
    else
      assert xs == [xs[0]] + xs[1..];
      Inserted(xs[0], SortedBy(xs[1..], leq), leq)
  }

  lemma SameMembers(xs: seq<string>, ys: seq<string>)
    requires multiset(xs) == multiset(ys)
    ensures |xs| == |ys| && forall x :: x in xs <==> x in ys
  {
    assert |multiset(xs)| == |multiset(ys)|;
    forall x ensures x in xs <==> x in ys {
      assert x in multiset(xs) <==> x in multiset(ys);
    }
  }

  lemma {:induction false} InsertedIsSorted(x: string, xs: seq<string>, leq: (string, string) -> bool)
    requires TotalOrder(leq) && Sorted(xs, leq)
    ensures Sorted(Inserted(x, xs, leq), leq)
  {
    if xs != [] && !leq(x, xs[0]) {
      var rest := Inserted(x, xs[1..], leq);
      InsertedIsSorted(x, xs[1..], leq);
      forall y | y in rest ensures leq(xs[0], y) {
        assert y in multiset(rest);
        assert y == x || y in xs[1..];
      }
    }
  }

  lemma {:induction false} SortedByIsSorted(xs: seq<string>, leq: (string, string) -> bool)
    requires TotalOrder(leq)
    ensures Sorted(SortedBy(xs, leq), leq)
  {
    if xs != [] {
      SortedByIsSorted(xs[1..], leq);
      InsertedIsSorted(xs[0], SortedBy(xs[1..], leq), leq);
    }
  }

  ghost predicate NoRepeats(xs: seq<string>) {
    forall i, j | 0 <= i < j < |xs| :: xs[i] != xs[j]
  }

  lemma {:induction false} NoRepeatsByCount(xs: seq<string>)
    ensures NoRepeats(xs) <==> forall x :: multiset(xs)[x] <= 1
  {
    if xs != [] {
      var rest := xs[..|xs| - 1];
      var l := xs[|xs| - 1];
      assert xs == rest + [l];
      NoRepeatsByCount(rest);
      assert NoRepeats(xs) ==> NoRepeats(rest) && l !in rest;
      assert multiset(xs) == multiset(rest) + multiset{l};
      assert l in rest <==> multiset(rest)[l] >= 1;
      if forall x :: multiset(xs)[x] <= 1 {
        forall x ensures multiset(rest)[x] <= 1 {
          assert multiset(xs)[x] <= 1;
        }
        assert multiset(xs)[l] <= 1;
      }
    }
  }

  /** Sorting keeps the strings distinct. */
  lemma SortedByKeepsDistinct(xs: seq<string>, leq: (string, string) -> bool)
    requires NoRepeats(xs)
    ensures NoRepeats(SortedBy(xs, leq))
  {
    NoRepeatsByCount(xs);
    NoRepeatsByCount(SortedBy(xs, leq));
  }

  /** There is only one ascending listing of a set of strings. */
  lemma {:induction false} AscendingListingIsUnique(xs: seq<string>, ys: seq<string>)
    requires NoRepeats(xs) && Sorted(xs, LexLeq) && NoRepeats(ys) && Sorted(ys, LexLeq)
    requires forall x :: x in xs <==> x in ys
    ensures xs == ys
  {
    assert xs != [] ==> xs[0] in ys;
    assert ys != [] ==> ys[0] in xs;
    if xs != [] {
      LexTotal(xs[0], ys[0]);
      assert xs[0] == ys[0];
      assert xs == [xs[0]] + xs[1..] && ys == [ys[0]] + ys[1..];
      assert xs[0] !in xs[1..] && ys[0] !in ys[1..];
      forall x ensures x in xs[1..] <==> x in ys[1..] {
        assert x in xs <==> x in ys;
      }
      AscendingListingIsUnique(xs[1..], ys[1..]);
    }
  }
}
