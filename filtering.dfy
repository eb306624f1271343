/** constrain_word_length and non_repeating: the two generic stream filters of makepass. */
module Filtering {
  import opened Wrappers

  /** An inclusive upper bound; None stands for Python's float('inf'). */
  type Bound = Option<int>

  predicate WithinUpper(n: int, hi: Bound)
  {
    hi.None? || n <= hi.value
  }

  /** The test `min_len <= len(item) <= max_len`. */
  predicate InLength(s: string, lo: int, hi: Bound)
  {
    lo <= |s| && WithinUpper(|s|, hi)
  }

  /** Order-preserving subsequence, matched from the back. */
  predicate IsSubsequence<T(==)>(a: seq<T>, b: seq<T>)
    decreases |b|
  {
    a == [] ||
    (b != [] &&
     ((a[|a| - 1] == b[|b| - 1] && IsSubsequence(a[..|a| - 1], b[..|b| - 1])) ||
      IsSubsequence(a, b[..|b| - 1])))
  }

  predicate NoDuplicates<T(==)>(s: seq<T>)
  {
    forall i, j :: 0 <= i < j < |s| ==> s[i] != s[j]
  }

  // ---------------------------------------------------------------------------
  // constrain_word_length

  /** The items of a stream that pass the inclusive length test, in stream order. */
  function Keep(items: seq<string>, lo: int, hi: Bound): seq<string>
  {
    if items == [] then []
    else
      var last := items[|items| - 1];
      Keep(items[..|items| - 1], lo, hi) + (if InLength(last, lo, hi) then [last] else [])
  }

  /** The generator loop of constrain_word_length, run over a finite stream. */
  method ConstrainLength(items: seq<string>, lo: int, hi: Bound) returns (kept: seq<string>)
    ensures kept == Keep(items, lo, hi)
  {
    kept := [];
    for i := 0 to |items|
      invariant kept == Keep(items[..i], lo, hi)
    {
      assert items[..i + 1][..i] == items[..i];
      if InLength(items[i], lo, hi) {
        kept := kept + [items[i]];
      }
    }
    assert items[..|items|] == items;
  }

  /** Nothing in range is dropped and nothing out of range kept, with multiplicities. */
  lemma {:induction false} KeepCounts(items: seq<string>, lo: int, hi: Bound, x: string)
    ensures multiset(Keep(items, lo, hi))[x] == if InLength(x, lo, hi) then multiset(items)[x] else 0
  {
    if items != [] {
      var init, last := items[..|items| - 1], items[|items| - 1];
      assert items == init + [last];
      KeepCounts(init, lo, hi, x);
    }
  }

  /** Every kept item is in range, and every item in range is kept. */
  lemma KeepMembers(items: seq<string>, lo: int, hi: Bound, x: string)
    ensures x in Keep(items, lo, hi) <==> x in items && InLength(x, lo, hi)
  {
    KeepCounts(items, lo, hi, x);
    assert x in Keep(items, lo, hi) <==> multiset(Keep(items, lo, hi))[x] > 0;
    assert x in items <==> multiset(items)[x] > 0;
  }

  /** The kept items keep their input order. */
  lemma {:induction false} KeepSubsequence(items: seq<string>, lo: int, hi: Bound)
    ensures IsSubsequence(Keep(items, lo, hi), items)
  {
    if items != [] {
      var init := items[..|items| - 1];
      KeepSubsequence(init, lo, hi);
      var k := Keep(init, lo, hi);
      if InLength(items[|items| - 1], lo, hi) {
        assert (k + [items[|items| - 1]])[..|k|] == k;
      } else {
        assert Keep(items, lo, hi) == k;
        if k != [] { SubsequenceOfPrefix(k, init, items); }
      }
    }
  }

  /** Filtering a concatenated stream filters each part. */
  lemma {:induction false} KeepAppend(a: seq<string>, b: seq<string>, lo: int, hi: Bound)
    ensures Keep(a + b, lo, hi) == Keep(a, lo, hi) + Keep(b, lo, hi)
    decreases |b|
  {
    if b == [] {
      assert a + b == a;
    } else {
      var binit := b[..|b| - 1];
      assert (a + b)[..|a + b| - 1] == a + binit;
      KeepAppend(a, binit, lo, hi);
    }
  }

  lemma KeepSingle(x: string, lo: int, hi: Bound)
    ensures Keep([x], lo, hi) == if InLength(x, lo, hi) then [x] else []
  {
    assert [x][..0] == [];
  }

  /** Filtering a stream that starts with x: x, if in range, then the filtered rest. */
  lemma KeepCons(x: string, rest: seq<string>, lo: int, hi: Bound)
    ensures Keep([x] + rest, lo, hi) == (if InLength(x, lo, hi) then [x] else []) + Keep(rest, lo, hi)
  {
    KeepAppend([x], rest, lo, hi);
    KeepSingle(x, lo, hi);
  }

  /** Filtering never lengthens the stream. */
  lemma {:induction false} KeepNoLonger(items: seq<string>, lo: int, hi: Bound)
    ensures |Keep(items, lo, hi)| <= |items|
  {
    if items != [] { KeepNoLonger(items[..|items| - 1], lo, hi); }
  }

  /** The first kept item is the first item of the stream that is in range. */
  lemma {:induction false} KeepHead(items: seq<string>, lo: int, hi: Bound)
    requires Keep(items, lo, hi) != []
    ensures exists i :: 0 <= i < |items| && items[i] == Keep(items, lo, hi)[0] && InLength(items[i], lo, hi) &&
                        forall j :: 0 <= j < i ==> !InLength(items[j], lo, hi)
  {
    var init, last := items[..|items| - 1], items[|items| - 1];
    if Keep(init, lo, hi) != [] {
      KeepHead(init, lo, hi);
      var i :| 0 <= i < |init| && init[i] == Keep(init, lo, hi)[0] && InLength(init[i], lo, hi) &&
               forall j :: 0 <= j < i ==> !InLength(init[j], lo, hi);
      assert items[i] == init[i];
      assert forall j :: 0 <= j < i ==> items[j] == init[j];
    } else {
      forall j | 0 <= j < |init| ensures !InLength(items[j], lo, hi) {
        KeepMembers(init, lo, hi, init[j]);
      }
      assert items[|items| - 1] == Keep(items, lo, hi)[0];
    }
  }

  lemma {:induction false} SubsequenceOfPrefix<T>(a: seq<T>, b: seq<T>, c: seq<T>)
    requires IsSubsequence(a, b) && |b| < |c| && c[..|b|] == b
    ensures IsSubsequence(a, c)
    decreases |c|
  {
    if a != [] {
      var cinit := c[..|c| - 1];
      if |b| < |cinit| {
        assert cinit[..|b|] == b;
        SubsequenceOfPrefix(a, b, cinit);
      } else {
        assert cinit == b;
      }
    }
  }

  // ---------------------------------------------------------------------------
  // non_repeating

  /** The first occurrences of the stream's elements, in stream order. */
  function Unique<T(==)>(xs: seq<T>): seq<T>
  {
    if xs == [] then []
    else
      var init := xs[..|xs| - 1];
      if xs[|xs| - 1] in init then Unique(init) else Unique(init) + [xs[|xs| - 1]]
  }

  /** The index of the first occurrence of x. */
  function IndexOf<T(==)>(xs: seq<T>, x: T): (i: nat)
    requires x in xs
    ensures i < |xs| && xs[i] == x && x !in xs[..i]
  {
    if xs[0] == x then 0
    else
      var i := 1 + IndexOf(xs[1..], x);
      assert xs[..i] == [xs[0]] + xs[1..][..i - 1];
      i
  }

  /** The generator loop of non_repeating, with its `seen` set, run over a finite stream. */
  method NonRepeating<T(==)>(xs: seq<T>) returns (ys: seq<T>)
    ensures ys == Unique(xs)
  {
    var seen: set<T> := {};
    ys := [];
    for i := 0 to |xs|
      invariant ys == Unique(xs[..i])
      invariant forall x :: x in seen <==> x in xs[..i]
    {
      assert xs[..i + 1][..i] == xs[..i];
      assert xs[..i + 1] == xs[..i] + [xs[i]];
      if xs[i] !in seen {
        seen := seen + {xs[i]};
        ys := ys + [xs[i]];
      }
    }
    assert xs[..|xs|] == xs;
  }

  /** Reading one more element appends it exactly when it has not been seen. */
  lemma UniqueStep<T>(xs: seq<T>, x: T)
    ensures Unique(xs + [x]) == if x in Unique(xs) then Unique(xs) else Unique(xs) + [x]
  {
    assert (xs + [x])[..|xs|] == xs;
    UniqueMembers(xs, x);
  }

  /** The output holds exactly the input's elements. */
  lemma {:induction false} UniqueMembers<T>(xs: seq<T>, x: T)
    ensures x in Unique(xs) <==> x in xs
  {
    if xs != [] {
      var init := xs[..|xs| - 1];
      assert xs == init + [xs[|xs| - 1]];
      UniqueMembers(init, x);
    }
  }

  /** Every element of the consumed input appears in the output exactly once. */
  lemma {:induction false} UniqueExactlyOnce<T>(xs: seq<T>, x: T)
    ensures multiset(Unique(xs))[x] == if x in xs then 1 else 0
  {
    if xs != [] {
      var init, last := xs[..|xs| - 1], xs[|xs| - 1];
      assert xs == init + [last];
      UniqueExactlyOnce(init, x);
      if last !in init {
        UniqueExactlyOnce(init, last);
      }
    }
  }

  /** The output has no duplicates. */
  lemma {:induction false} UniqueNoDuplicates<T>(xs: seq<T>)
    ensures NoDuplicates(Unique(xs))
  {
    if xs != [] {
      var init := xs[..|xs| - 1];
      UniqueNoDuplicates(init);
      UniqueMembers(init, xs[|xs| - 1]);
    }
  }

  /** The output is an order-preserving subsequence of the input. */
  lemma {:induction false} UniqueSubsequence<T>(xs: seq<T>)
    ensures IsSubsequence(Unique(xs), xs)
  {
    if xs != [] {
      var init := xs[..|xs| - 1];
      UniqueSubsequence(init);
      var u := Unique(init);
      if xs[|xs| - 1] in init {
        if u != [] { SubsequenceOfPrefix(u, init, xs); }
      } else {
        assert (u + [xs[|xs| - 1]])[..|u|] == u;
      }
    }
  }

  /** The output lists the elements by the position of their first occurrence. */
  lemma {:induction false} UniqueFirstOccurrenceOrder<T>(xs: seq<T>)
    ensures forall x :: x in Unique(xs) ==> x in xs
    ensures forall i, j :: 0 <= i < j < |Unique(xs)| ==> IndexOf(xs, Unique(xs)[i]) < IndexOf(xs, Unique(xs)[j])
  {
    forall x | x in Unique(xs) ensures x in xs { UniqueMembers(xs, x); }
    if xs != [] {
      var init, last := xs[..|xs| - 1], xs[|xs| - 1];
      UniqueFirstOccurrenceOrder(init);
      var u := Unique(init);
      assert xs == init + [last];
      forall x | x in init ensures IndexOf(xs, x) == IndexOf(init, x) {
        IndexOfExtends(init, [last], x);
      }
      forall i | 0 <= i < |u| ensures u[i] in init { UniqueMembers(init, u[i]); }
      if last !in init {
        assert IndexOf(xs, last) == |init|;
      }
    }
  }

  lemma {:induction false} IndexOfExtends<T>(xs: seq<T>, ys: seq<T>, x: T)
    requires x in xs
    ensures IndexOf(xs + ys, x) == IndexOf(xs, x)
  {
    if xs[0] != x {
      assert (xs + ys)[1..] == xs[1..] + ys;
      IndexOfExtends(xs[1..], ys, x);
    }
  }

  /** The output of a longer stream extends the output of its prefix. */
  lemma {:induction false} UniquePrefix<T>(xs: seq<T>, j: nat)
    requires j <= |xs|
    ensures Unique(xs[..j]) <= Unique(xs)
    decreases |xs|
  {
    if j < |xs| {
      var init := xs[..|xs| - 1];
      assert init[..j] == xs[..j];
      UniquePrefix(init, j);
    } else {
      assert xs[..j] == xs;
    }
  }

  /** The output is as long as the number of distinct elements consumed. */
  lemma {:induction false} UniqueLength<T>(xs: seq<T>)
    ensures |Unique(xs)| == |set x | x in xs|
  {
    if xs != [] {
      var init, last := xs[..|xs| - 1], xs[|xs| - 1];
      assert xs == init + [last];
      UniqueLength(init);
      var before := set x | x in init;
      assert forall x :: x in xs <==> x in init || x == last;
      assert (set x | x in xs) == before + {last};
      if last in init {
        assert last in before;
        assert before + {last} == before;
      } else {
        assert last !in before;
        assert |before + {last}| == |before| + 1;
      }
    }
  }

  lemma {:induction false} UniqueNoLonger<T>(xs: seq<T>)
    ensures |Unique(xs)| <= |xs|
  {
    if xs != [] { UniqueNoLonger(xs[..|xs| - 1]); }
  }

  /** A stream drawn from a pool never yields more distinct elements than the pool has. */
  lemma UniqueBounded<T>(xs: seq<T>, pool: set<T>)
    requires forall i :: 0 <= i < |xs| ==> xs[i] in pool
    ensures |Unique(xs)| <= |pool|
  {
    UniqueLength(xs);
    SubsetCardinality((set x | x in xs), pool);
  }

  lemma SubsetCardinality<T>(a: set<T>, b: set<T>)
    requires a <= b
    ensures |a| <= |b|
  {
    assert b == a + (b - a);
  }
}
