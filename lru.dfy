/** The recency order that TileCache (src/TileCache.ts) keeps in its list:
    least recently used first, most recently used last. These functions are
    the specification the cache's methods are proved against; the lemmas
    state what a sequence of get/put calls does to that order. */
module Lru {
  import opened Common

  /** `s` without its first occurrence of `x`. */
  function RemoveFirst<T(==)>(s: seq<T>, x: T): (r: seq<T>)
    ensures x in s ==> |r| == |s| - 1
    ensures x !in s ==> r == s
    ensures forall y :: y in r ==> y in s
    ensures forall y :: y in s && y != x ==> y in r
    decreases |s|
  {
    if s == [] then []
    else if s[0] == x then s[1..]
    else [s[0]] + RemoveFirst(s[1..], x)
  }

  /** Taking out the entry at a position where `x` occurs for the first time. */
  lemma {:induction false} RemoveFirstAt<T>(s: seq<T>, x: T, i: int)
    requires 0 <= i < |s| && s[i] == x && x !in s[..i]
    ensures RemoveFirst(s, x) == s[..i] + s[i + 1..]
    decreases i
  {
    if i > 0 {
      assert s[0] in s[..i];
      assert s[1..][..i - 1] == s[1..i];
      assert x !in s[1..][..i - 1];
      RemoveFirstAt(s[1..], x, i - 1);
      assert s[1..][i - 1 + 1..] == s[i + 1..];
      assert [s[0]] + s[1..i] == s[..i];
    }
  }

  /** The entries of `s` with the one at `i` moved to the end. */
  lemma MovedToEndAt<T>(s: seq<T>, i: int, j: int)
    requires 0 <= i < |s| && 0 <= j < |s|
    ensures (s[..i] + s[i + 1..] + [s[i]])[j] == if j < i then s[j] else if j < |s| - 1 then s[j + 1] else s[i]
  {
    var r := s[..i] + s[i + 1..] + [s[i]];
    if j < i {
      assert r[j] == s[..i][j];
    } else if j < |s| - 1 {
      assert r[j] == s[i + 1..][j - i];
    }
  }

  /** A use of `x`: it moves to the most-recently-used end (updateUsage).
      A value the order does not hold leaves it as it is. */
  function Touch<T(==)>(s: seq<T>, x: T): (r: seq<T>)
    ensures x in s ==> |r| == |s| && r[|r| - 1] == x
    ensures x !in s ==> r == s
    ensures forall y :: y in r ==> y in s
    ensures forall y :: y in s ==> y in r
  {
    if x in s then RemoveFirst(s, x) + [x] else s
  }

  /** The capacity the cache actually keeps: a put always stores its tile, so a
      maximum below one behaves as one. */
  function Capacity(maxSize: int): (c: nat)
    ensures c >= 1 && c >= maxSize
  {
    if maxSize < 1 then 1 else maxSize
  }

  /** The entry a put evicts before it stores: the least recently used one,
      and only once the order has reached `maxSize`. */
  function Victim<T>(s: seq<T>, maxSize: int): (v: Option<T>)
    ensures v.Some? <==> |s| > 0 && |s| >= maxSize
    ensures v.Some? ==> v.value == s[0]
  {
    if |s| >= maxSize && |s| > 0 then Some(s[0]) else None
  }

  /** A put of a new entry: evict the victim, then append as most recently used. */
  function Insert<T>(s: seq<T>, x: T, maxSize: int): (r: seq<T>)
  {
    (if Victim(s, maxSize).Some? then s[1..] else s) + [x]
  }

  /** Insert keeps the order within the capacity and puts the new entry last. */
  lemma InsertBounded<T>(s: seq<T>, x: T, maxSize: int)
    requires |s| <= Capacity(maxSize)
    ensures |Insert(s, x, maxSize)| <= Capacity(maxSize)
    ensures Insert(s, x, maxSize)[|Insert(s, x, maxSize)| - 1] == x
  {
  }

  lemma TouchNoDup<T>(s: seq<T>, x: T)
    requires NoDup(s)
    ensures NoDup(Touch(s, x))
  {
    if x in s {
      var i :| 0 <= i < |s| && s[i] == x;
      assert x !in s[..i];
      RemoveFirstAt(s, x, i);
      var r := s[..i] + s[i + 1..] + [s[i]];
      assert Touch(s, x) == r;
      forall p, q | 0 <= p < q < |r|
        ensures r[p] != r[q]
      {
        MovedToEndAt(s, i, p);
        MovedToEndAt(s, i, q);
      }
    }
  }

  lemma InsertNoDup<T>(s: seq<T>, x: T, maxSize: int)
    requires NoDup(s) && x !in s
    ensures NoDup(Insert(s, x, maxSize))
  {
    var r := Insert(s, x, maxSize);
    var kept := if Victim(s, maxSize).Some? then s[1..] else s;
    assert r == kept + [x];
    forall p, q | 0 <= p < q < |r|
      ensures r[p] != r[q]
    {
      var d := if Victim(s, maxSize).Some? then 1 else 0;
      assert r[p] == s[p + d];
      if q < |r| - 1 {
        assert r[q] == s[q + d];
      }
    }
  }

  /** What one access of the tile loop in src/app.ts does to the order: a hit
      is a use, a miss a put of a new entry. */
  function Step<T(==)>(s: seq<T>, x: T, maxSize: int): seq<T>
  {
    if x in s then Touch(s, x) else Insert(s, x, maxSize)
  }

  /** The order after accessing `xs` in turn. */
  function Fold<T(==)>(s: seq<T>, xs: seq<T>, maxSize: int): seq<T>
    decreases |xs|
  {
    if xs == [] then s else Step(Fold(s, xs[..|xs| - 1], maxSize), xs[|xs| - 1], maxSize)
  }

  /** The accesses among `xs` that miss, in order: one new tile is made for each. */
  function Misses<T(==)>(s: seq<T>, xs: seq<T>, maxSize: int): seq<T>
    decreases |xs|
  {
    if xs == [] then []
    else
      var before := Fold(s, xs[..|xs| - 1], maxSize);
      Misses(s, xs[..|xs| - 1], maxSize) + (if xs[|xs| - 1] in before then [] else [xs[|xs| - 1]])
  }

  lemma FoldSnoc<T>(s: seq<T>, xs: seq<T>, x: T, maxSize: int)
    ensures Fold(s, xs + [x], maxSize) == Step(Fold(s, xs, maxSize), x, maxSize)
    ensures Misses(s, xs + [x], maxSize)
         == Misses(s, xs, maxSize) + (if x in Fold(s, xs, maxSize) then [] else [x])
  {
    assert (xs + [x])[..|xs + [x]| - 1] == xs;
  }

  /** Accessing `a` and then `b` is accessing `a + b`, and its misses are
      those of `a` followed by those of `b` from where `a` left the order. */
  lemma {:induction false} FoldAppend<T>(s: seq<T>, a: seq<T>, b: seq<T>, maxSize: int)
    ensures Fold(s, a + b, maxSize) == Fold(Fold(s, a, maxSize), b, maxSize)
    ensures Misses(s, a + b, maxSize) == Misses(s, a, maxSize) + Misses(Fold(s, a, maxSize), b, maxSize)
    decreases |b|
  {
    if b == [] {
      assert a + b == a;
    } else {
      var init := b[..|b| - 1];
      var x := b[|b| - 1];
      var mid := Fold(s, a, maxSize);
      FoldAppend(s, a, init, maxSize);
      SplitLast(a, b);
      FoldSnoc(s, a + init, x, maxSize);
      FoldSnoc(mid, init, x, maxSize);
      var last := if x in Fold(mid, init, maxSize) then [] else [x];
      AppendAssoc(Misses(s, a, maxSize), Misses(mid, init, maxSize), last);
    }
  }

  lemma SplitLast<T>(a: seq<T>, b: seq<T>)
    requires b != []
    ensures b[..|b| - 1] + [b[|b| - 1]] == b
    ensures a + b == (a + b[..|b| - 1]) + [b[|b| - 1]]
  {
  }

  /** The order never holds an entry twice, and never exceeds the capacity. */
  lemma {:induction false} FoldInvariant<T>(s: seq<T>, xs: seq<T>, maxSize: int)
    requires NoDup(s) && |s| <= Capacity(maxSize)
    ensures NoDup(Fold(s, xs, maxSize))
    ensures |Fold(s, xs, maxSize)| <= Capacity(maxSize)
    decreases |xs|
  {
    if xs != [] {
      var before := Fold(s, xs[..|xs| - 1], maxSize);
      var x := xs[|xs| - 1];
      FoldInvariant(s, xs[..|xs| - 1], maxSize);
      if x in before {
        TouchNoDup(before, x);
      } else {
        InsertNoDup(before, x, maxSize);
        InsertBounded(before, x, maxSize);
      }
    }
  }

  /** The last entry accessed is always held, as the most recently used. */
  lemma LastAccessIsNewest<T>(s: seq<T>, xs: seq<T>, maxSize: int)
    requires xs != []
    ensures var r := Fold(s, xs, maxSize); |r| > 0 && r[|r| - 1] == xs[|xs| - 1]
  {
  }

  /** Only accessed entries are ever created, and every accessed entry the
      order did not start with is created at least once. */
  lemma {:induction false} MissesAreAccessed<T>(s: seq<T>, xs: seq<T>, maxSize: int)
    ensures forall y :: y in Misses(s, xs, maxSize) ==> y in xs
    ensures forall y :: y in xs && y !in s ==> y in Misses(s, xs, maxSize)
    decreases |xs|
  {
    if xs != [] {
      var init := xs[..|xs| - 1];
      var x := xs[|xs| - 1];
      MissesAreAccessed(s, init, maxSize);
      FoldSubset(s, init, maxSize);
      assert xs == init + [x];
      forall y | y in Misses(s, xs, maxSize)
        ensures y in xs
      {
        if y in Misses(s, init, maxSize) {
          assert y in init;
        }
      }
      forall y | y in xs && y !in s
        ensures y in Misses(s, xs, maxSize)
      {
        if y !in init {
          assert y == x;
        }
      }
    }
  }

  /** The order only ever holds entries it started with or that were accessed. */
  lemma {:induction false} FoldSubset<T>(s: seq<T>, xs: seq<T>, maxSize: int)
    ensures forall y :: y in Fold(s, xs, maxSize) ==> y in s || y in xs
    decreases |xs|
  {
    if xs != [] {
      var init := xs[..|xs| - 1];
      FoldSubset(s, init, maxSize);
      var before := Fold(s, init, maxSize);
      var x := xs[|xs| - 1];
      forall y | y in Fold(s, xs, maxSize)
        ensures y in s || y in xs
      {
        if y != x {
          if x !in before && Victim(before, maxSize).Some? {
            assert y in before[1..];
          }
          assert y in before;
          if y in init {
            assert y in xs;
          }
        }
      }
    }
  }

  /** While nothing has to be evicted, every new tile is created once. Starting
      from an empty cache with at most `Capacity` distinct accesses, the order
      is exactly the access order and every access is a miss. */
  lemma {:induction false} FreshFoldIsIdentity<T>(xs: seq<T>, maxSize: int)
    requires NoDup(xs) && |xs| <= Capacity(maxSize)
    ensures Fold([], xs, maxSize) == xs
    ensures Misses([], xs, maxSize) == xs
    decreases |xs|
  {
    if xs != [] {
      var init := xs[..|xs| - 1];
      var x := xs[|xs| - 1];
      LastIsNew(xs);
      FreshFoldIsIdentity(init, maxSize);
      assert Victim(init, maxSize).None?;
      assert Fold([], xs, maxSize) == Insert(init, x, maxSize);
      assert init + [x] == xs;
    }
  }

  /** Taking out an entry of the front part leaves the back part in place. */
  lemma {:induction false} RemoveFirstInFront<T>(p: seq<T>, q: seq<T>, x: T)
    requires x in p
    ensures RemoveFirst(p + q, x) == RemoveFirst(p, x) + q
    decreases |p|
  {
    if p[0] != x {
      assert (p + q)[1..] == p[1..] + q;
      RemoveFirstInFront(p[1..], q, x);
    } else {
      assert (p + q)[1..] == p[1..] + q;
    }
  }

  /** A run of distinct accesses no longer than the capacity is never evicted
      by itself: afterwards the order ends with exactly those entries, in the
      order of their last access. */
  lemma {:induction false} FoldEndsWithAccesses<T>(s: seq<T>, xs: seq<T>, maxSize: int)
    requires NoDup(xs) && |xs| <= Capacity(maxSize)
    ensures var r := Fold(s, xs, maxSize); |xs| <= |r| && r[|r| - |xs|..] == xs
    decreases |xs|
  {
    if xs != [] {
      LastIsNew(xs);
      FoldEndsWithAccesses(s, xs[..|xs| - 1], maxSize);
      LastAccessKeepsSuffix(s, xs, maxSize);
    }
  }

  /** In a sequence without repetitions the last entry is not among the
      earlier ones, and those have no repetitions either. */
  lemma LastIsNew<T>(xs: seq<T>)
    requires NoDup(xs) && xs != []
    ensures NoDup(xs[..|xs| - 1]) && xs[|xs| - 1] !in xs[..|xs| - 1]
  {
    var init := xs[..|xs| - 1];
    forall k | 0 <= k < |init| ensures init[k] != xs[|xs| - 1] {
      assert init[k] == xs[k];
    }
  }

  /** The inductive step: if the order after the earlier accesses ends with
      them, the order after one more, new access ends with all of them. */
  lemma LastAccessKeepsSuffix<T>(s: seq<T>, xs: seq<T>, maxSize: int)
    requires xs != [] && |xs| <= Capacity(maxSize)
    requires xs[|xs| - 1] !in xs[..|xs| - 1]
    requires var f := Fold(s, xs[..|xs| - 1], maxSize); |xs| - 1 <= |f| && f[|f| - (|xs| - 1)..] == xs[..|xs| - 1]
    ensures var r := Fold(s, xs, maxSize); |xs| <= |r| && r[|r| - |xs|..] == xs
  {
    var init := xs[..|xs| - 1];
    var x := xs[|xs| - 1];
    var f := Fold(s, init, maxSize);
    var p := f[..|f| - |init|];
    assert f == p + init;
    SplitLast([], xs);
    var q := StepKeepsSuffix(p, init, x, maxSize, |xs|);
    assert Fold(s, xs, maxSize) == q + xs;
    EndsWith(q, xs);
  }

  /** One more access, not among the last ones, goes after them; at most the
      entry before them is evicted. */
  lemma StepKeepsSuffix<T>(p: seq<T>, init: seq<T>, x: T, maxSize: int, n: nat) returns (q: seq<T>)
    requires x !in init && n == |init| + 1 && n <= Capacity(maxSize)
    ensures Step(p + init, x, maxSize) == q + (init + [x])
  {
    if x in p + init {
      assert x in p;
      RemoveFirstInFront(p, init, x);
      q := RemoveFirst(p, x);
    } else if Victim(p + init, maxSize).Some? {
      assert |p| >= 1;
      assert (p + init)[1..] == p[1..] + init;
      q := p[1..];
    } else {
      q := p;
    }
  }

  lemma EndsWith<T>(q: seq<T>, xs: seq<T>)
    ensures |xs| <= |q + xs| && (q + xs)[|q + xs| - |xs|..] == xs
  {
  }

  /** So every one of those accesses is held afterwards. */
  lemma AccessesResident<T>(s: seq<T>, xs: seq<T>, maxSize: int, x: T)
    requires NoDup(xs) && |xs| <= Capacity(maxSize) && x in xs
    ensures x in Fold(s, xs, maxSize)
  {
    FoldEndsWithAccesses(s, xs, maxSize);
    var r := Fold(s, xs, maxSize);
    var k :| 0 <= k < |xs| && xs[k] == x;
    assert r[|r| - |xs| + k] == x;
  }

  /** The least-recently-used scenario with a two-entry cache: put a, put b,
      get a, put c evicts b and keeps a then c. */
  lemma Scenario<T>(a: T, b: T, c: T)
    requires a != b && b != c && a != c
    ensures var s := Insert(Insert([], a, 2), b, 2);
            Victim(Touch(s, a), 2) == Some(b) && Insert(Touch(s, a), c, 2) == [a, c]
  {
    var s := Insert(Insert([], a, 2), b, 2);
    assert s == [a, b];
    assert RemoveFirst(s, a) == [b];
    assert Touch(s, a) == [b, a];
  }

  /** indexOf: the first position of `x` in `s`, or -1. */
  method IndexOf<T(==)>(s: seq<T>, x: T) returns (i: int)
    ensures -1 <= i < |s|
    ensures i == -1 <==> x !in s
    ensures i >= 0 ==> s[i] == x && x !in s[..i]
  {
    var k := 0;
    while k < |s|
      invariant 0 <= k <= |s|
      invariant x !in s[..k]
    {
      if s[k] == x {
        return k;
      }
      assert s[..k + 1] == s[..k] + [s[k]];
      k := k + 1;
    }
    assert s[..k] == s;
    return -1;
  }
}
