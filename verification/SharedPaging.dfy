// One page number applied to several results at once: page p is the concatenation of
// every result's own page p. A grid gives page p of result i.

module SharedPaging {
  type Grid<!T> = (nat, nat) -> seq<T>

  /** Page p over the first n results. */
  function SharedPage<T>(grid: Grid<T>, p: nat, n: nat): seq<T> {
    if n == 0 then [] else SharedPage(grid, p, n - 1) + grid(n - 1, p)
  }

  /** Pages 1 to p over the first n results. */
  function SharedWalk<T>(grid: Grid<T>, p: nat, n: nat): seq<T> {
    if p == 0 then [] else SharedWalk(grid, p - 1, n) + SharedPage(grid, p, n)
  }

  /** Pages 1 to p of result i alone. */
  function OwnWalk<T>(grid: Grid<T>, p: nat, i: nat): seq<T> {
    if p == 0 then [] else OwnWalk(grid, p - 1, i) + grid(i, p)
  }

  /** The walks over each of the first n results, one after the other. */
  function OneByOne<T>(grid: Grid<T>, p: nat, n: nat): seq<T> {
    if n == 0 then [] else OneByOne(grid, p, n - 1) + OwnWalk(grid, p, n - 1)
  }

  /** The first n lists, one after the other. */
  function Joined<T>(lists: seq<seq<T>>, n: nat): seq<T>
    requires n <= |lists|
  {
    if n == 0 then [] else Joined(lists, n - 1) + lists[n - 1]
  }

  lemma {:induction false} OneByOneIsJoined<T>(grid: Grid<T>, lists: seq<seq<T>>, p: nat, n: nat)
    requires n <= |lists| && forall i :: 0 <= i < n ==> OwnWalk(grid, p, i) == lists[i]
    ensures OneByOne(grid, p, n) == Joined(lists, n)
  {
    if n > 0 {
      OneByOneIsJoined(grid, lists, p, n - 1);
    }
  }

  /** How often x occurs among the first n of s. */
  function CountTo<T(==)>(s: seq<T>, x: T, n: nat): nat
    requires n <= |s|
  {
    if n == 0 then 0 else CountTo(s, x, n - 1) + if s[n - 1] == x then 1 else 0
  }

  /** How often x occurs in s. */
  function Occurrences<T(==)>(s: seq<T>, x: T): nat {
    CountTo(s, x, |s|)
  }

  lemma {:induction false} CountFront<T>(a: seq<T>, b: seq<T>, x: T, n: nat)
    requires n <= |a|
    ensures CountTo(a + b, x, n) == CountTo(a, x, n)
  {
    if n > 0 {
      CountFront(a, b, x, n - 1);
    }
  }

  lemma {:induction false} CountBack<T>(a: seq<T>, b: seq<T>, x: T, n: nat)
    requires n <= |b|
    ensures CountTo(a + b, x, |a| + n) == CountTo(a, x, |a|) + CountTo(b, x, n)
  {
    if n == 0 {
      CountFront(a, b, x, |a|);
    } else {
      CountBack(a, b, x, n - 1);
    }
  }

  lemma OccurrencesConcat<T>(a: seq<T>, b: seq<T>, x: T)
    ensures Occurrences(a + b, x) == Occurrences(a, x) + Occurrences(b, x)
  {
    CountBack(a, b, x, |b|);
  }

  lemma {:induction false} CountIffIn<T>(s: seq<T>, x: T, n: nat)
    requires n <= |s|
    ensures CountTo(s, x, n) > 0 <==> exists i :: 0 <= i < n && s[i] == x
  {
    if n > 0 {
      CountIffIn(s, x, n - 1);
    }
  }

  lemma OccursIffIn<T>(s: seq<T>, x: T)
    ensures Occurrences(s, x) > 0 <==> x in s
  {
    CountIffIn(s, x, |s|);
  }

  /** Appending to a shuffle of a and b. */
  lemma ShuffleAppend<T>(all: seq<T>, a: seq<T>, b: seq<T>, c: seq<T>, d: seq<T>, x: T)
    requires Occurrences(all, x) == Occurrences(a, x) + Occurrences(b, x)
    ensures Occurrences(all + (c + d), x) == Occurrences(a + c, x) + Occurrences(b + d, x)
  {
    OccurrencesConcat(all, c + d, x);
    OccurrencesConcat(c, d, x);
    OccurrencesConcat(a, c, x);
    OccurrencesConcat(b, d, x);
  }

  /** A walk over several results shuffles together the walks over each. */
  lemma {:induction false} WalkSplits<T>(grid: Grid<T>, p: nat, n: nat, x: T)
    requires 0 < n
    ensures Occurrences(SharedWalk(grid, p, n), x) ==
      Occurrences(SharedWalk(grid, p, n - 1), x) + Occurrences(OwnWalk(grid, p, n - 1), x)
  {
    if p > 0 {
      WalkSplits(grid, p - 1, n, x);
      ShuffleAppend(SharedWalk(grid, p - 1, n), SharedWalk(grid, p - 1, n - 1), OwnWalk(grid, p - 1, n - 1),
                    SharedPage(grid, p, n - 1), grid(n - 1, p), x);
    }
  }

  lemma {:induction false} WalkLengthSplits<T>(grid: Grid<T>, p: nat, n: nat)
    requires 0 < n
    ensures |SharedWalk(grid, p, n)| == |SharedWalk(grid, p, n - 1)| + |OwnWalk(grid, p, n - 1)|
  {
    if p > 0 {
      WalkLengthSplits(grid, p - 1, n);
    }
  }

  lemma {:induction false} WalkOfNone<T>(grid: Grid<T>, p: nat)
    ensures SharedWalk(grid, p, 0) == []
  {
    if p > 0 {
      WalkOfNone(grid, p - 1);
    }
  }

  /** The walk over one more result. */
  lemma OneMoreResult<T>(grid: Grid<T>, p: nat, n: nat, x: T)
    requires 0 < n
    ensures |OneByOne(grid, p, n)| == |OneByOne(grid, p, n - 1)| + |OwnWalk(grid, p, n - 1)|
    ensures Occurrences(OneByOne(grid, p, n), x) == Occurrences(OneByOne(grid, p, n - 1), x) + Occurrences(OwnWalk(grid, p, n - 1), x)
  {
    OccurrencesConcat(OneByOne(grid, p, n - 1), OwnWalk(grid, p, n - 1), x);
  }

  /** Walking the shared pages shows every row exactly as often as walking the results one
      by one, and nothing else. */
  lemma SharedWalkShowsAll<T>(grid: Grid<T>, p: nat, n: nat, x: T)
    ensures |SharedWalk(grid, p, n)| == |OneByOne(grid, p, n)|
    ensures Occurrences(SharedWalk(grid, p, n), x) == Occurrences(OneByOne(grid, p, n), x)
  {
    WalkOfNone(grid, p);
    for k := 0 to n
      invariant |SharedWalk(grid, p, k)| == |OneByOne(grid, p, k)|
      invariant Occurrences(SharedWalk(grid, p, k), x) == Occurrences(OneByOne(grid, p, k), x)
    {
      WalkLengthSplits(grid, p, k + 1);
      WalkSplits(grid, p, k + 1, x);
      OneMoreResult(grid, p, k + 1, x);
    }
  }
}
