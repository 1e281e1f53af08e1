/**
 LwIP/src/core/memp.c: a pool of equal elements on a singly linked free list, and the check that the
 list does not run in a circle.
 */
module Memp {
  import opened Sets

  const NULL: nat := 0

  /** The `next` pointers found in memory. */
  type Links = map<nat, nat>

  function Follow(next: Links, p: nat): nat {
    if p in next then next[p] else NULL
  }

  /** Following k pointers from p; behind the end it stays NULL. */
  function Iter(next: Links, p: nat, k: nat): nat
    decreases k
  {
    if k == 0 then p else if p == NULL then NULL else Iter(next, Follow(next, p), k - 1)
  }

  ghost predicate Acyclic(next: Links, p: nat) {
    exists k: nat :: Iter(next, p, k) == NULL
  }

  lemma {:induction false} IterAdd(next: Links, p: nat, i: nat, j: nat)
    ensures Iter(next, p, i + j) == Iter(next, Iter(next, p, i), j)
    decreases i
  {
    if i == 0 {
    } else if p == NULL {
      NullStays(next, j);
    } else {
      IterAdd(next, Follow(next, p), i - 1, j);
    }
  }

  lemma NullStays(next: Links, k: nat)
    ensures Iter(next, NULL, k) == NULL
  {
  }

  /** Going around a circle any number of times. */
  lemma {:induction false} Around(next: Links, p: nat, i: nat, period: nat, m: nat)
    requires Iter(next, p, i) == Iter(next, p, i + period)
    ensures Iter(next, p, i + m * period) == Iter(next, p, i)
    decreases m
  {
    if 0 < m {
      Around(next, p, i, period, m - 1);
      IterAdd(next, p, i + (m - 1) * period, period);
      IterAdd(next, p, i, period);
      assert i + (m - 1) * period + period == i + m * period;
    }
  }

  /** A walk that comes back to where it was never ends. */
  lemma Circle(next: Links, p: nat, i: nat, period: nat)
    requires 0 < period && Iter(next, p, i) == Iter(next, p, i + period) && Iter(next, p, i) != NULL
    ensures !Acyclic(next, p)
  {
    forall k: nat ensures Iter(next, p, k) != NULL {
      Around(next, p, i, period, k);
      var rest := i + k * period - k;
      assert k <= k * period;
      IterAdd(next, p, k, rest);
      NullStays(next, rest);
    }
  }

  // ----- pigeonhole

  /** The addresses the walk visits in its first n steps. */
  ghost function Visited(next: Links, p: nat, n: nat): set<nat> {
    if n == 0 then {} else Visited(next, p, n - 1) + {Iter(next, p, n - 1)}
  }

  lemma {:induction false} VisitedAt(next: Links, p: nat, n: nat, x: nat) returns (k: nat)
    requires x in Visited(next, p, n)
    ensures k < n && Iter(next, p, k) == x
    decreases n
  {
    if x == Iter(next, p, n - 1) {
      k := n - 1;
    } else {
      k := VisitedAt(next, p, n - 1, x);
    }
  }

  lemma {:induction false} VisitedSize(next: Links, p: nat, n: nat)
    requires forall i, j :: 0 <= i < j < n ==> Iter(next, p, i) != Iter(next, p, j)
    ensures |Visited(next, p, n)| == n
    decreases n
  {
    if 0 < n {
      VisitedSize(next, p, n - 1);
      if Iter(next, p, n - 1) in Visited(next, p, n - 1) {
        var k := VisitedAt(next, p, n - 1, Iter(next, p, n - 1));
      }
    }
  }

  /** A walk longer than memory has ended or repeats itself. */
  lemma Repeats(next: Links, p: nat) returns (i: nat, j: nat)
    ensures i < j && (Iter(next, p, i) == Iter(next, p, j) || Iter(next, p, j) == NULL)
  {
    var n := |next| + 1;
    if forall a, b :: 0 <= a < b < n ==> Iter(next, p, a) != Iter(next, p, b) {
      VisitedSize(next, p, n);
      if Visited(next, p, n) <= next.Keys {
        Subset(Visited(next, p, n), next.Keys);
      } else {
        var x :| x in Visited(next, p, n) && x !in next.Keys;
        i := VisitedAt(next, p, n, x);
        j := i + 1;
        IterAdd(next, p, i, 1);
        assert Iter(next, x, 1) == NULL;
      }
    } else {
      i, j :| 0 <= i < j < n && Iter(next, p, i) == Iter(next, p, j);
    }
  }

  lemma LaterToo(next: Links, p: nat, i: nat, j: nat, d: nat)
    requires Iter(next, p, i) == Iter(next, p, j)
    ensures Iter(next, p, i + d) == Iter(next, p, j + d)
  {
    hide Iter;
    IterAdd(next, p, i, d);
    IterAdd(next, p, j, d);
  }

  /** After some number of rounds the fast pointer is at the end, or the slow one meets it. */
  lemma Meeting(next: Links, p: nat) returns (b: nat)
    ensures Iter(next, p, 2 * b + 1) == NULL || Iter(next, p, b) == Iter(next, p, 2 * b + 1)
  {
    hide Iter;
    var i, j := Repeats(next, p);
    if Iter(next, p, j) == NULL {
      b := j;
      IterAdd(next, p, j, j + 1);
      NullStays(next, j + 1);
    } else {
      var turns: nat := (i + 1) * (j - i);
      assert i < turns;
      Around(next, p, i, j - i, i + 1);
      b := turns - 1;
      LaterToo(next, p, i, i + turns, b - i);
    }
  }

  class Pool {
    /** Head of the free list and the pointers in the elements. */
    var tab: nat
    var next: Links
    ghost const all: set<nat>
    ghost var free: seq<nat>
    ghost var out: set<nat>

    /** The free list holds exactly the elements that are not out, each once. */
    ghost predicate Valid()
      reads this
    {
      && IsList(next, tab, free) && NULL !in all && (forall i, j :: 0 <= i < j < |free| ==> free[i] != free[j])
      && (forall x :: x in free <==> x in all && x !in out) && out <= all
    }

    /** `memp_init_pool`: links the elements one by one. */
    constructor (elements: seq<nat>)
      requires NULL !in elements && forall i, j :: 0 <= i < j < |elements| ==> elements[i] != elements[j]
      ensures Valid() && out == {} && all == (set x | x in elements) && |free| == |elements|
    {
      tab, next, free, out := NULL, map[], [], {};
      all := set x | x in elements;
      new;
      var i := 0;
      while i < |elements|
        invariant i <= |elements| && |free| == i && IsList(next, tab, free) && out == {}
        invariant forall x :: x in free <==> exists k :: 0 <= k < i && elements[k] == x
        invariant forall a, b :: 0 <= a < b < |free| ==> free[a] != free[b]
      {
        Push(next, tab, free, elements[i]);
        next := next[elements[i] := tab];
        tab := elements[i];
        free := [elements[i]] + free;
        i := i + 1;
      }
    }

    /** `memp_sanity`: a slow and a fast pointer. */
    method Sanity() returns (ok: bool)
      ensures ok <==> Acyclic(next, tab)
    {
      var t := tab;
      if t != NULL {
        ghost var k: nat := 0;
        ghost var b := Meeting(next, tab);
        var h := Follow(next, t);
        assert Iter(next, tab, 1) == h;
        while t != NULL && h != NULL
          invariant k <= b && t == Iter(next, tab, k) && h == Iter(next, tab, 2 * k + 1)
          decreases b - k
        {
          if t == h {
            Circle(next, tab, k, k + 1);
            return false;
          }
          assert k != b;
          IterAdd(next, tab, k, 1);
          IterAdd(next, tab, 2 * k + 1, 2);
          t := Follow(next, t);
          h := if Follow(next, h) != NULL then Follow(next, Follow(next, h)) else NULL;
          k := k + 1;
        }
        assert Iter(next, tab, k) == NULL || Iter(next, tab, 2 * k + 1) == NULL;
      } else {
        assert Iter(next, tab, 0) == NULL;
      }
      return true;
    }

    /** `do_memp_malloc_pool`. */
    method Malloc() returns (p: nat)
      requires Valid()
      modifies `tab, `free, `out
      ensures Valid() && (p == NULL <==> old(free) == [])
      ensures p == NULL ==> free == old(free) && out == old(out)
      ensures p != NULL ==> p !in old(out) && out == old(out) + {p} && free == old(free)[1..]
    {
      p := tab;
      if p != NULL {
        assert p in free;
        tab := Follow(next, p);
        out := out + {p};
        free := free[1..];
        assert forall x :: x in old(free) <==> x == p || x in free;
      }
    }

    /** The user of an element may write anything into it. */
    method Scribble(p: nat, v: nat)
      requires Valid() && p in out
      modifies `next
      ensures Valid()
    {
      ListKept(next, tab, free, p, v);
      next := next[p := v];
    }

    /** `do_memp_free_pool`; `sane` is what the sanity assertion tests. */
    method Free(p: nat) returns (sane: bool)
      requires Valid() && p in out
      modifies `tab, `next, `free, `out
      ensures Valid() && sane && out == old(out) - {p} && free == [p] + old(free)
    {
      Push(next, tab, free, p);
      next := next[p := tab];
      tab := p;
      free := [p] + free;
      out := out - {p};
      sane := Sanity();
      ListEnds(next, tab, free);
    }
  }

  /** The free list starting at p is s. */
  ghost predicate IsList(next: Links, p: nat, s: seq<nat>)
    decreases |s|
  {
    if s == [] then p == NULL else p == s[0] && p != NULL && IsList(next, Follow(next, p), s[1..])
  }

  lemma {:induction false} ListKept(next: Links, p: nat, s: seq<nat>, x: nat, v: nat)
    requires IsList(next, p, s) && x !in s
    ensures IsList(next[x := v], p, s)
    decreases |s|
  {
    if s != [] {
      ListKept(next, Follow(next, p), s[1..], x, v);
    }
  }

  lemma Push(next: Links, p: nat, s: seq<nat>, x: nat)
    requires IsList(next, p, s) && x !in s && x != NULL
    ensures IsList(next[x := p], x, [x] + s)
  {
    ListKept(next, p, s, x, p);
    assert ([x] + s)[1..] == s;
  }

  lemma {:induction false} ListEnds(next: Links, p: nat, s: seq<nat>)
    requires IsList(next, p, s)
    ensures Iter(next, p, |s|) == NULL && Acyclic(next, p)
    decreases |s|
  {
    if s != [] {
      ListEnds(next, Follow(next, p), s[1..]);
    }
    assert Iter(next, p, |s|) == NULL;
  }
}
