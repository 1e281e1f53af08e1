/**
 LwIP/src/core/pbuf.c: when `pbuf_copy` succeeds. Which chains it refuses depends on the lengths of
 their pbufs alone; c are those of the source and d those of the target, at least as long in all.
 */
module PbufCopy {

  // ----- lengths

  /** Bytes in front of pbuf k. */
  function Before(l: seq<nat>, k: nat): nat
    requires k <= |l|
  {
    if k == 0 then 0 else Before(l, k - 1) + l[k - 1]
  }

  function Total(l: seq<nat>): nat {
    Before(l, |l|)
  }

  /** The least number of pbufs, no more than k, that hold n bytes. */
  function Least(l: seq<nat>, n: nat, k: nat): (r: nat)
    requires k <= |l| && n <= Before(l, k)
    ensures r <= k && n <= Before(l, r) && (0 < r ==> Before(l, r - 1) < n)
  {
    if k == 0 || Before(l, k - 1) < n then k else Least(l, n, k - 1)
  }

  function Until(l: seq<nat>, n: nat): (r: nat)
    requires n <= Total(l)
    ensures r <= |l| && n <= Before(l, r) && (0 < r ==> Before(l, r - 1) < n)
  {
    Least(l, n, |l|)
  }

  /** Number of pbufs up to the last that is not empty. */
  function Used(l: seq<nat>): (r: nat)
    ensures r <= |l| && Before(l, r) >= Total(l) && (0 < r ==> Before(l, r - 1) < Total(l))
  {
    Until(l, Total(l))
  }

  /** Number of empty pbufs at the end. */
  function Empties(l: seq<nat>): nat {
    |l| - Used(l)
  }

  lemma {:induction false} BeforeMono(l: seq<nat>, a: nat, b: nat)
    requires a <= b <= |l|
    ensures Before(l, a) <= Before(l, b)
    decreases b - a
  {
    if a < b {
      BeforeMono(l, a, b - 1);
    }
  }

  /** Fewer pbufs than r hold less than n bytes. */
  lemma UntilIs(l: seq<nat>, n: nat, k: nat)
    requires n <= Total(l) && k <= |l|
    ensures n <= Before(l, k) <==> Until(l, n) <= k
  {
    var r := Until(l, n);
    if k < r {
      BeforeMono(l, k, r - 1);
    } else {
      BeforeMono(l, r, k);
    }
  }

  // ----- what is refused

  /** Pbuf k looks like the last of its packet because only empty ones follow. */
  predicate Tail(l: seq<nat>, k: nat) {
    k + 1 < |l| && Before(l, k + 1) == Total(l)
  }

  lemma TailUsed(l: seq<nat>, k: nat)
    ensures Tail(l, k) <==> k + 1 < |l| && Used(l) <= k + 1
  {
    if k + 1 < |l| {
      BeforeMono(l, k + 1, |l|);
      UntilIs(l, Total(l), k + 1);
    }
  }

  ghost predicate Sized(c: seq<nat>, d: seq<nat>) {
    c != [] && d != [] && Total(c) <= Total(d)
  }

  /** The target's only pbuf is full while the source goes on. */
  predicate RunsOut(c: seq<nat>, d: seq<nat>)
    requires c != [] && d != []
  {
    |d| == 1 && 1 < |c| && c[0] == d[0]
  }

  /** No empty pbuf at the end of the source, or one that is met by chance where the check does not apply. */
  predicate SourcePasses(c: seq<nat>, d: seq<nat>)
    requires c != [] && d != []
  {
    Empties(c) == 0 || |c| == 1 || (|c| == 2 && c[0] <= d[0])
  }

  /** No empty pbuf at the end of the target, or the copy does not come as far as the last pbuf in front of them. */
  predicate TargetPasses(c: seq<nat>, d: seq<nat>)
    requires Sized(c, d)
  {
    || |d| == 1 || Empties(d) == 0
    || (if Used(d) <= 1 then |d| == 2 && c[0] == d[0] else StopsBefore(c, d, Used(d) - 1))
  }

  /** The target's cursor ends in front of pbuf k: empty pbufs of the source each take it past an empty pbuf. */
  predicate StopsBefore(c: seq<nat>, d: seq<nat>, k: nat)
    requires Sized(c, d) && k <= |d|
  {
    Total(c) < Before(d, k) || (Total(c) == Before(d, k) && Until(d, Total(c)) + Empties(c) < k)
  }

  /** The copy succeeds. */
  predicate Accepts(c: seq<nat>, d: seq<nat>)
    requires Sized(c, d)
  {
    !RunsOut(c, d) && SourcePasses(c, d) && TargetPasses(c, d)
  }

  // ----- the run of the loop on lengths

  /** Where the loop stands: source pbuf, offset in it, target pbuf, offset in it, bytes copied. */
  datatype Pos = Pos(j: nat, offC: nat, i: nat, offD: nat, done: nat)

  const START: Pos := Pos(0, 0, 0, 0, 0)

  ghost predicate Stands(l: seq<nat>, k: nat, off: nat, done: nat) {
    k <= |l| && done == Before(l, k) + off && (if k < |l| then off == 0 || off < l[k] else off == 0)
  }

  ghost predicate Ready(c: seq<nat>, d: seq<nat>, p: Pos) {
    Sized(c, d) && p.j < |c| && p.i < |d| && Stands(c, p.j, p.offC, p.done) && Stands(d, p.i, p.offD, p.done)
  }

  /** One round: copies what fits and moves on where a pbuf is finished. */
  function Next(c: seq<nat>, d: seq<nat>, p: Pos): Pos
    requires p.j < |c| && p.i < |d| && p.offC <= c[p.j] && p.offD <= d[p.i]
  {
    var n := if c[p.j] - p.offC <= d[p.i] - p.offD then c[p.j] - p.offC else d[p.i] - p.offD;
    var moveC, moveD := c[p.j] <= p.offC + n, p.offD + n == d[p.i];
    Pos(if moveC then p.j + 1 else p.j, if moveC then 0 else p.offC + n,
        if moveD then p.i + 1 else p.i, if moveD then 0 else p.offD + n, p.done + n)
  }

  lemma NextIs(c: seq<nat>, d: seq<nat>, p: Pos, n: nat)
    requires Heading(c, d, p)
    requires n == if c[p.j] - p.offC <= d[p.i] - p.offD then c[p.j] - p.offC else d[p.i] - p.offD
    ensures p.j < |c| && p.i < |d| && p.offC <= c[p.j] && p.offD <= d[p.i]
    ensures var q := Next(c, d, p); var moveC, moveD := c[p.j] <= p.offC + n, p.offD + n == d[p.i];
      && q.j == (if moveC then p.j + 1 else p.j) && q.offC == (if moveC then 0 else p.offC + n)
      && q.i == (if moveD then p.i + 1 else p.i) && q.offD == (if moveD then 0 else p.offD + n) && q.done == p.done + n
  {
  }

  /** Once all is copied the source is behind its last data, and the target where its cursor has come by then. */
  ghost predicate Settled(c: seq<nat>, d: seq<nat>, p: Pos)
    requires Sized(c, d) && p.i <= |d|
  {
    p.done == Total(c) ==>
      && Used(c) <= p.j
      && (p.offD == 0 ==> p.i <= Until(d, Total(c)) + (p.j - Used(c)))
      && (p.offD == 0 && p.i < Until(d, Total(c)) + (p.j - Used(c)) ==> p.i < |d| && 0 < d[p.i])
  }

  /** What the first round has shown. */
  ghost predicate Begun(c: seq<nat>, d: seq<nat>, p: Pos)
    requires c != [] && d != []
  {
    (p.j == 0 ==> d[0] < c[0]) && (p.i == 0 ==> c[0] < d[0])
  }

  /** No check so far has found a queue. */
  ghost predicate Clean(c: seq<nat>, d: seq<nat>, p: Pos)
    requires c != [] && d != []
  {
    && (forall x :: 1 <= x <= p.j ==> !Tail(c, x)) && (forall x :: 1 <= x <= p.i ==> !Tail(d, x))
    && (d[0] < c[0] ==> !Tail(c, 0)) && (c[0] < d[0] ==> !Tail(d, 0)) && !RunsOut(c, d)
  }

  /** After at least one round that was not refused. */
  ghost predicate Tracks(c: seq<nat>, d: seq<nat>, p: Pos) {
    && Sized(c, d) && Stands(c, p.j, p.offC, p.done) && Stands(d, p.i, p.offD, p.done)
    && Settled(c, d, p) && Begun(c, d, p) && Clean(c, d, p) && (p.j < |c| ==> p.i < |d|)
  }

  /** What holds at the head of the loop. */
  ghost predicate Heading(c: seq<nat>, d: seq<nat>, p: Pos) {
    Ready(c, d, p) && (p == START || Tracks(c, d, p))
  }

  lemma StartReady(c: seq<nat>, d: seq<nat>)
    requires Sized(c, d)
    ensures Heading(c, d, START) && Settled(c, d, START)
  {
  }

  lemma RoundStands(c: seq<nat>, d: seq<nat>, p: Pos)
    requires Ready(c, d, p)
    ensures var q := Next(c, d, p);
        Stands(c, q.j, q.offC, q.done) && Stands(d, q.i, q.offD, q.done) && q.done <= Total(c)
  {
    BeforeMono(c, p.j + 1, |c|);
  }

  /** All is copied: the source is between empty pbufs. */
  lemma RestEmpty(l: seq<nat>, k: nat, off: nat)
    requires Stands(l, k, off, Total(l)) && k < |l|
    ensures off == 0 && l[k] == 0 && Used(l) <= k
  {
    BeforeMono(l, k + 1, |l|);
    UntilIs(l, Total(l), k);
  }

  lemma RoundSettled(c: seq<nat>, d: seq<nat>, p: Pos)
    requires Ready(c, d, p) && Settled(c, d, p)
    ensures Next(c, d, p).i <= |d| && Settled(c, d, Next(c, d, p))
  {
    var q, t := Next(c, d, p), Total(c);
    RoundStands(c, d, p);
    if p.done == t {
      RestEmpty(c, p.j, p.offC);
    } else if q.done == t {
      if q.j < |c| {
        RestEmpty(c, q.j, q.offC);
      }
      UntilIs(c, t, p.j);
      UntilIs(c, t, p.j + 1);
      UntilIs(d, t, p.i);
      UntilIs(d, t, p.i + 1);
    }
  }

  lemma RoundBegun(c: seq<nat>, d: seq<nat>, p: Pos)
    requires Heading(c, d, p)
    ensures Begun(c, d, Next(c, d, p)) && Next(c, d, p) != START
  {
  }

  // ----- the verdicts

  /** The outcome of a round from a head of the loop, with what it is known to satisfy before the checks. */
  ghost predicate Rounded(c: seq<nat>, d: seq<nat>, p: Pos, q: Pos) {
    && Heading(c, d, p) && q == Next(c, d, p) && Stands(c, q.j, q.offC, q.done) && Stands(d, q.i, q.offD, q.done)
    && q.done <= Total(c) && q.i <= |d| && Settled(c, d, q) && Begun(c, d, q) && q != START
  }

  lemma Round(c: seq<nat>, d: seq<nat>, p: Pos)
    requires Heading(c, d, p)
    ensures Rounded(c, d, p, Next(c, d, p))
  {
    if p == START {
      StartReady(c, d);
    }
    RoundStands(c, d, p);
    RoundSettled(c, d, p);
    RoundBegun(c, d, p);
  }

  lemma FirstIn(l: seq<nat>)
    requires l != []
    ensures Before(l, 1) == l[0] <= Total(l)
  {
    BeforeMono(l, 1, |l|);
  }

  /** The source's check refuses. */
  lemma SourceRefused(c: seq<nat>, d: seq<nat>, p: Pos, q: Pos)
    requires Rounded(c, d, p, q) && Tail(c, q.j)
    ensures !SourcePasses(c, d)
  {
    TailUsed(c, q.j);
  }

  /** The target's check refuses. */
  lemma TargetRefused(c: seq<nat>, d: seq<nat>, p: Pos, q: Pos)
    requires Rounded(c, d, p, q) && Tail(d, q.i)
    ensures !TargetPasses(c, d)
  {
    TailUsed(d, q.i);
    if 1 < Used(d) {
      var k := Used(d) - 1;
      BeforeMono(d, k, q.i);
      if Total(c) == Before(d, k) {
        assert q.done == Total(c) && q.offD == 0;
      }
    }
  }

  /** Data was left for the last pbuf of the target: it is its first, or the source's check came earlier. */
  lemma FilledEnds(c: seq<nat>, d: seq<nat>, p: Pos, q: Pos)
    requires Rounded(c, d, p, q) && q.i == |d| && q.j < |c| && 0 < d[p.i]
    ensures p == START && q.j == 1
  {
    RestEmpty(c, q.j, q.offC);
    UntilIs(c, Total(c), p.j);
    TailUsed(c, p.j);
  }

  /** The last pbuf of the target is empty: it is its first, or one of the checks came earlier. */
  lemma EmptyEnds(c: seq<nat>, d: seq<nat>, p: Pos, q: Pos)
    requires Rounded(c, d, p, q) && q.i == |d| && q.j < |c| && d[p.i] == 0
    ensures p == START && q.j == 1
  {
    RestEmpty(c, q.j, q.offC);
    FirstIn(c);
    FirstIn(d);
    if 1 < |d| {
      UntilIs(d, Total(d), |d| - 1);
      TailUsed(d, |d| - 2);
      assert |d| == 2 && c[0] == d[0] == Total(c);
      UntilIs(d, Total(c), 1);
      UntilIs(c, Total(c), 1);
      TailUsed(c, 1);
      assert false;
    }
  }

  /** The only other way to be refused is that the target's only pbuf is full. */
  lemma TargetEnds(c: seq<nat>, d: seq<nat>, p: Pos, q: Pos)
    requires Rounded(c, d, p, q) && q.i == |d| && q.j < |c|
    ensures RunsOut(c, d)
  {
    if 0 < d[p.i] {
      FilledEnds(c, d, p, q);
    } else {
      EmptyEnds(c, d, p, q);
    }
  }

  /** One of the checks refuses. */
  lemma Refused(c: seq<nat>, d: seq<nat>, p: Pos, q: Pos)
    requires Rounded(c, d, p, q) && (q.j < |c| ==> q.i < |d|) && (Tail(c, q.j) || Tail(d, q.i))
    ensures !RunsOut(c, d) && !Accepts(c, d)
  {
    if Tail(c, q.j) {
      SourceRefused(c, d, p, q);
    } else {
      TargetRefused(c, d, p, q);
    }
  }

  /** The loop ends. */
  lemma Ended(c: seq<nat>, d: seq<nat>, q: Pos)
    requires Tracks(c, d, q) && q.j == |c|
    ensures Accepts(c, d)
  {
    assert q.done == Total(c);
    FirstIn(c);
    FirstIn(d);
    EndedSource(c, d, q);
    EndedTarget(c, d, q);
  }

  lemma EndedSource(c: seq<nat>, d: seq<nat>, q: Pos)
    requires Tracks(c, d, q) && q.j == |c|
    ensures SourcePasses(c, d)
  {
    if 0 < Empties(c) && 1 < |c| {
      TailUsed(c, |c| - 2);
      assert !Tail(c, |c| - 2) || |c| == 2;
    }
  }

  lemma EndedTarget(c: seq<nat>, d: seq<nat>, q: Pos)
    requires Tracks(c, d, q) && q.j == |c|
    ensures TargetPasses(c, d)
  {
    FirstIn(c);
    FirstIn(d);
    if 1 < |d| && 0 < Empties(d) {
      if Used(d) <= 1 {
        TailUsed(d, 0);
        TailUsed(d, 1);
      } else {
        var k := Used(d) - 1;
        TailUsed(d, k);
        assert q.i < k;
        BeforeMono(d, q.i + 1, k);
        UntilIs(d, Total(c), q.i);
      }
    }
  }

  /** Neither check refuses and the target has not ended: on to the next round. */
  lemma Passes(c: seq<nat>, d: seq<nat>, p: Pos, q: Pos)
    requires Rounded(c, d, p, q) && !Tail(c, q.j) && !Tail(d, q.i) && (q.j < |c| ==> q.i < |d|)
    ensures Tracks(c, d, q) && (q.j < |c| ==> Heading(c, d, q))
  {
  }

  // ----- what follows for callers

  /** Nothing is refused when neither chain ends in an empty pbuf. */
  lemma NoTailAccepted(c: seq<nat>, d: seq<nat>)
    requires Sized(c, d) && (|c| == 1 || 0 < c[|c| - 1]) && (|d| == 1 || 0 < d[|d| - 1])
    ensures Accepts(c, d)
  {
    FirstIn(c);
    FirstIn(d);
    if 1 < |c| {
      UntilIs(c, Total(c), |c| - 1);
      BeforeMono(c, 1, |c| - 1);
    }
    if |d| == 1 {
      assert Total(d) == d[0];
    } else {
      UntilIs(d, Total(d), |d| - 1);
    }
  }

  /** A source of three or more pbufs that ends in an empty one is never copied. */
  lemma LongTailRefused(c: seq<nat>, d: seq<nat>)
    requires Sized(c, d) && 2 < |c| && c[|c| - 1] == 0
    ensures !Accepts(c, d)
  {
    UntilIs(c, Total(c), |c| - 1);
  }

  /**
   Two copies that are refused although the target is large enough: one byte into a target with two
   empty pbufs behind it, and a source of four bytes and an empty pbuf into two pbufs of two bytes.
   */
  lemma CopyMisleads()
    ensures Sized([1], [1, 0, 0]) && !RunsOut([1], [1, 0, 0]) && !Accepts([1], [1, 0, 0])
    ensures Sized([4, 0], [2, 2]) && !RunsOut([4, 0], [2, 2]) && !Accepts([4, 0], [2, 2])
  {
    var d, c := [1, 0, 0], [4, 0];
    assert Before(d, 1) == 1 && Before(d, 2) == 1 && Total(d) == 1;
    UntilIs(d, 1, 1);
    assert Before(c, 1) == 4 && Total(c) == 4;
    UntilIs(c, 4, 1);
    assert Before([2, 2], 1) == 2;
  }
}
