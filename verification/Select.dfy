/**
 LwIP/src/api/sockets.c: `lwip_select` against `event_callback`. Every stretch that runs under protection
 is one action; between the actions of one thread any others may happen. Sockets stay open.
 */
module Select {
  import opened Sets

  /** The fields of `struct lwip_sock` that select looks at. */
  datatype Sock = Sock(rcvevent: int, sendevent: bool, errevent: bool, lastdata: bool, waiting: nat)

  /** The three fd sets passed to select, and maxfdp1. */
  datatype Want = Want(read: set<nat>, write: set<nat>, except: set<nat>, max: nat) {
    predicate Has(s: nat) {
      s in read || s in write || s in except
    }
  }

  /** Where a thread in `lwip_select` stands; `hit` tells that the second scan has found something. */
  datatype Phase = Idle | Counting(i: nat) | Scanning(i: nat, hit: bool) | Waiting | Leaving(i: nat)

  /** `struct lwip_select_cb` with its thread; `signals` counts the calls of sys_sem_signal. */
  datatype Waiter = Waiter(phase: Phase, want: Want, signalled: bool, signals: nat)

  /** A callback on its way through the list: the counter it remembers, and the place it has just looked at. */
  datatype Walk = Walk(sock: nat, last: nat, idx: nat)

  datatype World = World(socks: seq<Sock>, waiters: seq<Waiter>, list: seq<nat>, ctr: nat, walks: map<nat, Walk>)

  datatype Event = RcvPlus | RcvMinus | SendPlus | SendMinus | Error

  datatype Action =
    | Enlist(w: nat, want: Want) | CountNext(w: nat) | ScanNext(w: nat) | StopWaiting(w: nat) | LeaveNext(w: nat)
    | Callback(id: nat, s: nat, event: Event) | Resume(id: nat) | KeepData(s: nat, left: bool)

  // ----- what counts as ready

  /** What the callback tests. */
  predicate Match(k: Sock, want: Want, s: nat) {
    (0 < k.rcvevent && s in want.read) || (k.sendevent && s in want.write) || (k.errevent && s in want.except)
  }

  /** What `lwip_selscan` tests: data left over from an earlier read counts, too. */
  predicate Ready(k: Sock, want: Want, s: nat) {
    Match(k, want, s) || (k.lastdata && s in want.read)
  }

  function Happened(k: Sock, e: Event): Sock {
    match e {
      case RcvPlus => k.(rcvevent := k.rcvevent + 1)
      case RcvMinus => k.(rcvevent := k.rcvevent - 1)
      case SendPlus => k.(sendevent := true)
      case SendMinus => k.(sendevent := false)
      case Error => k.(errevent := true)
    }
  }

  // ----- the actions

  predicate Enabled(m: World, a: Action) {
    match a {
      case Enlist(w, want) => w < |m.waiters| && m.waiters[w].phase.Idle? && want.max <= |m.socks|
      case CountNext(w) => w < |m.waiters| && m.waiters[w].phase.Counting? && m.waiters[w].want.max <= |m.socks|
      case ScanNext(w) => w < |m.waiters| && m.waiters[w].phase.Scanning? && m.waiters[w].want.max <= |m.socks|
      case StopWaiting(w) => w < |m.waiters| && m.waiters[w].phase.Waiting?
      case LeaveNext(w) => w < |m.waiters| && m.waiters[w].phase.Leaving? && m.waiters[w].want.max <= |m.socks|
      case Callback(id, s, e) => id !in m.walks && s < |m.socks|
      case Resume(id) => id in m.walks && m.walks[id].sock < |m.socks|
      case KeepData(s, left) => s < |m.socks|
    }
  }

  function SetPhase(m: World, w: nat, p: Phase): World
    requires w < |m.waiters|
  {
    m.(waiters := m.waiters[w := m.waiters[w].(phase := p)])
  }

  function Recount(m: World, s: nat, d: int): World
    requires s < |m.socks|
  {
    var n := m.socks[s].waiting + d;
    m.(socks := m.socks[s := m.socks[s].(waiting := if n < 0 then 0 else n)])
  }

  function Without(list: seq<nat>, w: nat): seq<nat> {
    if list == [] then [] else if list[0] == w then list[1..] else [list[0]] + Without(list[1..], w)
  }

  /** Looks at the list element with index idx: signals it if it wants what the socket has, once. */
  function Look(m: World, id: nat, s: nat, idx: nat): World
    requires s < |m.socks|
  {
    if |m.list| <= idx then m.(walks := m.walks - {id})
    else
      var w := m.list[idx];
      var n := m.(walks := m.walks[id := Walk(s, m.ctr, idx)]);
      if w < |m.waiters| && !m.waiters[w].signalled && Match(m.socks[s], m.waiters[w].want, s)
      then n.(waiters := m.waiters[w := m.waiters[w].(signalled := true, signals := m.waiters[w].signals + 1)])
      else n
  }

  function Act(m: World, a: Action): World
    requires Enabled(m, a)
  {
    match a {
      case Enlist(w, want) =>
        m.(list := [w] + m.list, ctr := m.ctr + 1, waiters := m.waiters[w := Waiter(Counting(0), want, false, 0)])
      case CountNext(w) =>
        var i := m.waiters[w].phase.i;
        if m.waiters[w].want.max <= i then SetPhase(m, w, Scanning(0, false))
        else if m.waiters[w].want.Has(i) then SetPhase(Recount(m, i, 1), w, Counting(i + 1))
        else SetPhase(m, w, Counting(i + 1))
      case ScanNext(w) =>
        var i, hit := m.waiters[w].phase.i, m.waiters[w].phase.hit;
        if m.waiters[w].want.max <= i then SetPhase(m, w, if hit then Leaving(0) else Waiting)
        else SetPhase(m, w, Scanning(i + 1, hit || Ready(m.socks[i], m.waiters[w].want, i)))
      case StopWaiting(w) => SetPhase(m, w, Leaving(0))
      case LeaveNext(w) =>
        var i := m.waiters[w].phase.i;
        if m.waiters[w].want.max <= i then SetPhase(m, w, Idle).(list := Without(m.list, w), ctr := m.ctr + 1)
        else if m.waiters[w].want.Has(i) then SetPhase(Recount(m, i, -1), w, Leaving(i + 1))
        else SetPhase(m, w, Leaving(i + 1))
      case Callback(id, s, e) =>
        var n := m.(socks := m.socks[s := Happened(m.socks[s], e)]);
        if n.socks[s].waiting == 0 then n else Look(n, id, s, 0)
      case Resume(id) =>
        var k := m.walks[id];
        Look(m, id, k.sock, if k.last != m.ctr then 0 else k.idx + 1)
      case KeepData(s, left) => m.(socks := m.socks[s := m.socks[s].(lastdata := left)])
    }
  }

  ghost predicate Runs(m: World, acts: seq<Action>)
    decreases |acts|
  {
    acts != [] ==> Enabled(m, acts[0]) && Runs(Act(m, acts[0]), acts[1..])
  }

  ghost function After(m: World, acts: seq<Action>): World
    requires Runs(m, acts)
    decreases |acts|
  {
    if acts == [] then m else After(Act(m, acts[0]), acts[1..])
  }

  // ----- invariants

  /** The waiter has added itself to the socket's count and not yet taken itself off. */
  predicate Counted(v: Waiter, s: nat) {
    v.want.Has(s) && s < v.want.max
    && match v.phase { case Idle => false case Counting(i) => s < i case Scanning(_, _) => true case Waiting => true
        case Leaving(i) => i <= s }
  }

  ghost function Counters(m: World, s: nat): set<nat> {
    set w: nat | w < |m.waiters| && Counted(m.waiters[w], s)
  }

  /** `select_waiting` is the number of threads counted in. */
  ghost predicate CountOk(m: World, s: nat)
    requires s < |m.socks|
  {
    m.socks[s].waiting == |Counters(m, s)|
  }

  /** Exactly the threads inside select are on the list, once each, and no semaphore is signalled twice. */
  ghost predicate ListOk(m: World) {
    && Distinct(m.list) && (forall w :: w in m.list ==> w < |m.waiters|)
    && (forall w :: 0 <= w < |m.waiters| ==> WaiterOk(m, w))
  }

  ghost predicate Distinct(list: seq<nat>) {
    forall i, j :: 0 <= i < j < |list| ==> list[i] != list[j]
  }

  ghost predicate WaiterOk(m: World, w: nat)
    requires w < |m.waiters|
  {
    var v := m.waiters[w];
    && (w in m.list <==> !v.phase.Idle?)
        && (!v.phase.Idle? ==> v.want.max <= |m.socks| && v.signals == if v.signalled then 1 else 0)
  }

  /** A callback that remembers the current counter stands at an element of the list. */
  ghost predicate WalkOk(m: World, k: Walk) {
    k.sock < |m.socks| && k.last <= m.ctr && (k.last == m.ctr ==> k.idx < |m.list|)
  }

  /** The second scan of the waiter has passed socket s without finding anything on any socket. */
  predicate Passed(v: Waiter, s: nat) {
    v.want.Has(s) && s < v.want.max
        && match v.phase { case Scanning(i, hit) => s < i && !hit case Waiting => true case _ => false }
  }

  /** The callback will still look at the waiter: it stands in front of it, or will start over. */
  ghost predicate Heading(m: World, k: Walk, w: nat, s: nat) {
    k.sock == s && (k.last != m.ctr || exists j :: k.idx < j < |m.list| && m.list[j] == w)
  }

  ghost predicate Covered(m: World, w: nat, s: nat)
    requires w < |m.waiters|
  {
    m.waiters[w].signalled || exists id :: id in m.walks && Heading(m, m.walks[id], w, s)
  }

  /** No wake-up is lost: a matching socket that the scan has passed has signalled, or is about to. */
  ghost predicate NotLost(m: World, w: nat, s: nat)
    requires w < |m.waiters| && s < |m.socks|
  {
    Passed(m.waiters[w], s) && Match(m.socks[s], m.waiters[w].want, s) ==> Covered(m, w, s)
  }

  ghost predicate Inv(m: World) {
    && ListOk(m)
    && (forall s :: 0 <= s < |m.socks| ==> CountOk(m, s))
    && (forall id :: id in m.walks ==> WalkOk(m, m.walks[id]))
    && (forall w, s :: 0 <= w < |m.waiters| && 0 <= s < |m.socks| ==> NotLost(m, w, s))
  }

  // ----- the list and the flags

  lemma {:induction false} WithoutIs(list: seq<nat>, w: nat)
    requires Distinct(list)
    ensures forall x :: x in Without(list, w) <==> x in list && x != w
    ensures Distinct(Without(list, w))
    decreases |list|
  {
    if list != [] {
      WithoutIs(list[1..], w);
      assert forall x :: x in list <==> x == list[0] || x in list[1..];
      var r := Without(list[1..], w);
      if list[0] != w {
        forall j | 0 <= j < |r| ensures list[0] != r[j] {
          assert r[j] in r;
        }
      }
    }
  }

  lemma Added(list: seq<nat>, w: nat)
    requires Distinct(list) && w !in list
    ensures Distinct([w] + list) && forall x :: x in [w] + list <==> x == w || x in list
  {
  }

  /** All waiters but w are as before, and so is their place on the list. */
  lemma ListSame(m: World, n: World, w: nat)
    requires ListOk(m) && |n.waiters| == |m.waiters| && |n.socks| == |m.socks| && Distinct(n.list)
    requires forall x :: x in n.list ==> x < |m.waiters|
    requires forall x :: 0 <= x < |m.waiters| && x != w ==> n.waiters[x] == m.waiters[x]
    requires forall x :: x != w ==> (x in n.list <==> x in m.list)
    requires w < |m.waiters| ==> WaiterOk(n, w)
    ensures ListOk(n)
  {
    forall x | 0 <= x < |n.waiters| ensures WaiterOk(n, x) {
      if x != w {
        assert WaiterOk(m, x);
      }
    }
  }

  /** A step that only moves waiter w along, and perhaps changes a count. */
  lemma ListMoved(m: World, n: World, w: nat)
    requires ListOk(m) && w < |m.waiters| == |n.waiters| && |n.socks| == |m.socks| && n.list == m.list
    requires !m.waiters[w].phase.Idle? && !n.waiters[w].phase.Idle?
    requires n.waiters == m.waiters[w := m.waiters[w].(phase := n.waiters[w].phase)]
    ensures ListOk(n)
  {
    assert WaiterOk(m, w);
    assert WaiterOk(n, w);
    ListSame(m, n, w);
  }

  lemma LookList(m: World, id: nat, s: nat, idx: nat)
    requires ListOk(m) && s < |m.socks|
    ensures ListOk(Look(m, id, s, idx))
  {
    var n := Look(m, id, s, idx);
    forall x | 0 <= x < |n.waiters| ensures WaiterOk(n, x) {
      assert WaiterOk(m, x);
    }
  }

  lemma ListStep(m: World, a: Action)
    requires ListOk(m) && Enabled(m, a)
    ensures ListOk(Act(m, a))
  {
    var n := Act(m, a);
    match a {
      case Enlist(w, want) =>
        assert WaiterOk(m, w);
        Added(m.list, w);
        hide Distinct;
        ListSame(m, n, w);
      case LeaveNext(w) =>
        if m.waiters[w].want.max <= m.waiters[w].phase.i {
          WithoutIs(m.list, w);
          hide Distinct, Without;
          ListSame(m, n, w);
        } else {
          hide ListOk;
          ListMoved(m, n, w);
        }
      case CountNext(w) =>
        hide ListOk;
        ListMoved(m, n, w);
      case ScanNext(w) =>
        hide ListOk;
        ListMoved(m, n, w);
      case StopWaiting(w) =>
        hide ListOk;
        ListMoved(m, n, w);
      case Callback(id, s, e) =>
        var u := m.(socks := m.socks[s := Happened(m.socks[s], e)]);
        ListSame(m, u, |m.waiters|);
        hide ListOk, Look;
        LookList(u, id, s, 0);
      case Resume(id) =>
        hide ListOk, Look;
        LookList(m, id, m.walks[id].sock, if m.walks[id].last != m.ctr then 0 else m.walks[id].idx + 1);
      case KeepData(s, left) =>
        ListSame(m, n, |m.waiters|);
    }
  }

  // ----- the counts

  lemma CountKept(m: World, n: World, s: nat)
    requires s < |m.socks| == |n.socks| && |n.waiters| == |m.waiters| && CountOk(m, s)
        && n.socks[s].waiting == m.socks[s].waiting
    requires forall w :: 0 <= w < |m.waiters| ==> (Counted(n.waiters[w], s) <==> Counted(m.waiters[w], s))
    ensures CountOk(n, s)
  {
    assert Counters(n, s) == Counters(m, s);
  }

  lemma CountMore(m: World, n: World, s: nat, w: nat)
    requires s < |m.socks| == |n.socks| && |n.waiters| == |m.waiters| && CountOk(m, s)
        && n.socks[s].waiting == m.socks[s].waiting + 1
    requires w < |m.waiters| && !Counted(m.waiters[w], s) && Counted(n.waiters[w], s)
    requires forall x :: 0 <= x < |m.waiters| && x != w ==> (Counted(n.waiters[x], s) <==> Counted(m.waiters[x], s))
    ensures CountOk(n, s)
  {
    assert Counters(n, s) == Counters(m, s) + {w};
  }

  lemma CountLess(m: World, n: World, s: nat, w: nat)
    requires s < |m.socks| == |n.socks| && |n.waiters| == |m.waiters| && CountOk(m, s)
    requires n.socks[s].waiting == if m.socks[s].waiting == 0 then 0 else m.socks[s].waiting - 1
    requires w < |m.waiters| && Counted(m.waiters[w], s) && !Counted(n.waiters[w], s)
    requires forall x :: 0 <= x < |m.waiters| && x != w ==> (Counted(n.waiters[x], s) <==> Counted(m.waiters[x], s))
    ensures CountOk(n, s) && 0 < m.socks[s].waiting
  {
    assert w in Counters(m, s);
    assert Counters(n, s) == Counters(m, s) - {w};
  }

  /** A thread that is counted in keeps the count from being 0. */
  lemma CountPositive(m: World, w: nat, s: nat)
    requires s < |m.socks| && w < |m.waiters| && CountOk(m, s) && Counted(m.waiters[w], s)
    ensures 0 < m.socks[s].waiting
  {
    assert w in Counters(m, s);
  }

  lemma {:induction false} Upto(n: nat) returns (s: set<nat>)
    ensures |s| == n && forall x :: x in s <==> 0 <= x < n
    decreases n
  {
    if n == 0 {
      s := {};
    } else {
      s := Upto(n - 1);
      s := s + {n - 1};
    }
  }

  /** The 8-bit counter does not overflow while fewer than 256 threads use select. */
  lemma CountFits(m: World, s: nat)
    requires s < |m.socks| && CountOk(m, s) && |m.waiters| < 256
    ensures m.socks[s].waiting < 256
  {
    var u := Upto(|m.waiters|);
    Subset(Counters(m, s), u);
  }

  lemma CountNextStep(m: World, w: nat, s: nat)
    requires Enabled(m, CountNext(w)) && s < |m.socks| && CountOk(m, s)
    ensures |Act(m, CountNext(w)).socks| == |m.socks| && CountOk(Act(m, CountNext(w)), s)
  {
    hide CountOk;
    var n := Act(m, CountNext(w));
    assert forall x :: 0 <= x < |m.waiters| && x != w ==> n.waiters[x] == m.waiters[x];
    if Counted(n.waiters[w], s) && !Counted(m.waiters[w], s) {
      CountMore(m, n, s, w);
    } else {
      CountKept(m, n, s);
    }
  }

  lemma LeaveNextStep(m: World, w: nat, s: nat)
    requires Enabled(m, LeaveNext(w)) && s < |m.socks| && CountOk(m, s)
    ensures |Act(m, LeaveNext(w)).socks| == |m.socks| && CountOk(Act(m, LeaveNext(w)), s)
  {
    hide CountOk;
    var n := Act(m, LeaveNext(w));
    assert forall x :: 0 <= x < |m.waiters| && x != w ==> n.waiters[x] == m.waiters[x];
    if Counted(m.waiters[w], s) && !Counted(n.waiters[w], s) {
      CountLess(m, n, s, w);
    } else {
      CountKept(m, n, s);
    }
  }

  lemma CountStep(m: World, a: Action, s: nat)
    requires ListOk(m) && Enabled(m, a) && s < |m.socks| && CountOk(m, s)
    ensures |Act(m, a).socks| == |m.socks| && CountOk(Act(m, a), s)
  {
    hide CountOk, ListOk;
    if a.CountNext? {
      CountNextStep(m, a.w, s);
    } else if a.LeaveNext? {
      LeaveNextStep(m, a.w, s);
    } else {
      CountKept(m, Act(m, a), s);
    }
  }

  // ----- the walks

  lemma WalkStep(m: World, a: Action, id: nat)
    requires ListOk(m) && Enabled(m, a) && (forall i :: i in m.walks ==> WalkOk(m, m.walks[i])) && id in Act(m, a).walks
    ensures WalkOk(Act(m, a), Act(m, a).walks[id])
  {
    hide ListOk;
    assert id in m.walks ==> WalkOk(m, m.walks[id]);
  }

  // ----- no lost wake-up

  /** The list is longer or shorter: whoever was on the way starts over. */
  lemma StaleCovers(m: World, n: World, w: nat, s: nat)
    requires w < |m.waiters| == |n.waiters| && Covered(m, w, s) && m.ctr < n.ctr && n.walks == m.walks
        && n.waiters[w].signalled == m.waiters[w].signalled
    requires forall id :: id in m.walks ==> WalkOk(m, m.walks[id])
    ensures Covered(n, w, s)
  {
    if !m.waiters[w].signalled {
      var id :| id in m.walks && Heading(m, m.walks[id], w, s);
      assert Heading(n, n.walks[id], w, s);
    }
  }

  lemma StillCovered(m: World, n: World, w: nat, s: nat)
    requires w < |m.waiters| == |n.waiters| && Covered(m, w, s) && m.ctr == n.ctr && n.walks == m.walks
        && n.list == m.list
    requires n.waiters[w].signalled == m.waiters[w].signalled
    ensures Covered(n, w, s)
  {
    if !m.waiters[w].signalled {
      var id :| id in m.walks && Heading(m, m.walks[id], w, s);
      assert Heading(n, n.walks[id], w, s);
    }
  }

  /** Some callback other than id is on its way to w. */
  ghost predicate CoveredBy(m: World, w: nat, s: nat, id: nat) {
    exists o :: o in m.walks && o != id && Heading(m, m.walks[o], w, s)
  }

  /** A callback that stands in front of w, or at it, covers it. */
  lemma LookAhead(m: World, id: nat, s: nat, idx: nat, w: nat, j: nat)
    requires ListOk(m) && w < |m.waiters| && s < |m.socks| && Match(m.socks[s], m.waiters[w].want, s)
    requires idx <= j < |m.list| && m.list[j] == w
    ensures Covered(Look(m, id, s, idx), w, s)
  {
    var n := Look(m, id, s, idx);
    if idx < j {
      assert n.list[j] == w && Heading(n, n.walks[id], w, s);
    }
  }

  /** Other callbacks stay where they are. */
  lemma LookAside(m: World, id: nat, t: nat, idx: nat, w: nat, s: nat)
    requires ListOk(m) && w < |m.waiters| && s < |m.socks| && t < |m.socks|
        && (m.waiters[w].signalled || CoveredBy(m, w, s, id))
    ensures Covered(Look(m, id, t, idx), w, s)
  {
    if !m.waiters[w].signalled {
      var n := Look(m, id, t, idx);
      var o :| o in m.walks && o != id && Heading(m, m.walks[o], w, s);
      assert n.walks[o] == m.walks[o] && Heading(n, n.walks[o], w, s);
    }
  }

  /** Where a waiter that has passed a scan stands on the list. */
  lemma Place(m: World, w: nat, s: nat) returns (j: nat)
    requires ListOk(m) && w < |m.waiters| && Passed(m.waiters[w], s)
    ensures j < |m.list| && m.list[j] == w && Counted(m.waiters[w], s)
  {
    assert WaiterOk(m, w);
    j :| 0 <= j < |m.list| && m.list[j] == w;
  }

  lemma CallbackKeeps(m: World, id: nat, t: nat, e: Event, w: nat, s: nat)
    requires Inv(m) && Enabled(m, Callback(id, t, e)) && w < |m.waiters| && s < |m.socks|
    requires var n := Act(m, Callback(id, t, e));
        w < |n.waiters| && s < |n.socks| && Passed(n.waiters[w], s) && Match(n.socks[s], n.waiters[w].want, s)
    ensures Covered(Act(m, Callback(id, t, e)), w, s)
  {
    var u := m.(socks := m.socks[t := Happened(m.socks[t], e)]);
    ListSame(m, u, |m.waiters|);
    assert Passed(m.waiters[w], s);
    var j := Place(m, w, s);
    assert CountOk(m, s) && NotLost(m, w, s);
    CountPositive(m, w, s);
    hide ListOk;
    if t == s {
      LookAhead(u, id, s, 0, w, j);
    } else if u.socks[t].waiting == 0 {
      StillCovered(m, u, w, s);
    } else {
      CoveredAside(m, u, w, s, id);
      LookAside(u, id, t, 0, w, s);
    }
  }

  lemma CoveredAside(m: World, u: World, w: nat, s: nat, id: nat)
    requires w < |m.waiters| && Covered(m, w, s) && u.walks == m.walks && u.ctr == m.ctr && u.list == m.list
        && u.waiters == m.waiters
    requires id in m.walks ==> m.walks[id].sock != s
    ensures u.waiters[w].signalled || CoveredBy(u, w, s, id)
  {
    if !m.waiters[w].signalled {
      var o :| o in m.walks && Heading(m, m.walks[o], w, s);
      assert Heading(u, u.walks[o], w, s);
    }
  }

  lemma ResumeKeeps(m: World, id: nat, w: nat, s: nat)
    requires Inv(m) && Enabled(m, Resume(id)) && w < |m.waiters| && s < |m.socks|
    requires Passed(m.waiters[w], s) && Match(m.socks[s], m.waiters[w].want, s)
    ensures Covered(Act(m, Resume(id)), w, s)
  {
    var k := m.walks[id];
    var idx := if k.last != m.ctr then 0 else k.idx + 1;
    var j := Place(m, w, s);
    assert NotLost(m, w, s);
    hide ListOk;
    if m.waiters[w].signalled || CoveredBy(m, w, s, id) {
      LookAside(m, id, k.sock, idx, w, s);
    } else {
      var o :| o in m.walks && Heading(m, m.walks[o], w, s);
      assert o == id && k.sock == s;
      if k.last == m.ctr {
        j :| k.idx < j < |m.list| && m.list[j] == w;
      }
      LookAhead(m, id, s, idx, w, j);
    }
  }

  /** The other actions leave the callbacks where they are, and no scan passes a matching socket. */
  lemma OtherSame(m: World, a: Action, w: nat, s: nat)
    requires Enabled(m, a) && !a.Callback? && !a.Resume? && w < |m.waiters| && s < |m.socks|
    requires var n := Act(m, a);
        w < |n.waiters| && s < |n.socks| && Passed(n.waiters[w], s) && Match(n.socks[s], n.waiters[w].want, s)
    ensures Passed(m.waiters[w], s) && Match(m.socks[s], m.waiters[w].want, s)
    ensures var n := Act(m, a);
        |n.waiters| == |m.waiters| && n.walks == m.walks && n.waiters[w].signalled == m.waiters[w].signalled
    ensures m.ctr <= Act(m, a).ctr && (Act(m, a).ctr == m.ctr ==> Act(m, a).list == m.list)
  {
  }

  /** So they do not take a covering callback away. */
  lemma OtherKeeps(m: World, a: Action, w: nat, s: nat)
    requires Inv(m) && Enabled(m, a) && !a.Callback? && !a.Resume? && w < |m.waiters| && s < |m.socks|
    requires var n := Act(m, a);
        w < |n.waiters| && s < |n.socks| && Passed(n.waiters[w], s) && Match(n.socks[s], n.waiters[w].want, s)
    ensures Covered(Act(m, a), w, s)
  {
    hide ListOk, Covered, Act, Passed, Match;
    var n := Act(m, a);
    OtherSame(m, a, w, s);
    assert NotLost(m, w, s);
    if n.ctr == m.ctr {
      StillCovered(m, n, w, s);
    } else {
      StaleCovers(m, n, w, s);
    }
  }

  lemma NotLostStep(m: World, a: Action, w: nat, s: nat)
    requires Inv(m) && Enabled(m, a) && w < |m.waiters| && s < |m.socks|
    ensures |Act(m, a).waiters| == |m.waiters| && |Act(m, a).socks| == |m.socks| && NotLost(Act(m, a), w, s)
  {
    hide Inv, Covered;
    var n := Act(m, a);
    if Passed(n.waiters[w], s) && Match(n.socks[s], n.waiters[w].want, s) {
      if a.Callback? {
        CallbackKeeps(m, a.id, a.s, a.event, w, s);
      } else if a.Resume? {
        ResumeKeeps(m, a.id, w, s);
      } else {
        OtherKeeps(m, a, w, s);
      }
    }
  }

  // ----- all runs

  lemma InvStep(m: World, a: Action)
    requires Inv(m) && Enabled(m, a)
    ensures Inv(Act(m, a))
  {
    var n := Act(m, a);
    ListStep(m, a);
    SizesKept(m, a);
    hide Act, ListOk;
    forall s | 0 <= s < |n.socks| ensures CountOk(n, s) {
      assert CountOk(m, s);
      CountStep(m, a, s);
    }
    forall id | id in n.walks ensures WalkOk(n, n.walks[id]) {
      WalkStep(m, a, id);
    }
    forall w, s | 0 <= w < |n.waiters| && 0 <= s < |n.socks| ensures NotLost(n, w, s) {
      NotLostStep(m, a, w, s);
    }
  }

  lemma SizesKept(m: World, a: Action)
    requires Enabled(m, a)
    ensures |Act(m, a).waiters| == |m.waiters| && |Act(m, a).socks| == |m.socks|
  {
  }

  lemma {:induction false} InvRuns(m: World, acts: seq<Action>)
    requires Inv(m) && Runs(m, acts)
    ensures Inv(After(m, acts)) && |After(m, acts).waiters| == |m.waiters| && |After(m, acts).socks| == |m.socks|
    decreases |acts|
  {
    if acts != [] {
      hide Inv;
      InvStep(m, acts[0]);
      SizesKept(m, acts[0]);
      InvRuns(Act(m, acts[0]), acts[1..]);
    }
  }

  /** No thread is in select and no callback is under way. */
  ghost predicate AtRest(m: World) {
    m.list == [] && m.walks == map[] && (forall w :: 0 <= w < |m.waiters| ==> m.waiters[w].phase.Idle?)
    && forall s :: 0 <= s < |m.socks| ==> m.socks[s].waiting == 0
  }

  lemma RestInv(m: World)
    requires AtRest(m)
    ensures Inv(m)
  {
    forall w | 0 <= w < |m.waiters| ensures WaiterOk(m, w) {
    }
    forall s | 0 <= s < |m.socks| ensures CountOk(m, s) {
      assert Counters(m, s) == {};
    }
  }

  /**
   No lost wake-up: in every run, once a waiter's second scan has passed a socket, an event that is
   still present when no callback for that socket is under way has signalled the waiter.
   */
  lemma NoLostWakeup(m: World, acts: seq<Action>, w: nat, s: nat)
    requires AtRest(m) && Runs(m, acts) && w < |m.waiters| && s < |m.socks|
    requires var n := After(m, acts); w < |n.waiters| && s < |n.socks| && var v, k := n.waiters[w], n.socks[s];
      && s < v.want.max && (v.phase == Waiting || (v.phase.Scanning? && s < v.phase.i && !v.phase.hit))
      && ((0 < k.rcvevent && s in v.want.read) || (k.sendevent && s in v.want.write)
          || (k.errevent && s in v.want.except))
    requires forall id :: id in After(m, acts).walks ==> After(m, acts).walks[id].sock != s
    ensures After(m, acts).waiters[w].signalled
  {
    RestInv(m);
    InvRuns(m, acts);
    assert NotLost(After(m, acts), w, s);
  }

  /**
   Each waiter is signalled at most once, and the counts are
   exact and fit their 8 bits while fewer than 256 threads wait.
   */
  lemma SignalledOnce(m: World, acts: seq<Action>, w: nat, s: nat)
    requires AtRest(m) && Runs(m, acts) && w < |m.waiters| < 256 && s < |m.socks|
    ensures w < |After(m, acts).waiters| && s < |After(m, acts).socks|
    ensures !After(m, acts).waiters[w].phase.Idle? ==> After(m, acts).waiters[w].signals <= 1
    ensures After(m, acts).socks[s].waiting == |Counters(After(m, acts), s)| < 256
  {
    RestInv(m);
    InvRuns(m, acts);
    assert WaiterOk(After(m, acts), w) && CountOk(After(m, acts), s);
    CountFits(After(m, acts), s);
  }

  // ----- what a scan finds

  /** What the sockets were like when the last scan of waiter w came to them; `so` is what was seen before. */
  ghost function Scanned(m: World, acts: seq<Action>, w: nat, so: seq<Sock>): seq<Sock>
    requires Runs(m, acts)
    decreases |acts|
  {
    if acts == [] then so else Scanned(Act(m, acts[0]), acts[1..], w, ScannedBy(m, acts[0], w, so))
  }

  /** A scan begins with nothing seen, and each of its steps looks at the next socket. */
  ghost function ScannedBy(m: World, a: Action, w: nat, so: seq<Sock>): seq<Sock> {
    if a.Enlist? && a.w == w then []
    else if a == ScanNext(w) && w < |m.waiters| && |so| < m.waiters[w].want.max && |so| < |m.socks|
        then so + [m.socks[|so|]]
    else so
  }

  /** How far the scan is, and whether any of the sockets had something for the waiter. */
  ghost predicate ScanFits(v: Waiter, so: seq<Sock>) {
    match v.phase {
      case Idle => true
      case Counting(_) => so == []
      case Scanning(i, hit) => |so| == i <= v.want.max
          && (hit <==> exists s :: 0 <= s < |so| && Ready(so[s], v.want, s))
      case Waiting => |so| == v.want.max && forall s :: 0 <= s < |so| ==> !Ready(so[s], v.want, s)
      case Leaving(_) => true
    }
  }

  lemma ScanNextFits(m: World, w: nat, so: seq<Sock>)
    requires Enabled(m, ScanNext(w)) && ScanFits(m.waiters[w], so)
    ensures ScanFits(Act(m, ScanNext(w)).waiters[w], ScannedBy(m, ScanNext(w), w, so))
  {
    var i, hit, want := m.waiters[w].phase.i, m.waiters[w].phase.hit, m.waiters[w].want;
    hide Ready;
    if i < want.max {
      var now := so + [m.socks[i]];
      assert now[i] == m.socks[i] && forall s :: 0 <= s < i ==> now[s] == so[s];
    }
  }

  lemma ScanStep(m: World, a: Action, w: nat, so: seq<Sock>)
    requires w < |m.waiters| && Enabled(m, a) && ScanFits(m.waiters[w], so)
    ensures |Act(m, a).waiters| == |m.waiters| && ScanFits(Act(m, a).waiters[w], ScannedBy(m, a, w, so))
  {
    SizesKept(m, a);
    if a == ScanNext(w) {
      ScanNextFits(m, w, so);
    } else {
      hide Ready;
    }
  }

  lemma {:induction false} ScanRuns(m: World, acts: seq<Action>, w: nat, so: seq<Sock>)
    requires w < |m.waiters| && Runs(m, acts) && ScanFits(m.waiters[w], so)
    ensures w < |After(m, acts).waiters| && ScanFits(After(m, acts).waiters[w], Scanned(m, acts, w, so))
    decreases |acts|
  {
    if acts != [] {
      hide Act, ScanFits;
      ScanStep(m, acts[0], w, so);
      ScanRuns(Act(m, acts[0]), acts[1..], w, ScannedBy(m, acts[0], w, so));
    }
  }

  lemma ReadyMeans(k: Sock, want: Want, s: nat)
    ensures Ready(k, want, s) <==>
        ((0 < k.rcvevent || k.lastdata) && s in want.read) || (k.sendevent && s in want.write)
        || (k.errevent && s in want.except)
  {
  }

  /**
   A scan that is through has come to every socket below `max`, once and in order. The thread leaves at once exactly if
   one of them, when the scan came to it, had data to read or left over from an earlier read, room to
   write or an error, and the waiter wanted that; otherwise it waits.
   */
  lemma ScanFinds(m: World, acts: seq<Action>, w: nat)
    requires AtRest(m) && Runs(m, acts) && Enabled(After(m, acts), ScanNext(w))
    requires After(m, acts).waiters[w].want.max <= After(m, acts).waiters[w].phase.i
    ensures w < |m.waiters| && w < |Act(After(m, acts), ScanNext(w)).waiters|
    ensures var seen, want := Scanned(m, acts, w, []), After(m, acts).waiters[w].want;
      var phase := Act(After(m, acts), ScanNext(w)).waiters[w].phase;
      && |seen| == want.max && (phase == Leaving(0) || phase == Waiting)
      && (phase == Leaving(0) <==>
            exists s | 0 <= s < want.max ::
              ((0 < seen[s].rcvevent || seen[s].lastdata) && s in want.read)
              || (seen[s].sendevent && s in want.write) || (seen[s].errevent && s in want.except))
  {
    RestInv(m);
    InvRuns(m, acts);
    ScanRuns(m, acts, w, []);
    var seen, want := Scanned(m, acts, w, []), After(m, acts).waiters[w].want;
    forall s | 0 <= s < |seen|
      ensures Ready(seen[s], want, s) <==> (((0 < seen[s].rcvevent || seen[s].lastdata) && s in want.read)
          || (seen[s].sendevent && s in want.write) || (seen[s].errevent && s in want.except))
    {
      ReadyMeans(seen[s], want, s);
    }
  }

  /** `lwip_selscan`: what it reports of the sockets it has seen, and how much. */
  method SelScan(seen: seq<Sock>, want: Want) returns (nready: nat, read: set<nat>, write: set<nat>, except: set<nat>)
    requires want.max <= |seen|
    ensures forall s :: s in read <==>
        s in want.read && s < want.max && (0 < seen[s].rcvevent || seen[s].lastdata)
    ensures forall s :: s in write <==> s in want.write && s < want.max && seen[s].sendevent
    ensures forall s :: s in except <==> s in want.except && s < want.max && seen[s].errevent
    ensures nready == |read| + |write| + |except|
    ensures 0 < nready <==> exists s: nat :: s < want.max && Ready(seen[s], want, s)
  {
    hide Ready, Match;
    nready, read, write, except := 0, {}, {}, {};
    var i := 0;
    while i < want.max
      invariant i <= want.max && nready == |read| + |write| + |except|
      invariant forall s :: s in read <==> s in want.read && s < i && (0 < seen[s].rcvevent || seen[s].lastdata)
      invariant forall s :: s in write <==> s in want.write && s < i && seen[s].sendevent
      invariant forall s :: s in except <==> s in want.except && s < i && seen[s].errevent
    {
      if want.Has(i) {
        var k := seen[i];
        if i in want.read && (k.lastdata || 0 < k.rcvevent) {
          read, nready := read + {i}, nready + 1;
        }
        if i in want.write && k.sendevent {
          write, nready := write + {i}, nready + 1;
        }
        if i in want.except && k.errevent {
          except, nready := except + {i}, nready + 1;
        }
      }
      i := i + 1;
    }
    SomeReady(seen, want, read, write, except);
  }

  /** Something is reported exactly if some socket is ready. */
  lemma SomeReady(seen: seq<Sock>, want: Want, read: set<nat>, write: set<nat>, except: set<nat>)
    requires want.max <= |seen|
    requires forall s :: s in read <==>
        s in want.read && s < want.max && (0 < seen[s].rcvevent || seen[s].lastdata)
    requires forall s :: s in write <==> s in want.write && s < want.max && seen[s].sendevent
    requires forall s :: s in except <==> s in want.except && s < want.max && seen[s].errevent
    ensures 0 < |read| + |write| + |except| <==> exists s: nat :: s < want.max && Ready(seen[s], want, s)
  {
    if s: nat :| s < want.max && Ready(seen[s], want, s) {
      assert s in read || s in write || s in except;
    }
    if s :| s in read + write + except {
      assert Ready(seen[s], want, s);
    }
  }

  // ----- what wakes a waiter

  /** A waiter is signalled only for something it wants that its socket has at that moment, while it is on the list. */
  lemma SignalMeans(m: World, a: Action, w: nat)
    requires Inv(m) && Enabled(m, a) && w < |m.waiters| && !m.waiters[w].signalled
    requires w < |Act(m, a).waiters| && Act(m, a).waiters[w].signalled
    ensures (a.Callback? || a.Resume?) && !m.waiters[w].phase.Idle?
    ensures var s := if a.Callback? then a.s else m.walks[a.id].sock; var want := m.waiters[w].want;
      s < |Act(m, a).socks| && var k := Act(m, a).socks[s];
      (0 < k.rcvevent && s in want.read) || (k.sendevent && s in want.write) || (k.errevent && s in want.except)
  {
    assert WaiterOk(m, w);
    hide Inv, Distinct;
  }

  /** Whether the semaphore of waiter w was signalled since it last went on the list. */
  ghost function Woken(m: World, acts: seq<Action>, w: nat, was: bool): bool
    requires w < |m.waiters| && Runs(m, acts)
    decreases |acts|
  {
    if acts == [] then was else
      SizesKept(m, acts[0]);
      Woken(Act(m, acts[0]), acts[1..], w, WokenBy(m, acts[0], w, was))
  }

  ghost predicate WokenBy(m: World, a: Action, w: nat, was: bool)
    requires w < |m.waiters| && Enabled(m, a)
  {
    SizesKept(m, a);
    !(a.Enlist? && a.w == w) && (was || m.waiters[w].signals < Act(m, a).waiters[w].signals)
  }

  lemma WokenStep(m: World, a: Action, w: nat, was: bool)
    requires w < |m.waiters| && Enabled(m, a) && (!m.waiters[w].phase.Idle? ==> (m.waiters[w].signalled <==> was))
    requires w in m.list ==> !m.waiters[w].phase.Idle?
    ensures w < |Act(m, a).waiters|
    ensures var v := Act(m, a).waiters[w]; !v.phase.Idle? ==> (v.signalled <==> WokenBy(m, a, w, was))
  {
    SizesKept(m, a);
    hide Match, Happened;
  }

  lemma {:induction false} WokenRuns(m: World, acts: seq<Action>, w: nat, was: bool)
    requires w < |m.waiters| && Inv(m) && Runs(m, acts)
    requires !m.waiters[w].phase.Idle? ==> (m.waiters[w].signalled <==> was)
    ensures w < |After(m, acts).waiters|
    ensures var v := After(m, acts).waiters[w]; !v.phase.Idle? ==> (v.signalled <==> Woken(m, acts, w, was))
    decreases |acts|
  {
    if acts != [] {
      assert WaiterOk(m, w);
      hide Act, Inv, WokenBy;
      InvStep(m, acts[0]);
      SizesKept(m, acts[0]);
      WokenStep(m, acts[0], w, was);
      WokenRuns(Act(m, acts[0]), acts[1..], w, WokenBy(m, acts[0], w, was));
    }
  }

  /** A flag left over from an earlier select does not count: the waiter that is not lost is woken while it waits. */
  lemma WokenInTime(m: World, acts: seq<Action>, w: nat, s: nat)
    requires AtRest(m) && Runs(m, acts) && w < |m.waiters| && s < |m.socks|
    requires var n := After(m, acts); w < |n.waiters| && s < |n.socks| && var v, k := n.waiters[w], n.socks[s];
      && s < v.want.max && (v.phase == Waiting || (v.phase.Scanning? && s < v.phase.i && !v.phase.hit))
      && ((0 < k.rcvevent && s in v.want.read) || (k.sendevent && s in v.want.write)
          || (k.errevent && s in v.want.except))
    requires forall id :: id in After(m, acts).walks ==> After(m, acts).walks[id].sock != s
    ensures Woken(m, acts, w, false)
  {
    NoLostWakeup(m, acts, w, s);
    RestInv(m);
    WokenRuns(m, acts, w, false);
  }

  // ----- what the sockets record

  /** How often an event was reported for the socket. */
  function Count(acts: seq<Action>, s: nat, e: Event): nat {
    if acts == [] then 0 else
      (if acts[0].Callback? && acts[0].s == s && acts[0].event == e then 1 else 0) + Count(acts[1..], s, e)
  }

  /** Whether the socket is writable according to the last report, if there is one. */
  function Writable(acts: seq<Action>, s: nat, was: bool): bool
    decreases |acts|
  {
    if acts == [] then was else
      var a := acts[|acts| - 1];
      if a.Callback? && a.s == s && a.event in {SendPlus, SendMinus} then a.event == SendPlus
      else Writable(acts[..|acts| - 1], s, was)
  }

  lemma {:induction false} WritableFirst(a: Action, acts: seq<Action>, s: nat, was: bool)
    ensures Writable([a] + acts, s, was) == Writable(acts, s, Writable([a], s, was))
    decreases |acts|
  {
    if acts == [] {
      assert [a] + acts == [a];
    } else {
      var all := [a] + acts;
      assert all[..|all| - 1] == [a] + acts[..|acts| - 1] && all[|all| - 1] == acts[|acts| - 1];
      WritableFirst(a, acts[..|acts| - 1], s, was);
    }
  }

  /**
   In every run the socket holds the balance of data arrived and fetched,
   the last report about writing, and any error ever reported.
   */
  lemma {:induction false} EventsRecorded(m: World, acts: seq<Action>, s: nat)
    requires Runs(m, acts) && s < |m.socks|
    ensures s < |After(m, acts).socks|
    ensures var k, k' := m.socks[s], After(m, acts).socks[s];
      && k'.rcvevent == k.rcvevent + Count(acts, s, RcvPlus) - Count(acts, s, RcvMinus)
      && k'.sendevent == Writable(acts, s, k.sendevent)
      && (k'.errevent <==> k.errevent || 0 < Count(acts, s, Error))
    decreases |acts|
  {
    if acts != [] {
      var a := acts[0];
      EventRecorded(m, a, s);
      EventsRecorded(Act(m, a), acts[1..], s);
      WritableFirst(a, acts[1..], s, m.socks[s].sendevent);
      assert acts == [a] + acts[1..];
    }
  }

  lemma EventRecorded(m: World, a: Action, s: nat)
    requires Enabled(m, a) && s < |m.socks|
    ensures s < |Act(m, a).socks|
    ensures var k, k' := m.socks[s], Act(m, a).socks[s];
      && k'.rcvevent == k.rcvevent + Count([a], s, RcvPlus) - Count([a], s, RcvMinus)
      && k'.sendevent == Writable([a], s, k.sendevent)
      && (k'.errevent <==> k.errevent || 0 < Count([a], s, Error))
  {
    SizesKept(m, a);
    assert Count([a][1..], s, RcvPlus) == Count([a][1..], s, RcvMinus) == Count([a][1..], s, Error) == 0;
    assert Writable([a][..0], s, m.socks[s].sendevent) == m.socks[s].sendevent;
  }

  // ----- callbacks end

  /** A callback that is not disturbed by changes of the list comes closer to its end with every step. */
  function Remaining(m: World, id: nat): nat
    requires id in m.walks
  {
    var k := m.walks[id];
    if k.last != m.ctr then |m.list| + 1 else if k.idx < |m.list| then |m.list| - k.idx else 0
  }

  lemma WalkStepEnds(m: World, id: nat)
    requires Inv(m) && Enabled(m, Resume(id))
    ensures id in Act(m, Resume(id)).walks ==> Remaining(Act(m, Resume(id)), id) < Remaining(m, id)
  {
    assert WalkOk(m, m.walks[id]);
  }

  /** The callback is under way all along, and the list does not change. */
  ghost predicate Undisturbed(m: World, acts: seq<Action>, id: nat)
    requires Runs(m, acts)
    decreases |acts|
  {
    id in m.walks && (acts != [] ==> Act(m, acts[0]).ctr == m.ctr && Undisturbed(Act(m, acts[0]), acts[1..], id))
  }

  /** Steps of the callback among the actions. */
  function Steps(acts: seq<Action>, id: nat): nat {
    if acts == [] then 0 else (if acts[0] == Resume(id) then 1 else 0) + Steps(acts[1..], id)
  }

  lemma SameRemaining(m: World, a: Action, id: nat)
    requires ListOk(m) && Enabled(m, a) && a != Resume(id) && id in m.walks && Act(m, a).ctr == m.ctr
    ensures id in Act(m, a).walks && Remaining(Act(m, a), id) == Remaining(m, id)
  {
    hide ListOk;
  }

  /**
   A callback of which the list does not change is gone after at most
   as many of its own steps as remain, whatever happens in between.
   */
  lemma {:induction false} WalksEnd(m: World, acts: seq<Action>, id: nat)
    requires Inv(m) && Runs(m, acts) && Undisturbed(m, acts, id)
    ensures Steps(acts, id) < Remaining(m, id)
    decreases |acts|
  {
    if acts == [] {
      assert WalkOk(m, m.walks[id]);
    } else {
      if acts[0] == Resume(id) {
        WalkStepEnds(m, id);
      } else {
        SameRemaining(m, acts[0], id);
      }
      InvStep(m, acts[0]);
      hide Inv, Act, Remaining;
      WalksEnd(Act(m, acts[0]), acts[1..], id);
    }
  }
}
