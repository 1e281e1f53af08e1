/**
 TcpShell/libtelnet.c: the array of option states. An element has two bytes, but growing the array
 copies only as many bytes as it has elements, so half of the elements are lost and replaced by
 whatever the new memory held. Said exactly: when what is looked up is what was stored.
 */
module TelnetStore {
  import opened Bytes
  import opened O = TelnetOption

  const BINARY: byte := 0

  datatype Pair = Pair(us: Q, him: Q)

  /** `telnet_rfc1143_t`, with the two halves of its state byte. */
  datatype Entry = Entry(opt: byte, pair: Pair)

  const UNSET: Pair := Pair(No, No)

  /** An element of zero bytes. */
  const SPARE: Entry := Entry(BINARY, UNSET)

  /** What newly allocated memory holds, by the number of the allocation and the index of the element. */
  type Leftover = (nat, nat) -> Entry

  /** The array, whose length is `q_size`, and how often it has been allocated. */
  datatype Store = Store(q: seq<Entry>, grown: nat)

  const EMPTY: Store := Store([], 0)

  /** The index of the first element for the option. */
  function Find(q: seq<Entry>, opt: byte): (i: nat)
    ensures i <= |q| && (i < |q| ==> q[i].opt == opt) && forall j :: 0 <= j < i ==> q[j].opt != opt
  {
    if q == [] || q[0].opt == opt then 0 else 1 + Find(q[1..], opt)
  }

  /** `_get_rfc1143`. */
  function Held(q: seq<Entry>, opt: byte): Pair {
    var i := Find(q, opt);
    if i < |q| then q[i].pair else UNSET
  }

  /** The new array: the copied half, memory as it was found, and four elements; its length is kept in 8 bits. */
  function Enlarged(left: Leftover, n: nat, q: seq<Entry>, e: Entry): seq<Entry> {
    var half := |q| / 2;
    var all := q[..half] + seq(|q| - half, (i: nat) => left(n, half + i)) + [e, SPARE, SPARE, SPARE];
    all[..(|q| + 4) % 256]
  }

  /** `_set_rfc1143`, but for the flags. */
  function Stored(left: Leftover, s: Store, e: Entry): Store {
    var i := Find(s.q, e.opt);
    if i < |s.q| then s.(q := s.q[i := e]) else Store(Enlarged(left, s.grown, s.q, e), s.grown + 1)
  }

  function Written(left: Leftover, es: seq<Entry>): Store {
    if es == [] then EMPTY else Stored(left, Written(left, es[..|es| - 1]), es[|es| - 1])
  }

  /** What was stored last for the option. */
  function Latest(es: seq<Entry>, o: byte): Pair {
    if es == [] then UNSET
    else if es[|es| - 1].opt == o then es[|es| - 1].pair
    else Latest(es[..|es| - 1], o)
  }

  /** No option but BINARY is stored after the first. */
  predicate OneOption(es: seq<Entry>) {
    forall i :: 0 < i < |es| ==> es[i].opt == es[0].opt || es[i].opt == BINARY
  }

  /** The length is kept in 8 bits: the array with 252 elements that is enlarged once more holds nothing. */
  lemma StoredWraps(left: Leftover, s: Store, e: Entry, o: byte)
    requires |s.q| == 252 && forall i :: 0 <= i < |s.q| ==> s.q[i].opt != e.opt
    ensures Stored(left, s, e).q == [] && Held(Stored(left, s, e).q, o) == UNSET
  {
    assert Find(s.q, e.opt) == 252;
  }

  // ----- before the array grows a second time

  /** Room for the first option and for BINARY. */
  predicate Tidy(q: seq<Entry>) {
    q == [] || (|q| == 4 && q[2] == q[3] == SPARE && q[1].opt == BINARY && (q[0].opt == BINARY ==> q[1] == SPARE))
  }

  /** There is an element for the option, or no array yet. */
  predicate Roomy(q: seq<Entry>, opt: byte) {
    q == [] || opt == q[0].opt || opt == BINARY
  }

  lemma FindIs(q: seq<Entry>, opt: byte, i: nat)
    requires i < |q| && q[i].opt == opt && forall j :: 0 <= j < i ==> q[j].opt != opt
    ensures Find(q, opt) == i
  {
  }

  lemma HeldTidy(q: seq<Entry>, o: byte)
    requires Tidy(q)
    ensures Find(q, o) == if q == [] || q[0].opt == o then 0 else if o == BINARY then 1 else 4
    ensures Held(q, o) == if q == [] then UNSET else if q[0].opt == o then q[0].pair else if o == BINARY then q[1].pair
        else UNSET
  {
    hide Find;
    if q != [] {
      if q[0].opt == o {
        FindIs(q, o, 0);
      } else if o == BINARY {
        FindIs(q, o, 1);
      }
    }
  }

  /** Such a store does what it should, whatever the memory held. */
  lemma StoredTidy(left: Leftover, left': Leftover, s: Store, e: Entry)
    requires Tidy(s.q) && Roomy(s.q, e.opt)
    ensures var s' := Stored(left, s, e);
      && s' == Stored(left', s, e) && Tidy(s'.q) && s'.q != []
      && s'.q[0].opt == (if s.q == [] then e.opt else s.q[0].opt)
      && forall o :: Held(s'.q, o) == if o == e.opt then e.pair else Held(s.q, o)
  {
    hide Find;
    var s' := Stored(left, s, e);
    HeldTidy(s.q, e.opt);
    if s.q == [] {
      assert s'.q == [e, SPARE, SPARE, SPARE] == Stored(left', s, e).q;
    }
    assert Tidy(s'.q);
    forall o ensures Held(s'.q, o) == if o == e.opt then e.pair else Held(s.q, o) {
      HeldTidy(s.q, o);
      HeldTidy(s'.q, o);
    }
  }

  /** A store that finds neither an element nor an empty array is not found again if the memory held its option. */
  lemma StoredLost(left: Leftover, s: Store, e: Entry)
    requires Tidy(s.q) && !Roomy(s.q, e.opt)
    ensures var q := Stored(left, s, e).q;
      |q| == 8 && q[..2] == s.q[..2] && q[2] == left(s.grown, 2) && q[3] == left(s.grown, 3)
      && q[4..] == [e, SPARE, SPARE, SPARE]
      && (q[2].opt == e.opt ==> Held(q, e.opt) == q[2].pair)
  {
    hide Find;
    HeldTidy(s.q, e.opt);
    var q := Stored(left, s, e).q;
    if q[2].opt == e.opt {
      assert q[0] == q[..2][0] && q[1] == q[..2][1];
      FindIs(q, e.opt, 2);
    }
  }

  // ----- when what is looked up is what was stored

  /** After every store, every option is found as it was last stored, whatever new memory held. */
  ghost predicate Faithful(es: seq<Entry>) {
    forall left: Leftover, k: nat, o: byte :: k <= |es| ==> Held(Written(left, es[..k]).q, o) == Latest(es[..k], o)
  }

  lemma {:induction false} WrittenTidy(left: Leftover, left': Leftover, es: seq<Entry>)
    requires OneOption(es)
    ensures var s := Written(left, es);
      s == Written(left', es) && Tidy(s.q) && (if es == [] then s.q == [] else s.q != [] && s.q[0].opt == es[0].opt)
      && forall o :: Held(s.q, o) == Latest(es, o)
    decreases |es|
  {
    if es != [] {
      var init, e := es[..|es| - 1], es[|es| - 1];
      WrittenTidy(left, left', init);
      StoredTidy(left, left', Written(left, init), e);
    }
  }

  /** The first store that breaks the rule. */
  lemma {:induction false} FirstOther(es: seq<Entry>) returns (k: nat)
    requires !OneOption(es)
    ensures 0 < k < |es| && OneOption(es[..k]) && es[k].opt != es[0].opt && es[k].opt != BINARY
    decreases |es|
  {
    var init := es[..|es| - 1];
    if OneOption(init) {
      k := |es| - 1;
    } else {
      k := FirstOther(init);
      assert es[..k] == init[..k];
    }
  }

  /** The array serves as a table of options exactly if no option but BINARY is stored after the first. */
  lemma FaithfulExactly(es: seq<Entry>)
    ensures Faithful(es) <==> OneOption(es)
  {
    if OneOption(es) {
      forall left: Leftover, k: nat, o: byte | k <= |es|
        ensures Held(Written(left, es[..k]).q, o) == Latest(es[..k], o)
      {
        WrittenTidy(left, left, es[..k]);
      }
    } else {
      var k := FirstOther(es);
      var e := es[k];
      var left: Leftover := (n, i) => Entry(e.opt, if e.pair == UNSET then Pair(Yes, Yes) else UNSET);
      WrittenTidy(left, left, es[..k]);
      StoredLost(left, Written(left, es[..k]), e);
      assert es[..k + 1][..k] == es[..k];
      assert Held(Written(left, es[..k + 1]).q, e.opt) != Latest(es[..k + 1], e.opt);
    }
  }

  // ----- how it fails

  /** Once two options are stored, the second can be found in any state. */
  lemma SecondIsAnything(p: Pair, q: Pair, r: Pair)
    ensures exists left: Leftover :: Held(Written(left, [Entry(1, p), Entry(3, q)]).q, 3) == r
  {
    var left: Leftover := (n, i) => Entry(3, r);
    var es := [Entry(1, p), Entry(3, q)];
    WrittenTidy(left, left, es[..1]);
    StoredLost(left, Written(left, es[..1]), es[1]);
    assert Held(Written(left, es).q, 3) == r;
  }

  lemma FirstStored(left: Leftover, e: Entry)
    ensures Stored(left, EMPTY, e) == Store([e, SPARE, SPARE, SPARE], 1)
  {
    assert Enlarged(left, 0, [], e) == [e, SPARE, SPARE, SPARE];
  }

  /** The array with two options. */
  lemma TwoStored(left: Leftover, p: Pair, q: Pair)
    ensures Written(left, [Entry(1, p), Entry(3, q)]) == Store(Row(p, [left(1, 2), left(1, 3)], Entry(3, q)), 2)
  {
    var es := [Entry(1, p), Entry(3, q)];
    assert es[..1] == [Entry(1, p)] && es[..1][..0] == [];
    var s := Written(left, es[..1]);
    WrittenLast(left, es[..1]);
    FirstStored(left, es[0]);
    hide Find, Written;
    StoredLost(left, s, es[1]);
    HeldTidy(s.q, 3);
    var t := Stored(left, s, es[1]);
    assert t.q == t.q[..2] + [t.q[2], t.q[3]] + t.q[4..];
    WrittenLast(left, es);
  }

  lemma WrittenLast(left: Leftover, es: seq<Entry>)
    requires es != []
    ensures Written(left, es) == Stored(left, Written(left, es[..|es| - 1]), es[|es| - 1])
  {
  }

  lemma WrittenThird(left: Leftover, x: Entry, y: Entry, z: Entry)
    ensures Written(left, [x, y, z]) == Stored(left, Written(left, [x, y]), z)
  {
    WrittenLast(left, [x, y, z]);
    assert [x, y, z][..2] == [x, y];
  }

  /** The third option enlarges the array again, which keeps the first four elements. */
  lemma ThirdStored(left: Leftover, t: Store, e: Entry)
    requires |t.q| == 8 && forall j :: 0 <= j < 8 ==> t.q[j].opt != e.opt
    ensures Stored(left, t, e).q == t.q[..4]
        + [left(t.grown, 4), left(t.grown, 5), left(t.grown, 6), left(t.grown, 7)] + [e, SPARE, SPARE, SPARE]
  {
  }

  lemma NotHeld(q: seq<Entry>, o: byte)
    requires forall j :: 0 <= j < |q| ==> q[j].opt != o
    ensures Held(q, o) == UNSET
  {
  }

  lemma HeldAt(q: seq<Entry>, o: byte, i: nat)
    requires i < |q| && q[i].opt == o && forall j :: 0 <= j < i ==> q[j].opt != o
    ensures Held(q, o) == q[i].pair
  {
    FindIs(q, o, i);
  }

  /** An array with option 1 in front, l behind, and then an element for option o and spare ones. */
  function Row(p: Pair, l: seq<Entry>, e: Entry): seq<Entry> {
    [Entry(1, p), SPARE] + l + [e, SPARE, SPARE, SPARE]
  }

  lemma RowHolds(p: Pair, l: seq<Entry>, e: Entry, o: byte)
    requires forall j :: 0 <= j < |l| ==> l[j].opt !in {3, 24}
    requires e.opt in {3, 24} && o in {3, 24} && o != e.opt
    ensures var q := Row(p, l, e);
      && Held(q, 1) == p && Held(q, e.opt) == e.pair && Held(q, o) == UNSET
      && |q| == |l| + 6 && forall j :: 0 <= j < |q| ==> q[j].opt != o
  {
    var q := Row(p, l, e);
    assert forall j :: 0 <= j < |l| ==> q[j + 2] == l[j];
    HeldAt(q, 1, 0);
    HeldAt(q, e.opt, |l| + 2);
    NotHeld(q, o);
  }

  lemma RowGrows(left: Leftover, n: nat, p: Pair, l: seq<Entry>, e: Entry, e': Entry)
    requires |l| == 2 && forall j :: 0 <= j < |Row(p, l, e)| ==> Row(p, l, e)[j].opt != e'.opt
    ensures Stored(left, Store(Row(p, l, e), n), e').q
        == Row(p, l + [left(n, 4), left(n, 5), left(n, 6), left(n, 7)], e')
  {
    ThirdStored(left, Store(Row(p, l, e), n), e');
  }

  /** With a third option it is gone, unless the memory happens to hold its number or the third one's. */
  lemma SecondIsGone(left: Leftover, p: Pair, q: Pair, r: Pair)
    requires forall n, i :: left(n, i).opt !in {3, 24}
    ensures Held(Written(left, [Entry(1, p), Entry(3, q)]).q, 24) == UNSET
    ensures var s := Written(left, [Entry(1, p), Entry(3, q), Entry(24, r)]);
      Held(s.q, 1) == p && Held(s.q, 3) == UNSET && Held(s.q, 24) == r
  {
    hide *;
    var second, third := Entry(3, q), Entry(24, r);
    var l := [left(1, 2), left(1, 3)];
    WrittenThird(left, Entry(1, p), second, third);
    TwoStored(left, p, q);
    RowHolds(p, l, second, 24);
    RowGrows(left, 2, p, l, second, third);
    RowHolds(p, l + [left(2, 4), left(2, 5), left(2, 6), left(2, 7)], third, 3);
  }

  /** A store that finds its element changes nothing else. */
  lemma StoredFound(left: Leftover, s: Store, e: Entry, o: byte)
    requires Held(s.q, e.opt) != UNSET
    ensures Held(Stored(left, s, e).q, o) == if o == e.opt then e.pair else Held(s.q, o)
  {
    hide Find;
    var q := s.q[Find(s.q, e.opt) := e];
    if Find(s.q, o) < |q| {
      FindIs(q, o, Find(s.q, o));
    } else {
      assert forall j :: 0 <= j < |q| ==> q[j].opt != o;
    }
  }
}
