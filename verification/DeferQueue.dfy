/** The defer queue: a fixed array of slots with a live prefix, kept sorted by
    the time of reception.

  Slots past the live ones are empty or hold what was there before. The search
  is the one the program has: the number compared is read once, from the first
  slot. The library sort is a parameter, any function that orders by time.
*/
module DeferQueue {
  import opened Words
  import opened Wrappers

  datatype Wrapper<P> = Wrapper(num: nat, content: P, ts: nat)

  datatype Store<P> = Store(slots: seq<Option<Wrapper<P>>>, count: nat)

  type Sorter<!P> = seq<Wrapper<P>> -> seq<Wrapper<P>>

  ghost predicate SortedByTime<P>(q: seq<Wrapper<P>>) {
    forall i, j :: 0 <= i < j < |q| ==> q[i].ts <= q[j].ts
  }

  ghost predicate Sorts<P(!new)>(sort: Sorter<P>) {
    forall q :: multiset(sort(q)) == multiset(q) && SortedByTime(sort(q))
  }

  ghost predicate Shaped<P>(s: Store<P>) {
    s.count <= |s.slots| && |s.slots| > 0 && forall i :: 0 <= i < s.count ==> s.slots[i].Some?
  }

  function Live<P>(s: Store<P>): (q: seq<Wrapper<P>>)
    requires Shaped(s)
    ensures |q| == s.count
  {
    seq(s.count, i requires 0 <= i < s.count => s.slots[i].value)
  }

  /** The live elements replaced, the slots behind them left as they are. */
  function WithLive<P>(s: Store<P>, q: seq<Wrapper<P>>): Store<P>
    requires |q| <= |s.slots|
  {
    Store(seq(|s.slots|, i requires 0 <= i < |s.slots| => if i < |q| then Some(q[i]) else s.slots[i]), |q|)
  }

  /** deferqueue_contains. */
  predicate Front<P>(s: Store<P>, num: nat) {
    |s.slots| > 0 && s.slots[0].Some? && s.slots[0].value.num == num
  }

  /** deferqueue_add with room. */
  function Queued<P>(s: Store<P>, w: Wrapper<P>, sort: Sorter<P>): (s2: Store<P>)
    requires Shaped(s) && s.count < |s.slots|
    ensures Shaped(s2)
  {
    var q := sort(Live(s) + [w]);
    if |q| == s.count + 1 then WithLive(s, q) else s
  }

  /** The live elements after the first is taken out: the last takes its place. */
  function FrontReplaced<P>(q: seq<Wrapper<P>>): seq<Wrapper<P>> {
    if |q| <= 1 then [] else [q[|q| - 1]] + q[1..|q| - 1]
  }

  /** deferqueue_remove of the first element. */
  function WithoutFront<P>(s: Store<P>, sort: Sorter<P>): (s2: Store<P>)
    requires Shaped(s) && s.count > 0
    ensures Shaped(s2) && s2.count == s.count - 1
  {
    var q := sort(FrontReplaced(Live(s)));
    if |q| == s.count - 1 then WithLive(s, q) else s.(count := s.count - 1)
  }

  /** The position deferqueue_smallest_seqnr finds: the first of the smallest
      numbers in all slots, live or not. */
  function SmallestSlot<P>(slots: seq<Option<Wrapper<P>>>): (i: nat)
    requires forall k :: 0 <= k < |slots| ==> slots[k].Some?
    ensures |slots| > 0 ==> i < |slots|
  {
    if |slots| <= 1 then 0
    else
      var n := |slots| - 1;
      var i := SmallestSlot(slots[..n]);
      if slots[n].value.num < slots[i].value.num then n else i
  }

  /* ----- what the slots hold ----- */

  lemma SortedIn<P(!new)>(sort: Sorter<P>, q: seq<Wrapper<P>>)
    requires Sorts(sort)
    ensures |sort(q)| == |q| && multiset(sort(q)) == multiset(q)
    ensures forall w :: w in sort(q) <==> w in q
  {
    assert |multiset(sort(q))| == |multiset(q)|;
    forall w ensures w in sort(q) <==> w in q {
      assert w in multiset(sort(q)) <==> w in multiset(q);
    }
  }

  lemma LiveOf<P>(s: Store<P>, q: seq<Wrapper<P>>)
    requires Shaped(s) && |q| <= |s.slots|
    ensures Shaped(WithLive(s, q)) && Live(WithLive(s, q)) == q
  {
  }

  lemma RestWithoutFirst<P>(q: seq<Wrapper<P>>)
    requires |q| > 0
    ensures multiset(FrontReplaced(q)) == multiset(q) - multiset{q[0]} && |FrontReplaced(q)| == |q| - 1
  {
    var n := |q| - 1;
    if n == 0 {
      assert q == [q[0]];
    } else {
      assert q == [q[0]] + q[1..n] + [q[n]];
    }
  }

  lemma WithoutFrontLive<P(!new)>(s: Store<P>, sort: Sorter<P>)
    requires Shaped(s) && s.count > 0 && Sorts(sort)
    ensures multiset(Live(WithoutFront(s, sort))) == multiset(Live(s)) - multiset{Live(s)[0]}
  {
    hide Sorts, WithLive, FrontReplaced;
    RestWithoutFirst(Live(s));
    SortedIn(sort, FrontReplaced(Live(s)));
    LiveOf(s, sort(FrontReplaced(Live(s))));
  }

  lemma QueuedLive<P(!new)>(s: Store<P>, w: Wrapper<P>, sort: Sorter<P>)
    requires Shaped(s) && s.count < |s.slots| && Sorts(sort)
    ensures multiset(Live(Queued(s, w, sort))) == multiset(Live(s)) + multiset{w}
    ensures Queued(s, w, sort).count == s.count + 1
  {
    hide Sorts, WithLive;
    SortedIn(sort, Live(s) + [w]);
    LiveOf(s, sort(Live(s) + [w]));
  }

  /** Replacing the live elements brings nothing else into the slots. */
  lemma WithLiveStores<P>(s: Store<P>, q: seq<Wrapper<P>>, v: Wrapper<P>)
    requires |q| <= |s.slots| && Some(v) in WithLive(s, q).slots
    ensures v in q || Some(v) in s.slots
  {
    var i :| 0 <= i < |s.slots| && WithLive(s, q).slots[i] == Some(v);
    if i < |q| {
      assert q[i] == v;
    }
  }

  lemma LiveStored<P>(s: Store<P>, v: Wrapper<P>)
    requires Shaped(s) && v in Live(s)
    ensures Some(v) in s.slots
  {
    var i :| 0 <= i < s.count && Live(s)[i] == v;
    assert s.slots[i] == Some(v);
  }

  lemma QueuedStores<P(!new)>(s: Store<P>, w: Wrapper<P>, sort: Sorter<P>, v: Wrapper<P>)
    requires Shaped(s) && s.count < |s.slots| && Sorts(sort) && Some(v) in Queued(s, w, sort).slots
    ensures Some(v) in s.slots || v == w
  {
    hide Sorts, WithLive;
    SortedIn(sort, Live(s) + [w]);
    WithLiveStores(s, sort(Live(s) + [w]), v);
    if v in Live(s) {
      LiveStored(s, v);
    }
  }

  lemma WithoutFrontStores<P(!new)>(s: Store<P>, sort: Sorter<P>, v: Wrapper<P>)
    requires Shaped(s) && s.count > 0 && Sorts(sort) && Some(v) in WithoutFront(s, sort).slots
    ensures Some(v) in s.slots
  {
    hide Sorts, WithLive;
    var rest := FrontReplaced(Live(s));
    SortedIn(sort, rest);
    assert |rest| == s.count - 1;
    WithLiveStores(s, sort(rest), v);
    if v in rest {
      assert v in Live(s);
      LiveStored(s, v);
    }
  }

  lemma {:induction false} SmallestIs<P>(slots: seq<Option<Wrapper<P>>>)
    requires |slots| > 0 && forall k :: 0 <= k < |slots| ==> slots[k].Some?
    ensures forall k :: 0 <= k < |slots| ==> slots[SmallestSlot(slots)].value.num <= slots[k].value.num
    decreases |slots|
  {
    if |slots| > 1 {
      SmallestIs(slots[..|slots| - 1]);
    }
  }

  /* ----- the search and its description ----- */

  /** What the header says of a search result: the position of a live element
      numbered num, -1 if there is none. */
  ghost predicate Documented<P>(s: Store<P>, num: nat, index: int)
    requires Shaped(s)
  {
    if index == -1 then forall i :: 0 <= i < s.count ==> s.slots[i].value.num != num
    else 0 <= index < s.count && s.slots[index].value.num == num
  }

  /** The search meets its description exactly when the number is that of the
      first live element or of none, and on an empty queue when the first slot
      holds no leftover with that number. */
  lemma AsWrittenIff<P>(s: Store<P>, num: nat)
    requires Shaped(s)
    ensures Documented(s, num, if Front(s, num) then 0 else -1) <==>
              if s.count == 0 then s.slots[0] == None || s.slots[0].value.num != num
              else s.slots[0].value.num == num || forall i :: 0 <= i < s.count ==> s.slots[i].value.num != num
  {
  }

  /* ----- the object ----- */

  class Queue<!P(!new)> {
    const elements: array<Option<Wrapper<P>>>
    const sort: Sorter<P>
    var count: nat

    /** The slots are in shape and their numbers have 32 bits. */
    ghost predicate Valid()
      reads this, elements
    {
      && Shaped(Now()) && Sorts(sort)
      && forall i :: 0 <= i < elements.Length && elements[i].Some? ==> elements[i].value.num < U32
    }

    ghost function Now(): Store<P>
      reads this, elements
    {
      Store(elements[..], count)
    }

    constructor (nMax: nat, sort: Sorter<P>)
      requires nMax > 0 && Sorts(sort)
      ensures Valid() && Now() == Store(seq(nMax, _ => None), 0) && this.sort == sort && fresh(elements)
    {
      elements := new Option<Wrapper<P>>[nMax](_ => None);
      this.sort := sort;
      count := 0;
      new;
      assert elements[..] == seq(nMax, _ => None);
    }

    /** find_index: the number compared is read once, before the search loop. */
    method FindIndex(num: nat) returns (index: int)
      requires Valid()
      ensures index == if Front(Now(), num) then 0 else -1
    {
      index := 0;
      if elements[index] == None {
        return -1;
      }
      var compared := elements[index].value.num;
      while index < elements.Length && compared != num
        invariant 0 <= index <= elements.Length
        invariant compared == num ==> index == 0
      {
        index := index + 1;
      }
      if index == elements.Length {
        index := -1;
      }
    }

    /** The library sort of the live elements by time of reception. */
    method Sort()
      requires Shaped(Now()) && Sorts(sort)
      modifies elements
      ensures |sort(Live(old(Now())))| == old(count)
      ensures Now() == WithLive(old(Now()), sort(Live(old(Now()))))
    {
      hide Sorts;
      var q := [];
      for i := 0 to count
        invariant q == Live(old(Now()))[..i]
      {
        q := q + [elements[i].value];
      }
      assert q == Live(old(Now()));
      SortedIn(sort, q);
      q := sort(q);
      for i := 0 to count
        invariant forall k :: 0 <= k < i ==> elements[k] == Some(q[k])
        invariant forall k :: i <= k < elements.Length ==> elements[k] == old(elements[k])
      {
        elements[i] := Some(q[i]);
      }
      assert elements[..] == WithLive(old(Now()), q).slots;
    }

    method IsFull() returns (full: bool)
      requires Valid()
      ensures full == (count == elements.Length)
    {
      full := count == elements.Length;
    }

    method Add(num: nat, content: P, ts: nat)
      requires Valid() && num < U32
      modifies this`count, elements
      ensures Valid()
      ensures Now() == if old(count) == elements.Length then old(Now())
                       else Queued(old(Now()), Wrapper(num, content, ts), sort)
    {
      if count == elements.Length {
        return;
      }
      ghost var before := Now();
      ghost var w := Wrapper(num, content, ts);
      elements[count] := Some(Wrapper(num, content, ts));
      count := count + 1;
      assert Live(Now()) == Live(before) + [w];
      hide Sorts;
      SortedIn(sort, Live(before) + [w]);
      Sort();
      assert Now() == WithLive(before, sort(Live(before) + [w]));
      forall i | 0 <= i < elements.Length && elements[i].Some? ensures elements[i].value.num < U32 {
        assert elements[..][i] == elements[i];
        QueuedStores(before, w, sort, elements[i].value);
      }
    }

    /** Removes the element in the first slot if it has the number. */
    method Remove(num: nat)
      requires Valid() && (Front(Now(), num) ==> count > 0)
      modifies this`count, elements
      ensures Valid()
      ensures Now() == if Front(old(Now()), num) then WithoutFront(old(Now()), sort) else old(Now())
    {
      var index := FindIndex(num);
      if index == -1 {
        return;
      }
      ghost var before := Now();
      if index != count - 1 {
        elements[index] := elements[count - 1];
      }
      count := count - 1;
      assert Live(Now()) == FrontReplaced(Live(before));
      hide Sorts;
      SortedIn(sort, FrontReplaced(Live(before)));
      Sort();
      assert Now() == WithLive(before, sort(FrontReplaced(Live(before))));
      forall i | 0 <= i < elements.Length && elements[i].Some? ensures elements[i].value.num < U32 {
        assert elements[..][i] == elements[i];
        WithoutFrontStores(before, sort, elements[i].value);
      }
    }

    method Contains(num: nat) returns (found: bool)
      requires Valid()
      ensures found == Front(Now(), num)
    {
      var index := FindIndex(num);
      found := index != -1;
    }

    method Get(num: nat) returns (result: Option<P>)
      requires Valid()
      ensures result == if Front(Now(), num) then Some(elements[0].value.content) else None
    {
      var index := FindIndex(num);
      if index == -1 {
        return None;
      }
      return Some(elements[index].value.content);
    }

    /** Time of reception, 0 when the search fails. */
    method GetTs(num: nat) returns (ts: nat)
      requires Valid()
      ensures ts == if Front(Now(), num) then elements[0].value.ts else 0
    {
      var index := FindIndex(num);
      if index == -1 {
        return 0;
      }
      return elements[index].value.ts;
    }

    /** The position of the smallest number in all slots; each must have been used. */
    method SmallestSeqnr() returns (index: nat)
      requires Valid() && forall i :: 0 <= i < elements.Length ==> elements[i].Some?
      ensures index < elements.Length && index == SmallestSlot(elements[..])
      ensures forall i :: 0 <= i < elements.Length ==> elements[index].value.num <= elements[i].value.num
    {
      index := 0;
      var smallest := 0xFFFF_FFFF;
      for i := 0 to elements.Length
        invariant i == 0 ==> index == 0 && smallest == 0xFFFF_FFFF
        invariant i > 0 ==> index < i && index == SmallestSlot(elements[..i]) && smallest == elements[index].value.num
      {
        assert elements[..i + 1][..i] == elements[..i];
        if elements[i].value.num < smallest {
          smallest := elements[i].value.num;
          index := i;
        }
      }
      assert elements[..elements.Length] == elements[..];
      SmallestIs(elements[..]);
    }

    method Clear()
      requires Valid()
      modifies this`count
      ensures Valid() && Now() == old(Now()).(count := 0)
    {
      count := 0;
    }
  }
}
