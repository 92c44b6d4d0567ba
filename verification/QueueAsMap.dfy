/** The live elements of a defer queue as a map from number to content. */
module QueueAsMap {
  import opened Words
  import opened Redundancy
  import opened DeferQueue

  /** No two elements with one number, no element twice. */
  ghost predicate Distinct<P>(m: multiset<Wrapper<P>>) {
    && (forall w :: w in m ==> m[w] == 1)
    && (forall v, w :: v in m && w in m && v.num == w.num ==> v == w)
  }

  ghost predicate HasNum<P>(m: multiset<Wrapper<P>>, n: nat) {
    exists w :: w in m && w.num == n
  }

  /** The map q from number to content is what the elements m hold. */
  ghost predicate Represents<P>(q: map<nat, P>, m: multiset<Wrapper<P>>) {
    && (forall n :: n in q <==> HasNum(m, n))
    && (forall w :: w in m ==> w.num in q && q[w.num] == w.content)
  }

  lemma RepresentsAdd<P>(q: map<nat, P>, m: multiset<Wrapper<P>>, w: Wrapper<P>)
    requires Distinct(m) && Represents(q, m) && w.num !in q
    ensures Distinct(m + multiset{w}) && Represents(q[w.num := w.content], m + multiset{w})
  {
    var m2 := m + multiset{w};
    assert w !in m;
    assert forall v :: v in m2 <==> v in m || v == w;
    assert w in m2;
    forall n ensures HasNum(m2, n) <==> HasNum(m, n) || n == w.num {
      if HasNum(m, n) {
        var v :| v in m && v.num == n;
        assert v in m2;
      }
    }
  }

  lemma RepresentsRemove<P>(q: map<nat, P>, m: multiset<Wrapper<P>>, w: Wrapper<P>)
    requires Distinct(m) && Represents(q, m) && w in m
    ensures Distinct(m - multiset{w}) && Represents(q - {w.num}, m - multiset{w})
  {
    var m2 := m - multiset{w};
    assert forall v :: v in m2 <==> v in m && v != w;
    forall n ensures HasNum(m2, n) <==> HasNum(m, n) && n != w.num {
      if HasNum(m, n) && n != w.num {
        var v :| v in m && v.num == n;
        assert v in m2;
      }
    }
  }

  lemma {:induction false} RepresentsSize<P>(q: map<nat, P>, m: multiset<Wrapper<P>>)
    requires Distinct(m) && Represents(q, m)
    ensures |q| == |m|
    decreases |m|
  {
    if m == multiset{} {
      assert forall n :: !HasNum(m, n);
      assert q == map[];
    } else {
      var w :| w in m;
      RepresentsRemove(q, m, w);
      var rest := q - {w.num};
      RepresentsSize(rest, m - multiset{w});
      assert q.Keys == rest.Keys + {w.num};
      assert |q| == |q.Keys| && |rest| == |rest.Keys|;
    }
  }

  ghost predicate Numbered<P>(q: seq<Wrapper<P>>, num: nat) {
    exists w :: w in q && w.num == num
  }

  /** One element numbered num is gone, nothing else changed. */
  ghost predicate Removed<P>(before: seq<Wrapper<P>>, num: nat, after: seq<Wrapper<P>>) {
    exists w :: w in before && w.num == num && multiset(after) == multiset(before) - multiset{w}
  }

  ghost predicate Holds<P>(live: seq<Wrapper<P>>, q: map<nat, P>) {
    && Distinct(multiset(live))
    && Represents(q, multiset(live))
    && (forall w :: w in live ==> w.num < U32)
  }

  lemma HoldsNumber<P>(live: seq<Wrapper<P>>, q: map<nat, P>, num: nat)
    requires Holds(live, q)
    ensures num in q <==> Numbered(live, num)
    ensures forall w :: w in live && w.num == num ==> num in q && q[num] == w.content
    ensures |q| == |live|
  {
    var m := multiset(live);
    RepresentsSize(q, m);
    assert forall w :: w in live <==> w in m;
    assert num in q <==> HasNum(m, num);
  }

  lemma {:induction false} HoldsRemove<P>(live: seq<Wrapper<P>>, q: map<nat, P>, num: nat, after: seq<Wrapper<P>>)
    requires Holds(live, q) && Removed(live, num, after)
    ensures Holds(after, q - {num})
  {
    var w :| w in live && w.num == num && multiset(after) == multiset(live) - multiset{w};
    RepresentsRemove(q, multiset(live), w);
    forall v | v in after ensures v.num < U32 {
      assert v in multiset(after);
    }
  }

  lemma HoldsAdd<P>(live: seq<Wrapper<P>>, q: map<nat, P>, w: Wrapper<P>, after: seq<Wrapper<P>>)
    requires Holds(live, q) && w.num !in q && w.num < U32 && multiset(after) == multiset(live) + multiset{w}
    ensures Holds(after, q[w.num := w.content])
  {
    RepresentsAdd(q, multiset(live), w);
    forall v | v in after ensures v.num < U32 {
      assert v in multiset(after);
    }
  }

  lemma HoldsNothing<P>(q: map<nat, P>)
    requires q == map[]
    ensures Holds([], q)
  {
  }

  lemma DeliverTurn<P>(r: Receiver<P>)
    ensures Deliver(r) == if r.seqRx in r.queue then Deliver(PassQueued(r)) else r
    ensures r.seqRx in r.queue ==> |PassQueued(r).queue| < |r.queue|
  {
    if r.seqRx in r.queue {
      var rest := r.queue - {r.seqRx};
      assert rest.Keys == r.queue.Keys - {r.seqRx};
      assert |rest| == |rest.Keys| && |r.queue| == |r.queue.Keys|;
    }
  }
}
