/** The bounded queue of linked elements. */
module Fifo {
  import opened Wrappers

  class Element<T> {
    const data: T
    var next: Element?<T>

    constructor (data: T)
      ensures this.data == data && next == null
    {
      this.data := data;
      next := null;
    }
  }

  class Queue<T> {
    const maxSize: nat
    var size: nat
    var head: Element?<T>
    var tail: Element?<T>
    /** The chain from head to tail. */
    ghost var chain: seq<Element<T>>

    static ghost function Follower(chain: seq<Element<T>>, i: nat): Element?<T> {
      if i + 1 < |chain| then chain[i + 1] else null
    }

    ghost function Repr(): set<object>
      reads this
    {
      set i | 0 <= i < |chain| :: chain[i]
    }

    ghost predicate Valid()
      reads this, Repr()
    {
      && |chain| == size <= maxSize
      && (forall i, j :: 0 <= i < j < |chain| ==> chain[i] != chain[j])
      && (forall i :: 0 <= i < |chain| ==> chain[i].next == Follower(chain, i))
      && head == (if chain == [] then null else chain[0])
      && tail == (if chain == [] then null else chain[|chain| - 1])
    }

    ghost function Contents(): seq<T>
      reads this
    {
      seq(|chain|, i requires 0 <= i < |chain| reads this => chain[i].data)
    }

    constructor (maxSize: nat)
      ensures Valid() && Contents() == [] && this.maxSize == maxSize && chain == []
    {
      this.maxSize := maxSize;
      size, head, tail, chain := 0, null, null, [];
    }

    /** fifo_push: a null element is ignored, a full queue drops it. */
    method Push(element: Option<T>)
      requires Valid()
      modifies this, Repr()
      ensures Valid() && fresh(Repr() - old(Repr()))
      ensures Contents() == if element.Some? && |old(Contents())| < maxSize
                            then old(Contents()) + [element.value] else old(Contents())
    {
      if element == None {
        return;
      }
      if size == maxSize {
        return;
      }
      var newEntry := new Element(element.value);
      if size == 0 {
        head := newEntry;
        tail := head;
      } else {
        tail.next := newEntry;
        tail := newEntry;
      }
      chain := chain + [newEntry];
      size := size + 1;
    }

    /** fifo_pop: the oldest element, null when there is none. */
    method Pop() returns (result: Option<T>)
      requires Valid()
      modifies this
      ensures Valid() && Repr() <= old(Repr())
      ensures if old(Contents()) == [] then result == None && Contents() == []
              else result == Some(old(Contents())[0]) && Contents() == old(Contents())[1..]
    {
      result := None;
      if size > 0 && head != null && tail != null {
        ghost var before := Contents();
        result := Some(head.data);
        DropHead();
        assert Contents() == before[1..];
      }
    }

    method DropHead()
      requires Valid() && size > 0
      modifies this
      ensures Valid() && chain == old(chain)[1..]
      ensures Repr() <= old(Repr())
    {
      hide Contents;
      ghost var was := chain;
      assert was[0].next == Follower(was, 0);
      head := head.next;
      if size == 1 {
        tail := null;
      }
      size := size - 1;
      chain := chain[1..];
      assert forall i :: 0 <= i < |chain| ==> chain[i] == was[i + 1] && was[i + 1] in old(Repr());
      forall i | 0 <= i < |chain| ensures chain[i].next == Follower(chain, i) {
        assert was[i + 1].next == Follower(was, i + 1);
      }
    }

    method GetSize() returns (n: nat)
      requires Valid()
      ensures n == |Contents()|
    {
      n := size;
    }
  }

  /** head and tail are both null exactly when the size is 0. */
  lemma EndsNullIff<T>(q: Queue<T>)
    requires q.Valid()
    ensures q.head == null <==> q.size == 0
    ensures q.tail == null <==> q.size == 0
  {
  }

  /* ----- a run ----- */

  datatype Operation<T> = PushOf(element: Option<T>) | PopOf

  /** The bounded sequence the queue stands for. */
  function After<T>(s: seq<T>, maxSize: nat, ops: seq<Operation<T>>): seq<T>
    decreases |ops|
  {
    if ops == [] then s
    else
      var before := After(s, maxSize, ops[..|ops| - 1]);
      match ops[|ops| - 1]
      case PushOf(e) => if e.Some? && |before| < maxSize then before + [e.value] else before
      case PopOf => if before == [] then before else before[1..]
  }

  /** The elements the queue took in, and those it gave out, in order. */
  function TakenIn<T>(s: seq<T>, maxSize: nat, ops: seq<Operation<T>>): seq<T>
    decreases |ops|
  {
    if ops == [] then []
    else
      var init, op := ops[..|ops| - 1], ops[|ops| - 1];
      var room := |After(s, maxSize, init)| < maxSize;
      TakenIn(s, maxSize, init) + (if op.PushOf? && op.element.Some? && room then [op.element.value] else [])
  }

  function Oldest<T>(s: seq<T>): seq<T> {
    if s == [] then [] else [s[0]]
  }

  function GivenOut<T>(s: seq<T>, maxSize: nat, ops: seq<Operation<T>>): seq<T>
    decreases |ops|
  {
    if ops == [] then []
    else
      var init, op := ops[..|ops| - 1], ops[|ops| - 1];
      GivenOut(s, maxSize, init) + (if op.PopOf? then Oldest(After(s, maxSize, init)) else [])
  }

  /** First in, first out: what was there and what was taken in is what was given
      out and what is still there, in the same order. */
  lemma {:induction false} FirstInFirstOut<T>(s: seq<T>, maxSize: nat, ops: seq<Operation<T>>)
    requires |s| <= maxSize
    ensures s + TakenIn(s, maxSize, ops) == GivenOut(s, maxSize, ops) + After(s, maxSize, ops)
    ensures |After(s, maxSize, ops)| <= maxSize
    decreases |ops|
  {
    if ops == [] {
      assert s + [] == [] + s;
    } else {
      var init, op := ops[..|ops| - 1], ops[|ops| - 1];
      FirstInFirstOut(s, maxSize, init);
      var taken, given, rest := TakenIn(s, maxSize, init), GivenOut(s, maxSize, init), After(s, maxSize, init);
      if op.PushOf? && op.element.Some? && |rest| < maxSize {
        var more := [op.element.value];
        assert s + (taken + more) == (s + taken) + more && given + (rest + more) == (given + rest) + more;
      } else if op.PopOf? && rest != [] {
        assert (given + [rest[0]]) + rest[1..] == given + rest && taken + [] == taken;
      } else {
        assert taken + [] == taken && given + [] == given;
      }
    }
  }

  method Perform<T>(q: Queue<T>, ops: seq<Operation<T>>) returns (given: seq<T>)
    requires q.Valid()
    modifies q, q.Repr()
    ensures q.Valid() && q.Contents() == After(old(q.Contents()), q.maxSize, ops)
    ensures given == GivenOut(old(q.Contents()), q.maxSize, ops)
  {
    given := [];
    for i := 0 to |ops|
      invariant q.Valid() && fresh(q.Repr() - old(q.Repr()))
      invariant q.Contents() == After(old(q.Contents()), q.maxSize, ops[..i])
      invariant given == GivenOut(old(q.Contents()), q.maxSize, ops[..i])
    {
      assert ops[..i + 1][..i] == ops[..i];
      match ops[i] {
        case PushOf(e) => q.Push(e);
        case PopOf =>
          var first := q.Pop();
          given := given + if first.Some? then [first.value] else [];
      }
    }
    assert ops[..|ops|] == ops;
  }
}
