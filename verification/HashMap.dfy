/** The open-addressing hash map: linear probing over at most eight slots, the
    table doubled when a key finds no place.

  The hash of a key before reduction modulo the table size is any function. A
  table of n slots can be allocated exactly when n is at most a limit.
*/
module HashMap {

  const INITIAL_SIZE := 256
  const MAX_CHAIN_LENGTH := 8

  datatype Slot<K, V> = Unused | Used(key: K, value: V)

  datatype Status<V> = Ok(value: V) | Missing

  datatype PutStatus = PutOk | OutOfMemory

  /* ----- tables ----- */

  /** The slot looked at after d steps. */
  function Probe(home: nat, d: nat, size: nat): (i: nat)
    requires size > 0
    ensures i < size
  {
    if d == 0 then home % size else (Probe(home, d - 1, size) + 1) % size
  }

  /** Every used slot lies within eight probes of its key's home. */
  ghost predicate Reachable<K(!new), V>(s: seq<Slot<K, V>>, hash: K -> nat) {
    forall i :: 0 <= i < |s| && s[i].Used? ==> Near(s, hash, i, s[i].key)
  }

  ghost predicate Near<K(!new), V>(s: seq<Slot<K, V>>, hash: K -> nat, i: int, k: K)
    requires 0 <= i < |s|
  {
    exists d :: 0 <= d < MAX_CHAIN_LENGTH && i == Probe(hash(k), d, |s|)
  }

  ghost predicate Unique<K(!new), V>(s: seq<Slot<K, V>>) {
    forall i, j :: 0 <= i < |s| && 0 <= j < |s| && s[i].Used? && s[j].Used? && s[i].key == s[j].key ==> i == j
  }

  function UsedSlots<K(!new), V>(s: seq<Slot<K, V>>): nat {
    if s == [] then 0 else UsedSlots(s[..|s| - 1]) + if s[|s| - 1].Used? then 1 else 0
  }

  /** The finite map a table stands for. */
  function Entries<K(!new), V>(s: seq<Slot<K, V>>): map<K, V> {
    if s == [] then map[]
    else
      var rest := Entries(s[..|s| - 1]);
      match s[|s| - 1]
      case Unused => rest
      case Used(k, v) => rest[k := v]
  }

  ghost predicate Holds<K(!new), V>(s: seq<Slot<K, V>>, k: K, i: int) {
    0 <= i < |s| && s[i].Used? && s[i].key == k
  }

  lemma {:induction false} EntriesHold<K(!new), V>(s: seq<Slot<K, V>>, k: K)
    ensures k in Entries(s) <==> exists i :: Holds(s, k, i)
    ensures k in Entries(s) ==> exists i :: Holds(s, k, i) && s[i].value == Entries(s)[k]
  {
    if s != [] {
      var n := |s| - 1;
      EntriesHold(s[..n], k);
      if Holds(s, k, n) {
      } else {
        assert k in Entries(s) <==> k in Entries(s[..n]);
        if k in Entries(s) {
          var i :| Holds(s[..n], k, i) && s[..n][i].value == Entries(s[..n])[k];
          assert Holds(s, k, i);
        }
        forall i | Holds(s, k, i) ensures Holds(s[..n], k, i) {
        }
      }
    }
  }

  lemma EntriesAt<K(!new), V>(s: seq<Slot<K, V>>, i: nat)
    requires Unique(s) && i < |s| && s[i].Used?
    ensures s[i].key in Entries(s) && Entries(s)[s[i].key] == s[i].value
  {
    assert Holds(s, s[i].key, i);
    EntriesHold(s, s[i].key);
    var j :| Holds(s, s[i].key, j) && s[j].value == Entries(s)[s[i].key];
    assert j == i;
  }

  /** Two tables with the same used slots, up to place, stand for the same map. */
  lemma EntriesAfterPut<K(!new), V>(s: seq<Slot<K, V>>, i: nat, k: K, v: V)
    requires Unique(s) && i < |s| && s[i].Unused? && k !in Entries(s)
    ensures var t := s[i := Used(k, v)];
            Unique(t) && Entries(t) == Entries(s)[k := v] && UsedSlots(t) == UsedSlots(s) + 1
  {
    hide Entries;
    var t := s[i := Used(k, v)];
    forall j | 0 <= j < |s| && s[j].Used? ensures s[j].key != k {
      EntriesAt(s, j);
    }
    assert Unique(t);
    UsedAfter(s, i, Used(k, v));
    var m := Entries(s)[k := v];
    forall k2 ensures k2 in Entries(t).Keys <==> k2 in m.Keys {
      EntriesHold(s, k2);
      EntriesHold(t, k2);
      if k2 == k {
        assert Holds(t, k, i);
      } else {
        forall j ensures Holds(s, k2, j) <==> Holds(t, k2, j) {}
      }
    }
    forall k2 | k2 in m ensures k2 in Entries(t) && Entries(t)[k2] == m[k2] {
      assert k2 in m.Keys;
      EntriesHold(t, k2);
      var j :| Holds(t, k2, j);
      EntriesAt(t, j);
      if j != i {
        EntriesAt(s, j);
      }
    }
    assert Entries(t).Keys == m.Keys;
    assert Entries(t) == m;
  }

  lemma EntriesAfterRemove<K(!new), V>(s: seq<Slot<K, V>>, i: nat)
    requires Unique(s) && i < |s| && s[i].Used?
    ensures var t := s[i := Unused];
            Unique(t) && Entries(t) == Entries(s) - {s[i].key} && UsedSlots(t) == UsedSlots(s) - 1
  {
    hide Entries;
    var t := s[i := Unused];
    UsedAfter(s, i, Unused);
    var m := Entries(s) - {s[i].key};
    forall k2 ensures k2 in Entries(t).Keys <==> k2 in m.Keys {
      EntriesHold(s, k2);
      EntriesHold(t, k2);
      forall j ensures Holds(t, k2, j) <==> Holds(s, k2, j) && j != i {}
      if k2 in m {
        var j :| Holds(s, k2, j);
        assert Holds(t, k2, j);
      }
    }
    forall k2 | k2 in m ensures k2 in Entries(t) && Entries(t)[k2] == m[k2] {
      assert k2 in m.Keys;
      EntriesHold(t, k2);
      var j :| Holds(t, k2, j);
      EntriesAt(t, j);
      EntriesAt(s, j);
    }
    assert Entries(t).Keys == m.Keys;
    assert Entries(t) == m;
  }

  lemma {:induction false} UsedAfter<K(!new), V>(s: seq<Slot<K, V>>, i: nat, x: Slot<K, V>)
    requires i < |s|
    ensures UsedSlots(s[i := x]) - (if x.Used? then 1 else 0) == UsedSlots(s) - (if s[i].Used? then 1 else 0)
  {
    var n := |s| - 1;
    if i < n {
      UsedAfter(s[..n], i, x);
      assert s[i := x][..n] == s[..n][i := x];
    } else {
      assert s[i := x][..n] == s[..n];
    }
  }

  lemma {:induction false} NothingUsed<K(!new), V>(s: seq<Slot<K, V>>)
    requires forall i :: 0 <= i < |s| ==> s[i].Unused?
    ensures Entries(s) == map[] && UsedSlots(s) == 0
  {
    if s != [] {
      NothingUsed(s[..|s| - 1]);
    }
  }

  lemma NotTwice<K(!new), V>(s: seq<Slot<K, V>>, i: int)
    requires Unique(s) && s != [] && s[|s| - 1].Used?
    ensures !Holds(s[..|s| - 1], s[|s| - 1].key, i)
  {
  }

  /** Number of used slots and number of keys agree. */
  lemma {:induction false} UsedSlotsCount<K(!new), V>(s: seq<Slot<K, V>>)
    requires Unique(s)
    ensures UsedSlots(s) == |Entries(s)|
  {
    if s != [] {
      var n := |s| - 1;
      UsedSlotsCount(s[..n]);
      if s[n].Used? {
        EntriesHold(s[..n], s[n].key);
        forall i ensures !Holds(s[..n], s[n].key, i) {
          NotTwice(s, i);
        }
        assert Entries(s).Keys == Entries(s[..n]).Keys + {s[n].key};
        assert |Entries(s).Keys| == |Entries(s)| && |Entries(s[..n]).Keys| == |Entries(s[..n])|;
      }
    }
  }

  /** Every table state between operations. */
  ghost predicate Sound<K(!new), V>(s: seq<Slot<K, V>>, size: nat, hash: K -> nat) {
    Reachable(s, hash) && Unique(s) && size == UsedSlots(s)
  }

  /** Storing under a key keeps the table sound exactly when the key was absent:
      otherwise the count is off or the key is there twice. */
  lemma {:induction false} StoreSoundIff<K(!new), V>(s: seq<Slot<K, V>>, size: nat, hash: K -> nat, i: nat, k: K, v: V)
    requires Sound(s, size, hash) && i < |s| && Near(s, hash, i, k)
    requires s[i].Unused? || s[i].key == k
    ensures Sound(s[i := Used(k, v)], size + 1, hash) <==> k !in Entries(s)
  {
    var t := s[i := Used(k, v)];
    UsedAfter(s, i, Used(k, v));
    EntriesHold(s, k);
    if k in Entries(s) {
      var j :| Holds(s, k, j);
      if j != i {
        assert t[j].Used? && t[j].key == k && t[i].key == k;
      }
    } else {
      assert !Holds(s, k, i);
      EntriesAfterPut(s, i, k, v);
      forall j | 0 <= j < |t| && t[j].Used? ensures Near(t, hash, j, t[j].key) {
        if j != i {
          assert Near(s, hash, j, s[j].key);
        }
      }
    }
  }

  lemma RemoveSound<K(!new), V>(s: seq<Slot<K, V>>, size: nat, hash: K -> nat, i: nat)
    requires Sound(s, size, hash) && i < |s| && s[i].Used?
    ensures size > 0 && Sound(s[i := Unused], size - 1, hash)
  {
    var t := s[i := Unused];
    EntriesAfterRemove(s, i);
    forall j | 0 <= j < |t| && t[j].Used? ensures Near(t, hash, j, t[j].key) {
      assert Near(s, hash, j, s[j].key);
    }
  }

  /* ----- the program ----- */

  class Map<K(==,!new), V> {
    const hash: K -> nat
    const limit: nat
    var tableSize: nat
    var size: nat
    var data: array<Slot<K, V>>

    ghost predicate Valid()
      reads this, data
    {
      data.Length == tableSize && tableSize > 0 && Sound(data[..], size, hash)
    }

    ghost function Contents(): map<K, V>
      reads this, data
    {
      Entries(data[..])
    }

    constructor (hash: K -> nat, limit: nat)
      ensures Valid() && Contents() == map[] && fresh(data)
      ensures this.hash == hash && this.limit == limit
    {
      this.hash, this.limit := hash, limit;
      tableSize, size := INITIAL_SIZE, 0;
      data := new Slot<K, V>[INITIAL_SIZE](_ => Unused);
      new;
      NothingUsed(data[..]);
    }

    /** hashmap_hash: where key may be stored, -1 when there is no place. */
    method Hash(key: K) returns (index: int)
      requires Valid()
      ensures -1 <= index < tableSize
      ensures index >= 0 ==> Near(data[..], hash, index, key) && (data[index].Unused? || data[index].key == key)
    {
      if size >= tableSize / 2 {
        return -1;
      }
      var curr := hash(key) % tableSize;
      for i := 0 to MAX_CHAIN_LENGTH
        invariant curr == Probe(hash(key), i, tableSize)
      {
        if data[curr].Unused? || data[curr].key == key {
          return curr;
        }
        curr := (curr + 1) % tableSize;
      }
      return -1;
    }

    /** What is left to grow: the measure of the mutual recursion. */
    ghost function Room(): nat
      reads this
    {
      if tableSize <= limit then limit - tableSize else 0
    }

    /** hashmap_put. */
    method Put(key: K, value: V) returns (status: PutStatus)
      requires Valid()
      modifies this`tableSize, this`size, this`data, data
      ensures data == old(data) || fresh(data)
      ensures tableSize >= old(tableSize)
      ensures old(tableSize) <= limit ==> tableSize <= limit
      ensures status == PutOk && key !in old(Contents()) ==> Valid() && Contents() == old(Contents())[key := value]
      ensures status == PutOk && key in old(Contents()) ==> !Valid()
      ensures status == OutOfMemory ==> Valid() && Submap(Contents(), old(Contents()))
      decreases Room(), 1
    {
      ghost var before := Contents();
      var index := Hash(key);
      while index == -1
        invariant Valid() && Contents() == before && -1 <= index < tableSize && tableSize >= old(tableSize)
        invariant data == old(data) || fresh(data)
        invariant old(tableSize) <= limit ==> tableSize <= limit
        invariant index >= 0 ==> Near(data[..], hash, index, key) && (data[index].Unused? || data[index].key == key)
        decreases Room(), if index == -1 then 1 else 0
      {
        var done := Rehash();
        if done == OutOfMemory {
          return OutOfMemory;
        }
        index := Hash(key);
      }
      ghost var s := data[..];
      StoreSoundIff(s, size, hash, index, key, value);
      if key !in Entries(s) {
        EntriesHold(s, key);
        assert !Holds(s, key, index);
        EntriesAfterPut(s, index, key, value);
      }
      data[index] := Used(key, value);
      assert data[..] == s[index := Used(key, value)];
      size := size + 1;
      return PutOk;
    }

    /** hashmap_rehash: the contents stay, unless memory runs out on the way. */
    method Rehash() returns (status: PutStatus)
      requires Valid()
      modifies this`tableSize, this`size, this`data, data
      ensures Valid() && (data == old(data) || fresh(data))
      ensures status == PutOk ==> Contents() == old(Contents()) && old(tableSize) < tableSize <= limit
      ensures status == OutOfMemory ==> Submap(Contents(), old(Contents()))
      ensures old(tableSize) <= limit ==> tableSize <= limit
      ensures old(2 * tableSize) > limit ==> Contents() == old(Contents()) && status == OutOfMemory
      ensures tableSize >= old(tableSize)
      decreases Room(), 0
    {
      if 2 * tableSize > limit {
        return OutOfMemory;
      }
      var curr := data;
      NewTable();
      status := Refill(curr);
    }

    /** An empty table of twice the size. */
    method NewTable()
      requires Valid() && 2 * tableSize <= limit
      modifies this`tableSize, this`size, this`data
      ensures Valid() && fresh(data) && Contents() == map[] && tableSize == 2 * old(tableSize)
    {
      data := new Slot<K, V>[2 * tableSize](_ => Unused);
      tableSize := 2 * tableSize;
      size := 0;
      NothingUsed(data[..]);
    }

    /** Puts the elements of the old table into the new one. */
    method Refill(curr: array<Slot<K, V>>)
      returns (status: PutStatus)
      requires Valid() && Contents() == map[] && curr != data && Unique(curr[..]) && tableSize <= limit
      modifies this`tableSize, this`size, this`data, data
      ensures Valid() && (data == old(data) || fresh(data))
      ensures status == PutOk ==> Contents() == Entries(old(curr[..]))
      ensures Submap(Contents(), Entries(old(curr[..])))
      ensures old(tableSize) <= tableSize <= limit
      decreases Room(), 2
    {
      ghost var was := curr[..];
      NothingUsed(was[..0]);
      hide Sound, Entries, Near, Reachable;
      for i := 0 to curr.Length
        invariant Valid() && (data == old(data) || fresh(data)) && curr[..] == was
        invariant old(tableSize) <= tableSize <= limit
        invariant Contents() == Entries(was[..i])
      {
        EntriesNext(was, i);
        if curr[i].Used? {
          AbsentBefore(was, i);
          status := Put(curr[i].key, curr[i].value);
          PrefixSubmap(was, i);
          if status != PutOk {
            return status;
          }
        }
      }
      assert was[..curr.Length] == was;
      return PutOk;
    }

    /** hashmap_get. */
    method Get(key: K) returns (result: Status<V>)
      requires Valid()
      ensures result == if key in Contents() then Ok(Contents()[key]) else Missing
    {
      ghost var s := data[..];
      var curr := hash(key) % tableSize;
      for i := 0 to MAX_CHAIN_LENGTH
        invariant curr == Probe(hash(key), i, tableSize)
        invariant forall d :: 0 <= d < i ==> !Holds(s, key, Probe(hash(key), d, tableSize))
      {
        if data[curr].Used? && data[curr].key == key {
          EntriesAt(s, curr);
          return Ok(data[curr].value);
        }
        curr := (curr + 1) % tableSize;
      }
      NotHeld(s, hash, key);
      return Missing;
    }

    /** hashmap_remove. */
    method Remove(key: K) returns (removed: bool)
      requires Valid()
      modifies this`size, data
      ensures Valid() && removed == (key in old(Contents()))
      ensures Contents() == old(Contents()) - {key}
    {
      ghost var s := data[..];
      var curr := hash(key) % tableSize;
      for i := 0 to MAX_CHAIN_LENGTH
        invariant curr == Probe(hash(key), i, tableSize) && data[..] == s && size == old(size)
        invariant forall d :: 0 <= d < i ==> !Holds(s, key, Probe(hash(key), d, tableSize))
      {
        if data[curr].Used? && data[curr].key == key {
          EntriesAt(s, curr);
          RemoveSound(s, size, hash, curr);
          EntriesAfterRemove(s, curr);
          data[curr] := Unused;
          assert data[..] == s[curr := Unused];
          size := size - 1;
          return true;
        }
        curr := (curr + 1) % tableSize;
      }
      NotHeld(s, hash, key);
      return false;
    }

    /** hashmap_length. */
    method Length() returns (length: nat)
      requires Valid()
      ensures length == |Contents()|
    {
      UsedSlotsCount(data[..]);
      length := size;
    }

    /** The guarded insert of scils_register_sci_name. */
    method Register(key: K, value: V) returns (status: PutStatus)
      requires Valid()
      modifies this`tableSize, this`size, this`data, data
      ensures Valid() && (data == old(data) || fresh(data))
      ensures status == PutOk ==>
                Contents() == if key in old(Contents()) then old(Contents()) else old(Contents())[key := value]
      ensures status == OutOfMemory ==> Submap(Contents(), old(Contents()))
    {
      var known := Get(key);
      if known != Missing {
        return PutOk;
      }
      status := Put(key, value);
    }
  }

  ghost predicate Submap<K(!new), V>(a: map<K, V>, b: map<K, V>) {
    forall k :: k in a ==> k in b && a[k] == b[k]
  }

  /** A key that no probe finds is not in the table. */
  lemma NotHeld<K(!new), V>(s: seq<Slot<K, V>>, hash: K -> nat, k: K)
    requires |s| > 0 && Reachable(s, hash)
    requires forall d :: 0 <= d < MAX_CHAIN_LENGTH ==> !Holds(s, k, Probe(hash(k), d, |s|))
    ensures k !in Entries(s)
  {
    EntriesHold(s, k);
    forall i | 0 <= i < |s| && s[i].Used? ensures s[i].key != k {
      assert Near(s, hash, i, s[i].key);
      var d :| 0 <= d < MAX_CHAIN_LENGTH && i == Probe(hash(s[i].key), d, |s|);
    }
  }

  lemma EntriesNext<K(!new), V>(s: seq<Slot<K, V>>, i: nat)
    requires i < |s|
    ensures Entries(s[..i + 1]) == if s[i].Used? then Entries(s[..i])[s[i].key := s[i].value] else Entries(s[..i])
  {
    assert s[..i + 1][..i] == s[..i];
  }

  lemma UniquePrefix<K(!new), V>(s: seq<Slot<K, V>>, i: nat)
    requires Unique(s) && i <= |s|
    ensures Unique(s[..i])
  {
  }

  lemma AbsentBefore<K(!new), V>(s: seq<Slot<K, V>>, i: nat)
    requires Unique(s) && i < |s| && s[i].Used?
    ensures s[i].key !in Entries(s[..i])
  {
    EntriesHold(s[..i], s[i].key);
    UniquePrefix(s, i + 1);
    forall j ensures !Holds(s[..i], s[i].key, j) {
    }
  }

  lemma PrefixSubmap<K(!new), V>(s: seq<Slot<K, V>>, i: nat)
    requires Unique(s) && i <= |s|
    ensures Submap(Entries(s[..i]), Entries(s))
  {
    UniquePrefix(s, i);
    forall k | k in Entries(s[..i]) ensures k in Entries(s) && Entries(s[..i])[k] == Entries(s)[k] {
      EntriesHold(s[..i], k);
      var j :| Holds(s[..i], k, j);
      EntriesAt(s[..i], j);
      EntriesAt(s, j);
    }
  }

  /* ----- a run ----- */

  datatype Operation<K, V> = Lookup(key: K) | Removal(key: K) | Insert(key: K, value: V)

  /** What a finite map becomes; an insert is guarded by a lookup. */
  function After<K(!new), V>(m: map<K, V>, ops: seq<Operation<K, V>>): map<K, V>
    decreases |ops|
  {
    if ops == [] then m
    else
      var before := After(m, ops[..|ops| - 1]);
      match ops[|ops| - 1]
      case Lookup(_) => before
      case Removal(k) => before - {k}
      case Insert(k, v) => if k in before then before else before[k := v]
  }

  /** What each operation finds under its key before it acts. */
  function Answers<K(!new), V>(m: map<K, V>, ops: seq<Operation<K, V>>): (answers: seq<Status<V>>)
    decreases |ops|
  {
    if ops == [] then []
    else
      var before := After(m, ops[..|ops| - 1]);
      var k := ops[|ops| - 1].key;
      Answers(m, ops[..|ops| - 1]) + [if k in before then Ok(before[k]) else Missing]
  }

  /** The first operations up to done act and answer as the finite map does;
      all of them unless memory runs out. */
  method Perform<K(==,!new), V>(m: Map<K, V>, ops: seq<Operation<K, V>>)
      returns (done: nat, answers: seq<Status<V>>, status: PutStatus)
    requires m.Valid()
    modifies m, m.data
    ensures m.Valid() && done <= |ops| && (status == PutOk ==> done == |ops|)
    ensures answers == Answers(old(m.Contents()), ops[..done])
    ensures status == PutOk ==> m.Contents() == After(old(m.Contents()), ops)
    ensures status == OutOfMemory ==>
              done < |ops| && ops[done].Insert? && Submap(m.Contents(), After(old(m.Contents()), ops[..done]))
  {
    done, answers, status := 0, [], PutOk;
    assert ops[..0] == [];
    while done < |ops|
      invariant done <= |ops| && status == PutOk && m.Valid() && (m.data == old(m.data) || fresh(m.data))
      invariant answers == Answers(old(m.Contents()), ops[..done])
      invariant m.Contents() == After(old(m.Contents()), ops[..done])
    {
      NextOperation(old(m.Contents()), ops, done);
      var answer := m.Get(ops[done].key);
      match ops[done] {
        case Lookup(_) =>
        case Removal(k) => var removed := m.Remove(k);
        case Insert(k, v) =>
          status := m.Register(k, v);
          if status == OutOfMemory {
            return;
          }
      }
      done, answers := done + 1, answers + [answer];
    }
    assert ops[..done] == ops;
  }

  lemma NextOperation<K(!new), V>(m: map<K, V>, ops: seq<Operation<K, V>>, i: nat)
    requires i < |ops|
    ensures After(m, ops[..i + 1]) ==
            match ops[i]
            case Lookup(_) => After(m, ops[..i])
            case Removal(k) => After(m, ops[..i]) - {k}
            case Insert(k, v) => if k in After(m, ops[..i]) then After(m, ops[..i]) else After(m, ops[..i])[k := v]
    ensures Answers(m, ops[..i + 1]) ==
            var before := After(m, ops[..i]);
            Answers(m, ops[..i]) + [if ops[i].key in before then Ok(before[ops[i].key]) else Missing]
  {
    var next := ops[..i + 1];
    assert next[|next| - 1] == ops[i] && next[..|next| - 1] == ops[..i];
  }
}
