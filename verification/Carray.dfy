/** The growable ring buffer of paxos/carray.c. */
module RingBuffer {
  import opened PaxosTypes

  /** Index of element `i` for a buffer of `size` slots whose front is at `head`. */
  function Slot(head: nat, i: nat, size: nat): (k: nat)
    requires size >= 1
    ensures k < size
  {
    (head + i) % size
  }

  lemma SlotWraps(head: nat, i: nat, size: nat)
    requires head < size && i <= size
    ensures Slot(head, i, size) == if head + i < size then head + i else head + i - size
  {
    if head + i < size {
      DivisionIsUnique(head + i, 0, head + i, size);
    } else if head + i < 2 * size {
      DivisionIsUnique(head + i, 1, head + i - size, size);
    }
  }

  /** The live part of the buffer, front first. */
  ghost function Window<T>(a: seq<T>, head: nat, count: nat): seq<T>
    requires |a| >= 1 && head < |a| && count <= |a|
  {
    seq(count, i requires 0 <= i < count => a[Slot(head, i, |a|)])
  }

  /** Order-preserving filter. */
  function Filter<T>(s: seq<T>, keep: T -> bool): seq<T> {
    if s == [] then []
    else
      var last := s[|s| - 1];
      Filter(s[..|s| - 1], keep) + (if keep(last) then [last] else [])
  }

  /** What `_carray_map` keeps: the matching elements, or the others. */
  function Wanted<T>(matches: T -> bool, wanted: bool): T -> bool {
    x => matches(x) == wanted
  }

  lemma {:induction false} FilterMembers<T>(s: seq<T>, keep: T -> bool)
    ensures forall x :: x in Filter(s, keep) <==> x in s && keep(x)
  {
    if s != [] {
      FilterMembers(s[..|s| - 1], keep);
      assert s == s[..|s| - 1] + [s[|s| - 1]];
    }
  }

  lemma {:induction false} FilterConcat<T>(s: seq<T>, t: seq<T>, keep: T -> bool)
    ensures Filter(s + t, keep) == Filter(s, keep) + Filter(t, keep)
  {
    if t == [] {
      assert s + t == s;
    } else {
      assert (s + t)[..|s + t| - 1] == s + t[..|t| - 1];
      FilterConcat(s, t[..|t| - 1], keep);
    }
  }

  class Carray<T(0)> {
    var head: nat
    var tail: nat
    var size: nat
    var count: nat
    var data: array<T>

    ghost predicate Valid()
      reads this, data
    {
      && size >= 1 && data.Length == size
      && head < size && count <= size
      && tail == Slot(head, count, size)
    }

    ghost function Contents(): seq<T>
      requires Valid()
      reads this, data
    {
      Window(data[..], head, count)
    }

    constructor (capacity: nat)
      requires capacity >= 1
      ensures Valid() && fresh(data)
      ensures Contents() == [] && size == capacity && head == 0
    {
      head, tail, size, count := 0, 0, capacity, 0;
      data := new T[capacity];
    }

    /** Doubles the capacity; the abstract sequence is unchanged. */
    method Grow()
      requires Valid() && count == size
      modifies this
      ensures Valid() && fresh(data)
      ensures Contents() == old(Contents()) && size == 2 * old(size) && head == 0
      decreases 1
    {
      var tmp := new Carray<T>(size * 2);
      var i := 0;
      while i < count
        invariant Valid() && tmp.Valid() && fresh(tmp) && fresh(tmp.data)
        invariant 0 <= i <= count == size && tmp.size == 2 * size && tmp.head == 0
        invariant unchanged(this) && unchanged(data)
        invariant tmp.Contents() == Contents()[..i]
      {
        var x := At(i);
        assert tmp.count == |tmp.Contents()| == i;
        tmp.PushBack(x.value);
        i := i + 1;
      }
      assert tmp.Contents() == Contents();
      assert tmp.count == |tmp.Contents()| == count;
      head := 0;
      tail := tmp.tail;
      size := tmp.size;
      data := tmp.data;
    }

    method PushBack(x: T)
      requires Valid()
      modifies this, data
      ensures Valid() && (data == old(data) || fresh(data))
      ensures Contents() == old(Contents()) + [x]
      ensures old(count) < old(size) ==> size == old(size) && data == old(data) && head == old(head)
      ensures old(count) == old(size) ==> size == 2 * old(size)
      decreases if count == size then 2 else 0
    {
      if count == size {
        Grow();
      }
      ghost var before := Contents();
      ghost var h, c := head, count;
      assert before == old(Contents()) && c == |before|;
      data[tail] := x;
      tail := (tail + 1) % size;
      count := count + 1;
      AppendSlot(h, c, size);
      PutSlots(h, c, c + 1, size);
      assert Contents() == before + [x];
    }

    method PushFront(x: T)
      requires Valid()
      modifies this, data
      ensures Valid() && (data == old(data) || fresh(data))
      ensures Contents() == [x] + old(Contents())
    {
      if count == size {
        Grow();
      }
      if count == 0 {
        PushBack(x);
        return;
      }
      ghost var before := Contents();
      ghost var h := head;
      if head >= 1 {
        head := head - 1;
      } else {
        head := size - 1;
      }
      data[head] := x;
      count := count + 1;
      PrependSlots(h, head, count, size);
      assert Contents() == [x] + before;
    }

    method Front() returns (x: Option<T>)
      requires Valid()
      ensures x == if Contents() == [] then None else Some(Contents()[0])
    {
      if count == 0 {
        return None;
      }
      SlotWraps(head, 0, size);
      x := Some(data[head]);
    }

    method PopFront() returns (x: Option<T>)
      requires Valid()
      modifies this
      ensures Valid() && data == old(data)
      ensures old(Contents()) == [] ==> x == None && Contents() == []
      ensures old(Contents()) != [] ==> x == Some(old(Contents())[0]) && Contents() == old(Contents())[1..]
    {
      if count == 0 {
        return None;
      }
      SlotWraps(head, 0, size);
      x := Some(data[head]);
      ghost var h := head;
      ghost var before := Contents();
      SlotWraps(head, 1, size);
      head := (head + 1) % size;
      count := count - 1;
      PrependSlots(head, h, count + 1, size);
      assert Contents() == before[1..];
    }

    /** The index is not checked against `count`: it wraps around. On a full buffer
        (the learner's window) it therefore selects element `i % size` for every `i`. */
    method At(i: nat) returns (x: Option<T>)
      requires Valid()
      ensures Contents() == [] ==> x == None
      ensures i < |Contents()| ==> x == Some(Contents()[i])
      ensures count == size ==> x == Some(Contents()[i % size])
    {
      if count == 0 {
        return None;
      }
      x := Some(data[(head + i) % size]);
      ModInner(head, i, size);
    }

    /** Writes through the pointer that `carray_at` returns: elements are values here. */
    method Put(i: nat, x: T)
      requires Valid() && count > 0
      modifies data
      ensures Valid()
      ensures i < |old(Contents())| ==> Contents() == old(Contents())[i := x]
      ensures count == size ==> Contents() == old(Contents())[i % size := x]
    {
      ghost var before := Contents();
      ghost var k := i % size;
      data[(head + i) % size] := x;
      ModInner(head, i, size);
      if i < count || count == size {
        ghost var j := if i < count then i else k;
        SmallMod(i, size);
        PutSlots(head, j, count, size);
        assert Contents() == before[j := x];
      }
    }

    /** `_carray_map`: `carray_collect` for `wanted`, `carray_reject` otherwise. */
    method Map(matches: T -> bool, wanted: bool) returns (r: Carray<T>)
      requires Valid()
      ensures r.Valid() && fresh(r) && fresh(r.data)
      ensures r.Contents() == Filter(Contents(), Wanted(matches, wanted))
    {
      r := new Carray<T>(size);
      ghost var keep := Wanted(matches, wanted);
      var i := 0;
      while i < count
        invariant Valid() && r.Valid() && fresh(r) && fresh(r.data)
        invariant 0 <= i <= count == |Contents()|
        invariant r.Contents() == Filter(Contents()[..i], keep)
      {
        var x := At(i);
        assert Contents()[..i + 1][..i] == Contents()[..i];
        if matches(x.value) == wanted {
          r.PushBack(x.value);
        }
        i := i + 1;
      }
      assert Contents()[..count] == Contents();
    }
  }

  lemma AppendSlot(head: nat, count: nat, size: nat)
    requires head < size && count < size
    ensures (Slot(head, count, size) + 1) % size == Slot(head, count + 1, size)
  {
    SlotWraps(head, count, size);
    SlotWraps(head, count + 1, size);
    SlotWraps(Slot(head, count, size), 1, size);
  }

  /** Moving the front from `h` back to `h'` shifts every slot by one. */
  lemma PrependSlots(h: nat, h': nat, count: nat, size: nat)
    requires h < size && 1 <= count <= size && h' == if h >= 1 then h - 1 else size - 1
    ensures h == (h' + 1) % size
    ensures Slot(h', 0, size) == h' && Slot(h', count, size) == Slot(h, count - 1, size)
    ensures forall i :: 0 <= i < count - 1 ==> Slot(h', i + 1, size) == Slot(h, i, size) && Slot(h, i, size) != h'
  {
    SlotWraps(h', 0, size);
    SlotWraps(h', 1, size);
    SlotWraps(h', count, size);
    SlotWraps(h, count - 1, size);
    forall i | 0 <= i < count - 1
      ensures Slot(h', i + 1, size) == Slot(h, i, size) && Slot(h, i, size) != h'
    {
      SlotWraps(h', i + 1, size);
      SlotWraps(h, i, size);
    }
  }

  lemma SmallMod(i: nat, size: nat)
    requires size >= 1
    ensures i < size ==> i % size == i
  {
    if i < size {
      DivisionIsUnique(i, 0, i, size);
    }
  }

  /** Different elements are in different slots. */
  lemma PutSlots(head: nat, j: nat, count: nat, size: nat)
    requires head < size && j < count <= size
    ensures forall i :: 0 <= i < count && i != j ==> Slot(head, i, size) != Slot(head, j, size)
  {
    forall i | 0 <= i < count && i != j
      ensures Slot(head, i, size) != Slot(head, j, size)
    {
      SlotWraps(head, i, size);
      SlotWraps(head, j, size);
    }
  }

  lemma ModInner(head: nat, i: nat, size: nat)
    requires size >= 1
    ensures Slot(head, i, size) == Slot(head, i % size, size)
  {
    var q, r := i / size, i % size;
    var y := head + r;
    var q', r' := y / size, y % size;
    assert head + i == (q + q') * size + r' by {
      assert i == q * size + r;
      assert y == q' * size + r';
      Distribute(q, q', size);
    }
    DivisionIsUnique(head + i, q + q', r', size);
  }

  lemma Distribute(a: int, b: int, n: int)
    ensures (a + b) * n == a * n + b * n
  {
  }

  lemma DivisionIsUnique(x: int, q: int, r: int, n: int)
    requires 0 <= r < n && x == q * n + r
    ensures x % n == r
  {
    var d := q - x / n;
    Distribute(d, x / n, n);
    assert x == (x / n) * n + x % n;
  }
}
