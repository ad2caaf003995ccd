/** The growable ring of queue.c. */
module Queue {
  import opened Wrappers
  import opened Sequences

  /** QueueEntry; `owned` says that a deleter was attached. */
  datatype Entry<T> = Entry(obj: T, owned: bool)

  const INITIALCAPA := 8

  /** The `count` entries that start at `front`, read round the ring. */
  function Unrolled<T>(entries: seq<T>, front: nat, count: nat): (s: seq<T>)
    requires front < |entries| && count <= |entries|
    ensures |s| == count && forall k | 0 <= k < count :: s[k] == entries[Wrap(front + k, |entries|)]
  {
    seq(count, k requires 0 <= k < count => entries[Wrap(front + k, |entries|)])
  }

  /** The objects a deleter is called for, in order. */
  function Owned<T>(s: seq<Entry<T>>): seq<T> {
    if s == [] then [] else OwnedOne(s[0]) + Owned(s[1..])
  }

  function OwnedOne<T>(e: Entry<T>): seq<T> { if e.owned then [e.obj] else [] }

  lemma OwnedCons<T>(e: Entry<T>, s: seq<Entry<T>>)
    ensures Owned([e] + s) == OwnedOne(e) + Owned(s)
  {
    assert ([e] + s)[1..] == s;
  }

  lemma {:induction false} OwnedSnoc<T>(s: seq<Entry<T>>, e: Entry<T>)
    ensures Owned<T>([]) == [] && Owned(s + [e]) == Owned(s) + if e.owned then [e.obj] else []
  {
    if s == [] {
      assert s + [e] == [e];
    } else {
      hide *;
      var rest := s[1..];
      OwnedSnoc(rest, e);
      OwnedCons(s[0], rest);
      OwnedCons(s[0], rest + [e]);
      assert s == [s[0]] + rest;
      Reassociate([s[0]], rest, [e]);
      Reassociate(OwnedOne(s[0]), Owned(rest), OwnedOne(e));
    }
  }

  lemma PutAppends<T>(entries: seq<T>, front: nat, count: nat, e: T)
    requires front < |entries| && count < |entries|
    ensures Unrolled(entries[Wrap(front + count, |entries|) := e], front, count + 1) == Unrolled(entries, front, count) + [e]
  {}

  class IBQueue<T(0)> {
    var entries: array<Entry<T>>
    var count: nat
    var front: nat
    var back: nat

    ghost predicate Valid()
      reads this
    {
      && entries.Length > 0 && front < entries.Length && back < entries.Length && count <= entries.Length
      && back == Wrap(front + count, entries.Length)
    }

    function Contents(): seq<Entry<T>>
      reads this, entries
      requires front < entries.Length && count <= entries.Length
    {
      Unrolled(entries[..], front, count)
    }

    /** IBQueue_create (40-49). */
    constructor ()
      ensures Valid() && Contents() == [] && entries.Length == 8 && front == 0 && fresh(entries)
    {
      count, front, back := 0, 0, 0;
      entries := new Entry<T>[INITIALCAPA];
    }

    /** expand (25-38), copying whole entries: a full ring gets twice the room without losing anything. */
    method Expand()
      requires Valid() && count == entries.Length
      modifies this
      ensures Valid() && fresh(entries) && entries.Length == 2 * old(entries.Length)
      ensures Contents() == old(Contents())
    {
      var capa := entries.Length;
      var newcapa := 2 * capa;
      // realloc keeps the first capa entries
      var moved := new Entry<T>[newcapa];
      forall i | 0 <= i < capa { moved[i] := entries[i]; }
      if front != 0 {
        forall i | front <= i < capa { moved[i + capa] := moved[i]; }
        front := front + capa;
      } else {
        back := capa;
      }
      entries := moved;
    }

    /** IBQueue_enqueue (51-59). */
    method Enqueue(obj: T, owned: bool)
      requires Valid()
      modifies this, entries
      ensures Valid() && (entries == old(entries) || fresh(entries))
      ensures Contents() == old(Contents()) + [Entry(obj, owned)]
      ensures old(count < entries.Length) ==> entries == old(entries) && front == old(front)
    {
      if count == entries.Length { Expand(); }
      PutAppends(entries[..], front, count, Entry(obj, owned));
      hide Unrolled;
      entries[back] := Entry(obj, owned);
      back := back + 1;
      if back == entries.Length { back := 0; }
      count := count + 1;
    }

    /** IBQueue_dequeue (61-68). */
    method Dequeue() returns (obj: Option<T>)
      requires Valid()
      modifies this`front, this`count
      ensures Valid()
      ensures if old(Contents()) == [] then obj.None? && Contents() == []
              else obj == Some(old(Contents())[0].obj) && Contents() == old(Contents())[1..]
      ensures old(count) > 0 ==> front == Wrap(old(front) + 1, entries.Length)
    {
      if count == 0 { return None; }
      obj := Some(entries[front].obj);
      front := front + 1;
      if front == entries.Length { front := 0; }
      count := count - 1;
    }

    /** IBQueue_destroy (70-83): the deleters run once for each remaining entry that has one, oldest first. */
    method Destroy() returns (deleted: seq<T>)
      requires Valid()
      ensures deleted == Owned(Contents())
    {
      deleted := [];
      ghost var s := Contents();
      if count != 0 {
        var i, pos := 0, front;
        while i < count
          invariant i <= count && pos == Wrap(front + i, entries.Length)
          invariant deleted == Owned(s[..i])
        {
          assert s[..i + 1] == s[..i] + [entries[pos]];
          OwnedSnoc(s[..i], entries[pos]);
          if entries[pos].owned { deleted := deleted + [entries[pos].obj]; }
          pos := pos + 1;
          if pos == entries.Length { pos := 0; }
          i := i + 1;
        }
      }
      assert s[..count] == s;
    }
  }

  // ---------- expand as written ----------

  const ENTRYSIZE := 16

  /** Lines 28-34 take the number of entries for the number of bytes: memcpy moves `capa - front` bytes, so the
      k-th entry behind `front` arrives only if 16 * (k + 1) bytes fit into that. Everything else in the new half
      is whatever realloc left there. */
  function ExpandedAsWritten<T>(entries: seq<Entry<T>>, front: nat, garbage: seq<Entry<T>>): (s: seq<Entry<T>>)
    requires front < |entries| == |garbage|
    ensures |s| == 2 * |entries|
  {
    var n := |entries|;
    seq(2 * n, i requires 0 <= i < 2 * n =>
      if i < n then entries[i]
      else if front != 0 && front <= i - n && ENTRYSIZE * (i - n - front + 1) <= n - front then entries[i - n]
      else garbage[i - n])
  }

  /** The code as written keeps the contents of a full ring, whatever realloc leaves in the new half, exactly if
      the ring has not wrapped. */
  lemma ExpandAsWritten<T>(entries: seq<Entry<T>>, front: nat)
    requires front < |entries|
    ensures (forall garbage: seq<Entry<T>> | |garbage| == |entries| ::
              Unrolled(ExpandedAsWritten(entries, front, garbage), if front != 0 then front + |entries| else 0, |entries|)
                == Unrolled(entries, front, |entries|))
            <==> front == 0
  {
    var n := |entries|;
    if front == 0 {
      forall garbage: seq<Entry<T>> | |garbage| == n
        ensures Unrolled(ExpandedAsWritten(entries, 0, garbage), 0, n) == Unrolled(entries, 0, n)
      {}
    } else {
      var garbage := seq(n, i requires 0 <= i < n => Entry(entries[i].obj, !entries[i].owned));
      var after := Unrolled(ExpandedAsWritten(entries, front, garbage), front + n, n);
      // the last entry before the wrap is never copied
      var k := n - 1 - front;
      assert after[k] == garbage[n - 1];
      assert Unrolled(entries, front, n)[k] == entries[n - 1];
    }
  }

  /** A ring in that state is easily met: fill a new queue, take one entry out, put one in. */
  method FullAndWrapped<T(0)>(x: T) returns (q: IBQueue<T>)
    ensures q.Valid() && q.count == q.entries.Length && q.front != 0
  {
    q := new IBQueue<T>();
    var i := 0;
    while i < INITIALCAPA
      invariant i <= INITIALCAPA && q.Valid() && fresh(q) && fresh(q.entries)
      invariant q.front == 0 && q.entries.Length == INITIALCAPA && |q.Contents()| == i
    {
      q.Enqueue(x, false);
      i := i + 1;
    }
    var _ := q.Dequeue();
    q.Enqueue(x, false);
  }
}
