/** The bucket array and the linked entries of hashtable.c, and the code that relinks them. */
module HashtableCode {
  import opened Wrappers
  import opened Hashtable

  class HashEntry {
    var next: HashEntry?
    const key: string
    var obj: nat
    var owned: bool

    constructor (key: string, obj: nat, owned: bool)
      ensures next == null && this.key == key && this.obj == obj && this.owned == owned
    {
      next, this.key, this.obj, this.owned := null, key, obj, owned;
    }
  }

  function NextOf(chain: seq<HashEntry>, k: nat): HashEntry? { if k < |chain| then chain[k] else null }

  /** The entries from `head` on, linked up by `next`, are `chain` and hold `pairs`. */
  ghost predicate Holds(head: HashEntry?, chain: seq<HashEntry>, pairs: seq<Pair>)
    reads chain
  {
    && |chain| == |pairs| && head == NextOf(chain, 0)
    && (forall k | 0 <= k < |chain| :: chain[k].next == NextOf(chain, k + 1))
    && (forall k | 0 <= k < |chain| :: Pair(chain[k].key, Item(chain[k].obj, chain[k].owned)) == pairs[k])
  }

  /** Writing to one entry of a chain changes that entry's pair (62-63). */
  method Overwrite(entry: HashEntry, obj: nat, owned: bool,
                   ghost head: HashEntry?, ghost chain: seq<HashEntry>, ghost pairs: seq<Pair>, ghost k: nat)
    requires Holds(head, chain, pairs) && k < |chain| && entry == chain[k]
    requires forall l | 0 <= l < |chain| && l != k :: chain[l] != entry
    modifies entry
    ensures Holds(head, chain, pairs[k := Pair(entry.key, Item(obj, owned))])
  {
    entry.obj := obj;
    entry.owned := owned;
  }

  /** parent->next = entry (72): the new entry comes behind the last one. */
  method LinkBehind(parent: HashEntry, entry: HashEntry,
                    ghost head: HashEntry?, ghost chain: seq<HashEntry>, ghost pairs: seq<Pair>)
    requires Holds(head, chain, pairs) && chain != [] && parent == chain[|chain| - 1]
    requires entry !in chain && entry.next == null
    requires forall l | 0 <= l < |chain| - 1 :: chain[l] != parent
    modifies parent`next
    ensures Holds(head, chain + [entry], pairs + [Pair(entry.key, Item(entry.obj, entry.owned))])
  {
    parent.next := entry;
  }

  /** parent->next = entry->next (92): the entry leaves the chain. */
  method LinkPast(parent: HashEntry, entry: HashEntry,
                  ghost head: HashEntry?, ghost chain: seq<HashEntry>, ghost pairs: seq<Pair>, ghost k: nat)
    requires Holds(head, chain, pairs) && 0 < k < |chain| && parent == chain[k - 1] && entry == chain[k]
    requires forall l | 0 <= l < |chain| && l != k - 1 :: chain[l] != parent
    modifies parent`next
    ensures Holds(head, Without(chain, k), Without(pairs, k))
  {
    hide Without;
    parent.next := entry.next;
    ghost var c, p := Without(chain, k), Without(pairs, k);
    forall l | 0 <= l < |c| ensures c[l].next == NextOf(c, l + 1) {
      if l < k { assert chain[l].next == if l + 1 == k then NextOf(chain, k + 1) else NextOf(chain, l + 1); }
      else { assert chain[l + 1].next == NextOf(chain, l + 2); }
    }
    forall l | 0 <= l < |c| ensures Pair(c[l].key, Item(c[l].obj, c[l].owned)) == p[l] {
      var m := if l < k then l else l + 1;
      assert Pair(chain[m].key, Item(chain[m].obj, chain[m].owned)) == pairs[m];
    }
  }

  /** Without its first entry, a chain starts at the next one. */
  lemma HoldsRest(head: HashEntry?, chain: seq<HashEntry>, pairs: seq<Pair>)
    requires Holds(head, chain, pairs) && chain != []
    ensures Holds(chain[0].next, Without(chain, 0), Without(pairs, 0))
  {
    var c, p := Without(chain, 0), Without(pairs, 0);
    forall l | 0 <= l < |c|
      ensures c[l].next == NextOf(c, l + 1) && Pair(c[l].key, Item(c[l].obj, c[l].owned)) == p[l]
    {
      assert c[l] == chain[l + 1] && chain[l + 1].next == NextOf(chain, l + 2);
    }
  }

  datatype IteratorEntry = IteratorEntry(key: string, obj: nat)

  function Shown(p: Pair): IteratorEntry { IteratorEntry(p.key, p.item.obj) }

  /** What an iterator gets to see of a table. */
  function AllShown(t: Table): (s: seq<IteratorEntry>)
    ensures |s| == |Flatten(t)|
    ensures forall i | 0 <= i < |s| :: s[i] == Shown(Flatten(t)[i])
  {
    seq(|Flatten(t)|, i requires 0 <= i < |Flatten(t)| => Shown(Flatten(t)[i]))
  }

  lemma HoldsOne(head: HashEntry?, chain: seq<HashEntry>, pairs: seq<Pair>, k: nat)
    requires Holds(head, chain, pairs) && k < |chain|
    ensures chain[k].next == NextOf(chain, k + 1)
    ensures k < |pairs| && pairs[k] == Pair(chain[k].key, Item(chain[k].obj, chain[k].owned))
  {}

  /** The inner loop of IBHashTable_iterator (127-134), which fills in the next part of `all`. */
  method FillFrom(head: HashEntry?, entries: array<IteratorEntry>, from: nat,
                  ghost chain: seq<HashEntry>, ghost pairs: seq<Pair>, ghost all: seq<IteratorEntry>) returns (pos: nat)
    requires Holds(head, chain, pairs) && head == NextOf(chain, 0) && |pairs| == |chain|
    requires from + |pairs| <= |all| == entries.Length
    requires forall i | 0 <= i < from :: entries[i] == all[i]
    requires forall i | from <= i < from + |pairs| :: all[i] == Shown(pairs[i - from])
    modifies entries
    ensures pos == from + |pairs|
    ensures forall i | 0 <= i < pos :: entries[i] == all[i]
  {
    hide Holds;
    pos := from;
    var entry := head;
    while entry != null
      invariant from <= pos <= from + |pairs| == from + |chain| && entry == NextOf(chain, pos - from)
      invariant Holds(head, chain, pairs)
      invariant forall i | 0 <= i < pos :: entries[i] == all[i]
      decreases |chain| - (pos - from)
    {
      HoldsOne(head, chain, pairs, pos - from);
      assert all[pos] == Shown(pairs[pos - from]);
      entries[pos] := IteratorEntry(entry.key, entry.obj);
      pos := pos + 1;
      entry := entry.next;
    }
  }

  /** The search loop (52-58). */
  method Walk(head: HashEntry?, key: string, ghost chain: seq<HashEntry>, ghost pairs: seq<Pair>)
    returns (parent: HashEntry?, entry: HashEntry?, ghost k: nat)
    requires Holds(head, chain, pairs) && head == NextOf(chain, 0) && |pairs| == |chain|
    ensures k <= |chain| && entry == NextOf(chain, k) && parent == if k == 0 then null else chain[k - 1]
    ensures entry != null ==> k < |chain| && pairs[k].key == key == entry.key
    ensures entry == null ==> k == |chain|
    ensures forall i | 0 <= i < k :: pairs[i].key != key
  {
    hide Holds;
    k := 0;
    parent := null;
    entry := head;
    while entry != null
      invariant k <= |chain| && entry == NextOf(chain, k) && parent == if k == 0 then null else chain[k - 1]
      invariant forall i | 0 <= i < k :: pairs[i].key != key
      decreases |chain| - k
    {
      HoldsOne(head, chain, pairs, k);
      if entry.key == key { break; }
      parent := entry;
      entry := parent.next;
      k := k + 1;
    }
  }

  /** if (entry->deleter) entry->deleter(entry->obj); */
  method RunDeleter(entry: HashEntry) returns (deleted: seq<nat>)
    ensures multiset(deleted) == OwnedItem(Item(entry.obj, entry.owned))
    ensures deleted == if entry.owned then [entry.obj] else []
  {
    if entry.owned { deleted := [entry.obj]; } else { deleted := []; }
  }

  /** The inner loop of IBHashTable_destroy (144-153). */
  method DestroyEntries(head: HashEntry?, ghost chain: seq<HashEntry>, ghost pairs: seq<Pair>) returns (deleted: seq<nat>)
    requires Holds(head, chain, pairs) && head == NextOf(chain, 0) && |pairs| == |chain|
    ensures multiset(deleted) == OwnedChain(pairs)
  {
    hide Holds, OwnedItem;
    var entry := head;
    deleted := [];
    ghost var k := 0;
    assert pairs[0..] == pairs;
    while entry != null
      invariant k <= |pairs| && entry == NextOf(chain, k)
      invariant multiset(deleted) + OwnedChain(pairs[k..]) == OwnedChain(pairs)
      decreases |chain| - k
    {
      HoldsOne(head, chain, pairs, k);
      assert pairs[k..][0] == pairs[k] && pairs[k..][1..] == pairs[k + 1..];
      var next := entry.next;
      var gone := RunDeleter(entry);
      deleted := deleted + gone;
      entry := next;
      k := k + 1;
    }
  }

  class HashTable {
    const bits: nat
    const bucket: array<HashEntry?>
    var count: nat
    ghost var chains: seq<seq<HashEntry>>
    ghost var view: Table
    ghost var repr: set<HashEntry>
    /** History: objects stored with a deleter, and deleter calls. */
    ghost var stored: multiset<nat>
    ghost var destroyed: multiset<nat>

    /** The chains of all buckets but `h`. */
    ghost predicate Others(h: nat)
      reads this`chains, this`view, this`repr, bucket, repr
    {
      && 2 <= bits <= 8 && bucket.Length == HtSize(bits) == |chains| == |view|
      && (forall g, k | 0 <= g < |chains| && g != h && 0 <= k < |chains[g]| :: chains[g][k] in repr)
      && (forall g | 0 <= g < |chains| && g != h :: Holds(bucket[g], chains[g], view[g]))
    }

    ghost predicate Shape()
      reads this`chains, this`view, this`repr, bucket, repr
    {
      && 2 <= bits <= 8 && bucket.Length == HtSize(bits) == |chains| == |view|
      && (forall h, k | 0 <= h < |chains| && 0 <= k < |chains[h]| :: chains[h][k] in repr)
      && (forall h | 0 <= h < |chains| :: Holds(bucket[h], chains[h], view[h]))
    }

    /** Keys are unique and in their bucket, `count` is the summed length of the chains, and every object stored
        with a deleter is either still stored or was destroyed, once. */
    ghost predicate Valid()
      reads this, bucket, repr
    {
      && Shape() && TableOk(view, bits)
      && count == Count(view)
      && destroyed + Owned(view) == stored
    }

    /** IBHashTable_create (38-45). */
    constructor (bits: nat)
      requires 2 <= bits <= 8
      ensures Valid() && fresh(bucket) && repr == {} && this.bits == bits
      ensures forall key :: Lookup(view, bits, key) == None
      ensures stored == multiset{} && destroyed == multiset{}
    {
      this.bits := bits;
      bucket := new HashEntry?[HtSize(bits)](_ => null);
      count := 0;
      chains := seq(HtSize(bits), _ => []);
      view := seq(HtSize(bits), _ => []);
      repr := {};
      stored, destroyed := multiset{}, multiset{};
      new;
      EmptyTotals(view);
    }

    /** An entry that stands at place `k` of chain `h` only. */
    ghost predicate Apart(h: nat, k: nat)
      requires h < |chains| && k < |chains[h]|
      reads this`chains
    {
      && (forall g | 0 <= g < |chains| && g != h :: chains[h][k] !in chains[g])
      && (forall l | 0 <= l < |chains[h]| && l != k :: chains[h][l] != chains[h][k])
    }

    /** Different places hold different entries, because their keys differ. */
    lemma AllApart(h: nat, k: nat)
      requires Valid() && h < |chains| && k < |chains[h]|
      ensures Apart(h, k)
    {
      assert Holds(bucket[h], chains[h], view[h]) && ChainOk(view[h], h, bits);
      assert view[h][k].key == chains[h][k].key && Index(view[h][k].key, bits) == h;
      forall g | 0 <= g < |chains| && g != h ensures chains[h][k] !in chains[g] {
        assert Holds(bucket[g], chains[g], view[g]) && ChainOk(view[g], g, bits);
        assert forall l | 0 <= l < |chains[g]| :: view[g][l].key == chains[g][l].key && Index(view[g][l].key, bits) == g;
      }
      assert forall l | 0 <= l < |chains[h]| :: view[h][l].key == chains[h][l].key;
    }

    /** What a finished search says about the entries to relink. */
    lemma Found(h: nat, k: nat, parent: HashEntry?, entry: HashEntry?)
      requires Valid() && h < |chains| && k <= |view[h]|
      requires entry == NextOf(chains[h], k) && parent == if k == 0 then null else chains[h][k - 1]
      ensures Shape() && |view[h]| == |chains[h]|
      ensures entry == null <==> k == |view[h]|
      ensures k < |view[h]| ==> entry == chains[h][k] && Apart(h, k) && entry in repr && entry.key == view[h][k].key
      ensures k > 0 ==> parent == chains[h][k - 1] && Apart(h, k - 1) && parent in repr
    {
      assert Holds(bucket[h], chains[h], view[h]);
      hide TableOk, Count, Owned, OwnedItem, HtSize, Apart, Holds;
      if k < |view[h]| { AllApart(h, k); }
      if k > 0 { AllApart(h, k - 1); }
    }

    lemma AtBucket(h: nat)
      requires Shape() && h < |chains|
      ensures Holds(bucket[h], chains[h], view[h]) && bucket[h] == NextOf(chains[h], 0) && |view[h]| == |chains[h]|
    {
      assert Holds(bucket[h], chains[h], view[h]);
    }

    /** The search that set, delete and get share: the entry with the key and the one before it. */
    method Search(key: string) returns (h: nat, parent: HashEntry?, entry: HashEntry?, ghost k: nat)
      requires Valid()
      ensures Shape() && TableOk(view, bits) && h < |view| == |chains| && |view[h]| == |chains[h]|
      ensures h == Index(key, bits) && k == Position(view[h], key)
      ensures entry == null <==> k == |view[h]|
      ensures k < |view[h]| ==> entry == chains[h][k] && Apart(h, k) && entry in repr && entry.key == key
      ensures if k == 0 then parent == null else parent == chains[h][k - 1] && Apart(h, k - 1) && parent in repr
    {
      h := HashStr(key, bits);
      assert Shape() && TableOk(view, bits) && h < |chains| == bucket.Length;
      hide *;
      AtBucket(h);
      parent, entry, k := Walk(bucket[h], key, chains[h], view[h]);
      PositionIs(view[h], key, k);
      Found(h, k, parent, entry);
    }

    /** IBHashTable_get (107-116). */
    method Get(key: string) returns (obj: Option<nat>)
      requires Valid()
      ensures obj == match Lookup(view, bits, key) case Some(item) => Some(item.obj) case None => None
    {
      var h, parent, entry;
      ghost var k;
      h, parent, entry, k := Search(key);
      assert Holds(bucket[h], chains[h], view[h]);
      if entry != null { obj := Some(entry.obj); } else { obj := None; }
    }

    lemma HoldsAt(h: nat, k: nat)
      requires Shape() && h < |chains| && k < |chains[h]|
      ensures |view[h]| == |chains[h]| && chains[h][k].next == NextOf(chains[h], k + 1)
      ensures bucket[h] == chains[h][0]
      ensures view[h][k] == Pair(chains[h][k].key, Item(chains[h][k].obj, chains[h][k].owned))
    {
      assert Holds(bucket[h], chains[h], view[h]);
    }

    /** The new chain of bucket `h` enters the view. */
    ghost method Record(h: nat, chain: seq<HashEntry>, pairs: seq<Pair>, added: set<HashEntry>)
      requires Others(h) && h < |chains| && Holds(bucket[h], chain, pairs)
      requires forall k | 0 <= k < |chain| :: chain[k] in repr || chain[k] in added
      modifies this`chains, this`view, this`repr
      ensures Shape() && chains == old(chains)[h := chain] && view == Put(old(view), h, pairs) && repr == old(repr) + added
    {
      hide Holds, HtSize;
      repr := repr + added;
      chains := chains[h := chain];
      view := Put(view, h, pairs);
    }

    /** IBHashTable_set on a key that is present (61-63): the old object's deleter runs. */
    method Replace(h: nat, entry: HashEntry, ghost k: nat, obj: nat, owned: bool) returns (deleted: seq<nat>)
      requires Shape() && h < |chains| && k < |chains[h]| && entry == chains[h][k] && Apart(h, k)
      modifies this`chains, this`view, this`repr, entry
      ensures Shape() && repr == old(repr) && |old(view)[h]| == |old(chains)[h]|
      ensures view == Put(old(view), h, old(view)[h][k := Pair(entry.key, Item(obj, owned))])
      ensures multiset(deleted) == OwnedItem(old(view)[h][k].item)
    {
      HoldsAt(h, k);
      hide Holds, HtSize, OwnedItem;
      deleted := RunDeleter(entry);
      Overwrite(entry, obj, owned, bucket[h], chains[h], view[h], k);
      Record(h, chains[h], view[h][k := Pair(entry.key, Item(obj, owned))], {});
    }

    /** parent->next = entry (72). */
    method AppendLater(h: nat, parent: HashEntry, entry: HashEntry)
      requires Shape() && h < |chains| && chains[h] != [] && parent == chains[h][|chains[h]| - 1]
      requires Apart(h, |chains[h]| - 1) && entry !in repr && entry.next == null
      modifies this`chains, this`view, this`repr, parent`next
      ensures Shape() && repr == old(repr) + {entry}
      ensures view == Put(old(view), h, old(view)[h] + [Pair(entry.key, Item(entry.obj, entry.owned))])
    {
      HoldsAt(h, |chains[h]| - 1);
      assert Holds(bucket[h], chains[h], view[h]);
      hide Holds, HtSize;
      LinkBehind(parent, entry, bucket[h], chains[h], view[h]);
      Record(h, chains[h] + [entry], view[h] + [Pair(entry.key, Item(entry.obj, entry.owned))], {entry});
    }

    /** self->bucket[h] = entry (73). */
    method AppendFirst(h: nat, entry: HashEntry)
      requires Shape() && h < |chains| && chains[h] == [] && entry !in repr && entry.next == null
      modifies this`chains, this`view, this`repr, bucket
      ensures Shape() && repr == old(repr) + {entry}
      ensures view == Put(old(view), h, old(view)[h] + [Pair(entry.key, Item(entry.obj, entry.owned))])
    {
      assert Holds(bucket[h], chains[h], view[h]);
      ghost var pair := Pair(entry.key, Item(entry.obj, entry.owned));
      assert Holds(entry, [entry], [pair]);
      assert chains[h] + [entry] == [entry] && view[h] + [pair] == [pair];
      hide Holds, HtSize;
      bucket[h] := entry;
      Record(h, [entry], [pair], {entry});
    }

    /** IBHashTable_set on a new key (67-73). */
    method Append(h: nat, parent: HashEntry?, key: string, obj: nat, owned: bool)
      requires Shape() && h < |chains|
      requires if chains[h] == [] then parent == null else parent == chains[h][|chains[h]| - 1] && Apart(h, |chains[h]| - 1)
      modifies this`chains, this`view, this`repr, bucket, if parent != null then {parent} else {}
      ensures Shape() && repr >= old(repr) && fresh(repr - old(repr))
      ensures view == Put(old(view), h, old(view)[h] + [Pair(key, Item(obj, owned))])
    {
      hide *;
      var entry := new HashEntry(key, obj, owned);
      if parent != null { AppendLater(h, parent, entry); } else { AppendFirst(h, entry); }
    }

    lemma OnlyHere(h: nat, k: nat)
      requires Shape() && h < |chains| && k < |chains[h]| && Apart(h, k)
      ensures Others(h) && forall g | 0 <= g < |chains| && g != h :: chains[h][k] !in chains[g]
      ensures forall l | 0 <= l < |chains[h]| && l != k :: chains[h][l] != chains[h][k]
    {
      hide Holds, HtSize;
    }

    lemma WithoutIn(h: nat, k: nat)
      requires Shape() && h < |chains| && k < |chains[h]|
      ensures forall l | 0 <= l < |chains[h]| - 1 :: Without(chains[h], k)[l] in repr
    {
      hide Holds, HtSize;
    }

    method LinkPastIn(h: nat, parent: HashEntry, entry: HashEntry, ghost k: nat)
      requires Shape() && h < |chains| && 0 < k < |chains[h]| && entry == chains[h][k]
      requires parent == chains[h][k - 1] && Apart(h, k - 1)
      modifies parent`next
      ensures Others(h) && h < |view| && k < |view[h]|
      ensures Holds(bucket[h], Without(chains[h], k), Without(view[h], k))
    {
      hide Shape, Holds, HtSize, Without, Apart;
      AtBucket(h);
      OnlyHere(h, k - 1);
      LinkPast(parent, entry, bucket[h], chains[h], view[h], k);
    }

    /** parent->next = entry->next (92). */
    method UnlinkLater(h: nat, parent: HashEntry, entry: HashEntry, ghost k: nat)
      requires Shape() && h < |chains| && 0 < k < |chains[h]| && entry == chains[h][k]
      requires parent == chains[h][k - 1] && Apart(h, k - 1)
      modifies this`chains, this`view, this`repr, parent`next
      ensures Shape() && repr == old(repr) && k < |old(view)[h]| && view == Put(old(view), h, Without(old(view)[h], k))
    {
      hide *;
      WithoutIn(h, k);
      LinkPastIn(h, parent, entry, k);
      Record(h, Without(chains[h], k), Without(view[h], k), {});
    }

    /** self->bucket[h] = entry->next (93). */
    method UnlinkFirst(h: nat, entry: HashEntry)
      requires Shape() && h < |chains| && 0 < |chains[h]| && entry == chains[h][0]
      modifies this`chains, this`view, this`repr, bucket
      ensures Shape() && repr == old(repr) && 0 < |old(view)[h]| && view == Put(old(view), h, Without(old(view)[h], 0))
    {
      HoldsAt(h, 0);
      hide Holds, HtSize;
      HoldsRest(bucket[h], chains[h], view[h]);
      bucket[h] := entry.next;
      Record(h, Without(chains[h], 0), Without(view[h], 0), {});
    }

    /** The heap part of IBHashTable_set: count and deleter calls, and the chain of the key's bucket. */
    method SetEntry(key: string, obj: nat, owned: bool) returns (deleted: seq<nat>)
      requires Valid()
      modifies this`count, this`chains, this`view, this`repr, bucket, repr
      ensures Shape() && repr >= old(repr) && fresh(repr - old(repr))
      ensures view == TableSet(old(view), bits, key, Item(obj, owned))
      ensures count + One(Lookup(old(view), bits, key)) == old(count) + 1
      ensures multiset(deleted) == Dropped(Lookup(old(view), bits, key))
    {
      hide *;
      var h, parent, entry;
      ghost var k;
      h, parent, entry, k := Search(key);
      AtPosition(view, bits, key, Item(obj, owned), h, k);
      if entry != null {
        deleted := Replace(h, entry, k, obj, owned);
      } else {
        Append(h, parent, key, obj, owned);
        deleted := [];
        count := count + 1;
      }
    }

    /** The heap part of IBHashTable_delete. */
    method DeleteEntry(key: string) returns (found: bool, deleted: seq<nat>)
      requires Valid()
      modifies this`count, this`chains, this`view, this`repr, bucket, repr
      ensures Shape() && repr == old(repr) && view == TableDelete(old(view), bits, key)
      ensures count + One(Lookup(old(view), bits, key)) == old(count)
      ensures found == (One(Lookup(old(view), bits, key)) == 1)
      ensures multiset(deleted) == Dropped(Lookup(old(view), bits, key))
    {
      hide *;
      var h, parent, entry;
      ghost var k;
      h, parent, entry, k := Search(key);
      AtPosition(view, bits, key, Item(0, false), h, k);
      CountsSome(key);
      if entry == null { return false, []; }
      HoldsAt(h, k);
      deleted := RunDeleter(entry);
      if parent != null { UnlinkLater(h, parent, entry, k); } else { UnlinkFirst(h, entry); }
      count := count - 1;
      found := true;
    }

    lemma CountsSome(key: string)
      requires Valid()
      ensures One(Lookup(view, bits, key)) <= count
    {
      DeleteTotals(view, bits, key);
    }

    /** IBHashTable_set (47-76). */
    method Set(key: string, obj: nat, owned: bool) returns (deleted: seq<nat>)
      requires Valid()
      modifies this, bucket, repr
      ensures Valid() && repr >= old(repr) && fresh(repr - old(repr))
      ensures forall other :: Lookup(view, bits, other) ==
                              if other == key then Some(Item(obj, owned)) else Lookup(old(view), bits, other)
      ensures stored == old(stored) + OwnedItem(Item(obj, owned)) && destroyed == old(destroyed) + multiset(deleted)
      ensures multiset(deleted) == Dropped(Lookup(old(view), bits, key))
    {
      hide Shape, TableOk, Lookup, Count, Owned, OwnedItem, TableSet, One, Dropped;
      SetDoes(view, bits, key, Item(obj, owned), destroyed, stored);
      deleted := SetEntry(key, obj, owned);
      stored := stored + OwnedItem(Item(obj, owned));
      destroyed := destroyed + multiset(deleted);
    }

    /** IBHashTable_delete (78-100). */
    method Delete(key: string) returns (found: bool, deleted: seq<nat>)
      requires Valid()
      modifies this, bucket, repr
      ensures Valid() && repr == old(repr) && stored == old(stored) && destroyed == old(destroyed) + multiset(deleted)
      ensures found == Lookup(old(view), bits, key).Some?
      ensures multiset(deleted) == Dropped(Lookup(old(view), bits, key))
      ensures forall other :: Lookup(view, bits, other) ==
                              if other == key then None else Lookup(old(view), bits, other)
    {
      hide Shape, TableOk, Lookup, Count, Owned, OwnedItem, TableDelete, Dropped;
      DeleteDoes(view, bits, key, destroyed, stored);
      found, deleted := DeleteEntry(key);
      destroyed := destroyed + multiset(deleted);
    }

    lemma Opened()
      requires Valid()
      ensures Shape() && bucket.Length == |view| == |chains|
      ensures Before(view, 0) == 0 && Before(view, |view|) == count == |Flatten(view)|
    {
      FlattenTotals(view);
      BeforeAll(view);
    }

    method FillBucket(h: nat, entries: array<IteratorEntry>, from: nat, ghost all: seq<IteratorEntry>) returns (pos: nat)
      requires Shape() && h < |view| == |chains| == bucket.Length && from == Before(view, h)
      requires all == AllShown(view) && from <= |all| == entries.Length
      requires forall i | 0 <= i < from :: entries[i] == all[i]
      modifies entries
      ensures pos == Before(view, h + 1) <= |all|
      ensures forall i | 0 <= i < pos :: entries[i] == all[i]
    {
      hide *;
      AtBucket(h);
      FlattenChunk(view, h);
      pos := FillFrom(bucket[h], entries, from, chains[h], view[h], all);
    }

    /** IBHashTable_iterator (118-137): exactly `count` entries, one for each pair. */
    method Iterator() returns (iter: HashTableIterator)
      requires Valid()
      ensures fresh(iter) && fresh(iter.entries) && iter.pos == iter.entries.Length == count
      ensures iter.entries[..] == AllShown(view)
    {
      hide *;
      Opened();
      var entries := new IteratorEntry[count];
      ghost var all := AllShown(view);
      var pos, h := 0, 0;
      while h < bucket.Length
        invariant h <= bucket.Length && pos == Before(view, h) <= count && Shape()
        invariant forall i | 0 <= i < pos :: entries[i] == all[i]
      {
        pos := FillBucket(h, entries, pos, all);
        h := h + 1;
      }
      iter := new HashTableIterator(entries);
    }

    /** One bucket in IBHashTable_destroy (144-153). */
    method DestroyChain(h: nat) returns (deleted: seq<nat>)
      requires Shape() && h < |view| == |chains|
      ensures multiset(deleted) == OwnedChain(view[h])
    {
      assert h < bucket.Length;
      hide *;
      AtBucket(h);
      deleted := DestroyEntries(bucket[h], chains[h], view[h]);
    }

    /** IBHashTable_destroy (139-156): now everything ever stored with a deleter has been destroyed, once. */
    method Destroy() returns (deleted: seq<nat>)
      requires Valid()
      modifies this`destroyed
      ensures destroyed == stored == old(destroyed) + multiset(deleted)
    {
      deleted := DestroyAll();
      destroyed := destroyed + multiset(deleted);
    }

    method DestroyAll() returns (deleted: seq<nat>)
      requires Valid()
      ensures multiset(deleted) == Owned(view)
    {
      hide Holds, TableOk, Count, OwnedChain;
      deleted := [];
      var h := 0;
      assert view[0..] == view;
      while h < bucket.Length
        invariant h <= |view|
        invariant multiset(deleted) + Owned(view[h..]) == Owned(view)
      {
        assert view[h..][0] == view[h] && view[h..][1..] == view[h + 1..];
        var gone := DestroyChain(h);
        deleted := deleted + gone;
        h := h + 1;
      }
      assert view[h..] == [];
    }
  }

  class HashTableIterator {
    const entries: array<IteratorEntry>
    var pos: nat

    constructor (entries: array<IteratorEntry>)
      ensures this.entries == entries && pos == entries.Length
    {
      this.entries, pos := entries, entries.Length;
    }

    /** IBHashTableIterator_moveNext (158-163). */
    method MoveNext() returns (more: bool)
      modifies this`pos
      ensures pos == (if old(pos) >= entries.Length then 0 else old(pos) + 1) && more == (pos < entries.Length)
    {
      if pos >= entries.Length { pos := 0; } else { pos := pos + 1; }
      more := pos < entries.Length;
    }

    /** IBHashTableIterator_key and _current (165-175). */
    method KeyAndCurrent() returns (kc: Option<IteratorEntry>)
      ensures kc == if pos < entries.Length then Some(entries[pos]) else None
    {
      if pos >= entries.Length { return None; }
      kc := Some(entries[pos]);
    }

    /** while (moveNext) from a fresh iterator sees all entries in order, and leaves it ready to start over. */
    method VisitAll() returns (seen: seq<IteratorEntry>)
      requires pos >= entries.Length
      modifies this`pos
      ensures seen == entries[..] && pos >= entries.Length
    {
      seen := [];
      var more := MoveNext();
      while more
        invariant pos <= entries.Length && more == (pos < entries.Length)
        invariant seen == entries[..pos]
        decreases entries.Length - pos
      {
        var kc := KeyAndCurrent();
        seen := seen + [kc.value];
        more := MoveNext();
      }
      assert seen == entries[..];
    }
  }
}
