/** The hash function of util.c and what a bucket array of chains means (hashtable.c). */
module Hashtable {
  import opened Wrappers

  // ---------- hashstr ----------

  const WORD := 0x1_0000_0000_0000_0000
  const SEED := 5381

  /** One turn of the loop of hashstr (76-79): h += (h << 5) + (uint8_t)*key++, in 64-bit arithmetic. */
  function HashStep(h: nat, c: char): nat { (h + (32 * h) % WORD + c as int % 256) % WORD }

  function HashFrom(h: nat, key: string): nat
    decreases |key|
  {
    if key == [] then h else HashFrom(HashStep(h, key[0]), key[1..])
  }

  /** x & m, bit by bit. */
  function BitAnd(x: nat, m: nat): (r: nat)
    ensures r <= m && r <= x
  {
    if x == 0 || m == 0 then 0
    else 2 * BitAnd(x / 2, m / 2) + (if x % 2 == 1 && m % 2 == 1 then 1 else 0)
  }

  /** hashstr(key, mask) (73-81). */
  function Hash(key: string, mask: nat): (h: nat)
    ensures h <= mask
  {
    BitAnd(HashFrom(SEED, key), mask)
  }

  predicate Bit(x: nat, k: nat) {
    if k == 0 then x % 2 == 1 else Bit(x / 2, k - 1)
  }

  /** A bit of x & m is set if and only if it is in both. */
  lemma {:induction false} BitAndBits(x: nat, m: nat, k: nat)
    ensures Bit(BitAnd(x, m), k) <==> Bit(x, k) && Bit(m, k)
    decreases k
  {
    if x == 0 || m == 0 {
      NoBits(k);
    } else if k > 0 {
      BitAndBits(x / 2, m / 2, k - 1);
    }
  }

  lemma {:induction false} NoBits(k: nat)
    ensures !Bit(0, k)
  {
    if k > 0 { NoBits(k - 1); }
  }

  /** The hash without overflow: a number in base 33 whose digits are the bytes, behind `h`. */
  function Base33(h: nat, key: string): nat
    decreases |key|
  {
    if key == [] then h else 33 * Base33(h, key[..|key| - 1]) + key[|key| - 1] as int % 256
  }

  lemma StepMod(h: nat, c: char)
    ensures HashStep(h % WORD, c) == (33 * h + c as int % 256) % WORD
  {
    var b := c as int % 256;
    var l := h % WORD;
    assert 33 * h + b == (33 * l + b) + WORD * (33 * (h / WORD));
    assert l + (32 * l) % WORD + b == (33 * l + b) - WORD * (32 * l / WORD);
    ModPlus(33 * l + b, 33 * (h / WORD));
    ModPlus(33 * l + b, -(32 * l / WORD));
  }

  lemma ModPlus(x: int, k: int)
    ensures (x + WORD * k) % WORD == x % WORD
  {}

  lemma {:induction false} HashFromSnoc(h: nat, key: string, c: char)
    ensures HashFrom(h, key + [c]) == HashStep(HashFrom(h, key), c)
    decreases |key|
  {
    if key == [] {
      assert key + [c] == [c] && [c][1..] == [];
    } else {
      assert (key + [c])[1..] == key[1..] + [c];
      HashFromSnoc(HashStep(h, key[0]), key[1..], c);
    }
  }

  /** The 64-bit hash is that number modulo 2 to the 64. */
  lemma {:induction false} HashIsBase33(h: nat, key: string)
    requires h < WORD
    ensures HashFrom(h, key) == Base33(h, key) % WORD
    decreases |key|
  {
    if key != [] {
      var most, c := key[..|key| - 1], key[|key| - 1];
      HashIsBase33(h, most);
      assert key == most + [c];
      HashFromSnoc(h, most, c);
      StepMod(Base33(h, most), c);
    }
  }

  method HashStr(key: string, mask: nat) returns (r: nat)
    ensures r == Hash(key, mask)
  {
    var h: nat := SEED;
    var i := 0;
    assert key[0..] == key;
    while i < |key|
      invariant i <= |key| && HashFrom(SEED, key) == HashFrom(h, key[i..])
    {
      assert key[i..][0] == key[i] && key[i..][1..] == key[i + 1..];
      h := HashStep(h, key[i]);
      i := i + 1;
    }
    assert key[i..] == [];
    r := BitAnd(h, mask);
  }

  /** HT_SIZE(bits) for the documented range. */
  function HtSize(bits: nat): (n: nat)
    requires 2 <= bits <= 8
    ensures n > bits
  {
    if bits == 2 then 4 else if bits == 3 then 8 else if bits == 4 then 16 else if bits == 5 then 32
    else if bits == 6 then 64 else if bits == 7 then 128 else 256
  }

  /** hashtable.c passes `bits` where the mask is meant: the index is in range all the same. */
  function Index(key: string, bits: nat): (h: nat)
    requires 2 <= bits <= 8
    ensures h < HtSize(bits)
  {
    Hash(key, bits)
  }

  /** The bucket of a key: of the bits of its hash those that are set in `bits`. */
  lemma IndexBits(key: string, bits: nat, k: nat)
    requires 2 <= bits <= 8
    ensures Bit(Index(key, bits), k) <==> Bit(Base33(5381, key) % WORD, k) && Bit(bits, k)
  {
    HashIsBase33(SEED, key);
    BitAndBits(HashFrom(SEED, key), bits, k);
  }

  // ---------- tables as values ----------

  datatype Item = Item(obj: nat, owned: bool)
  datatype Pair = Pair(key: string, item: Item)
  type Table = seq<seq<Pair>>

  /** Position of a key in a chain, or its length. */
  function Position(chain: seq<Pair>, key: string): (k: nat)
    ensures k <= |chain| && (k < |chain| ==> chain[k].key == key)
    ensures forall i | 0 <= i < k :: chain[i].key != key
  {
    if chain == [] || chain[0].key == key then 0 else 1 + Position(chain[1..], key)
  }

  lemma {:induction false} PositionIs(chain: seq<Pair>, key: string, k: nat)
    requires k <= |chain| && (k < |chain| ==> chain[k].key == key)
    requires forall i | 0 <= i < k :: chain[i].key != key
    ensures Position(chain, key) == k
  {
    if k > 0 { PositionIs(chain[1..], key, k - 1); }
  }

  /** Every key of the chain hashes to `h`, and none occurs twice. */
  ghost predicate ChainOk(chain: seq<Pair>, h: nat, bits: nat)
    requires 2 <= bits <= 8
  {
    && (forall k | 0 <= k < |chain| :: Index(chain[k].key, bits) == h)
    && (forall k, l | 0 <= k < l < |chain| :: chain[k].key != chain[l].key)
  }

  ghost predicate TableOk(t: Table, bits: nat) {
    2 <= bits <= 8 && |t| == HtSize(bits) && forall h | 0 <= h < |t| :: ChainOk(t[h], h, bits)
  }

  function ChainGet(chain: seq<Pair>, key: string): Option<Item> {
    var k := Position(chain, key);
    if k < |chain| then Some(chain[k].item) else None
  }

  /** The map a table stands for. */
  function Lookup(t: Table, bits: nat, key: string): Option<Item>
    requires 2 <= bits <= 8 && |t| == HtSize(bits)
  {
    ChainGet(t[Index(key, bits)], key)
  }

  function SetChain(chain: seq<Pair>, key: string, item: Item): seq<Pair> {
    var k := Position(chain, key);
    if k < |chain| then chain[k := Pair(key, item)] else chain + [Pair(key, item)]
  }

  function Without<T>(s: seq<T>, k: nat): (r: seq<T>)
    requires k < |s|
    ensures |r| == |s| - 1
    ensures forall l | 0 <= l < k :: r[l] == s[l]
    ensures forall l | k <= l < |r| :: r[l] == s[l + 1]
  {
    s[..k] + s[k + 1..]
  }

  function DeleteChain(chain: seq<Pair>, key: string): seq<Pair> {
    var k := Position(chain, key);
    if k < |chain| then Without(chain, k) else chain
  }

  function Put(t: Table, h: nat, chain: seq<Pair>): Table
    requires h < |t|
  {
    t[h := chain]
  }

  /** In a chain without duplicates a key's item can be found at any place it stands. */
  lemma GetAt(chain: seq<Pair>, h: nat, bits: nat, k: nat)
    requires 2 <= bits <= 8 && ChainOk(chain, h, bits) && k < |chain|
    ensures ChainGet(chain, chain[k].key) == Some(chain[k].item)
  {
    PositionIs(chain, chain[k].key, k);
  }

  lemma GetNone(chain: seq<Pair>, key: string)
    requires forall i | 0 <= i < |chain| :: chain[i].key != key
    ensures ChainGet(chain, key) == None
  {
    PositionIs(chain, key, |chain|);
  }

  lemma SetChainGets(chain: seq<Pair>, h: nat, bits: nat, key: string, item: Item, other: string)
    requires 2 <= bits <= 8 && ChainOk(chain, h, bits) && Index(key, bits) == h
    ensures ChainOk(SetChain(chain, key, item), h, bits)
    ensures ChainGet(SetChain(chain, key, item), other) == if other == key then Some(item) else ChainGet(chain, other)
  {
    hide Index;
    var k, after := Position(chain, key), SetChain(chain, key, item);
    var m := Position(chain, other);
    if other == key { GetAt(after, h, bits, k); }
    else if m < |chain| { GetAt(after, h, bits, m); }
    else { GetNone(after, other); }
  }

  lemma DeleteChainGets(chain: seq<Pair>, h: nat, bits: nat, key: string, other: string)
    requires 2 <= bits <= 8 && ChainOk(chain, h, bits)
    ensures ChainOk(DeleteChain(chain, key), h, bits)
    ensures ChainGet(DeleteChain(chain, key), other) == if other == key then None else ChainGet(chain, other)
  {
    hide Index;
    var k, after := Position(chain, key), DeleteChain(chain, key);
    var m := Position(chain, other);
    if other == key || m == |chain| { GetNone(after, other); }
    else if m < k { GetAt(after, h, bits, m); }
    else { GetAt(after, h, bits, m - 1); }
  }

  function TableSet(t: Table, bits: nat, key: string, item: Item): Table
    requires 2 <= bits <= 8 && |t| == HtSize(bits)
  {
    Put(t, Index(key, bits), SetChain(t[Index(key, bits)], key, item))
  }

  function TableDelete(t: Table, bits: nat, key: string): Table
    requires 2 <= bits <= 8 && |t| == HtSize(bits)
  {
    Put(t, Index(key, bits), DeleteChain(t[Index(key, bits)], key))
  }

  /** IBHashTable_set is map update. */
  lemma SetUpdates(t: Table, bits: nat, key: string, item: Item, other: string)
    requires TableOk(t, bits)
    ensures TableOk(TableSet(t, bits, key, item), bits)
    ensures Lookup(TableSet(t, bits, key, item), bits, other) == if other == key then Some(item) else Lookup(t, bits, other)
  {
    hide ChainGet, SetChain, Index;
    SetChainGets(t[Index(key, bits)], Index(key, bits), bits, key, item, other);
  }

  /** IBHashTable_delete is map removal. */
  lemma DeleteRemoves(t: Table, bits: nat, key: string, other: string)
    requires TableOk(t, bits)
    ensures TableOk(TableDelete(t, bits, key), bits)
    ensures Lookup(TableDelete(t, bits, key), bits, other) == if other == key then None else Lookup(t, bits, other)
  {
    hide ChainGet, DeleteChain, Index;
    DeleteChainGets(t[Index(key, bits)], Index(key, bits), bits, key, other);
  }

  // ---------- totals over a table ----------

  /** The summed length of the chains. */
  function Count(t: Table): nat {
    if t == [] then 0 else |t[0]| + Count(t[1..])
  }

  function OwnedItem(i: Item): multiset<nat> { if i.owned then multiset{i.obj} else multiset{} }

  /** The objects with a deleter, with multiplicity. */
  function OwnedChain(s: seq<Pair>): multiset<nat> {
    if s == [] then multiset{} else OwnedItem(s[0].item) + OwnedChain(s[1..])
  }

  function Owned(t: Table): multiset<nat> {
    if t == [] then multiset{} else OwnedChain(t[0]) + Owned(t[1..])
  }

  lemma {:induction false} CountAfterPut(t: Table, h: nat, chain: seq<Pair>)
    requires h < |t|
    ensures Count(Put(t, h, chain)) + |t[h]| == Count(t) + |chain|
  {
    if h == 0 {
      assert Put(t, 0, chain)[1..] == t[1..];
    } else {
      assert Put(t, h, chain)[1..] == Put(t[1..], h - 1, chain);
      CountAfterPut(t[1..], h - 1, chain);
    }
  }

  lemma OwnedStep(t: Table)
    requires t != []
    ensures Owned(t) == OwnedChain(t[0]) + Owned(t[1..])
  {}

  lemma AddLeft(a: multiset<nat>, x: multiset<nat>, c: multiset<nat>, y: multiset<nat>, d: multiset<nat>)
    requires x + c == y + d
    ensures (a + x) + c == (a + y) + d
  {
    assert (a + x) + c == a + (x + c) && (a + y) + d == a + (y + d);
  }

  lemma {:induction false} OwnedAfterPut(t: Table, h: nat, chain: seq<Pair>)
    requires h < |t|
    ensures Owned(Put(t, h, chain)) + OwnedChain(t[h]) == Owned(t) + OwnedChain(chain)
  {
    hide Owned, OwnedChain;
    var u := Put(t, h, chain);
    OwnedStep(t);
    OwnedStep(u);
    if h == 0 {
      assert u[1..] == t[1..];
    } else {
      assert u[1..] == Put(t[1..], h - 1, chain);
      OwnedAfterPut(t[1..], h - 1, chain);
      AddLeft(OwnedChain(t[0]), Owned(u[1..]), OwnedChain(t[h]), Owned(t[1..]), OwnedChain(chain));
    }
  }

  lemma {:induction false} OwnedChainAppend(a: seq<Pair>, b: seq<Pair>)
    ensures OwnedChain(a + b) == OwnedChain(a) + OwnedChain(b)
  {
    if a == [] {
      assert a + b == b;
    } else {
      assert (a + b)[1..] == a[1..] + b;
      OwnedChainAppend(a[1..], b);
    }
  }

  lemma OwnedAround(pre: seq<Pair>, p: Pair, post: seq<Pair>)
    ensures OwnedChain(pre + [p] + post) == OwnedChain(pre) + OwnedItem(p.item) + OwnedChain(post)
  {
    OwnedChainAppend(pre + [p], post);
    OwnedChainAppend(pre, [p]);
    assert [p][1..] == [];
  }

  lemma OwnedAfterUpdate(s: seq<Pair>, k: nat, p: Pair)
    requires k < |s|
    ensures OwnedChain(s[k := p]) + OwnedItem(s[k].item) == OwnedChain(s) + OwnedItem(p.item)
  {
    hide OwnedChain;
    assert s == s[..k] + [s[k]] + s[k + 1..];
    assert s[k := p] == s[..k] + [p] + s[k + 1..];
    OwnedAround(s[..k], s[k], s[k + 1..]);
    OwnedAround(s[..k], p, s[k + 1..]);
  }

  lemma SwapLast(a: multiset<nat>, b: multiset<nat>, c: multiset<nat>)
    ensures a + b + c == a + c + b
  {}

  lemma OwnedAfterRemoval(s: seq<Pair>, k: nat)
    requires k < |s|
    ensures OwnedChain(Without(s, k)) + OwnedItem(s[k].item) == OwnedChain(s)
  {
    hide *;
    var pre, post := s[..k], s[k + 1..];
    assert s == pre + [s[k]] + post;
    assert Without(s, k) == pre + post;
    OwnedAround(pre, s[k], post);
    OwnedChainAppend(pre, post);
    SwapLast(OwnedChain(pre), OwnedChain(post), OwnedItem(s[k].item));
  }

  lemma OwnedAfterAppend(s: seq<Pair>, p: Pair)
    ensures OwnedChain(s + [p]) == OwnedChain(s) + OwnedItem(p.item)
  {
    OwnedChainAppend(s, [p]);
    assert [p][1..] == [];
  }

  /** What the deleter has to be called for when a key's object is replaced or removed. */
  function Dropped(was: Option<Item>): multiset<nat> {
    match was case Some(item) => OwnedItem(item) case None => multiset{}
  }

  /** A deleter runs for the object that goes, if it has one. */
  lemma DroppedIs(was: Option<Item>)
    ensures Dropped(was) == match was
                            case Some(item) => if item.owned then multiset{item.obj} else multiset{}
                            case None => multiset{}
    ensures was.Some? ==> OwnedItem(was.value) == Dropped(was)
  {}

  function One<T>(o: Option<T>): nat { if o.Some? then 1 else 0 }

  lemma SwapAdded(a: multiset<nat>, x: multiset<nat>, d: multiset<nat>, b: multiset<nat>, y: multiset<nat>, c: multiset<nat>)
    requires a + x == b + y && y + d == x + c
    ensures a + d == b + c
  {
    forall o ensures (a + d)[o] == (b + c)[o] {
      assert (a + x)[o] == (b + y)[o] && (y + d)[o] == (x + c)[o];
    }
  }

  lemma SetChainTotals(s: seq<Pair>, key: string, item: Item)
    ensures |SetChain(s, key, item)| + One(ChainGet(s, key)) == |s| + 1
    ensures OwnedChain(SetChain(s, key, item)) + Dropped(ChainGet(s, key)) == OwnedChain(s) + OwnedItem(item)
  {
    var k := Position(s, key);
    if k < |s| { OwnedAfterUpdate(s, k, Pair(key, item)); } else { OwnedAfterAppend(s, Pair(key, item)); }
  }

  /** Set and delete in terms of the place where the search ends. */
  lemma AtPosition(t: Table, bits: nat, key: string, item: Item, h: nat, k: nat)
    requires TableOk(t, bits) && h == Index(key, bits) && k == Position(t[h], key)
    ensures k < |t[h]| ==>
      && TableSet(t, bits, key, item) == Put(t, h, t[h][k := Pair(key, item)])
      && TableDelete(t, bits, key) == Put(t, h, Without(t[h], k))
      && One(Lookup(t, bits, key)) == 1 && Dropped(Lookup(t, bits, key)) == OwnedItem(t[h][k].item)
    ensures k == |t[h]| ==>
      && TableSet(t, bits, key, item) == Put(t, h, t[h] + [Pair(key, item)])
      && TableDelete(t, bits, key) == t
      && One(Lookup(t, bits, key)) == 0 && Dropped(Lookup(t, bits, key)) == multiset{}
  {
    hide Index, Without, OwnedItem;
  }

  lemma DeleteChainTotals(s: seq<Pair>, key: string)
    ensures |DeleteChain(s, key)| + One(ChainGet(s, key)) == |s|
    ensures OwnedChain(DeleteChain(s, key)) + Dropped(ChainGet(s, key)) == OwnedChain(s)
  {
    var k := Position(s, key);
    if k < |s| { OwnedAfterRemoval(s, k); }
  }

  /** Setting a key adds one pair unless the key is there; the old object goes, the new one comes. */
  lemma SetTotals(t: Table, bits: nat, key: string, item: Item)
    requires TableOk(t, bits)
    ensures var u := TableSet(t, bits, key, item);
            && Count(u) + One(Lookup(t, bits, key)) == Count(t) + 1
            && Owned(u) + Dropped(Lookup(t, bits, key)) == Owned(t) + OwnedItem(item)
  {
    hide Index, ChainOk, Count, Owned, OwnedChain, SetChain, ChainGet, Put, Dropped, OwnedItem;
    var h := Index(key, bits);
    var s := SetChain(t[h], key, item);
    SetChainTotals(t[h], key, item);
    CountAfterPut(t, h, s);
    OwnedAfterPut(t, h, s);
    SwapAdded(Owned(Put(t, h, s)), OwnedChain(t[h]), Dropped(ChainGet(t[h], key)), Owned(t), OwnedChain(s), OwnedItem(item));
  }

  lemma DeleteTotals(t: Table, bits: nat, key: string)
    requires TableOk(t, bits)
    ensures var u := TableDelete(t, bits, key);
            && Count(u) + One(Lookup(t, bits, key)) == Count(t)
            && Owned(u) + Dropped(Lookup(t, bits, key)) == Owned(t)
  {
    hide Index, ChainOk, Count, Owned, OwnedChain, DeleteChain, ChainGet, Put, Dropped, OwnedItem;
    var h := Index(key, bits);
    var s := DeleteChain(t[h], key);
    DeleteChainTotals(t[h], key);
    CountAfterPut(t, h, s);
    OwnedAfterPut(t, h, s);
    SwapAdded(Owned(Put(t, h, s)), OwnedChain(t[h]), Dropped(ChainGet(t[h], key)), Owned(t), OwnedChain(s), multiset{});
  }

  lemma Balance(d: multiset<nat>, o: multiset<nat>, s: multiset<nat>, dd: multiset<nat>, u: multiset<nat>, i: multiset<nat>)
    requires d + o == s && u + dd == o + i
    ensures d + dd + u == s + i
  {
    assert d + dd + u == d + (u + dd) && d + (o + i) == s + i;
  }

  /** Everything that IBHashTable_set does to the table, and that the deleter calls make up for the objects gone. */
  lemma SetDoes(t: Table, bits: nat, key: string, item: Item, destroyed: multiset<nat>, stored: multiset<nat>)
    requires TableOk(t, bits) && destroyed + Owned(t) == stored
    ensures var u := TableSet(t, bits, key, item);
            && TableOk(u, bits) && Count(u) + One(Lookup(t, bits, key)) == Count(t) + 1
            && destroyed + Dropped(Lookup(t, bits, key)) + Owned(u) == stored + OwnedItem(item)
            && forall other :: Lookup(u, bits, other) == if other == key then Some(item) else Lookup(t, bits, other)
  {
    SetTotals(t, bits, key, item);
    SetUpdates(t, bits, key, item, key);
    hide Lookup, TableSet, Owned, OwnedItem, Dropped;
    Balance(destroyed, Owned(t), stored, Dropped(Lookup(t, bits, key)), Owned(TableSet(t, bits, key, item)), OwnedItem(item));
    forall other
      ensures Lookup(TableSet(t, bits, key, item), bits, other) == if other == key then Some(item) else Lookup(t, bits, other)
    {
      SetUpdates(t, bits, key, item, other);
    }
  }

  lemma DeleteDoes(t: Table, bits: nat, key: string, destroyed: multiset<nat>, stored: multiset<nat>)
    requires TableOk(t, bits) && destroyed + Owned(t) == stored
    ensures var u := TableDelete(t, bits, key);
            && TableOk(u, bits) && Count(u) + One(Lookup(t, bits, key)) == Count(t)
            && destroyed + Dropped(Lookup(t, bits, key)) + Owned(u) == stored
            && forall other :: Lookup(u, bits, other) == if other == key then None else Lookup(t, bits, other)
  {
    DeleteTotals(t, bits, key);
    DeleteRemoves(t, bits, key, key);
    hide Lookup, TableDelete, Owned, Dropped;
    Balance(destroyed, Owned(t), stored, Dropped(Lookup(t, bits, key)), Owned(TableDelete(t, bits, key)), multiset{});
    forall other ensures Lookup(TableDelete(t, bits, key), bits, other) == if other == key then None else Lookup(t, bits, other)
    {
      DeleteRemoves(t, bits, key, other);
    }
  }

  /** All pairs, bucket after bucket. */
  function Flatten(t: Table): seq<Pair> {
    if t == [] then [] else t[0] + Flatten(t[1..])
  }

  lemma {:induction false} FlattenTotals(t: Table)
    ensures |Flatten(t)| == Count(t) && OwnedChain(Flatten(t)) == Owned(t)
  {
    if t != [] {
      FlattenTotals(t[1..]);
      OwnedChainAppend(t[0], Flatten(t[1..]));
    }
  }

  /** Where the pairs of bucket `h` start among all pairs. */
  function Before(t: Table, h: nat): (n: nat)
    requires h <= |t|
    decreases h
  {
    if h == 0 then 0 else |t[0]| + Before(t[1..], h - 1)
  }

  lemma {:induction false} BeforeNext(t: Table, h: nat)
    requires h < |t|
    ensures Before(t, h + 1) == Before(t, h) + |t[h]|
    decreases h
  {
    if h > 0 { BeforeNext(t[1..], h - 1); }
  }

  lemma {:induction false} BeforeAll(t: Table)
    ensures Before(t, |t|) == Count(t)
    decreases |t|
  {
    if t != [] { BeforeAll(t[1..]); }
  }

  lemma {:induction false} FlattenAt(t: Table, h: nat, k: nat)
    requires h < |t| && k < |t[h]|
    ensures Before(t, h) + k < |Flatten(t)| && Flatten(t)[Before(t, h) + k] == t[h][k]
    decreases h
  {
    if h > 0 { FlattenAt(t[1..], h - 1, k); }
  }

  /** The pairs of bucket `h` among all pairs. */
  lemma FlattenChunk(t: Table, h: nat)
    requires h < |t|
    ensures Before(t, h + 1) == Before(t, h) + |t[h]| <= |Flatten(t)|
    ensures forall i | Before(t, h) <= i < Before(t, h + 1) :: Flatten(t)[i] == t[h][i - Before(t, h)]
  {
    BeforeNext(t, h);
    if t[h] != [] { FlattenAt(t, h, |t[h]| - 1); } else { BeforeBound(t, h); }
    forall i | Before(t, h) <= i < Before(t, h + 1) ensures Flatten(t)[i] == t[h][i - Before(t, h)] {
      FlattenAt(t, h, i - Before(t, h));
    }
  }

  lemma {:induction false} BeforeBound(t: Table, h: nat)
    requires h <= |t|
    ensures Before(t, h) <= |Flatten(t)|
    decreases h
  {
    if h > 0 { BeforeBound(t[1..], h - 1); }
  }

  lemma {:induction false} FlattenWhere(t: Table, i: nat) returns (h: nat, k: nat)
    requires i < |Flatten(t)|
    ensures h < |t| && k < |t[h]| && i == Before(t, h) + k && Flatten(t)[i] == t[h][k]
    decreases |t|
  {
    if i < |t[0]| {
      h, k := 0, i;
    } else {
      h, k := FlattenWhere(t[1..], i - |t[0]|);
      h := h + 1;
    }
  }

  /** Reading out all pairs meets every key of the map once, with its object. */
  lemma FlattenOnce(t: Table, bits: nat)
    requires TableOk(t, bits)
    ensures var all := Flatten(t);
            && (forall i | 0 <= i < |all| :: Lookup(t, bits, all[i].key) == Some(all[i].item))
            && (forall i, j | 0 <= i < j < |all| :: all[i].key != all[j].key)
            && (forall key | Lookup(t, bits, key).Some? :: exists i | 0 <= i < |all| :: all[i].key == key)
  {
    hide Index, Flatten, Before;
    var all := Flatten(t);
    forall i | 0 <= i < |all| ensures Lookup(t, bits, all[i].key) == Some(all[i].item) {
      var h, k := FlattenWhere(t, i);
      GetAt(t[h], h, bits, k);
    }
    forall i, j | 0 <= i < j < |all| ensures all[i].key != all[j].key {
      var h, k := FlattenWhere(t, i);
      var g, l := FlattenWhere(t, j);
    }
    forall key | Lookup(t, bits, key).Some? ensures exists i | 0 <= i < |all| :: all[i].key == key {
      var h := Index(key, bits);
      FlattenAt(t, h, Position(t[h], key));
    }
  }

  lemma {:induction false} EmptyTotals(t: Table)
    requires forall h | 0 <= h < |t| :: t[h] == []
    ensures Count(t) == 0 && Owned(t) == multiset{}
  {
    if t != [] { EmptyTotals(t[1..]); }
  }
}
