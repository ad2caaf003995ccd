/** Events (event.c): registrations with tombstones, lazy compaction, and handlers that change the very event
    that is being raised. */
module Event {
  import opened Sequences

  /** EvHandler; a handler of 0 is a tombstone. `tag` numbers the registrations and is history only. */
  datatype Slot = Slot(receiver: nat, handler: nat, id: int, tag: nat)

  /** handlers[..size] and dirty; `count` is the number of registrations so far. */
  datatype Ev = Ev(slots: seq<Slot>, dirty: bool, count: nat)

  predicate IsLive(s: Slot) { s.handler != 0 }

  function Live(slots: seq<Slot>): seq<Slot> {
    if slots == [] then [] else LiveOne(slots[0]) + Live(slots[1..])
  }

  function LiveOne(s: Slot): seq<Slot> { if IsLive(s) then [s] else [] }

  predicate Matches(s: Slot, receiver: nat, handler: nat, id: int) {
    s.receiver == receiver && s.handler == handler && s.id == id
  }

  function FirstMatch(slots: seq<Slot>, receiver: nat, handler: nat, id: int): (k: nat)
    ensures k <= |slots| && (k < |slots| ==> Matches(slots[k], receiver, handler, id))
    ensures forall i | 0 <= i < k :: !Matches(slots[i], receiver, handler, id)
  {
    if slots == [] || Matches(slots[0], receiver, handler, id) then 0
    else 1 + FirstMatch(slots[1..], receiver, handler, id)
  }

  // ---------- the three operations ----------

  function Compact(e: Ev): Ev { if e.dirty then e.(slots := Live(e.slots), dirty := false) else e }

  /** Event_register (38-68). */
  function Register(e: Ev, receiver: nat, handler: nat, id: int): Ev {
    var c := Compact(e);
    c.(slots := c.slots + [Slot(receiver, handler, id, c.count)], count := c.count + 1)
  }

  /** Event_unregister (70-85). */
  function Unregister(e: Ev, receiver: nat, handler: nat, id: int): Ev {
    var k := FirstMatch(e.slots, receiver, handler, id);
    if k < |e.slots| then e.(slots := e.slots[k := e.slots[k].(handler := 0)], dirty := true) else e
  }

  /** What a handler does to the event while it runs. */
  datatype Op = Reg(receiver: nat, handler: nat, id: int) | Unreg(receiver: nat, handler: nat, id: int)

  predicate OpOk(op: Op) { op.handler != 0 }

  function Do(e: Ev, op: Op): Ev {
    match op
    case Reg(r, h, i) => Register(e, r, h, i)
    case Unreg(r, h, i) => Unregister(e, r, h, i)
  }

  function DoAll(e: Ev, ops: seq<Op>): Ev
    decreases |ops|
  {
    if ops == [] then e else DoAll(Do(e, ops[0]), ops[1..])
  }

  function Regs(ops: seq<Op>): nat {
    if ops == [] then 0 else (if ops[0].Reg? then 1 else 0) + Regs(ops[1..])
  }

  /** A script lists what the first, second, ... handler called does; later ones do nothing. */
  function ScriptRegs(script: seq<seq<Op>>): nat {
    if script == [] then 0 else Regs(script[0]) + ScriptRegs(script[1..])
  }

  function Head(script: seq<seq<Op>>): seq<Op> { if script == [] then [] else script[0] }

  function Tail(script: seq<seq<Op>>): seq<seq<Op>> { if script == [] then [] else script[1..] }

  lemma {:induction false} LiveLength(slots: seq<Slot>)
    ensures |Live(slots)| <= |slots|
  {
    if slots != [] { LiveLength(slots[1..]); }
  }

  lemma {:induction false} DoAllGrows(e: Ev, ops: seq<Op>)
    ensures |DoAll(e, ops).slots| <= |e.slots| + Regs(ops)
    ensures e.count <= DoAll(e, ops).count <= e.count + Regs(ops)
    decreases |ops|
  {
    if ops != [] {
      LiveLength(e.slots);
      DoAllGrows(Do(e, ops[0]), ops[1..]);
    }
  }

  /** The loop of Event_raise (89-97) from index `i` on: the slots called, in order, and the event afterwards. */
  function Raise(e: Ev, i: nat, id: int, script: seq<seq<Op>>): (seq<Slot>, Ev)
    decreases |e.slots| + ScriptRegs(script) - i
  {
    if i >= |e.slots| then ([], e)
    else if e.slots[i].id == id && IsLive(e.slots[i]) then
      DoAllGrows(e, Head(script));
      var (calls, after) := Raise(DoAll(e, Head(script)), i + 1, id, Tail(script));
      ([e.slots[i]] + calls, after)
    else Raise(e, i + 1, id, script)
  }

  // ---------- the intended meaning: a plain list of registrations ----------

  function DropFirst(l: seq<Slot>, receiver: nat, handler: nat, id: int): seq<Slot> {
    var k := FirstMatch(l, receiver, handler, id);
    if k < |l| then l[..k] + l[k + 1..] else l
  }

  /** The registrations in force, oldest first, and the number made so far. */
  datatype Registry = Registry(list: seq<Slot>, count: nat)

  function ListDo(l: Registry, op: Op): Registry {
    match op
    case Reg(r, h, i) => Registry(l.list + [Slot(r, h, i, l.count)], l.count + 1)
    case Unreg(r, h, i) => l.(list := DropFirst(l.list, r, h, i))
  }

  function ListDoAll(l: Registry, ops: seq<Op>): Registry
    decreases |ops|
  {
    if ops == [] then l else ListDoAll(ListDo(l, ops[0]), ops[1..])
  }

  /** The oldest registration for `id` that is not older than `from`. */
  function NextDue(list: seq<Slot>, id: int, from: nat): (k: nat)
    ensures k <= |list| && (k < |list| ==> list[k].id == id && from <= list[k].tag)
  {
    if list == [] || (list[0].id == id && from <= list[0].tag) then 0 else 1 + NextDue(list[1..], id, from)
  }

  lemma {:induction false} ListDoAllGrows(l: Registry, ops: seq<Op>)
    ensures l.count <= ListDoAll(l, ops).count <= l.count + Regs(ops)
    decreases |ops|
  {
    if ops != [] { ListDoAllGrows(ListDo(l, ops[0]), ops[1..]); }
  }

  /** Whoever is in force when its turn comes is called, in order of registration, each registration once. */
  function RaiseList(l: Registry, id: int, from: nat, script: seq<seq<Op>>): (seq<Slot>, Registry)
    decreases l.count + ScriptRegs(script) - from
  {
    var k := NextDue(l.list, id, from);
    if k == |l.list| || l.list[k].tag >= l.count then ([], l)
    else
      ListDoAllGrows(l, Head(script));
      var (calls, after) := RaiseList(ListDoAll(l, Head(script)), id, l.list[k].tag + 1, Tail(script));
      ([l.list[k]] + calls, after)
  }

  // ---------- refinement of the single operations ----------

  ghost predicate Valid(e: Ev) {
    && (forall a, b | 0 <= a < b < |e.slots| :: e.slots[a].tag < e.slots[b].tag)
    && (forall a | 0 <= a < |e.slots| :: e.slots[a].tag < e.count)
    && (!e.dirty ==> forall a | 0 <= a < |e.slots| :: IsLive(e.slots[a]))
  }

  function Abs(e: Ev): Registry { Registry(Live(e.slots), e.count) }

  lemma {:induction false} LiveAppend(a: seq<Slot>, b: seq<Slot>)
    ensures Live(a + b) == Live(a) + Live(b)
  {
    if a == [] {
      assert a + b == b;
    } else {
      hide LiveOne;
      assert (a + b)[1..] == a[1..] + b;
      LiveAppend(a[1..], b);
      Reassociate(LiveOne(a[0]), Live(a[1..]), Live(b));
    }
  }

  lemma {:induction false} LiveAll(s: seq<Slot>)
    requires forall a | 0 <= a < |s| :: IsLive(s[a])
    ensures Live(s) == s
  {
    if s != [] { LiveAll(s[1..]); }
  }

  lemma LiveSplit(s: seq<Slot>, k: nat)
    requires k < |s|
    ensures Live(s) == Live(s[..k]) + (LiveOne(s[k]) + Live(s[k + 1..]))
  {
    hide LiveOne;
    assert s == s[..k] + s[k..];
    LiveAppend(s[..k], s[k..]);
    assert s[k..][0] == s[k] && s[k..][1..] == s[k + 1..];
  }

  /** Every live slot stems from a slot, in the same order. */
  lemma {:induction false} LiveFrom(s: seq<Slot>)
    requires forall a, b | 0 <= a < b < |s| :: s[a].tag < s[b].tag
    ensures forall a | 0 <= a < |Live(s)| :: IsLive(Live(s)[a]) && Live(s)[a] in s
    ensures forall a, b | 0 <= a < b < |Live(s)| :: Live(s)[a].tag < Live(s)[b].tag
  {
    if s != [] {
      LiveFrom(s[1..]);
      forall a, b | 0 <= a < b < |Live(s)| ensures Live(s)[a].tag < Live(s)[b].tag {
        if IsLive(s[0]) {
          assert Live(s)[b] == Live(s[1..])[b - 1];
          if a == 0 {
            var c :| 0 <= c < |s[1..]| && s[1..][c] == Live(s[1..])[b - 1];
            assert s[c + 1] == Live(s)[b];
          } else {
            assert Live(s)[a] == Live(s[1..])[a - 1];
          }
        } else {
          assert Live(s) == Live(s[1..]);
        }
      }
    }
  }

  lemma CompactKeeps(e: Ev)
    requires Valid(e)
    ensures Valid(Compact(e)) && Abs(Compact(e)) == Abs(e) && Compact(e).slots == Live(e.slots)
  {
    LiveFrom(e.slots);
    if e.dirty {
      LiveAll(Live(e.slots));
    } else {
      LiveAll(e.slots);
    }
  }

  lemma RegisterAppends(e: Ev, receiver: nat, handler: nat, id: int)
    requires Valid(e) && handler != 0
    ensures Valid(Register(e, receiver, handler, id))
    ensures Abs(Register(e, receiver, handler, id)) == ListDo(Abs(e), Reg(receiver, handler, id))
    ensures Live(Register(e, receiver, handler, id).slots) == Live(e.slots) + [Slot(receiver, handler, id, e.count)]
  {
    hide Live, LiveOne, Compact;
    var c, x := Compact(e), Slot(receiver, handler, id, e.count);
    CompactKeeps(e);
    LiveAll([x]);
    LiveAppend(c.slots, [x]);
  }

  lemma {:induction false} FirstMatchIs(l: seq<Slot>, receiver: nat, handler: nat, id: int, k: nat)
    requires k <= |l| && (k < |l| ==> Matches(l[k], receiver, handler, id))
    requires forall i | 0 <= i < k :: !Matches(l[i], receiver, handler, id)
    ensures FirstMatch(l, receiver, handler, id) == k
  {
    if k > 0 { FirstMatchIs(l[1..], receiver, handler, id, k - 1); }
  }

  lemma DropFirstAt(pre: seq<Slot>, x: Slot, post: seq<Slot>, receiver: nat, handler: nat, id: int)
    requires Matches(x, receiver, handler, id)
    requires forall i | 0 <= i < |pre| :: !Matches(pre[i], receiver, handler, id)
    ensures DropFirst(pre + ([x] + post), receiver, handler, id) == pre + post
  {
    var l := pre + ([x] + post);
    FirstMatchIs(l, receiver, handler, id, |pre|);
    assert l[..|pre|] == pre && l[|pre| + 1..] == post;
  }

  lemma LiveWithout(s: seq<Slot>, k: nat)
    requires k < |s| && IsLive(s[k])
    ensures Live(s) == Live(s[..k]) + ([s[k]] + Live(s[k + 1..]))
    ensures Live(s[k := s[k].(handler := 0)]) == Live(s[..k]) + Live(s[k + 1..])
  {
    hide Live;
    var dead := s[k].(handler := 0);
    LiveSplit(s, k);
    LiveSplit(s[k := dead], k);
    assert s[k := dead][..k] == s[..k] && s[k := dead][k + 1..] == s[k + 1..];
    assert [] + Live(s[k + 1..]) == Live(s[k + 1..]);
  }

  /** `m` is `l` without its oldest registration of just that handler by just that receiver for just that id: all others
      stay, in order, and nothing goes if there is no such registration. */
  ghost predicate Without(l: seq<Slot>, m: seq<Slot>, receiver: nat, handler: nat, id: int) {
    if exists k :: 0 <= k < |l| && l[k].receiver == receiver && l[k].handler == handler && l[k].id == id then
      exists k :: 0 <= k < |l| && l[k].receiver == receiver && l[k].handler == handler && l[k].id == id
        && m == l[..k] + l[k + 1..]
        && forall i | 0 <= i < k :: l[i].receiver != receiver || l[i].handler != handler || l[i].id != id
    else m == l
  }

  lemma DropIsWithout(l: seq<Slot>, receiver: nat, handler: nat, id: int)
    ensures Without(l, DropFirst(l, receiver, handler, id), receiver, handler, id)
  {
    var k := FirstMatch(l, receiver, handler, id);
    assert forall i | 0 <= i < k :: !Matches(l[i], receiver, handler, id);
    if k < |l| { assert Matches(l[k], receiver, handler, id) && DropFirst(l, receiver, handler, id) == l[..k] + l[k + 1..]; }
  }

  /** Tombstones never match, so the first match among all slots is the first among the live ones. */
  lemma UnregisterDrops(e: Ev, receiver: nat, handler: nat, id: int)
    requires Valid(e) && handler != 0
    ensures Valid(Unregister(e, receiver, handler, id))
    ensures Abs(Unregister(e, receiver, handler, id)) == ListDo(Abs(e), Unreg(receiver, handler, id))
    ensures Without(Abs(e).list, Abs(Unregister(e, receiver, handler, id)).list, receiver, handler, id)
  {
    DropIsWithout(Live(e.slots), receiver, handler, id);
    hide Live, DropFirst;
    var k := FirstMatch(e.slots, receiver, handler, id);
    if k < |e.slots| {
      LiveWithout(e.slots, k);
      LiveFrom(e.slots[..k]);
      DropFirstAt(Live(e.slots[..k]), e.slots[k], Live(e.slots[k + 1..]), receiver, handler, id);
    } else {
      LiveFrom(e.slots);
      DropNothing(Live(e.slots), receiver, handler, id);
    }
  }

  lemma DropNothing(l: seq<Slot>, receiver: nat, handler: nat, id: int)
    requires forall i | 0 <= i < |l| :: !Matches(l[i], receiver, handler, id)
    ensures DropFirst(l, receiver, handler, id) == l
  {}

  lemma DoRefines(e: Ev, op: Op)
    requires Valid(e) && OpOk(op)
    ensures Valid(Do(e, op)) && Abs(Do(e, op)) == ListDo(Abs(e), op)
  {
    match op
    case Reg(r, h, i) => RegisterAppends(e, r, h, i);
    case Unreg(r, h, i) => UnregisterDrops(e, r, h, i);
  }

  lemma {:induction false} DoAllRefines(e: Ev, ops: seq<Op>)
    requires Valid(e) && forall k | 0 <= k < |ops| :: OpOk(ops[k])
    ensures Valid(DoAll(e, ops)) && Abs(DoAll(e, ops)) == ListDoAll(Abs(e), ops)
    decreases |ops|
  {
    if ops != [] {
      hide Do, ListDo, Valid, Abs;
      assert OpOk(ops[0]);
      DoRefines(e, ops[0]);
      DoAllRefines(Do(e, ops[0]), ops[1..]);
    }
  }

  // ---------- raising an event whose handlers change it ----------

  predicate Due(s: Slot, id: int) { s.id == id && IsLive(s) }

  /** No registration newer than `tag` that is due stands at or before the loop index. */
  predicate NoneBehind(e: Ev, i: nat, id: int, tag: nat) {
    forall a | 0 <= a <= i && a < |e.slots| && tag < e.slots[a].tag :: !Due(e.slots[a], id)
  }

  ghost predicate ScriptOk(script: seq<seq<Op>>) {
    forall k, j | 0 <= k < |script| && 0 <= j < |script[k]| :: OpOk(script[k][j])
  }

  /** Whenever a handler returns, none is behind. */
  predicate NothingMissed(e: Ev, i: nat, id: int, script: seq<seq<Op>>)
    decreases |e.slots| + ScriptRegs(script) - i
  {
    i < |e.slots| ==>
      if Due(e.slots[i], id) then
        DoAllGrows(e, Head(script));
        var after := DoAll(e, Head(script));
        NoneBehind(after, i, id, e.slots[i].tag) && NothingMissed(after, i + 1, id, Tail(script))
      else NothingMissed(e, i + 1, id, script)
  }

  /** Every registration from `from` on that is due stands at or behind index `i`, and only such do. */
  ghost predicate Cursor(e: Ev, i: nat, id: int, from: nat) {
    && (forall a | i <= a < |e.slots| :: from <= e.slots[a].tag)
    && (forall a | 0 <= a < i && a < |e.slots| && from <= e.slots[a].tag :: !Due(e.slots[a], id))
  }

  /** Behind index `i` stand only slots newer than `tag`. */
  predicate NewerBehind(e: Ev, i: nat, tag: nat) { forall a | i < a < |e.slots| :: tag < e.slots[a].tag }

  /** A live slot never moves up. */
  lemma {:induction false} LiveIndex(s: seq<Slot>, b: nat) returns (a: nat)
    requires b < |Live(s)|
    ensures b <= a < |s| && s[a] == Live(s)[b]
  {
    if IsLive(s[0]) && b == 0 {
      a := 0;
    } else {
      a := LiveIndex(s[1..], if IsLive(s[0]) then b - 1 else b);
      a := a + 1;
    }
  }

  lemma {:induction false} LiveHas(s: seq<Slot>, a: nat)
    requires a < |s| && IsLive(s[a])
    ensures s[a] in Live(s)
  {
    if a > 0 { LiveHas(s[1..], a - 1); }
  }

  lemma DoKeepsNewer(e: Ev, op: Op, i: nat, tag: nat)
    requires Valid(e) && OpOk(op) && tag < e.count && NewerBehind(e, i, tag)
    ensures NewerBehind(Do(e, op), i, tag)
  {
    if op.Reg? {
      CompactKeeps(e);
      hide Live, Valid;
      LiveKeepsNewer(e, i, tag);
    } else {
      hide Live, Valid;
    }
  }

  lemma LiveKeepsNewer(e: Ev, i: nat, tag: nat)
    requires NewerBehind(e, i, tag)
    ensures forall b | i < b < |Live(e.slots)| :: tag < Live(e.slots)[b].tag
  {
    hide Live;
    forall b | i < b < |Live(e.slots)| ensures tag < Live(e.slots)[b].tag {
      var a := LiveIndex(e.slots, b);
    }
  }

  lemma {:induction false} DoAllKeepsNewer(e: Ev, ops: seq<Op>, i: nat, tag: nat)
    requires Valid(e) && (forall k | 0 <= k < |ops| :: OpOk(ops[k])) && tag < e.count && NewerBehind(e, i, tag)
    ensures NewerBehind(DoAll(e, ops), i, tag)
    decreases |ops|
  {
    if ops != [] {
      assert OpOk(ops[0]);
      DoRefines(e, ops[0]);
      DoKeepsNewer(e, ops[0], i, tag);
      DoAllKeepsNewer(Do(e, ops[0]), ops[1..], i, tag);
    }
  }

  lemma {:induction false} NextDueIs(l: seq<Slot>, id: int, from: nat, k: nat)
    requires k <= |l| && (k < |l| ==> l[k].id == id && from <= l[k].tag)
    requires forall a | 0 <= a < k :: !(l[a].id == id && from <= l[a].tag)
    ensures NextDue(l, id, from) == k
  {
    if k > 0 { NextDueIs(l[1..], id, from, k - 1); }
  }

  lemma NoneDue(e: Ev, i: nat, id: int, from: nat)
    requires Valid(e) && Cursor(e, i, id, from) && i >= |e.slots|
    ensures NextDue(Live(e.slots), id, from) == |Live(e.slots)|
  {
    LiveFrom(e.slots);
    NextDueIs(Live(e.slots), id, from, |Live(e.slots)|);
  }

  lemma CalledIsDue(e: Ev, i: nat, id: int, from: nat)
    requires Valid(e) && Cursor(e, i, id, from) && i < |e.slots| && Due(e.slots[i], id)
    ensures var k := NextDue(Live(e.slots), id, from);
            k < |Live(e.slots)| && Live(e.slots)[k] == e.slots[i] && e.slots[i].tag < e.count
  {
    LiveSplit(e.slots, i);
    var pre := Live(e.slots[..i]);
    LiveFrom(e.slots[..i]);
    assert Live(e.slots)[|pre|] == e.slots[i];
    assert forall a | 0 <= a < |pre| :: Live(e.slots)[a] == pre[a];
    NextDueIs(Live(e.slots), id, from, |pre|);
  }

  /** The loop goes on behind its index. */
  lemma {:induction false} LoopCallsBehind(e: Ev, i: nat, id: int, script: seq<seq<Op>>)
    requires Valid(e) && Raise(e, i, id, script).0 != []
    ensures forall a | 0 <= a < i && a < |e.slots| :: e.slots[a].tag < Raise(e, i, id, script).0[0].tag
    decreases |e.slots| - i
  {
    if i < |e.slots| && !Due(e.slots[i], id) { LoopCallsBehind(e, i + 1, id, script); }
  }

  lemma {:induction false} NextDueFirst(l: seq<Slot>, id: int, from: nat, b: nat)
    requires b < |l| && l[b].id == id && from <= l[b].tag
    ensures NextDue(l, id, from) <= b
  {
    if b > 0 { NextDueFirst(l[1..], id, from, b - 1); }
  }

  lemma ListFirst(l: Registry, id: int, from: nat, script: seq<seq<Op>>)
    requires NextDue(l.list, id, from) < |l.list| && l.list[NextDue(l.list, id, from)].tag < l.count
    ensures var calls := RaiseList(l, id, from, script).0;
            calls != [] && calls[0] == l.list[NextDue(l.list, id, from)]
  {
    hide NextDue, ListDoAll;
    ListDoAllGrows(l, Head(script));
  }

  lemma LiveTags(e: Ev, a: nat, b: nat)
    requires Valid(e) && a <= b < |Live(e.slots)|
    ensures Live(e.slots)[a].tag <= Live(e.slots)[b].tag && Live(e.slots)[a].tag < e.count
  {
    hide Live;
    LiveFrom(e.slots);
    assert Live(e.slots)[a] in e.slots;
  }

  /** The list calls the oldest registration that is due. */
  lemma ListCallsOldest(e: Ev, a: nat, id: int, from: nat, script: seq<seq<Op>>)
    requires Valid(e) && a < |e.slots| && Due(e.slots[a], id) && from <= e.slots[a].tag
    ensures var calls := RaiseList(Abs(e), id, from, script).0;
            calls != [] && calls[0].tag <= e.slots[a].tag
  {
    var s, live := e.slots[a], Live(e.slots);
    assert s.id == id && IsLive(s) && Abs(e) == Registry(live, e.count);
    hide *;
    LiveHas(e.slots, a);
    var b :| 0 <= b < |live| && live[b] == s;
    NextDueFirst(live, id, from, b);
    LiveTags(e, NextDue(live, id, from), b);
    ListFirst(Registry(live, e.count), id, from, script);
  }

  lemma ScriptStep(script: seq<seq<Op>>)
    ensures ScriptRegs(script) == Regs(Head(script)) + ScriptRegs(Tail(script))
    ensures ScriptOk(script) ==> ScriptOk(Tail(script)) && forall k | 0 <= k < |Head(script)| :: OpOk(Head(script)[k])
  {}

  /** What stands behind is called by the list next, and by the loop never. */
  lemma BehindIsMissed(e: Ev, i: nat, id: int, tag: nat, script: seq<seq<Op>>)
    requires Valid(e) && !NoneBehind(e, i, id, tag)
    ensures Raise(e, i + 1, id, script).0 != RaiseList(Abs(e), id, tag + 1, script).0
  {
    hide Raise, RaiseList, Live, Valid;
    var a :| 0 <= a <= i && a < |e.slots| && tag < e.slots[a].tag && Due(e.slots[a], id);
    ListCallsOldest(e, a, id, tag + 1, script);
    if Raise(e, i + 1, id, script).0 != [] { LoopCallsBehind(e, i + 1, id, script); }
  }

  lemma OwnPlace(e: Ev, i: nat)
    requires Valid(e) && i < |e.slots|
    ensures e.slots[i].tag < e.count && NewerBehind(e, i, e.slots[i].tag)
  {}

  lemma CursorMoves(e: Ev, i: nat, id: int, tag: nat)
    requires NewerBehind(e, i, tag) && NoneBehind(e, i, id, tag)
    ensures Cursor(e, i + 1, id, tag + 1)
  {}

  /** One call: the loop and the list go on alike exactly if none is behind. */
  lemma AfterCall(e: Ev, i: nat, id: int, script: seq<seq<Op>>)
    requires Valid(e) && ScriptOk(script) && i < |e.slots| && Due(e.slots[i], id)
    ensures var after := DoAll(e, Head(script)); var tag := e.slots[i].tag;
            && Valid(after) && Abs(after) == ListDoAll(Abs(e), Head(script))
            && (NoneBehind(after, i, id, tag) ==> Cursor(after, i + 1, id, tag + 1))
            && (!NoneBehind(after, i, id, tag) ==>
                  Raise(after, i + 1, id, Tail(script)).0 != RaiseList(Abs(after), id, tag + 1, Tail(script)).0)
  {
    hide *;
    var ops, after, tag := Head(script), DoAll(e, Head(script)), e.slots[i].tag;
    ScriptStep(script);
    OwnPlace(e, i);
    DoAllRefines(e, ops);
    DoAllKeepsNewer(e, ops, i, tag);
    if NoneBehind(after, i, id, tag) { CursorMoves(after, i, id, tag); }
    else { BehindIsMissed(after, i, id, tag, Tail(script)); }
  }

  /** A raise whose handlers register and unregister on the event makes exactly the calls it should - every registration
      in force at its turn, oldest first, each once, never a removed one - if and only if no handler leaves a newer one
      that is due at or before the loop index. The event is right afterwards, too. */
  lemma {:induction false} RaiseExactly(e: Ev, i: nat, id: int, script: seq<seq<Op>>, from: nat)
    requires Valid(e) && Cursor(e, i, id, from) && ScriptOk(script)
    ensures var (calls, after) := Raise(e, i, id, script);
            var (due, list) := RaiseList(Abs(e), id, from, script);
            && (calls == due <==> NothingMissed(e, i, id, script))
            && (calls == due ==> Valid(after) && Abs(after) == list)
    decreases |e.slots| + ScriptRegs(script) - i
  {
    hide Valid, Live, NextDue, DoAll, ListDoAll, Cursor, NoneBehind, Regs, ScriptRegs, OpOk, ScriptOk, Head, Tail;
    if i >= |e.slots| {
      NoneDue(e, i, id, from);
    } else if Due(e.slots[i], id) {
      ScriptStep(script);
      DoAllGrows(e, Head(script));
      CalledIsDue(e, i, id, from);
      AfterCall(e, i, id, script);
      var after, tag := DoAll(e, Head(script)), e.slots[i].tag;
      if NoneBehind(after, i, id, tag) { RaiseExactly(after, i + 1, id, Tail(script), tag + 1); }
      SameHead(e.slots[i], Raise(after, i + 1, id, Tail(script)).0, RaiseList(Abs(after), id, tag + 1, Tail(script)).0);
    } else {
      PassOver(e, i, id, from);
      RaiseExactly(e, i + 1, id, script, from);
    }
  }

  lemma SameHead<T>(x: T, s: seq<T>, t: seq<T>)
    ensures [x] + s == [x] + t <==> s == t
  {
    if [x] + s == [x] + t { assert ([x] + s)[1..] == s && ([x] + t)[1..] == t; }
  }

  lemma PassOver(e: Ev, i: nat, id: int, from: nat)
    requires Cursor(e, i, id, from) && i < |e.slots| && !Due(e.slots[i], id)
    ensures Cursor(e, i + 1, id, from)
  {}

  lemma {:induction false} UnregKeepsTags(e: Ev, ops: seq<Op>)
    requires forall k | 0 <= k < |ops| :: ops[k].Unreg?
    ensures |DoAll(e, ops).slots| == |e.slots|
    ensures forall a | 0 <= a < |e.slots| :: DoAll(e, ops).slots[a].tag == e.slots[a].tag
    decreases |ops|
  {
    if ops != [] {
      assert ops[0].Unreg?;
      UnregKeepsTags(Do(e, ops[0]), ops[1..]);
    }
  }

  lemma UnregLeavesNoneBehind(e: Ev, ops: seq<Op>, i: nat, id: int)
    requires Valid(e) && i < |e.slots| && forall k | 0 <= k < |ops| :: ops[k].Unreg?
    ensures NoneBehind(DoAll(e, ops), i, id, e.slots[i].tag)
  {
    hide DoAll;
    UnregKeepsTags(e, ops);
  }

  lemma {:induction false} UnregMissesNothing(e: Ev, i: nat, id: int, script: seq<seq<Op>>)
    requires Valid(e) && ScriptOk(script)
    requires forall k, j | 0 <= k < |script| && 0 <= j < |script[k]| :: script[k][j].Unreg?
    ensures NothingMissed(e, i, id, script)
    decreases |e.slots| + ScriptRegs(script) - i
  {
    if i < |e.slots| {
      if Due(e.slots[i], id) {
        ScriptStep(script);
        DoAllGrows(e, Head(script));
        DoAllRefines(e, Head(script));
        assert forall k | 0 <= k < |Head(script)| :: Head(script)[k].Unreg?;
        UnregLeavesNoneBehind(e, Head(script), i, id);
        hide Valid, DoAll, NoneBehind;
        UnregMissesNothing(DoAll(e, Head(script)), i + 1, id, Tail(script));
      } else {
        UnregMissesNothing(e, i + 1, id, script);
      }
    }
  }

  /** Handlers that only unregister always meet the condition. */
  lemma RaiseWithUnregistering(e: Ev, id: int, script: seq<seq<Op>>)
    requires Valid(e) && ScriptOk(script)
    requires forall k, j | 0 <= k < |script| && 0 <= j < |script[k]| :: script[k][j].Unreg?
    ensures var (calls, after) := Raise(e, 0, id, script);
            Valid(after) && (calls, Abs(after)) == RaiseList(Abs(e), id, 0, script)
  {
    UnregMissesNothing(e, 0, id, script);
    RaiseExactly(e, 0, id, script, 0);
  }

  lemma QuietTurn(e: Ev, i: nat, id: int)
    requires i < |e.slots|
    ensures var (calls, after) := Raise(e, i + 1, id, []); var s := e.slots[i];
            Raise(e, i, id, []) == (if s.id == id && s.handler != 0 then [s] + calls else calls, after)
  {
    assert DoAll(e, Head([])) == e && Tail([]) == [];
  }

  /** Those that are in force for an id. */
  function InForce(s: seq<Slot>, id: int): seq<Slot> {
    if s == [] then []
    else (if s[0].id == id && s[0].handler != 0 then [s[0]] else []) + InForce(s[1..], id)
  }

  /** If handlers leave the event alone, a raise calls all that are in force for the id and no others, in order. */
  lemma {:induction false} QuietRaise(e: Ev, i: nat, id: int)
    requires i <= |e.slots|
    ensures Raise(e, i, id, []) == (InForce(e.slots[i..], id), e)
    decreases |e.slots| - i
  {
    if i < |e.slots| {
      QuietTurn(e, i, id);
      QuietRaise(e, i + 1, id);
      hide Raise;
      assert e.slots[i..][1..] == e.slots[i + 1..];
      NothingAround(InForce(e.slots[i + 1..], id));
    }
  }

  // ---------- compaction under the loop index ----------

  function Tombstones(s: seq<Slot>): nat {
    if s == [] then 0 else (if IsLive(s[0]) then 0 else 1) + Tombstones(s[1..])
  }

  lemma {:induction false} LiveCounts(s: seq<Slot>)
    ensures |Live(s)| + Tombstones(s) == |s|
  {
    if s != [] { LiveCounts(s[1..]); }
  }

  function Rest(s: seq<Slot>, n: nat): seq<Slot> { if n <= |s| then s[n..] else [] }

  lemma RestOfConcat(x: seq<Slot>, y: seq<Slot>, n: nat)
    requires |x| <= n
    ensures Rest(x + y, n) == Rest(y, n - |x|)
  {}

  lemma LiveOfParts(s: seq<Slot>, n: nat)
    requires n <= |s|
    ensures Live(s) == Live(s[..n]) + Live(s[n..])
  {
    hide *;
    LiveAppend(s[..n], s[n..]);
    assert s == s[..n] + s[n..];
  }

  lemma RestIsAll(s: seq<Slot>, n: nat)
    ensures Rest(s, n) == s <==> n == 0 || s == []
  {
    assert n <= |s| ==> |s[n..]| == |s| - n;
  }

  /** A compaction at loop index `i` makes the loop go on behind as many live slots as there were tombstones at or
      before `i`: it goes on with the next one exactly if there was none (or nothing is left to call). */
  lemma CompactionSkips(e: Ev, i: nat)
    requires Valid(e) && i < |e.slots|
    ensures var due := Live(e.slots[i + 1..]);
            var k := Tombstones(e.slots[..i + 1]);
            var resumed := Rest(Compact(e).slots, i + 1);
            resumed == Rest(due, k) && (resumed == due <==> k == 0 || due == [])
  {
    CompactKeeps(e);
    hide *;
    var a, b := e.slots[..i + 1], e.slots[i + 1..];
    LiveOfParts(e.slots, i + 1);
    LiveCounts(a);
    RestOfConcat(Live(a), Live(b), i + 1);
    RestIsAll(Live(b), Tombstones(a));
  }

  /** A handler that unregisters itself and registers another one makes the loop skip the one behind it. That is what
      waitjoin in ircchannel.c does on the tick event. */
  lemma SkipHappens(h: nat, g: nat, r: nat)
    requires h != 0 && g != 0 && r != 0 && h != g
    ensures var a, b := Slot(0, h, 0, 0), Slot(0, g, 0, 1);
            var e := Ev([a, b], false, 2);
            var script := [[Unreg(0, h, 0), Reg(0, r, 0)]];
            && Valid(e) && Raise(e, 0, 0, script).0 == [a, Slot(0, r, 0, 2)]
            && RaiseList(Abs(e), 0, 0, script).0 == [a, b, Slot(0, r, 0, 2)]
  {
    SkipInLoop(h, g, r);
    AllInList(h, g, r);
    assert Valid(Ev([Slot(0, h, 0, 0), Slot(0, g, 0, 1)], false, 2));
  }

  lemma SkipInLoop(h: nat, g: nat, r: nat)
    requires h != 0 && g != 0 && r != 0 && h != g
    ensures Raise(Ev([Slot(0, h, 0, 0), Slot(0, g, 0, 1)], false, 2), 0, 0, [[Unreg(0, h, 0), Reg(0, r, 0)]]).0
            == [Slot(0, h, 0, 0), Slot(0, r, 0, 2)]
  {
    var a, b, c := Slot(0, h, 0, 0), Slot(0, g, 0, 1), Slot(0, r, 0, 2);
    var e, e2 := Ev([a, b], false, 2), Ev([b, c], false, 3);
    var ops := [Unreg(0, h, 0), Reg(0, r, 0)];
    SkipEffect(h, g, r);
    assert Tail([ops]) == [] && Head([ops]) == ops;
    assert Raise(e2, 2, 0, []) == ([], e2);
    assert Raise(e2, 1, 0, []).0 == [c] + Raise(DoAll(e2, []), 2, 0, []).0;
    assert DoAll(e2, []) == e2;
    assert Raise(e2, 1, 0, []).0 == [c];
    assert Raise(e, 0, 0, [ops]).0 == [a] + [c];
  }

  lemma AllInList(h: nat, g: nat, r: nat)
    requires h != 0 && g != 0 && r != 0 && h != g
    ensures RaiseList(Abs(Ev([Slot(0, h, 0, 0), Slot(0, g, 0, 1)], false, 2)), 0, 0, [[Unreg(0, h, 0), Reg(0, r, 0)]]).0
            == [Slot(0, h, 0, 0), Slot(0, g, 0, 1), Slot(0, r, 0, 2)]
  {
    var a, b, c := Slot(0, h, 0, 0), Slot(0, g, 0, 1), Slot(0, r, 0, 2);
    var e := Ev([a, b], false, 2);
    var ops := [Unreg(0, h, 0), Reg(0, r, 0)];
    SkipEffect(h, g, r);
    LiveAll([a, b]);
    LiveAll([b, c]);
    DoAllRefines(e, ops);
    assert Tail([ops]) == [] && Head([ops]) == ops;
    NextDueIs([a, b], 0, 0, 0);
    TwoInList(b, c);
    hide DoAll, ListDoAll, Live, NextDue, Valid;
    assert RaiseList(Abs(e), 0, 0, [ops]).0 == [a] + [b, c];
  }

  lemma TwoInList(b: Slot, c: Slot)
    requires b.id == c.id == 0 && b.tag == 1 && c.tag == 2
    ensures RaiseList(Registry([b, c], 3), 0, 1, []).0 == [b, c]
  {
    var l := Registry([b, c], 3);
    NextDueIs([b, c], 0, 1, 0);
    NextDueIs([b, c], 0, 2, 1);
    NextDueIs([b, c], 0, 3, 2);
    assert ListDoAll(l, []) == l && Head([]) == [] && Tail([]) == [];
    hide NextDue, ListDoAll, Head, Tail;
    assert RaiseList(l, 0, 3, []).0 == [];
    assert RaiseList(l, 0, 2, []).0 == [c] + [];
    assert RaiseList(l, 0, 1, []).0 == [b] + [c];
  }

  lemma SkipEffect(h: nat, g: nat, r: nat)
    requires h != 0 && g != 0 && r != 0 && h != g
    ensures DoAll(Ev([Slot(0, h, 0, 0), Slot(0, g, 0, 1)], false, 2), [Unreg(0, h, 0), Reg(0, r, 0)])
            == Ev([Slot(0, g, 0, 1), Slot(0, r, 0, 2)], false, 3)
  {
    var a, b, c := Slot(0, h, 0, 0), Slot(0, g, 0, 1), Slot(0, r, 0, 2);
    var e := Ev([a, b], false, 2);
    var dead := a.(handler := 0);
    assert FirstMatch(e.slots, 0, h, 0) == 0;
    var e1 := Do(e, Unreg(0, h, 0));
    assert e1 == Ev([dead, b], true, 2);
    assert [dead, b][1..] == [b];
    LiveAll([b]);
    assert Live([dead, b]) == [] + [b];
    assert Do(e1, Reg(0, r, 0)) == Ev([b] + [c], false, 3);
    var ops := [Unreg(0, h, 0), Reg(0, r, 0)];
    assert ops[1..] == [Reg(0, r, 0)] && ops[1..][1..] == [];
    assert DoAll(e1, ops[1..]) == DoAll(Do(e1, Reg(0, r, 0)), []);
  }
}
