/** The handler array of event.c and the code that works on it. */
module EventCode {
  import opened Sequences
  import opened Event

  const EVCHUNKSIZE := 4

  class EventObject {
    var handlers: array<Slot>
    var size: nat
    var dirty: bool
    var count: nat

    function View(): Ev
      reads this, handlers
      requires size <= handlers.Length
    {
      Ev(handlers[..size], dirty, count)
    }

    /** Not dirty means no tombstones; registrations stand in the order they were made. */
    ghost predicate Ok()
      reads this, handlers
    {
      size <= handlers.Length && Valid(View())
    }

    /** Event_create (27-36). */
    constructor ()
      ensures Ok() && View() == Ev([], false, 0) && fresh(handlers)
    {
      handlers := new Slot[0];
      size, dirty, count := 0, false, 0;
    }

    /** memmove of handlers[pos + 1..size + 1] one place down (50-51); `size` is already reduced. */
    method ShiftDown(pos: nat)
      requires pos < size < handlers.Length
      modifies handlers
      ensures handlers[..size] == old(handlers[..pos] + handlers[pos + 1..size + 1])
    {
      ghost var before := handlers[..];
      var i := pos;
      while i < size
        invariant pos <= i <= size
        invariant forall k | 0 <= k < pos :: handlers[k] == before[k]
        invariant forall k | pos <= k < i :: handlers[k] == before[k + 1]
        invariant forall k | i <= k < handlers.Length :: handlers[k] == before[k]
      {
        handlers[i] := handlers[i + 1];
        i := i + 1;
      }
    }

    /** The compaction loop (43-56). */
    method CompactInPlace()
      requires Ok()
      modifies this`size, this`dirty, handlers
      ensures size <= handlers.Length && View() == Compact(old(View()))
    {
      hide Live;
      if dirty {
        ghost var live := Live(handlers[..size]);
        var pos: int := 0;
        while pos < size
          invariant 0 <= pos <= size <= handlers.Length
          invariant Live(handlers[..size]) == live
          invariant forall k | 0 <= k < pos :: IsLive(handlers[k])
          decreases size - pos
        {
          if handlers[pos].handler == 0 {
            ghost var before := handlers[..size];
            DropDead(before, pos);
            size := size - 1;
            if pos < size {
              ShiftDown(pos);
              assert handlers[..size] == before[..pos] + before[pos + 1..];
            } else {
              assert handlers[..size] == before[..pos] + before[pos + 1..];
            }
            forall k | 0 <= k < pos ensures IsLive(handlers[k]) {
              assert handlers[..size][k] == before[k];
            }
            pos := pos - 1;
          }
          pos := pos + 1;
        }
        LiveAll(handlers[..size]);
        dirty := false;
      }
    }

    /** Event_register (38-68). */
    method RegisterHandler(receiver: nat, handler: nat, id: int)
      requires Ok() && handler != 0
      modifies this, handlers
      ensures Ok() && View() == Register(old(View()), receiver, handler, id)
      ensures handlers == old(handlers) || fresh(handlers)
    {
      hide Live, Valid, Compact;
      RegisterAppends(View(), receiver, handler, id);
      CompactInPlace();
      ghost var before := handlers[..size];
      if size == handlers.Length {
        var grown := new Slot[size + EVCHUNKSIZE];
        forall i | 0 <= i < size { grown[i] := handlers[i]; }
        handlers := grown;
      }
      assert handlers[..size] == before;
      handlers[size] := Slot(receiver, handler, id, count);
      size := size + 1;
      count := count + 1;
      assert handlers[..size] == before + [handlers[size - 1]];
    }

    /** Event_unregister (70-85). */
    method UnregisterHandler(receiver: nat, handler: nat, id: int)
      requires Ok() && handler != 0
      modifies this`dirty, handlers
      ensures Ok() && View() == Unregister(old(View()), receiver, handler, id)
    {
      UnregisterDrops(View(), receiver, handler, id);
      ghost var before := handlers[..size];
      var pos := 0;
      while pos < size
        invariant pos <= size && handlers[..size] == before && dirty == old(dirty)
        invariant forall k | 0 <= k < pos :: !Matches(before[k], receiver, handler, id)
      {
        assert handlers[pos] == before[pos];
        if Matches(handlers[pos], receiver, handler, id) {
          FirstMatchIs(before, receiver, handler, id, pos);
          handlers[pos] := handlers[pos].(handler := 0);
          dirty := true;
          assert handlers[..size] == before[pos := before[pos].(handler := 0)];
          return;
        }
        pos := pos + 1;
      }
      FirstMatchIs(before, receiver, handler, id, size);
    }

    /** A handler's body, as far as it concerns this event. */
    method RunHandler(ops: seq<Op>)
      requires Ok() && forall k | 0 <= k < |ops| :: OpOk(ops[k])
      modifies this, handlers
      ensures Ok() && View() == DoAll(old(View()), ops)
      ensures handlers == old(handlers) || fresh(handlers)
    {
      var k := 0;
      assert ops[0..] == ops;
      while k < |ops|
        invariant k <= |ops| && Ok() && (handlers == old(handlers) || fresh(handlers))
        invariant DoAll(old(View()), ops) == DoAll(View(), ops[k..])
      {
        assert OpOk(ops[k]);
        assert ops[k..][0] == ops[k] && ops[k..][1..] == ops[k + 1..];
        match ops[k] {
          case Reg(r, h, i) => RegisterHandler(r, h, i);
          case Unreg(r, h, i) => UnregisterHandler(r, h, i);
        }
        k := k + 1;
      }
    }

    /** Event_raise (87-98): `size` and the array are read anew in every turn. */
    method RaiseEvent(id: int, script: seq<seq<Op>>) returns (calls: seq<Slot>)
      requires Ok() && ScriptOk(script)
      modifies this, handlers
      ensures Ok() && (calls, View()) == Raise(old(View()), 0, id, script)
    {
      calls := [];
      var i := 0;
      var rest := script;
      assert calls + Raise(View(), 0, id, script).0 == Raise(View(), 0, id, script).0;
      while i < size
        invariant Ok() && ScriptOk(rest) && (handlers == old(handlers) || fresh(handlers))
        invariant var (cs, after) := Raise(View(), i, id, rest);
                  Raise(old(View()), 0, id, script) == (calls + cs, after)
        decreases size + ScriptRegs(rest) - i
      {
        if handlers[i].id == id && handlers[i].handler != 0 {
          var ops := Head(rest);
          assert forall k | 0 <= k < |ops| :: OpOk(ops[k]);
          DoAllGrows(View(), ops);
          var slot := handlers[i];
          Reassociate(calls, [slot], Raise(DoAll(View(), ops), i + 1, id, Tail(rest)).0);
          calls := calls + [slot];
          RunHandler(ops);
          rest := Tail(rest);
        }
        i := i + 1;
      }
      assert calls + [] == calls;
    }
  }

  lemma DropDead(s: seq<Slot>, k: nat)
    requires k < |s| && !IsLive(s[k])
    ensures Live(s) == Live(s[..k] + s[k + 1..])
  {
    hide Live;
    LiveSplit(s, k);
    LiveAppend(s[..k], s[k + 1..]);
    assert [] + Live(s[k + 1..]) == Live(s[k + 1..]);
  }
}
