/** The plain (non-TLS) connection of connection.c: the ring of write records, and the interest it registers. */
module Connection {
  import opened Wrappers
  import opened Service
  import opened WritePipe
  import opened Sequences
  import Queue

  const CONNTICKS := 6

  /** ConnOpts.createmode. */
  datatype CreateMode = Wait | Connecting | Normal

  /** What a handler of dataReceived may do to the connection. */
  datatype HandlerOp = StartHandling | Confirm | Send(r: Request) | Shut

  function Handled(p: Pipe, script: seq<HandlerOp>): Pipe
    decreases |script|
  {
    if script == [] then p else Handled(if script[0].Send? then Write(p, script[0].r) else p, script[1..])
  }

  lemma {:induction false} HandledOk(p: Pipe, script: seq<HandlerOp>)
    requires Ok(p)
    ensures Ok(Handled(p, script))
    decreases |script|
  {
    if script != [] {
      if script[0].Send? { WriteOk(p, script[0].r); }
      hide Ok;
      HandledOk(if script[0].Send? then Write(p, script[0].r) else p, script[1..]);
    }
  }

  function HandlingAfter(handling: bool, script: seq<HandlerOp>): bool
    decreases |script|
  {
    if script == [] then handling
    else HandlingAfter(match script[0] case StartHandling => true case Confirm => false case _ => handling, script[1..])
  }

  /** The buffers that handlers write, in order. */
  function Sends(script: seq<HandlerOp>): seq<Request> {
    if script == [] then [] else (if script[0].Send? then [script[0].r] else []) + Sends(script[1..])
  }

  /** Handlers of received data change the stream by their writes alone. */
  lemma {:induction false} HandledWrites(p: Pipe, script: seq<HandlerOp>)
    ensures Handled(p, script) == WriteAll(p, Sends(script))
    decreases |script|
  {
    if script != [] {
      var q := if script[0].Send? then Write(p, script[0].r) else p;
      HandledWrites(q, script[1..]);
      if script[0].Send? { TailOfCons(script[0].r, Sends(script[1..])); } else { NothingAround(Sends(script[1..])); }
      hide Write;
    }
  }

  /** The last of them to start or confirm decides whether the data is still being handled. */
  lemma {:induction false} LastOneDecides(handling: bool, script: seq<HandlerOp>, last: HandlerOp)
    ensures HandlingAfter(handling, script + [last])
         == if last.StartHandling? then true else if last.Confirm? then false else HandlingAfter(handling, script)
    decreases |script|
  {
    if script == [] {
      assert script + [last] == [last] && [last][1..] == [];
    } else {
      assert (script + [last])[1..] == script[1..] + [last];
      LastOneDecides(match script[0] case StartHandling => true case Confirm => false case _ => handling, script[1..], last);
    }
  }

  /** The size of a buffer is a uint16_t. */
  ghost predicate Sized(s: seq<Request>) { forall k | 0 <= k < |s| :: |s[k].buf| < 0x10000 }

  ghost predicate AllSized(script: seq<seq<Request>>) { forall k | 0 <= k < |script| :: Sized(script[k]) }

  lemma UnrolledFront<T>(s: seq<T>, front: nat, count: nat, x: T)
    requires front < |s| && 0 < count <= |s|
    ensures Queue.Unrolled(s[front := x], front, count) == [x] + Queue.Unrolled(s, front, count)[1..]
  {}

  class Connection {
    const writerecs: array<Record>
    const fd: nat
    const service: Registry
    var nrecs: nat
    var baserecidx: nat
    var connecting: nat
    var handling: bool
    var deleteScheduled: nat
    ghost const mode: CreateMode
    /** Has read interest been asked for yet? */
    ghost var active: bool
    ghost var accepted: seq<Request>
    ghost var wire: string
    ghost var raised: seq<nat>

    ghost predicate RingOk()
      reads this
    {
      writerecs.Length == NWRITERECS && nrecs <= NWRITERECS && baserecidx < NWRITERECS
    }

    /** The records in use, oldest first. */
    ghost function Pending(): seq<Record>
      requires RingOk()
      reads this, writerecs
    {
      Queue.Unrolled(writerecs[..], baserecidx, nrecs)
    }

    ghost function View(): Pipe
      requires RingOk()
      reads this, writerecs
    {
      Pipe(Pending(), accepted, wire, raised)
    }

    /** Write interest exactly while connecting or with records pending; read interest, once it was first asked for,
        exactly while no received data is being handled. */
    ghost predicate Interest()
      reads this, service
    {
      && (fd in service.writefds <==> connecting > 0 || nrecs > 0)
      && (fd in service.readfds <==> active && !handling)
    }

    ghost predicate Open()
      reads this`deleteScheduled
    {
      deleteScheduled == 0
    }

    /** The records are a faithful stream, and while the connection is open its interest is right; connected means
        that read interest has been asked for, unless the connection was made to wait for Connection_activate. */
    ghost predicate Valid()
      reads this, service, writerecs
    {
      && RingOk() && service.Valid()
      && Ok(View())
      && (Open() ==> Interest() && (connecting == 0 && mode != Wait ==> active))
    }

    /** Nobody else's descriptor is touched. */
    twostate predicate OnlyMine()
      reads service
    {
      SameBut(old(service.readfds), service.readfds, fd) && SameBut(old(service.writefds), service.writefds, fd)
    }

    /** Connection_create (452-537). */
    constructor (fd: nat, mode: CreateMode, service: Registry)
      requires service.Valid() && fd !in service.readfds && fd !in service.writefds
      modifies service
      ensures Valid() && Open() && fresh(writerecs) && this.fd == fd && this.service == service && this.mode == mode
      ensures View() == EMPTY && !handling && deleteScheduled == 0
      ensures connecting == (if mode == Connecting then 6 else 0) && active == (mode == Normal)
      ensures SameBut(old(service.readfds), service.readfds, fd) && SameBut(old(service.writefds), service.writefds, fd)
    {
      writerecs := new Record[NWRITERECS](_ => Record([], None, 0));
      this.fd, this.service, this.mode := fd, service, mode;
      nrecs, baserecidx, handling, deleteScheduled := 0, 0, false, 0;
      connecting := if mode == Connecting then CONNTICKS else 0;
      active := mode == Normal;
      accepted, wire, raised := [], [], [];
      new;
      EmptyOk();
      assert View() == EMPTY;
      hide Queue.Unrolled, Ok, Registry.Valid, SameBut;
      FirstInterest(mode);
    }

    /** Lines 526-535. */
    method FirstInterest(mode: CreateMode)
      requires service.Valid() && fd !in service.readfds && fd !in service.writefds
      modifies service
      ensures service.Valid() && OnlyMine()
      ensures (fd in service.writefds <==> mode == Connecting) && (fd in service.readfds <==> mode == Normal)
    {
      hide Registry.Valid, SameBut;
      SameButRefl(service.readfds, fd);
      SameButRefl(service.writefds, fd);
      if mode == Connecting { service.RegisterWrite(fd); }
      else if mode == Normal { service.RegisterRead(fd); }
    }

    /** wantreadwrite (122-153). */
    method WantReadWrite()
      requires RingOk() && service.Valid()
      modifies service, this`active
      ensures service.Valid() && active && Interest() && OnlyMine()
      ensures (fd in service.writefds <==> connecting > 0 || nrecs > 0) && (fd in service.readfds <==> !handling)
    {
      hide Registry.Valid;
      active := true;
      if connecting > 0 || nrecs > 0 { service.RegisterWrite(fd); } else { service.UnregisterWrite(fd); }
      if !handling { service.RegisterRead(fd); } else { service.UnregisterRead(fd); }
    }

    /** Filling the next free record (644-649). */
    method AddRecord(buf: string, id: Option<nat>)
      requires RingOk() && nrecs < NWRITERECS
      modifies this`nrecs, this`accepted, writerecs
      ensures RingOk() && nrecs == old(nrecs) + 1 && |accepted| == |old(accepted)| + 1
      ensures View() == Write(old(View()), Request(buf, id))
    {
      var i := (baserecidx + nrecs) % NWRITERECS;
      nrecs := nrecs + 1;
      writerecs[i] := Record(buf, id, 0);
      accepted := accepted + [Request(buf, id)];
      assert View().recs == old(View()).recs + [Record(buf, id, 0)];
    }

    /** Connection_write (640-652), for a buffer of `sz` bytes; -1 is returned exactly if all records are in use. */
    method WriteBuf(buf: string, id: Option<nat>) returns (rc: int)
      requires RingOk() && service.Valid() && |buf| < 0x10000
      modifies this`nrecs, this`accepted, this`active, writerecs, service
      ensures RingOk() && service.Valid() && OnlyMine()
      ensures rc == if |old(View()).recs| == NWRITERECS then -1 else 0
      ensures View() == Write(old(View()), Request(buf, id))
      ensures rc == 0 ==> active && Interest() && nrecs == old(nrecs) + 1 && |accepted| == |old(accepted)| + 1
      ensures rc != 0 ==> unchanged(this) && unchanged(service)
      ensures old(Valid()) ==> Valid()
    {
      assert Valid() ==> Ok(Write(View(), Request(buf, id))) by {
        if Valid() { WriteOk(View(), Request(buf, id)); }
      }
      assert nrecs == NWRITERECS ==> Write(View(), Request(buf, id)) == View();
      hide Ok, Write, Registry.Valid;
      if nrecs == NWRITERECS { return -1; }
      AddRecord(buf, id);
      WantReadWrite();
      rc := 0;
    }

    /** Taking the oldest record off the ring. */
    method DropOldest()
      requires RingOk() && nrecs > 0
      modifies this`nrecs, this`baserecidx
      ensures RingOk() && nrecs == old(nrecs) - 1 && Pending() == old(Pending())[1..]
    {
      baserecidx := baserecidx + 1;
      if baserecidx == NWRITERECS { baserecidx := 0; }
      nrecs := nrecs - 1;
      assert Pending() == old(Pending())[1..];
    }

    /** Connection_close (670-685) as far as the connection itself is concerned: deleteLater (700-709). */
    method Close()
      modifies this`deleteScheduled
      ensures !Open() && deleteScheduled == if old(deleteScheduled) == 0 then 1 else old(deleteScheduled)
      ensures old(RingOk()) ==> RingOk() && View() == old(View())
      ensures old(Valid()) ==> Valid()
    {
      hide Ok, Registry.Valid;
      if deleteScheduled == 0 { deleteScheduled := 1; }
    }

    /** The record at the front has only been written in part (254-258). */
    method WrotePart(n: nat)
      requires RingOk() && nrecs > 0 && n < |Left(Pending()[0])|
      modifies this`wire, writerecs
      ensures RingOk() && View() == DoWrite(old(View()), Wrote(n))
      ensures wire == old(wire) + Left(old(Pending())[0])[..n]
    {
      var rec := writerecs[baserecidx];
      assert rec == Pending()[0] && rec.buf[rec.pos..rec.pos + n] == Left(rec)[..n];
      UnrolledFront(writerecs[..], baserecidx, nrecs, rec.(pos := rec.pos + n));
      hide Queue.Unrolled;
      wire := wire + rec.buf[rec.pos..rec.pos + n];
      writerecs[baserecidx] := rec.(pos := rec.pos + n);
      assert writerecs[..] == old(writerecs[..])[baserecidx := rec.(pos := rec.pos + n)];
    }

    /** The record at the front is done (259-261). */
    method WroteRest() returns (id: Option<nat>)
      requires RingOk() && nrecs > 0
      modifies this`nrecs, this`baserecidx, this`wire, this`raised
      ensures RingOk() && View() == DoWrite(old(View()), Wrote(|Left(old(Pending())[0])|)) && id == old(Pending())[0].id
      ensures nrecs == old(nrecs) - 1 && raised == old(raised) + OneId(id)
    {
      var rec := writerecs[baserecidx];
      assert rec == Pending()[0];
      id := rec.id;
      wire := wire + Left(rec);
      raised := raised + OneId(id);
      DropOldest();
    }

    /** dowrite (246-279); returns the id that dataSent is raised with at the end. */
    method DoWriteRecord(o: Outcome) returns (id: Option<nat>)
      requires Valid() && connecting == 0 && Possible(View(), o)
      modifies this`nrecs, this`baserecidx, this`wire, this`raised, this`deleteScheduled, this`active, writerecs, service
      ensures Valid() && OnlyMine() && View() == DoWrite(old(View()), o)
      ensures o.Wrote? ==> wire == old(wire) + Left(old(Pending())[0])[..o.n]
      ensures raised == old(raised) + OneId(id)
      ensures Open() == (old(Open()) && !o.Failed?) && (old(active) ==> active)
    {
      DoWriteOk(View(), o);
      DoWriteTakes(View(), o);
      assert !o.Wrote? ==> DoWrite(View(), o) == View();
      hide Ok, Left, DoWrite;
      id := None;
      var rec := writerecs[baserecidx];
      assert rec == Pending()[0];
      match o
      case Wrote(n) =>
        if n < |Left(rec)| {
          WrotePart(n);
        } else {
          id := WroteRest();
          WantReadWrite();
        }
      case WouldBlock =>
      case Failed =>
        Close();
    }

    /** writeConnection (285-341); `failed` is what getsockopt says. Returns the id to raise dataSent with, and whether
        to raise `connected`. */
    method WriteConnection(failed: bool, o: Outcome) returns (id: Option<nat>, up: bool)
      requires Valid() && (connecting == 0 && nrecs > 0 ==> Possible(View(), o))
      modifies this, writerecs, service
      ensures Valid() && OnlyMine()
      ensures up == (old(connecting) > 0 && !failed)
      ensures up ==> Open() == old(Open()) && connecting == 0 && active && View() == old(View())
      ensures old(connecting) > 0 && failed ==> !Open() && View() == old(View())
      ensures old(connecting) == 0 ==> connecting == 0 && Open() == (old(Open()) && (old(nrecs) == 0 || !o.Failed?))
      ensures old(connecting) == 0 ==> View() == if old(nrecs) == 0 then old(View()) else DoWrite(old(View()), o)
      ensures raised == old(raised) + OneId(id) && handling == old(handling)
    {
      hide Ok;
      id, up := None, false;
      if connecting > 0 {
        if failed { Close(); return; }
        connecting := 0;
        WantReadWrite();
        up := true;
      } else if nrecs == 0 {
        WantReadWrite();
      } else {
        id := DoWriteRecord(o);
      }
    }

    /** checkPendingConnection (107-120), on every tick while connecting. */
    method CheckPendingConnection()
      requires Valid()
      modifies this`connecting, this`deleteScheduled, service
      ensures Valid() && OnlyMine() && View() == old(View())
      ensures connecting == if old(connecting) > 0 then old(connecting) - 1 else 0
      ensures Open() == (old(Open()) && old(connecting) != 1)
    {
      hide Ok, Registry.Valid, SameBut, Queue.Unrolled;
      SameButRefl(service.readfds, fd);
      SameButRefl(service.writefds, fd);
      if connecting > 0 {
        connecting := connecting - 1;
        if connecting == 0 {
          service.UnregisterWrite(fd);
          Close();
        }
      }
    }

    /** Connection_activate (654-660). */
    method Activate()
      requires RingOk() && service.Valid()
      modifies this`active, service
      ensures service.Valid() && OnlyMine()
      ensures if handling then unchanged(this) && unchanged(service) else active && Interest()
      ensures old(Valid()) ==> Valid()
    {
      hide Ok;
      if handling { return; }
      WantReadWrite();
    }

    /** Connection_confirmDataReceived (662-668). */
    method ConfirmDataReceived() returns (rc: int)
      requires RingOk() && service.Valid()
      modifies this`handling, this`active, service
      ensures service.Valid() && OnlyMine() && !handling
      ensures rc == if old(handling) then 0 else -1
      ensures rc == 0 ==> active && Interest()
      ensures rc != 0 ==> unchanged(this) && unchanged(service)
      ensures old(Valid()) ==> Valid()
    {
      hide Ok;
      if !handling { return -1; }
      handling := false;
      Activate();
      rc := 0;
    }

    /** One thing that a handler of dataReceived does. */
    method RunHandler(op: HandlerOp)
      requires RingOk() && service.Valid() && (op.Send? ==> |op.r.buf| < 0x10000)
      modifies this`nrecs, this`accepted, this`active, this`handling, this`deleteScheduled, writerecs, service
      ensures RingOk() && service.Valid() && OnlyMine() && Open() == (old(Open()) && !op.Shut?)
      ensures View() == Handled(old(View()), [op]) && handling == HandlingAfter(old(handling), [op])
    {
      match op
      case StartHandling =>
        handling := true;
      case Confirm =>
        var _ := ConfirmDataReceived();
      case Send(r) =>
        var _ := WriteBuf(r.buf, r.id);
      case Shut =>
        Close();
    }

    /** The handlers of dataReceived at work. */
    method RunHandlers(script: seq<HandlerOp>)
      requires RingOk() && service.Valid() && forall k | 0 <= k < |script| && script[k].Send? :: |script[k].r.buf| < 0x10000
      modifies this`nrecs, this`accepted, this`active, this`handling, this`deleteScheduled, writerecs, service
      ensures RingOk() && service.Valid() && OnlyMine() && Open() == (old(Open()) && Shut !in script)
      ensures View() == Handled(old(View()), script) && handling == HandlingAfter(old(handling), script)
      decreases |script|
    {
      hide Write;
      if script != [] {
        assert [script[0]][1..] == [];
        RunHandler(script[0]);
        RunHandlers(script[1..]);
      }
    }

    /** readConnection and doread (380-410, 413-440), also in the round in which the connection was closed: `n` is what
        read(2) returns, `again` whether it says that there is nothing to read after all. */
    method ReadConnection(n: int, again: bool, script: seq<HandlerOp>)
      requires Valid()
      requires forall k | 0 <= k < |script| && script[k].Send? :: |script[k].r.buf| < 0x10000
      modifies this`nrecs, this`accepted, this`active, this`handling, this`deleteScheduled, writerecs, service
      ensures Valid() && OnlyMine()
      ensures Open() == (old(Open()) && (old(handling) || if n > 0 then Shut !in script else again))
      ensures if old(handling) || n <= 0 then View() == old(View()) && handling == old(handling)
              else View() == Handled(old(View()), script) && handling == HandlingAfter(old(handling), script) && active
    {
      HandledOk(View(), script);
      hide Ok, Handled;
      if handling { return; }
      if n > 0 {
        RunHandlers(script);
        WantReadWrite();
      } else if !again {
        Close();
      }
    }

    /** The handlers of one dataSent event at work. */
    method RunSenders(writes: seq<Request>)
      requires RingOk() && service.Valid() && nrecs > 0 && Sized(writes)
      modifies this`nrecs, this`accepted, this`active, writerecs, service
      ensures RingOk() && service.Valid() && OnlyMine() && View() == WriteAll(old(View()), writes)
      ensures nrecs >= old(nrecs) && |accepted| - nrecs == |old(accepted)| - old(nrecs)
      ensures if nrecs == old(nrecs) then unchanged(this) && unchanged(service) else Interest() && active
      decreases |writes|
    {
      hide Write;
      if writes != [] {
        var rc := WriteBuf(writes[0].buf, writes[0].id);
        RunSenders(writes[1..]);
      }
    }

    /** One turn of the loop in Connection_destroy (718-726). */
    method FlushRecord(script: seq<seq<Request>>) returns (more: seq<seq<Request>>)
      requires RingOk() && service.Valid() && AllSized(script) && nrecs > 0
      modifies this`nrecs, this`baserecidx, this`accepted, this`raised, this`active, writerecs, service
      ensures RingOk() && service.Valid() && AllSized(more) && OnlyMine()
      ensures (View(), more) == FlushOne(old(View()), script) && nrecs + Total(more) < old(nrecs) + Total(script)
      ensures |accepted| >= |old(accepted)|
      ensures if |accepted| == |old(accepted)| then unchanged(service)
              else fd in service.writefds && (fd in service.readfds <==> !handling)
    {
      hide WriteAll, Registry.Valid;
      var rec := writerecs[baserecidx];
      assert rec == Pending()[0];
      more := script;
      WriteAllGrows(View().(raised := raised + OneId(rec.id)), Now(script));
      if rec.id.Some? {
        raised := raised + [rec.id.value];
        RunSenders(Now(script));
        more := Later(script);
      }
      DropOldest();
    }

    /** The loop of Connection_destroy (718-726). */
    method FlushRecords(script: seq<seq<Request>>)
      requires RingOk() && service.Valid() && AllSized(script)
      requires fd !in service.readfds && fd !in service.writefds
      modifies this`nrecs, this`baserecidx, this`accepted, this`raised, this`active, writerecs, service
      ensures RingOk() && service.Valid() && OnlyMine() && View() == Flush(old(View()), script)
      ensures |accepted| >= |old(accepted)|
      ensures fd in service.writefds <==> |accepted| > |old(accepted)|
      ensures fd in service.readfds <==> |accepted| > |old(accepted)| && !handling
    {
      hide FlushOne, Registry.Valid, SameBut, Total, AllSized;
      SameButRefl(service.readfds, fd);
      SameButRefl(service.writefds, fd);
      var more: seq<seq<Request>> := script;
      while nrecs > 0
        invariant RingOk() && service.Valid() && OnlyMine() && AllSized(more)
        invariant Flush(View(), more) == Flush(old(View()), script)
        invariant |accepted| >= |old(accepted)|
        invariant fd in service.writefds <==> |accepted| > |old(accepted)|
        invariant fd in service.readfds <==> |accepted| > |old(accepted)| && !handling
        decreases nrecs + Total(more)
      {
        ghost var r, w := service.readfds, service.writefds;
        more := FlushRecord(more);
        SameButTrans(old(service.readfds), r, service.readfds, fd);
        SameButTrans(old(service.writefds), w, service.writefds, fd);
      }
    }

    lemma FlushFacts(script: seq<seq<Request>>)
      requires Valid()
      ensures RingOk() && service.Valid() && View().recs == Pending()
      ensures var p := Flush(View(), script);
              && |p.recs| == 0 && p.raised == Wanted(p.accepted) && |p.accepted| >= |accepted|
              && (|p.accepted| == |accepted| <==> Silent(Pending(), script))
    {
      FlushRaisesAll(View(), script);
      FlushAccepts(View(), script);
    }

    /** Lines 716-726. */
    method UnregisterAndFlush(script: seq<seq<Request>>)
      requires RingOk() && service.Valid() && AllSized(script)
      modifies this`nrecs, this`baserecidx, this`accepted, this`raised, this`active, writerecs, service
      ensures RingOk() && service.Valid() && OnlyMine() && View() == Flush(old(View()), script)
      ensures fd in service.writefds <==> |accepted| > |old(accepted)|
      ensures fd in service.readfds <==> |accepted| > |old(accepted)| && !handling
    {
      hide Flush, Registry.Valid, SameBut, AllSized;
      service.UnregisterRead(fd);
      service.UnregisterWrite(fd);
      ghost var r, w := service.readfds, service.writefds;
      FlushRecords(script);
      SameButTrans(old(service.readfds), r, service.readfds, fd);
      SameButTrans(old(service.writefds), w, service.writefds, fd);
    }

    /** Connection_destroy (711-761). The descriptor is registered for writing again afterwards, and for reading unless
        received data is being handled, exactly if the handlers of dataSent are not silent during the flush. */
    method Destroy(script: seq<seq<Request>>)
      requires Valid() && AllSized(script)
      modifies this`nrecs, this`baserecidx, this`accepted, this`raised, this`active, writerecs, service
      ensures deleteScheduled == 1 ==> unchanged(this) && unchanged(service) && View() == old(View())
      ensures deleteScheduled != 1 ==>
        && service.Valid() && OnlyMine() && RingOk() && View() == Flush(old(View()), script)
        && nrecs == 0 && raised == Wanted(accepted)
        && (fd in service.writefds <==> !Silent(old(Pending()), script))
        && (fd in service.readfds <==> !Silent(old(Pending()), script) && !handling)
    {
      FlushFacts(script);
      hide Flush, Ok, Registry.Valid, SameBut, AllSized, Silent, Wanted, Queue.Unrolled;
      if deleteScheduled == 1 { return; }
      UnregisterAndFlush(script);
    }

    /** deleteConnection (442-450). */
    method DeleteConnection(script: seq<seq<Request>>)
      requires Valid() && deleteScheduled == 1
      requires AllSized(script)
      modifies this`deleteScheduled, this`nrecs, this`baserecidx, this`accepted, this`raised, this`active, writerecs, service
      ensures RingOk() && service.Valid() && OnlyMine() && View() == Flush(old(View()), script) && raised == Wanted(accepted)
      ensures fd in service.writefds <==> !Silent(old(Pending()), script)
      ensures fd in service.readfds <==> !Silent(old(Pending()), script) && !handling
    {
      hide Flush, Ok, Registry.Valid, Silent;
      deleteScheduled := 2;
      Destroy(script);
    }
  }

  /** A connection with one buffer pending is closed, and the handler that is told about the buffer writes another one:
      the descriptor, closed long ago, stays registered. */
  method WriteDuringFlush(fd: nat, service: Registry, r: Request)
    requires service.Valid() && fd !in service.readfds && fd !in service.writefds && |r.buf| < 0x10000
    modifies service
    ensures service.Valid() && fd in service.writefds && fd in service.readfds
  {
    hide *;
    OnePending(Request("x", Some(0)), r);
    OneSized(r);
    var conn := new Connection(fd, Normal, service);
    conn.FlushFacts([]);
    var rc := conn.WriteBuf("x", Some(0));
    conn.Close();
    conn.FlushFacts([]);
    conn.DeleteConnection([[r]]);
  }

  lemma OneSized(r: Request)
    requires |r.buf| < 0x10000
    ensures AllSized([[r]])
  {
    assert Sized([r]);
  }

  lemma OnePending(first: Request, r: Request)
    requires first.id.Some?
    ensures !Silent(Write(EMPTY, first).recs, [[r]])
  {
    var recs := [Record(first.buf, first.id, 0)];
    assert Write(EMPTY, first).recs == recs;
    assert Ids(recs[..0]) == [] && Said([[r]], 0) == [r];
  }
}
