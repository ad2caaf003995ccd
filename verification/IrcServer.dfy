/** The sending half of the IRC server object (ircserver.c) over its queue and its connection. */
module IrcServer {
  import opened Wrappers
  import opened WritePipe
  import SendPipeline
  import Life = ServerLife
  import Queue
  import Connection
  import opened Segmentation
  import opened Text

  function Objs(s: seq<Queue.Entry<string>>): (r: seq<string>)
    ensures |r| == |s| && forall k | 0 <= k < |s| :: r[k] == s[k].obj
  {
    seq(|s|, k requires 0 <= k < |s| => s[k].obj)
  }

  lemma NextLine(head: string, rest: string, max: nat, tail: string)
    requires rest != [] && max > 0
    ensures var n := if |rest| > max then max else |rest|;
            Lines(head, Chunks(rest, max), tail)
              == [head + rest[..n] + tail] + Lines(head, Chunks(rest[n..], max), tail)
  {
    if |rest| > max {
      assert Chunks(rest, max)[1..] == Chunks(rest[max..], max);
    } else {
      assert rest[..|rest|] == rest && rest[|rest|..] == [];
    }
  }

  class IrcServer {
    var conn: Connection.Connection?
    var sendQueue: Queue.IBQueue?<string>
    var sendcmd: Option<string>
    var sending: bool
    var sendcreditticks: int
    var connst: int
    var reconnticks: int
    var idleticks: int
    /** How often activeTick is registered. */
    var activeTicks: nat
    ghost var given: seq<string>
    ghost var completed: seq<string>

    /** The queue and the connection are there and sound, and the connection is up. */
    ghost predicate Wired()
      reads this`sendQueue, this`conn, sendQueue, conn, if conn != null then {conn.service as object, conn.writerecs} else {}
    {
      && sendQueue != null && conn != null
      && sendQueue.Valid() && conn.Valid() && conn.Open() && conn.connecting == 0
    }

    ghost function View(): SendPipeline.Sender
      requires Wired()
      reads this`sendQueue, this`conn, this`sendcmd, this`sending, this`sendcreditticks, this`given, this`completed
      reads sendQueue, if sendQueue != null then {sendQueue.entries} else {}
      reads conn, if conn != null then {conn.service as object, conn.writerecs} else {}
    {
      SendPipeline.Sender(Objs(sendQueue.Contents()), sendcmd, sending, sendcreditticks, conn.View(), given, completed)
    }

    /** What the rest of the object's life starts from, whatever its connection. It is logged in only while there is one. */
    ghost predicate Valid()
      reads this`connst, this`sendQueue, this`conn, this`sendcmd, this`sending, this`sendcreditticks, this`given, this`completed
      reads sendQueue, if sendQueue != null then {sendQueue.entries} else {}
      reads conn, if conn != null then {conn.service as object, conn.writerecs} else {}
    {
      && (sendQueue != null ==> Wired() && Life.SenderOk(View()))
      && (sendQueue == null ==> connst <= 0 && (conn != null ==> conn.connecting > 0))
    }

    ghost function Offline(): SendPipeline.Sender
      reads this`sendcmd, this`sending, this`sendcreditticks
    {
      SendPipeline.Sender([], sendcmd, sending, sendcreditticks, EMPTY, [], [])
    }

    ghost function LifeView(): Life.Server
      requires sendQueue != null ==> Wired()
      reads this, sendQueue, if sendQueue != null then {sendQueue.entries} else {}
      reads conn, if conn != null then {conn.service as object, conn.writerecs} else {}
    {
      Life.Server(
        if sendQueue != null then Life.Up else if conn != null then Life.Connecting else Life.Waiting(reconnticks),
        if sendQueue != null then View() else Offline(), activeTicks, idleticks, false)
    }

    /** IrcServer_create (107-112) and an IrcServer_connect (477-501) that gets a connection. */
    constructor (conn: Connection.Connection)
      requires conn.connecting > 0
      ensures Valid() && LifeView() == Life.INITIAL && connst == 0 && this.conn == conn
    {
      this.conn, sendQueue := conn, null;
      sendcmd, sending, sendcreditticks := None, false, SendPipeline.FULLSENDCREDIT;
      connst, reconnticks, idleticks, activeTicks := 0, 0, 0, 0;
      given, completed := [], [];
    }

    /** connConnected (136-156), raised by a connection that is no longer connecting. */
    method ConnConnected()
      requires sendQueue == null && conn != null && conn.Valid() && conn.Open() && conn.connecting == 0 && conn.View() == EMPTY
      requires sending <==> sendcmd.Some?
      modifies this`sendQueue, this`sendcreditticks, this`connst, this`given, this`completed
      ensures Valid() && LifeView() == Life.ConnConnected(old(LifeView())) && connst == -1
      ensures sendQueue != null && fresh(sendQueue) && fresh(sendQueue.entries)
    {
      hide *;
      ConnectingView();
      Life.FreshOk(Offline());
      connst := -1;
      NewQueue();
      UpView();
    }

    /** A connection that is up but has not been noticed yet. */
    lemma ConnectingView()
      requires sendQueue == null && conn != null
      ensures Life.ConnConnected(LifeView())
           == Life.Server(Life.Up, Offline().(credit := SendPipeline.FULLSENDCREDIT), activeTicks, idleticks, false)
      ensures Life.Offline(Offline()) == Offline() && (Offline().sending, Offline().sendcmd) == (sending, sendcmd)
    {}

    /** Lines 150-151. */
    method NewQueue()
      requires sendQueue == null && conn != null && conn.Valid() && conn.Open() && conn.connecting == 0 && conn.View() == EMPTY
      modifies this`sendQueue, this`sendcreditticks, this`given, this`completed
      ensures Wired() && View() == old(Offline()).(credit := SendPipeline.FULLSENDCREDIT)
      ensures fresh(sendQueue) && fresh(sendQueue.entries)
    {
      hide WritePipe.Ok, Queue.Unrolled, Connection.Connection.Valid, Connection.Connection.View;
      sendcreditticks := SendPipeline.FULLSENDCREDIT;
      given, completed := [], [];
      sendQueue := new Queue.IBQueue<string>();
      assert Objs(sendQueue.Contents()) == [];
    }

    /** connClosed (158-177); `quick` if the connection had been up. */
    method ConnClosed(quick: bool)
      modifies this`conn, this`sendQueue, this`connst, this`reconnticks, this`given, this`completed
      ensures conn == null && sendQueue == null && connst == 0 && Valid()
      ensures LifeView() == Life.Server(Life.Waiting(if quick then Life.QUICKRECONNTICKS else Life.RECONNTICKS),
                                        old(Offline()), old(activeTicks), old(idleticks), false)
    {
      conn := null;
      reconnticks := if quick then Life.QUICKRECONNTICKS else Life.RECONNTICKS;
      connst := 0;
      sendQueue := null;
      given, completed := [], [];
    }

    /** connWaitReconn (278-296); `c` is what IrcServer_connect gets, or null. */
    method ConnWaitReconn(c: Connection.Connection?)
      requires Valid() && conn == null && sendQueue == null && (c != null ==> c.connecting > 0)
      modifies this`conn, this`reconnticks
      ensures Valid() && LifeView() == Life.WaitReconn(old(LifeView()), c != null)
    {
      reconnticks := reconnticks - 1;
      if reconnticks <= 0 {
        conn := c;
        if c == null { reconnticks := Life.RECONNTICKS; }
      }
    }

    /** Lines 373-376. */
    method GiveCommand(cmd: string)
      requires Wired()
      modifies this`given, sendQueue, sendQueue.entries
      ensures Wired() && (sendQueue.entries == old(sendQueue.entries) || fresh(sendQueue.entries))
      ensures View() == SendPipeline.Enqueue(old(View()), cmd)
    {
      sendQueue.Enqueue(cmd, true);
      given := given + [cmd];
      assert Objs(sendQueue.Contents()) == old(Objs(sendQueue.Contents())) + [cmd];
    }

    /** Line 378. */
    method TakeCommand() returns (cmd: Option<string>)
      requires Wired()
      modifies sendQueue`front, sendQueue`count
      ensures Wired() && sendQueue.entries == old(sendQueue.entries)
      ensures if old(View()).queue == [] then cmd == None && View() == old(View())
              else cmd == Some(old(View()).queue[0]) && View() == old(View()).(queue := old(View()).queue[1..])
    {
      cmd := sendQueue.Dequeue();
      assert cmd.Some? ==> Objs(sendQueue.Contents()) == old(Objs(sendQueue.Contents()))[1..];
    }

    /** Lines 381-384; the result of Connection_write is ignored. */
    method SendCommand(cmd: string)
      requires Wired() && conn.nrecs < NWRITERECS
      modifies this`sendcmd, this`sending, this`sendcreditticks, conn`nrecs, conn`accepted, conn`active,
        conn.service, conn.writerecs
      ensures Wired() && sendQueue.Contents() == old(sendQueue.Contents())
      ensures View() == old(View()).(sendcmd := Some(cmd), sending := true,
        credit := old(View()).credit - SendPipeline.SENDCOST, pipe := Write(old(View()).pipe, SendPipeline.RequestFor(cmd)))
    {
      sendcmd, sending := Some(cmd), true;
      sendcreditticks := sendcreditticks - SendPipeline.SENDCOST;
      var _ := conn.WriteBuf(SendPipeline.Cut(cmd), Some(SendPipeline.SELF));
    }

    /** sendRaw without a command (377-385). */
    method TrySend()
      requires Wired() && Life.SenderOk(View())
      modifies this`sendcmd, this`sending, this`sendcreditticks, sendQueue`front, sendQueue`count,
        conn`nrecs, conn`accepted, conn`active, conn.service, conn.writerecs
      ensures Wired() && View() == SendPipeline.TrySend(old(View()))
    {
      ghost var s := View();
      if sendcreditticks < SendPipeline.SENDCOST || sending { return; }
      assert s.pipe.recs == [];
      hide Life.SenderOk;
      var cmd := TakeCommand();
      if cmd.Some? {
        SendCommand(cmd.value);
      } else {
        sendcmd := None;
      }
    }

    /** sendRaw (371-386). */
    method SendRaw(command: Option<string>)
      requires Wired() && Life.SenderOk(View())
      modifies this`given, this`sendcmd, this`sending, this`sendcreditticks, sendQueue, sendQueue.entries,
        conn`nrecs, conn`accepted, conn`active, conn.service, conn.writerecs
      ensures Wired() && Life.SenderOk(View())
      ensures sendQueue.entries == old(sendQueue.entries) || fresh(sendQueue.entries)
      ensures View() == if command.Some? then SendPipeline.SendRaw(old(View()), command.value)
                        else SendPipeline.TrySend(old(View()))
    {
      assert conn != null && sendQueue != null;
      hide Life.SenderOk, SendPipeline.TrySend, SendPipeline.Enqueue, Wired;
      if command.Some? {
        Life.EnqueueOk(View(), command.value);
        GiveCommand(command.value);
      }
      Life.TrySendOk(View());
      TrySend();
    }

    /** connDataSent (262-276). */
    method ConnDataSent()
      requires Wired() && Life.SenderOk(SendPipeline.Confirmed(View()))
      modifies this`sendcmd, this`sending, this`sendcreditticks, this`completed, sendQueue`front, sendQueue`count,
        conn`nrecs, conn`accepted, conn`active, conn.service, conn.writerecs
      ensures Wired() && Life.SenderOk(View()) && View() == SendPipeline.DataSent(old(View()))
    {
      completed := completed + if sendcmd.Some? then [sendcmd.value] else [];
      sendcmd, sending := None, false;
      hide Life.SenderOk, SendPipeline.TrySend, Wired;
      Life.TrySendOk(View());
      TrySend();
    }

    /** While there is a queue, the object's life is that of the sender. */
    lemma UpView()
      requires Wired()
      ensures conn != null && sendQueue != null
      ensures LifeView() == Life.Server(Life.Up, View(), activeTicks, idleticks, false)
      ensures Valid() <==> Life.SenderOk(View())
    {
      hide Life.SenderOk;
    }

    method AddCredit()
      requires Wired()
      modifies this`sendcreditticks
      ensures Wired() && View() == SendPipeline.Credited(old(View()))
    {
      if sendcreditticks < SendPipeline.FULLSENDCREDIT { sendcreditticks := sendcreditticks + 1; }
    }

    /** The beginning of activeTick (320-321) while there is a connection. */
    method CreditAndSend()
      requires Wired() && Life.SenderOk(View())
      modifies this`sendcmd, this`sending, this`sendcreditticks, sendQueue`front, sendQueue`count,
        conn`nrecs, conn`accepted, conn`active, conn.service, conn.writerecs
      ensures Wired() && Life.SenderOk(View()) && View() == SendPipeline.ActiveTick(old(View()))
    {
      Life.CreditOk(View());
      Life.TrySendOk(SendPipeline.Credited(View()));
      UpView();
      assert SendPipeline.ActiveTick(View()) == SendPipeline.TrySend(SendPipeline.Credited(View()));
      hide *;
      AddCredit();
      TrySend();
    }

    /** The ping timeout (331-335) while there is a connection. */
    method PingTimeout()
      requires Valid() && sendQueue != null
      modifies this`activeTicks, this`conn, this`sendQueue, this`connst, this`reconnticks, this`given, this`completed
      modifies conn`deleteScheduled
      ensures Valid() && LifeView() == Life.PingTimeout(old(LifeView()))
    {
      assert conn != null;
      hide Life.SenderOk, Wired;
      if activeTicks > 0 { activeTicks := activeTicks - 1; }
      conn.Close();
      ConnClosed(true);
    }

    /** The rest of activeTick (323-336) while there is a connection. */
    method CountIdle(ping: string)
      requires Valid() && sendQueue != null
      modifies this, sendQueue, sendQueue.entries, conn, conn.service, conn.writerecs
      ensures Valid() && LifeView() == Life.CountIdle(old(LifeView()), ping)
    {
      assert conn != null && Wired();
      hide Life.SenderOk, SendPipeline.SendRaw, Wired, Life.PingTimeout;
      idleticks := idleticks - 1;
      if idleticks == 0 {
        SendRaw(Some(ping));
      } else if idleticks <= -Life.PINGTICKS {
        PingTimeout();
      }
    }

    /** activeTick while there is a queue. */
    method UpTick(ping: string)
      requires Valid() && sendQueue != null
      modifies this, sendQueue, sendQueue.entries, conn, conn.service, conn.writerecs
      ensures !Life.ActiveTick(old(LifeView()), ping).crashed
      ensures Valid() && LifeView() == Life.ActiveTick(old(LifeView()), ping)
    {
      assert Wired();
      UpView();
      Life.UpTickIs(LifeView(), ping);
      hide *;
      CreditAndSend();
      UpView();
      CountIdle(ping);
    }

    /** activeTick while there is none: nothing but the credit and the idle ticks can be counted. */
    method DownTick() returns (crashed: bool)
      requires Valid() && sendQueue == null
      modifies this, conn
      ensures forall ping :: crashed == Life.ActiveTick(old(LifeView()), ping).crashed
      ensures !crashed ==> Valid() && forall ping :: LifeView() == Life.ActiveTick(old(LifeView()), ping)
    {
      if sendcreditticks < SendPipeline.FULLSENDCREDIT { sendcreditticks := sendcreditticks + 1; }
      if sendcreditticks >= SendPipeline.SENDCOST && !sending { return true; }  // IBQueue_dequeue(0)
      idleticks := idleticks - 1;
      if idleticks == 0 { return true; }  // IBQueue_enqueue(0, ...)
      if idleticks <= -Life.PINGTICKS {
        if activeTicks > 0 { activeTicks := activeTicks - 1; }
        if conn == null { return true; }  // Connection_close(0, 0)
        conn.Close();
        ConnClosed(false);
      }
      crashed := false;
    }

    /** The RPL_MYINFO case of handleMessage (414-417), in data that has reset idleticks (187). */
    method LoggedIn()
      requires Valid() && sendQueue != null
      modifies this`sendcreditticks, this`connst, this`activeTicks, this`idleticks
      ensures Valid() && LifeView() == Life.Apply(old(LifeView()), Life.LoggedIn) && connst == 1
    {
      Life.RefillOk(View());
      hide Life.SenderOk;
      idleticks := Life.IDLETICKS;
      connst := 1;
      sendcreditticks := SendPipeline.FULLSENDCREDIT;
      activeTicks := activeTicks + 1;
    }

    /** The connection's descriptor is ready for writing: the record goes on, or is confirmed, or the connection closes. */
    method WriteReady(o: Outcome)
      requires Valid() && sendQueue != null && (conn.nrecs > 0 ==> Possible(conn.View(), o))
      modifies this, sendQueue`front, sendQueue`count, conn, conn.service, conn.writerecs
      ensures Valid() && LifeView() == Life.Apply(old(LifeView()), Life.Progress(o))
    {
      UpView();
      assert conn != null && (View().pipe.recs == [] <==> conn.nrecs == 0);
      assert View().pipe == conn.View() && Offline() == Life.Offline(View());
      if conn.nrecs > 0 { Life.AfterWriteOk(View(), o); }
      Life.ProgressIs(LifeView(), o);
      hide *;
      var id := WriteDescriptor(o);
      if conn.deleteScheduled != 0 {
        ConnClosed(true);
      } else {
        OneIdCounts(id);
        if id.Some? { ConnDataSent(); }
        UpView();
      }
    }

    lemma OneIdCounts(id: Option<nat>)
      ensures |OneId(id)| == if id.Some? then 1 else 0
    {}

    /** What the connection does then. */
    method WriteDescriptor(o: Outcome) returns (id: Option<nat>)
      requires Wired() && (conn.nrecs > 0 ==> Possible(conn.View(), o))
      modifies conn, conn.service, conn.writerecs
      ensures conn.deleteScheduled != 0 <==> old(View()).pipe.recs != [] && o.Failed?
      ensures conn.deleteScheduled == 0 ==>
        && Wired() && View().pipe.raised == old(View()).pipe.raised + OneId(id)
        && View() == old(View()).(pipe := if old(View()).pipe.recs == [] then old(View()).pipe else DoWrite(old(View()).pipe, o))
    {
      assert View().pipe.recs == [] <==> conn.nrecs == 0;
      hide Possible, DoWrite, WritePipe.Ok, Queue.Unrolled;
      var up;
      id, up := conn.WriteConnection(false, o);
    }

    /** activeTick (314-337) at any time in the object's life; `crashed` if it uses a null pointer. */
    method ActiveTick(ping: string) returns (crashed: bool)
      requires Valid()
      modifies this, sendQueue, if sendQueue != null then {sendQueue.entries} else {}
      modifies conn, if conn != null then {conn.service as object, conn.writerecs} else {}
      ensures crashed == Life.ActiveTick(old(LifeView()), ping).crashed
      ensures !crashed ==> Valid() && LifeView() == Life.ActiveTick(old(LifeView()), ping)
    {
      assert sendQueue != null ==> conn != null;
      hide Life.SenderOk, Wired, Life.ActiveTick;
      if sendQueue != null {
        UpTick(ping);
        crashed := false;
      } else {
        crashed := DownTick();
      }
    }

    /** One turn of the loop in IrcServer_sendMsg (599-604): a line goes out, and the rest of the message remains. */
    method SendPiece(rawmsg: array<char>, idx: nat, to: string, rest: string, action: bool) returns (more: string)
      requires Wired() && Life.SenderOk(View()) && NUL !in to && NUL !in rest && rest != [] && |to| <= 255
      requires rawmsg.Length == RAWSIZE && idx == |Head(to, action)| && rawmsg[..idx] == Head(to, action)
      modifies this`given, this`sendcmd, this`sending, this`sendcreditticks, sendQueue, sendQueue.entries,
        conn`nrecs, conn`accepted, conn`active, conn.service, conn.writerecs, rawmsg
      ensures Wired() && Life.SenderOk(View()) && NUL !in more && |more| < |rest|
      ensures sendQueue.entries == old(sendQueue.entries) || fresh(sendQueue.entries)
      ensures rawmsg[..idx] == Head(to, action)
      ensures SendPipeline.SendAll(View(), MsgLines(to, more, action))
           == SendPipeline.SendAll(old(View()), MsgLines(to, rest, action))
    {
      ChunkRoom(to, action);
      var maxchunk := MaxChunk(to, action);
      var chunksz := if |rest| > maxchunk then maxchunk else |rest|;
      NextLine(Head(to, action), rest, maxchunk, Tail(action));
      hide Life.SenderOk, SendPipeline.SendRaw, MaxChunk, Head, Tail, Wired, Chunks, Lines;
      var line := FormatLine(rawmsg, idx, to, rest[..chunksz], action);
      SendRaw(Some(line));
      more := rest[chunksz..];
    }

    /** The loop in IrcServer_sendMsg (597-605). */
    method SendPieces(rawmsg: array<char>, idx: nat, to: string, message: string, action: bool)
      requires Wired() && Life.SenderOk(View()) && NUL !in to && NUL !in message && |to| <= 255
      requires rawmsg.Length == RAWSIZE && idx == |Head(to, action)| && rawmsg[..idx] == Head(to, action)
      modifies this`given, this`sendcmd, this`sending, this`sendcreditticks, sendQueue, sendQueue.entries,
        conn`nrecs, conn`accepted, conn`active, conn.service, conn.writerecs, rawmsg
      ensures Wired() && Life.SenderOk(View())
      ensures View() == SendPipeline.SendAll(old(View()), MsgLines(to, message, action))
    {
      assert MsgLines(to, [], action) == [] && conn != null && sendQueue != null;
      assert forall s: SendPipeline.Sender :: SendPipeline.SendAll(s, []) == s;
      hide *;
      var rest := message;
      while rest != []
        invariant Wired() && Life.SenderOk(View()) && NUL !in rest
        invariant sendQueue.entries == old(sendQueue.entries) || fresh(sendQueue.entries)
        invariant rawmsg[..idx] == Head(to, action)
        invariant SendPipeline.SendAll(View(), MsgLines(to, rest, action))
               == SendPipeline.SendAll(old(View()), MsgLines(to, message, action))
        decreases |rest|
      {
        rest := SendPiece(rawmsg, idx, to, rest, action);
      }
    }

    /** IrcServer_sendMsg (580-607) at any time: refused before login and for a recipient of more than 255 bytes. */
    method SendMsg(to: string, message: string, action: bool) returns (rc: int)
      requires Valid() && NUL !in to && NUL !in message
      modifies this`given, this`sendcmd, this`sending, this`sendcreditticks
      modifies sendQueue, if sendQueue != null then {sendQueue.entries} else {}
      modifies (if conn != null then {conn} else {})`nrecs, (if conn != null then {conn} else {})`accepted,
        (if conn != null then {conn} else {})`active, if conn != null then {conn.service as object, conn.writerecs} else {}
      ensures Valid() && rc == if connst <= 0 || |to| > 255 then -1 else 0
      ensures rc == -1 ==> LifeView() == old(LifeView())
      ensures rc == 0 ==> old(Wired()) && Wired() && View() == SendPipeline.SendAll(old(View()), MsgLines(to, message, action))
    {
      if connst <= 0 { return -1; }
      if |to| > 255 { return -1; }
      assert Wired() && Life.SenderOk(View()) && conn != null && sendQueue != null;
      UpView();
      hide *;
      var rawmsg := new char[RAWSIZE](_ => NUL);
      var idx := FormatHead(rawmsg, to, action);
      SendPieces(rawmsg, idx, to, message, action);
      UpView();
      rc := 0;
    }
  }
}
