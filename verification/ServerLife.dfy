/** The life of a server object over all its connections (ircserver.c): logging in, ticking, closing, reconnecting. */
module ServerLife {
  import opened Wrappers
  import opened Sequences
  import opened WritePipe
  import P = SendPipeline

  const QUICKRECONNTICKS := 5
  const RECONNTICKS := 300
  const IDLETICKS := 180
  const PINGTICKS := 3

  /** Up: there is a connection and a send queue. Connecting: a connection, but no queue yet. Waiting: neither, and
      reconnticks to go. */
  datatype Link = Up | Connecting | Waiting(ticks: int)

  /** `active` counts the registrations of activeTick, `idle` is idleticks. `crashed` says that a null pointer was used. */
  datatype Server = Server(link: Link, sender: P.Sender, active: nat, idle: int, crashed: bool)

  /** IrcServer_create (107-112) and IrcServer_connect. */
  const INITIAL := Server(Connecting, P.START, 0, 0, false)

  // ---------- the handlers ----------

  /** A sender without queue and connection: `sendcmd`, `sending` and the credit are all there is. */
  function Offline(s: P.Sender): P.Sender { P.Sender([], s.sendcmd, s.sending, s.credit, EMPTY, [], []) }

  /** connConnected (150-152): queue and credit are new; `sending` and `sendcmd` stay. */
  function ConnConnected(s: Server): Server {
    s.(link := Up, sender := Offline(s.sender).(credit := P.FULLSENDCREDIT))
  }

  /** connClosed (163-175): the queue is destroyed, but activeTick stays registered, and `sending` stays, too. */
  function ConnClosed(s: Server, quick: bool): Server {
    s.(link := Waiting(if quick then QUICKRECONNTICKS else RECONNTICKS), sender := Offline(s.sender))
  }

  /** sendRaw(self, 0): without a queue, IBQueue_dequeue gets a null pointer. */
  function SendNext(s: Server): Server {
    if s.sender.credit < P.SENDCOST || s.sender.sending then s
    else if !s.link.Up? then s.(crashed := true)
    else s.(sender := P.TrySend(s.sender))
  }

  /** sendRawCmd(self, MSG_PING, ...): without a queue, IBQueue_enqueue gets a null pointer. */
  function SendPing(s: Server, ping: string): Server {
    if s.link.Up? then s.(sender := P.SendRaw(s.sender, ping)) else s.(crashed := true)
  }

  /** Lines 329-335: without a connection, Connection_close gets a null pointer. */
  function PingTimeout(s: Server): Server {
    if s.link.Waiting? then s.(crashed := true)
    else ConnClosed(s.(active := if s.active > 0 then s.active - 1 else 0), s.link.Up?)
  }

  /** The second part of activeTick (323-336). */
  function CountIdle(s: Server, ping: string): Server {
    var t := s.(idle := s.idle - 1);
    if t.idle == 0 then SendPing(t, ping) else if t.idle <= -PINGTICKS then PingTimeout(t) else t
  }

  /** activeTick (314-337). */
  function ActiveTick(s: Server, ping: string): Server {
    var t := SendNext(s.(sender := P.Credited(s.sender)));
    if t.crashed then t else CountIdle(t, ping)
  }

  /** The calls of activeTick in one tick. If one of them closes the connection, connClosed registers on the event that is
      being raised, and the one behind may be `missed`. */
  function ActiveTicks(s: Server, n: nat, ping: string, missed: bool): Server
    decreases n
  {
    if n == 0 || s.crashed then s
    else
      var t := ActiveTick(s, ping);
      ActiveTicks(t, if missed && n >= 2 && t.link != s.link then n - 2 else n - 1, ping, missed)
  }

  /** connWaitReconn (278-296); `connects` is whether IrcServer_connect succeeds. */
  function WaitReconn(s: Server, connects: bool): Server
    requires s.link.Waiting?
  {
    var t := s.link.ticks - 1;
    s.(link := if t > 0 then Waiting(t) else if connects then Connecting else Waiting(RECONNTICKS))
  }

  // ---------- steps ----------

  /** What happens to a server object. `LoggedIn` is RPL_MYINFO, `Data` any other received data, `Close` any reason
      for the connection to end, `quick` whether it had been up. In a `Tick` all of the object's handlers are called;
      `reached` says whether connWaitReconn is, if it is registered in that very tick. */
  datatype Step =
    | Give(cmd: string)
    | Progress(o: Outcome)
    | Data
    | LoggedIn
    | Close(quick: bool)
    | Connected
    | Tick(ping: string, connects: bool, missed: bool, reached: bool)

  ghost predicate Enabled(s: Server, step: Step) {
    && !s.crashed
    && match step
       case Give(_) => s.link.Up?
       case Progress(o) => s.link.Up? && Possible(s.sender.pipe, o)
       case Data => s.link.Up?
       case LoggedIn => s.link.Up?
       case Close(_) => !s.link.Waiting?
       case Connected => s.link.Connecting?
       case Tick(_, _, _, _) => true
  }

  function TickAll(s: Server, ping: string, connects: bool, missed: bool, reached: bool): Server {
    var t := ActiveTicks(s, s.active, ping, missed);
    if !t.crashed && t.link.Waiting? && (s.link.Waiting? || reached) then WaitReconn(t, connects) else t
  }

  function Apply(s: Server, step: Step): Server {
    match step
    case Give(cmd) => s.(sender := P.SendRaw(s.sender, cmd))
    case Progress(o) =>
      if s.sender.pipe.recs == [] then s
      else if o.Failed? then ConnClosed(s, true)
      else s.(sender := P.Writable(s.sender, o))
    case Data => s.(idle := IDLETICKS)
    case LoggedIn => s.(sender := P.Refill(s.sender), active := s.active + 1, idle := IDLETICKS)
    case Close(quick) => ConnClosed(s, quick)
    case Connected => ConnConnected(s)
    case Tick(ping, connects, missed, reached) => TickAll(s, ping, connects, missed, reached)
  }

  ghost predicate Runs(s: Server, steps: seq<Step>)
    decreases |steps|
  {
    steps != [] ==> Enabled(s, steps[0]) && Runs(Apply(s, steps[0]), steps[1..])
  }

  function After(s: Server, steps: seq<Step>): Server
    decreases |steps|
  {
    if steps == [] then s else After(Apply(s, steps[0]), steps[1..])
  }

  lemma Prepend(s: Server, step: Step, steps: seq<Step>)
    requires Enabled(s, step) && Runs(Apply(s, step), steps)
    ensures Runs(s, [step] + steps) && After(s, [step] + steps) == After(Apply(s, step), steps)
  {
    assert ([step] + steps)[0] == step && ([step] + steps)[1..] == steps;
  }

  /** Anything can happen to a connection that is up, and to one that is not whatever does not need one. */
  lemma AnythingCanHappen(s: Server, step: Step)
    requires !s.crashed
    ensures s.link.Up? && !step.Connected? && (step.Progress? ==> Possible(s.sender.pipe, step.o)) ==> Enabled(s, step)
    ensures s.link.Connecting? && (step.Connected? || step.Close? || step.Tick?) ==> Enabled(s, step)
    ensures step.Tick? ==> Enabled(s, step)
  {}

  // ---------- what holds over the whole life ----------

  /** A stale `sending`: nothing has been or will be handed to this connection. */
  predicate Stuck(s: P.Sender) { s.sending && s.pipe == EMPTY }

  ghost predicate SenderOk(s: P.Sender) { P.Inv(s) || Stuck(s) }

  ghost predicate Ok(s: Server) {
    && (s.sender.sending <==> s.sender.sendcmd.Some?)
    && 0 <= s.sender.credit <= P.FULLSENDCREDIT
    && (s.link.Up? ==> SenderOk(s.sender))
  }

  lemma EnqueueOk(s: P.Sender, cmd: string)
    requires SenderOk(s)
    ensures SenderOk(P.Enqueue(s, cmd))
  {
    if P.Inv(s) { P.EnqueueKeeps(s, cmd); }
    hide P.Inv;
  }

  lemma TrySendOk(s: P.Sender)
    requires SenderOk(s)
    ensures SenderOk(P.TrySend(s))
  {
    if P.Inv(s) { P.TrySendKeeps(s); }
    hide P.Inv;
  }

  lemma CreditOk(s: P.Sender)
    requires SenderOk(s)
    ensures SenderOk(P.Credited(s))
  {
    if P.Inv(s) { P.CreditKeeps(s); }
    hide P.Inv;
  }

  lemma RefillOk(s: P.Sender)
    requires SenderOk(s)
    ensures SenderOk(P.Refill(s))
  {
    if P.Inv(s) { P.StepKeeps(s, P.LoggedIn); }
    hide P.Inv;
  }

  /** The state in which the handler of dataSent starts, and the one that a partial write leaves. */
  lemma AfterWriteOk(s: P.Sender, o: Outcome)
    requires SenderOk(s) && Possible(s.pipe, o)
    ensures var p := DoWrite(s.pipe, o);
            SenderOk(if |p.raised| > |s.pipe.raised| then P.Confirmed(s.(pipe := p)) else s.(pipe := p))
  {
    if P.Inv(s) { P.AfterWrite(s, o); }
    hide P.Inv;
  }

  lemma ActiveTickOk(s: Server, ping: string)
    requires Ok(s)
    ensures Ok(ActiveTick(s, ping))
  {
    if s.link.Up? {
      var c := P.Credited(s.sender);
      CreditOk(s.sender);
      TrySendOk(c);
      EnqueueOk(P.TrySend(c), ping);
      TrySendOk(P.Enqueue(P.TrySend(c), ping));
    }
    hide SenderOk;
  }

  lemma {:induction false} ActiveTicksOk(s: Server, n: nat, ping: string, missed: bool)
    requires Ok(s)
    ensures Ok(ActiveTicks(s, n, ping, missed))
    decreases n
  {
    if n > 0 && !s.crashed {
      var t := ActiveTick(s, ping);
      ActiveTickOk(s, ping);
      ActiveTicksOk(t, if missed && n >= 2 && t.link != s.link then n - 2 else n - 1, ping, missed);
    }
  }

  /** A new connection starts afresh if nothing was in flight, and stuck otherwise. */
  lemma FreshOk(s: P.Sender)
    requires s.sending <==> s.sendcmd.Some?
    ensures var t := Offline(s).(credit := P.FULLSENDCREDIT);
            SenderOk(t) && if s.sending then Stuck(t) else t == P.START
  {
    P.StartInv();
    hide P.Inv;
  }

  /** activeTick while the connection is up. */
  lemma UpTickIs(s: Server, ping: string)
    requires s.link.Up? && !s.crashed
    ensures ActiveTick(s, ping) == CountIdle(s.(sender := P.ActiveTick(s.sender)), ping)
    ensures !ActiveTick(s, ping).crashed
  {}

  lemma ProgressIs(s: Server, o: Outcome)
    requires s.link.Up?
    ensures s.sender.pipe.recs == [] ==> Apply(s, Progress(o)) == s
    ensures s.sender.pipe.recs != [] && o.Failed? ==>
      Apply(s, Progress(o)) == Server(Waiting(QUICKRECONNTICKS), Offline(s.sender), s.active, s.idle, s.crashed)
    ensures s.sender.pipe.recs != [] && !o.Failed? ==>
      var p := DoWrite(s.sender.pipe, o);
      var t := s.sender.(pipe := p);
      Apply(s, Progress(o)) == s.(sender := if |p.raised| > |s.sender.pipe.raised| then P.DataSent(t) else t)
  {}

  lemma StepOk(s: Server, step: Step)
    requires Ok(s) && Enabled(s, step)
    ensures Ok(Apply(s, step))
  {
    match step {
      case Give(cmd) => if P.Inv(s.sender) { P.SendRawKeeps(s.sender, cmd); }
      case Progress(o) => if P.Inv(s.sender) { P.WritableKeeps(s.sender, o); }
      case LoggedIn => RefillOk(s.sender);
      case Connected => FreshOk(s.sender);
      case Tick(ping, connects, missed, reached) => ActiveTicksOk(s, s.active, ping, missed);
      case _ =>
    }
    hide P.Inv;
  }

  /** Over the whole life of a server object, on every one of its connections: either commands are conserved, or nothing
      is handed to the connection at all. */
  lemma {:induction false} LifeKeeps(s: Server, steps: seq<Step>)
    requires Ok(s) && Runs(s, steps)
    ensures Ok(After(s, steps))
    decreases |steps|
  {
    if steps != [] {
      StepOk(s, steps[0]);
      LifeKeeps(Apply(s, steps[0]), steps[1..]);
    }
  }

  // ---------- before login ----------

  /** No activeTick, and at most 9 of credit spent on this connection. */
  ghost predicate Frugal(s: Server) {
    && s.active == 0 && s.sender.credit >= 0
    && (s.link.Up? ==> P.SENDCOST * |s.sender.pipe.accepted| + s.sender.credit <= P.FULLSENDCREDIT)
  }

  lemma FrugalStep(s: Server, step: Step)
    requires Frugal(s) && Enabled(s, step) && !step.LoggedIn?
    ensures Frugal(Apply(s, step))
  {
    if step.Progress? { assert DoWrite(s.sender.pipe, step.o).accepted == s.sender.pipe.accepted; }
  }

  lemma {:induction false} FrugalRun(s: Server, steps: seq<Step>)
    requires Frugal(s) && Runs(s, steps) && LoggedIn !in steps
    ensures Frugal(After(s, steps))
    decreases |steps|
  {
    if steps != [] {
      FrugalStep(s, steps[0]);
      FrugalRun(Apply(s, steps[0]), steps[1..]);
    }
  }

  /** Until the first login at most four commands leave on any connection, whatever the ticks. */
  lemma AtMostFourBeforeLogin(steps: seq<Step>)
    requires Runs(INITIAL, steps) && LoggedIn !in steps && After(INITIAL, steps).link.Up?
    ensures |After(INITIAL, steps).sender.pipe.accepted| <= 4
  {
    FrugalRun(INITIAL, steps);
  }

  // ---------- the rate ----------

  function Ticks(steps: seq<Step>): nat {
    if steps == [] then 0 else (if steps[0].Tick? then 1 else 0) + Ticks(steps[1..])
  }

  /** Twice the commands handed to the connection, and the credit left. */
  function Spent(s: Server): int { P.SENDCOST * |s.sender.pipe.accepted| + s.sender.credit }

  /** `t` follows on `s`: still up and with at most `n` more to spend, or down. */
  predicate Follows(s: Server, t: Server, n: nat) { t.link.Up? ==> Spent(t) <= Spent(s) + n && t.active == s.active }

  lemma ActiveTickSpends(s: Server, ping: string)
    requires s.link.Up? && !s.crashed
    ensures Follows(s, ActiveTick(s, ping), 1)
  {}

  lemma {:induction false} ActiveTicksDown(s: Server, n: nat, ping: string, missed: bool)
    requires !s.link.Up?
    ensures !ActiveTicks(s, n, ping, missed).link.Up?
    decreases n
  {
    if n > 0 && !s.crashed {
      var t := ActiveTick(s, ping);
      ActiveTicksDown(t, if missed && n >= 2 && t.link != s.link then n - 2 else n - 1, ping, missed);
    }
  }

  lemma {:induction false} ActiveTicksSpend(s: Server, n: nat, ping: string, missed: bool)
    requires s.link.Up? && !s.crashed
    ensures Follows(s, ActiveTicks(s, n, ping, missed), n)
    decreases n
  {
    if n > 0 {
      var t := ActiveTick(s, ping);
      ActiveTickSpends(s, ping);
      UpTickIs(s, ping);
      hide ActiveTick, Spent;
      if t.link.Up? {
        ActiveTicksSpend(t, n - 1, ping, missed);
      } else {
        ActiveTicksDown(t, if missed && n >= 2 && t.link != s.link then n - 2 else n - 1, ping, missed);
      }
    }
  }

  lemma StepSpends(s: Server, step: Step)
    requires s.link.Up? && Enabled(s, step) && !step.LoggedIn?
    ensures Follows(s, Apply(s, step), if step.Tick? then s.active else 0)
  {
    match step
    case Tick(ping, connects, missed, reached) => ActiveTicksSpend(s, s.active, ping, missed);
    case _ =>
  }

  lemma {:induction false} StaysDown(s: Server, steps: seq<Step>)
    requires !s.link.Up? && Runs(s, steps) && Connected !in steps
    ensures !After(s, steps).link.Up?
    decreases |steps|
  {
    if steps != [] {
      if steps[0].Tick? { ActiveTicksDown(s, s.active, steps[0].ping, steps[0].missed); }
      StaysDown(Apply(s, steps[0]), steps[1..]);
    }
  }

  lemma {:induction false} RunSpends(s: Server, steps: seq<Step>)
    requires s.link.Up? && Runs(s, steps) && LoggedIn !in steps && Connected !in steps
    ensures Follows(s, After(s, steps), s.active * Ticks(steps))
    decreases |steps|
  {
    if steps != [] {
      var t := Apply(s, steps[0]);
      StepSpends(s, steps[0]);
      hide Spent, Apply;
      if t.link.Up? {
        RunSpends(t, steps[1..]);
        assert s.active * (1 + Ticks(steps[1..])) == s.active + s.active * Ticks(steps[1..]);
      } else {
        StaysDown(t, steps[1..]);
      }
    }
  }

  /** While a connection lasts and until the next login, twice the commands handed to it are at most 9 and, for each tick of
      the service, the registrations of activeTick. */
  lemma RateBound(s: Server, steps: seq<Step>)
    requires Ok(s) && Runs(s, steps) && LoggedIn !in steps && Connected !in steps
    requires s.link.Up? && After(s, steps).link.Up?
    ensures P.SENDCOST * (|After(s, steps).sender.pipe.accepted| - |s.sender.pipe.accepted|)
         <= P.FULLSENDCREDIT + s.active * Ticks(steps)
  {
    RunSpends(s, steps);
    LifeKeeps(s, steps);
  }

  // ---------- idle connections ----------

  /** Steps that do not reset the count of idle ticks, and do not end the connection from outside. */
  predicate IsQuiet(step: Step) { step.Give? || step.Tick? || (step.Progress? && !step.o.Failed?) }

  ghost predicate AllQuiet(steps: seq<Step>) { forall k | 0 <= k < |steps| :: IsQuiet(steps[k]) }

  /** What is given in quiet steps that start with `idle` ticks to go: the commands, and one ping, with the last of them. */
  function Said(steps: seq<Step>, idle: int): seq<string>
    decreases |steps|
  {
    if steps == [] then []
    else SaidFirst(steps[0], idle) + Said(steps[1..], if steps[0].Tick? then idle - 1 else idle)
  }

  function SaidFirst(step: Step, idle: int): seq<string> {
    match step
    case Give(cmd) => [cmd]
    case Tick(ping, _, _, _) => if idle == 1 then [ping] else []
    case _ => []
  }

  lemma SaidIs(steps: seq<Step>, idle: int)
    requires steps != []
    ensures Said(steps, idle)
         == SaidFirst(steps[0], idle) + Said(steps[1..], if steps[0].Tick? then idle - 1 else idle)
  {}

  /** The connection is up and activeTick registered once. */
  predicate Watched(s: Server) { s.link.Up? && !s.crashed && s.active == 1 }

  /** One tick of a watched connection, before the last one: the count goes on, and at 0 a ping is given. */
  lemma WatchedTick(s: Server, step: Step)
    requires Watched(s) && s.idle > 1 - PINGTICKS && step.Tick?
    ensures var t := Apply(s, step);
            && Watched(t) && t.idle == s.idle - 1
            && t.sender.given == s.sender.given + if s.idle == 1 then [step.ping] else []
  {
    assert ActiveTicks(s, 1, step.ping, step.missed) == ActiveTick(s, step.ping);
    NothingAround(s.sender.given);
  }

  /** And the last one: without an answer for three ticks the connection is closed, and activeTick taken off. */
  lemma LastTick(s: Server, step: Step)
    requires Watched(s) && s.idle == 1 - PINGTICKS && step.Tick?
    ensures var t := Apply(s, step);
            && t.link == Waiting(if !step.reached then 5 else 4) && t.active == 0 && !t.crashed
  {
    assert ActiveTicks(s, 1, step.ping, step.missed) == ActiveTick(s, step.ping);
  }

  lemma QuietStep(s: Server, step: Step)
    requires Watched(s) && Enabled(s, step) && (step.Give? || (step.Progress? && !step.o.Failed?))
    ensures var t := Apply(s, step);
            && Watched(t) && t.idle == s.idle
            && t.sender.given == s.sender.given + if step.Give? then [step.cmd] else []
  {
    NothingAround(s.sender.given);
  }

  /** Over quiet steps with fewer ticks than there are to go, and three: the connection stays up, and just what is said
      above is given. */
  lemma {:induction false} IdleRun(s: Server, steps: seq<Step>)
    requires Watched(s) && Runs(s, steps) && AllQuiet(steps) && Ticks(steps) < s.idle + PINGTICKS
    ensures var t := After(s, steps);
            && Watched(t) && t.idle == s.idle - Ticks(steps)
            && t.sender.given == s.sender.given + Said(steps, s.idle)
    decreases |steps|
  {
    if steps == [] {
      NothingAround(s.sender.given);
    } else {
      assert IsQuiet(steps[0]);
      if steps[0].Tick? { WatchedTick(s, steps[0]); } else { QuietStep(s, steps[0]); }
      var first := SaidFirst(steps[0], s.idle);
      var rest := Said(steps[1..], if steps[0].Tick? then s.idle - 1 else s.idle);
      var t := Apply(s, steps[0]);
      assert t.sender.given == s.sender.given + first;
      hide Apply, Watched, Said, SaidFirst, Enabled;
      SaidIs(steps, s.idle);
      IdleRun(t, steps[1..]);
      Reassociate(s.sender.given, first, rest);
    }
  }

  /** No more than one ping, with the tick on which the count runs out. */
  lemma {:induction false} OnePing(steps: seq<Step>, idle: int)
    requires AllQuiet(steps) && forall k | 0 <= k < |steps| :: !steps[k].Give?
    ensures |Said(steps, idle)| == if 0 < idle <= Ticks(steps) then 1 else 0
    decreases |steps|
  {
    if steps != [] {
      assert IsQuiet(steps[0]);
      OnePing(steps[1..], if steps[0].Tick? then idle - 1 else idle);
    }
  }

  /** After any received data a connection lasts at least another 182 ticks without data; the one ping it gives in that time
      is given with the 180th; and the 183rd tick closes it. */
  lemma PingThenClose(s: Server, got: Step, steps: seq<Step>, last: Step)
    requires Watched(s) && got.Data? && Runs(s, [got] + steps) && AllQuiet(steps) && Ticks(steps) <= 182 && last.Tick?
    ensures var t := After(s, [got] + steps);
            && Watched(t)
            && t.sender.given == s.sender.given + Said(steps, 180)
            && (Ticks(steps) == 182 ==>
                  var u := Apply(t, last); (u.link == Waiting(5) || u.link == Waiting(4)) && u.active == 0 && !u.crashed)
  {
    assert ([got] + steps)[1..] == steps;
    var u := Apply(s, got);
    assert Watched(u) && u.sender == s.sender && u.idle == 180;
    hide Apply;
    IdleRun(u, steps);
    var t := After(u, steps);
    assert t == After(s, [got] + steps);
    if Ticks(steps) == 182 { LastTick(t, last); }
  }

  // ---------- a connection that is up is a pipeline ----------

  /** What steps mean for the pipeline, with `idle` ticks to go. */
  function PipelineSteps(step: Step, idle: int): seq<P.Step> {
    match step
    case Give(cmd) => [P.Give(cmd)]
    case Progress(o) => [P.Progress(o)]
    case LoggedIn => [P.LoggedIn]
    case Tick(ping, _, _, _) => if idle == 1 then [P.Tick, P.Give(ping)] else [P.Tick]
    case _ => []
  }

  function PipelineRun(steps: seq<Step>, idle: int): seq<P.Step>
    decreases |steps|
  {
    if steps == [] then []
    else PipelineSteps(steps[0], idle) + PipelineRun(steps[1..], if steps[0].Tick? then idle - 1 else idle)
  }

  lemma OneStep(s: P.Sender, step: P.Step)
    requires P.Enabled(s, step)
    ensures P.Runs(s, [step]) && P.After(s, [step]) == P.Apply(s, step)
  {
    assert [step][1..] == [];
    assert P.Runs(P.Apply(s, step), []) && P.After(P.Apply(s, step), []) == P.Apply(s, step);
  }

  lemma TwoSteps(s: P.Sender, x: P.Step, y: P.Step)
    requires P.Enabled(s, x) && P.Enabled(P.Apply(s, x), y)
    ensures P.Runs(s, [x, y]) && P.After(s, [x, y]) == P.Apply(P.Apply(s, x), y)
  {
    OneStep(P.Apply(s, x), y);
    assert [x, y][1..] == [y];
  }

  lemma {:induction false} PipelineAppend(s: P.Sender, xs: seq<P.Step>, ys: seq<P.Step>)
    requires P.Runs(s, xs) && P.Runs(P.After(s, xs), ys)
    ensures P.Runs(s, xs + ys) && P.After(s, xs + ys) == P.After(P.After(s, xs), ys)
    decreases |xs|
  {
    if xs == [] {
      NothingAround(ys);
    } else {
      assert (xs + ys)[1..] == xs[1..] + ys && (xs + ys)[0] == xs[0];
      hide P.Apply, P.Enabled;
      PipelineAppend(P.Apply(s, xs[0]), xs[1..], ys);
    }
  }

  lemma StepIsPipeline(s: Server, step: Step)
    requires Watched(s) && Enabled(s, step) && IsQuiet(step) && (step.Tick? ==> s.idle > 1 - PINGTICKS)
    requires P.Inv(s.sender)
    ensures P.Runs(s.sender, PipelineSteps(step, s.idle))
    ensures Apply(s, step).sender == P.After(s.sender, PipelineSteps(step, s.idle))
  {
    match step {
      case Give(cmd) => OneStep(s.sender, P.Give(cmd));
      case Progress(o) => OneStep(s.sender, P.Progress(o));
      case Tick(ping, _, _, _) =>
        assert ActiveTicks(s, 1, ping, step.missed) == ActiveTick(s, ping);
        if s.idle == 1 { TwoSteps(s.sender, P.Tick, P.Give(ping)); } else { OneStep(s.sender, P.Tick); }
    }
  }

  /** Between two pieces of received data a connection that is up does what the pipeline does with the same commands, writes
      and ticks: so all that is proved of the pipeline holds of it. */
  lemma {:induction false} UpIsPipeline(s: Server, steps: seq<Step>)
    requires Watched(s) && P.Inv(s.sender) && Runs(s, steps) && AllQuiet(steps) && Ticks(steps) < s.idle + PINGTICKS
    ensures var run := PipelineRun(steps, s.idle);
            P.Runs(s.sender, run) && After(s, steps).sender == P.After(s.sender, run)
    decreases |steps|
  {
    if steps == [] {
      assert P.Runs(s.sender, []) && P.After(s.sender, []) == s.sender;
    } else {
      assert IsQuiet(steps[0]) && Enabled(s, steps[0]);
      var first, idle := PipelineSteps(steps[0], s.idle), if steps[0].Tick? then s.idle - 1 else s.idle;
      var t := Apply(s, steps[0]);
      assert After(s, steps) == After(t, steps[1..]) && Runs(t, steps[1..]);
      assert PipelineRun(steps, s.idle) == first + PipelineRun(steps[1..], idle);
      assert Ticks(steps) == Ticks(steps[1..]) + if steps[0].Tick? then 1 else 0;
      assert AllQuiet(steps[1..]);
      hide *;
      QuietKeepsUp(s, steps[0]);
      UpIsPipeline(t, steps[1..]);
      PipelineAppend(s.sender, first, PipelineRun(steps[1..], idle));
    }
  }

  lemma QuietKeepsUp(s: Server, step: Step)
    requires Watched(s) && Enabled(s, step) && IsQuiet(step) && (step.Tick? ==> s.idle > 1 - PINGTICKS)
    requires P.Inv(s.sender)
    ensures var t := Apply(s, step);
            && Watched(t) && P.Inv(t.sender) && t.idle == (if step.Tick? then s.idle - 1 else s.idle)
            && P.Runs(s.sender, PipelineSteps(step, s.idle))
            && t.sender == P.After(s.sender, PipelineSteps(step, s.idle))
  {
    if step.Tick? { WatchedTick(s, step); } else { QuietStep(s, step); }
    hide Apply, Enabled, P.Inv, P.Runs, P.After, PipelineSteps;
    StepIsPipeline(s, step);
    P.RunKeeps(s.sender, PipelineSteps(step, s.idle));
  }

  /** A login refills the credit and registers activeTick once more; it and any other data start the count of idle ticks
      again, and change nothing else. */
  lemma DataRestarts(s: Server, step: Step)
    requires Enabled(s, step) && (step.LoggedIn? || step.Data?)
    ensures var t := Apply(s, step);
            && t.idle == 180 && t.link == s.link && !t.crashed
            && (if step.LoggedIn? then t.active == s.active + 1 && t.sender == P.Apply(s.sender, P.LoggedIn)
                else t.active == s.active && t.sender == s.sender)
  {}

  /** A connection that comes up gets an empty queue and full credit; whether a command is in flight, the idle ticks and
      activeTick's registrations are what they were. */
  lemma ConnectingGives(s: Server)
    requires Enabled(s, Connected)
    ensures var t := Apply(s, Connected);
            && t.link.Up? && t.sender.queue == [] && t.sender.pipe == EMPTY && t.sender.credit == 9
            && (t.sender.sendcmd, t.sender.sending) == (s.sender.sendcmd, s.sender.sending)
            && (t.active, t.idle, t.crashed) == (s.active, s.idle, s.crashed)
  {}

  // ---------- waiting for the next attempt ----------

  /** Without activeTick nothing but ticks happens to an object that waits: it tries to connect with the last of its ticks
      and not before, and if that fails, it waits for 300 more. */
  lemma {:induction false} WaitsExactly(s: Server, steps: seq<Step>)
    requires !s.crashed && s.link.Waiting? && s.active == 0 && Runs(s, steps) && |steps| <= s.link.ticks
    ensures |steps| < s.link.ticks ==> After(s, steps) == s.(link := Waiting(s.link.ticks - |steps|))
    ensures |steps| == s.link.ticks > 0 ==>
      steps[|steps| - 1].Tick?
      && After(s, steps) == s.(link := if steps[|steps| - 1].connects then Connecting else Waiting(300))
    decreases |steps|
  {
    if steps != [] {
      assert Enabled(s, steps[0]) && steps[0].Tick?;
      var t := Apply(s, steps[0]);
      assert t == WaitReconn(s, steps[0].connects);
      if |steps| > 1 { WaitsExactly(t, steps[1..]); } else { assert After(t, []) == t && steps[1..] == []; }
    }
  }

  /** A close drops queue and connection and leaves 5 ticks to wait, or 300 if the connection had never been up. What is in
      flight, the credit, the idle ticks and activeTick's registrations stay. */
  lemma ClosingLeaves(s: Server, quick: bool)
    requires Enabled(s, Close(quick))
    ensures var t := Apply(s, Close(quick));
            && t.link == Waiting(if quick then 5 else 300) && t.sender.queue == [] && t.sender.pipe == EMPTY
            && (t.sender.sendcmd, t.sender.sending, t.sender.credit) == (s.sender.sendcmd, s.sender.sending, s.sender.credit)
            && (t.active, t.idle, t.crashed) == (s.active, s.idle, s.crashed)
  {}

  /** A write that fails closes the connection, which had been up. */
  lemma FailedWriteCloses(s: Server)
    requires Enabled(s, Progress(Failed))
    ensures Apply(s, Progress(Failed)) == Apply(s, Close(true))
  {}

  /** activeTick without a queue: there are just three ways to use a null pointer - a command could be sent, a ping is due, or
      the ping has timed out and there is no connection to close. Otherwise a connection that is still being made is closed
      when the ping has timed out. */
  lemma DownTickExactly(s: Server, ping: string)
    requires !s.link.Up? && !s.crashed
    ensures var t := ActiveTick(s, ping);
            && (t.crashed <==> (!s.sender.sending && s.sender.credit >= 1) || s.idle == 1
                               || (s.idle <= -2 && s.link.Waiting?))
            && (!t.crashed ==>
                  t.idle == s.idle - 1 && t.link == if s.idle <= -2 then Waiting(300) else s.link)
  {}

  // ---------- after a connection has closed ----------

  /** What connClosed leaves behind. */
  ghost predicate JustClosed(s: Server) {
    Ok(s) && !s.crashed && (s.link == Waiting(QUICKRECONNTICKS) || s.link == Waiting(RECONNTICKS))
  }

  /** Some command can still be handed to a later connection. */
  ghost predicate CanSendAgain(s: Server) {
    exists steps :: Runs(s, steps) && Alive(After(s, steps)) && After(s, steps).sender.pipe.accepted != []
  }

  predicate Alive(s: Server) { s.link.Up? && !s.crashed }

  /** Waiting without activeTick ends in connecting. */
  lemma {:induction false} WaitOut(s: Server) returns (steps: seq<Step>)
    requires !s.crashed && s.link.Waiting? && s.active == 0
    ensures Runs(s, steps) && After(s, steps) == s.(link := Connecting)
    decreases s.link.ticks
  {
    var step := Tick("", true, false, false);
    var t := Apply(s, step);
    assert Enabled(s, step) && t == WaitReconn(s, true);
    if s.link.ticks <= 1 {
      Prepend(s, step, []);
      steps := [step] + [];
    } else {
      var more := WaitOut(t);
      Prepend(s, step, more);
      steps := [step] + more;
    }
  }

  lemma SendsAfterConnect(s: Server) returns (steps: seq<Step>)
    requires Ok(s) && !s.crashed && s.link.Connecting? && !s.sender.sending
    ensures Runs(s, steps) && Alive(After(s, steps)) && After(s, steps).sender.pipe.accepted != []
  {
    var t := ConnConnected(s);
    var give := Give("NICK");
    assert Enabled(s, Connected) && Enabled(t, give) && Apply(s, Connected) == t;
    var u := Apply(t, give);
    assert u.sender.pipe.accepted == [P.RequestFor("NICK")];
    Prepend(t, give, []);
    Prepend(s, Connected, [give] + []);
    steps := [Connected] + ([give] + []);
  }

  lemma {:induction false} RunsAppend(s: Server, xs: seq<Step>, ys: seq<Step>)
    requires Runs(s, xs) && Runs(After(s, xs), ys)
    ensures Runs(s, xs + ys) && After(s, xs + ys) == After(After(s, xs), ys)
    decreases |xs|
  {
    if xs == [] {
      assert xs + ys == ys;
    } else {
      RunsAppend(Apply(s, xs[0]), xs[1..], ys);
      Prepend(s, xs[0], xs[1..] + ys);
      assert xs + ys == [xs[0]] + (xs[1..] + ys);
    }
  }

  /** `sending` from an earlier connection is never reset. */
  ghost predicate StaleSending(s: Server) { s.sender.sending && (s.link.Up? ==> s.sender.pipe == EMPTY) }

  lemma StaleActiveTick(s: Server, ping: string)
    requires StaleSending(s)
    ensures StaleSending(ActiveTick(s, ping))
  {}

  lemma {:induction false} StaleActiveTicks(s: Server, n: nat, ping: string, missed: bool)
    requires StaleSending(s)
    ensures StaleSending(ActiveTicks(s, n, ping, missed))
    decreases n
  {
    if n > 0 && !s.crashed {
      var t := ActiveTick(s, ping);
      StaleActiveTick(s, ping);
      StaleActiveTicks(t, if missed && n >= 2 && t.link != s.link then n - 2 else n - 1, ping, missed);
    }
  }

  lemma {:induction false} StaleRun(s: Server, steps: seq<Step>)
    requires StaleSending(s) && Runs(s, steps)
    ensures StaleSending(After(s, steps))
    decreases |steps|
  {
    if steps != [] {
      if steps[0].Tick? { StaleActiveTicks(s, s.active, steps[0].ping, steps[0].missed); }
      StaleRun(Apply(s, steps[0]), steps[1..]);
    }
  }

  /** activeTick will use the missing queue before the next connection is made. */
  ghost predicate Doomed(s: Server) {
    || s.crashed
    || (s.link.Waiting? && s.active > 0 && !s.sender.sending && s.sender.credit >= 0 && s.link.ticks + s.sender.credit >= 3)
  }

  /** One call without a connection and with nothing in flight gains credit or ends in a crash. */
  lemma DoomedTick(s: Server, ping: string)
    requires !s.crashed && s.link.Waiting? && !s.sender.sending && 0 <= s.sender.credit
    ensures var t := ActiveTick(s, ping);
            && (s.sender.credit >= 1 ==> t.crashed)
            && (!t.crashed ==> t.link == s.link && t.active == s.active && t.sender == P.Credited(s.sender))
  {}

  lemma {:induction false} DoomedTicks(s: Server, n: nat, ping: string, missed: bool)
    requires !s.crashed && s.link.Waiting? && !s.sender.sending && 0 <= s.sender.credit && n > 0
    ensures var t := ActiveTicks(s, n, ping, missed);
            t.crashed || (t.link == s.link && t.active == s.active && !t.sender.sending
                          && s.sender.credit == 0 && t.sender.credit == 1)
    decreases n
  {
    var t := ActiveTick(s, ping);
    DoomedTick(s, ping);
    if !t.crashed && n > 1 { DoomedTicks(t, n - 1, ping, missed); }
  }

  lemma {:induction false} DoomedRun(s: Server, steps: seq<Step>)
    requires Doomed(s) && Runs(s, steps)
    ensures Doomed(After(s, steps))
    decreases |steps|
  {
    if steps != [] {
      if steps[0].Tick? { DoomedTicks(s, s.active, steps[0].ping, steps[0].missed); }
      DoomedRun(Apply(s, steps[0]), steps[1..]);
    }
  }

  /** A server object can send on a later connection if and only if, when the last one closed, no command was in flight
      and activeTick was not registered any more. A login registers it, and only the ping timeout takes it off. */
  lemma ReconnectSends(s: Server)
    requires JustClosed(s)
    ensures CanSendAgain(s) <==> !s.sender.sending && s.active == 0
  {
    if s.sender.sending {
      forall steps | Runs(s, steps) && Alive(After(s, steps)) ensures After(s, steps).sender.pipe.accepted == [] {
        StaleRun(s, steps);
      }
    } else if s.active > 0 {
      forall steps | Runs(s, steps) ensures !Alive(After(s, steps)) {
        DoomedRun(s, steps);
      }
    } else {
      var xs := WaitOut(s);
      var ys := SendsAfterConnect(s.(link := Connecting));
      RunsAppend(s, xs, ys);
    }
  }

  // ---------- crashing ----------

  lemma {:induction false} QuietRun(s: Server, steps: seq<Step>)
    requires !s.crashed && s.active == 0 && Runs(s, steps) && LoggedIn !in steps
    ensures !After(s, steps).crashed
    decreases |steps|
  {
    if steps != [] { QuietRun(Apply(s, steps[0]), steps[1..]); }
  }

  /** One call while waiting either crashes or counts idleticks down towards a crash. */
  lemma WaitingCall(s: Server, ping: string)
    requires !s.crashed && s.link.Waiting? && 0 <= s.sender.credit
    ensures var t := ActiveTick(s, ping);
            t.crashed || (t.link == s.link && t.active == s.active && t.sender.credit >= 0
                          && t.idle == s.idle - 1 && t.idle != 0 && t.idle > -PINGTICKS)
  {}

  lemma {:induction false} WaitingCalls(s: Server, n: nat, ping: string, missed: bool)
    requires !s.crashed && s.link.Waiting? && 0 <= s.sender.credit && n > 0
    ensures var t := ActiveTicks(s, n, ping, missed);
            t.crashed || (t.link == s.link && t.active == s.active && t.sender.credit >= 0
                          && t.idle < s.idle && t.idle > -PINGTICKS)
    decreases n
  {
    var t := ActiveTick(s, ping);
    WaitingCall(s, ping);
    if !t.crashed && n > 1 { WaitingCalls(t, n - 1, ping, missed); }
  }

  /** As long as no connection is made, activeTick runs into the missing queue or connection. */
  lemma {:induction false} CrashRun(s: Server) returns (steps: seq<Step>)
    requires !s.crashed && s.link.Waiting? && s.active > 0 && 0 <= s.sender.credit
    ensures Runs(s, steps) && After(s, steps).crashed && LoggedIn !in steps
    decreases if s.idle > -PINGTICKS then s.idle + PINGTICKS else 0
  {
    var step := Tick("PING", false, false, false);
    var t := Apply(s, step);
    WaitingCalls(s, s.active, "PING", false);
    var more := [];
    if !t.crashed { more := CrashRun(t); }
    Prepend(s, step, more);
    steps := [step] + more;
  }

  /** No run from the close to the next login crashes, if and only if activeTick was not registered any more. */
  lemma SafeUntilLogin(s: Server)
    requires JustClosed(s)
    ensures (forall steps | Runs(s, steps) && LoggedIn !in steps :: !After(s, steps).crashed) <==> s.active == 0
  {
    if s.active == 0 {
      forall steps | Runs(s, steps) && LoggedIn !in steps ensures !After(s, steps).crashed {
        QuietRun(s, steps);
      }
    } else {
      var steps := CrashRun(s);
    }
  }

  /** An ordinary life: the object logs in, the peer closes the connection with nothing in flight, and the first tick
      dequeues from a queue that is not there. */
  lemma IdleCloseCrashes(ping: string)
    ensures var steps := [Connected, LoggedIn, Close(true)];
            var tick := Tick(ping, true, false, false);
            && Runs(INITIAL, steps) && JustClosed(After(INITIAL, steps)) && !After(INITIAL, steps).sender.sending
            && Enabled(After(INITIAL, steps), tick) && Apply(After(INITIAL, steps), tick).crashed
  {
    var steps := [Connected, LoggedIn, Close(true)];
    var s1 := Apply(INITIAL, Connected);
    var s2 := Apply(s1, LoggedIn);
    var s3 := Apply(s2, Close(true));
    assert steps[1..] == [LoggedIn, Close(true)] && steps[1..][1..] == [Close(true)] && steps[1..][1..][1..] == [];
    assert Runs(s3, []) && Runs(s2, [Close(true)]) && Runs(s1, [LoggedIn, Close(true)]);
    assert After(s1, [LoggedIn, Close(true)]) == After(s2, [Close(true)]) == s3;
    P.StartInv();
    LifeKeeps(INITIAL, steps);
    DoomedTicks(s3, s3.active, ping, false);
  }

  /** Another ordinary life: a command is in flight when the connection closes, and nothing is ever sent again. */
  lemma CloseInFlightSilences(cmd: string)
    ensures var steps := [Connected, Give(cmd), Close(true)];
            && Runs(INITIAL, steps) && JustClosed(After(INITIAL, steps))
            && After(INITIAL, steps).active == 0 && !CanSendAgain(After(INITIAL, steps))
  {
    var steps := [Connected, Give(cmd), Close(true)];
    var s1 := Apply(INITIAL, Connected);
    var s2 := Apply(s1, Give(cmd));
    var s3 := Apply(s2, Close(true));
    assert steps[1..] == [Give(cmd), Close(true)] && steps[1..][1..] == [Close(true)] && steps[1..][1..][1..] == [];
    assert Runs(s3, []) && Runs(s2, [Close(true)]) && Runs(s1, [Give(cmd), Close(true)]);
    assert After(s1, [Give(cmd), Close(true)]) == After(s2, [Close(true)]) == s3;
    assert s3.sender.sending;
    P.StartInv();
    LifeKeeps(INITIAL, steps);
    ReconnectSends(s3);
  }
}
