/** How commands leave the IRC server object (ircserver.c): the queue, the one command in flight, the send credit and the
    connection's pending writes, over the life of one connection. */
module SendPipeline {
  import opened Wrappers
  import opened Sequences
  import opened WritePipe

  const FULLSENDCREDIT := 9
  const SENDCOST := 2

  /** The server object as the id of its writes. */
  const SELF := 0

  /** sendQueue, sendcmd, sendcreditticks, the connection's pipe, and two histories: the commands given to sendRaw and
      those confirmed by dataSent. `sending` is 1 exactly while there is a `sendcmd`. */
  datatype Sender = Sender(queue: seq<string>, sendcmd: Option<string>, sending: bool, credit: int, pipe: Pipe,
                           given: seq<string>, completed: seq<string>)

  /** connConnected (136-156), on a server object that is not sending. */
  const START := Sender([], None, false, FULLSENDCREDIT, EMPTY, [], [])

  /** (uint16_t)strlen(cmd) bytes of the command. */
  function Cut(cmd: string): (s: string)
    ensures s <= cmd && (|cmd| < 0x10000 ==> s == cmd)
  {
    cmd[..|cmd| % 0x10000]
  }

  function RequestFor(cmd: string): Request { Request(Cut(cmd), Some(SELF)) }

  /** The second part of sendRaw (377-385). */
  function TrySend(s: Sender): Sender {
    if s.credit < SENDCOST || s.sending || s.queue == [] then s
    else s.(queue := s.queue[1..], sendcmd := Some(s.queue[0]), sending := true, credit := s.credit - SENDCOST,
            pipe := Write(s.pipe, RequestFor(s.queue[0])))
  }

  function Enqueue(s: Sender, cmd: string): Sender { s.(queue := s.queue + [cmd], given := s.given + [cmd]) }

  /** sendRaw with a command (371-386). */
  function SendRaw(s: Sender, cmd: string): Sender { TrySend(Enqueue(s, cmd)) }

  function Confirmed(s: Sender): Sender {
    s.(sendcmd := None, sending := false, completed := s.completed + InFlight(s))
  }

  /** One sendRaw after the other. */
  function SendAll(s: Sender, cmds: seq<string>): Sender
    decreases |cmds|
  {
    if cmds == [] then s else SendAll(SendRaw(s, cmds[0]), cmds[1..])
  }

  /** connDataSent (262-276). */
  function DataSent(s: Sender): Sender { TrySend(Confirmed(s)) }

  /** activeTick (320-321); the ping for an idle connection is a command like any other. */
  function ActiveTick(s: Sender): Sender { TrySend(Credited(s)) }

  function Credited(s: Sender): Sender { s.(credit := if s.credit < FULLSENDCREDIT then s.credit + 1 else s.credit) }

  /** RPL_MYINFO (415). */
  function Refill(s: Sender): Sender { s.(credit := FULLSENDCREDIT) }

  /** The descriptor is writable: dowrite, and the confirmation it may raise. */
  function Writable(s: Sender, o: Outcome): Sender
    requires s.pipe.recs != []
  {
    var p := DoWrite(s.pipe, o);
    if |p.raised| > |s.pipe.raised| then DataSent(s.(pipe := p)) else s.(pipe := p)
  }

  function InFlight(s: Sender): seq<string> { if s.sendcmd.Some? then [s.sendcmd.value] else [] }

  datatype Step = Give(cmd: string) | Tick | LoggedIn | Progress(o: Outcome)

  /** A failed write ends the connection and thereby the run. */
  ghost predicate Enabled(s: Sender, step: Step) {
    step.Progress? ==> Possible(s.pipe, step.o) && !step.o.Failed?
  }

  function Apply(s: Sender, step: Step): Sender {
    match step
    case Give(cmd) => SendRaw(s, cmd)
    case Tick => ActiveTick(s)
    case LoggedIn => Refill(s)
    case Progress(o) => if s.pipe.recs == [] then s else Writable(s, o)
  }

  ghost predicate Runs(s: Sender, steps: seq<Step>)
    decreases |steps|
  {
    steps != [] ==> Enabled(s, steps[0]) && Runs(Apply(s, steps[0]), steps[1..])
  }

  function After(s: Sender, steps: seq<Step>): Sender
    decreases |steps|
  {
    if steps == [] then s else After(Apply(s, steps[0]), steps[1..])
  }

  // ---------- the invariant ----------

  /** The commands that have been handed to the connection. */
  function Sent(s: Sender): seq<string> { s.completed + InFlight(s) }

  function Requests(cmds: seq<string>): (r: seq<Request>)
    ensures |r| == |cmds| && forall k | 0 <= k < |cmds| :: r[k] == RequestFor(cmds[k])
  {
    seq(|cmds|, k requires 0 <= k < |cmds| => RequestFor(cmds[k]))
  }

  /** The one record that is pending while a command is in flight, and none otherwise. */
  ghost predicate OneRecord(s: Sender) {
    if s.sendcmd.Some? then
      && |s.pipe.recs| == 1 && s.pipe.recs[0].buf == Cut(s.sendcmd.value) && s.pipe.recs[0].id == Some(SELF)
      && (s.pipe.recs[0].pos < |s.pipe.recs[0].buf| || s.pipe.recs[0].pos == 0)
    else s.pipe.recs == []
  }

  ghost predicate Inv(s: Sender) {
    && (s.sending <==> s.sendcmd.Some?)
    && 0 <= s.credit <= FULLSENDCREDIT
    && s.given == s.completed + InFlight(s) + s.queue
    && Ok(s.pipe) && OneRecord(s)
    && s.pipe.accepted == Requests(Sent(s))
  }

  lemma StartInv()
    ensures Inv(START)
  {
    assert Requests([]) == [];
  }

  lemma RequestsSnoc(cmds: seq<string>, cmd: string)
    ensures Requests(cmds + [cmd]) == Requests(cmds) + [RequestFor(cmd)]
  {}

  /** Sending, which needs credit and nothing in flight, puts the oldest queued command into flight. It finds the pipe
      empty, so Connection_write does not refuse it. */
  lemma TrySendKeeps(s: Sender)
    requires Inv(s)
    ensures Inv(TrySend(s)) && TrySend(s).given == s.given && TrySend(s).completed == s.completed
    ensures var t := TrySend(s);
            if s.credit >= SENDCOST && !s.sending && s.queue != [] then
              && InFlight(t) == [s.queue[0]] && t.queue == s.queue[1..]
              && t.pipe.accepted == s.pipe.accepted + [RequestFor(s.queue[0])]
            else InFlight(t) == InFlight(s) && t.queue == s.queue && t.pipe == s.pipe
  {
    if s.credit >= SENDCOST && !s.sending && s.queue != [] {
      var t := TrySend(s);
      WriteOk(s.pipe, RequestFor(s.queue[0]));
      RequestsSnoc(s.completed, s.queue[0]);
      assert Sent(s) == s.completed && Sent(t) == s.completed + [s.queue[0]];
      hide Ok, Requests, Cut;
      assert s.queue == [s.queue[0]] + s.queue[1..];
      Reassociate(s.completed, [s.queue[0]], s.queue[1..]);
    }
  }

  lemma EnqueueKeeps(s: Sender, cmd: string)
    requires Inv(s)
    ensures Inv(Enqueue(s, cmd))
  {
    assert Sent(Enqueue(s, cmd)) == Sent(s);
    hide Ok, Requests, Cut;
    Reassociate(s.completed + InFlight(s), s.queue, [cmd]);
  }

  lemma SendRawKeeps(s: Sender, cmd: string)
    requires Inv(s)
    ensures Inv(SendRaw(s, cmd)) && SendRaw(s, cmd).given == s.given + [cmd]
  {
    EnqueueKeeps(s, cmd);
    TrySendKeeps(Enqueue(s, cmd));
  }

  lemma {:induction false} SendAllKeeps(s: Sender, cmds: seq<string>)
    requires Inv(s)
    ensures Inv(SendAll(s, cmds)) && SendAll(s, cmds).given == s.given + cmds
    decreases |cmds|
  {
    if cmds == [] {
      assert s.given + [] == s.given;
    } else {
      assert SendAll(s, cmds) == SendAll(SendRaw(s, cmds[0]), cmds[1..]);
      hide *;
      SendRawKeeps(s, cmds[0]);
      SendAllKeeps(SendRaw(s, cmds[0]), cmds[1..]);
      MoveFirst(s.given, cmds);
    }
  }

  lemma CreditKeeps(s: Sender)
    requires Inv(s)
    ensures Inv(Credited(s))
  {
    assert Sent(Credited(s)) == Sent(s);
    hide Ok, Requests, Cut;
  }

  lemma TickKeeps(s: Sender)
    requires Inv(s)
    ensures Inv(ActiveTick(s)) && ActiveTick(s).given == s.given
  {
    CreditKeeps(s);
    TrySendKeeps(Credited(s));
  }

  /** dowrite either goes on with the pending record or finishes it and raises the event. */
  lemma DoWriteOne(s: Sender, o: Outcome)
    requires Inv(s) && Possible(s.pipe, o)
    ensures s.sending && Ok(DoWrite(s.pipe, o)) && DoWrite(s.pipe, o).accepted == s.pipe.accepted
    ensures var p := DoWrite(s.pipe, o);
            if |p.raised| > |s.pipe.raised| then p.recs == []
            else
              && |p.recs| == 1 && p.recs[0].buf == s.pipe.recs[0].buf && p.recs[0].id == s.pipe.recs[0].id
              && (p.recs[0].pos < |p.recs[0].buf| || p.recs[0].pos == 0)
  {
    DoWriteOk(s.pipe, o);
    hide Ok;
    assert s.pipe.recs[1..] == [];
  }

  /** The state in which the handler of dataSent starts, and the one that a partial write leaves. */
  lemma AfterWrite(s: Sender, o: Outcome)
    requires Inv(s) && Possible(s.pipe, o)
    ensures var p := DoWrite(s.pipe, o);
            if |p.raised| > |s.pipe.raised| then Inv(Confirmed(s.(pipe := p))) else Inv(s.(pipe := p))
  {
    DoWriteOne(s, o);
    hide Ok, Requests, Cut;
    var t := s.(pipe := DoWrite(s.pipe, o));
    assert Sent(t) == Sent(s) && Sent(Confirmed(t)) == Sent(s);
  }

  lemma WritableKeeps(s: Sender, o: Outcome)
    requires Inv(s) && Possible(s.pipe, o)
    ensures Inv(Writable(s, o)) && Writable(s, o).given == s.given
    ensures if o == Wrote(|Left(s.pipe.recs[0])|) then Writable(s, o).completed == s.completed + InFlight(s)
            else Writable(s, o).completed == s.completed && InFlight(Writable(s, o)) == InFlight(s)
  {
    AfterWrite(s, o);
    assert s.pipe.recs[0].id == Some(SELF);
    hide Inv;
    var p := DoWrite(s.pipe, o);
    if |p.raised| > |s.pipe.raised| { TrySendKeeps(Confirmed(s.(pipe := p))); }
  }

  lemma StepKeeps(s: Sender, step: Step)
    requires Inv(s) && Enabled(s, step)
    ensures Inv(Apply(s, step)) && Apply(s, step).given == s.given + if step.Give? then [step.cmd] else []
  {
    match step {
      case Give(cmd) => SendRawKeeps(s, cmd);
      case Tick => TickKeeps(s);
      case LoggedIn => assert Sent(Refill(s)) == Sent(s);
      case Progress(o) => WritableKeeps(s, o);
    }
  }

  function Given(steps: seq<Step>): seq<string> {
    if steps == [] then [] else (if steps[0].Give? then [steps[0].cmd] else []) + Given(steps[1..])
  }

  /** Command conservation over every run: what was given is, in order, what was confirmed, what is in flight and what is
      queued; and the connection has accepted just the first two. */
  lemma {:induction false} RunKeeps(s: Sender, steps: seq<Step>)
    requires Inv(s) && Runs(s, steps)
    ensures Inv(After(s, steps)) && After(s, steps).given == s.given + Given(steps)
    decreases |steps|
  {
    if steps != [] {
      hide Inv, Enabled, Apply;
      var t := Apply(s, steps[0]);
      StepKeeps(s, steps[0]);
      RunKeeps(t, steps[1..]);
      Reassociate(s.given, if steps[0].Give? then [steps[0].cmd] else [], Given(steps[1..]));
    } else {
      assert s.given + [] == s.given;
    }
  }

  // ---------- what goes over the wire ----------

  /** The bytes written are those of the confirmed commands, whole and in order, and a beginning of the one in flight,
      but not all of it. */
  lemma WireIs(s: Sender) returns (n: nat)
    requires Inv(s)
    ensures var whole := Bytes(Requests(s.completed));
            if s.sending then
              && n <= |Cut(s.sendcmd.value)| && (n < |Cut(s.sendcmd.value)| || n == 0)
              && s.pipe.wire == whole + Cut(s.sendcmd.value)[..n]
            else s.pipe.wire == whole
  {
    n := 0;
    if s.sending {
      var rec, cut, whole := s.pipe.recs[0], Cut(s.sendcmd.value), Bytes(Requests(s.completed));
      n := rec.pos;
      RequestsSnoc(s.completed, s.sendcmd.value);
      BytesSnoc(Requests(s.completed), RequestFor(s.sendcmd.value));
      UnsentOne(rec);
      assert s.pipe.recs == [rec];
      hide Bytes, Requests, Unsent, Ids, Wanted;
      WireSlice(s.pipe.wire, whole, cut, n);
    } else {
      assert Sent(s) == s.completed;
    }
  }

  lemma WireSlice(wire: string, whole: string, cut: string, n: nat)
    requires n <= |cut| && wire + cut[n..] == whole + cut
    ensures wire == whole + cut[..n]
  {
    var all := whole + cut;
    assert |wire| == |whole| + n;
    assert all[..|wire|] == wire;
    assert all[..|whole| + n] == whole + cut[..n];
  }

  // ---------- the rate ----------

  function Ticks(steps: seq<Step>): nat {
    if steps == [] then 0 else (if steps[0].Tick? then 1 else 0) + Ticks(steps[1..])
  }

  /** Twice the commands sent and the credit left: only a tick adds to it, and only a refill breaks it. */
  function Spent(s: Sender): int { SENDCOST * |Sent(s)| + s.credit }

  lemma StepSpends(s: Sender, step: Step)
    requires Inv(s) && Enabled(s, step) && !step.LoggedIn?
    ensures Spent(s) <= Spent(Apply(s, step)) <= Spent(s) + if step.Tick? then 1 else 0
  {
    hide Ok, Requests, Cut, DoWrite, Possible;
  }

  lemma {:induction false} RunSpends(s: Sender, steps: seq<Step>)
    requires Inv(s) && Runs(s, steps) && LoggedIn !in steps
    ensures Spent(After(s, steps)) <= Spent(s) + Ticks(steps)
    decreases |steps|
  {
    if steps != [] {
      hide Inv, Enabled, Apply, Spent;
      StepKeeps(s, steps[0]);
      StepSpends(s, steps[0]);
      RunSpends(Apply(s, steps[0]), steps[1..]);
    }
  }

  /** The rate bound: as long as no login refills the credit, twice the commands that leave is at most 9 and the ticks. */
  lemma RateBound(s: Sender, steps: seq<Step>)
    requires Inv(s) && Runs(s, steps) && LoggedIn !in steps
    ensures SENDCOST * (|Sent(After(s, steps))| - |Sent(s)|) <= FULLSENDCREDIT + Ticks(steps)
  {
    RunSpends(s, steps);
    RunKeeps(s, steps);
  }

  // ---------- nothing gets stuck ----------

  /** After any step but the refill, a command waits only for credit or for the one in flight. */
  lemma Prompt(s: Sender, step: Step)
    requires Inv(s) && Enabled(s, step) && !step.LoggedIn?
    ensures var t := Apply(s, step); t.queue != [] && !t.sending ==> t.credit < SENDCOST
  {
    if step.Progress? { DoWriteOne(s, step.o); }
    hide Ok, Requests, Cut, DoWrite, Possible;
  }

  /** Two ticks are enough to send the next command. */
  lemma TwoTicksSend(s: Sender)
    requires Inv(s) && s.queue != [] && !s.sending
    ensures var t := ActiveTick(ActiveTick(s));
            t.sending && t.sendcmd == Some(s.queue[0]) && t.queue == s.queue[1..] && t.completed == s.completed
  {
    hide Ok, Requests, Cut;
  }

  /** And one write that takes all the bytes confirms it. */
  lemma OneWriteConfirms(s: Sender)
    requires Inv(s) && s.sending
    ensures var o := Wrote(|Left(s.pipe.recs[0])|);
            && Enabled(s, Progress(o)) && Apply(s, Progress(o)).completed == Sent(s)
            && |Apply(s, Progress(o)).queue| <= |s.queue|
  {
    hide Requests, Cut;
  }

  lemma Prepend(s: Sender, step: Step, steps: seq<Step>)
    requires Enabled(s, step) && Runs(Apply(s, step), steps)
    ensures Runs(s, [step] + steps) && After(s, [step] + steps) == After(Apply(s, step), steps)
    ensures Given([step] + steps) == (if step.Give? then [step.cmd] else []) + Given(steps)
    ensures Ticks([step] + steps) == (if step.Tick? then 1 else 0) + Ticks(steps)
  {
    assert ([step] + steps)[0] == step && ([step] + steps)[1..] == steps;
  }

  /** From every state there is a way on which everything given so far is confirmed, with no more than two ticks for each
      command that is queued. */
  lemma {:induction false} Drains(s: Sender) returns (steps: seq<Step>)
    requires Inv(s)
    ensures Runs(s, steps) && After(s, steps).completed == s.given && Given(steps) == []
    ensures Ticks(steps) <= 2 * |s.queue|
    decreases |s.given| - |s.completed|, if s.sending then 0 else 1
  {
    if s.sending {
      var step := Progress(Wrote(|Left(s.pipe.recs[0])|));
      OneWriteConfirms(s);
      hide Requests, Cut, Ok, Apply, Enabled, Runs, After, Given, Ticks, Left;
      var t := Apply(s, step);
      StepKeeps(s, step);
      var more := Drains(t);
      Prepend(s, step, more);
      steps := [step] + more;
    } else if s.queue != [] {
      TwoTicksSend(s);
      assert Enabled(s, Tick) && Apply(s, Tick) == ActiveTick(s);
      var t := ActiveTick(s);
      assert Enabled(t, Tick) && Apply(t, Tick) == ActiveTick(t);
      hide Requests, Cut, Ok, Apply, Enabled, Runs, After, Given, Ticks, ActiveTick;
      StepKeeps(s, Tick);
      StepKeeps(t, Tick);
      var more := Drains(ActiveTick(t));
      Prepend(t, Tick, more);
      Prepend(s, Tick, [Tick] + more);
      steps := [Tick] + ([Tick] + more);
    } else {
      steps := [];
    }
  }

  /** As long as the credit lasts, writes alone confirm everything given so far. */
  lemma {:induction false} CreditDrains(s: Sender) returns (steps: seq<Step>)
    requires Inv(s) && s.sending && s.credit >= SENDCOST * |s.queue|
    ensures Runs(s, steps) && After(s, steps).completed == s.given && Given(steps) == [] && Ticks(steps) == 0
    decreases |s.queue|
  {
    var step := Progress(Wrote(|Left(s.pipe.recs[0])|));
    OneWriteConfirms(s);
    var t := Apply(s, step);
    FullWrite(s);
    StepKeeps(s, step);
    hide Requests, Cut, Ok, Apply, Enabled, Runs, After, Given, Ticks, Left;
    var more := [];
    if s.queue != [] { more := CreditDrains(t); } else { Nothing(t); }
    Prepend(s, step, more);
    steps := [step] + more;
  }

  lemma Nothing(s: Sender)
    ensures Runs(s, []) && After(s, []) == s && Given([]) == [] && Ticks([]) == 0
  {}

  /** A write that takes all sends the next command at once if there is credit. */
  lemma FullWrite(s: Sender)
    requires Inv(s) && s.sending && s.credit >= SENDCOST * |s.queue|
    ensures var t := Apply(s, Progress(Wrote(|Left(s.pipe.recs[0])|)));
            if s.queue == [] then t.completed == s.given
            else t.sending && t.queue == s.queue[1..] && t.credit == s.credit - SENDCOST && t.given == s.given
  {
    OneWriteConfirms(s);
    hide Ok, Requests, Cut;
  }

  /** A login gives credit for four commands: with three waiting, one more can be given, and all can be confirmed without
      a single tick. */
  lemma FourAfterLogin(s: Sender, cmd: string) returns (steps: seq<Step>)
    requires Inv(s) && |s.queue| <= 3
    ensures Runs(s, [LoggedIn, Give(cmd)] + steps) && Ticks(steps) == 0 && Given(steps) == []
    ensures After(s, [LoggedIn, Give(cmd)] + steps).completed == s.given + [cmd]
  {
    var t := Apply(s, LoggedIn);
    var u := Apply(t, Give(cmd));
    StepKeeps(s, LoggedIn);
    StepKeeps(t, Give(cmd));
    assert u.sending && u.credit >= SENDCOST * |u.queue| && t.given == s.given by { hide Ok, Requests, Cut; }
    assert Enabled(s, LoggedIn) && Enabled(t, Give(cmd));
    hide Inv, Enabled, Apply, Runs, After;
    steps := CreditDrains(u);
    Prepend(t, Give(cmd), steps);
    Prepend(s, LoggedIn, [Give(cmd)] + steps);
    assert [LoggedIn] + ([Give(cmd)] + steps) == [LoggedIn, Give(cmd)] + steps;
  }

  // ---------- every schedule drains ----------

  function Bytewise(cmds: seq<string>): nat { if cmds == [] then 0 else |Cut(cmds[0])| + 1 + Bytewise(cmds[1..]) }

  /** A bound on the writes to come: for each command its bytes and one. */
  function WritesLeft(s: Sender): nat {
    Bytewise(s.queue) + if s.pipe.recs == [] then 0 else |Left(s.pipe.recs[0])| + 1
  }

  /** Only a refill leaves a command waiting for the next tick although there is credit. */
  predicate Waits(s: Sender) { !s.sending && s.queue != [] && s.credit >= SENDCOST }

  /** A bound on the ticks that commands still have to wait for. */
  function TicksLeft(s: Sender): nat {
    var short := SENDCOST * |s.queue| - s.credit;
    (if short > 0 then short else 0) + if Waits(s) then 1 else 0
  }

  /** The write gets on: it takes some bytes, or all there are. */
  predicate Writes(s: Sender, step: Step) {
    && s.pipe.recs != [] && step.Progress? && step.o.Wrote?
    && (step.o.n > 0 || |Left(s.pipe.recs[0])| == 0)
  }

  /** The tick is one that a command waits for. */
  predicate Awaited(s: Sender, step: Step) { step.Tick? && !s.sending && s.queue != [] }

  function Writing(s: Sender, steps: seq<Step>): nat
    decreases |steps|
  {
    if steps == [] then 0 else (if Writes(s, steps[0]) then 1 else 0) + Writing(Apply(s, steps[0]), steps[1..])
  }

  function Waiting(s: Sender, steps: seq<Step>): nat
    decreases |steps|
  {
    if steps == [] then 0 else (if Awaited(s, steps[0]) then 1 else 0) + Waiting(Apply(s, steps[0]), steps[1..])
  }

  lemma TrySendWorks(s: Sender)
    requires Inv(s)
    ensures WritesLeft(TrySend(s)) == WritesLeft(s) && !Waits(TrySend(s)) && TicksLeft(TrySend(s)) <= TicksLeft(s)
    ensures Waits(s) ==> TicksLeft(TrySend(s)) < TicksLeft(s)
  {
    hide Ok, Requests, Cut;
  }

  lemma TickWorks(s: Sender)
    requires Inv(s)
    ensures WritesLeft(ActiveTick(s)) == WritesLeft(s)
    ensures TicksLeft(ActiveTick(s)) + (if Awaited(s, Tick) then 1 else 0) <= TicksLeft(s)
  {
    CreditKeeps(s);
    hide Inv;
    TrySendWorks(Credited(s));
    hide TrySend, Bytewise;
  }

  lemma WritableWorks(s: Sender, o: Outcome)
    requires Inv(s) && Possible(s.pipe, o)
    ensures WritesLeft(Writable(s, o)) + (if Writes(s, Progress(o)) then 1 else 0) <= WritesLeft(s)
    ensures TicksLeft(Writable(s, o)) <= TicksLeft(s)
  {
    AfterWrite(s, o);
    DoWriteOne(s, o);
    var t := s.(pipe := DoWrite(s.pipe, o));
    hide Inv, Requests, Cut, Ok;
    if |t.pipe.raised| > |s.pipe.raised| { TrySendWorks(Confirmed(t)); }
  }

  lemma StepWorks(s: Sender, step: Step)
    requires Inv(s) && Enabled(s, step) && !step.Give?
    ensures var t := Apply(s, step);
            && WritesLeft(t) + (if Writes(s, step) then 1 else 0) <= WritesLeft(s)
            && TicksLeft(t) + (if Awaited(s, step) then 1 else 0) <= TicksLeft(s)
  {
    match step
    case Tick => TickWorks(s);
    case LoggedIn =>
    case Progress(o) => if s.pipe.recs != [] { WritableWorks(s, o); }
  }

  /** Nothing more to write, and no tick to wait for. */
  ghost predicate Drained(s: Sender) { forall step :: Enabled(s, step) ==> !Writes(s, step) && !Awaited(s, step) }

  lemma NotDrained(s: Sender)
    requires Inv(s) && (s.sending || s.queue != [])
    ensures !Drained(s)
  {
    if s.sending {
      OneWriteConfirms(s);
      var step := Progress(Wrote(|Left(s.pipe.recs[0])|));
      assert Enabled(s, step) && Writes(s, step);
    } else {
      assert Enabled(s, Tick) && Awaited(s, Tick);
    }
  }

  lemma DrainedIsDone(s: Sender)
    requires Inv(s)
    ensures Drained(s) ==> s.completed == s.given
  {
    if s.sending || s.queue != [] { NotDrained(s); }
    hide Ok, Requests, Drained;
  }

  /** Every schedule without new commands confirms everything given so far: only so many writes get on and only so many
      ticks are waited for, whatever happens between them, and when there are no more, everything is confirmed. */
  lemma {:induction false} EveryScheduleDrains(s: Sender, steps: seq<Step>)
    requires Inv(s) && Runs(s, steps) && Given(steps) == []
    ensures Writing(s, steps) <= WritesLeft(s) && Waiting(s, steps) <= TicksLeft(s) <= 2 * |s.queue| + 1
    ensures Drained(After(s, steps)) ==> After(s, steps).completed == s.given
    decreases |steps|
  {
    if steps == [] {
      DrainedIsDone(s);
    } else {
      var t := Apply(s, steps[0]);
      StepKeeps(s, steps[0]);
      StepWorks(s, steps[0]);
      assert !steps[0].Give? && Given(steps[1..]) == [] && t.given == s.given + [];
      hide Inv, Apply, WritesLeft, Writes, Awaited, Enabled, Drained;
      EveryScheduleDrains(t, steps[1..]);
    }
  }
}
