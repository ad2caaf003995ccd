/** From the commands given at one end of a connection to the parsed messages at the other. */
module Delivery {
  import WritePipe
  import opened SendPipeline
  import opened Segmentation
  import opened Text
  import opened Sequences
  import IrcMessage
  import R = Reassembly
  import MessageFormat
  import IrcCommand

  /** A command that arrives as one line: a clean body of at most 4093 bytes and CR LF. */
  predicate IsCommand(c: string) {
    2 <= |c| < R.TAILMAX && MessageFormat.Clean(c[..|c| - 2]) && c[|c| - 2..] == MessageFormat.CRLF
  }

  ghost predicate AllCommands(cmds: seq<string>) { forall k | 0 <= k < |cmds| :: IsCommand(cmds[k]) }

  function BodyOf(c: string): string { if |c| >= 2 then c[..|c| - 2] else [] }

  function BodiesOf(cmds: seq<string>): seq<string> {
    if cmds == [] then [] else [BodyOf(cmds[0])] + BodiesOf(cmds[1..])
  }

  /** The messages that commands stand for. */
  function ParsesOf(cmds: seq<string>): seq<IrcMessage.Message> { R.Messages(BodiesOf(cmds)) }

  /** Requests for commands of at most 65535 bytes carry all their bytes. */
  lemma {:induction false} WholeCommands(cmds: seq<string>)
    requires forall k | 0 <= k < |cmds| :: |cmds[k]| < 0x10000
    ensures WritePipe.Bytes(Requests(cmds)) == R.Concat(cmds)
    decreases |cmds|
  {
    if cmds != [] {
      WholeCommands(cmds[1..]);
      assert Requests(cmds)[1..] == Requests(cmds[1..]);
      assert Cut(cmds[0]) == cmds[0];
    }
  }

  // ---------- cutting a stream of commands ----------

  /** A command that has not arrived in full has no CR LF yet. */
  lemma PartHasNoCrlf(c: string, n: nat)
    requires IsCommand(c) && n < |c|
    ensures FindCrlf(c[..n]) == n
  {
    var part, body := c[..n], BodyOf(c);
    forall i | 0 <= i < n ensures !CrlfAt(part, i) {
      if i + 1 < n { assert part[i] == body[i]; }
    }
    FindCrlfIs(part, n);
  }

  lemma LineAndRest(body: string, more: string)
    ensures var s := body + MessageFormat.CRLF + more;
            |body| < |s| && s[..|body|] == body && s[|body| + 2..] == more
  {}

  lemma {:induction false} SplitOfCommands(cmds: seq<string>, rest: string)
    requires AllCommands(cmds) && FindCrlf(rest) == |rest|
    ensures R.Split(R.Concat(cmds) + rest) == R.Cut(BodiesOf(cmds), rest)
    decreases |cmds|
  {
    if cmds == [] {
      assert [] + rest == rest;
    } else {
      var body, more := BodyOf(cmds[0]), R.Concat(cmds[1..]) + rest;
      assert IsCommand(cmds[0]) && cmds[0] == body + MessageFormat.CRLF;
      MessageFormat.FindCrlfAfter(body, more);
      SplitOfCommands(cmds[1..], rest);
      assert BodiesOf(cmds) == [body] + BodiesOf(cmds[1..]) && R.Concat(cmds) == cmds[0] + R.Concat(cmds[1..]);
      hide *;
      var s := body + MessageFormat.CRLF + more;
      Reassociate(cmds[0], R.Concat(cmds[1..]), rest);
      R.SplitStep(s);
      LineAndRest(body, more);
    }
  }

  lemma {:induction false} BodiesShortEnough(cmds: seq<string>)
    requires AllCommands(cmds)
    ensures forall l | l in BodiesOf(cmds) :: |l| < R.TAILMAX
    decreases |cmds|
  {
    if cmds != [] {
      assert IsCommand(cmds[0]);
      BodiesShortEnough(cmds[1..]);
    }
  }

  /** However a stream of commands, the last one perhaps incomplete, is cut into packets. */
  lemma CommandsArrive(cmds: seq<string>, rest: string, packets: seq<string>)
    requires AllCommands(cmds) && FindCrlf(rest) == |rest| <= R.TAILMAX
    requires R.ChunksOf(packets, R.Concat(cmds) + rest)
    ensures R.Feed([], packets) == R.Cut(BodiesOf(cmds), rest)
  {
    var s := R.Concat(cmds) + rest;
    BodiesShortEnough(cmds);
    assert R.Fits(s) <==> (forall l | l in R.Split(s).lines :: |l| < R.TAILMAX) && |R.Split(s).tail| <= R.TAILMAX;
    hide *;
    SplitOfCommands(cmds, rest);
    R.ChunkingIndependent(s);
  }

  lemma InFlightIsNext(s: Sender)
    requires Inv(s)
    ensures s.completed <= s.given && (s.sending <==> s.sendcmd.Some?)
    ensures s.sending ==> |s.completed| < |s.given| && s.given[|s.completed|] == s.sendcmd.value
  {
    hide WritePipe.Ok, Requests, OneRecord;
    assert s.given == s.completed + (InFlight(s) + s.queue);
  }

  /** In any state that conserves commands. */
  lemma ConservedArrive(s: Sender, packets: seq<string>)
    requires Inv(s) && AllCommands(s.given) && R.ChunksOf(packets, s.pipe.wire)
    ensures var got := R.Feed([], packets);
            && R.Messages(got.lines) == ParsesOf(s.completed)
            && (if s.sendcmd.Some? then got.tail <= s.sendcmd.value else got.tail == [])
  {
    InFlightIsNext(s);
    assert AllCommands(s.completed);
    assert s.sending ==> IsCommand(s.sendcmd.value);
    assert FindCrlf([]) == 0 && s.pipe.wire + [] == s.pipe.wire;
    hide Inv, R.Feed, R.Messages, R.Concat, R.ChunksOf, BodiesOf, IsCommand, FindCrlf, AllCommands, Requests, WritePipe.Bytes;
    WholeCommandsOf(s.completed);
    var n := WireIs(s);
    if s.sending {
      var c := s.sendcmd.value;
      CutCommand(c);
      PartHasNoCrlf(c, n);
      CommandsArrive(s.completed, c[..n], packets);
    } else {
      CommandsArrive(s.completed, [], packets);
    }
  }

  /** What arrives in any run of one connection: the messages of the confirmed commands, in order, and as the unfinished
      rest a part of the command in flight - whatever the partial writes, refusals, ticks and refills, and however the
      network cuts the bytes into packets. */
  lemma ArriveInOrder(steps: seq<Step>, packets: seq<string>)
    requires Runs(START, steps) && AllCommands(Given(steps))
    requires R.ChunksOf(packets, After(START, steps).pipe.wire)
    ensures var s, got := After(START, steps), R.Feed([], packets);
            && R.Messages(got.lines) == ParsesOf(s.completed) && s.completed <= Given(steps)
            && (if s.sendcmd.Some? then got.tail <= s.sendcmd.value else got.tail == [])
  {
    hide Runs, After, Given, R.Feed, R.Messages, ParsesOf, AllCommands, R.ChunksOf, Inv;
    StartInv();
    RunKeeps(START, steps);
    assert START.given + Given(steps) == Given(steps);
    InFlightIsNext(After(START, steps));
    ConservedArrive(After(START, steps), packets);
  }

  lemma WholeCommandsOf(cmds: seq<string>)
    requires AllCommands(cmds)
    ensures WritePipe.Bytes(Requests(cmds)) == R.Concat(cmds)
  {
    forall k | 0 <= k < |cmds| ensures |cmds[k]| < 0x10000 { assert IsCommand(cmds[k]); }
    WholeCommands(cmds);
  }

  lemma CutCommand(c: string)
    requires IsCommand(c)
    ensures Cut(c) == c && 2 <= |c| < R.TAILMAX
  {}

  // ---------- one message among other commands ----------

  lemma {:induction false} BodiesAppend(a: seq<string>, b: seq<string>)
    ensures BodiesOf(a + b) == BodiesOf(a) + BodiesOf(b)
    decreases |a|
  {
    if a == [] {
      assert a + b == b;
    } else {
      assert (a + b)[1..] == a[1..] + b;
      BodiesAppend(a[1..], b);
    }
  }

  lemma {:induction false} MessagesAppend(a: seq<string>, b: seq<string>)
    ensures R.Messages(a + b) == R.Messages(a) + R.Messages(b)
    decreases |a|
  {
    if a == [] {
      assert a + b == b;
    } else {
      hide *;
      assert a + b == [a[0]] + (a[1..] + b) && a == [a[0]] + a[1..];
      R.MessagesStep(a[0], a[1..] + b);
      R.MessagesStep(a[0], a[1..]);
      MessagesAppend(a[1..], b);
      Reassociate(if a[0] == [] then [] else [IrcMessage.ParseLine(a[0])], R.Messages(a[1..]), R.Messages(b));
    }
  }

  lemma ParsesAppend(a: seq<string>, b: seq<string>)
    ensures ParsesOf(a + b) == ParsesOf(a) + ParsesOf(b)
  {
    BodiesAppend(a, b);
    MessagesAppend(BodiesOf(a), BodiesOf(b));
  }

  lemma {:induction false} BodiesOfLines(to: string, chunks: seq<string>, action: bool)
    ensures BodiesOf(Lines(Head(to, action), chunks, Tail(action))) == Bodies(to, chunks, action)
    decreases |chunks|
  {
    if chunks != [] {
      var line, body := Head(to, action) + chunks[0] + Tail(action), Body(to, chunks[0], action);
      BodyOfLine(to, chunks[0], action);
      assert BodyOf(line) == body;
      BodiesOfLines(to, chunks[1..], action);
      hide Head, Tail, Body, BodyOf;
      var more := Lines(Head(to, action), chunks[1..], Tail(action));
      assert ([line] + more)[1..] == more;
    }
  }

  /** The lines of a message are commands, and stand for PRIVMSGs that make it up. */
  lemma LinesAreCommands(to: string, message: string, action: bool)
    requires Recipient(to) && MessageFormat.Clean(message)
    ensures AllCommands(MsgLines(to, message, action))
    ensures var said := ParsesOf(MsgLines(to, message, action));
            && Heard(said, action) == message
            && forall m | m in said :: m.command == IrcCommand.MSG_PRIVMSG && |m.params| == 2 && m.params[0] == to
  {
    var max := MaxChunk(to, action);
    ChunkRoom(to, action);
    var chunks := Chunks(message, max);
    ChunksJoin(message, max);
    ChunksClean(message, max);
    LinesFit(to, message, action);
    LinesAre(Head(to, action), chunks, Tail(action));
    forall k | 0 <= k < |chunks| ensures IsCommand(MsgLines(to, message, action)[k]) {
      LineIsCommand(to, chunks[k], action);
    }
    BodiesOfLines(to, chunks, action);
    BodiesParse(to, chunks, action);
    HeardIs(to, chunks, action);
    AllPrivmsgs(to, chunks, action);
  }

  lemma LineIsCommand(to: string, chunk: string, action: bool)
    requires Recipient(to) && MessageFormat.Clean(chunk) && |Head(to, action) + chunk + Tail(action)| <= 512
    ensures IsCommand(Head(to, action) + chunk + Tail(action))
  {
    BodyOfLine(to, chunk, action);
    BodyParses(to, chunk, action);
    var body := Body(to, chunk, action);
    assert (body + MessageFormat.CRLF)[..|body|] == body;
    assert (body + MessageFormat.CRLF)[|body|..] == MessageFormat.CRLF;
  }

  /** A message sent among any other commands - login, pongs, other messages: once its lines are confirmed, the other end
      has handled, behind the messages of what was given before, PRIVMSGs to the recipient that make it up. */
  lemma Delivered(to: string, message: string, action: bool, before: seq<string>, after: seq<string>,
                  steps: seq<Step>, packets: seq<string>)
    requires Recipient(to) && MessageFormat.Clean(message) && AllCommands(before) && AllCommands(after)
    requires Runs(START, steps) && Given(steps) == before + MsgLines(to, message, action) + after
    requires |After(START, steps).completed| >= |before| + |MsgLines(to, message, action)|
    requires R.ChunksOf(packets, After(START, steps).pipe.wire)
    ensures var said := ParsesOf(MsgLines(to, message, action));
            && ParsesOf(before) + said <= R.Messages(R.Feed([], packets).lines)
            && Heard(said, action) == message
            && forall m | m in said :: m.command == IrcCommand.MSG_PRIVMSG && |m.params| == 2 && m.params[0] == to
  {
    hide Runs, After, Given, MsgLines, R.Feed, R.Messages, Heard, ParsesOf, IsCommand;
    var lines := MsgLines(to, message, action);
    LinesAreCommands(to, message, action);
    ArriveInOrder(steps, packets);
    var done := After(START, steps).completed;
    var rest := done[|before| + |lines|..];
    assert done == (before + lines) + rest;
    ParsesAppend(before + lines, rest);
    ParsesAppend(before, lines);
  }
}
