/** Cutting a text into lines of at most 512 bytes: IrcServer_sendMsg (580-607). */
module Segmentation {
  import opened Wrappers
  import opened Sequences
  import opened Text
  import opened IrcMessage
  import opened MessageFormat
  import opened Reassembly
  import IrcCommand

  const RAWSIZE := 513
  const SOH := '\U{1}'
  const ACTION := [SOH] + "ACTION "

  /** What sprintf puts in front of every piece. */
  function Head(to: string, action: bool): string { "PRIVMSG " + (to + " :" + (if action then ACTION else "")) }

  /** &"\001\r\n"[!action] */
  function Tail(action: bool): string { (if action then [SOH] else []) + CRLF }

  /** maxchunk (594). */
  function MaxChunk(to: string, action: bool): int { RAWSIZE - |Head(to, action)| - 3 - (if action then 1 else 0) }

  function Chunks(message: string, max: nat): seq<string>
    requires max > 0
    decreases |message|
  {
    if message == [] then []
    else if |message| <= max then [message]
    else [message[..max]] + Chunks(message[max..], max)
  }

  function Lines(head: string, chunks: seq<string>, tail: string): seq<string> {
    if chunks == [] then [] else [head + chunks[0] + tail] + Lines(head, chunks[1..], tail)
  }

  /** The commands that one call gives to sendRaw. */
  function MsgLines(to: string, message: string, action: bool): seq<string>
    requires |to| <= 255
  {
    Lines(Head(to, action), Chunks(message, MaxChunk(to, action)), Tail(action))
  }

  /** How a short text looks on the wire, as a message and as an action. */
  lemma ShortLines()
    ensures MsgLines("#bots", "hi", false) == ["PRIVMSG #bots :hi\r\n"]
    ensures MsgLines("#bots", "waves", true) == ["PRIVMSG #bots :\U{1}ACTION waves\U{1}\r\n"]
  {
    OneLine("#bots", "hi", false);
    OneLine("#bots", "waves", true);
    assert Head("#bots", false) + "hi" + Tail(false) == "PRIVMSG #bots :hi\r\n";
    assert Head("#bots", true) + "waves" + Tail(true) == "PRIVMSG #bots :\U{1}ACTION waves\U{1}\r\n";
  }

  lemma OneLine(to: string, message: string, action: bool)
    requires |to| <= 255 && 0 < |message| <= MaxChunk(to, action)
    ensures MsgLines(to, message, action) == [Head(to, action) + message + Tail(action)]
  {
    hide Head, Tail, MaxChunk;
    assert Chunks(message, MaxChunk(to, action)) == [message];
    assert [message][1..] == [];
    assert Lines(Head(to, action), [], Tail(action)) == [];
  }

  lemma ChunkRoom(to: string, action: bool)
    requires |to| <= 255
    ensures 236 <= MaxChunk(to, action) && |Head(to, action)| + MaxChunk(to, action) + |Tail(action)| == 512
  {}

  // ---------- the pieces ----------

  /** The pieces make up the message, none is empty, and all but the last have the full size. */
  lemma {:induction false} ChunksJoin(message: string, max: nat)
    requires max > 0
    ensures Concat(Chunks(message, max)) == message
    ensures forall k | 0 <= k < |Chunks(message, max)| :: 0 < |Chunks(message, max)[k]| <= max
    ensures forall k | 0 <= k < |Chunks(message, max)| - 1 :: |Chunks(message, max)[k]| == max
    decreases |message|
  {
    if |message| > max {
      var first, more := message[..max], Chunks(message[max..], max);
      assert Chunks(message, max) == [first] + more;
      hide *;
      ChunksJoin(message[max..], max);
      ConcatCons(first, more);
      assert message == first + message[max..];
    } else if message != [] {
      ConcatCons(message, []);
      assert Concat([]) == [] && [message] + [] == [message] && message + [] == message;
    }
  }

  lemma {:induction false} LinesAre(head: string, chunks: seq<string>, tail: string)
    ensures |Lines(head, chunks, tail)| == |chunks|
    ensures forall k | 0 <= k < |chunks| :: Lines(head, chunks, tail)[k] == head + chunks[k] + tail
  {
    if chunks != [] { LinesAre(head, chunks[1..], tail); }
  }

  /** Every line has at most 512 bytes, and all but the last have exactly 512. */
  lemma LinesFit(to: string, message: string, action: bool)
    requires |to| <= 255
    ensures forall k | 0 <= k < |MsgLines(to, message, action)| :: |MsgLines(to, message, action)[k]| <= 512
    ensures forall k | 0 <= k < |MsgLines(to, message, action)| - 1 :: |MsgLines(to, message, action)[k]| == 512
  {
    ChunkRoom(to, action);
    hide Head, Tail, MaxChunk, Chunks, Lines;
    ChunksJoin(message, MaxChunk(to, action));
    LinesAre(Head(to, action), Chunks(message, MaxChunk(to, action)), Tail(action));
  }

  // ---------- the receiving end ----------

  /** The recipient as it can stand in a parameter. */
  predicate Recipient(to: string) { |to| <= 255 && Clean(to) && ' ' !in to && (to != [] ==> to[0] != ':') }

  function Payload(chunk: string, action: bool): string { if action then ACTION + chunk + [SOH] else chunk }

  function Unwrap(payload: string, action: bool): string {
    if !action then payload else if |payload| >= 9 then payload[8..|payload| - 1] else []
  }

  /** A line without its CR LF. */
  function Body(to: string, chunk: string, action: bool): string { "PRIVMSG " + (to + " :" + Payload(chunk, action)) }

  lemma BodyOfLine(to: string, chunk: string, action: bool)
    ensures Head(to, action) + chunk + Tail(action) == Body(to, chunk, action) + CRLF
    ensures Unwrap(Payload(chunk, action), action) == chunk
  {
    if action {
      var p := ACTION + chunk + [SOH];
      assert |p| == |chunk| + 9 && p[8..|p| - 1] == chunk;
    }
  }

  /** PRIVMSG to the recipient with the payload. */
  function Privmsg(to: string, payload: string): Message {
    Message(None, "PRIVMSG", IrcCommand.MSG_PRIVMSG, [to, payload], Some(to + " :" + payload))
  }

  lemma ParamsUnfold(s: string, k: nat)
    requires s != [] && s[0] != ':' && k == Find(s, ' ') < |s|
    ensures Params(s) == [s[..k]] + Params(s[k + 1..])
  {
    hide Find;
  }

  lemma CutAtSpace(first: string, rest: string)
    ensures var s := first + (" " + rest);
            s[..|first|] == first && s[|first| + 1..] == rest && s[0] == if first == [] then ' ' else first[0]
  {}

  lemma ParamsStep(first: string, rest: string)
    requires ' ' !in first && (first != [] ==> first[0] != ':')
    ensures Params(first + (" " + rest)) == [first] + Params(rest)
  {
    hide *;
    FindInConcat(first, " " + rest, ' ');
    CutAtSpace(first, rest);
    ParamsUnfold(first + (" " + rest), |first|);
  }

  lemma ParamsOfBody(to: string, payload: string)
    requires Recipient(to)
    ensures Params(to + " :" + payload) == [to, payload]
  {
    var rest := ":" + payload;
    ParamsStep(to, rest);
    LastParam(payload);
    hide *;
    ColonSplit(to, payload);
  }

  lemma LastParam(payload: string)
    ensures Params(":" + payload) == [payload]
  {
    assert (":" + payload)[1..] == payload;
  }

  lemma ColonSplit(to: string, payload: string)
    ensures to + " :" + payload == to + (" " + (":" + payload))
  {
    assert " :" == " " + ":";
    Reassociate(to, " " + ":", payload);
    Reassociate(" ", ":", payload);
  }

  lemma CommandStep(cmd: string, rest: string)
    requires Clean(cmd) && ' ' !in cmd && Clean(rest) && rest != []
    ensures ParseCommand(None, cmd + (" " + rest)) == Message(None, cmd, IrcCommand.Parse(cmd), Params(rest), Some(rest))
  {
    hide Find, Params, IrcCommand.Parse, CStr;
    var s := cmd + (" " + rest);
    FindInConcat(cmd, " " + rest, ' ');
    assert s[..|cmd|] == cmd && s[|cmd| + 1..] == rest;
    CStrClean(cmd);
    CStrClean(rest);
  }

  lemma BodyParses(to: string, chunk: string, action: bool)
    requires Recipient(to) && Clean(chunk)
    ensures ParseLine(Body(to, chunk, action)) == Privmsg(to, Payload(chunk, action))
    ensures Clean(Body(to, chunk, action)) && Body(to, chunk, action) != []
  {
    var payload := Payload(chunk, action);
    var rest := to + " :" + payload;
    var body := Body(to, chunk, action);
    assert Clean(payload) && Clean(rest) && Clean(body);
    ParamsOfBody(to, payload);
    PrivmsgCode();
    hide Payload, Params, Find, CStr, IrcCommand.Parse, ParseCommand, Clean;
    assert body == "PRIVMSG" + (" " + rest);
    assert Clean("PRIVMSG") by { WordClean(); }
    CommandStep("PRIVMSG", rest);
  }

  lemma WordClean()
    ensures Clean("PRIVMSG")
  {}

  lemma PrivmsgCode()
    ensures IrcCommand.Parse("PRIVMSG") == IrcCommand.MSG_PRIVMSG
  {
    IrcCommand.ParseAfterStr(IrcCommand.MSG_PRIVMSG);
  }

  function Bodies(to: string, chunks: seq<string>, action: bool): seq<string> {
    if chunks == [] then [] else [Body(to, chunks[0], action)] + Bodies(to, chunks[1..], action)
  }

  function Privmsgs(to: string, chunks: seq<string>, action: bool): seq<Message> {
    if chunks == [] then [] else [Privmsg(to, Payload(chunks[0], action))] + Privmsgs(to, chunks[1..], action)
  }

  ghost predicate AllClean(chunks: seq<string>) { forall k | 0 <= k < |chunks| :: Clean(chunks[k]) }

  lemma {:induction false} ChunksClean(message: string, max: nat)
    requires max > 0 && Clean(message)
    ensures AllClean(Chunks(message, max))
    decreases |message|
  {
    if |message| > max {
      assert message == message[..max] + message[max..];
      CleanConcat(message[..max], message[max..]);
      ChunksClean(message[max..], max);
    }
  }

  lemma ConcatCons(x: string, xs: seq<string>)
    ensures Concat([x] + xs) == x + Concat(xs)
  {
    assert ([x] + xs)[1..] == xs;
  }

  /** Cutting the lines at CR LF again gives their bodies and nothing else. */
  lemma {:induction false} SplitOfLines(to: string, chunks: seq<string>, action: bool)
    requires Recipient(to) && AllClean(chunks)
    ensures Split(Concat(Lines(Head(to, action), chunks, Tail(action)))) == Cut(Bodies(to, chunks, action), [])
    decreases |chunks|
  {
    var head, tail := Head(to, action), Tail(action);
    if chunks != [] {
      var body, more := Body(to, chunks[0], action), Lines(head, chunks[1..], tail);
      BodyOfLine(to, chunks[0], action);
      BodyParses(to, chunks[0], action);
      ConcatCons(body + CRLF, more);
      FindCrlfAfter(body, Concat(more));
      SplitOfLines(to, chunks[1..], action);
      hide FindCrlf, Split, Body, Head, Tail, Concat, Clean;
      var s := body + CRLF + Concat(more);
      SplitStep(s);
      assert s[..|body|] == body && s[|body| + 2..] == Concat(more);
    } else {
      assert Concat([]) == [];
    }
  }

  lemma {:induction false} BodiesParse(to: string, chunks: seq<string>, action: bool)
    requires Recipient(to) && AllClean(chunks)
    ensures Messages(Bodies(to, chunks, action)) == Privmsgs(to, chunks, action)
    decreases |chunks|
  {
    if chunks != [] {
      BodyParses(to, chunks[0], action);
      BodiesParse(to, chunks[1..], action);
      hide Body, ParseLine, Clean;
      MessagesStep(Body(to, chunks[0], action), Bodies(to, chunks[1..], action));
    }
  }

  /** What a reader of the messages puts together. */
  function Heard(ms: seq<Message>, action: bool): string {
    if ms == [] then []
    else (if |ms[0].params| == 2 then Unwrap(ms[0].params[1], action) else []) + Heard(ms[1..], action)
  }

  lemma {:induction false} HeardIs(to: string, chunks: seq<string>, action: bool)
    ensures Heard(Privmsgs(to, chunks, action), action) == Concat(chunks)
    decreases |chunks|
  {
    if chunks != [] {
      BodyOfLine(to, chunks[0], action);
      HeardIs(to, chunks[1..], action);
      assert Privmsgs(to, chunks, action)[1..] == Privmsgs(to, chunks[1..], action);
    }
  }

  lemma {:induction false} AllPrivmsgs(to: string, chunks: seq<string>, action: bool)
    ensures forall m | m in Privmsgs(to, chunks, action) ::
              m.command == IrcCommand.MSG_PRIVMSG && |m.params| == 2 && m.params[0] == to
    decreases |chunks|
  {
    if chunks != [] { AllPrivmsgs(to, chunks[1..], action); }
  }

  lemma {:induction false} BodiesShort(to: string, chunks: seq<string>, action: bool, max: nat)
    requires forall k | 0 <= k < |chunks| :: |chunks[k]| <= max
    ensures forall l | l in Bodies(to, chunks, action) :: |l| + 2 <= |Head(to, action)| + max + |Tail(action)|
    decreases |chunks|
  {
    if chunks != [] { BodiesShort(to, chunks[1..], action, max); }
  }

  /** End to end: whichever way the network cuts the lines of a message, the receiving side handles PRIVMSGs to the
      recipient, keeps no rest, and their payloads - with the wrapping of an action taken off - make up the message. */
  lemma EndToEnd(to: string, message: string, action: bool, packets: seq<string>)
    requires Recipient(to) && Clean(message) && ChunksOf(packets, Concat(MsgLines(to, message, action)))
    ensures var got := Feed([], packets);
            && got.tail == [] && Heard(Messages(got.lines), action) == message
            && forall m | m in Messages(got.lines) ::
                 m.command == IrcCommand.MSG_PRIVMSG && |m.params| == 2 && m.params[0] == to
  {
    var max := MaxChunk(to, action);
    ChunkRoom(to, action);
    var chunks, stream := Chunks(message, max), Concat(MsgLines(to, message, action));
    ChunksJoin(message, max);
    ChunksClean(message, max);
    SplitOfLines(to, chunks, action);
    BodiesShort(to, chunks, action, max);
    assert Fits(stream);
    ChunkingIndependent(stream);
    BodiesParse(to, chunks, action);
    HeardIs(to, chunks, action);
    AllPrivmsgs(to, chunks, action);
  }

  // ---------- the code ----------

  /** strcpy or strncpy of a C string's characters to `at`. */
  method CopyTo(dst: array<char>, at: nat, src: string)
    requires at + |src| <= dst.Length
    modifies dst
    ensures dst[..at] == old(dst[..at]) && dst[at..at + |src|] == src
    ensures dst[at + |src|..] == old(dst[at + |src|..])
  {
    var i := 0;
    while i < |src|
      invariant i <= |src| && dst[at..at + i] == src[..i]
      invariant dst[..at] == old(dst[..at]) && dst[at + i..] == old(dst[at + i..])
    {
      dst[at + i] := src[i];
      assert dst[at..at + i + 1] == dst[at..at + i] + [src[i]];
      i := i + 1;
    }
    assert src[..i] == src;
  }

  /** sprintf (592-593). */
  method FormatHead(rawmsg: array<char>, to: string, action: bool) returns (idx: nat)
    requires rawmsg.Length == RAWSIZE && |to| <= 255
    modifies rawmsg
    ensures idx == |Head(to, action)| && rawmsg[..idx] == Head(to, action)
  {
    ChunkRoom(to, action);
    var head := Head(to, action);
    CopyTo(rawmsg, 0, head + [NUL]);
    idx := |head|;
    assert rawmsg[0..0 + |head + [NUL]|][..idx] == head;
  }

  /** One turn of the loop (599-601): the C string that the buffer then holds. */
  method FormatLine(rawmsg: array<char>, idx: nat, to: string, chunk: string, action: bool) returns (line: string)
    requires rawmsg.Length == RAWSIZE && |to| <= 255 && NUL !in to && NUL !in chunk && |chunk| <= MaxChunk(to, action)
    requires idx == |Head(to, action)| && rawmsg[..idx] == Head(to, action)
    modifies rawmsg
    ensures line == Head(to, action) + chunk + Tail(action) && rawmsg[..idx] == Head(to, action)
  {
    ChunkRoom(to, action);
    var head, tail := Head(to, action), Tail(action);
    NoNul(to, chunk, action);
    hide Head, Tail, MaxChunk;
    CopyTo(rawmsg, idx, chunk);
    var n := idx + |chunk|;
    assert rawmsg[..n] == head + chunk by { assert rawmsg[..n] == rawmsg[..idx] + rawmsg[idx..n]; }
    CopyTo(rawmsg, n, tail + [NUL]);
    var end := n + |tail|;
    assert rawmsg[n..end + 1] == tail + [NUL];
    assert rawmsg[..end] == head + chunk + tail by {
      assert rawmsg[n..end] == rawmsg[n..end + 1][..|tail|] == tail;
      assert rawmsg[..end] == rawmsg[..n] + rawmsg[n..end];
    }
    assert rawmsg[..idx] == rawmsg[..n][..idx] == head;
    assert rawmsg[end] == rawmsg[n..end + 1][|tail|] == NUL;
    FindIs(rawmsg[..], NUL, end);
    line := CStr(rawmsg[..]);
  }

  lemma NoNul(to: string, chunk: string, action: bool)
    requires NUL !in to && NUL !in chunk
    ensures NUL !in Head(to, action) + chunk + Tail(action)
  {}
}
