/** How ircserver.c puts the received chunks together again and cuts them into lines. */
module Reassembly {
  import opened Wrappers
  import opened Sequences
  import opened Text
  import opened IrcMessage

  // ---------- the intended meaning: cut the stream at every CR LF ----------

  datatype Cut = Cut(lines: seq<string>, tail: string)

  function Split(s: string): (c: Cut)
    decreases |s|
  {
    var e := FindCrlf(s);
    if e == |s| then Cut([], s)
    else
      var c := Split(s[e + 2..]);
      Cut([s[..e]] + c.lines, c.tail)
  }

  /** Empty lines are skipped, the others parsed. */
  function Messages(lines: seq<string>): seq<Message> {
    if lines == [] then []
    else (if lines[0] == [] then [] else [ParseLine(lines[0])]) + Messages(lines[1..])
  }

  // ---------- what the code does with one chunk after another ----------

  const TAILMAX := 4096
  const BUFSIZE := 8192

  /** connDataReceived on the buffered bytes and a chunk; an unterminated rest of more than 4096 bytes is thrown away. */
  function Receive(buf: string, chunk: string): Cut {
    var c := Split(buf + chunk);
    if |c.tail| > TAILMAX then Cut(c.lines, []) else c
  }

  function Feed(buf: string, chunks: seq<string>): Cut
    decreases |chunks|
  {
    if chunks == [] then Cut([], buf)
    else
      var c := Receive(buf, chunks[0]);
      var d := Feed(c.tail, chunks[1..]);
      Cut(c.lines + d.lines, d.tail)
  }

  function Concat(chunks: seq<string>): string {
    if chunks == [] then [] else chunks[0] + Concat(chunks[1..])
  }

  // ---------- the code ----------

  class Receiver {
    const recvbuf: array<char>
    var recvbufsz: nat

    /** Between two calls at most 4096 bytes are buffered, so a chunk of 4096 always fits. */
    ghost predicate Valid()
      reads this
    {
      recvbuf.Length == BUFSIZE && recvbufsz <= TAILMAX
    }

    function Buffered(): string
      reads this, recvbuf
      requires recvbufsz <= recvbuf.Length
    {
      recvbuf[..recvbufsz]
    }

    constructor ()
      ensures Valid() && Buffered() == [] && fresh(recvbuf)
    {
      recvbuf := new char[BUFSIZE](_ => NUL);
      recvbufsz := 0;
    }

    /** memcpy of the chunk behind what is buffered (189-190). */
    method Append(chunk: array<char>, size: nat)
      requires Valid() && chunk != recvbuf && size <= chunk.Length && size <= TAILMAX
      modifies this, recvbuf
      ensures recvbufsz == old(recvbufsz) + size <= BUFSIZE
      ensures Buffered() == old(Buffered()) + chunk[..size]
    {
      ghost var before := Buffered();
      var i := 0;
      while i < size
        invariant i <= size && recvbufsz == old(recvbufsz)
        invariant forall k | 0 <= k < recvbufsz :: recvbuf[k] == before[k]
        invariant forall k | 0 <= k < i :: recvbuf[recvbufsz + k] == chunk[k]
      {
        recvbuf[recvbufsz + i] := chunk[i];
        i := i + 1;
      }
      recvbufsz := recvbufsz + size;
    }

    /** One turn of the parse loop (195-199), after which `all` messages of `data` are still accounted for. */
    method TakeNext(pos: nat, handled: seq<Message>, ghost data: string, ghost all: seq<Message>)
      returns (more: seq<Message>, newpos: nat)
      requires recvbufsz <= recvbuf.Length == BUFSIZE && data == recvbuf[..recvbufsz] && pos <= recvbufsz
      requires handled + Messages(Split(data[pos..]).lines) == all
      ensures newpos == pos || pos + 2 <= newpos <= recvbufsz
      ensures more + Messages(Split(data[newpos..]).lines) == all
      ensures Split(data[newpos..]).tail == Split(data[pos..]).tail
      ensures newpos == pos ==> FindCrlf(data[pos..]) == |data[pos..]|
    {
      assert recvbufsz < 0x10000;
      hide *;
      ghost var rest := data[pos..];
      assert recvbuf[pos..recvbufsz] == rest;
      var msg;
      msg, newpos := Create(recvbuf, recvbufsz, pos);
      TakeOne(all, handled, rest, msg, newpos - pos);
      DropDrop(data, pos, newpos);
      more := if msg.Some? then handled + [msg.value] else handled;
    }

    /** The parse loop (191-200). */
    method TakeMessages() returns (handled: seq<Message>, pos: nat)
      requires recvbuf.Length == BUFSIZE && recvbufsz <= BUFSIZE
      ensures handled == Messages(Split(Buffered()).lines)
      ensures pos <= recvbufsz && Buffered()[pos..] == Split(Buffered()).tail
    {
      assert Messages([]) == [] && Buffered() == recvbuf[..recvbufsz];
      hide *;
      ghost var data := recvbuf[..recvbufsz];
      ghost var all := Messages(Split(data).lines);
      pos, handled := 0, [];
      var oldpos := 0xffff;
      assert data[0..] == data;
      NothingAround(all);
      while oldpos != pos
        invariant pos <= recvbufsz
        invariant handled + Messages(Split(data[pos..]).lines) == all
        invariant Split(data[pos..]).tail == Split(data).tail
        invariant oldpos == pos ==> FindCrlf(data[pos..]) == |data[pos..]|
        decreases recvbufsz - pos, oldpos != pos
      {
        oldpos := pos;
        handled, pos := TakeNext(pos, handled, data, all);
      }
      SplitStep(data[pos..]);
      NothingAround(handled);
    }

    /** Discards or shifts down what is left over (201-214). */
    method Keep(pos: nat)
      requires recvbuf.Length == BUFSIZE && pos <= recvbufsz <= BUFSIZE
      modifies this, recvbuf
      ensures Valid()
      ensures Buffered() == if old(recvbufsz) - pos > TAILMAX then [] else old(Buffered())[pos..]
    {
      if pos == recvbufsz {
        recvbufsz := 0;
      } else if recvbufsz - pos > TAILMAX {
        recvbufsz := 0;
      } else {
        ghost var rest := recvbuf[pos..recvbufsz];
        assert rest == Buffered()[pos..];
        var n := recvbufsz - pos;
        var i := 0;
        while i < n
          invariant i <= n && recvbufsz == old(recvbufsz)
          invariant forall k | 0 <= k < i :: recvbuf[k] == rest[k]
          invariant forall k | i <= k < n :: recvbuf[pos + k] == rest[k]
        {
          recvbuf[i] := recvbuf[pos + i];
          i := i + 1;
        }
        recvbufsz := n;
      }
    }

    /** connDataReceived (189-214). */
    method DataReceived(chunk: array<char>, size: nat) returns (handled: seq<Message>)
      requires Valid() && chunk != recvbuf && size <= chunk.Length && size <= TAILMAX
      modifies this, recvbuf
      ensures Valid()
      ensures var c := Receive(old(Buffered()), old(chunk[..size]));
              handled == Messages(c.lines) && Buffered() == c.tail
    {
      Append(chunk, size);
      var pos;
      handled, pos := TakeMessages();
      Keep(pos);
    }
  }

  lemma SplitStep(s: string)
    ensures var e := FindCrlf(s);
            && (e == |s| ==> Split(s) == Cut([], s))
            && (e < |s| ==> Split(s) == Cut([s[..e]] + Split(s[e + 2..]).lines, Split(s[e + 2..]).tail))
  {
    hide FindCrlf;
  }

  lemma DropDrop(s: string, a: nat, b: nat)
    requires a <= b <= |s|
    ensures s[a..][b - a..] == s[b..]
  {}

  lemma MessagesStep(l: string, ls: seq<string>)
    ensures Messages([l] + ls) == (if l == [] then [] else [ParseLine(l)]) + Messages(ls)
  {
    hide ParseLine;
    assert ([l] + ls)[1..] == ls;
  }

  /** What one call of the scanner finds is the first line, and the rest is cut as before. */
  lemma SplitScan(s: string)
    ensures Scan(s).1 <= |s|
    ensures Scan(s).1 == 0 ==> Split(s) == Cut([], s) && Scan(s).0.None? && FindCrlf(s) == |s|
    ensures var (msg, n) := Scan(s);
            n > 0 ==>
              && Split(s).tail == Split(s[n..]).tail
              && Messages(Split(s).lines) == (if msg.Some? then [msg.value] else []) + Messages(Split(s[n..]).lines)
  {
    hide ParseLine, FindCrlf, Split, Messages;
    var e := FindCrlf(s);
    SplitStep(s);
    if e < |s| {
      MessagesStep(s[..e], Split(s[e + 2..]).lines);
      assert e == 0 ==> s[..e] == [];
    }
  }

  lemma TakeOne(all: seq<Message>, handled: seq<Message>, s: string, msg: Option<Message>, n: nat)
    requires handled + Messages(Split(s).lines) == all && Scan(s) == (msg, n)
    ensures n <= |s| && (n == 0 ==> msg.None? && FindCrlf(s) == |s|)
    ensures Split(s[n..]).tail == Split(s).tail
    ensures (if msg.Some? then handled + [msg.value] else handled) + Messages(Split(s[n..]).lines) == all
  {
    hide *;
    SplitScan(s);
    assert s[0..] == s;
    if n > 0 {
      if msg.Some? { Reassociate(handled, [msg.value], Messages(Split(s[n..]).lines)); }
      else { assert [] + Messages(Split(s[n..]).lines) == Messages(Split(s[n..]).lines); }
    }
  }

  /** Of one chunk all complete lines are handled, and the rest is kept unless it is longer than 4096 bytes. */
  lemma RestIsKept(buf: string, chunk: string)
    ensures var c := Split(buf + chunk);
            Receive(buf, chunk) == Cut(c.lines, if |c.tail| <= 4096 then c.tail else [])
  {
    hide Split;
  }

  // ---------- chunking does not matter exactly when every line fits ----------

  /** No line is longer than 4095 bytes, and the unterminated rest not longer than 4096. */
  ghost predicate Fits(s: string) {
    && (forall l | l in Split(s).lines :: |l| < TAILMAX)
    && |Split(s).tail| <= TAILMAX
  }

  lemma {:induction false} TailHasNoCrlf(s: string)
    ensures FindCrlf(Split(s).tail) == |Split(s).tail| && |Split(s).tail| <= |s|
    decreases |s|
  {
    hide FindCrlf;
    var e := FindCrlf(s);
    if e < |s| { TailHasNoCrlf(s[e + 2..]); }
  }

  lemma FirstLine(s: string, e: nat, rest: string)
    requires e + 1 < |s| && FindCrlf(s) == e && rest == s[e + 2..]
    ensures Split(s) == Cut([s[..e]] + Split(rest).lines, Split(rest).tail)
  {
    hide *;
    SplitStep(s);
  }

  lemma NoLine(s: string)
    requires FindCrlf(s) == |s|
    ensures Split(s) == Cut([], s)
  {}

  /** Cutting can be resumed from the unterminated tail. */
  lemma {:induction false} SplitAppend(a: string, b: string)
    ensures var c := Split(a); var d := Split(c.tail + b);
            Split(a + b) == Cut(c.lines + d.lines, d.tail)
    decreases |a|
  {
    var e := FindCrlf(a);
    assert e == |a| || e + 1 < |a|;
    hide *;
    if e == |a| {
      NoLine(a);
      NothingAround(Split(a + b).lines);
    } else {
      var line, rest := a[..e], a[e + 2..];
      SplitAppend(rest, b);
      CrlfStays(a, b);
      FrontParts(a, b, e, e + 2);
      FirstLine(a, e, rest);
      FirstLine(a + b, e, rest + b);
      Reassociate([line], Split(rest).lines, Split(Split(rest).tail + b).lines);
    }
  }

  lemma CrlfStays(a: string, b: string)
    requires FindCrlf(a) < |a|
    ensures FindCrlf(a + b) == FindCrlf(a)
  {
    var e := FindCrlf(a);
    assert CrlfAt(a + b, e);
    forall i | 0 <= i < e ensures !CrlfAt(a + b, i) {
      assert !CrlfAt(a, i);
    }
    FindCrlfIs(a + b, e);
  }

  /** Where the next line ends after a tail without CR LF. */
  lemma CrlfAfterTail(u: string, t: string)
    requires FindCrlf(u) == |u|
    ensures FindCrlf(u + t) < |u + t| ==> |u| <= FindCrlf(u + t) + 1
  {
    var e := FindCrlf(u + t);
    if e + 1 < |u| { assert !CrlfAt(u, e); }
  }

  /** Fitting is closed under prefixes, so no chunk boundary can make a fitting stream overflow. */
  lemma FitsPrefix(s: string, t: string)
    requires Fits(s + t)
    ensures Fits(s)
  {
    var c := Split(s);
    SplitAppend(s, t);
    TailHasNoCrlf(s);
    CrlfAfterTail(c.tail, t);
    var d := Split(c.tail + t);
    assert forall l | l in c.lines :: l in Split(s + t).lines;
    var e := FindCrlf(c.tail + t);
    if e < |c.tail + t| {
      var l := (c.tail + t)[..e];
      assert d.lines[0] == l;
      assert l in Split(s + t).lines;
    }
  }

  lemma {:induction false} FeedFits(p: string, chunks: seq<string>)
    requires Fits(p + Concat(chunks))
    ensures var d := Feed(Split(p).tail, chunks);
            Split(p + Concat(chunks)) == Cut(Split(p).lines + d.lines, d.tail)
    decreases |chunks|
  {
    hide Split, Fits;
    if chunks == [] {
      assert p + [] == p;
      assert Split(p).lines + [] == Split(p).lines;
    } else {
      var x, rest := chunks[0], Concat(chunks[1..]);
      assert p + Concat(chunks) == (p + x) + rest;
      FitsPrefix(p + x, rest);
      ReceiveFits(p, x);
      FeedFits(p + x, chunks[1..]);
      var c := Receive(Split(p).tail, x);
      var d := Feed(c.tail, chunks[1..]);
      assert (Split(p).lines + c.lines) + d.lines == Split(p).lines + (c.lines + d.lines);
    }
  }

  /** A chunk that keeps the stream fitting is received without loss. */
  lemma ReceiveFits(p: string, x: string)
    requires Fits(p + x)
    ensures var c := Receive(Split(p).tail, x);
            Split(p + x) == Cut(Split(p).lines + c.lines, c.tail)
  {
    SplitAppend(p, x);
  }

  // ---------- and it does matter when a line does not fit ----------

  function LineBytes(lines: seq<string>): nat {
    if lines == [] then 0 else |lines[0]| + 2 + LineBytes(lines[1..])
  }

  /** The number of received bytes a cut accounts for. */
  function Weight(c: Cut): nat { LineBytes(c.lines) + |c.tail| }

  lemma {:induction false} LineBytesAppend(a: seq<string>, b: seq<string>)
    ensures LineBytes(a + b) == LineBytes(a) + LineBytes(b)
  {
    if a == [] {
      assert a + b == b;
    } else {
      assert (a + b)[1..] == a[1..] + b;
      LineBytesAppend(a[1..], b);
    }
  }

  lemma {:induction false} SplitWeight(s: string)
    ensures Weight(Split(s)) == |s|
    decreases |s|
  {
    hide FindCrlf;
    var e := FindCrlf(s);
    if e < |s| {
      SplitWeight(s[e + 2..]);
      assert ([s[..e]] + Split(s[e + 2..]).lines)[1..] == Split(s[e + 2..]).lines;
    }
  }

  lemma {:induction false} FeedWeight(buf: string, chunks: seq<string>)
    ensures Weight(Feed(buf, chunks)) <= |buf| + |Concat(chunks)|
    decreases |chunks|
  {
    hide Split;
    if chunks != [] {
      SplitWeight(buf + chunks[0]);
      var c := Receive(buf, chunks[0]);
      FeedWeight(c.tail, chunks[1..]);
      LineBytesAppend(c.lines, Feed(c.tail, chunks[1..]).lines);
    }
  }

  /** The stream byte by byte. */
  function Bytes(s: string): seq<string> {
    if s == [] then [] else [[s[0]]] + Bytes(s[1..])
  }

  lemma {:induction false} BytesConcat(s: string)
    ensures Concat(Bytes(s)) == s && |Bytes(s)| == |s|
    ensures forall k | 0 <= k < |s| :: |Bytes(s)[k]| == 1
  {
    if s != [] { BytesConcat(s[1..]); }
  }

  /** One more byte either ends the line or lengthens the tail. */
  lemma OneMoreByte(u: string, x: string)
    requires FindCrlf(u) == |u| && |x| == 1
    ensures var d := Split(u + x);
            d == Cut([], u + x) || (d.tail == [] && |d.lines| == 1 && |d.lines[0]| < |u|)
  {
    CrlfAfterTail(u, x);
    var e := FindCrlf(u + x);
    if e < |u + x| {
      assert (u + x)[e + 2..] == [];
      assert FindCrlf([]) == 0;
      assert Split([]) == Cut([], []);
    }
  }

  /** So a fitting stream becomes too long only by its unterminated tail. */
  lemma OverflowIsTail(p: string, x: string)
    requires Fits(p) && !Fits(p + x) && |x| == 1
    ensures |Split(Split(p).tail + x).tail| > TAILMAX
  {
    hide FindCrlf, Split;
    SplitAppend(p, x);
    TailHasNoCrlf(p);
    OneMoreByte(Split(p).tail, x);
  }

  lemma {:induction false} BytewiseLoses(p: string, r: string)
    requires Fits(p) && !Fits(p + r)
    ensures Weight(Feed(Split(p).tail, Bytes(r))) < |Split(p).tail| + |r|
    decreases |r|
  {
    hide Split, Fits;
    assert p + [] == p;
    if r != [] {
      var x, rest := [r[0]], r[1..];
      var u := Split(p).tail;
      var c := Receive(u, x);
      assert Bytes(r)[0] == x && Bytes(r)[1..] == Bytes(rest);
      BytesConcat(rest);
      SplitWeight(u + x);
      LineBytesAppend(c.lines, Feed(c.tail, Bytes(rest)).lines);
      assert (p + x) + rest == p + r;
      if Fits(p + x) {
        ReceiveFits(p, x);
        BytewiseLoses(p + x, rest);
      } else {
        OverflowIsTail(p, x);
        FeedWeight(c.tail, Bytes(rest));
      }
    }
  }

  /** A way to cut a stream into non-empty chunks that the connection's 4096-byte read buffer can deliver. */
  ghost predicate ChunksOf(chunks: seq<string>, s: string) {
    Concat(chunks) == s && forall k | 0 <= k < |chunks| :: 0 < |chunks[k]| <= TAILMAX
  }

  /** Chunking independence: the lines handled and the bytes left in the buffer are those of the whole stream,
      however it was cut into chunks, if and only if no line is longer than 4095 bytes (and the rest not longer
      than 4096). */
  lemma ChunkingIndependent(s: string)
    ensures (forall chunks | ChunksOf(chunks, s) :: Feed([], chunks) == Split(s)) <==> Fits(s)
  {
    assert Split([]) == Cut([], []);
    if Fits(s) {
      forall chunks | ChunksOf(chunks, s) ensures Feed([], chunks) == Split(s) {
        assert [] + Concat(chunks) == s;
        FeedFits([], chunks);
        assert [] + Feed([], chunks).lines == Feed([], chunks).lines;
      }
    } else {
      BytesConcat(s);
      assert ChunksOf(Bytes(s), s);
      assert [] + s == s;
      assert Fits([]);
      BytewiseLoses([], s);
      SplitWeight(s);
    }
  }

  // ---------- what an earlier connection has left in the buffer ----------

  /** The buffered bytes end in CR and the received ones begin with LF. */
  predicate Straddles(t: string, r: string) { t != [] && t[|t| - 1] == CR && r != [] && r[0] == LF }

  lemma NoCrlfInNothing()
    ensures FindCrlf([]) == 0
  {}

  /** Where the first line ends behind a text without CR LF. */
  lemma FindCrlfShift(t: string, r: string)
    requires FindCrlf(t) == |t| && !Straddles(t, r)
    ensures FindCrlf(t + r) == |t| + FindCrlf(r)
  {
    var s, e := t + r, FindCrlf(r);
    forall i | 0 <= i < |t| + e ensures !CrlfAt(s, i) {
      if i + 1 < |t| { assert !CrlfAt(t, i); } else if i >= |t| { assert !CrlfAt(r, i - |t|); }
    }
    if e < |r| { assert CrlfAt(s, |t| + e); }
    FindCrlfIs(s, |t| + e);
  }

  lemma DropMore(t: string, r: string, n: nat)
    requires n <= |r|
    ensures (t + r)[|t| + n..] == r[n..]
  {}

  lemma TakeMore(t: string, r: string, n: nat)
    requires n <= |r|
    ensures (t + r)[..|t| + n] == t + r[..n]
  {}

  lemma LongerFirst(b: Cut, t: string, line: string, c: Cut)
    requires b == Cut([line] + c.lines, c.tail)
    ensures b.lines != [] && [t + b.lines[0]] + b.lines[1..] == [t + line] + c.lines
  {}

  /** Bytes in front of a stream go into its first line. */
  lemma InFront(t: string, r: string)
    requires FindCrlf(t) == |t| && !Straddles(t, r)
    ensures var b := Split(r);
            Split(t + r) == if b.lines == [] then Cut([], t + r) else Cut([t + b.lines[0]] + b.lines[1..], b.tail)
  {
    var s, e := t + r, FindCrlf(r);
    assert e == |r| || e + 1 < |r|;
    FindCrlfShift(t, r);
    hide *;
    if e == |r| {
      NoLine(r);
      NoLine(s);
    } else {
      InFrontLine(t, r, e);
    }
  }

  lemma InFrontLine(t: string, r: string, e: nat)
    requires e + 1 < |r| && FindCrlf(r) == e && FindCrlf(t + r) == |t| + e
    ensures var b := Split(r); b.lines != [] && Split(t + r) == Cut([t + b.lines[0]] + b.lines[1..], b.tail)
  {
    hide *;
    var line, rest := r[..e], r[e + 2..];
    FirstLine(r, e, rest);
    DropMore(t, r, e + 2);
    FirstLine(t + r, |t| + e, rest);
    TakeMore(t, r, e);
    LongerFirst(Split(r), t, line, Split(rest));
  }

  /** A CR LF that straddles makes a line of its own. */
  lemma InFrontOfLf(t: string, r: string)
    requires FindCrlf(t) == |t| && Straddles(t, r)
    ensures |Split(t + r).lines| == |Split(r).lines| + 1
  {
    var s, n := t + r, |t| - 1;
    forall i | 0 <= i < n ensures !CrlfAt(s, i) { assert !CrlfAt(t, i); }
    assert CrlfAt(s, n);
    FindCrlfIs(s, n);
    assert FindCrlf([LF]) == 1;
    assert !Straddles([LF], r[1..]);
    hide *;
    assert s[n + 2..] == r[1..];
    FirstLine(s, n, r[1..]);
    InFront([LF], r[1..]);
    assert r == [LF] + r[1..];
  }

  lemma FewerLinesAlone(t: string, r: string)
    requires FindCrlf(t) == |t|
    ensures |Split(r).lines| <= |Split(t + r).lines|
  {
    hide *;
    if Straddles(t, r) { InFrontOfLf(t, r); } else { InFront(t, r); }
  }

  /** No line comes out that is not there, whatever is thrown away. */
  lemma {:induction false} FeedCount(u: string, chunks: seq<string>)
    requires FindCrlf(u) == |u|
    ensures |Feed(u, chunks).lines| <= |Split(u + Concat(chunks)).lines|
    decreases |chunks|
  {
    hide Split, FindCrlf;
    if chunks != [] {
      var x, rest := chunks[0], Concat(chunks[1..]);
      var c, kept := Split(u + x), Receive(u, x).tail;
      NoCrlfInNothing();
      TailHasNoCrlf(u + x);
      FewerLinesAlone(c.tail, rest);
      FeedCount(kept, chunks[1..]);
      SplitAppend(u + x, rest);
      Reassociate(u, x, rest);
      assert kept == [] ==> kept + rest == rest;
    }
  }

  /** Where the stream fits behind what is buffered, it also fits alone. */
  lemma FitsAlone(t: string, r: string)
    requires FindCrlf(t) == |t| && !Straddles(t, r) && Split(r).lines != [] && Fits(t + r)
    ensures Fits(r)
  {
    hide Split, FindCrlf, Straddles;
    InFront(t, r);
    ShorterLines(Split(t + r).lines, Split(r).lines, t);
  }

  lemma ShorterLines(a: seq<string>, b: seq<string>, t: string)
    requires b != [] && a == [t + b[0]] + b[1..] && forall l | l in a :: |l| < TAILMAX
    ensures forall l | l in b :: |l| < TAILMAX
  {
    forall k | 0 <= k < |b| ensures |b[k]| < TAILMAX { assert a[k] in a; }
  }

  lemma FeedFitting(buf: string, chunks: seq<string>)
    requires FindCrlf(buf) == |buf| && Fits(buf + Concat(chunks))
    ensures Feed(buf, chunks) == Split(buf + Concat(chunks))
  {
    hide *;
    NoLine(buf);
    FeedFits(buf, chunks);
    assert [] + Feed(buf, chunks).lines == Feed(buf, chunks).lines;
  }

  /** What is still buffered when a connection closes is not cleared for the next one (158-177). As long as every line
      fits, that one's lines come out right exactly if nothing was buffered: otherwise its first line is misread. */
  lemma FirstLineMisread(buf: string, chunks: seq<string>)
    requires FindCrlf(buf) == |buf| && Fits(buf + Concat(chunks)) && Feed([], chunks).lines != []
    ensures Feed(buf, chunks).lines == Feed([], chunks).lines <==> buf == []
    ensures !Straddles(buf, Concat(chunks)) ==>
      Feed(buf, chunks).lines == [buf + Feed([], chunks).lines[0]] + Feed([], chunks).lines[1..]
  {
    var s := Concat(chunks);
    var before, after := Split(buf + s), Split(s);
    assert buf == [] ==> !Straddles(buf, s);
    hide *;
    NoCrlfInNothing();
    assert [] + s == s;
    FeedCount([], chunks);
    FeedFitting(buf, chunks);
    if Straddles(buf, s) {
      InFrontOfLf(buf, s);
    } else {
      InFront(buf, s);
      FitsAlone(buf, s);
      FeedFitting([], chunks);
      assert buf == [] ==> buf + after.lines[0] == after.lines[0];
      assert buf != [] ==> |buf + after.lines[0]| != |after.lines[0]|;
    }
  }

  /** So the next connection is read right, whatever lines it receives, exactly if nothing was buffered. */
  lemma ReconnectNeedsEmptyBuffer(buf: string)
    requires FindCrlf(buf) == |buf| <= TAILMAX
    ensures (forall chunks | ChunksOf(chunks, Concat(chunks)) && Feed([], chunks).lines != [] ::
              Feed(buf, chunks).lines == Feed([], chunks).lines) <==> buf == []
  {
    if buf != [] {
      hide *;
      var chunk := [CR, LF];
      OneChunk(chunk);
      NoCrlfInNothing();
      EndsLine(buf, chunk);
      EndsLine([], chunk);
      FeedOne(buf, chunk);
      FeedOne([], chunk);
      assert Feed(buf, [chunk]).lines[0] == buf && Feed([], [chunk]).lines[0] == [];
    }
  }

  lemma EndsLine(buf: string, chunk: string)
    requires FindCrlf(buf) == |buf| && chunk == [CR, LF]
    ensures Split(buf + chunk) == Cut([buf], [])
  {
    var s := buf + chunk;
    forall i | 0 <= i < |buf| ensures !CrlfAt(s, i) {
      assert !CrlfAt(buf, i);
      assert i + 1 == |buf| ==> s[i + 1] == CR;
    }
    FindCrlfIs(s, |buf|);
    assert s[..|buf|] == buf && s[|buf| + 2..] == [];
    assert FindCrlf([]) == 0;
  }

  lemma OneChunk(chunk: string)
    requires 0 < |chunk| <= TAILMAX
    ensures ChunksOf([chunk], Concat([chunk]))
  {}

  lemma FeedOne(buf: string, chunk: string)
    ensures Feed(buf, [chunk]) == Receive(buf, chunk)
    ensures Feed(buf, [chunk]).lines == Split(buf + chunk).lines
  {
    hide Split;
    var c := Receive(buf, chunk);
    assert [chunk][1..] == [];
    assert Feed(c.tail, []) == Cut([], c.tail);
    NothingAround(c.lines);
  }
}
