/** The IRC message parser of ircmessage.c. */
module IrcMessage {
  import opened Wrappers
  import opened Text
  import IrcCommand

  /** What the accessors of IrcMessage show; absent strings are NULL pointers. */
  datatype Message = Message(
    prefix: Option<string>, rawCmd: string, command: IrcCommand.Command,
    params: seq<string>, rawParams: Option<string>)

  // ---------- what a line means ----------

  /** Parameters are separated by single spaces; one that starts with ':' takes the rest of the line. */
  function Params(s: string): seq<string>
    decreases |s|
  {
    if s != [] && s[0] == ':' then [s[1..]]
    else
      var k := Find(s, ' ');
      if k == |s| then [s] else [s[..k]] + Params(s[k + 1..])
  }

  function ParseCommand(prefix: Option<string>, s: string): Message {
    var k := Find(s, ' ');
    var rest := if k < |s| then s[k + 1..] else [];
    var cmd := CStr(s[..k]);
    if rest == [] then Message(prefix, cmd, IrcCommand.Parse(cmd), [], None)
    else Message(prefix, cmd, IrcCommand.Parse(cmd), Params(CStr(rest)), Some(CStr(rest)))
  }

  function ParseLine(line: string): Message {
    if line != [] && line[0] == ':' then
      var s := line[1..];
      var k := Find(s, ' ');
      ParseCommand(if k == 0 then None else Some(CStr(s[..k])), if k < |s| then s[k + 1..] else [])
    else ParseCommand(None, line)
  }

  /** One call of IrcMessage_create on the bytes from `*pos` on: the message, if any, and how far `*pos` moves. */
  function Scan(s: string): (Option<Message>, nat) {
    var e := FindCrlf(s);
    if e == |s| then (None, 0) else if e == 0 then (None, 2) else (Some(ParseLine(s[..e])), e + 2)
  }

  // ---------- the code ----------

  /** The CRLF scan (24-32); the sentinel (uint16_t)-1 stands for "not found". */
  method FindEnd(buf: array<char>, size: nat, pos: nat) returns (endpos: nat)
    requires size <= buf.Length && size < 0x10000 && pos <= size
    ensures endpos == (if FindCrlf(buf[pos..size]) == size - pos then 0xffff else pos + FindCrlf(buf[pos..size]))
    ensures endpos == 0xffff || endpos + 2 <= size
  {
    ghost var view := buf[pos..size];
    var s := pos;
    while s < size - 1
      invariant pos <= s <= size && (s < size || pos == size)
      invariant forall i | 0 <= i < s - pos :: !CrlfAt(view, i)
    {
      assert CrlfAt(view, s - pos) == (buf[s] == CR && buf[s + 1] == LF);
      if buf[s] == CR && buf[s + 1] == LF {
        FindCrlfIs(view, s - pos);
        return s;
      }
      s := s + 1;
    }
    FindCrlfIs(view, |view|);
    endpos := 0xffff;
  }

  /** The loops that look for the next space (51-54, 67-70). */
  method FindSpace(buf: array<char>, from: nat, end: nat) returns (e: nat)
    requires from <= end <= buf.Length
    ensures from <= e <= end && e == from + Find(buf[from..end], ' ')
  {
    ghost var view := buf[from..end];
    e := from;
    while e < end
      invariant from <= e <= end && ' ' !in view[..e - from]
    {
      if buf[e] == ' ' { break; }
      assert view[..e + 1 - from] == view[..e - from] + [buf[e]];
      e := e + 1;
    }
    FindIs(view, ' ', e - from);
  }

  /** A C string that reaches its end before a space is one token. */
  lemma LastToken(tail: string, k: nat)
    requires k < |tail| && tail[k] == NUL && NUL !in tail[..k] && ' ' !in tail[..k]
    ensures CStr(tail) == tail[..k] && Find(CStr(tail), ' ') == k
  {
    FindIs(tail, NUL, k);
    FindIs(tail[..k], ' ', k);
  }

  /** A space before the end of a C string ends its first token. */
  lemma FirstToken(tail: string, k: nat)
    requires k < |tail| && tail[k] == ' ' && NUL !in tail[..k] && ' ' !in tail[..k] && NUL in tail
    ensures var s := CStr(tail);
            k < |s| && Find(s, ' ') == k && s[..k] == tail[..k] && s[k + 1..] == CStr(tail[k + 1..])
    ensures NUL in tail[k + 1..]
  {
    var n := Find(tail, NUL);
    assert k < n by {
      assert tail[n] == NUL && tail[k] != NUL;
      assert forall i | 0 <= i < k :: tail[i] in tail[..k];
    }
    assert tail[..n][..k] == tail[..k];
    FindIs(tail[..n], ' ', k);
    assert tail[k + 1..][n - k - 1] == NUL;
    assert tail[k + 1..][..n - k - 1] == tail[..n][k + 1..];
    FindIs(tail[k + 1..], NUL, n - k - 1);
  }

  /** The end of the token at `p`: the next space or the end of the string. */
  method TokenEnd(raw: array<char>, p: nat) returns (e: nat)
    requires p < raw.Length && raw[raw.Length - 1] == NUL
    ensures p <= e < raw.Length && (raw[e] == NUL || raw[e] == ' ')
    ensures NUL !in raw[p..e] && ' ' !in raw[p..e]
  {
    e := p;
    while raw[e] != NUL && raw[e] != ' '
      invariant p <= e < raw.Length
      invariant NUL !in raw[p..e] && ' ' !in raw[p..e]
      decreases raw.Length - e
    {
      assert raw[p..e + 1] == raw[p..e] + [raw[e]];
      e := e + 1;
    }
  }

  /** strsep(&p, " ") on the NUL-terminated bytes of `raw`: cuts the token off in place. */
  method StrSep(raw: array<char>, p: nat) returns (token: string, next: Option<nat>)
    requires p < raw.Length && raw[raw.Length - 1] == NUL
    modifies raw
    ensures raw[raw.Length - 1] == NUL
    ensures var s := old(CStr(raw[p..])); var k := Find(s, ' ');
            && token == s[..k]
            && (k == |s| ==> next.None?)
            && (k < |s| ==> next == Some(p + k + 1) && p + k + 1 < raw.Length && s[k + 1..] == CStr(raw[p + k + 1..]))
  {
    hide Find, CStr;
    ghost var tail := raw[p..];
    assert tail[|tail| - 1] == NUL;
    var e := TokenEnd(raw, p);
    token := raw[p..e];
    assert token == tail[..e - p] && raw[e] == tail[e - p];
    if raw[e] == NUL {
      LastToken(tail, e - p);
      next := None;
    } else {
      FirstToken(tail, e - p);
      assert raw[e + 1..] == tail[e - p + 1..];
      raw[e] := NUL;
      assert raw[e + 1..] == tail[e - p + 1..];
      next := Some(e + 1);
    }
  }

  /** One turn of the parameter loop (86-91). */
  method NextParam(raw: array<char>, p: nat) returns (param: string, next: Option<nat>)
    requires p < raw.Length && raw[raw.Length - 1] == NUL
    modifies raw
    ensures raw[raw.Length - 1] == NUL && (next.Some? ==> p < next.value < raw.Length)
    ensures Params(old(CStr(raw[p..]))) == [param] + if next.Some? then Params(CStr(raw[next.value..])) else []
  {
    hide Find, Params, CStr;
    ghost var s := CStr(raw[p..]);
    CStrStep(raw[p..]);
    ParamsStep(s);
    if raw[p] == ':' {
      assert raw[p..][1..] == raw[p + 1..];
      param := CStr(raw[p + 1..]);
      next := None;
    } else {
      param, next := StrSep(raw, p);
    }
  }

  /** The parameter loop (84-92). It leaves `raw` cut into pieces. */
  method SplitParams(raw: array<char>) returns (params: seq<string>)
    requires raw.Length > 0 && raw[raw.Length - 1] == NUL
    modifies raw
    ensures params == Params(old(CStr(raw[..])))
    ensures raw[raw.Length - 1] == NUL
  {
    hide Find, Params, CStr;
    params := [];
    ghost var whole := Params(CStr(raw[..]));
    var p := Some(0);
    assert raw[0..] == raw[..];
    while p.Some?
      invariant p.Some? ==> p.value < raw.Length
      invariant raw[raw.Length - 1] == NUL
      invariant whole == params + if p.Some? then Params(CStr(raw[p.value..])) else []
      decreases if p.Some? then raw.Length - p.value else 0
    {
      var param;
      param, p := NextParam(raw, p.value);
      params := params + [param];
    }
  }

  lemma ParamsStep(s: string)
    ensures s != [] && s[0] == ':' ==> Params(s) == [s[1..]]
    ensures s == [] || s[0] != ':' ==>
      var k := Find(s, ' ');
      Params(s) == [s[..k]] + if k == |s| then [] else Params(s[k + 1..])
  {
    assert s[..|s|] == s;
  }

  lemma CStrStep(s: string)
    requires s != [] && NUL in s
    ensures s[0] == NUL ==> CStr(s) == []
    ensures s[0] != NUL ==> CStr(s) == [s[0]] + CStr(s[1..])
  {}

  /** memcpy(dst, buf + from, n). */
  method CopyBytes(dst: array<char>, buf: array<char>, from: nat, n: nat)
    requires dst != buf && from + n <= buf.Length && n <= dst.Length
    modifies dst
    ensures dst[..n] == buf[from..from + n] && dst[n..] == old(dst[n..])
  {
    var i := 0;
    while i < n
      invariant i <= n && dst[..i] == buf[from..from + i] && dst[n..] == old(dst[n..])
    {
      dst[i] := buf[from + i];
      assert dst[..i + 1] == dst[..i] + [dst[i]];
      assert buf[from..from + i + 1] == buf[from..from + i] + [buf[from + i]];
      i := i + 1;
    }
  }

  /** rawParams and params (79-95): copied, cut in place while splitting, then restored. */
  method TakeParams(buf: array<char>, from: nat, n: nat) returns (params: seq<string>, rawParams: string)
    requires 0 < n && from + n <= buf.Length
    ensures params == Params(CStr(buf[from..from + n])) && rawParams == CStr(buf[from..from + n])
  {
    var raw := new char[n + 1](_ => NUL);
    CopyBytes(raw, buf, from, n);
    assert raw[n..] == [NUL];
    CStrTerminated(raw[..], n);
    assert raw[..][..n] == raw[..n];
    params := SplitParams(raw);
    CopyBytes(raw, buf, from, n);
    assert raw[n] == NUL;
    CStrTerminated(raw[..], n);
    assert raw[..][..n] == raw[..n];
    rawParams := CStr(raw[..]);
  }

  lemma CStrTerminated(s: string, n: nat)
    requires |s| == n + 1 && s[n] == NUL
    ensures CStr(s) == CStr(s[..n])
  {
    var k := Find(s[..n], NUL);
    assert s[..k] == s[..n][..k];
    FindIs(s, NUL, k);
  }

  /** The optional prefix (48-65); `buf[endpos]` is the CR that ends the line. */
  method TakePrefix(buf: array<char>, from: nat, endpos: nat) returns (prefix: Option<string>, currpos: nat)
    requires from < endpos < buf.Length && buf[endpos] == CR
    ensures from <= currpos <= endpos
    ensures ParseLine(buf[from..endpos]) == ParseCommand(prefix, buf[currpos..endpos])
  {
    hide IrcCommand.Parse, ParseCommand, Find, CStr;
    ghost var line := buf[from..endpos];
    prefix, currpos := None, from;
    if buf[currpos] == ':' {
      currpos := currpos + 1;
      ghost var s := buf[currpos..endpos];
      assert line[1..] == s;
      var e := FindSpace(buf, currpos, endpos);
      ghost var k := e - currpos;
      assert s[..k] == buf[currpos..e];
      assert e < endpos ==> s[k + 1..] == buf[e + 1..endpos];
      if e > currpos { prefix := Some(CStr(buf[currpos..e])); }
      currpos := e;
      if buf[currpos] == ' ' { currpos := currpos + 1; }
      assert k == |s| ==> buf[currpos..endpos] == [];
    }
  }

  /** Command and parameters (67-95). */
  method TakeCommand(buf: array<char>, from: nat, endpos: nat, prefix: Option<string>) returns (msg: Message)
    requires from <= endpos < buf.Length && buf[endpos] == CR
    ensures msg == ParseCommand(prefix, buf[from..endpos])
  {
    hide IrcCommand.Parse, Find, CStr, Params;
    ghost var s := buf[from..endpos];
    var e := FindSpace(buf, from, endpos);
    assert s[..e - from] == buf[from..e];
    assert e < endpos ==> s[e - from + 1..] == buf[e + 1..endpos];
    var rawCmd := CStr(buf[from..e]);
    var command := IrcCommand.Parse(rawCmd);
    var currpos := e;
    if buf[currpos] == ' ' { currpos := currpos + 1; }
    if currpos < endpos {
      var params, rawParams := TakeParams(buf, currpos, endpos - currpos);
      msg := Message(prefix, rawCmd, command, params, Some(rawParams));
    } else {
      msg := Message(prefix, rawCmd, command, [], None);
    }
  }

  /** IrcMessage_create (21-98). */
  method Create(buf: array<char>, size: nat, pos: nat) returns (msg: Option<Message>, newpos: nat)
    requires size <= buf.Length && size < 0x10000 && pos <= size
    ensures newpos == pos || pos + 2 <= newpos <= size
    ensures (msg, newpos - pos) == Scan(buf[pos..size])
  {
    var endpos := FindEnd(buf, size, pos);
    if endpos == 0xffff { return None, pos; }
    if endpos == pos { return None, endpos + 2; }
    ghost var e := endpos - pos;
    assert CrlfAt(buf[pos..size], e);
    assert buf[pos..size][..e] == buf[pos..endpos];
    newpos := endpos + 2;
    var prefix, currpos := TakePrefix(buf, pos, endpos);
    var m := TakeCommand(buf, currpos, endpos, prefix);
    msg := Some(m);
  }
}
