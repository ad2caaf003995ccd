/** Printing messages in the format of section 2.3.1 of RFC 2812, and parsing them back. */
module MessageFormat {
  import opened Wrappers
  import opened Text
  import opened Sequences
  import opened IrcMessage
  import IrcCommand

  const CRLF := [CR, LF]

  /** Each middle parameter after a space, then the trailing one after " :". */
  function PrintParams(middles: seq<string>, trailing: Option<string>): string {
    if middles != [] then " " + (middles[0] + PrintParams(middles[1..], trailing))
    else if trailing.Some? then " :" + trailing.value
    else ""
  }

  function Print(prefix: Option<string>, cmd: string, middles: seq<string>, trailing: Option<string>): string {
    (if prefix.Some? then ":" + (prefix.value + " ") else "") + (cmd + PrintParams(middles, trailing))
  }

  predicate Clean(s: string) { NUL !in s && CR !in s && LF !in s }

  /** nospcrlfcl, and not starting with a colon. */
  predicate IsMiddle(s: string) { s != [] && Clean(s) && ' ' !in s && s[0] != ':' }

  predicate WellFormed(prefix: Option<string>, cmd: string, middles: seq<string>, trailing: Option<string>) {
    && (prefix.Some? ==> prefix.value != [] && Clean(prefix.value) && ' ' !in prefix.value)
    && IsMiddle(cmd)
    && (forall k | 0 <= k < |middles| :: IsMiddle(middles[k]))
    && (trailing.Some? ==> Clean(trailing.value))
  }

  function AllParams(middles: seq<string>, trailing: Option<string>): seq<string> {
    middles + if trailing.Some? then [trailing.value] else []
  }

  lemma FindInConcat(a: string, b: string, c: char)
    requires c !in a && (b == [] || b[0] == c)
    ensures Find(a + b, c) == |a|
  {
    assert (a + b)[..|a|] == a;
    FindIs(a + b, c, |a|);
  }

  lemma PrintParamsStarts(middles: seq<string>, trailing: Option<string>)
    ensures PrintParams(middles, trailing) == [] || PrintParams(middles, trailing)[0] == ' '
  {}

  lemma ParamsCons(m: string, rest: string)
    requires IsMiddle(m) && (rest == [] || rest[0] == ' ')
    ensures Params(m + rest) == [m] + if rest == [] then [] else Params(rest[1..])
  {
    hide Find;
    FindInConcat(m, rest, ' ');
    assert (m + rest)[..|m|] == m;
    if rest == [] {
      assert m + rest == m;
    } else {
      assert (m + rest)[|m| + 1..] == rest[1..];
    }
  }

  lemma PrintParamsTail(middles: seq<string>, trailing: Option<string>)
    requires middles != []
    ensures PrintParams(middles, trailing) != []
    ensures PrintParams(middles, trailing)[1..] == middles[0] + PrintParams(middles[1..], trailing)
  {
    var x := middles[0] + PrintParams(middles[1..], trailing);
    assert (" " + x)[1..] == x;
  }

  /** Splitting printed parameters gives the parameters. */
  lemma {:induction false} ParamsOfPrinted(middles: seq<string>, trailing: Option<string>)
    requires forall k | 0 <= k < |middles| :: IsMiddle(middles[k])
    requires PrintParams(middles, trailing) != []
    ensures Params(PrintParams(middles, trailing)[1..]) == AllParams(middles, trailing)
  {
    if middles != [] {
      hide *;
      var m, rest := middles[0], PrintParams(middles[1..], trailing);
      PrintParamsTail(middles, trailing);
      PrintParamsStarts(middles[1..], trailing);
      assert IsMiddle(m);
      ParamsCons(m, rest);
      AllParamsStep(middles, trailing);
      if rest != [] { ParamsOfPrinted(middles[1..], trailing); }
      else { NoParamsLeft(middles[1..], trailing); }
    } else {
      var s := PrintParams(middles, trailing)[1..];
      assert s == ":" + trailing.value;
      assert s[1..] == trailing.value;
    }
  }

  lemma AllParamsStep(middles: seq<string>, trailing: Option<string>)
    requires middles != []
    ensures AllParams(middles, trailing) == [middles[0]] + AllParams(middles[1..], trailing)
  {}

  lemma NoParamsLeft(middles: seq<string>, trailing: Option<string>)
    requires PrintParams(middles, trailing) == []
    ensures AllParams(middles, trailing) == []
  {}

  lemma CleanConcat(a: string, b: string)
    ensures Clean(a + b) == (Clean(a) && Clean(b))
  {}

  lemma {:induction false} PrintParamsClean(middles: seq<string>, trailing: Option<string>)
    requires forall k | 0 <= k < |middles| :: IsMiddle(middles[k])
    requires trailing.Some? ==> Clean(trailing.value)
    ensures Clean(PrintParams(middles, trailing))
  {
    if middles != [] {
      PrintParamsClean(middles[1..], trailing);
      assert IsMiddle(middles[0]);
      CleanConcat(middles[0], PrintParams(middles[1..], trailing));
      CleanConcat(" ", middles[0] + PrintParams(middles[1..], trailing));
    } else if trailing.Some? {
      CleanConcat(" :", trailing.value);
    }
  }

  /** What the parser should find in a printed message. */
  function Intended(prefix: Option<string>, cmd: string, middles: seq<string>, trailing: Option<string>): Message {
    var raw := PrintParams(middles, trailing);
    Message(prefix, cmd, IrcCommand.Parse(cmd), AllParams(middles, trailing), if raw == [] then None else Some(raw[1..]))
  }

  lemma ParsePrintedCommand(prefix: Option<string>, cmd: string, middles: seq<string>, trailing: Option<string>)
    requires WellFormed(prefix, cmd, middles, trailing)
    ensures ParseCommand(prefix, cmd + PrintParams(middles, trailing)) == Intended(prefix, cmd, middles, trailing)
  {
    hide IrcCommand.Parse, Params, Find, CStr;
    var raw := PrintParams(middles, trailing);
    var s := cmd + raw;
    PrintParamsStarts(middles, trailing);
    FindInConcat(cmd, raw, ' ');
    assert s[..|cmd|] == cmd;
    CStrClean(cmd);
    if raw == [] {
      assert s == cmd;
    } else {
      assert s[|cmd| + 1..] == raw[1..];
      PrintParamsClean(middles, trailing);
      assert Clean(raw[1..]);
      CStrClean(raw[1..]);
      ParamsOfPrinted(middles, trailing);
      assert raw[1..] != [] by {
        assert middles != [] ==> IsMiddle(middles[0]);
      }
    }
  }

  /** Parsing a printed line returns its parts. */
  lemma ParsePrinted(prefix: Option<string>, cmd: string, middles: seq<string>, trailing: Option<string>)
    requires WellFormed(prefix, cmd, middles, trailing)
    ensures ParseLine(Print(prefix, cmd, middles, trailing)) == Intended(prefix, cmd, middles, trailing)
  {
    hide ParseCommand, IrcCommand.Parse, Find, CStr, PrintParams;
    var body := cmd + PrintParams(middles, trailing);
    var line := Print(prefix, cmd, middles, trailing);
    ParsePrintedCommand(prefix, cmd, middles, trailing);
    if prefix.Some? {
      var s := prefix.value + " " + body;
      assert line[1..] == s;
      assert s == prefix.value + (" " + body);
      FindInConcat(prefix.value, " " + body, ' ');
      assert s[..|prefix.value|] == prefix.value;
      CStrClean(prefix.value);
      assert s[|prefix.value| + 1..] == body;
    } else {
      assert line == body;
      assert line[0] == cmd[0];
    }
  }

  lemma PrintClean(prefix: Option<string>, cmd: string, middles: seq<string>, trailing: Option<string>)
    requires WellFormed(prefix, cmd, middles, trailing)
    ensures Clean(Print(prefix, cmd, middles, trailing)) && Print(prefix, cmd, middles, trailing) != []
  {
    PrintParamsClean(middles, trailing);
    var body := cmd + PrintParams(middles, trailing);
    CleanConcat(cmd, PrintParams(middles, trailing));
    if prefix.Some? {
      CleanConcat(prefix.value, " ");
      CleanConcat(":", prefix.value + " ");
      CleanConcat(":" + (prefix.value + " "), body);
    }
  }

  lemma FindCrlfAfter(line: string, rest: string)
    requires CR !in line
    ensures FindCrlf(line + CRLF + rest) == |line|
  {
    var s := line + CRLF + rest;
    forall i | 0 <= i < |line| ensures !CrlfAt(s, i) {
      assert s[i] == line[i];
    }
    FindCrlfIs(s, |line|);
  }

  /** Parser/printer round trip: wherever a printed message stands in the buffer, one call of IrcMessage_create
      returns its parts and moves the position just past its CR LF. */
  lemma RoundTrip(prefix: Option<string>, cmd: string, middles: seq<string>, trailing: Option<string>, rest: string)
    requires WellFormed(prefix, cmd, middles, trailing)
    ensures var line := Print(prefix, cmd, middles, trailing);
            Scan(line + CRLF + rest) == (Some(Intended(prefix, cmd, middles, trailing)), |line| + 2)
  {
    hide ParseLine, FindCrlf, Print, Intended;
    var line := Print(prefix, cmd, middles, trailing);
    PrintClean(prefix, cmd, middles, trailing);
    FindCrlfAfter(line, rest);
    assert (line + CRLF + rest)[..|line|] == line;
    ParsePrinted(prefix, cmd, middles, trailing);
  }

  /** The grammar also lets the parameter after fourteen middle ones go without its colon, spaces and all. The parser
      has no such rule: it gets that parameter back exactly if it has no space and no colon in front. */
  lemma TrailingWithoutColon(middles: seq<string>, trailing: string)
    requires |middles| == 14 && (forall k | 0 <= k < 14 :: IsMiddle(middles[k])) && Clean(trailing)
    ensures Params(PrintParams(middles + [trailing], None)[1..]) == middles + [trailing]
            <==> ' ' !in trailing && (trailing == [] || trailing[0] != ':')
  {
    ParamsOfMiddles(middles, trailing);
    assert Params(trailing) == [trailing] <==> ' ' !in trailing && (trailing == [] || trailing[0] != ':') by {
      if trailing == [] || trailing[0] != ':' {
        assert trailing[..|trailing|] == trailing;
        if ' ' !in trailing { FindIs(trailing, ' ', |trailing|); }
      }
    }
    if Params(PrintParams(middles + [trailing], None)[1..]) == middles + [trailing] {
      assert (middles + Params(trailing))[14..] == Params(trailing);
      assert (middles + [trailing])[14..] == [trailing];
    }
  }

  lemma LastMiddle(last: string)
    ensures PrintParams([last], None) != [] && PrintParams([last], None)[1..] == last
  {
    PrintParamsTail([last], None);
    assert PrintParams([last][1..], None) == [];
  }

  lemma {:induction false} ParamsOfMiddles(middles: seq<string>, last: string)
    requires forall k | 0 <= k < |middles| :: IsMiddle(middles[k])
    ensures PrintParams(middles + [last], None) != []
    ensures Params(PrintParams(middles + [last], None)[1..]) == middles + Params(last)
  {
    hide *;
    var ms := middles + [last];
    if middles == [] {
      LastMiddle(last);
      assert ms == [last];
      assert middles + Params(last) == Params(last);
    } else {
      var m := middles[0];
      var rest := PrintParams(ms[1..], None);
      assert ms[0] == m && ms[1..] == middles[1..] + [last];
      PrintParamsTail(ms, None);
      ParamsOfMiddles(middles[1..], last);
      PrintParamsStarts(ms[1..], None);
      assert IsMiddle(m);
      ParamsCons(m, rest);
      assert middles + Params(last) == [m] + (middles[1..] + Params(last));
    }
  }

  // ---------- every line, well-formed or not ----------

  /** Parameters with single spaces between them, and a colon in front of the last one. */
  function Unsplit(params: seq<string>, colon: bool): string
    requires params != []
  {
    if |params| > 1 then params[0] + (" " + Unsplit(params[1..], colon))
    else (if colon then ":" else "") + params[0]
  }

  /** No parameter has a space or starts with a colon, the last one apart if a colon was in front of it. */
  predicate SplitWell(params: seq<string>, colon: bool) {
    forall k | 0 <= k < |params| - (if colon then 1 else 0) ::
      ' ' !in params[k] && (params[k] == [] || params[k][0] != ':')
  }

  /** The parameters of any string are the one way to split it up like that. */
  lemma {:induction false} ParamsBack(s: string) returns (colon: bool)
    ensures Params(s) != [] && SplitWell(Params(s), colon) && s == Unsplit(Params(s), colon)
    decreases |s|
  {
    ParamsStep(s);
    if s != [] && s[0] == ':' {
      colon := true;
      LastParam(s[1..], true);
      assert s == ":" + s[1..];
    } else {
      var k := Find(s, ' ');
      var first := s[..k];
      assert ' ' !in first && (first == [] || first[0] != ':');
      if k == |s| {
        colon := false;
        LastParam(s, false);
        assert first == s && [s] + [] == [s];
      } else {
        var rest := s[k + 1..];
        colon := ParamsBack(rest);
        assert s[k] == ' ';
        hide *;
        AroundSpace(s, k);
        SplitWellCons(first, Params(rest), colon);
        UnsplitCons(first, Params(rest), colon);
      }
    }
  }

  lemma LastParam(last: string, colon: bool)
    requires !colon ==> ' ' !in last && (last == [] || last[0] != ':')
    ensures SplitWell([last], colon) && Unsplit([last], colon) == if colon then ":" + last else last
  {
    NothingAround(last);
  }

  lemma AroundSpace(s: string, k: nat)
    requires k < |s| && s[k] == ' '
    ensures s == s[..k] + (" " + s[k + 1..])
  {}

  lemma SplitWellCons(first: string, more: seq<string>, colon: bool)
    requires ' ' !in first && (first == [] || first[0] != ':') && more != [] && SplitWell(more, colon)
    ensures SplitWell([first] + more, colon)
  {
    var params := [first] + more;
    forall k | 0 <= k < |params| - (if colon then 1 else 0)
      ensures ' ' !in params[k] && (params[k] == [] || params[k][0] != ':')
    {
      if k > 0 { assert params[k] == more[k - 1]; }
    }
  }

  lemma UnsplitCons(first: string, more: seq<string>, colon: bool)
    requires more != []
    ensures Unsplit([first] + more, colon) == first + (" " + Unsplit(more, colon))
  {
    TailOfCons(first, more);
  }

  /** What stands in front of the command: a colon, the prefix, and a space if there is `more`. */
  function PrintPrefix(prefix: Option<string>, more: bool): string {
    ":" + ((if prefix.Some? then prefix.value else "") + if more then " " else "")
  }

  /** The command, and behind a space the parameters as they stood there, or nothing. */
  function PrintRest(m: Message, space: bool): string {
    m.rawCmd + if m.rawParams.Some? then " " + m.rawParams.value else if space then " " else ""
  }

  /** Command and raw parameters are all of `s`, in their places, and the parameters are all of the raw ones. */
  predicate IsAllOf(m: Message, s: string, space: bool, colon: bool) {
    && s == PrintRest(m, space) && ' ' !in m.rawCmd && m.command == IrcCommand.Parse(m.rawCmd)
    && if m.rawParams.None? then m.params == []
       else m.rawParams.value != [] && m.params != [] && SplitWell(m.params, colon)
            && m.rawParams.value == Unsplit(m.params, colon)
  }

  lemma RestBack(prefix: Option<string>, s: string) returns (space: bool, colon: bool)
    requires NUL !in s
    ensures ParseCommand(prefix, s).prefix == prefix && IsAllOf(ParseCommand(prefix, s), s, space, colon)
  {
    var k := Find(s, ' ');
    var cmd, rest := s[..k], if k < |s| then s[k + 1..] else [];
    space, colon := k < |s|, false;
    CStrClean(cmd);
    CStrClean(rest);
    hide Params, Find, CStr, IrcCommand.Parse;
    if k < |s| { AroundSpace(s, k); } else { NothingAround(s); }
    if rest != [] { colon := ParamsBack(rest); }
  }

  /** From what the parser makes of any line without a NUL the line can be put together again: nothing of it is lost. */
  lemma LineBack(line: string) returns (rest: string, space: bool, colon: bool)
    requires NUL !in line
    ensures var m := ParseLine(line);
            && IsAllOf(m, rest, space, colon)
            && if line != [] && line[0] == ':' then
                 && (line == PrintPrefix(m.prefix, true) + rest || (line == PrintPrefix(m.prefix, false) && rest == []))
                 && (m.prefix.Some? ==> m.prefix.value != [] && ' ' !in m.prefix.value)
               else m.prefix.None? && line == rest
  {
    if line != [] && line[0] == ':' {
      var prefix;
      prefix, rest := PrefixAndRest(line);
      hide *;
      space, colon := RestBack(prefix, rest);
    } else {
      rest := line;
      assert ParseLine(line) == ParseCommand(None, line);
      hide *;
      space, colon := RestBack(None, line);
    }
  }

  lemma PrefixAndRest(line: string) returns (prefix: Option<string>, rest: string)
    requires NUL !in line && line != [] && line[0] == ':'
    ensures NUL !in rest && ParseLine(line) == ParseCommand(prefix, rest)
    ensures line == PrintPrefix(prefix, true) + rest || (line == PrintPrefix(prefix, false) && rest == [])
    ensures prefix.Some? ==> prefix.value != [] && ' ' !in prefix.value
  {
    hide ParseCommand, CStr, PrintPrefix;
    var s := line[1..];
    var k := Find(s, ' ');
    prefix := if k == 0 then None else Some(CStr(s[..k]));
    rest := if k < |s| then s[k + 1..] else [];
    assert ParseLine(line) == ParseCommand(prefix, rest);
    assert ' ' !in s[..k] && (k < |s| ==> s[k] == ' ');
    hide *;
    CleanParts(line, k);
    CStrClean(s[..k]);
    PrefixBack(line, k, rest);
    NothingAround(PrintPrefix(prefix, false));
  }

  lemma CleanParts(line: string, k: nat)
    requires NUL !in line && k < |line|
    ensures NUL !in line[1..][..k] && (k + 1 < |line| ==> NUL !in line[1..][k + 1..])
  {}

  lemma PrefixBack(line: string, k: nat, rest: string)
    requires line != [] && line[0] == ':' && k <= |line| - 1 && (k < |line| - 1 ==> line[k + 1] == ' ')
    requires rest == if k < |line| - 1 then line[k + 2..] else []
    ensures var prefix := if k == 0 then None else Some(line[1..][..k]);
            line == PrintPrefix(prefix, k < |line| - 1) + rest
  {
    assert line[1..][..k] == line[1..k + 1];
    assert line[..k + 1] == [':'] + line[1..k + 1];
    if k < |line| - 1 { assert line == (line[..k + 1] + " ") + line[k + 2..]; }
  }

  lemma {:induction false} ParamsAreCStrings(s: string)
    requires NUL !in s
    ensures forall k | 0 <= k < |Params(s)| :: NUL !in Params(s)[k]
    decreases |s|
  {
    hide Find;
    ParamsStep(s);
    var k := Find(s, ' ');
    if (s == [] || s[0] != ':') && k < |s| { ParamsAreCStrings(s[k + 1..]); }
  }

  lemma CStrHasNoNul(s: string)
    ensures NUL !in CStr(s)
  {}

  lemma RestIsCStrings(prefix: Option<string>, s: string)
    ensures var m := ParseCommand(prefix, s);
            && NUL !in m.rawCmd && (m.rawParams.Some? ==> NUL !in m.rawParams.value)
            && forall k | 0 <= k < |m.params| :: NUL !in m.params[k]
  {
    hide CStr, Params, Find, IrcCommand.Parse;
    var k := Find(s, ' ');
    var rest := if k < |s| then s[k + 1..] else [];
    CStrHasNoNul(s[..k]);
    CStrHasNoNul(rest);
    ParamsAreCStrings(CStr(rest));
  }

  /** And if there is a NUL in a line, no part of the message goes beyond it. */
  lemma PartsAreCStrings(line: string)
    ensures var m := ParseLine(line);
            && NUL !in m.rawCmd && (m.prefix.Some? ==> NUL !in m.prefix.value)
            && (m.rawParams.Some? ==> NUL !in m.rawParams.value)
            && forall k | 0 <= k < |m.params| :: NUL !in m.params[k]
  {
    hide CStr, Params, Find, IrcCommand.Parse;
    if line != [] && line[0] == ':' {
      var s := line[1..];
      var k := Find(s, ' ');
      CStrHasNoNul(s[..k]);
      assert ParseLine(line) == ParseCommand(if k == 0 then None else Some(CStr(s[..k])), if k < |s| then s[k + 1..] else []);
      hide ParseLine;
      RestIsCStrings(if k == 0 then None else Some(CStr(s[..k])), if k < |s| then s[k + 1..] else []);
      hide *;
    } else {
      RestIsCStrings(None, line);
    }
  }
}
