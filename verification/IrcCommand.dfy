/** Command names and numeric replies (irccommand.c, include/ircbot/irccommand.h). */
module IrcCommand {
  import opened Wrappers

  /** The C enum; its values are plain integers. */
  type Command = int

  const CMD_UNKNOWN: Command := 0
  const MSG_PASS: Command := 100
  const MSG_NICK: Command := 101
  const MSG_USER: Command := 102
  const MSG_OPER: Command := 103
  const MSG_MODE: Command := 104
  const MSG_SERVICE: Command := 105
  const MSG_QUIT: Command := 106
  const MSG_SQUIT: Command := 107
  const MSG_JOIN: Command := 108
  const MSG_PART: Command := 109
  const MSG_TOPIC: Command := 110
  const MSG_NAMES: Command := 111
  const MSG_LIST: Command := 112
  const MSG_INVITE: Command := 113
  const MSG_KICK: Command := 114
  const MSG_PRIVMSG: Command := 115
  const MSG_NOTICE: Command := 116
  const MSG_MOTD: Command := 117
  const MSG_LUSERS: Command := 118
  const MSG_VERSION: Command := 119
  const MSG_STATS: Command := 120
  const MSG_LINKS: Command := 121
  const MSG_TIME: Command := 122
  const MSG_CONNECT: Command := 123
  const MSG_TRACE: Command := 124
  const MSG_ADMIN: Command := 125
  const MSG_INFO: Command := 126
  const MSG_SERVLIST: Command := 127
  const MSG_SQUERY: Command := 128
  const MSG_WHO: Command := 129
  const MSG_WHOIS: Command := 130
  const MSG_WHOWAS: Command := 131
  const MSG_KILL: Command := 132
  const MSG_PING: Command := 133
  const MSG_PONG: Command := 134
  const MSG_ERROR: Command := 135
  const MSG_AWAY: Command := 136
  const MSG_REHASH: Command := 137
  const MSG_DIE: Command := 138
  const MSG_RESTART: Command := 139
  const MSG_SUMMON: Command := 140
  const MSG_USERS: Command := 141
  const MSG_WALLOPS: Command := 142
  const MSG_USERHOST: Command := 143
  const MSG_ISON: Command := 144

  /** isdigit. */
  predicate IsDigit(c: char) { '0' <= c <= '9' }

  function Digit(c: char): int
    requires IsDigit(c)
  {
    c as int - '0' as int
  }

  /** The names of the messages, by the letter they start with (18-105). */
  function ParseName(cmd: string): Command {
    if cmd == [] then CMD_UNKNOWN
    else
      match cmd[0]
      case 'A' =>
        if cmd == "ADMIN" then MSG_ADMIN
        else if cmd == "AWAY" then MSG_AWAY
        else CMD_UNKNOWN
      case 'C' =>
        if cmd == "CONNECT" then MSG_CONNECT
        else CMD_UNKNOWN
      case 'D' =>
        if cmd == "DIE" then MSG_DIE
        else CMD_UNKNOWN
      case 'E' =>
        if cmd == "ERROR" then MSG_ERROR
        else CMD_UNKNOWN
      case 'I' =>
        if cmd == "INFO" then MSG_INFO
        else if cmd == "INVITE" then MSG_INVITE
        else if cmd == "ISON" then MSG_ISON
        else CMD_UNKNOWN
      case 'J' =>
        if cmd == "JOIN" then MSG_JOIN
        else CMD_UNKNOWN
      case 'K' =>
        if cmd == "KICK" then MSG_KICK
        else if cmd == "KILL" then MSG_KILL
        else CMD_UNKNOWN
      case 'L' =>
        if cmd == "LINKS" then MSG_LINKS
        else if cmd == "LIST" then MSG_LIST
        else if cmd == "LUSERS" then MSG_LUSERS
        else CMD_UNKNOWN
      case 'M' =>
        if cmd == "MODE" then MSG_MODE
        else if cmd == "MOTD" then MSG_MOTD
        else CMD_UNKNOWN
      case 'N' =>
        if cmd == "NAMES" then MSG_NAMES
        else if cmd == "NICK" then MSG_NICK
        else if cmd == "NOTICE" then MSG_NOTICE
        else CMD_UNKNOWN
      case 'O' =>
        if cmd == "OPER" then MSG_OPER
        else CMD_UNKNOWN
      case 'P' =>
        if cmd == "PASS" then MSG_PASS
        else if cmd == "PART" then MSG_PART
        else if cmd == "PING" then MSG_PING
        else if cmd == "PONG" then MSG_PONG
        else if cmd == "PRIVMSG" then MSG_PRIVMSG
        else CMD_UNKNOWN
      case 'Q' =>
        if cmd == "QUIT" then MSG_QUIT
        else CMD_UNKNOWN
      case 'R' =>
        if cmd == "REHASH" then MSG_REHASH
        else if cmd == "RESTART" then MSG_RESTART
        else CMD_UNKNOWN
      case 'S' =>
        if cmd == "SERVICE" then MSG_SERVICE
        else if cmd == "SERVLIST" then MSG_SERVLIST
        else if cmd == "SQUERY" then MSG_SQUERY
        else if cmd == "SQUIT" then MSG_SQUIT
        else if cmd == "STATS" then MSG_STATS
        else if cmd == "SUMMON" then MSG_SUMMON
        else CMD_UNKNOWN
      case 'T' =>
        if cmd == "TIME" then MSG_TIME
        else if cmd == "TOPIC" then MSG_TOPIC
        else if cmd == "TRACE" then MSG_TRACE
        else CMD_UNKNOWN
      case 'U' =>
        if cmd == "USER" then MSG_USER
        else if cmd == "USERHOST" then MSG_USERHOST
        else if cmd == "USERS" then MSG_USERS
        else CMD_UNKNOWN
      case 'V' =>
        if cmd == "VERSION" then MSG_VERSION
        else CMD_UNKNOWN
      case 'W' =>
        if cmd == "WALLOPS" then MSG_WALLOPS
        else if cmd == "WHO" then MSG_WHO
        else if cmd == "WHOIS" then MSG_WHOIS
        else if cmd == "WHOWAS" then MSG_WHOWAS
        else CMD_UNKNOWN
      case _ => CMD_UNKNOWN
  }

  /** IrcCommand_parse (7-106) on a string without NUL. */
  function Parse(cmd: string): Command {
    if |cmd| == 3 && IsDigit(cmd[0]) && IsDigit(cmd[1]) && IsDigit(cmd[2]) then
      var n := 100 * Digit(cmd[0]) + 10 * Digit(cmd[1]) + Digit(cmd[2]);
      if (n > 99 && n < 200) || Str(n).None? then CMD_UNKNOWN else n
    else ParseName(cmd)
  }

  /** IrcCommand_str (108-324), its table cut into short ones. */
  function Str(c: Command): (s: Option<string>) {
    if c < 100 then Str0(c)
    else if c < 200 then StrMsg(c)
    else StrReply(c)
  }

  function StrMsg(c: Command): Option<string> {
    if c < 112 then Msg100(c)
    else if c < 124 then Msg112(c)
    else if c < 136 then Msg124(c)
    else Msg136(c)
  }

  function StrReply(c: Command): Option<string> {
    if c < 220 then Reply200(c)
    else if c < 250 then Reply220(c)
    else if c < 300 then Reply250(c)
    else if c < 320 then Reply300(c)
    else if c < 350 then Reply320(c)
    else if c < 370 then Reply350(c)
    else if c < 400 then Reply370(c)
    else if c < 425 then Reply400(c)
    else if c < 465 then Reply425(c)
    else if c < 480 then Reply465(c)
    else Reply480(c)
  }

  function Str0(c: Command): Option<string> {
    match c
    case 1 => Some("001")
    case 2 => Some("002")
    case 3 => Some("003")
    case 4 => Some("004")
    case 5 => Some("005")
    case _ => None
  }

  function Msg100(c: Command): Option<string> {
    match c
    case 100 => Some("PASS")
    case 101 => Some("NICK")
    case 102 => Some("USER")
    case 103 => Some("OPER")
    case 104 => Some("MODE")
    case 105 => Some("SERVICE")
    case 106 => Some("QUIT")
    case 107 => Some("SQUIT")
    case 108 => Some("JOIN")
    case 109 => Some("PART")
    case 110 => Some("TOPIC")
    case 111 => Some("NAMES")
    case _ => None
  }

  function Msg112(c: Command): Option<string> {
    match c
    case 112 => Some("LIST")
    case 113 => Some("INVITE")
    case 114 => Some("KICK")
    case 115 => Some("PRIVMSG")
    case 116 => Some("NOTICE")
    case 117 => Some("MOTD")
    case 118 => Some("LUSERS")
    case 119 => Some("VERSION")
    case 120 => Some("STATS")
    case 121 => Some("LINKS")
    case 122 => Some("TIME")
    case 123 => Some("CONNECT")
    case _ => None
  }

  function Msg124(c: Command): Option<string> {
    match c
    case 124 => Some("TRACE")
    case 125 => Some("ADMIN")
    case 126 => Some("INFO")
    case 127 => Some("SERVLIST")
    case 128 => Some("SQUERY")
    case 129 => Some("WHO")
    case 130 => Some("WHOIS")
    case 131 => Some("WHOWAS")
    case 132 => Some("KILL")
    case 133 => Some("PING")
    case 134 => Some("PONG")
    case 135 => Some("ERROR")
    case _ => None
  }

  function Msg136(c: Command): Option<string> {
    match c
    case 136 => Some("AWAY")
    case 137 => Some("REHASH")
    case 138 => Some("DIE")
    case 139 => Some("RESTART")
    case 140 => Some("SUMMON")
    case 141 => Some("USERS")
    case 142 => Some("WALLOPS")
    case 143 => Some("USERHOST")
    case 144 => Some("ISON")
    case _ => None
  }

  function Reply200(c: Command): Option<string> {
    match c
    case 200 => Some("200")
    case 201 => Some("201")
    case 202 => Some("202")
    case 203 => Some("203")
    case 204 => Some("204")
    case 205 => Some("205")
    case 206 => Some("206")
    case 207 => Some("207")
    case 208 => Some("208")
    case 209 => Some("209")
    case 210 => Some("210")
    case 211 => Some("211")
    case 212 => Some("212")
    case 213 => Some("213")
    case 214 => Some("214")
    case 215 => Some("215")
    case 216 => Some("216")
    case 217 => Some("217")
    case 218 => Some("218")
    case 219 => Some("219")
    case _ => None
  }

  function Reply220(c: Command): Option<string> {
    match c
    case 221 => Some("221")
    case 231 => Some("231")
    case 232 => Some("232")
    case 233 => Some("233")
    case 234 => Some("234")
    case 235 => Some("235")
    case 240 => Some("240")
    case 241 => Some("241")
    case 242 => Some("242")
    case 243 => Some("243")
    case 244 => Some("244")
    case 245 => Some("245")
    case 246 => Some("246")
    case 247 => Some("247")
    case _ => None
  }

  function Reply250(c: Command): Option<string> {
    match c
    case 250 => Some("250")
    case 251 => Some("251")
    case 252 => Some("252")
    case 253 => Some("253")
    case 254 => Some("254")
    case 255 => Some("255")
    case 256 => Some("256")
    case 257 => Some("257")
    case 258 => Some("258")
    case 259 => Some("259")
    case 261 => Some("261")
    case 262 => Some("262")
    case 263 => Some("263")
    case _ => None
  }

  function Reply300(c: Command): Option<string> {
    match c
    case 300 => Some("300")
    case 301 => Some("301")
    case 302 => Some("302")
    case 303 => Some("303")
    case 305 => Some("305")
    case 306 => Some("306")
    case 311 => Some("311")
    case 312 => Some("312")
    case 313 => Some("313")
    case 314 => Some("314")
    case 315 => Some("315")
    case 316 => Some("316")
    case 317 => Some("317")
    case 318 => Some("318")
    case 319 => Some("319")
    case _ => None
  }

  function Reply320(c: Command): Option<string> {
    match c
    case 321 => Some("321")
    case 322 => Some("322")
    case 323 => Some("323")
    case 324 => Some("324")
    case 325 => Some("325")
    case 331 => Some("331")
    case 332 => Some("332")
    case 341 => Some("341")
    case 342 => Some("342")
    case 346 => Some("346")
    case 347 => Some("347")
    case 348 => Some("348")
    case 349 => Some("349")
    case _ => None
  }

  function Reply350(c: Command): Option<string> {
    match c
    case 351 => Some("351")
    case 352 => Some("352")
    case 353 => Some("353")
    case 361 => Some("361")
    case 362 => Some("362")
    case 363 => Some("363")
    case 364 => Some("364")
    case 365 => Some("365")
    case 366 => Some("366")
    case 367 => Some("367")
    case 368 => Some("368")
    case 369 => Some("369")
    case _ => None
  }

  function Reply370(c: Command): Option<string> {
    match c
    case 371 => Some("371")
    case 372 => Some("372")
    case 373 => Some("373")
    case 374 => Some("374")
    case 375 => Some("375")
    case 376 => Some("376")
    case 381 => Some("381")
    case 382 => Some("382")
    case 383 => Some("383")
    case 384 => Some("384")
    case 391 => Some("391")
    case 392 => Some("392")
    case 393 => Some("393")
    case 394 => Some("394")
    case 395 => Some("395")
    case _ => None
  }

  function Reply400(c: Command): Option<string> {
    match c
    case 401 => Some("401")
    case 402 => Some("402")
    case 403 => Some("403")
    case 404 => Some("404")
    case 405 => Some("405")
    case 406 => Some("406")
    case 407 => Some("407")
    case 408 => Some("408")
    case 409 => Some("409")
    case 411 => Some("411")
    case 412 => Some("412")
    case 413 => Some("413")
    case 414 => Some("414")
    case 415 => Some("415")
    case 421 => Some("421")
    case 422 => Some("422")
    case 423 => Some("423")
    case 424 => Some("424")
    case _ => None
  }

  function Reply425(c: Command): Option<string> {
    match c
    case 431 => Some("431")
    case 432 => Some("432")
    case 433 => Some("433")
    case 436 => Some("436")
    case 437 => Some("437")
    case 441 => Some("441")
    case 442 => Some("442")
    case 443 => Some("443")
    case 444 => Some("444")
    case 445 => Some("445")
    case 446 => Some("446")
    case 451 => Some("451")
    case 461 => Some("461")
    case 462 => Some("462")
    case 463 => Some("463")
    case 464 => Some("464")
    case _ => None
  }

  function Reply465(c: Command): Option<string> {
    match c
    case 465 => Some("465")
    case 466 => Some("466")
    case 467 => Some("467")
    case 471 => Some("471")
    case 472 => Some("472")
    case 473 => Some("473")
    case 474 => Some("474")
    case 475 => Some("475")
    case 476 => Some("476")
    case 477 => Some("477")
    case 478 => Some("478")
    case _ => None
  }

  function Reply480(c: Command): Option<string> {
    match c
    case 481 => Some("481")
    case 482 => Some("482")
    case 483 => Some("483")
    case 484 => Some("484")
    case 485 => Some("485")
    case 491 => Some("491")
    case 492 => Some("492")
    case 501 => Some("501")
    case 502 => Some("502")
    case _ => None
  }

  /** Three decimal digits, zero-padded. */
  function ThreeDigits(n: int): string
    requires 0 <= n < 1000
  {
    [('0' as int + n / 100) as char, ('0' as int + n / 10 % 10) as char, ('0' as int + n % 10) as char]
  }

  lemma Tens(n: int, a: int, b: int)
    requires 0 <= a < 10 && 0 <= b < 10 && 100 * a + 10 * b <= n < 100 * a + 10 * b + 10
    ensures ThreeDigits(n)
         == [('0' as int + a) as char, ('0' as int + b) as char, ('0' as int + (n - 100 * a - 10 * b)) as char]
  {
    DecimalPlaces(a, b, n - 100 * a - 10 * b);
  }

  lemma Reply200Numbers(c: Command)
    ensures Reply200(c).Some? ==> 200 <= c < 220 && Reply200(c) == Some(ThreeDigits(c))
  {
    hide ThreeDigits;
    if 200 <= c < 210 { Tens(c, 2, 0); }
    else if 210 <= c < 220 { Tens(c, 2, 1); }
  }

  lemma Reply220Numbers(c: Command)
    ensures Reply220(c).Some? ==> 220 <= c < 250 && Reply220(c) == Some(ThreeDigits(c))
  {
    hide ThreeDigits;
    if 220 <= c < 230 { Tens(c, 2, 2); }
    else if 230 <= c < 240 { Tens(c, 2, 3); }
    else if 240 <= c < 250 { Tens(c, 2, 4); }
  }

  lemma Reply250Numbers(c: Command)
    ensures Reply250(c).Some? ==> 250 <= c < 300 && Reply250(c) == Some(ThreeDigits(c))
  {
    hide ThreeDigits;
    if 250 <= c < 260 { Tens(c, 2, 5); }
    else if 260 <= c < 270 { Tens(c, 2, 6); }
  }

  lemma Reply300Numbers(c: Command)
    ensures Reply300(c).Some? ==> 300 <= c < 320 && Reply300(c) == Some(ThreeDigits(c))
  {
    hide ThreeDigits;
    if 300 <= c < 310 { Tens(c, 3, 0); }
    else if 310 <= c < 320 { Tens(c, 3, 1); }
  }

  lemma Reply320Numbers(c: Command)
    ensures Reply320(c).Some? ==> 320 <= c < 350 && Reply320(c) == Some(ThreeDigits(c))
  {
    hide ThreeDigits;
    if 320 <= c < 330 { Tens(c, 3, 2); }
    else if 330 <= c < 340 { Tens(c, 3, 3); }
    else if 340 <= c < 350 { Tens(c, 3, 4); }
  }

  lemma Reply350Numbers(c: Command)
    ensures Reply350(c).Some? ==> 350 <= c < 370 && Reply350(c) == Some(ThreeDigits(c))
  {
    hide ThreeDigits;
    if 350 <= c < 360 { Tens(c, 3, 5); }
    else if 360 <= c < 370 { Tens(c, 3, 6); }
  }

  lemma Reply370Numbers(c: Command)
    ensures Reply370(c).Some? ==> 370 <= c < 400 && Reply370(c) == Some(ThreeDigits(c))
  {
    hide ThreeDigits;
    if 370 <= c < 380 { Tens(c, 3, 7); }
    else if 380 <= c < 390 { Tens(c, 3, 8); }
    else if 390 <= c < 400 { Tens(c, 3, 9); }
  }

  lemma Reply400Numbers(c: Command)
    ensures Reply400(c).Some? ==> 400 <= c < 425 && Reply400(c) == Some(ThreeDigits(c))
  {
    hide ThreeDigits;
    if 400 <= c < 410 { Tens(c, 4, 0); }
    else if 410 <= c < 420 { Tens(c, 4, 1); }
    else if 420 <= c < 430 { Tens(c, 4, 2); }
  }

  lemma Reply425Numbers(c: Command)
    ensures Reply425(c).Some? ==> 425 <= c < 465 && Reply425(c) == Some(ThreeDigits(c))
  {
    hide ThreeDigits;
    if 430 <= c < 440 { Tens(c, 4, 3); }
    else if 440 <= c < 450 { Tens(c, 4, 4); }
    else if 450 <= c < 460 { Tens(c, 4, 5); }
    else if 460 <= c < 470 { Tens(c, 4, 6); }
  }

  lemma Reply465Numbers(c: Command)
    ensures Reply465(c).Some? ==> 465 <= c < 480 && Reply465(c) == Some(ThreeDigits(c))
  {
    hide ThreeDigits;
    if 460 <= c < 470 { Tens(c, 4, 6); }
    else if 470 <= c < 480 { Tens(c, 4, 7); }
  }

  lemma Reply480Numbers(c: Command)
    ensures Reply480(c).Some? ==> 480 <= c < 600 && Reply480(c) == Some(ThreeDigits(c))
  {
    hide ThreeDigits;
    if 480 <= c < 490 { Tens(c, 4, 8); }
    else if 490 <= c < 500 { Tens(c, 4, 9); }
    else if 500 <= c < 510 { Tens(c, 5, 0); }
  }

  /** Every reply is named by its own three digits. */
  lemma RepliesAreNumbers(c: Command)
    requires Str(c).Some? && !(100 <= c < 200)
    ensures 0 < c < 600 && Str(c) == Some(ThreeDigits(c))
  {
    if c >= 200 {
      Reply200Numbers(c);
      Reply220Numbers(c);
      Reply250Numbers(c);
      Reply300Numbers(c);
      Reply320Numbers(c);
      Reply350Numbers(c);
      Reply370Numbers(c);
      Reply400Numbers(c);
      Reply425Numbers(c);
      Reply465Numbers(c);
      Reply480Numbers(c);
    }
  }

  lemma DigitsBack(n: int)
    requires 0 <= n < 1000
    ensures var s := ThreeDigits(n);
            && |s| == 3 && IsDigit(s[0]) && IsDigit(s[1]) && IsDigit(s[2])
            && 100 * Digit(s[0]) + 10 * Digit(s[1]) + Digit(s[2]) == n
  {
    var a, b, c := n / 100, n / 10 % 10, n % 10;
    DecimalPlaces(a, b, c);
    Tens(n, a, b);
    hide ThreeDigits;
  }

  lemma DigitsUnique(s: string)
    requires |s| == 3 && IsDigit(s[0]) && IsDigit(s[1]) && IsDigit(s[2])
    ensures ThreeDigits(100 * Digit(s[0]) + 10 * Digit(s[1]) + Digit(s[2])) == s
  {
    var a, b, c := Digit(s[0]), Digit(s[1]), Digit(s[2]);
    DecimalPlaces(a, b, c);
    assert ('0' as int + a) as char == s[0] && ('0' as int + b) as char == s[1] && ('0' as int + c) as char == s[2];
  }

  lemma DecimalPlaces(a: int, b: int, c: int)
    requires 0 <= a < 10 && 0 <= b < 10 && 0 <= c < 10
    ensures var n := 100 * a + 10 * b + c; n / 100 == a && n / 10 % 10 == b && n % 10 == c
  {
    assert (100 * a + 10 * b + c) / 10 == 10 * a + b;
  }

  lemma Msg100Parse(c: Command)
    requires Msg100(c).Some?
    ensures 100 <= c < 112 && Parse(Msg100(c).value) == c
  {}

  lemma Msg112Parse(c: Command)
    requires Msg112(c).Some?
    ensures 112 <= c < 124 && Parse(Msg112(c).value) == c
  {}

  lemma Msg124Parse(c: Command)
    requires Msg124(c).Some?
    ensures 124 <= c < 136 && Parse(Msg124(c).value) == c
  {}

  lemma Msg136Parse(c: Command)
    requires Msg136(c).Some?
    ensures 136 <= c < 200 && Parse(Msg136(c).value) == c
  {}

  /** Names are never three digits, so the two halves of the parser do not overlap. */
  lemma NamesParse(c: Command)
    requires StrMsg(c).Some?
    ensures 100 <= c < 200 && Parse(StrMsg(c).value) == c
  {
    if c < 112 { Msg100Parse(c); }
    else if c < 124 { Msg112Parse(c); }
    else if c < 136 { Msg124Parse(c); }
    else { Msg136Parse(c); }
  }

  lemma EarlyNames(s: string)
    requires s != [] && s[0] < 'P'
    ensures ParseName(s) != CMD_UNKNOWN ==> StrMsg(ParseName(s)) == Some(s) && 100 <= ParseName(s) < 200
  {}

  lemma LateNames(s: string)
    requires s != [] && s[0] >= 'P'
    ensures ParseName(s) != CMD_UNKNOWN ==> StrMsg(ParseName(s)) == Some(s) && 100 <= ParseName(s) < 200
  {}

  lemma NamesOnly(s: string)
    ensures ParseName(s) != CMD_UNKNOWN ==> StrMsg(ParseName(s)) == Some(s) && 100 <= ParseName(s) < 200
  {
    if s != [] {
      hide ParseName;
      if s[0] < 'P' { EarlyNames(s); } else { LateNames(s); }
    }
  }

  /** The values of the enumeration (irccommand.h:14-227), CMD_UNKNOWN apart. */
  predicate Declared(c: int) {
    || 1 <= c <= 5 || 100 <= c <= 144
    || 200 <= c <= 219 || c == 221 || 231 <= c <= 235 || 240 <= c <= 247 || 250 <= c <= 259 || 261 <= c <= 263
    || 300 <= c <= 303 || 305 <= c <= 306 || 311 <= c <= 319 || 321 <= c <= 325 || 331 <= c <= 332 || 341 <= c <= 342
    || 346 <= c <= 349 || 351 <= c <= 353 || 361 <= c <= 369 || 371 <= c <= 376 || 381 <= c <= 384 || 391 <= c <= 395
    || 401 <= c <= 409 || 411 <= c <= 415 || 421 <= c <= 424 || 431 <= c <= 433 || 436 <= c <= 437 || 441 <= c <= 446
    || c == 451 || 461 <= c <= 467 || 471 <= c <= 478 || 481 <= c <= 485 || 491 <= c <= 492 || 501 <= c <= 502
  }

  lemma DeclaredBelow300(c: Command)
    requires c < 300
    ensures Str(c).Some? <==> Declared(c)
  {}

  lemma DeclaredBelow400(c: Command)
    requires 300 <= c < 400
    ensures Str(c).Some? <==> Declared(c)
  {}

  lemma DeclaredFrom400(c: Command)
    requires 400 <= c
    ensures Str(c).Some? <==> Declared(c)
  {}

  /** Every value of the enumeration has a name, and nothing else has one. So the three digits of every reply are parsed,
      and other digits are not. */
  lemma DeclaredAreNamed(c: Command)
    ensures Str(c).Some? <==> Declared(c)
  {
    hide Str, Declared;
    if c < 300 { DeclaredBelow300(c); } else if c < 400 { DeclaredBelow400(c); } else { DeclaredFrom400(c); }
  }

  /** Parsing and naming are inverse: a parsed command's name is the string it was parsed from. */
  lemma StrAfterParse(s: string)
    requires Parse(s) != CMD_UNKNOWN
    ensures Str(Parse(s)) == Some(s)
  {
    if |s| == 3 && IsDigit(s[0]) && IsDigit(s[1]) && IsDigit(s[2]) {
      RepliesAreNumbers(Parse(s));
      DigitsUnique(s);
    } else {
      NamesOnly(s);
    }
  }

  /** And the name of every valid command parses back to it. */
  lemma ParseAfterStr(c: Command)
    requires Str(c).Some?
    ensures Parse(Str(c).value) == c
  {
    if 100 <= c < 200 {
      NamesParse(c);
    } else {
      RepliesAreNumbers(c);
      DigitsBack(c);
    }
  }

  /** Numbers in the gap that the message codes occupy are not commands, whatever their names would be. */
  lemma MessageCodesAreNotReplies(n: int)
    requires 100 <= n < 200
    ensures Parse(ThreeDigits(n)) == CMD_UNKNOWN
  {
    DigitsBack(n);
  }

  /** The commands and replies that ircserver.c and ircchannel.c send or act upon, by name. */
  lemma CommandsInUse()
    ensures Parse("004") == 4 && Parse("353") == 353 && Parse("366") == 366 && Parse("403") == 403 && Parse("433") == 433
    ensures Parse("PING") == MSG_PING && Parse("PONG") == MSG_PONG && Parse("PRIVMSG") == MSG_PRIVMSG
    ensures Parse("NICK") == MSG_NICK && Parse("USER") == MSG_USER && Parse("QUIT") == MSG_QUIT
    ensures Parse("JOIN") == MSG_JOIN && Parse("PART") == MSG_PART && Parse("KICK") == MSG_KICK
  {
    hide Parse;
    ParseAfterStr(4);
    ParseAfterStr(353);
    ParseAfterStr(366);
    ParseAfterStr(403);
    ParseAfterStr(433);
    ParseAfterStr(MSG_PING);
    ParseAfterStr(MSG_PONG);
    ParseAfterStr(MSG_PRIVMSG);
    ParseAfterStr(MSG_NICK);
    ParseAfterStr(MSG_USER);
    ParseAfterStr(MSG_QUIT);
    ParseAfterStr(MSG_JOIN);
    ParseAfterStr(MSG_PART);
    ParseAfterStr(MSG_KICK);
  }
}
