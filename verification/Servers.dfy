/** One line of the server list: printing, parsing and ordering (`CServer`). */
module Servers {
  import opened Strings
  import Multimap

  const DEFAULT_PORT := 6667
  const USHORT := 0x1_0000
  const ULONG := 0x1_0000_0000_0000_0000

  datatype Server = Server(name: string, port: nat, pass: string, ssl: bool, unixSocket: bool) {
    /** A port is an unsigned short, and the constructor never stores zero. */
    predicate Valid() {
      0 < port < USHORT
    }
  }

  /** The constructor. */
  function Create(name: string, port: nat, pass: string, ssl: bool, unixSocket: bool): Server {
    Server(name, if port != 0 then port else DEFAULT_PORT, pass, ssl, unixSocket)
  }

  /** A port that is not given is 6667. */
  lemma PortGiven(name: string, port: nat, pass: string, ssl: bool, unixSocket: bool)
    ensures Create(name, port, pass, ssl, unixSocket)
         == Server(name, if port == 0 then 6667 else port, pass, ssl, unixSocket)
  {
  }

  // ----- numbers ---------------------------------------------------------------------------

  function Decimal(n: nat): (r: string)
    ensures r != ""
  {
    if n < 10 then ['0' + n as char] else Decimal(n / 10) + ['0' + (n % 10) as char]
  }

  /** The digits at the front of s, added to `sofar`. */
  function Digits(s: string, sofar: nat): nat {
    if s != "" && IsDigit(s[0]) then Digits(s[1..], 10 * sofar + (s[0] - '0') as nat) else sofar
  }

  /** `strtoul` with base 10 on a 64-bit platform: leading blanks, a sign, digits; a number that
      does not fit gives the largest one, a minus sign wraps around. */
  function StrToUL(s: string): nat {
    var t := TrimLeft(s, SPACES);
    var negative := t != "" && t[0] == '-';
    var digits := if t != "" && (t[0] == '-' || t[0] == '+') then t[1..] else t;
    var n := Digits(digits, 0);
    if n >= ULONG then ULONG - 1 else if negative then (ULONG - n) % ULONG else n
  }

  function ToUShort(s: string): nat {
    StrToUL(s) % USHORT
  }

  lemma {:induction false} DecimalDigits(n: nat, c: char)
    requires c in Decimal(n)
    ensures IsDigit(c)
  {
    if n >= 10 && c in Decimal(n / 10) {
      DecimalDigits(n / 10, c);
    }
  }

  lemma {:induction false} DigitsConcat(a: string, b: string, sofar: nat)
    requires forall c :: c in a ==> IsDigit(c)
    ensures Digits(a + b, sofar) == Digits(b, Digits(a, sofar))
  {
    if a == "" {
      assert a + b == b;
    } else {
      assert a[0] in a;
      assert (a + b)[1..] == a[1..] + b;
      DigitsConcat(a[1..], b, 10 * sofar + (a[0] - '0') as nat);
    }
  }

  lemma {:induction false} DigitsOfDecimal(n: nat)
    ensures Digits(Decimal(n), 0) == n
  {
    var last := ['0' + (n % 10) as char];
    if n < 10 {
      assert Decimal(n)[1..] == "";
    } else {
      DigitsOfDecimal(n / 10);
      forall c | c in Decimal(n / 10) ensures IsDigit(c) {
        DecimalDigits(n / 10, c);
      }
      DigitsConcat(Decimal(n / 10), last, 0);
      assert last[1..] == "";
      assert Digits(last, n / 10) == Digits(last[1..], 10 * (n / 10) + n % 10);
    }
  }

  /** A port number survives printing and `ToUShort`. */
  lemma PortReadBack(port: nat)
    requires port < USHORT
    ensures ToUShort(Decimal(port)) == port
  {
    var s := Decimal(port);
    assert s[0] in s;
    DecimalDigits(port, s[0]);
    assert TrimLeft(s, SPACES) == s;
    DigitsOfDecimal(port);
  }

  lemma {:induction false} ZerosIgnored(z: nat, s: string)
    ensures Digits(Repeat('0', z) + s, 0) == Digits(s, 0)
  {
    if z == 0 {
      assert Repeat('0', 0) + s == s;
    } else {
      assert (Repeat('0', z) + s)[1..] == Repeat('0', z - 1) + s;
      ZerosIgnored(z - 1, s);
    }
  }

  /** The conversion of a number behind blanks, a sign and zeros, whatever follows it. */
  lemma StrToULIs(blanks: string, sign: string, zeros: nat, n: nat, rest: string)
    requires forall c :: c in blanks ==> c in {' ', '\t', '\n', 11 as char, 12 as char, '\r'}
    requires sign in {"", "+", "-"} && (rest == "" || !('0' <= rest[0] <= '9'))
    ensures StrToUL(blanks + (sign + (Repeat('0', zeros) + (Decimal(n) + rest))))
         == if n >= 0x1_0000_0000_0000_0000 then 0xffff_ffff_ffff_ffff
            else if sign == "-" && n > 0 then 0x1_0000_0000_0000_0000 - n
            else n
  {
    var number := Repeat('0', zeros) + (Decimal(n) + rest);
    var t := sign + number;
    NumberFront(zeros, n, rest);
    assert t != "" && t[0] !in SPACES by {
      assert sign == "" ==> t == number;
      assert sign != "" ==> t[0] == sign[0];
    }
    TrimLeftAround(blanks, t, SPACES);
    assert sign == "" ==> t == number;
    assert sign != "" ==> t[1..] == number;
  }

  lemma NumberFront(zeros: nat, n: nat, rest: string)
    requires rest == "" || !IsDigit(rest[0])
    ensures var number := Repeat('0', zeros) + (Decimal(n) + rest);
            number != "" && IsDigit(number[0]) && Digits(number, 0) == n
  {
    var digits := Decimal(n);
    forall c | c in digits ensures IsDigit(c) {
      DecimalDigits(n, c);
    }
    assert digits[0] in digits;
    ZerosIgnored(zeros, digits + rest);
    DigitsConcat(digits, rest, 0);
    DigitsOfDecimal(n);
  }

  /** Without a digit where one is expected the conversion gives zero. */
  lemma NoNumber(blanks: string, sign: string, rest: string)
    requires forall c :: c in blanks ==> c in {' ', '\t', '\n', 11 as char, 12 as char, '\r'}
    requires sign in {"+", "-"} && (rest == "" || !('0' <= rest[0] <= '9'))
    ensures StrToUL(blanks) == 0 && StrToUL(blanks + (sign + rest)) == 0
    ensures rest == "" || (rest[0] !in SPACES && rest[0] !in {'+', '-'}) ==> StrToUL(blanks + rest) == 0
  {
    TrimLeftAround(blanks, sign + rest, SPACES);
    assert (sign + rest)[1..] == rest;
    assert blanks + "" == blanks;
    TrimLeftAround(blanks, "", SPACES);
    if rest == "" || rest[0] !in SPACES {
      TrimLeftAround(blanks, rest, SPACES);
    }
  }

  // ----- printing and parsing --------------------------------------------------------------

  function Address(s: Server): string {
    if s.unixSocket then "unix:" + (if s.ssl then "ssl:" else "") + s.name
    else s.name + " " + (if s.ssl then "+" else "") + Decimal(s.port)
  }

  function GetString(s: Server, includePassword: bool): string {
    Address(s) + (if includePassword && s.pass != "" then " " + s.pass else "")
  }

  /** After "unix:" has been removed. */
  function ParseUnix(line: string): Server {
    var ssl := StartsWith(line, "ssl:");
    var rest := TrimPrefix(line, "ssl:");
    Create(Token(rest, 0, false, ' '), 0, Token(rest, 1, true, ' '), ssl, true)
  }

  function ParseTcp(line: string): Server {
    var port := Token(line, 1, false, ' ');
    Create(Token(line, 0, false, ' '), ToUShort(TrimPrefix(port, "+")), Token(line, 2, true, ' '),
           StartsWith(port, "+"), false)
  }

  function Parse(line: string): Server {
    var trimmed := Trim(line, BLANKS);
    if StartsWith(trimmed, "unix:") then ParseUnix(TrimPrefix(trimmed, "unix:"))
    else ParseTcp(trimmed)
  }

  /** The printed form field by field; without the password it is the same up to there. */
  lemma PrintedAs(name: string, port: nat, pass: string)
    ensures GetString(Server(name, port, pass, false, false), false) == name + " " + Decimal(port)
    ensures GetString(Server(name, port, pass, true, false), false) == name + " +" + Decimal(port)
    ensures GetString(Server(name, port, pass, false, true), false) == "unix:" + name
    ensures GetString(Server(name, port, pass, true, true), false) == "unix:ssl:" + name
    ensures forall ssl, unix ::
              GetString(Server(name, port, pass, ssl, unix), true)
                == GetString(Server(name, port, pass, ssl, unix), false) + if pass == "" then "" else " " + pass
  {
    var plain := Address(Server(name, port, pass, false, true));
    assert "unix:" + "" == "unix:" && "unix:" + "ssl:" == "unix:ssl:";
    assert name + " " + "+" == name + " +" && name + " " + "" == name + " ";
  }

  // ----- which servers are read back -------------------------------------------------------

  /** A password as the end of a line keeps it. */
  predicate KeptPassword(pass: string) {
    pass == "" || (pass[0] != ' ' && pass[|pass| - 1] !in BLANKS)
  }

  predicate KeptTcp(s: Server) {
    && s.name != "" && ' ' !in s.name && s.name[0] !in BLANKS
    && !StartsWith(s.name, "unix:")
  }

  predicate KeptUnix(s: Server) {
    && s.port == DEFAULT_PORT
    && ' ' !in s.name
    && (s.ssl || !StartsWith(s.name, "ssl:"))
    && (if s.pass == "" then s.name == "" || s.name[|s.name| - 1] !in BLANKS else s.name != "")
  }

  predicate Kept(s: Server) {
    && KeptPassword(s.pass)
    && (if s.unixSocket then KeptUnix(s) else KeptTcp(s))
  }

  /** A prefix without a blank is found in a word followed by a blank exactly when it is found in
      the word. */
  lemma StartsWithWord(word: string, rest: string, prefix: string)
    requires rest == "" || rest[0] == ' '
    requires ' ' !in Lower(prefix)
    ensures StartsWith(word + rest, prefix) <==> StartsWith(word, prefix)
  {
    var s := word + rest;
    if |prefix| <= |word| {
      assert s[..|prefix|] == word[..|prefix|];
    } else if |prefix| <= |s| {
      assert Lower(s[..|prefix|])[|word|] == ' ';
      assert Lower(prefix)[|word|] in Lower(prefix);
    }
  }

  /** Nothing is trimmed off the right of s. */
  predicate Ends(s: string) {
    s == "" || s[|s| - 1] !in BLANKS
  }

  lemma TokenKept(s: string, n: nat)
    requires Ends(s)
    ensures KeptPassword(Token(s, n, true, ' '))
  {
    TokenIsTail(s, n, ' ');
  }

  lemma NonBlankStays(s: string, i: nat)
    requires i < |s| && s[i] !in BLANKS
    ensures Trim(s, BLANKS) != ""
  {
    var left := TrimLeft(s, BLANKS);
    if i > 0 && s[0] in BLANKS {
      NonBlankStays(s[1..], i - 1);
    } else {
      assert left == s;
      TrimRightKeeps(s, i);
    }
  }

  // What the two halves of the parser can return.

  lemma TcpImage(line: string)
    requires Trimmed(line, BLANKS) && !StartsWith(line, "unix:")
    ensures line != "" ==> Kept(ParseTcp(line))
    ensures line == "" ==> ParseTcp(line).name == ""
  {
    TokenKept(line, 2);
    if line != "" {
      var rest := From(line, ' ');
      BeforePrefix(line, ' ');
      assert TrimLeft(line, {' '}) == line;
      assert line == Before(line, ' ') + rest;
      StartsWithWord(Before(line, ' '), rest, "unix:");
    }
  }

  lemma UnixImage(line: string)
    requires Ends(line)
    ensures var r := ParseUnix(line); Kept(r) <==> r.ssl || !StartsWith(r.name, "ssl:")
  {
    var rest := TrimPrefix(line, "ssl:");
    assert Ends(rest);
    UnixTokens(rest);
    TokenKept(rest, 1);
  }

  lemma UnixTokens(rest: string)
    requires Ends(rest)
    ensures var name, pass := Token(rest, 0, false, ' '), Token(rest, 1, true, ' ');
            if pass == "" then Ends(name) else name != ""
  {
    var u := TrimLeft(rest, {' '});
    TrimLeftSuffix(rest, {' '});
    BeforePrefix(u, ' ');
    var after := From(u, ' ');
    assert Token(rest, 1, true, ' ') == TrimLeft(TrimLeft(after, {' '}), {' '})
                                     == TrimLeft(after, {' '});
    if after != "" {
      assert after[|after| - 1] == u[|u| - 1] == rest[|rest| - 1];
      if TrimLeft(after, {' '}) == "" {
        AllTrimmed(after);
      }
    } else {
      assert Before(u, ' ') == u;
    }
  }

  lemma {:induction false} AllTrimmed(s: string)
    requires TrimLeft(s, {' '}) == ""
    ensures s != "" ==> s[|s| - 1] == ' '
  {
    if |s| > 1 {
      AllTrimmed(s[1..]);
    }
  }

  // What a kept server is read back as.

  lemma SkipBlank(rest: string, n: nat, toEnd: bool)
    ensures Token(" " + rest, n, toEnd, ' ') == Token(rest, n, toEnd, ' ')
  {
    var s := " " + rest;
    assert s[1..] == rest;
    assert TrimLeft(s, {' '}) == TrimLeft(rest, {' '});
  }

  lemma SkipWord(word: string, rest: string, n: nat, toEnd: bool)
    requires word != "" && ' ' !in word && n > 0
    ensures Token(word + " " + rest, n, toEnd, ' ') == Token(rest, n - 1, toEnd, ' ')
  {
    var s := word + (" " + rest);
    assert s == word + " " + rest;
    assert s[0] == word[0] && word[0] in word;
    BeforeAround(word, ' ', " " + rest);
    SkipBlank(rest, n - 1, toEnd);
  }

  lemma FirstWord(word: string, rest: string)
    requires word != "" && ' ' !in word
    ensures Token(word + " " + rest, 0, false, ' ') == word
  {
    NameAndTail(word, " " + rest);
    assert word + " " + rest == word + (" " + rest);
  }

  lemma Reparts(a: string, rest: string, b: string, tail: string)
    requires a != "" && ' ' !in a
    requires Token(rest, 0, false, ' ') == b && Token(rest, 1, true, ' ') == tail
    ensures var s := a + " " + rest;
            && Token(s, 0, false, ' ') == a && Token(s, 1, false, ' ') == b
            && Token(s, 2, true, ' ') == tail
  {
    FirstWord(a, rest);
    SkipWord(a, rest, 1, false);
    SkipWord(a, rest, 2, true);
  }

  function Tail(pass: string): string {
    if pass == "" then "" else " " + pass
  }

  lemma TailTrimmed(pass: string)
    requires KeptPassword(pass)
    ensures TrimLeft(Tail(pass), {' '}) == pass
  {
    if pass != "" {
      TrimLeftAround(" ", pass, {' '});
    }
  }

  /** The port field, with its mark for TLS. */
  function PortField(s: Server): string {
    (if s.ssl then "+" else "") + Decimal(s.port)
  }

  lemma PortFieldReadBack(s: Server)
    requires s.Valid()
    ensures PortField(s) != "" && forall c :: c in PortField(s) ==> IsDigit(c) || c == '+'
    ensures StartsWith(PortField(s), "+") == s.ssl
    ensures ToUShort(TrimPrefix(PortField(s), "+")) == s.port
  {
    var digits := Decimal(s.port);
    forall c | c in digits ensures IsDigit(c) {
      DecimalDigits(s.port, c);
    }
    assert digits[0] in digits;
    StartsWithExact(PortField(s), "+");
    PortReadBack(s.port);
    if s.ssl {
      assert PortField(s)[1..] == digits;
    } else {
      assert PortField(s) == digits;
    }
  }

  lemma TcpPrinted(s: Server)
    requires !s.unixSocket
    ensures GetString(s, true) == s.name + " " + PortField(s) + Tail(s.pass)
  {
    assert s.name + " " + PortField(s) == s.name + " " + (if s.ssl then "+" else "") + Decimal(s.port);
  }

  lemma TcpLineStays(name: string, field: string, tail: string)
    requires name != "" && name[0] !in BLANKS && ' ' !in name && !StartsWith(name, "unix:")
    requires field != "" && field[|field| - 1] !in BLANKS
    requires tail == "" || (tail[0] == ' ' && tail[|tail| - 1] !in BLANKS)
    ensures var line := name + " " + field + tail;
            Trim(line, BLANKS) == line && !StartsWith(line, "unix:")
  {
    var line := name + " " + field + tail;
    assert line[|line| - 1] == if tail == "" then field[|field| - 1] else tail[|tail| - 1];
    TrimNothing(line);
    assert line == name + (" " + field + tail);
    StartsWithWord(name, " " + field + tail, "unix:");
  }

  lemma TcpParts(s: Server)
    requires s.Valid() && !s.unixSocket && Kept(s)
    ensures ParseTcp(s.name + " " + PortField(s) + Tail(s.pass)) == s
  {
    assert s.name + " " + PortField(s) + Tail(s.pass) == s.name + " " + (PortField(s) + Tail(s.pass));
    PortFieldReadBack(s);
    NameAndTail(PortField(s), Tail(s.pass));
    TailTrimmed(s.pass);
    Reparts(s.name, PortField(s) + Tail(s.pass), PortField(s), s.pass);
  }

  lemma PortFieldEnds(s: Server)
    requires s.Valid()
    ensures PortField(s) != "" && PortField(s)[|PortField(s)| - 1] !in BLANKS
  {
    var field := PortField(s);
    PortFieldReadBack(s);
    assert field[|field| - 1] in field;
  }

  lemma TcpPrintedStays(s: Server)
    requires s.Valid() && !s.unixSocket && Kept(s)
    ensures var line := s.name + " " + PortField(s) + Tail(s.pass);
            Trim(line, BLANKS) == line && !StartsWith(line, "unix:")
  {
    PortFieldEnds(s);
    TcpLineStays(s.name, PortField(s), Tail(s.pass));
  }

  lemma TcpReadBack(s: Server)
    requires s.Valid() && !s.unixSocket && Kept(s)
    ensures Parse(GetString(s, true)) == s
  {
    TcpPrinted(s);
    TcpPrintedStays(s);
    TcpParts(s);
  }

  lemma UnixParts(s: Server)
    requires s.unixSocket && Kept(s)
    ensures ParseUnix(UnixRest(s)) == s
  {
    var rest, line := s.name + Tail(s.pass), UnixRest(s);
    if s.ssl {
      assert line[..4] == "ssl:" && line[4..] == rest;
    } else {
      assert line == rest;
      StartsWithWord(s.name, Tail(s.pass), "ssl:");
    }
    NameAndTail(s.name, Tail(s.pass));
    TailTrimmed(s.pass);
  }

  lemma NameAndTail(name: string, tail: string)
    requires ' ' !in name && (name != "" || tail == "")
    requires tail == "" || tail[0] == ' '
    ensures Token(name + tail, 0, false, ' ') == name
    ensures Token(name + tail, 1, true, ' ') == TrimLeft(tail, {' '})
  {
    var s := name + tail;
    if name != "" {
      assert s[0] == name[0] && name[0] in name;
    }
    BeforeAround(name, ' ', tail);
    FirstTokens(s, ' ');
  }

  /** What follows "unix:". */
  function UnixRest(s: Server): string {
    (if s.ssl then "ssl:" else "") + (s.name + Tail(s.pass))
  }

  lemma UnixPrinted(s: Server)
    requires s.unixSocket
    ensures GetString(s, true) == "unix:" + UnixRest(s)
  {
    var scheme := if s.ssl then "ssl:" else "";
    assert "unix:" + scheme + s.name + Tail(s.pass) == "unix:" + (scheme + (s.name + Tail(s.pass)));
  }

  lemma UnixScheme(rest: string)
    ensures StartsWith("unix:" + rest, "unix:") && TrimPrefix("unix:" + rest, "unix:") == rest
  {
    var s := "unix:" + rest;
    assert s[..5] == "unix:" && s[5..] == rest;
  }

  lemma UnixRestEnds(s: Server)
    requires s.unixSocket && Kept(s)
    ensures Ends(UnixRest(s))
  {
    if s.name == "" && s.ssl {
      assert UnixRest(s) == "ssl:";
    }
  }

  lemma UnixReadBack(s: Server)
    requires s.unixSocket && Kept(s)
    ensures Parse(GetString(s, true)) == s
  {
    UnixPrinted(s);
    UnixRestEnds(s);
    UnixLineStays(UnixRest(s));
    UnixScheme(UnixRest(s));
    UnixParts(s);
  }

  lemma UnixLineStays(rest: string)
    requires Ends(rest)
    ensures Trim("unix:" + rest, BLANKS) == "unix:" + rest
  {
    TrimNothing("unix:" + rest);
  }

  // What is lost.

  lemma NamelessIsLost(s: Server)
    requires s.Valid() && !s.unixSocket && s.name == ""
    ensures Parse(GetString(s, true)) != s
  {
    TcpPrinted(s);
    PortFieldReadBack(s);
    NamelessLine(PortField(s), Tail(s.pass));
    var t := Trim(GetString(s, true), BLANKS);
    if !StartsWith(t, "unix:") {
      TcpImage(t);
    }
  }

  lemma NamelessLine(field: string, tail: string)
    requires field != "" && forall c :: c in field ==> IsDigit(c) || c == '+'
    ensures Trim("" + " " + field + tail, BLANKS) != ""
  {
    var line := "" + " " + field + tail;
    assert line[1] == field[0] && field[0] in field;
    NonBlankStays(line, 1);
  }

  lemma SchemeIsLost(s: Server)
    requires s.unixSocket && !s.ssl && StartsWith(s.name, "ssl:")
    ensures Parse(GetString(s, true)).ssl
  {
    UnixPrinted(s);
    assert UnixRest(s) == s.name + Tail(s.pass);
    UnixTrimmed(UnixRest(s));
    SchemeStays(s.name, Tail(s.pass));
    UnixScheme(TrimRight(UnixRest(s), BLANKS));
  }

  lemma {:induction false} UnixTrimmed(rest: string)
    ensures Trim("unix:" + rest, BLANKS) == "unix:" + TrimRight(rest, BLANKS)
  {
    var line := "unix:" + rest;
    assert TrimLeft(line, BLANKS) == line;
    UnixTrimmedRight(rest);
  }

  lemma {:induction false} UnixTrimmedRight(rest: string)
    ensures TrimRight("unix:" + rest, BLANKS) == "unix:" + TrimRight(rest, BLANKS)
  {
    var line := "unix:" + rest;
    if rest != "" && rest[|rest| - 1] in BLANKS {
      assert line[..|line| - 1] == "unix:" + rest[..|rest| - 1];
      UnixTrimmedRight(rest[..|rest| - 1]);
    }
  }

  lemma SchemeStays(name: string, tail: string)
    requires StartsWith(name, "ssl:")
    ensures StartsWith(TrimRight(name + tail, BLANKS), "ssl:")
  {
    var rest := name + tail;
    assert Lower(name[..4])[3] == Lower("ssl:")[3] == ':';
    assert rest[3] == ':';
    TrimRightKeeps(rest, 3);
    TrimRightPrefix(rest, BLANKS);
    assert TrimRight(rest, BLANKS)[..4] == name[..4];
  }

  /** What `Parse` returns is read back unless it came from a blank line, or is a plain socket
      path that starts like the mark for TLS. */
  lemma ParsedIsKept(line: string)
    ensures var r := Parse(line);
            && r.Valid()
            && (Kept(r) <==> if r.unixSocket then r.ssl || !StartsWith(r.name, "ssl:")
                             else r.name != "")
  {
    var t := Trim(line, BLANKS);
    if StartsWith(t, "unix:") {
      UnixImage(TrimPrefix(t, "unix:"));
    } else {
      TcpImage(t);
    }
  }

  /** Exactly the kept servers survive being printed and parsed. */
  lemma ReadBackIffKept(s: Server)
    requires s.Valid()
    ensures Parse(GetString(s, true)) == s <==> Kept(s)
  {
    if Kept(s) {
      if s.unixSocket {
        UnixReadBack(s);
      } else {
        TcpReadBack(s);
      }
    } else if Parse(GetString(s, true)) == s {
      ParsedIsKept(GetString(s, true));
      if s.unixSocket {
        SchemeIsLost(s);
      } else {
        NamelessIsLost(s);
      }
    }
  }

  /** Read off the line: it is not blank, and it is not a plain socket path that has blanks between
      the scheme and what looks like the mark for TLS. */
  predicate StableLine(line: string) {
    var t := Trim(line, BLANKS);
    && t != ""
    && (StartsWith(t, "unix:") ==>
          StartsWith(t[5..], "ssl:") || !StartsWith(TrimLeft(t[5..], {' '}), "ssl:"))
  }

  lemma SocketName(line: string)
    ensures var name := Token(line, 0, false, ' ');
            StartsWith(name, "ssl:") <==> StartsWith(TrimLeft(line, {' '}), "ssl:")
  {
    var t := TrimLeft(line, {' '});
    BeforePrefix(t, ' ');
    assert t == Before(t, ' ') + From(t, ' ');
    StartsWithWord(Before(t, ' '), From(t, ' '), "ssl:");
  }

  /** A line that is stable is read as the server that is printed for it is read as, and every other
      line is not. */
  lemma ReparseIsStable(line: string)
    ensures var r := Parse(line); Parse(GetString(r, true)) == r <==> StableLine(line)
  {
    ParsedIsKept(line);
    ReadBackIffKept(Parse(line));
    var t := Trim(line, BLANKS);
    if StartsWith(t, "unix:") {
      SocketName(t[5..]);
    } else {
      TcpImage(t);
    }
  }

  /** One that is not: read as the path `ssl:` and more without TLS, it is printed as a path with
      TLS. */
  lemma UnstableSocket()
    ensures var r := Parse("unix: ssl:x");
            r == Server("ssl:x", DEFAULT_PORT, "", false, true) && Parse(GetString(r, true)) != r
  {
    var line := "unix: ssl:x";
    assert line[..5] == "unix:" && line[5..] == " ssl:x";
    TrimNothing(line);
    UnstablePath();
    ReparseIsStable(line);
  }

  lemma UnstablePath()
    ensures var rest := " ssl:x";
            && !StartsWith(rest, "ssl:") && StartsWith(TrimLeft(rest, {' '}), "ssl:")
            && ParseUnix(rest) == Server("ssl:x", DEFAULT_PORT, "", false, true)
  {
    var rest := " ssl:x";
    assert rest[1..] == "ssl:x" && "ssl:x"[..4] == "ssl:";
    assert Lower(rest[..4])[0] != Lower("ssl:")[0];
    SkipBlank("ssl:x", 0, false);
    SkipBlank("ssl:x", 1, true);
    assert " " + "ssl:x" == rest;
    NameAndTail("ssl:x", "");
    assert "ssl:x" + "" == "ssl:x";
  }

  // ----- the order -------------------------------------------------------------------------

  predicate FalseFirst(a: bool, b: bool) {
    !a && b
  }

  /** `operator<`. */
  predicate Precedes(a: Server, b: Server) {
    if Multimap.Less(a.name, b.name) then true
    else if Multimap.Less(b.name, a.name) then false
    else if a.port < b.port then true
    else if b.port < a.port then false
    else if Multimap.Less(a.pass, b.pass) then true
    else if Multimap.Less(b.pass, a.pass) then false
    else if FalseFirst(a.ssl, b.ssl) then true
    else if FalseFirst(b.ssl, a.ssl) then false
    else FalseFirst(a.unixSocket, b.unixSocket)
  }

  /** At most one of two servers precedes the other, and neither does exactly when they agree in
      every field, which is `operator==`. */
  lemma PrecedesTotal(a: Server, b: Server)
    ensures !(Precedes(a, b) && Precedes(b, a))
    ensures !Precedes(a, b) && !Precedes(b, a) <==> a == b
  {
    Multimap.LessTotal(a.name, b.name);
    Multimap.LessTotal(a.pass, b.pass);
  }

  lemma PrecedesTransitive(a: Server, b: Server, c: Server)
    requires Precedes(a, b) && Precedes(b, c)
    ensures Precedes(a, c)
  {
    Multimap.LessTotal(a.name, b.name);
    Multimap.LessTotal(b.name, c.name);
    Multimap.LessTotal(a.name, c.name);
    Multimap.LessTransitive(a.name, b.name, c.name);
    Multimap.LessTotal(a.pass, b.pass);
    Multimap.LessTotal(b.pass, c.pass);
    Multimap.LessTotal(a.pass, c.pass);
    Multimap.LessTransitive(a.pass, b.pass, c.pass);
  }
}
