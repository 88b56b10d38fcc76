/** The channel mode engine of `CChan`: the letter interpreter, its tokeniser and its printer. */
module ChanModes {
  import opened Strings
  import OrderedSets

  datatype ModeType = ListArg | HasArg | NoArg | ArgWhenSet

  /** What the server announced about modes; `me` is the current nick. */
  datatype Server = Server(permModes: string, perms: string, types: map<char, ModeType>, me: string) {
    predicate IsPermMode(c: char) {
      c != '\0' && c in permModes
    }

    function GetModeType(c: char): ModeType {
      if c in types then types[c] else NoArg
    }

    /** The permission character of a mode, NUL if there is none. */
    function GetPermFromMode(c: char): char {
      if |permModes| != |perms| then '\0' else PermAt(permModes, perms, c)
    }
  }

  function PermAt(modes: string, perms: string, c: char): char
    requires |modes| == |perms|
  {
    if modes == "" then '\0'
    else if modes[0] == c then perms[0]
    else PermAt(modes[1..], perms[1..], c)
  }

  datatype Chan = Chan(modes: map<char, string>, nicks: map<string, set<char>>, ownPerms: set<char>, key: string)

  /** The interpreter between two letters: the sign in force and the arguments still unused. */
  datatype Cursor = Cursor(chan: Chan, add: bool, args: seq<string>)

  function Head(args: seq<string>): string { if args == [] then "" else args[0] }

  function Tail(args: seq<string>): seq<string> { if args == [] then [] else args[1..] }

  predicate HasMode(ch: Chan, c: char) { c != '\0' && c in ch.modes }

  function SetPerm(server: Server, ch: Chan, nick: string, perm: char, add: bool): Chan {
    if nick !in ch.nicks || perm == '\0' then ch
    else
      var change := (s: set<char>) => if add then s + {perm} else s - {perm};
      ch.(nicks := ch.nicks[nick := change(ch.nicks[nick])],
          ownPerms := if EqualsNoCase(nick, server.me) then change(ch.ownPerms) else ch.ownPerms)
  }

  predicate TakesArg(server: Server, c: char, add: bool) {
    match server.GetModeType(c)
    case ListArg => true
    case HasArg => true
    case NoArg => false
    case ArgWhenSet => add
  }

  function SetMode(server: Server, ch: Chan, c: char, arg: string, add: bool): Chan {
    var list := server.GetModeType(c).ListArg?;
    var noChange :=
      if list then false
      else if add then HasMode(ch, c) && ch.modes[c] == arg
      else !HasMode(ch, c);
    var modes :=
      if list then ch.modes
      else if add then ch.modes[c := arg]
      else if HasMode(ch, c) then ch.modes - {c}
      else ch.modes;
    ch.(modes := modes, key := if c == 'k' && !noChange && add && arg != "*" then arg else ch.key)
  }

  function Letter(server: Server, cur: Cursor, c: char): Cursor {
    if c == '+' then cur.(add := true)
    else if c == '-' then cur.(add := false)
    else if server.IsPermMode(c) then
      Cursor(SetPerm(server, cur.chan, Head(cur.args), server.GetPermFromMode(c), cur.add), cur.add, Tail(cur.args))
    else if TakesArg(server, c, cur.add) then
      Cursor(SetMode(server, cur.chan, c, Head(cur.args), cur.add), cur.add, Tail(cur.args))
    else cur.(chan := SetMode(server, cur.chan, c, "", cur.add))
  }

  function Letters(server: Server, cur: Cursor, modes: string): Cursor
    decreases |modes|
  {
    if modes == "" then cur else Letters(server, Letter(server, cur, modes[0]), modes[1..])
  }

  /** The arguments of a mode line: space-separated, one introduced by a colon taking the rest. */
  function Args(s: string): seq<string>
    decreases |s|
  {
    if s == "" then []
    else if StartsWith(s, ":") then [s[1..]]
    else
      RestIsShorter(s);
      [Token(s, 0, false, ' ')] + Args(Token(s, 1, true, ' '))
  }

  lemma RestIsShorter(s: string)
    requires s != ""
    ensures |Token(s, 1, true, ' ')| < |s|
  {
    var t := TrimLeft(s, {' '});
    TrimLeftSuffix(s, {' '});
    assert Token(s, 1, true, ' ') == Token(From(t, ' '), 0, true, ' ');
    TrimLeftSuffix(From(t, ' '), {' '});
  }

  function Change(server: Server, ch: Chan, line: string): Chan {
    var head := Token(line, 0, false, ' ');
    var args := if StartsWith(head, ":") then [] else Args(Token(line, 1, true, ' '));
    Letters(server, Cursor(ch, true, args), TrimPrefix(head, ":")).chan
  }

  // ----- Printing -----

  predicate CharLess(a: char, b: char) { a < b }

  function ArgText(vals: seq<string>): string {
    if vals == [] then ""
    else (if vals[0] == "" then "" else " " + vals[0]) + ArgText(vals[1..])
  }

  lemma ArgTextStep(args: string, vals: seq<string>, i: nat)
    requires i < |vals|
    ensures args + ArgText(vals[i..])
         == (if vals[i] == "" then args else args + (" " + vals[i])) + ArgText(vals[i + 1..])
  {
    assert vals[i..][1..] == vals[i + 1..];
    var rest := ArgText(vals[i + 1..]);
    if vals[i] == "" {
      assert "" + rest == rest;
    } else {
      assert args + ((" " + vals[i]) + rest) == (args + (" " + vals[i])) + rest;
    }
  }

  /** The values of some modes. */
  function Vals(modes: map<char, string>, letters: string): (r: seq<string>)
    requires forall c :: c in letters ==> c in modes
    ensures |r| == |letters|
    ensures forall i :: 0 <= i < |r| ==> r[i] == modes[letters[i]]
  {
    seq(|letters|, i requires 0 <= i < |letters| => modes[letters[i]])
  }

  function Sorted(modes: map<char, string>): string {
    OrderedSets.Ascending(modes.Keys, CharLess)
  }

  function ModeString(modes: map<char, string>): string {
    var letters := Sorted(modes);
    if letters == "" then "" else "+" + letters + ArgText(Vals(modes, letters))
  }

  method PrintModes(order: string, vals: seq<string>) returns (letters: string, args: string)
    requires |order| == |vals|
    ensures letters == order && args == ArgText(vals)
  {
    letters, args := "", "";
    assert vals[0..] == vals;
    var i := 0;
    while i < |order|
      invariant i <= |order| && letters == order[..i]
      invariant args + ArgText(vals[i..]) == ArgText(vals)
    {
      letters := letters + [order[i]];
      ArgTextStep(args, vals, i);
      if vals[i] != "" {
        args := args + (" " + vals[i]);
      }
      i := i + 1;
    }
    assert order[..i] == order && ArgText(vals[i..]) == "";
  }

  class CChan {
    const server: Server
    var modes: map<char, string>
    var nicks: map<string, set<char>>
    var ownPerms: set<char>
    var key: string

    function Value(): Chan
      reads this
    {
      Chan(modes, nicks, ownPerms, key)
    }

    constructor (server: Server)
      ensures this.server == server && Value() == Chan(map[], map[], {}, "")
    {
      this.server := server;
      modes, nicks, ownPerms, key := map[], map[], {}, "";
    }

    method AddMode(c: char, arg: string)
      modifies this`modes
      ensures modes == old(modes)[c := arg]
    {
      modes := modes[c := arg];
    }

    method RemMode(c: char)
      modifies this`modes
      ensures modes == if HasMode(old(Value()), c) then old(modes) - {c} else old(modes)
    {
      if HasMode(Value(), c) {
        modes := modes - {c};
      }
    }

    method GetModeString() returns (text: string)
      ensures text == ModeString(modes)
    {
      var order := Sorted(modes);
      var letters, args := PrintModes(order, Vals(modes, order));
      text := if letters == "" then letters else "+" + letters + args;
    }

    method ChangePerm(c: char, nick: string, add: bool)
      modifies this
      ensures Value() == SetPerm(server, old(Value()), nick, server.GetPermFromMode(c), add)
    {
      var perm := server.GetPermFromMode(c);
      if nick in nicks && perm != '\0' {
        if add {
          nicks := nicks[nick := nicks[nick] + {perm}];
          if EqualsNoCase(nick, server.me) {
            ownPerms := ownPerms + {perm};
          }
        } else {
          nicks := nicks[nick := nicks[nick] - {perm}];
          if EqualsNoCase(nick, server.me) {
            ownPerms := ownPerms - {perm};
          }
        }
      }
    }

    method ChangeLetter(c: char, arg: string, add: bool)
      modifies this
      ensures Value() == SetMode(server, old(Value()), c, arg, add)
    {
      var list := server.GetModeType(c).ListArg?;
      var noChange: bool;
      if list {
        noChange := false;
      } else if add {
        noChange := HasMode(Value(), c) && modes[c] == arg;
      } else {
        noChange := !HasMode(Value(), c);
      }
      if !list {
        if add {
          AddMode(c, arg);
        } else {
          RemMode(c);
        }
      }
      if c == 'k' && !noChange && add && arg != "*" {
        key := arg;
      }
    }

    /** Letters from left to right, arguments consumed in order. */
    method ModeChangeArgs(letters: string, args: seq<string>)
      modifies this
      ensures Value() == Letters(server, Cursor(old(Value()), true, args), letters).chan
    {
      var add, next, a := true, 0, 0;
      while a < |letters|
        invariant a <= |letters| && next <= |args|
        invariant Letters(server, Cursor(Value(), add, args[next..]), letters[a..])
               == Letters(server, Cursor(old(Value()), true, args), letters)
      {
        var c := letters[a];
        ghost var cur := Cursor(Value(), add, args[next..]);
        assert letters[a..][0] == c && letters[a..][1..] == letters[a + 1..];
        if c == '+' {
          add := true;
        } else if c == '-' {
          add := false;
        } else {
          var perm := server.IsPermMode(c);
          var arg := "";
          if perm || TakesArg(server, c, add) {
            if next < |args| {
              arg := args[next];
              assert args[next..][1..] == args[next + 1..];
              next := next + 1;
            }
          }
          if perm {
            ChangePerm(c, arg, add);
          } else {
            ChangeLetter(c, arg, add);
          }
        }
        assert Cursor(Value(), add, args[next..]) == Letter(server, cur, c);
        a := a + 1;
      }
    }

    method ReadArgs(text: string) returns (args: seq<string>)
      ensures args == Args(text)
    {
      args := [];
      var rest := text;
      while rest != ""
        invariant args + Args(rest) == Args(text)
        decreases |rest|
      {
        if StartsWith(rest, ":") {
          args := args + [rest[1..]];
          rest := "";
        } else {
          RestIsShorter(rest);
          args := args + [Token(rest, 0, false, ' ')];
          rest := Token(rest, 1, true, ' ');
        }
      }
      assert args + [] == args;
    }

    method ModeChange(line: string)
      modifies this
      ensures Value() == Change(server, old(Value()), line)
    {
      var head := Token(line, 0, false, ' ');
      var colon := StartsWith(head, ":");
      var args: seq<string> := [];
      if !colon {
        args := ReadArgs(Token(line, 1, true, ' '));
      }
      ModeChangeArgs(TrimPrefix(head, ":"), args);
    }

    method SetModes(line: string)
      modifies this
      ensures Value() == Change(server, old(Value()).(modes := map[]), line)
    {
      modes := map[];
      ModeChange(line);
    }
  }

  // ----- Printing modes and setting them again -----

  predicate Plain(arg: string) {
    arg != "" && ' ' !in arg && arg[0] != ':'
  }

  /** A mode letter that goes into the mode map when set. */
  predicate Settable(server: Server, c: char) {
    c != '+' && c != '-' && !server.IsPermMode(c) && !server.GetModeType(c).ListArg?
  }

  /** Values whose printed arguments line up with the letters again: none where none is taken, and
      otherwise plain ones first, empty ones only behind all others. */
  predicate LinesUp(server: Server, letters: string, vals: seq<string>)
    requires |letters| == |vals|
  {
    if letters == "" then true
    else if !TakesArg(server, letters[0], true) then
      vals[0] == "" && LinesUp(server, letters[1..], vals[1..])
    else if vals[0] == "" then forall v :: v in vals ==> v == ""
    else Plain(vals[0]) && LinesUp(server, letters[1..], vals[1..])
  }

  /** The arguments the letters are given, in order. */
  function Assigned(server: Server, letters: string, args: seq<string>): (r: seq<string>)
    ensures |r| == |letters|
    decreases |letters|
  {
    if letters == "" then []
    else if TakesArg(server, letters[0], true) then
      [Head(args)] + Assigned(server, letters[1..], Tail(args))
    else [""] + Assigned(server, letters[1..], args)
  }

  function Strip(s: string): string { TrimLeft(s, {' '}) }

  lemma ArgsOfWord(a: string, more: string)
    requires Plain(a) && (more == "" || more[0] == ' ')
    ensures Strip(" " + a + more) == a + more
    ensures Args(a + more) == [a] + Args(Strip(more))
  {
    var s := a + more;
    assert " " + a + more == " " + s;
    assert a[0] in a;
    TrimLeftAround(" ", s, {' '});
    StartsWithExact(s, ":");
    FirstTokens(s, ' ');
    BeforeAround(a, ' ', more);
  }

  lemma SplitFirst(vals: seq<string>)
    requires vals != []
    ensures (forall v :: v in vals ==> v == "") <==> vals[0] == "" && forall v :: v in vals[1..] ==> v == ""
  {
    forall v ensures v in vals <==> v == vals[0] || v in vals[1..] {
      assert vals == [vals[0]] + vals[1..];
    }
    assert vals[0] in vals;
  }

  lemma {:induction false} ArgTextShape(vals: seq<string>)
    ensures ArgText(vals) == "" || ArgText(vals)[0] == ' '
    ensures ArgText(vals) == "" <==> forall v :: v in vals ==> v == ""
  {
    if vals != [] {
      ArgTextShape(vals[1..]);
      SplitFirst(vals);
    }
  }

  lemma {:induction false} NothingAssigned(server: Server, letters: string)
    ensures forall v :: v in Assigned(server, letters, []) ==> v == ""
    decreases |letters|
  {
    if letters != "" {
      NothingAssigned(server, letters[1..]);
    }
  }

  lemma {:induction false} AllEmpty(vals: seq<string>, others: seq<string>)
    requires |vals| == |others|
    requires (forall v :: v in vals ==> v == "") && (forall v :: v in others ==> v == "")
    ensures vals == others
  {
    forall i | 0 <= i < |vals| ensures vals[i] == others[i] {
      assert vals[i] in vals && others[i] in others;
    }
  }

  /** Values that line up are read back. */
  lemma {:induction false} LinedUpReadsBack(server: Server, letters: string, vals: seq<string>)
    requires |letters| == |vals| && LinesUp(server, letters, vals)
    ensures Assigned(server, letters, Args(Strip(ArgText(vals)))) == vals
    decreases |letters|
  {
    if letters == "" {
    } else if !TakesArg(server, letters[0], true) {
      LinedUpReadsBack(server, letters[1..], vals[1..]);
      assert "" + ArgText(vals[1..]) == ArgText(vals[1..]);
      assert vals == [""] + vals[1..];
    } else if vals[0] == "" {
      ArgTextShape(vals);
      NothingAssigned(server, letters);
      AllEmpty(vals, Assigned(server, letters, []));
    } else {
      var more := ArgText(vals[1..]);
      LinedUpReadsBack(server, letters[1..], vals[1..]);
      ArgTextShape(vals[1..]);
      ArgsOfWord(vals[0], more);
      assert vals == [vals[0]] + vals[1..];
    }
  }

  /** A nonempty first argument of a text without blanks in front begins it, and is plain unless the
      text begins with a colon. */
  lemma FirstArgPlain(a: string, t: string)
    requires t == Strip(t) && t != "" && !StartsWith(t, ":") && a == Head(Args(t)) && a != ""
    ensures Plain(a)
  {
    StartsWithExact(t, ":");
    assert a == Token(t, 0, false, ' ');
    FirstTokens(t, ' ');
    BeforePrefix(t, ' ');
    assert a[0] == t[0];
  }

  lemma StripOnce(s: string)
    ensures Strip(" " + s) == Strip(s) && Strip(Strip(s)) == Strip(s) && |Strip(s)| <= |s|
  {
    assert (" " + s)[1..] == s;
    TrimLeftSuffix(s, {' '});
  }

  /** The first argument read from a nonempty value that is read back. */
  lemma FirstReadBack(a: string, more: string)
    requires a != "" && (more == "" || more[0] == ' ')
    requires Head(Args(Strip(" " + a + more))) == a
    requires StartsWith(Strip(" " + a + more), ":") ==> more == ""
    ensures Plain(a)
  {
    var s, t := a + more, Strip(a + more);
    assert " " + a + more == " " + s;
    StripOnce(s);
    ColonIsShorter(t);
    assert more == "" ==> |s| == |a|;
    FirstArgPlain(a, t);
  }

  /** What a colon introduces is shorter than the text it begins. */
  lemma ColonIsShorter(t: string)
    ensures StartsWith(t, ":") ==> |Head(Args(t))| < |t|
  {
    StartsWithExact(t, ":");
  }

  /** Only values that line up are read back. */
  lemma {:induction false} OnlyLinedUpReadsBack(server: Server, letters: string, vals: seq<string>)
    requires |letters| == |vals|
    requires Assigned(server, letters, Args(Strip(ArgText(vals)))) == vals
    ensures LinesUp(server, letters, vals)
    decreases |letters|
  {
    if letters != "" {
      var args := Args(Strip(ArgText(vals)));
      var more := ArgText(vals[1..]);
      var next := if TakesArg(server, letters[0], true) then Tail(args) else args;
      assert Assigned(server, letters[1..], next) == vals[1..] by {
        assert Assigned(server, letters, args)[1..] == Assigned(server, letters[1..], next);
      }
      if !TakesArg(server, letters[0], true) {
        assert "" + more == more;
        OnlyLinedUpReadsBack(server, letters[1..], vals[1..]);
      } else if Tail(args) == [] {
        NothingAssigned(server, letters[1..]);
        SplitFirst(vals);
        if vals[0] != "" {
          ArgTextShape(vals[1..]);
          assert ArgText(vals) == " " + vals[0] + more;
          FirstReadBack(vals[0], more);
          RestLinesUp(server, letters[1..], vals[1..]);
        }
      } else {
        var t := Strip(ArgText(vals));
        assert !StartsWith(t, ":");
        assert args[0] != "" by { FirstArgNonempty(t); }
        ArgTextShape(vals[1..]);
        assert ArgText(vals) == " " + vals[0] + more;
        FirstReadBack(vals[0], more);
        ArgsOfWord(vals[0], more);
        OnlyLinedUpReadsBack(server, letters[1..], vals[1..]);
      }
    }
  }

  lemma FirstArgNonempty(t: string)
    requires t == Strip(t) && t != "" && !StartsWith(t, ":")
    ensures Args(t)[0] != ""
  {
    FirstTokens(t, ' ');
  }

  lemma {:induction false} RestLinesUp(server: Server, letters: string, vals: seq<string>)
    requires |letters| == |vals| && forall v :: v in vals ==> v == ""
    ensures LinesUp(server, letters, vals)
  {
    if letters != "" {
      SplitFirst(vals);
      RestLinesUp(server, letters[1..], vals[1..]);
    }
  }

  // ----- The round trip of whole mode maps -----

  /** The arguments of a whole printed mode string. */
  lemma PrintedTokens(letters: string, args: string)
    requires ' ' !in letters && (args == "" || args[0] == ' ')
    ensures Token("+" + letters + args, 0, false, ' ') == "+" + letters
    ensures Token("+" + letters + args, 1, true, ' ') == Strip(args)
  {
    var s := "+" + letters + args;
    FirstTokens(s, ' ');
    BeforeAround("+" + letters, ' ', args);
  }

  lemma PlusIsNoColon(letters: string)
    ensures TrimPrefix("+" + letters, ":") == "+" + letters && !StartsWith("+" + letters, ":")
  {
    StartsWithExact("+" + letters, ":");
    assert ("+" + letters)[0] == '+';
  }

  /** The map with some letters set to some values. */
  function SetAll(modes: map<char, string>, letters: string, vals: seq<string>): map<char, string>
    requires |letters| == |vals|
    decreases |letters|
  {
    if letters == "" then modes else SetAll(modes[letters[0] := vals[0]], letters[1..], vals[1..])
  }

  lemma {:induction false} LettersSetAll(server: Server, cur: Cursor, letters: string)
    requires cur.add && forall c :: c in letters ==> Settable(server, c)
    ensures Letters(server, cur, letters).chan.modes
         == SetAll(cur.chan.modes, letters, Assigned(server, letters, cur.args))
    decreases |letters|
  {
    if letters != "" {
      assert letters[0] in letters;
      var next := Letter(server, cur, letters[0]);
      LettersSetAll(server, next, letters[1..]);
    }
  }

  lemma {:induction false} SetAllValue(modes: map<char, string>, letters: string, vals: seq<string>, c: char)
    requires |letters| == |vals| && forall i, j :: 0 <= i < j < |letters| ==> letters[i] != letters[j]
    ensures c in SetAll(modes, letters, vals) <==> c in modes || c in letters
    ensures c !in letters && c in modes ==> SetAll(modes, letters, vals)[c] == modes[c]
    ensures forall i :: 0 <= i < |letters| && letters[i] == c ==> SetAll(modes, letters, vals)[c] == vals[i]
    decreases |letters|
  {
    if letters != "" {
      var more := modes[letters[0] := vals[0]];
      SetAllValue(more, letters[1..], vals[1..], c);
      assert letters == [letters[0]] + letters[1..];
      forall i | 0 <= i < |letters| && letters[i] == c
        ensures SetAll(modes, letters, vals)[c] == vals[i]
      {
        if i > 0 {
          assert letters[1..][i - 1] == c && vals[1..][i - 1] == vals[i];
        } else {
          forall j | 0 <= j < |letters[1..]| ensures letters[1..][j] != c {
            assert letters[1..][j] == letters[j + 1];
          }
        }
      }
    }
  }

  /** Setting the letters of a map restores it exactly when each gets its own value. */
  lemma SetAllRestores(modes: map<char, string>, vals: seq<string>)
    requires |vals| == |Sorted(modes)|
    ensures SetAll(map[], Sorted(modes), vals) == modes <==> vals == Vals(modes, Sorted(modes))
  {
    var letters := Sorted(modes);
    var result := SetAll(map[], letters, vals);
    forall c ensures c in result <==> c in modes {
      SetAllValue(map[], letters, vals, c);
    }
    forall i | 0 <= i < |letters| ensures letters[i] in result && result[letters[i]] == vals[i] {
      SetAllValue(map[], letters, vals, letters[i]);
    }
    SameIff(modes, result, letters, vals);
  }

  lemma SameIff(modes: map<char, string>, result: map<char, string>, letters: string, vals: seq<string>)
    requires |vals| == |letters| && forall c :: c in letters <==> c in modes
    requires result.Keys == modes.Keys
    requires forall i :: 0 <= i < |letters| ==> letters[i] in result && result[letters[i]] == vals[i]
    ensures result == modes <==> vals == Vals(modes, letters)
  {
    if vals == Vals(modes, letters) {
      forall c | c in modes ensures result[c] == modes[c] {
        var i :| 0 <= i < |letters| && letters[i] == c;
      }
    }
  }

  /** Only settable letters of the line get into an empty mode map. */
  lemma {:induction false} OnlySettable(server: Server, cur: Cursor, letters: string, c: char)
    requires c in Letters(server, cur, letters).chan.modes && c !in cur.chan.modes
    ensures c in letters && Settable(server, c)
    decreases |letters|
  {
    if letters != "" {
      var next := Letter(server, cur, letters[0]);
      if c !in next.chan.modes {
        OnlySettable(server, next, letters[1..], c);
        assert letters == [letters[0]] + letters[1..];
      }
    }
  }

  predicate SettableOnly(server: Server, modes: map<char, string>) {
    forall c :: c in modes ==> Settable(server, c) && c != ' '
  }

  /** The mode maps that `SetModes(GetModeString())` restores: settable letters, no blank among them,
      values that line up. */
  predicate Restorable(server: Server, modes: map<char, string>) {
    SettableOnly(server, modes) && LinesUp(server, Sorted(modes), Vals(modes, Sorted(modes)))
  }

  /** What printed values are read back as. */
  function ReadBack(server: Server, letters: string, vals: seq<string>): seq<string> {
    Assigned(server, letters, Args(Strip(ArgText(vals))))
  }

  lemma ReadBackIff(server: Server, letters: string, vals: seq<string>)
    requires |letters| == |vals|
    ensures ReadBack(server, letters, vals) == vals <==> LinesUp(server, letters, vals)
  {
    if LinesUp(server, letters, vals) {
      LinedUpReadsBack(server, letters, vals);
    } else if ReadBack(server, letters, vals) == vals {
      OnlyLinedUpReadsBack(server, letters, vals);
    }
  }

  lemma SetPrintedModes(server: Server, ch: Chan, modes: map<char, string>)
    requires SettableOnly(server, modes)
    ensures Change(server, ch.(modes := map[]), ModeString(modes)).modes
         == SetAll(map[], Sorted(modes), ReadBack(server, Sorted(modes), Vals(modes, Sorted(modes))))
  {
    var letters := Sorted(modes);
    var text := ArgText(Vals(modes, letters));
    var empty := ch.(modes := map[]);
    if letters == "" {
      assert Token("", 0, false, ' ') == "";
      StartsWithExact("", ":");
      assert Change(server, empty, "").modes == map[];
    } else {
      ArgTextShape(Vals(modes, letters));
      PrintedTokens(letters, text);
      PlusIsNoColon(letters);
      var args := Args(Strip(text));
      var start := Cursor(empty, true, args);
      assert ("+" + letters)[0] == '+' && ("+" + letters)[1..] == letters;
      assert Letters(server, start, "+" + letters) == Letters(server, start, letters);
      LettersSetAll(server, start, letters);
    }
  }

  lemma BadLetterLost(server: Server, ch: Chan, modes: map<char, string>, c: char)
    requires c in modes && (c == ' ' || !Settable(server, c))
    ensures c !in Change(server, ch.(modes := map[]), ModeString(modes)).modes
  {
    var empty := ch.(modes := map[]);
    var line := ModeString(modes);
    var head := Token(line, 0, false, ' ');
    var args := if StartsWith(head, ":") then [] else Args(Token(line, 1, true, ' '));
    var letters := TrimPrefix(head, ":");
    if c in Letters(server, Cursor(empty, true, args), letters).chan.modes {
      OnlySettable(server, Cursor(empty, true, args), letters, c);
    }
  }

  lemma BadLettersLost(server: Server, ch: Chan, modes: map<char, string>)
    requires !SettableOnly(server, modes)
    ensures Change(server, ch.(modes := map[]), ModeString(modes)).modes != modes
  {
    var c :| c in modes && (c == ' ' || !Settable(server, c));
    BadLetterLost(server, ch, modes, c);
  }

  lemma SettableRestored(server: Server, ch: Chan, modes: map<char, string>, letters: string, vals: seq<string>)
    requires SettableOnly(server, modes)
    requires letters == Sorted(modes) && vals == Vals(modes, letters)
    ensures Change(server, ch.(modes := map[]), ModeString(modes)).modes == modes <==> LinesUp(server, letters, vals)
  {
    SetPrintedModes(server, ch, modes);
    SetAllRestores(modes, ReadBack(server, letters, vals));
    ReadBackIff(server, letters, vals);
  }

  /** Printing the modes of a channel and setting them from the printed string restores the mode map
      if and only if it is restorable, whatever else the channel holds. */
  lemma RestoredIffRestorable(server: Server, ch: Chan, modes: map<char, string>)
    ensures Change(server, ch.(modes := map[]), ModeString(modes)).modes == modes
       <==> Restorable(server, modes)
  {
    if SettableOnly(server, modes) {
      SettableRestored(server, ch, modes, Sorted(modes), Vals(modes, Sorted(modes)));
    } else {
      BadLettersLost(server, ch, modes);
    }
  }

  /** A channel key that begins with a colon loses it. */
  lemma ColonKeyIsLost(server: Server, ch: Chan)
    requires server.GetModeType('k').HasArg? && !server.IsPermMode('k')
    ensures Change(server, ch.(modes := map[]), ModeString(map['k' := ":x"])).modes != map['k' := ":x"]
  {
    var modes := map['k' := ":x"];
    var letters := Sorted(modes);
    assert letters == "k" by {
      assert modes.Keys == {'k'};
      assert letters[0] in letters;
    }
    assert Vals(modes, letters)[0] == ":x";
    RestoredIffRestorable(server, ch, modes);
  }
}
