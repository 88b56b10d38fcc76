/** What a mode line does to a channel, told from the positions of its letters. */
module ChanLetters {
  import opened Strings
  import opened ChanModes

  // ----- Signs and arguments by position -----

  /** The sign in force at a position: the last plus or minus in front of it, a plus if there is none. */
  function Plus(letters: string, i: nat): bool
    requires i <= |letters|
  {
    if i == 0 || letters[i - 1] == '+' then true
    else if letters[i - 1] == '-' then false
    else Plus(letters, i - 1)
  }

  /** Whether the letter at a position takes an argument: permissions and lists always, other modes as
      the server has announced, some of them only when they are set. */
  predicate Takes(server: Server, letters: string, i: nat)
    requires i < |letters|
  {
    var c := letters[i];
    && c != '+' && c != '-'
    && ((c != '\0' && c in server.permModes)
        || (c in server.types
            && (server.types[c] == ListArg || server.types[c] == HasArg
                || (server.types[c] == ArgWhenSet && Plus(letters, i)))))
  }

  /** How many arguments the letters in front of a position take. */
  function Used(server: Server, letters: string, i: nat): nat
    requires i <= |letters|
  {
    if i == 0 then 0 else Used(server, letters, i - 1) + if Takes(server, letters, i - 1) then 1 else 0
  }

  /** The argument of the letter at a position, empty if it takes none or none is left. */
  function ArgAt(server: Server, letters: string, args: seq<string>, i: nat): string
    requires i < |letters|
  {
    var k := Used(server, letters, i);
    if Takes(server, letters, i) && k < |args| then args[k] else ""
  }

  // ----- The interpreter in front of a position -----

  function Upto(server: Server, ch: Chan, letters: string, args: seq<string>, n: nat): Cursor
    requires n <= |letters|
  {
    Letters(server, Cursor(ch, true, args), letters[..n])
  }

  lemma {:induction false} LastLetter(server: Server, cur: Cursor, letters: string, c: char)
    ensures Letters(server, cur, letters + [c]) == Letter(server, Letters(server, cur, letters), c)
    decreases |letters|
  {
    if letters == "" {
      assert (letters + [c])[1..] == "";
    } else {
      assert (letters + [c])[1..] == letters[1..] + [c];
      LastLetter(server, Letter(server, cur, letters[0]), letters[1..], c);
    }
  }

  lemma OneMoreLetter(server: Server, ch: Chan, letters: string, args: seq<string>, n: nat)
    requires n < |letters|
    ensures Upto(server, ch, letters, args, n + 1) == Letter(server, Upto(server, ch, letters, args, n), letters[n])
  {
    assert letters[..n + 1] == letters[..n] + [letters[n]];
    LastLetter(server, Cursor(ch, true, args), letters[..n], letters[n]);
  }

  function Left(args: seq<string>, used: nat): seq<string> {
    if used <= |args| then args[used..] else []
  }

  /** The sign and the arguments left are those of the position. */
  lemma {:induction false} CursorAt(server: Server, ch: Chan, letters: string, args: seq<string>, n: nat)
    requires n <= |letters|
    ensures var cur := Upto(server, ch, letters, args, n);
            cur.add == Plus(letters, n) && cur.args == Left(args, Used(server, letters, n))
    decreases n
  {
    if n > 0 {
      CursorAt(server, ch, letters, args, n - 1);
      OneMoreLetter(server, ch, letters, args, n - 1);
      TakesIs(server, letters, n - 1);
    } else {
      assert letters[..0] == "";
    }
  }

  lemma TakesIs(server: Server, letters: string, i: nat)
    requires i < |letters|
    ensures var c := letters[i];
            Takes(server, letters, i)
              == (c != '+' && c != '-' && (server.IsPermMode(c) || TakesArg(server, c, Plus(letters, i))))
  {
  }

  /** What one letter does to the channel, its sign and argument given by its position. */
  function Done(server: Server, ch: Chan, letters: string, args: seq<string>, i: nat): Chan
    requires i < |letters|
  {
    var c, arg, add := letters[i], ArgAt(server, letters, args, i), Plus(letters, i);
    if c == '+' || c == '-' then ch
    else if server.IsPermMode(c) then SetPerm(server, ch, arg, server.GetPermFromMode(c), add)
    else SetMode(server, ch, c, arg, add)
  }

  lemma OneMoreDone(server: Server, ch: Chan, letters: string, args: seq<string>, n: nat)
    requires n < |letters|
    ensures Upto(server, ch, letters, args, n + 1).chan
         == Done(server, Upto(server, ch, letters, args, n).chan, letters, args, n)
  {
    OneMoreLetter(server, ch, letters, args, n);
    CursorAt(server, ch, letters, args, n);
    TakesIs(server, letters, n);
  }

  // ----- Modes -----

  /** The position is the last one of a letter among the first n. */
  predicate LastOf(letters: string, c: char, n: nat, i: nat)
    requires n <= |letters|
  {
    i < n && letters[i] == c && forall j :: i < j < n ==> letters[j] != c
  }

  /** A letter that stands for a mode of the channel itself: no permission and no list. */
  predicate ModeLetter(server: Server, c: char) {
    c != '+' && c != '-' && c != '\0' && c !in server.permModes && !(c in server.types && server.types[c] == ListArg)
  }

  /** How a mode stands after the first n letters. */
  ghost predicate ModeStands(server: Server, ch: Chan, letters: string, args: seq<string>, n: nat, c: char,
                             modes: map<char, string>)
    requires n <= |letters|
  {
    && (c !in letters[..n] ==> (c in modes <==> c in ch.modes) && (c in modes ==> modes[c] == ch.modes[c]))
    && forall i: nat :: LastOf(letters, c, n, i) ==>
         (c in modes <==> Plus(letters, i)) && (c in modes ==> modes[c] == ArgAt(server, letters, args, i))
  }

  lemma OneMode(server: Server, ch: Chan, letters: string, args: seq<string>, i: nat, c: char)
    requires i < |letters| && ModeLetter(server, c)
    ensures var modes := Done(server, ch, letters, args, i).modes;
            if letters[i] == c then
              (c in modes <==> Plus(letters, i)) && (c in modes ==> modes[c] == ArgAt(server, letters, args, i))
            else (c in modes <==> c in ch.modes) && (c in modes ==> modes[c] == ch.modes[c])
  {
  }

  lemma {:induction false} ModesAt(server: Server, ch: Chan, letters: string, args: seq<string>, n: nat, c: char)
    requires n <= |letters| && ModeLetter(server, c)
    ensures ModeStands(server, ch, letters, args, n, c, Upto(server, ch, letters, args, n).chan.modes)
    decreases n
  {
    if n > 0 {
      var m := n - 1;
      ModesAt(server, ch, letters, args, m, c);
      OneMoreDone(server, ch, letters, args, m);
      OneMode(server, Upto(server, ch, letters, args, m).chan, letters, args, m, c);
      assert letters[..n] == letters[..m] + [letters[m]];
      forall i: nat | LastOf(letters, c, n, i) ensures i == m || LastOf(letters, c, m, i) {
      }
    } else {
      assert letters[..0] == "";
    }
  }

  /** A mode is set exactly if the sign at its last letter is a plus, with the argument that letter
      takes; a mode without a letter stays as it was. */
  lemma ModesMean(server: Server, ch: Chan, letters: string, args: seq<string>, c: char)
    requires ModeLetter(server, c)
    ensures ModeStands(server, ch, letters, args, |letters|, c,
                       Letters(server, Cursor(ch, true, args), letters).chan.modes)
  {
    ModesAt(server, ch, letters, args, |letters|, c);
    assert letters[..|letters|] == letters;
  }

  /** Signs, permissions and lists are never among the modes of the channel. */
  lemma {:induction false} OnlyModeLetters(server: Server, cur: Cursor, letters: string, c: char)
    requires c in {'+', '-'} || (c != '\0' && c in server.permModes)
             || (c in server.types && server.types[c] == ListArg)
    ensures var modes := Letters(server, cur, letters).chan.modes;
            (c in modes <==> c in cur.chan.modes) && (c in modes ==> modes[c] == cur.chan.modes[c])
    decreases |letters|
  {
    if letters != "" {
      OnlyModeLetters(server, Letter(server, cur, letters[0]), letters[1..], c);
    }
  }

  // ----- The channel key -----

  /** A position where a key is set that is not in force already becomes the channel key, unless it is
      a star; no other letter changes the key. */
  lemma KeyMeans(server: Server, ch: Chan, letters: string, args: seq<string>, n: nat)
    requires n < |letters|
    ensures var before := Upto(server, ch, letters, args, n).chan;
            var after := Upto(server, ch, letters, args, n + 1).chan;
            var arg := ArgAt(server, letters, args, n);
            var changes := !('k' in before.modes && before.modes['k'] == arg) || server.GetModeType('k').ListArg?;
            after.key == if letters[n] == 'k' && 'k' !in server.permModes && Plus(letters, n) && changes && arg != "*"
                         then arg else before.key
  {
    OneMoreDone(server, ch, letters, args, n);
  }

  // ----- Permissions -----

  /** The permission a letter stands for: the character at the place of its first occurrence, if the
      server's two lists are equally long. */
  predicate StandsFor(server: Server, c: char, p: char) {
    && c !in {'+', '-', '\0'} && c in server.permModes
    && if |server.permModes| != |server.perms| then p == '\0'
       else exists i :: 0 <= i < |server.permModes| && FirstAt(server.permModes, c, i) && server.perms[i] == p
  }

  predicate FirstAt(s: string, c: char, i: nat)
    requires i < |s|
  {
    s[i] == c && c !in s[..i]
  }

  lemma {:induction false} PermAtIs(modes: string, perms: string, c: char, i: nat)
    requires |modes| == |perms| && i < |modes| && FirstAt(modes, c, i)
    ensures PermAt(modes, perms, c) == perms[i]
    decreases i
  {
    if i > 0 {
      assert modes[0] in modes[..i] && modes[..i][1..] == modes[1..][..i - 1];
      PermAtIs(modes[1..], perms[1..], c, i - 1);
    }
  }

  lemma {:induction false} HasFirst(s: string, c: char) returns (i: nat)
    requires c in s
    ensures i < |s| && FirstAt(s, c, i)
  {
    if s[0] == c {
      i := 0;
    } else {
      i := HasFirst(s[1..], c);
      i := i + 1;
      assert s[..i] == [s[0]] + s[1..][..i - 1];
    }
  }

  lemma StandsForIs(server: Server, c: char, p: char)
    ensures StandsFor(server, c, p)
       <==> c != '+' && c != '-' && server.IsPermMode(c) && server.GetPermFromMode(c) == p
  {
    if server.IsPermMode(c) && |server.permModes| == |server.perms| {
      var i := HasFirst(server.permModes, c);
      PermAtIs(server.permModes, server.perms, c, i);
      if StandsFor(server, c, p) {
        var j :| 0 <= j < |server.permModes| && FirstAt(server.permModes, c, j) && server.perms[j] == p;
        PermAtIs(server.permModes, server.perms, c, j);
      }
    }
  }

  /** A letter for which the server has announced no permission character changes nobody. */
  lemma NoPermission(server: Server, ch: Chan, letters: string, args: seq<string>, i: nat)
    requires i < |letters| && StandsFor(server, letters[i], '\0')
    ensures Done(server, ch, letters, args, i) == ch
  {
    StandsForIs(server, letters[i], '\0');
  }

  /** The letter at a position gives or takes a permission of one of the nicks that match. */
  predicate Touches(server: Server, nicks: set<string>, letters: string, args: seq<string>, p: char, i: nat)
    requires i < |letters|
  {
    StandsFor(server, letters[i], p) && ArgAt(server, letters, args, i) in nicks
  }

  predicate LastTouch(server: Server, nicks: set<string>, letters: string, args: seq<string>, p: char, n: nat, i: nat)
    requires n <= |letters|
  {
    && i < n && Touches(server, nicks, letters, args, p, i)
    && forall j :: i < j < n ==> !Touches(server, nicks, letters, args, p, j)
  }

  /** How a permission stands after the first n letters. */
  ghost predicate PermStands(server: Server, nicks: set<string>, letters: string, args: seq<string>, p: char,
                             n: nat, before: bool, after: bool)
    requires n <= |letters|
  {
    && ((forall i :: 0 <= i < n ==> !Touches(server, nicks, letters, args, p, i)) ==> after == before)
    && forall i: nat :: LastTouch(server, nicks, letters, args, p, n, i) ==> after == Plus(letters, i)
  }

  lemma PermOneMore(server: Server, nicks: set<string>, letters: string, args: seq<string>, p: char, n: nat,
                    before: bool, mid: bool, after: bool)
    requires n < |letters| && PermStands(server, nicks, letters, args, p, n, before, mid)
    requires after == if Touches(server, nicks, letters, args, p, n) then Plus(letters, n) else mid
    ensures PermStands(server, nicks, letters, args, p, n + 1, before, after)
  {
    var m := n + 1;
    forall i: nat | LastTouch(server, nicks, letters, args, p, m, i) ensures after == Plus(letters, i) {
      if i < n {
        assert !Touches(server, nicks, letters, args, p, n);
        assert LastTouch(server, nicks, letters, args, p, n, i);
      }
    }
    if forall i :: 0 <= i < m ==> !Touches(server, nicks, letters, args, p, i) {
      assert !Touches(server, nicks, letters, args, p, n);
    }
  }

  lemma OnePerm(server: Server, ch: Chan, letters: string, args: seq<string>, i: nat, nick: string, p: char)
    requires i < |letters| && nick in ch.nicks && p != '\0'
    ensures var t := Done(server, ch, letters, args, i);
            && t.nicks.Keys == ch.nicks.Keys
            && (p in t.nicks[nick] <==>
                  if Touches(server, {nick}, letters, args, p, i) then Plus(letters, i) else p in ch.nicks[nick])
  {
    StandsForIs(server, letters[i], p);
    NickKeys(server, ch, letters, args, i);
  }

  lemma NickKeys(server: Server, ch: Chan, letters: string, args: seq<string>, i: nat)
    requires i < |letters|
    ensures Done(server, ch, letters, args, i).nicks.Keys == ch.nicks.Keys
  {
  }

  lemma {:induction false} PermsAt(server: Server, ch: Chan, letters: string, args: seq<string>, n: nat,
                                   nick: string, p: char)
    requires n <= |letters| && nick in ch.nicks && p != '\0'
    ensures var t := Upto(server, ch, letters, args, n).chan;
            && t.nicks.Keys == ch.nicks.Keys
            && PermStands(server, {nick}, letters, args, p, n, p in ch.nicks[nick], p in t.nicks[nick])
    decreases n
  {
    if n > 0 {
      var t := Upto(server, ch, letters, args, n - 1).chan;
      PermsAt(server, ch, letters, args, n - 1, nick, p);
      OneMoreDone(server, ch, letters, args, n - 1);
      OnePerm(server, t, letters, args, n - 1, nick, p);
      PermOneMore(server, {nick}, letters, args, p, n - 1, p in ch.nicks[nick], p in t.nicks[nick],
                  p in Upto(server, ch, letters, args, n).chan.nicks[nick]);
    } else {
      assert letters[..0] == "";
    }
  }

  /** The names of this user among the nicks of the channel. */
  function OwnNicks(server: Server, ch: Chan): set<string> {
    set nick | nick in ch.nicks.Keys && Lower(nick) == Lower(server.me)
  }

  lemma OneOwn(server: Server, ch: Chan, letters: string, args: seq<string>, i: nat, own: set<string>, p: char)
    requires i < |letters| && own == OwnNicks(server, ch) && p != '\0'
    ensures var t := Done(server, ch, letters, args, i);
            && OwnNicks(server, t) == own
            && (p in t.ownPerms <==>
                  if Touches(server, own, letters, args, p, i) then Plus(letters, i) else p in ch.ownPerms)
  {
    StandsForIs(server, letters[i], p);
    NickKeys(server, ch, letters, args, i);
  }

  lemma {:induction false} OwnAt(server: Server, ch: Chan, letters: string, args: seq<string>, n: nat,
                                 own: set<string>, p: char)
    requires n <= |letters| && own == OwnNicks(server, ch) && p != '\0'
    ensures var t := Upto(server, ch, letters, args, n).chan;
            && OwnNicks(server, t) == own
            && PermStands(server, own, letters, args, p, n, p in ch.ownPerms, p in t.ownPerms)
    decreases n
  {
    if n > 0 {
      var t := Upto(server, ch, letters, args, n - 1).chan;
      OwnAt(server, ch, letters, args, n - 1, own, p);
      OneMoreDone(server, ch, letters, args, n - 1);
      OneOwn(server, t, letters, args, n - 1, own, p);
      PermOneMore(server, own, letters, args, p, n - 1, p in ch.ownPerms, p in t.ownPerms,
                  p in Upto(server, ch, letters, args, n).chan.ownPerms);
    } else {
      assert letters[..0] == "";
    }
  }

  /** A nick has a permission exactly if the sign at the last letter that names both is a plus; without
      such a letter nothing changes. The same holds of this user's own permissions. No nick comes or
      goes. */
  lemma PermsMean(server: Server, ch: Chan, letters: string, args: seq<string>, nick: string, p: char)
    requires p != '\0'
    ensures var t := Letters(server, Cursor(ch, true, args), letters).chan;
            && t.nicks.Keys == ch.nicks.Keys
            && (nick in ch.nicks ==>
                  PermStands(server, {nick}, letters, args, p, |letters|, p in ch.nicks[nick], p in t.nicks[nick]))
            && PermStands(server, OwnNicks(server, ch), letters, args, p, |letters|, p in ch.ownPerms, p in t.ownPerms)
  {
    assert letters[..|letters|] == letters;
    KeysAt(server, ch, letters, args, |letters|);
    if nick in ch.nicks {
      PermsAt(server, ch, letters, args, |letters|, nick, p);
    }
    OwnAt(server, ch, letters, args, |letters|, OwnNicks(server, ch), p);
  }

  lemma {:induction false} KeysAt(server: Server, ch: Chan, letters: string, args: seq<string>, n: nat)
    requires n <= |letters|
    ensures Upto(server, ch, letters, args, n).chan.nicks.Keys == ch.nicks.Keys
    decreases n
  {
    if n > 0 {
      KeysAt(server, ch, letters, args, n - 1);
      OneMoreDone(server, ch, letters, args, n - 1);
      NickKeys(server, Upto(server, ch, letters, args, n - 1).chan, letters, args, n - 1);
    } else {
      assert letters[..0] == "";
    }
  }

  // ----- The line -----

  /** The arguments behind the letters: one for each word, and the rest of the line for the first one
      that begins with a colon. */
  lemma ArgsMean(word: string, more: string)
    requires word != "" && ' ' !in word && word[0] != ':' && (more == "" || more[0] == ' ')
    ensures Args("") == [] && Args(":" + more) == [more]
    ensures Args(word + more) == [word] + Args(Strip(more))
  {
    assert (":" + more)[..1] == ":" && (":" + more)[1..] == more;
    StartsWithExact(":" + more, ":");
    ArgsOfWord(word, more);
  }

  /** The letters are the first word of the line; behind a colon there are no arguments. */
  lemma LineMeans(server: Server, ch: Chan, word: string, more: string)
    requires word != "" && ' ' !in word && word[0] != ':' && (more == "" || more[0] == ' ')
    ensures Change(server, ch, word + more)
         == Letters(server, Cursor(ch, true, Args(Strip(more))), word).chan
    ensures Change(server, ch, ":" + word + more) == Letters(server, Cursor(ch, true, []), word).chan
  {
    assert word[0] in word;
    FirstTokens(word + more, ' ');
    BeforeAround(word, ' ', more);
    StartsWithExact(word, ":");
    WithColon(word, more);
    StartsWithExact(":" + word, ":");
    assert (":" + word)[1..] == word && (":" + word)[..1] == ":";
  }

  lemma WithColon(word: string, more: string)
    requires ' ' !in word && (more == "" || more[0] == ' ')
    ensures Token(":" + word + more, 0, false, ' ') == ":" + word
  {
    FirstTokens(":" + word + more, ' ');
    BeforeAround(":" + word, ' ', more);
  }

  // ----- The printed form -----

  /** No modes print as nothing; otherwise a plus, the letters in ascending order, each once, and behind
      them the nonempty arguments in the order of the letters, a space in front of each. */
  lemma PrintedModes(modes: map<char, string>, i: nat)
    ensures modes == map[] ==> ModeString(modes) == ""
    ensures modes != map[] ==> ModeString(modes) == "+" + Sorted(modes) + ArgText(Vals(modes, Sorted(modes)))
    ensures forall c :: c in Sorted(modes) <==> c in modes
    ensures forall j :: 0 <= i < j < |Sorted(modes)| ==> Sorted(modes)[i] < Sorted(modes)[j]
  {
    if modes != map[] {
      var c :| c in modes;
      assert c in Sorted(modes);
    }
  }

  lemma PrintedArgs(vals: seq<string>, v: string)
    ensures ArgText([]) == "" && ArgText([""] + vals) == ArgText(vals)
    ensures v != "" ==> ArgText([v] + vals) == " " + v + ArgText(vals)
  {
    assert ([""] + vals)[1..] == vals && ([v] + vals)[1..] == vals;
    assert "" + ArgText(vals) == ArgText(vals);
  }
}
