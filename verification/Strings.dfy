/** The string primitives of `CString` that the modelled components are built on.
    A string is a sequence of characters; case folding is ASCII folding. */
module Strings {

  /** The characters `Trim`, `TrimLeft` and `TrimRight` remove by default. */
  const BLANKS: set<char> := {' ', '\t', '\r', '\n'}

  /** What `isspace` accepts in the C locale. */
  const SPACES: set<char> := {' ', '\t', '\n', 11 as char, 12 as char, '\r'}

  predicate IsDigit(c: char) {
    '0' <= c <= '9'
  }

  function LowerChar(c: char): char {
    if 'A' <= c <= 'Z' then c - 'A' + 'a' else c
  }

  function Lower(s: string): (r: string)
    ensures |r| == |s|
    ensures forall i :: 0 <= i < |s| ==> r[i] == LowerChar(s[i])
  {
    seq(|s|, i requires 0 <= i < |s| => LowerChar(s[i]))
  }

  function UpperChar(c: char): char {
    if 'a' <= c <= 'z' then c - 'a' + 'A' else c
  }

  function Upper(s: string): (r: string)
    ensures |r| == |s|
    ensures forall i :: 0 <= i < |s| ==> r[i] == UpperChar(s[i])
  {
    seq(|s|, i requires 0 <= i < |s| => UpperChar(s[i]))
  }

  /** Only the letters of ASCII have another case. */
  lemma CaseOf(c: char)
    ensures LowerChar(c) as int == c as int + if 65 <= c as int <= 90 then 32 else 0
    ensures UpperChar(c) as int == c as int - if 97 <= c as int <= 122 then 32 else 0
  {
  }

  lemma LowerTwice(s: string)
    ensures Lower(Lower(s)) == Lower(s)
  {
  }

  /** `Equals`, `StartsWith`, `EndsWith` and `TrimPrefix` ignore case unless told otherwise. */
  predicate EqualsNoCase(a: string, b: string) {
    Lower(a) == Lower(b)
  }

  predicate StartsWith(s: string, prefix: string) {
    |prefix| <= |s| && EqualsNoCase(s[..|prefix|], prefix)
  }

  predicate EndsWith(s: string, suffix: string) {
    |suffix| <= |s| && EqualsNoCase(s[|s| - |suffix|..], suffix)
  }

  function TrimPrefix(s: string, prefix: string): string {
    if StartsWith(s, prefix) then s[|prefix|..] else s
  }

  predicate NoLetters(s: string) {
    forall c :: c in s ==> LowerChar(c) == c && !('a' <= c <= 'z')
  }

  /** A prefix without letters is compared exactly. */
  lemma StartsWithExact(s: string, prefix: string)
    requires NoLetters(prefix)
    ensures StartsWith(s, prefix) <==> prefix <= s
  {
    if StartsWith(s, prefix) {
      forall i | 0 <= i < |prefix| ensures s[i] == prefix[i] {
        assert Lower(s[..|prefix|])[i] == Lower(prefix)[i];
        assert prefix[i] in prefix;
      }
    }
  }

  lemma EndsWithExact(s: string, suffix: string)
    requires NoLetters(suffix)
    ensures EndsWith(s, suffix) <==> |suffix| <= |s| && s[|s| - |suffix|..] == suffix
  {
    if EndsWith(s, suffix) {
      forall i | 0 <= i < |suffix| ensures s[|s| - |suffix|..][i] == suffix[i] {
        assert Lower(s[|s| - |suffix|..])[i] == Lower(suffix)[i];
        assert suffix[i] in suffix;
      }
    }
  }

  function TrimLeft(s: string, chars: set<char>): (r: string)
    ensures r == "" || r[0] !in chars
  {
    if s != "" && s[0] in chars then TrimLeft(s[1..], chars) else s
  }

  lemma {:induction false} TrimLeftSuffix(s: string, chars: set<char>)
    ensures |TrimLeft(s, chars)| <= |s|
    ensures TrimLeft(s, chars) == s[|s| - |TrimLeft(s, chars)|..]
  {
    if s != "" && s[0] in chars {
      TrimLeftSuffix(s[1..], chars);
    }
  }

  function TrimRight(s: string, chars: set<char>): (r: string)
    ensures r == "" || r[|r| - 1] !in chars
  {
    if s != "" && s[|s| - 1] in chars then TrimRight(s[..|s| - 1], chars) else s
  }

  lemma {:induction false} TrimRightPrefix(s: string, chars: set<char>)
    ensures TrimRight(s, chars) <= s
  {
    if s != "" && s[|s| - 1] in chars {
      TrimRightPrefix(s[..|s| - 1], chars);
    }
  }

  function Trim(s: string, chars: set<char>): (r: string)
    ensures Trimmed(r, chars)
  {
    TrimRightPrefix(TrimLeft(s, chars), chars);
    TrimRight(TrimLeft(s, chars), chars)
  }

  lemma TrimChars(s: string, chars: set<char>, c: char)
    requires c in Trim(s, chars)
    ensures c in s
  {
    var left := TrimLeft(s, chars);
    TrimLeftSuffix(s, chars);
    TrimRightPrefix(left, chars);
    assert c in left;
  }

  predicate Trimmed(s: string, chars: set<char>) {
    s == "" || (s[0] !in chars && s[|s| - 1] !in chars)
  }

  /** Stripping a blank prefix and a blank suffix from around a string that starts and ends
      with other characters gives that string. */
  lemma TrimAround(prefix: string, s: string, suffix: string, chars: set<char>)
    requires s != "" && Trimmed(s, chars)
    requires forall c :: c in prefix ==> c in chars
    requires forall c :: c in suffix ==> c in chars
    ensures Trim(prefix + s + suffix, chars) == s
  {
    assert prefix + s + suffix == prefix + (s + suffix);
    TrimLeftAround(prefix, s + suffix, chars);
    TrimRightAround(s, suffix, chars);
  }

  lemma TrimNothing(s: string)
    requires Trimmed(s, BLANKS)
    ensures Trim(s, BLANKS) == s
  {
    if s != "" {
      TrimAround("", s, "", BLANKS);
      assert "" + s + "" == s;
    }
  }

  lemma {:induction false} TrimRightKeeps(s: string, i: nat)
    requires i < |s| && s[i] !in BLANKS
    ensures i < |TrimRight(s, BLANKS)|
  {
    if i < |s| - 1 && s[|s| - 1] in BLANKS {
      TrimRightKeeps(s[..|s| - 1], i);
    }
  }

  lemma TrimLeftAround(prefix: string, s: string, chars: set<char>)
    requires s == "" || s[0] !in chars
    requires forall c :: c in prefix ==> c in chars
    ensures TrimLeft(prefix + s, chars) == s
  {
    if prefix != "" {
      var all := prefix + s;
      assert all[0] == prefix[0] && prefix[0] in prefix;
      assert all[1..] == prefix[1..] + s;
      TrimLeftAround(prefix[1..], s, chars);
      assert TrimLeft(all, chars) == TrimLeft(all[1..], chars);
    } else {
      assert prefix + s == s;
    }
  }

  lemma TrimRightAround(s: string, suffix: string, chars: set<char>)
    requires s == "" || s[|s| - 1] !in chars
    requires forall c :: c in suffix ==> c in chars
    ensures TrimRight(s + suffix, chars) == s
  {
    if suffix != "" {
      var n := |suffix| - 1;
      assert suffix[n] in suffix;
      assert (s + suffix)[..|s + suffix| - 1] == s + suffix[..n];
      TrimRightAround(s, suffix[..n], chars);
    } else {
      assert s + suffix == s;
    }
  }

  /** The part of s before the first occurrence of c, all of s if there is none. */
  function Before(s: string, c: char): (r: string)
    ensures |r| <= |s| && c !in r
    ensures |r| < |s| ==> s[|r|] == c
  {
    if s == "" || s[0] == c then "" else [s[0]] + Before(s[1..], c)
  }

  lemma {:induction false} BeforePrefix(s: string, c: char)
    ensures Before(s, c) <= s
  {
    if s != "" && s[0] != c {
      BeforePrefix(s[1..], c);
    }
  }

  function From(s: string, c: char): (r: string)
    ensures |r| <= |s|
    ensures r == "" || r[0] == c
  {
    s[|Before(s, c)|..]
  }

  lemma {:induction false} BeforeAround(a: string, c: char, b: string)
    requires c !in a
    requires b == "" || b[0] == c
    ensures Before(a + b, c) == a && From(a + b, c) == b
  {
    if a != "" {
      assert (a + b)[1..] == a[1..] + b;
      BeforeAround(a[1..], c, b);
    } else {
      assert a + b == b;
    }
  }

  /** Token number n of s (`rest`: everything from its start on), runs of the separator counting
      as one and leading separators skipped. */
  function Token(s: string, n: nat, rest: bool, sep: char): (r: string)
    ensures r == "" || r[0] != sep
    ensures !rest ==> sep !in r
    decreases n
  {
    var t := TrimLeft(s, {sep});
    if n > 0 then Token(From(t, sep), n - 1, rest, sep)
    else if rest then t
    else Before(t, sep)
  }

  lemma FirstTokens(s: string, sep: char)
    requires s == "" || s[0] != sep
    ensures Token(s, 0, false, sep) == Before(s, sep)
    ensures Token(s, 1, true, sep) == TrimLeft(From(s, sep), {sep})
  {
    assert TrimLeft(s, {sep}) == s;
    assert Token(s, 1, true, sep) == Token(From(s, sep), 0, true, sep);
  }

  lemma TwoTokens(first: string, sep: char, rest: string)
    requires first != "" && sep !in first && (rest == "" || rest[0] != sep)
    ensures Token(first + [sep] + rest, 0, false, sep) == first
    ensures Token(first + [sep] + rest, 1, true, sep) == rest
  {
    var s := first + ([sep] + rest);
    assert s == first + [sep] + rest;
    assert s[0] == first[0] && first[0] in first;
    FirstTokens(s, sep);
    BeforeAround(first, sep, [sep] + rest);
    TrimLeftAround([sep], rest, {sep});
  }

  lemma {:induction false} TokenChars(s: string, n: nat, rest: bool, sep: char, c: char)
    requires c in Token(s, n, rest, sep)
    ensures c in s
    decreases n
  {
    var t := TrimLeft(s, {sep});
    if n > 0 {
      TokenChars(From(t, sep), n - 1, rest, sep, c);
    }
    BeforePrefix(t, sep);
    assert c in t;
    TrimLeftSuffix(s, {sep});
  }

  /** Removing every occurrence of the characters in `chars`, as two `Replace` calls with an empty
      replacement do for CR and LF. */
  function Remove(s: string, chars: set<char>): (r: string)
    ensures forall c :: c in r ==> c in s && c !in chars
  {
    if s == "" then ""
    else if s[0] in chars then Remove(s[1..], chars)
    else [s[0]] + Remove(s[1..], chars)
  }

  lemma {:induction false} RemoveNothing(s: string, chars: set<char>)
    requires forall c :: c in s ==> c !in chars
    ensures Remove(s, chars) == s
  {
    if s != "" {
      assert s[0] in s;
      RemoveNothing(s[1..], chars);
    }
  }

  lemma RemoveFront(c: char, more: string, chars: set<char>)
    ensures Remove([c] + more, chars) == (if c in chars then "" else [c]) + Remove(more, chars)
  {
    assert ([c] + more)[1..] == more;
  }

  lemma {:induction false} RemoveConcat(a: string, b: string, chars: set<char>)
    ensures Remove(a + b, chars) == Remove(a, chars) + Remove(b, chars)
  {
    if a == "" {
      assert a + b == b;
    } else {
      var c, more := a[0], a[1..];
      RemoveConcat(more, b, chars);
      RemoveFront(c, more, chars);
      RemoveFront(c, more + b, chars);
      assert [c] + more == a && [c] + (more + b) == a + b;
      var x := if c in chars then "" else [c];
      assert (x + Remove(more, chars)) + Remove(b, chars) == x + (Remove(more, chars) + Remove(b, chars));
    }
  }

  function Repeat(c: char, n: nat): (r: string)
    ensures |r| == n && forall i :: 0 <= i < n ==> r[i] == c
  {
    seq(n, _ => c)
  }

  /** `Split` on a separator character, empty pieces dropped. */
  function Split(s: string, sep: char): seq<string>
    decreases |s|
  {
    var t := TrimLeft(s, {sep});
    TrimLeftSuffix(s, {sep});
    if t == "" then []
    else
      assert Before(t, sep) != "";
      [Before(t, sep)] + Split(From(t, sep), sep)
  }

  /** What `Split` can yield. */
  lemma {:induction false} SplitPieces(s: string, sep: char, i: nat)
    requires i < |Split(s, sep)|
    ensures Split(s, sep)[i] != "" && sep !in Split(s, sep)[i]
    decreases |s|
  {
    var t := TrimLeft(s, {sep});
    TrimLeftSuffix(s, {sep});
    assert Before(t, sep) != "";
    if i > 0 {
      SplitPieces(From(t, sep), sep, i - 1);
    }
  }

  lemma SplitFront(a: string, sep: char, rest: string)
    requires a != "" && sep !in a && (rest == "" || rest[0] == sep)
    ensures Split(a + rest, sep) == [a] + Split(rest, sep)
  {
    var s := a + rest;
    assert s[0] == a[0] && a[0] in a;
    assert TrimLeft(s, {sep}) == s;
    BeforeAround(a, sep, rest);
  }

  lemma SplitSkip(sep: char, rest: string)
    ensures Split([sep] + rest, sep) == Split(rest, sep)
  {
    var s := [sep] + rest;
    assert s[1..] == rest;
    assert TrimLeft(s, {sep}) == TrimLeft(rest, {sep});
  }

  /** What is behind the first piece, and the pieces there. */
  lemma SplitOnce(s: string, sep: char) returns (rest: string)
    ensures rest == From(TrimLeft(s, {sep}), sep)
    ensures if TrimLeft(s, {sep}) == "" then Split(s, sep) == Split(rest, sep) == []
            else |Split(s, sep)| > 0 && Split(s, sep)[0] == Before(TrimLeft(s, {sep}), sep)
                 && Split(s, sep)[1..] == Split(rest, sep)
  {
    var t := TrimLeft(s, {sep});
    rest := From(t, sep);
    if t != "" {
      assert ([Before(t, sep)] + Split(rest, sep))[1..] == Split(rest, sep);
    }
  }

  /** Token number n is the n-th piece of a split. */
  lemma {:induction false} TokenIsPiece(s: string, n: nat, sep: char)
    ensures Token(s, n, false, sep) == if n < |Split(s, sep)| then Split(s, sep)[n] else ""
    decreases n
  {
    var rest := SplitOnce(s, sep);
    if n > 0 {
      TokenIsPiece(rest, n - 1, sep);
      PieceBehind(Split(s, sep), Split(rest, sep), n);
    }
  }

  lemma PieceBehind(all: seq<string>, more: seq<string>, n: nat)
    requires n > 0 && (all == more == [] || (all != [] && all[1..] == more))
    ensures n < |all| <==> n - 1 < |more|
    ensures n < |all| ==> all[n] == more[n - 1]
    ensures n <= |all| && all != [] ==> n - 1 <= |more| && all[n..] == more[n - 1..]
    ensures n > |all| && all != [] ==> n - 1 > |more|
  {
  }

  /** With the rest, it is the end of the text from that piece on. */
  lemma {:induction false} TokenIsTail(s: string, n: nat, sep: char)
    ensures |Token(s, n, true, sep)| <= |s| && Token(s, n, true, sep) == s[|s| - |Token(s, n, true, sep)|..]
    decreases n
  {
    TrimLeftSuffix(s, {sep});
    if n > 0 {
      TokenIsTail(From(TrimLeft(s, {sep}), sep), n - 1, sep);
    }
  }

  lemma {:induction false} TailPieces(s: string, n: nat, sep: char)
    ensures Split(Token(s, n, true, sep), sep) == if n <= |Split(s, sep)| then Split(s, sep)[n..] else []
    decreases n
  {
    if n > 0 {
      var rest := SplitOnce(s, sep);
      TailPieces(rest, n - 1, sep);
      PieceBehind(Split(s, sep), Split(rest, sep), n);
    } else {
      TrimmedOnce(s, sep);
    }
  }

  lemma TrimmedOnce(s: string, sep: char)
    ensures Split(TrimLeft(s, {sep}), sep) == Split(s, sep)
  {
    assert TrimLeft(TrimLeft(s, {sep}), {sep}) == TrimLeft(s, {sep});
  }
}
