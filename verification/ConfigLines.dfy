/** What the lines of a configuration file mean, told from their characters and positions alone. */
module ConfigLines {
  import opened Strings
  import opened ConfigModel
  import opened ConfigSyntax

  // ----- A line without its surroundings -----

  /** Cleaning removes blanks in front and line ends behind, all of them and nothing else. */
  lemma CleanIs(piece: string) returns (front: string, back: string)
    ensures piece == front + Clean(piece) + back
    ensures forall c :: c in front ==> c in {' ', '\t', '\r', '\n'}
    ensures forall c :: c in back ==> c in {'\r', '\n'}
    ensures var s := Clean(piece);
            s != "" ==> s[0] !in {' ', '\t', '\r', '\n'} && s[|s| - 1] !in {'\r', '\n'}
  {
    var left := TrimLeft(piece, BLANKS);
    front := LeftPart(piece, BLANKS);
    back := RightPart(left, LINE_ENDS);
    assert front + Clean(piece) + back == front + (Clean(piece) + back);
    if Clean(piece) != "" {
      assert left[0] == Clean(piece)[0];
    }
  }

  lemma {:induction false} LeftPart(s: string, chars: set<char>) returns (front: string)
    ensures s == front + TrimLeft(s, chars) && forall c :: c in front ==> c in chars
  {
    front := "";
    if s != "" && s[0] in chars {
      var more := LeftPart(s[1..], chars);
      front := [s[0]] + more;
      assert s == [s[0]] + s[1..];
    }
  }

  lemma {:induction false} RightPart(s: string, chars: set<char>) returns (back: string)
    ensures s == TrimRight(s, chars) + back && forall c :: c in back ==> c in chars
  {
    back := "";
    if s != "" && s[|s| - 1] in chars {
      var more := RightPart(s[..|s| - 1], chars);
      back := more + [s[|s| - 1]];
      assert s == s[..|s| - 1] + [s[|s| - 1]];
    }
  }

  // ----- Block comments -----

  predicate BeginsComment(s: string) {
    |s| >= 2 && s[0] == '/' && s[1] == '*'
  }

  predicate EndsComment(s: string) {
    |s| >= 2 && s[|s| - 2] == '*' && s[|s| - 1] == '/'
  }

  lemma CommentMarks(s: string)
    ensures OpensComment(s) == BeginsComment(s) && EndsWith(s, "*/") == EndsComment(s)
  {
    StartsWithExact(s, "/*");
    EndsWithExact(s, "*/");
    if |s| >= 2 {
      assert s[..2] == [s[0], s[1]] && s[|s| - 2..] == [s[|s| - 2], s[|s| - 1]];
    }
  }

  /** A comment that begins with line i is still open when line n comes. */
  predicate StillOpen(pieces: seq<string>, i: nat, n: nat)
    requires i < |pieces| && n <= |pieces|
  {
    BeginsComment(Clean(pieces[i])) && forall j :: i <= j < n ==> !EndsComment(Clean(pieces[j]))
  }

  /** Line n, or the end of the file, is inside a comment. */
  ghost predicate InComment(pieces: seq<string>, n: nat)
    requires n <= |pieces|
  {
    exists i: nat :: i <= n && i < |pieces| && StillOpen(pieces, i, n)
  }

  /** A comment that begins in front of a line is still open when line n comes. */
  ghost predicate OpenFrom(pieces: seq<string>, limit: nat, n: nat)
    requires limit <= |pieces| && n <= |pieces|
  {
    exists i: nat :: i < limit && StillOpen(pieces, i, n)
  }

  lemma LastLine(pieces: seq<string>, piece: string, commented: bool)
    ensures CommentedAtEnd(pieces + [piece], commented) == CommentAfter(piece, CommentedAtEnd(pieces, commented))
    decreases |pieces|
  {
    if pieces != [] {
      assert (pieces + [piece])[1..] == pieces[1..] + [piece];
      LastLine(pieces[1..], piece, CommentAfter(pieces[0], commented));
    } else {
      assert ([piece])[1..] == [];
    }
  }

  /** Whether a comment is open in front of line n. */
  lemma {:induction false} OpenInFront(pieces: seq<string>, n: nat)
    requires n <= |pieces|
    ensures CommentedAtEnd(pieces[..n], false) <==> OpenFrom(pieces, n, n)
    decreases n
  {
    if n > 0 {
      OpenInFront(pieces, n - 1);
      assert pieces[..n] == pieces[..n - 1] + [pieces[n - 1]];
      LastLine(pieces[..n - 1], pieces[n - 1], false);
      CommentMarks(Clean(pieces[n - 1]));
      OneLineOn(pieces, n - 1);
    }
  }

  lemma OneLineOn(pieces: seq<string>, n: nat)
    requires n < |pieces|
    ensures var s := Clean(pieces[n]);
            OpenFrom(pieces, n + 1, n + 1) == ((OpenFrom(pieces, n, n) || BeginsComment(s)) && !EndsComment(s))
  {
    var m := n + 1;
    if OpenFrom(pieces, n, n) && !EndsComment(Clean(pieces[n])) {
      var i: nat :| i < n && StillOpen(pieces, i, n);
      assert StillOpen(pieces, i, m);
    }
    if OpenFrom(pieces, m, m) {
      var i: nat :| i < m && StillOpen(pieces, i, m);
      assert i < n ==> StillOpen(pieces, i, n);
    }
    if BeginsComment(Clean(pieces[n])) && !EndsComment(Clean(pieces[n])) {
      assert StillOpen(pieces, n, m);
    }
  }

  lemma InCommentAt(pieces: seq<string>, n: nat)
    requires n <= |pieces|
    ensures InComment(pieces, n) <==>
              OpenFrom(pieces, n, n) || (n < |pieces| && BeginsComment(Clean(pieces[n])))
  {
    if n < |pieces| && BeginsComment(Clean(pieces[n])) {
      assert StillOpen(pieces, n, n);
    }
  }

  lemma {:induction false} ScanAt(pieces: seq<string>, commented: bool, n: nat)
    requires n < |pieces|
    ensures Scan(pieces, commented)[n] == LineOf(pieces[n], CommentedAtEnd(pieces[..n], commented))
    decreases n
  {
    if n > 0 {
      ScanAt(pieces[1..], CommentAfter(pieces[0], commented), n - 1);
      assert pieces[..n][1..] == pieces[1..][..n - 1];
    }
  }

  // ----- Lines outside comments -----

  predicate Ignored(s: string) {
    s == "" || s[0] == '#' || (|s| >= 2 && s[0] == '/' && s[1] == '/')
  }

  predicate Bracketed(s: string) {
    |s| >= 2 && s[0] == '<' && s[|s| - 1] == '>'
  }

  /** Between the brackets of a tag line: a word up to the first space, and what follows it. */
  function TagWord(s: string): string
    requires Bracketed(s)
  {
    Trim(Before(Trim(s[1..|s| - 1], BLANKS), ' '), BLANKS)
  }

  function TagRest(s: string): string
    requires Bracketed(s)
  {
    Trim(From(Trim(s[1..|s| - 1], BLANKS), ' '), BLANKS)
  }

  /** In front of the first equals sign, those at the very beginning apart; and behind it. */
  function KeyPart(s: string): string {
    Trim(Before(TrimLeft(s, {'='}), '='), BLANKS)
  }

  function ValuePart(s: string): string {
    var v := TrimLeft(From(TrimLeft(s, {'='}), '='), {'='});
    if v != "" && v[0] == ' ' then v[1..] else v
  }

  /** A cleaned line outside comments and what it asks for. */
  predicate Means(s: string, line: Line) {
    if Ignored(s) then line == Skip
    else if Bracketed(s) then
      var w, rest := TagWord(s), TagRest(s);
      if w != "" && w[0] == '/' then line == if rest == "" then Close(w[1..]) else Bad(MalformedClosingTag(w[1..]))
      else line == if rest == "" then Bad(EmptyBlockName) else Open(Lower(w), rest)
    else if KeyPart(s) == "" || ValuePart(s) == "" then line == Bad(MalformedLine)
    else line == Entry(Lower(KeyPart(s)), ValuePart(s))
  }

  lemma FirstChar(s: string, c: char)
    requires NoLetters([c])
    ensures StartsWith(s, [c]) <==> s != "" && s[0] == c
  {
    StartsWithExact(s, [c]);
    if s != "" {
      assert s[..1] == [s[0]];
    }
  }

  lemma LastChar(s: string, c: char)
    requires NoLetters([c])
    ensures EndsWith(s, [c]) <==> s != "" && s[|s| - 1] == c
  {
    EndsWithExact(s, [c]);
    if s != "" {
      assert s[|s| - 1..] == [s[|s| - 1]];
    }
  }

  lemma TwoSlashes(s: string)
    ensures StartsWith(s, "//") <==> |s| >= 2 && s[0] == '/' && s[1] == '/'
  {
    StartsWithExact(s, "//");
    if |s| >= 2 {
      assert s[..2] == [s[0], s[1]];
    }
  }

  lemma IgnoredIs(s: string)
    ensures IsIgnored(s) == Ignored(s) && IsTag(s) == Bracketed(s)
  {
    FirstChar(s, '#');
    TwoSlashes(s);
    FirstChar(s, '<');
    LastChar(s, '>');
  }

  lemma TrimTwice(s: string, chars: set<char>, c: char)
    requires c in chars
    ensures Trim(TrimLeft(s, {c}), chars) == Trim(s, chars)
  {
    if s != "" && s[0] == c {
      TrimTwice(s[1..], chars, c);
    }
  }

  lemma TagTokens(inside: string)
    requires inside == "" || inside[0] != ' '
    ensures Trim(Token(inside, 0, false, ' '), BLANKS) == Trim(Before(inside, ' '), BLANKS)
    ensures Trim(Token(inside, 1, true, ' '), BLANKS) == Trim(From(inside, ' '), BLANKS)
  {
    FirstTokens(inside, ' ');
    TrimTwice(From(inside, ' '), BLANKS, ' ');
  }

  lemma TagMeans(s: string)
    requires Bracketed(s) && !Ignored(s)
    ensures Means(s, ClassifyTag(Trim(Chomp(s), BLANKS)))
  {
    TagTokens(Trim(Chomp(s), BLANKS));
    FirstChar(TagWord(s), '/');
  }

  lemma EntryTokens(s: string)
    ensures Token(s, 0, false, '=') == Before(TrimLeft(s, {'='}), '=')
    ensures Token(s, 1, true, '=') == TrimLeft(From(TrimLeft(s, {'='}), '='), {'='})
  {
    assert Token(s, 1, true, '=') == Token(From(TrimLeft(s, {'='}), '='), 0, true, '=');
  }

  lemma EntryMeans(s: string)
    requires !Bracketed(s) && !Ignored(s)
    ensures Means(s, ClassifyEntry(s))
  {
    EntryTokens(s);
    FirstChar(Token(s, 1, true, '='), ' ');
  }

  /** Every line outside comments is ignored, a tag, an entry or an error as its characters say. */
  lemma LineMeans(s: string)
    ensures Means(s, Classify(s))
  {
    IgnoredIs(s);
    if !Ignored(s) {
      if Bracketed(s) {
        TagMeans(s);
      } else {
        EntryMeans(s);
      }
    }
  }

  // ----- Whole files -----

  /** Line by line, and at the end: inside a block comment exactly from a line that begins one up to
      and including the first line after that which ends it, and nothing is read there; every other
      line is read as its characters say. */
  lemma FileMeans(pieces: seq<string>, n: nat)
    requires n <= |pieces|
    ensures CommentedAtEnd(pieces, false) <==> InComment(pieces, |pieces|)
    ensures n < |pieces| ==>
              if InComment(pieces, n) then Scan(pieces, false)[n] == Skip
              else Means(Clean(pieces[n]), Scan(pieces, false)[n])
  {
    assert pieces[..|pieces|] == pieces;
    OpenInFront(pieces, |pieces|);
    InCommentAt(pieces, |pieces|);
    if n < |pieces| {
      ScanAt(pieces, false, n);
      OpenInFront(pieces, n);
      InCommentAt(pieces, n);
      CommentMarks(Clean(pieces[n]));
      LineMeans(Clean(pieces[n]));
    }
  }
}
