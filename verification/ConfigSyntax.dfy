/** The text of a configuration file: what `CConfig::Parse` makes of one line, and the lines
    `CConfig::Write` prints. */
module ConfigSyntax {
  import opened Strings
  import opened Multimap
  import opened ConfigModel

  const LINE_ENDS: set<char> := {'\r', '\n'}

  /** Leading blanks and the line ending removed. */
  function Clean(piece: string): string {
    TrimRight(TrimLeft(piece, BLANKS), LINE_ENDS)
  }

  predicate OpensComment(s: string) { StartsWith(s, "/*") }

  predicate IsIgnored(s: string) {
    s == "" || StartsWith(s, "#") || StartsWith(s, "//")
  }

  predicate IsTag(s: string) { StartsWith(s, "<") && EndsWith(s, ">") }

  /** The first and the last character removed. */
  function Chomp(s: string): string {
    if |s| < 2 then "" else s[1..|s| - 1]
  }

  /** A tag line, the angle brackets and the blanks inside them removed. */
  function ClassifyTag(inside: string): Line {
    TagLine(Trim(Token(inside, 0, false, ' '), BLANKS), Trim(Token(inside, 1, true, ' '), BLANKS))
  }

  function TagLine(tag: string, value: string): Line {
    if StartsWith(tag, "/") then
      if value != "" then Bad(MalformedClosingTag(tag[1..])) else Close(tag[1..])
    else if value == "" then Bad(EmptyBlockName)
    else Open(Lower(tag), value)
  }

  /** A regular line: a key, an equals sign, a value with at most one leading space removed. */
  function ClassifyEntry(s: string): Line {
    EntryLine(Trim(Token(s, 0, false, '='), BLANKS), TrimPrefix(Token(s, 1, true, '='), " "))
  }

  function EntryLine(name: string, value: string): Line {
    if name == "" || value == "" then Bad(MalformedLine) else Entry(Lower(name), value)
  }

  /** A line outside comments, cleaned. */
  function Classify(s: string): Line {
    if IsIgnored(s) then Skip
    else if IsTag(s) then ClassifyTag(Trim(Chomp(s), BLANKS))
    else ClassifyEntry(s)
  }

  /** Whether a block comment is still open after a line. */
  function CommentAfter(piece: string, commented: bool): bool {
    (commented || OpensComment(Clean(piece))) && !EndsWith(Clean(piece), "*/")
  }

  function LineOf(piece: string, commented: bool): Line {
    if commented || OpensComment(Clean(piece)) then Skip else Classify(Clean(piece))
  }

  /** All lines of a file, and whether it ends inside a comment. */
  function Scan(pieces: seq<string>, commented: bool): (lines: seq<Line>)
    ensures |lines| == |pieces|
  {
    if pieces == [] then []
    else [LineOf(pieces[0], commented)] + Scan(pieces[1..], CommentAfter(pieces[0], commented))
  }

  function CommentedAtEnd(pieces: seq<string>, commented: bool): bool {
    if pieces == [] then commented
    else CommentedAtEnd(pieces[1..], CommentAfter(pieces[0], commented))
  }

  /** `CConfig::Parse` as a function of the lines that `ReadLine` delivers. */
  function ParseLines(pieces: seq<string>): Outcome {
    Run(Scan(pieces, false), Machine(EMPTY, []), CommentedAtEnd(pieces, false), 0)
  }

  // ----- Printing -----

  function SingleLine(s: string): string { Remove(s, LINE_ENDS) }

  function EntryText(indent: nat, key: string, value: string): string {
    SingleLine(Repeat('\t', indent) + key + " = " + value)
  }

  function OpenText(indent: nat, tag: string, name: string): string {
    SingleLine(Repeat('\t', indent) + "<" + tag + " " + name + ">")
  }

  function CloseText(indent: nat, tag: string): string {
    SingleLine(Repeat('\t', indent) + "</" + tag + ">")
  }

  /** The lines `Write` prints, without their line ends. */
  function EntryTexts(entries: seq<Keyed<string>>, indent: nat): seq<string> {
    if entries == [] then []
    else [EntryText(indent, entries[0].key, entries[0].item)] + EntryTexts(entries[1..], indent)
  }

  function SubTexts(subs: seq<Keyed<Block>>, indent: nat): seq<string>
    decreases subs
  {
    if subs == [] then [] else SubText(subs[0], indent) + SubTexts(subs[1..], indent)
  }

  function SubText(sub: Keyed<Block>, indent: nat): seq<string>
    decreases sub
  {
    ["", OpenText(indent, sub.key, sub.item.name)]
      + Texts(sub.item.config, indent + 1) + [CloseText(indent, sub.key)]
  }

  function Texts(c: Config, indent: nat): seq<string>
    decreases c
  {
    EntryTexts(c.entries, indent) + SubTexts(c.subs, indent)
  }

  // ----- When one printed line reads back as what was printed -----

  predicate Avoids(s: string, bad: set<char>) {
    forall c :: c in s ==> c !in bad
  }

  predicate OneLine(s: string) {
    Avoids(s, LINE_ENDS)
  }

  predicate KeyShape(key: string) {
    key != "" && Trimmed(key, BLANKS) && Lower(key) == key && '=' !in key
  }

  predicate GoodKey(key: string) {
    KeyShape(key) && OneLine(key)
  }

  /** The entries that survive being written and read. */
  predicate EntryOk(key: string, value: string) {
    && GoodKey(key) && value != "" && OneLine(value)
    && !("#" <= key) && !("//" <= key) && !("/*" <= key)
    && !("<" <= key && value[|value| - 1] == '>')
  }

  predicate BlockShape(tag: string, name: string) {
    && tag != "" && Trimmed(tag, BLANKS) && Lower(tag) == tag && ' ' !in tag && !("/" <= tag)
    && name != "" && Trimmed(name, BLANKS)
  }

  /** The block headers that survive being written and read. */
  predicate BlockOk(tag: string, name: string) {
    BlockShape(tag, name) && OneLine(tag) && OneLine(name)
  }

  lemma CleanPrinted(indent: nat, s: string)
    requires s != "" && s[0] !in BLANKS && s[|s| - 1] !in LINE_ENDS
    ensures Clean(Repeat('\t', indent) + s + "\n") == s
  {
    var tabs := Repeat('\t', indent);
    assert tabs + s + "\n" == tabs + (s + "\n");
    TrimLeftAround(tabs, s + "\n", BLANKS);
    TrimRightAround(s, "\n", LINE_ENDS);
  }

  lemma SingleLinePrinted(indent: nat, s: string)
    ensures SingleLine(Repeat('\t', indent) + s) == Repeat('\t', indent) + SingleLine(s)
  {
    RemoveConcat(Repeat('\t', indent), s, LINE_ENDS);
    RemoveNothing(Repeat('\t', indent), LINE_ENDS);
  }

  lemma PrefixFacts(s: string)
    ensures OpensComment(s) <==> "/*" <= s
    ensures IsIgnored(s) <==> s == "" || "#" <= s || "//" <= s
    ensures IsTag(s) <==> |s| >= 2 && s[0] == '<' && s[|s| - 1] == '>'
    ensures StartsWith(s, "/") <==> "/" <= s
    ensures StartsWith(s, " ") <==> " " <= s
    ensures EndsWith(s, "*/") <==> |s| >= 2 && s[|s| - 2..] == "*/"
  {
    StartsWithExact(s, "/*");
    StartsWithExact(s, "#");
    StartsWithExact(s, "//");
    StartsWithExact(s, "<");
    StartsWithExact(s, "/");
    StartsWithExact(s, " ");
    EndsWithExact(s, ">");
    EndsWithExact(s, "*/");
  }

  lemma TokensOfEntry(key: string, value: string)
    requires key != "" && '=' !in key
    ensures Token(key + " = " + value, 0, false, '=') == key + " "
    ensures Token(key + " = " + value, 1, true, '=') == " " + value
  {
    assert key + " = " + value == (key + " ") + ['='] + (" " + value);
    TwoTokens(key + " ", '=', " " + value);
  }

  lemma TrimPrefixOne(c: char, s: string)
    requires NoLetters([c])
    ensures TrimPrefix([c] + s, [c]) == s
  {
    StartsWithExact([c] + s, [c]);
  }

  lemma TrimBlankAfter(s: string)
    requires s != "" && Trimmed(s, BLANKS)
    ensures Trim(s + " ", BLANKS) == s
  {
    TrimAround("", s, " ", BLANKS);
    assert "" + s + " " == s + " ";
  }

  lemma EntryFromTokens(s: string, first: string, rest: string, key: string, value: string)
    requires Token(s, 0, false, '=') == first && Token(s, 1, true, '=') == rest
    requires Trim(first, BLANKS) == key && TrimPrefix(rest, " ") == value
    ensures ClassifyEntry(s) == EntryLine(key, value)
  {
  }

  lemma ClassifyPrintedEntry(key: string, value: string)
    requires key != "" && Trimmed(key, BLANKS) && Lower(key) == key && '=' !in key && value != ""
    ensures ClassifyEntry(key + " = " + value) == Entry(key, value)
  {
    TokensOfEntry(key, value);
    TrimBlankAfter(key);
    TrimPrefixOne(' ', value);
    EntryFromTokens(key + " = " + value, key + " ", " " + value, key, value);
  }

  /** Special beginnings of a printed entry are special beginnings of its key. */
  lemma PrintedEntryShape(key: string, value: string)
    requires key != "" && value != ""
    ensures var s := key + " = " + value;
            && (OpensComment(s) <==> "/*" <= key)
            && (IsIgnored(s) <==> "#" <= key || "//" <= key)
            && (IsTag(s) <==> "<" <= key && value[|value| - 1] == '>')
  {
    var s := key + " = " + value;
    PrefixFacts(s);
    assert s[0] == key[0];
    assert s[1] == if |key| == 1 then ' ' else key[1];
    assert s[|s| - 1] == value[|value| - 1];
  }

  lemma LoweredKey(name: string, bad: set<char>)
    requires name != "" && Trimmed(name, BLANKS) && Avoids(name, bad) && '=' !in name && bad <= LINE_ENDS
    ensures KeyShape(Lower(name)) && Avoids(Lower(name), bad)
  {
    LowerTwice(name);
    var key := Lower(name);
    forall i | 0 <= i < |key| ensures key[i] !in bad && key[i] != '=' {
      assert name[i] in name;
    }
  }

  lemma NameChars(s: string, bad: set<char>, c: char)
    requires Avoids(s, bad) && c in Trim(Token(s, 0, false, '='), BLANKS)
    ensures c !in bad && c != '='
  {
    var token := Token(s, 0, false, '=');
    TrimChars(token, BLANKS, c);
    TokenChars(s, 0, false, '=', c);
  }

  lemma ValueAvoids(s: string, bad: set<char>, value: string)
    requires Avoids(s, bad) && value == TrimPrefix(Token(s, 1, true, '='), " ")
    ensures Avoids(value, bad)
  {
    forall c | c in value ensures c !in bad {
      assert c in Token(s, 1, true, '=');
      TokenChars(s, 1, true, '=', c);
    }
  }

  /** What any entry line can yield: line ends that are not in the line are in neither part. */
  lemma EntryImage(s: string, bad: set<char>, key: string, value: string)
    requires ClassifyEntry(s) == Entry(key, value) && Avoids(s, bad) && bad <= LINE_ENDS
    ensures KeyShape(key) && value != "" && Avoids(key, bad) && Avoids(value, bad)
  {
    var name := Trim(Token(s, 0, false, '='), BLANKS);
    forall c | c in name ensures c !in bad && c != '=' {
      NameChars(s, bad, c);
    }
    LoweredKey(name, bad);
    ValueAvoids(s, bad, value);
  }

  lemma CleanOneLine(s: string)
    requires OneLine(s)
    ensures OneLine(Clean(s + "\n"))
  {
    var all := s + "\n";
    var left := TrimLeft(all, BLANKS);
    TrimLeftSuffix(all, BLANKS);
    if left != "" {
      var k := |all| - |left|;
      assert left[|left| - 1] == all[|all| - 1] == '\n';
      var t := TrimRight(left[..|left| - 1], LINE_ENDS);
      assert Clean(all) == t;
      assert left[..|left| - 1] == s[k..];
      TrimRightPrefix(s[k..], LINE_ENDS);
    }
  }

  lemma PrintedEntryClean(indent: nat, key: string, value: string)
    requires GoodKey(key) && value != "" && OneLine(value)
    ensures Clean(EntryText(indent, key, value) + "\n") == key + " = " + value
  {
    var s := key + " = " + value;
    assert Repeat('\t', indent) + key + " = " + value == Repeat('\t', indent) + s;
    SingleLinePrinted(indent, s);
    RemoveNothing(s, LINE_ENDS);
    assert s[0] == key[0];
    assert s[|s| - 1] == value[|value| - 1];
    assert value[|value| - 1] in value;
    CleanPrinted(indent, s);
  }

  lemma GoodEntryReadsBack(indent: nat, key: string, value: string)
    requires EntryOk(key, value)
    ensures LineOf(EntryText(indent, key, value) + "\n", false) == Entry(key, value)
    ensures !CommentAfter(EntryText(indent, key, value) + "\n", false)
  {
    PrintedEntryClean(indent, key, value);
    PrintedEntryShape(key, value);
    ClassifyPrintedEntry(key, value);
  }

  /** An entry line that is none: what its key, and perhaps its value, made of it. */
  lemma BadEntryLost(key: string, value: string)
    requires GoodKey(key) && value != "" && !EntryOk(key, value) && OneLine(value)
    ensures OpensComment(key + " = " + value) || !Classify(key + " = " + value).Entry?
  {
    PrintedEntryShape(key, value);
  }

  lemma EntryLineShape(s: string)
    requires Classify(s).Entry?
    ensures ClassifyEntry(s) == Classify(s)
  {
    assert !IsIgnored(s);
    assert !IsTag(s);
  }

  lemma ReadEntryIsGood(indent: nat, key: string, value: string)
    requires LineOf(EntryText(indent, key, value) + "\n", false) == Entry(key, value)
    ensures EntryOk(key, value)
  {
    var piece := EntryText(indent, key, value) + "\n";
    EntryLineShape(Clean(piece));
    CleanOneLine(EntryText(indent, key, value));
    EntryImage(Clean(piece), LINE_ENDS, key, value);
    PrintedEntryClean(indent, key, value);
    if !EntryOk(key, value) {
      BadEntryLost(key, value);
    }
  }

  /** A printed entry is read back as that entry exactly when the entry is one of the good ones. */
  lemma EntryReadBack(indent: nat, key: string, value: string)
    ensures LineOf(EntryText(indent, key, value) + "\n", false) == Entry(key, value) <==> EntryOk(key, value)
  {
    if EntryOk(key, value) {
      GoodEntryReadsBack(indent, key, value);
    }
    if LineOf(EntryText(indent, key, value) + "\n", false) == Entry(key, value) {
      ReadEntryIsGood(indent, key, value);
    }
  }

  // ----- Block headers -----

  lemma TagFromTokens(inside: string, first: string, rest: string)
    requires Token(inside, 0, false, ' ') == first && Token(inside, 1, true, ' ') == rest
    requires Trimmed(first, BLANKS) && Trimmed(rest, BLANKS)
    ensures ClassifyTag(inside) == TagLine(first, rest)
  {
    TrimNothing(first);
    TrimNothing(rest);
  }

  lemma OpenTagLine(tag: string, name: string)
    requires Lower(tag) == tag && !("/" <= tag) && name != ""
    ensures TagLine(tag, name) == Open(tag, name)
  {
    StartsWithExact(tag, "/");
  }

  lemma CloseTagLine(tag: string)
    ensures TagLine("/" + tag, "") == Close(tag)
  {
    StartsWithExact("/" + tag, "/");
    assert ("/" + tag)[1..] == tag;
  }

  lemma ClassifyPrintedTag(tag: string, name: string)
    requires BlockShape(tag, name)
    ensures ClassifyTag(tag + " " + name) == Open(tag, name)
  {
    TwoTokens(tag, ' ', name);
    TagFromTokens(tag + [' '] + name, tag, name);
    OpenTagLine(tag, name);
  }

  lemma OneToken(s: string)
    requires s != "" && ' ' !in s
    ensures Token(s, 0, false, ' ') == s && Token(s, 1, true, ' ') == ""
  {
    FirstTokens(s, ' ');
    BeforeAround(s, ' ', "");
    assert s + "" == s;
  }

  lemma ClassifyPrintedClose(tag: string, name: string)
    requires BlockShape(tag, name)
    ensures ClassifyTag("/" + tag) == Close(tag)
  {
    var s := "/" + tag;
    OneToken(s);
    BothEnds("/", tag);
    TagFromTokens(s, s, "");
    CloseTagLine(tag);
  }

  /** A tag line reaches the tag parser with what stood between its brackets. */
  lemma TagPiece(indent: nat, inside: string)
    requires inside != "" && Trimmed(inside, BLANKS)
    ensures var piece := Repeat('\t', indent) + ("<" + inside + ">") + "\n";
            LineOf(piece, false) == ClassifyTag(inside) && !CommentAfter(piece, false)
  {
    var s := "<" + inside + ">";
    CleanPrinted(indent, s);
    PrefixFacts(s);
    assert Chomp(s) == inside;
    TrimNothing(inside);
  }

  /** A printed one does. */
  lemma PrintedTagLine(indent: nat, inside: string)
    requires inside != "" && Trimmed(inside, BLANKS) && OneLine(inside)
    ensures var piece := SingleLine(Repeat('\t', indent) + ("<" + inside + ">")) + "\n";
            LineOf(piece, false) == ClassifyTag(inside) && !CommentAfter(piece, false)
  {
    var s := "<" + inside + ">";
    SingleLinePrinted(indent, s);
    RemoveNothing(s, LINE_ENDS);
    TagPiece(indent, inside);
  }

  lemma BothEnds(a: string, b: string)
    requires a != "" && b != "" && a[0] !in BLANKS && b[|b| - 1] !in BLANKS
    ensures Trimmed(a + b, BLANKS)
  {
    assert (a + b)[|a + b| - 1] == b[|b| - 1];
  }

  lemma InsideTag(a: string, b: string)
    requires a != "" && b != "" && a[0] !in BLANKS && b[|b| - 1] !in BLANKS && OneLine(a) && OneLine(b)
    ensures Trimmed(a + b, BLANKS) && OneLine(a + b)
  {
    BothEnds(a, b);
  }

  lemma OpenPrinted(indent: nat, tag: string, name: string)
    requires BlockOk(tag, name)
    ensures LineOf(OpenText(indent, tag, name) + "\n", false) == Open(tag, name)
    ensures !CommentAfter(OpenText(indent, tag, name) + "\n", false)
  {
    InsideTag(tag + " ", name);
    var inside := tag + " " + name;
    var tabs := Repeat('\t', indent);
    assert tabs + "<" + tag + " " + name + ">" == tabs + ("<" + inside + ">");
    assert OpenText(indent, tag, name) == SingleLine(tabs + ("<" + inside + ">"));
    PrintedTagLine(indent, inside);
    ClassifyPrintedTag(tag, name);
  }

  lemma ClosePrinted(indent: nat, tag: string, name: string)
    requires BlockOk(tag, name)
    ensures LineOf(CloseText(indent, tag) + "\n", false) == Close(tag)
    ensures !CommentAfter(CloseText(indent, tag) + "\n", false)
  {
    InsideTag("/", tag);
    var inside := "/" + tag;
    var tabs := Repeat('\t', indent);
    assert tabs + "</" + tag + ">" == tabs + ("<" + inside + ">");
    assert CloseText(indent, tag) == SingleLine(tabs + ("<" + inside + ">"));
    PrintedTagLine(indent, inside);
    ClassifyPrintedClose(tag, name);
  }

  lemma BlankPrinted()
    ensures LineOf("\n", false) == Skip && !CommentAfter("\n", false)
  {
    assert Clean("\n") == "";
    PrefixFacts("");
  }

  lemma TagChars(inside: string, n: nat, rest: bool, c: char)
    requires c in Trim(Token(inside, n, rest, ' '), BLANKS)
    ensures c in inside
    ensures !rest ==> c != ' '
  {
    TrimChars(Token(inside, n, rest, ' '), BLANKS, c);
    TokenChars(inside, n, rest, ' ', c);
  }

  lemma LoweredTag(tag: string, bad: set<char>)
    requires tag != "" && Trimmed(tag, BLANKS) && Avoids(tag, bad) && ' ' !in tag && !("/" <= tag)
    requires bad <= LINE_ENDS
    ensures var low := Lower(tag);
            && low != "" && Trimmed(low, BLANKS) && Lower(low) == low && ' ' !in low && !("/" <= low)
            && Avoids(low, bad)
  {
    LowerTwice(tag);
    var low := Lower(tag);
    forall i | 0 <= i < |low| ensures low[i] !in bad && low[i] != ' ' {
      assert tag[i] in tag;
    }
    assert low[0] == LowerChar(tag[0]);
  }

  lemma RawTag(inside: string, bad: set<char>, raw: string)
    requires inside != "" && Avoids(inside, bad) && Trimmed(inside, BLANKS)
    requires raw == Trim(Token(inside, 0, false, ' '), BLANKS)
    ensures raw != "" && Avoids(raw, bad) && ' ' !in raw
  {
    forall c | c in raw ensures c !in bad && c != ' ' {
      TagChars(inside, 0, false, c);
    }
    FirstTokens(inside, ' ');
    var token := Before(inside, ' ');
    assert token[0] == inside[0];
    assert TrimLeft(token, BLANKS) == token;
    TrimRightKeeps(token, 0);
  }

  lemma OpenFromTokens(inside: string, raw: string, value: string)
    requires raw == Trim(Token(inside, 0, false, ' '), BLANKS) && value == Trim(Token(inside, 1, true, ' '), BLANKS)
    ensures ClassifyTag(inside) == TagLine(raw, value)
  {
  }

  lemma OpenTag(raw: string, value: string)
    requires TagLine(raw, value).Open?
    ensures !("/" <= raw) && value != "" && TagLine(raw, value) == Open(Lower(raw), value)
  {
    StartsWithExact(raw, "/");
  }

  lemma OpenName(inside: string, bad: set<char>, value: string)
    requires Avoids(inside, bad) && value != "" && value == Trim(Token(inside, 1, true, ' '), BLANKS)
    ensures inside != "" && Avoids(value, bad) && Trimmed(value, BLANKS)
  {
    forall c | c in value ensures c in inside {
      TagChars(inside, 1, true, c);
    }
    assert value[0] in inside;
  }

  /** What any opening tag line can yield. */
  lemma OpenImage(inside: string, bad: set<char>, tag: string, name: string)
    requires ClassifyTag(inside) == Open(tag, name) && Avoids(inside, bad) && Trimmed(inside, BLANKS)
    requires bad <= LINE_ENDS
    ensures BlockShape(tag, name) && Avoids(tag, bad) && Avoids(name, bad)
  {
    var raw := Trim(Token(inside, 0, false, ' '), BLANKS);
    var value := Trim(Token(inside, 1, true, ' '), BLANKS);
    OpenFromTokens(inside, raw, value);
    OpenTag(raw, value);
    OpenName(inside, bad, value);
    RawTag(inside, bad, raw);
    LoweredTag(raw, bad);
  }
}
