/** Exactly which configurations come back unchanged from being written and parsed. */
module ConfigReload {
  import opened Strings
  import opened Multimap
  import opened ConfigModel
  import opened ConfigInvariant
  import opened ConfigSyntax
  import opened ConfigRoundTrip
  import Files

  // ----- What parsing can produce -----

  /** An entry any line can yield that avoids some of the line ends. */
  predicate CleanEntry(key: string, value: string, bad: set<char>) {
    KeyShape(key) && value != "" && Avoids(key, bad) && Avoids(value, bad)
  }

  predicate CleanBlock(tag: string, name: string, bad: set<char>) {
    BlockShape(tag, name) && Avoids(tag, bad) && Avoids(name, bad)
  }

  predicate CleanLine(line: Line, bad: set<char>) {
    match line
    case Entry(key, value) => CleanEntry(key, value, bad)
    case Open(tag, name) => CleanBlock(tag, name, bad)
    case _ => true
  }

  ghost predicate CleanConfig(c: Config, bad: set<char>) {
    && (forall i :: 0 <= i < |c.entries| ==> CleanEntry(c.entries[i].key, c.entries[i].item, bad))
    && (forall i :: 0 <= i < |c.subs| ==> CleanBlock(c.subs[i].key, c.subs[i].item.name, bad))
    && (forall i :: 0 <= i < |c.subs| ==> CleanConfig(c.subs[i].item.config, bad))
  }

  lemma ClassifyImage(s: string, bad: set<char>)
    requires Avoids(s, bad) && bad <= LINE_ENDS
    ensures CleanLine(Classify(s), bad)
  {
    if Classify(s).Entry? {
      EntryLineShape(s);
      EntryImage(s, bad, Classify(s).key, Classify(s).value);
    } else if Classify(s).Open? {
      var inside := Trim(Chomp(s), BLANKS);
      TagLineShape(s);
      forall c | c in inside ensures c in s {
        TrimChars(Chomp(s), BLANKS, c);
      }
      OpenImage(inside, bad, Classify(s).tag, Classify(s).name);
    }
  }

  lemma TagLineShape(s: string)
    requires Classify(s).Open?
    ensures ClassifyTag(Trim(Chomp(s), BLANKS)) == Classify(s)
  {
    assert !IsIgnored(s);
    assert IsTag(s);
  }

  lemma {:induction false} ScanImage(pieces: seq<string>, commented: bool, bad: set<char>)
    requires bad <= LINE_ENDS && forall i :: 0 <= i < |pieces| ==> Avoids(Clean(pieces[i]), bad)
    ensures forall i :: 0 <= i < |pieces| ==> CleanLine(Scan(pieces, commented)[i], bad)
  {
    if pieces != [] {
      ClassifyImage(Clean(pieces[0]), bad);
      ScanImage(pieces[1..], CommentAfter(pieces[0], commented), bad);
    }
  }

  ghost predicate CleanMachine(m: Machine, bad: set<char>) {
    && CleanConfig(m.root, bad)
    && forall i :: 0 <= i < |m.stack| ==>
         CleanConfig(m.stack[i].config, bad) && CleanBlock(m.stack[i].tag, m.stack[i].name, bad)
  }

  lemma AddEntryClean(c: Config, key: string, value: string, bad: set<char>)
    requires CleanConfig(c, bad) && CleanEntry(key, value, bad)
    ensures CleanConfig(AddEntry(c, key, value), bad)
  {
    var more := Insert(c.entries, key, value);
    forall i | 0 <= i < |more| ensures CleanEntry(more[i].key, more[i].item, bad) {
      InsertMembers(c.entries, key, value, more[i]);
      assert more[i] in more;
      if more[i] in c.entries {
        var j :| 0 <= j < |c.entries| && c.entries[j] == more[i];
      }
    }
  }

  lemma AddSubClean(c: Config, tag: string, name: string, inner: Config, bad: set<char>)
    requires CleanConfig(c, bad) && CleanConfig(inner, bad) && CleanBlock(tag, name, bad)
    ensures CleanConfig(AddSub(c, tag, name, inner), bad)
  {
    var block := Block(name, inner);
    var more := Insert(c.subs, tag, block);
    forall i | 0 <= i < |more|
      ensures CleanBlock(more[i].key, more[i].item.name, bad) && CleanConfig(more[i].item.config, bad)
    {
      InsertMembers(c.subs, tag, block, more[i]);
      assert more[i] in more;
      if more[i] in c.subs {
        var j :| 0 <= j < |c.subs| && c.subs[j] == more[i];
      }
    }
  }

  lemma StepClean(m: Machine, line: Line, bad: set<char>)
    requires CleanMachine(m, bad) && CleanLine(line, bad)
    ensures Step(m, line).Next? ==> CleanMachine(Step(m, line).machine, bad)
  {
    match line
    case Skip =>
    case Bad(_) =>
    case Open(_, _) =>
    case Entry(key, value) => AddEntryClean(m.Active(), key, value, bad);
    case Close(tag) =>
      if Step(m, line).Next? {
        var top := m.stack[|m.stack| - 1];
        var below := m.(stack := m.stack[..|m.stack| - 1]);
        assert Lower(tag) == top.tag;
        AddSubClean(below.Active(), Lower(tag), top.name, top.config, bad);
      }
  }

  lemma {:induction false} RunClean(lines: seq<Line>, m: Machine, commented: bool, done: nat, bad: set<char>)
    requires CleanMachine(m, bad) && forall i :: 0 <= i < |lines| ==> CleanLine(lines[i], bad)
    ensures Run(lines, m, commented, done).Parsed? ==> CleanConfig(Run(lines, m, commented, done).config, bad)
    decreases |lines|
  {
    if lines != [] && Step(m, lines[0]).Next? {
      StepClean(m, lines[0], bad);
      RunClean(lines[1..], Step(m, lines[0]).machine, commented, done + 1, bad);
    }
  }

  /** Everything parsed is consistent, and clean of the line ends that its lines, once trimmed, are
      clean of. */
  lemma ParsedIsClean(pieces: seq<string>, c: Config, bad: set<char>)
    requires bad <= LINE_ENDS && forall i :: 0 <= i < |pieces| ==> Avoids(Clean(pieces[i]), bad)
    requires ParseLines(pieces) == Parsed(c)
    ensures Consistent(c) && CleanConfig(c, bad)
  {
    ScanImage(pieces, false, bad);
    assert NamesIn([]) == map[];
    RunClean(Scan(pieces, false), Machine(EMPTY, []), CommentedAtEnd(pieces, false), 0, bad);
    RunConsistent(Scan(pieces, false), Machine(EMPTY, []), CommentedAtEnd(pieces, false), 0);
  }

  // ----- Counting entries -----

  function Count(lines: seq<Line>): nat {
    if lines == [] then 0 else (if lines[0].Entry? then 1 else 0) + Count(lines[1..])
  }

  lemma {:induction false} CountConcat(a: seq<Line>, b: seq<Line>)
    ensures Count(a + b) == Count(a) + Count(b)
  {
    if a == [] {
      assert a + b == b;
    } else {
      assert (a + b)[1..] == a[1..] + b;
      CountConcat(a[1..], b);
    }
  }

  function EntryCount(c: Config): nat
    decreases c
  {
    |c.entries| + SubCount(c.subs)
  }

  function SubCount(subs: seq<Keyed<Block>>): nat
    decreases subs
  {
    if subs == [] then 0 else EntryCount(subs[0].item.config) + SubCount(subs[1..])
  }

  lemma {:induction false} InsertCount(subs: seq<Keyed<Block>>, tag: string, block: Block)
    ensures SubCount(Insert(subs, tag, block)) == SubCount(subs) + EntryCount(block.config)
  {
    if subs == [] || Less(tag, subs[0].key) {
      assert ([Keyed(tag, block)] + subs)[1..] == subs;
    } else {
      InsertCount(subs[1..], tag, block);
      assert Insert(subs, tag, block)[1..] == Insert(subs[1..], tag, block);
    }
  }

  /** Every entry line of an accepted file is one entry of the result. */
  lemma {:induction false} TreeCount(nodes: seq<Node>, c: Config)
    ensures EntryCount(Tree(nodes, c)) == EntryCount(c) + Count(Lines(nodes))
    decreases nodes, 1
  {
    if nodes != [] {
      PutCount(nodes[0], c);
      TreeCount(nodes[1..], Put(nodes[0], c));
      CountConcat(LinesOfNode(nodes[0]), Lines(nodes[1..]));
    }
  }

  lemma {:induction false} PutCount(node: Node, c: Config)
    ensures EntryCount(Put(node, c)) == EntryCount(c) + Count(LinesOfNode(node))
    decreases node, 0
  {
    if node.Section? {
      TreeCount(node.body, EMPTY);
      InsertCount(c.subs, Lower(node.close), Block(node.name, Tree(node.body, EMPTY)));
      CountConcat([Open(node.tag, node.name)], Lines(node.body));
      CountConcat([Open(node.tag, node.name)] + Lines(node.body), [Close(node.close)]);
    }
  }

  // ----- A bad entry is an entry line too few -----

  ghost predicate GoodEntries(c: Config) {
    && (forall i :: 0 <= i < |c.entries| ==> EntryOk(c.entries[i].key, c.entries[i].item))
    && (forall i :: 0 <= i < |c.subs| ==> GoodEntries(c.subs[i].item.config))
  }

  lemma EntryLineIsGood(indent: nat, key: string, value: string, commented: bool)
    requires CleanEntry(key, value, LINE_ENDS)
    requires LineOf(EntryText(indent, key, value) + "\n", commented).Entry?
    ensures EntryOk(key, value)
  {
    PrintedEntryClean(indent, key, value);
    if !EntryOk(key, value) {
      BadEntryLost(key, value);
    }
  }

  function Yield(texts: seq<string>, commented: bool): nat {
    Count(Scan(Printed(texts), commented))
  }

  lemma YieldConcat(a: seq<string>, b: seq<string>, commented: bool)
    ensures Yield(a + b, commented)
         == Yield(a, commented) + Yield(b, CommentedAtEnd(Printed(a), commented))
  {
    PrintedConcat(a, b);
    ScanConcat(Printed(a), Printed(b), commented);
    CountConcat(Scan(Printed(a), commented), Scan(Printed(b), CommentedAtEnd(Printed(a), commented)));
  }

  lemma YieldOne(text: string, commented: bool)
    ensures Yield([text], commented) == if LineOf(text + "\n", commented).Entry? then 1 else 0
  {
    assert Printed([text]) == [text + "\n"] + [];
    ScanFront(text + "\n", [], commented);
    var line := LineOf(text + "\n", commented);
    assert Scan(Printed([text]), commented) == [line];
    assert [line][1..] == [];
    assert Count([line]) == if line.Entry? then 1 else 0;
  }

  lemma {:induction false} EntriesYield(entries: seq<Keyed<string>>, indent: nat, commented: bool)
    requires forall i :: 0 <= i < |entries| ==> CleanEntry(entries[i].key, entries[i].item, LINE_ENDS)
    ensures Yield(EntryTexts(entries, indent), commented) <= |entries|
    ensures Yield(EntryTexts(entries, indent), commented) == |entries| ==>
              forall i :: 0 <= i < |entries| ==> EntryOk(entries[i].key, entries[i].item)
  {
    if entries != [] {
      var e, more := entries[0], entries[1..];
      var text := EntryText(indent, e.key, e.item);
      YieldConcat([text], EntryTexts(more, indent), commented);
      YieldOne(text, commented);
      EntriesYield(more, indent, CommentedAtEnd(Printed([text]), commented));
      if LineOf(text + "\n", commented).Entry? {
        EntryLineIsGood(indent, e.key, e.item, commented);
      }
    }
  }

  lemma HeaderYield(tag: string, name: string, indent: nat, commented: bool)
    requires BlockOk(tag, name)
    ensures Yield(["", OpenText(indent, tag, name)], commented) == 0
    ensures Yield([CloseText(indent, tag)], commented) == 0
  {
    var open := OpenText(indent, tag, name);
    assert ["", open] == [""] + [open];
    YieldConcat([""], [open], commented);
    YieldOne("", commented);
    assert "" + "\n" == "\n";
    BlankPrinted();
    YieldOne(open, CommentedAtEnd(Printed([""]), commented));
    YieldOne(CloseText(indent, tag), commented);
    OpenPrinted(indent, tag, name);
    ClosePrinted(indent, tag, name);
  }

  lemma {:induction false} SubsYield(subs: seq<Keyed<Block>>, indent: nat, commented: bool)
    requires forall i :: 0 <= i < |subs| ==>
               BlockOk(subs[i].key, subs[i].item.name) && CleanConfig(subs[i].item.config, LINE_ENDS)
    ensures Yield(SubTexts(subs, indent), commented) <= SubCount(subs)
    ensures Yield(SubTexts(subs, indent), commented) == SubCount(subs) ==>
              forall i :: 0 <= i < |subs| ==> GoodEntries(subs[i].item.config)
    decreases subs, 1
  {
    if subs != [] {
      YieldConcat(SubText(subs[0], indent), SubTexts(subs[1..], indent), commented);
      SubYield(subs[0], indent, commented);
      SubsYield(subs[1..], indent, CommentedAtEnd(Printed(SubText(subs[0], indent)), commented));
    }
  }

  lemma {:induction false} SubYield(sub: Keyed<Block>, indent: nat, commented: bool)
    requires BlockOk(sub.key, sub.item.name) && CleanConfig(sub.item.config, LINE_ENDS)
    ensures Yield(SubText(sub, indent), commented) <= EntryCount(sub.item.config)
    ensures Yield(SubText(sub, indent), commented) == EntryCount(sub.item.config) ==> GoodEntries(sub.item.config)
    decreases sub, 0
  {
    var header, footer := ["", OpenText(indent, sub.key, sub.item.name)], [CloseText(indent, sub.key)];
    var body := Texts(sub.item.config, indent + 1);
    YieldConcat(header + body, footer, commented);
    YieldConcat(header, body, commented);
    HeaderYield(sub.key, sub.item.name, indent, commented);
    TextsYield(sub.item.config, indent + 1, CommentedAtEnd(Printed(header), commented));
    HeaderYield(sub.key, sub.item.name, indent, CommentedAtEnd(Printed(header + body), commented));
  }

  lemma {:induction false} TextsYield(c: Config, indent: nat, commented: bool)
    requires CleanConfig(c, LINE_ENDS)
    ensures Yield(Texts(c, indent), commented) <= EntryCount(c)
    ensures Yield(Texts(c, indent), commented) == EntryCount(c) ==> GoodEntries(c)
    decreases c, 2
  {
    YieldConcat(EntryTexts(c.entries, indent), SubTexts(c.subs, indent), commented);
    EntriesYield(c.entries, indent, commented);
    SubsYield(c.subs, indent, CommentedAtEnd(Printed(EntryTexts(c.entries, indent)), commented));
  }

  // ----- The exact condition -----

  lemma {:induction false} WellFormedParts(c: Config)
    ensures WellFormed(c) <==> Consistent(c) && CleanConfig(c, LINE_ENDS) && GoodEntries(c)
    decreases c
  {
    forall i | 0 <= i < |c.subs|
      ensures WellFormed(c.subs[i].item.config)
         <==> Consistent(c.subs[i].item.config) && CleanConfig(c.subs[i].item.config, LINE_ENDS)
              && GoodEntries(c.subs[i].item.config)
    {
      WellFormedParts(c.subs[i].item.config);
    }
  }

  lemma ReloadedIsWellFormed(c: Config, indent: nat)
    requires Reload(c, indent) == Parsed(c)
    ensures WellFormed(c)
  {
    ReloadPrinted(c, indent);
    var pieces := Printed(Texts(c, indent));
    forall i | 0 <= i < |pieces| ensures OneLine(Clean(pieces[i])) {
      TextsOneLine(c, indent, i);
      CleanOneLine(Texts(c, indent)[i]);
    }
    ParsedIsClean(pieces, c, LINE_ENDS);
    AcceptedIffDocument(Scan(pieces, false), CommentedAtEnd(pieces, false), c);
    var nodes :| Lines(nodes) == Scan(pieces, false) && Proper(nodes, EMPTY) && Tree(nodes, EMPTY) == c;
    TreeCount(nodes, EMPTY);
    TextsYield(c, indent, false);
    WellFormedParts(c);
  }

  /** Writing a configuration at any indentation and parsing the text gives exactly that
      configuration back if and only if the configuration is well-formed. */
  lemma ReloadsIffWellFormed(c: Config, indent: nat)
    ensures Reload(c, indent) == Parsed(c) <==> WellFormed(c)
  {
    if WellFormed(c) {
      WellFormedReloads(c, indent);
    }
    if Reload(c, indent) == Parsed(c) {
      ReloadedIsWellFormed(c, indent);
    }
  }

  lemma {:induction false} NoEarlierLineEnd(text: string, k: nat)
    requires k < |text| && text[k] == '\n'
    ensures Files.Find(text, "\n").At? && Files.Find(text, "\n").index <= k
  {
    if !("\n" <= text) {
      assert k > 0;
      NoEarlierLineEnd(text[1..], k - 1);
    }
  }

  // ----- Saving a file that was loaded -----

  /** A loaded entry that survives being saved. */
  predicate SavableEntry(key: string, value: string) {
    && '\r' !in key && '\r' !in value && value != ""
    && !("#" <= key) && !("//" <= key) && !("/*" <= key)
    && !("<" <= key && value[|value| - 1] == '>')
  }

  /** No carriage return anywhere, and no key that looks like a comment or forms a tag with its
      value, at any depth. */
  ghost predicate Savable(c: Config) {
    && (forall i :: 0 <= i < |c.entries| ==>
          SavableEntry(c.entries[i].key, c.entries[i].item))
    && (forall i :: 0 <= i < |c.subs| ==> '\r' !in c.subs[i].key && '\r' !in c.subs[i].item.name)
    && (forall i :: 0 <= i < |c.subs| ==> Savable(c.subs[i].item.config))
  }

  lemma OneLineIff(s: string)
    requires Avoids(s, {'\n'})
    ensures OneLine(s) <==> '\r' !in s
  {
  }

  lemma EntryOkIff(key: string, value: string)
    requires CleanEntry(key, value, {'\n'})
    ensures EntryOk(key, value) <==> SavableEntry(key, value)
  {
    OneLineIff(key);
    OneLineIff(value);
  }

  lemma BlockOkIff(tag: string, name: string)
    requires CleanBlock(tag, name, {'\n'})
    ensures BlockOk(tag, name) <==> '\r' !in tag && '\r' !in name
  {
    OneLineIff(tag);
    OneLineIff(name);
  }

  lemma {:induction false} WellFormedIffSavable(c: Config)
    requires Consistent(c) && CleanConfig(c, {'\n'})
    ensures WellFormed(c) <==> Savable(c)
    decreases c
  {
    forall i | 0 <= i < |c.entries|
      ensures EntryOk(c.entries[i].key, c.entries[i].item)
         <==> SavableEntry(c.entries[i].key, c.entries[i].item)
    {
      EntryOkIff(c.entries[i].key, c.entries[i].item);
    }
    forall i | 0 <= i < |c.subs|
      ensures BlockOk(c.subs[i].key, c.subs[i].item.name)
         <==> '\r' !in c.subs[i].key && '\r' !in c.subs[i].item.name
      ensures WellFormed(c.subs[i].item.config) <==> Savable(c.subs[i].item.config)
    {
      BlockOkIff(c.subs[i].key, c.subs[i].item.name);
      WellFormedIffSavable(c.subs[i].item.config);
    }
  }

  lemma PieceAvoids(text: string, i: nat)
    requires i < |Files.Pieces(text, "\n")|
    ensures Avoids(Clean(Files.Pieces(text, "\n")[i]), {'\n'})
    decreases |text|
  {
    var p := Files.NextPiece(text, "\n");
    if i > 0 {
      PieceAvoids(text[|p|..], i - 1);
    } else {
      forall k | 0 <= k < |p| && p[k] == '\n' ensures k == |p| - 1 {
        NoEarlierLineEnd(text, k);
      }
      CleanFeed(p);
    }
  }

  lemma CleanFeed(p: string)
    requires forall k :: 0 <= k < |p| && p[k] == '\n' ==> k == |p| - 1
    ensures Avoids(Clean(p), {'\n'})
  {
    var left := TrimLeft(p, BLANKS);
    TrimLeftSuffix(p, BLANKS);
    TrimRightPrefix(left, LINE_ENDS);
    forall c | c in Clean(p) ensures c != '\n' {
      var k :| 0 <= k < |Clean(p)| && Clean(p)[k] == c;
      assert left[k] == p[|p| - |left| + k];
    }
  }

  /** Any file that loads can be saved and loaded again exactly when no entry, at any depth, has a key
      that looks like a comment or forms a tag with its value, and no carriage return has got into a
      key, a value, a tag or a name. */
  lemma SavedFileReloads(text: string, c: Config, indent: nat)
    requires ParseLines(Files.Pieces(text, "\n")) == Parsed(c)
    ensures Reload(c, indent) == Parsed(c) <==> Savable(c)
  {
    forall i | 0 <= i < |Files.Pieces(text, "\n")| ensures Avoids(Clean(Files.Pieces(text, "\n")[i]), {'\n'}) {
      PieceAvoids(text, i);
    }
    ParsedIsClean(Files.Pieces(text, "\n"), c, {'\n'});
    WellFormedIffSavable(c);
    ReloadsIffWellFormed(c, indent);
  }

  /** Carriage returns only in front of line feeds, or at the very end. */
  predicate ReturnsAtLineEnds(text: string) {
    forall k :: 0 <= k < |text| && text[k] == '\r' ==> k + 1 == |text| || text[k + 1] == '\n'
  }

  lemma {:induction false} PieceOneLine(text: string, i: nat)
    requires ReturnsAtLineEnds(text) && i < |Files.Pieces(text, "\n")|
    ensures OneLine(Clean(Files.Pieces(text, "\n")[i]))
    decreases |text|
  {
    var p := Files.NextPiece(text, "\n");
    if i > 0 {
      PieceOneLine(text[|p|..], i - 1);
    } else {
      forall k | 0 <= k < |p| && p[k] in LINE_ENDS ensures AllEnds(p, k) {
        FirstPieceEnds(text, k);
      }
      CleanEnds(p);
    }
  }

  /** From position k on there are only line ends. */
  predicate AllEnds(p: string, k: nat) {
    forall j :: k <= j < |p| ==> p[j] in LINE_ENDS
  }

  lemma FirstPieceEnds(text: string, k: nat)
    requires ReturnsAtLineEnds(text)
    requires k < |Files.NextPiece(text, "\n")| && text[k] in LINE_ENDS
    ensures AllEnds(Files.NextPiece(text, "\n"), k)
  {
    var p := Files.NextPiece(text, "\n");
    if text[k] == '\n' {
      NoEarlierLineEnd(text, k);
    } else if k + 1 < |text| {
      NoEarlierLineEnd(text, k + 1);
    }
  }

  lemma {:induction false} TrimRightEnds(s: string, k: nat)
    requires k <= |s| && AllEnds(s, k)
    ensures |TrimRight(s, LINE_ENDS)| <= k
    decreases |s|
  {
    TrimRightPrefix(s, LINE_ENDS);
    if k < |s| {
      assert s[|s| - 1] in LINE_ENDS;
      TrimRightEnds(s[..|s| - 1], k);
    }
  }

  lemma NoEndInside(s: string, k: nat)
    requires k < |TrimRight(s, LINE_ENDS)| <= |s|
    requires s[k] in LINE_ENDS ==> AllEnds(s, k)
    ensures s[k] !in LINE_ENDS
  {
    if s[k] in LINE_ENDS {
      TrimRightEnds(s, k);
    }
  }

  lemma CleanEnds(p: string)
    requires forall k :: 0 <= k < |p| && p[k] in LINE_ENDS ==> AllEnds(p, k)
    ensures OneLine(Clean(p))
  {
    var left := TrimLeft(p, BLANKS);
    TrimLeftSuffix(p, BLANKS);
    TrimRightPrefix(left, LINE_ENDS);
    forall c | c in Clean(p) ensures c !in LINE_ENDS {
      var k :| 0 <= k < |Clean(p)| && Clean(p)[k] == c;
      var cut := |p| - |left|;
      assert forall j :: k <= j < |left| ==> left[j] == p[cut + j];
      NoEndInside(left, k);
    }
  }

  /** In particular, a file with either kind of line end can be saved and loaded again exactly when no
      key looks like a comment or forms a tag with its value. */
  lemma SavedTextReloads(text: string, c: Config, indent: nat)
    requires ReturnsAtLineEnds(text) && ParseLines(Files.Pieces(text, "\n")) == Parsed(c)
    ensures Reload(c, indent) == Parsed(c) <==> GoodEntries(c)
  {
    forall i | 0 <= i < |Files.Pieces(text, "\n")| ensures OneLine(Clean(Files.Pieces(text, "\n")[i])) {
      PieceOneLine(text, i);
    }
    ParsedIsClean(Files.Pieces(text, "\n"), c, LINE_ENDS);
    WellFormedParts(c);
    ReloadsIffWellFormed(c, indent);
  }

  lemma LeadingSeparator(rest: string)
    requires rest != "" && rest[0] != '='
    ensures ClassifyEntry("=" + rest) == ClassifyEntry(rest)
  {
    TrimLeftAround("=", rest, {'='});
    TrimLeftAround("", rest, {'='});
    assert "" + rest == rest;
    SameTokens("=" + rest, rest);
  }

  lemma SameTokens(s: string, t: string)
    requires TrimLeft(s, {'='}) == t == TrimLeft(t, {'='})
    ensures ClassifyEntry(s) == ClassifyEntry(t)
  {
    assert Token(s, 0, false, '=') == Token(t, 0, false, '=');
    assert Token(s, 1, true, '=') == Token(t, 1, true, '=');
  }

  lemma HashEntry()
    ensures ClassifyEntry("=" + ("#" + "=" + "v")) == Entry("#", "v")
  {
    var rest := "#" + "=" + "v";
    TwoTokens("#", '=', "v");
    TrimNothing("#");
    StartsWithExact("v", " ");
    EntryFromTokens(rest, "#", "v", "#", "v");
    LeadingSeparator(rest);
  }

  lemma UnbracketedLine(s: string)
    requires s != "" && s[0] == '=' && s[|s| - 1] !in LINE_ENDS
    ensures LineOf(s, false) == ClassifyEntry(s)
  {
    UntrimmedLine(s);
    PrefixFacts(s);
  }

  lemma UntrimmedLine(s: string)
    requires s != "" && s[0] !in BLANKS && s[|s| - 1] !in LINE_ENDS
    ensures Clean(s) == s
  {
    TrimLeftAround("", s, BLANKS);
    TrimRightAround(s, "", LINE_ENDS);
    assert "" + s == s && s + "" == s;
  }

  /** Such files exist: this one loads as the key `#` with the value `v`, and saving it writes
      that entry as a comment. */
  lemma CommentKeyIsLost(indent: nat)
    ensures var c := Config([Keyed("#", "v")], [], map[]);
            ParseLines(["=#=v"]) == Parsed(c) && Reload(c, indent) != Parsed(c)
  {
    CommentKeyLoads();
    var c := Config([Keyed("#", "v")], [], map[]);
    ReloadsIffWellFormed(c, indent);
    assert !EntryOk(c.entries[0].key, c.entries[0].item);
  }

  lemma CommentKeyLoads()
    ensures ParseLines(["=#=v"]) == Parsed(Config([Keyed("#", "v")], [], map[]))
  {
    CommentKeyScans();
    var c := Config([Keyed("#", "v")], [], map[]);
    AcceptedIffDocument([Entry("#", "v")], false, c);
    FrontNode(Leaf("#", "v"), [], EMPTY);
    assert Lines([Leaf("#", "v")] + []) == [Entry("#", "v")];
  }

  lemma CommentKeyScans()
    ensures Scan(["=#=v"], false) == [Entry("#", "v")] && !CommentedAtEnd(["=#=v"], false)
  {
    var s := "=" + ("#" + "=" + "v");
    assert s == "=#=v";
    HashEntry();
    UnbracketedLine(s);
    ScanFront(s, [], false);
    assert [s] + [] == [s];
    assert Scan([s], false) == [Entry("#", "v")];
    assert !CommentAfter(s, false) by { PrefixFacts(Clean(s)); }
  }

  /** A carriage return inside a tag or block name is kept by loading and removed by saving. */
  lemma ReturnIsLost(tag: string, name: string, indent: nat)
    requires BlockShape(tag, name) && ('\r' in tag || '\r' in name)
    ensures var c := AddSub(EMPTY, tag, name, EMPTY);
            && ParseLines(["<" + (tag + " " + name) + ">" + "\n", "<" + ("/" + tag) + ">" + "\n"]) == Parsed(c)
            && Reload(c, indent) != Parsed(c) && GoodEntries(c)
  {
    var c := AddSub(EMPTY, tag, name, EMPTY);
    TwoTagLines(tag, name);
    BlockParses(tag, name);
    ReloadsIffWellFormed(c, indent);
    assert !BlockOk(c.subs[0].key, c.subs[0].item.name);
  }

  lemma UnindentedTag(inside: string)
    requires inside != "" && Trimmed(inside, BLANKS)
    ensures var piece := "<" + inside + ">" + "\n";
            LineOf(piece, false) == ClassifyTag(inside) && !CommentAfter(piece, false)
  {
    TagPiece(0, inside);
    assert Repeat('\t', 0) + ("<" + inside + ">") == "<" + inside + ">";
  }

  lemma ScanTwo(a: string, b: string)
    requires !CommentAfter(a, false) && !CommentAfter(b, false)
    ensures Scan([a, b], false) == [LineOf(a, false), LineOf(b, false)] && !CommentedAtEnd([a, b], false)
  {
    ScanFront(a, [b], false);
    ScanFront(b, [], false);
    assert [a] + [b] == [a, b] && [b] + [] == [b];
    assert [a, b][1..] == [b] && [b][1..] == [];
  }

  lemma TwoTagLines(tag: string, name: string)
    requires BlockShape(tag, name)
    ensures var pieces := ["<" + (tag + " " + name) + ">" + "\n", "<" + ("/" + tag) + ">" + "\n"];
            Scan(pieces, false) == [Open(tag, name), Close(tag)] && !CommentedAtEnd(pieces, false)
  {
    BothEnds(tag + " ", name);
    BothEnds("/", tag);
    UnindentedTag(tag + " " + name);
    UnindentedTag("/" + tag);
    ClassifyPrintedTag(tag, name);
    ClassifyPrintedClose(tag, name);
    ScanTwo("<" + (tag + " " + name) + ">" + "\n", "<" + ("/" + tag) + ">" + "\n");
  }

  lemma BlockParses(tag: string, name: string)
    requires Lower(tag) == tag
    ensures Run([Open(tag, name), Close(tag)], Machine(EMPTY, []), false, 0)
         == Parsed(AddSub(EMPTY, tag, name, EMPTY))
  {
    var node := Section(tag, name, [], tag);
    FrontNode(node, [], EMPTY);
    assert [node] + [] == [node];
    assert Lines([node]) == [Open(tag, name), Close(tag)];
    AcceptedIffDocument([Open(tag, name), Close(tag)], false, AddSub(EMPTY, tag, name, EMPTY));
  }

  /** For example the name in `<u a\rb>`. */
  lemma ReturnInName()
    ensures BlockShape("u", "a\rb") && '\r' in "a\rb"
  {
    assert "a\rb"[1] == '\r';
  }
}
