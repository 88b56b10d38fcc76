/** Writing a configuration and parsing the text again. */
module ConfigRoundTrip {
  import opened Common
  import opened Strings
  import opened Multimap
  import opened ConfigModel
  import opened ConfigInvariant
  import opened ConfigSyntax
  import Files

  /** The text of printed lines. */
  function Render(texts: seq<string>): string {
    if texts == [] then "" else texts[0] + "\n" + Render(texts[1..])
  }

  /** The lines as `ReadLine` returns them, line ends included. */
  function Printed(texts: seq<string>): (r: seq<string>)
    ensures |r| == |texts|
    ensures forall i :: 0 <= i < |r| ==> r[i] == texts[i] + "\n"
  {
    seq(|texts|, i requires 0 <= i < |texts| => texts[i] + "\n")
  }

  lemma {:induction false} FindLineEnd(s: string, rest: string)
    requires '\n' !in s
    ensures Files.Find(s + "\n" + rest, "\n") == Files.At(|s|)
  {
    var all := s + "\n" + rest;
    if s == "" {
      assert all == "\n" + rest;
      assert "\n" <= all;
    } else {
      assert all[0] == s[0] && s[0] in s;
      assert all[1..] == s[1..] + "\n" + rest;
      FindLineEnd(s[1..], rest);
    }
  }

  lemma {:induction false} PiecesOfText(texts: seq<string>)
    requires forall i :: 0 <= i < |texts| ==> OneLine(texts[i])
    ensures Files.Pieces(Render(texts), "\n") == Printed(texts)
  {
    if texts != [] {
      var head, rest := texts[0], Render(texts[1..]);
      var all := head + "\n" + rest;
      FindLineEnd(head, rest);
      assert all[..|head| + 1] == head + "\n";
      assert all[|head| + 1..] == rest;
      PiecesOfText(texts[1..]);
      assert Printed(texts) == [head + "\n"] + Printed(texts[1..]);
    }
  }

  // ----- Everything printed is one line each -----

  lemma {:induction false} TextsOneLine(c: Config, indent: nat, i: nat)
    requires i < |Texts(c, indent)|
    ensures OneLine(Texts(c, indent)[i])
    decreases c, 2
  {
    var n := |EntryTexts(c.entries, indent)|;
    if i < n {
      EntryTextsOneLine(c.entries, indent, i);
    } else {
      SubTextsOneLine(c.subs, indent, i - n);
    }
  }

  lemma {:induction false} EntryTextsOneLine(entries: seq<Keyed<string>>, indent: nat, i: nat)
    requires i < |EntryTexts(entries, indent)|
    ensures OneLine(EntryTexts(entries, indent)[i])
  {
    if i > 0 {
      EntryTextsOneLine(entries[1..], indent, i - 1);
    }
  }

  lemma {:induction false} SubTextsOneLine(subs: seq<Keyed<Block>>, indent: nat, i: nat)
    requires i < |SubTexts(subs, indent)|
    ensures OneLine(SubTexts(subs, indent)[i])
    decreases subs, 1
  {
    var n := |SubText(subs[0], indent)|;
    if i >= n {
      SubTextsOneLine(subs[1..], indent, i - n);
    } else if 2 <= i < n - 1 {
      TextsOneLine(subs[0].item.config, indent + 1, i - 2);
    }
  }

  // ----- The document of a configuration -----

  function Document(c: Config): seq<Node>
    decreases c
  {
    EntryNodes(c.entries) + SubNodes(c.subs)
  }

  function EntryNodes(entries: seq<Keyed<string>>): seq<Node> {
    if entries == [] then [] else [Leaf(entries[0].key, entries[0].item)] + EntryNodes(entries[1..])
  }

  function SubNodes(subs: seq<Keyed<Block>>): seq<Node>
    decreases subs
  {
    if subs == [] then [] else [Blank, SectionOf(subs[0])] + SubNodes(subs[1..])
  }

  function SectionOf(sub: Keyed<Block>): Node
    decreases sub
  {
    Section(sub.key, sub.item.name, Document(sub.item.config), sub.key)
  }

  /** The configurations that survive being written and read: consistent maps, and every key, value,
      tag and block name one that survives on its own line. */
  ghost predicate WellFormed(c: Config) {
    && Sorted(c.entries) && Sorted(c.subs) && c.names == NamesIn(c.subs) && UniqueNames(c.subs)
    && (forall i :: 0 <= i < |c.entries| ==> EntryOk(c.entries[i].key, c.entries[i].item))
    && (forall i :: 0 <= i < |c.subs| ==> BlockOk(c.subs[i].key, c.subs[i].item.name))
    && (forall i :: 0 <= i < |c.subs| ==> WellFormed(c.subs[i].item.config))
  }

  lemma ScanFront(piece: string, rest: seq<string>, commented: bool)
    ensures Scan([piece] + rest, commented)
         == [LineOf(piece, commented)] + Scan(rest, CommentAfter(piece, commented))
    ensures CommentedAtEnd([piece] + rest, commented) == CommentedAtEnd(rest, CommentAfter(piece, commented))
  {
    assert ([piece] + rest)[1..] == rest;
  }

  lemma {:induction false} ScanConcat(a: seq<string>, b: seq<string>, commented: bool)
    ensures Scan(a + b, commented) == Scan(a, commented) + Scan(b, CommentedAtEnd(a, commented))
    ensures CommentedAtEnd(a + b, commented) == CommentedAtEnd(b, CommentedAtEnd(a, commented))
  {
    if a == [] {
      assert a + b == b;
    } else {
      var head, tail := a[0], a[1..];
      assert a == [head] + tail && a + b == [head] + (tail + b);
      ScanFront(head, tail + b, commented);
      ScanFront(head, tail, commented);
      ScanConcat(tail, b, CommentAfter(head, commented));
      Associative([LineOf(head, commented)], Scan(tail, CommentAfter(head, commented)),
            Scan(b, CommentedAtEnd(a, commented)));
    }
  }

  /** The pieces read as the lines, with no comment open before or after. */
  ghost predicate ReadsAs(pieces: seq<string>, lines: seq<Line>) {
    Scan(pieces, false) == lines && !CommentedAtEnd(pieces, false)
  }

  lemma ReadsConcat(a: seq<string>, x: seq<Line>, b: seq<string>, y: seq<Line>)
    requires ReadsAs(a, x) && ReadsAs(b, y)
    ensures ReadsAs(a + b, x + y)
  {
    ScanConcat(a, b, false);
  }

  lemma ReadsOne(piece: string, line: Line)
    requires LineOf(piece, false) == line && !CommentAfter(piece, false)
    ensures ReadsAs([piece], [line])
  {
    assert [piece][1..] == [];
  }

  lemma PrintedConcat(a: seq<string>, b: seq<string>)
    ensures Printed(a + b) == Printed(a) + Printed(b)
  {
  }

  lemma LinesConcat(a: seq<Node>, b: seq<Node>)
    ensures Lines(a + b) == Lines(a) + Lines(b)
  {
    if a == [] {
      assert a + b == b;
    } else {
      assert (a + b)[1..] == a[1..] + b;
      LinesConcat(a[1..], b);
      FrontNode(a[0], a[1..], EMPTY);
      FrontNode(a[0], a[1..] + b, EMPTY);
      assert a == [a[0]] + a[1..] && a + b == [a[0]] + (a[1..] + b);
    }
  }

  lemma {:induction false} EntriesReadAs(entries: seq<Keyed<string>>, indent: nat)
    requires forall i :: 0 <= i < |entries| ==> EntryOk(entries[i].key, entries[i].item)
    ensures ReadsAs(Printed(EntryTexts(entries, indent)), Lines(EntryNodes(entries)))
  {
    if entries != [] {
      EntriesReadAs(entries[1..], indent);
      EntryReadsAs(entries[0], indent, EntryTexts(entries[1..], indent), EntryNodes(entries[1..]));
    }
  }

  lemma EntryReadsAs(e: Keyed<string>, indent: nat, texts: seq<string>, nodes: seq<Node>)
    requires EntryOk(e.key, e.item) && ReadsAs(Printed(texts), Lines(nodes))
    ensures ReadsAs(Printed([EntryText(indent, e.key, e.item)] + texts), Lines([Leaf(e.key, e.item)] + nodes))
  {
    var text := EntryText(indent, e.key, e.item);
    GoodEntryReadsBack(indent, e.key, e.item);
    ReadsOne(text + "\n", Entry(e.key, e.item));
    ReadsConcat([text + "\n"], [Entry(e.key, e.item)], Printed(texts), Lines(nodes));
    assert Printed([text] + texts) == [text + "\n"] + Printed(texts);
    FrontNode(Leaf(e.key, e.item), nodes, EMPTY);
  }

  lemma {:induction false} SubsReadAs(subs: seq<Keyed<Block>>, indent: nat)
    requires forall i :: 0 <= i < |subs| ==>
               BlockOk(subs[i].key, subs[i].item.name) && WellFormed(subs[i].item.config)
    ensures ReadsAs(Printed(SubTexts(subs, indent)), Lines(SubNodes(subs)))
    decreases subs, 1
  {
    if subs != [] {
      var more := subs[1..];
      SubReadAs(subs[0], indent);
      SubsReadAs(more, indent);
      var head := [Blank, SectionOf(subs[0])];
      ReadsConcat(Printed(SubText(subs[0], indent)), Lines(head),
                  Printed(SubTexts(more, indent)), Lines(SubNodes(more)));
      PrintedConcat(SubText(subs[0], indent), SubTexts(more, indent));
      LinesConcat(head, SubNodes(more));
    }
  }

  /** The lines around the body of a block. */
  lemma HeaderReadsAs(sub: Keyed<Block>, indent: nat)
    requires BlockOk(sub.key, sub.item.name)
    ensures ReadsAs(Printed(["", OpenText(indent, sub.key, sub.item.name)]),
                    [Skip] + [Open(sub.key, sub.item.name)])
  {
    var open := OpenText(indent, sub.key, sub.item.name);
    var blank := "" + "\n";
    assert blank == "\n";
    BlankPrinted();
    OpenPrinted(indent, sub.key, sub.item.name);
    ReadsOne(blank, Skip);
    ReadsOne(open + "\n", Open(sub.key, sub.item.name));
    ReadsConcat([blank], [Skip], [open + "\n"], [Open(sub.key, sub.item.name)]);
    assert Printed(["", open]) == [blank] + [open + "\n"];
  }

  lemma FooterReadsAs(sub: Keyed<Block>, indent: nat)
    requires BlockOk(sub.key, sub.item.name)
    ensures ReadsAs(Printed([CloseText(indent, sub.key)]), [Close(sub.key)])
  {
    ClosePrinted(indent, sub.key, sub.item.name);
    ReadsOne(CloseText(indent, sub.key) + "\n", Close(sub.key));
    assert Printed([CloseText(indent, sub.key)]) == [CloseText(indent, sub.key) + "\n"];
  }

  lemma ReadsThree(a: seq<string>, x: seq<Line>, b: seq<string>, y: seq<Line>, c: seq<string>, z: seq<Line>)
    requires ReadsAs(Printed(a), x) && ReadsAs(Printed(b), y) && ReadsAs(Printed(c), z)
    ensures ReadsAs(Printed(a + b + c), x + y + z)
  {
    PrintedConcat(a, b);
    PrintedConcat(a + b, c);
    ReadsConcat(Printed(a), x, Printed(b), y);
    ReadsConcat(Printed(a) + Printed(b), x + y, Printed(c), z);
  }

  lemma {:induction false} SubReadAs(sub: Keyed<Block>, indent: nat)
    requires BlockOk(sub.key, sub.item.name) && WellFormed(sub.item.config)
    ensures ReadsAs(Printed(SubText(sub, indent)), Lines([Blank, SectionOf(sub)]))
    decreases sub, 0
  {
    HeaderReadsAs(sub, indent);
    TextsReadAs(sub.item.config, indent + 1);
    FooterReadsAs(sub, indent);
    ReadsThree(["", OpenText(indent, sub.key, sub.item.name)], [Skip] + [Open(sub.key, sub.item.name)],
               Texts(sub.item.config, indent + 1), Lines(Document(sub.item.config)),
               [CloseText(indent, sub.key)], [Close(sub.key)]);
    SectionLines(sub);
  }

  lemma SectionLines(sub: Keyed<Block>)
    ensures Lines([Blank, SectionOf(sub)])
         == [Skip] + [Open(sub.key, sub.item.name)] + Lines(Document(sub.item.config)) + [Close(sub.key)]
  {
    FrontNode(Blank, [SectionOf(sub)], EMPTY);
    FrontNode(SectionOf(sub), [], EMPTY);
    assert [SectionOf(sub)] + [] == [SectionOf(sub)];
    assert [Blank] + [SectionOf(sub)] == [Blank, SectionOf(sub)];
  }

  lemma {:induction false} TextsReadAs(c: Config, indent: nat)
    requires WellFormed(c)
    ensures ReadsAs(Printed(Texts(c, indent)), Lines(Document(c)))
    decreases c, 2
  {
    EntriesReadAs(c.entries, indent);
    SubsReadAs(c.subs, indent);
    ReadsConcat(Printed(EntryTexts(c.entries, indent)), Lines(EntryNodes(c.entries)),
                Printed(SubTexts(c.subs, indent)), Lines(SubNodes(c.subs)));
    PrintedConcat(EntryTexts(c.entries, indent), SubTexts(c.subs, indent));
    LinesConcat(EntryNodes(c.entries), SubNodes(c.subs));
  }

  // ----- The document adds up to the configuration it came from -----

  lemma {:induction false} TreeConcat(a: seq<Node>, b: seq<Node>, c: Config)
    ensures Tree(a + b, c) == Tree(b, Tree(a, c))
    ensures Proper(a + b, c) == (Proper(a, c) && Proper(b, Tree(a, c)))
  {
    if a == [] {
      assert a + b == b;
    } else {
      var node, more := a[0], a[1..];
      assert a == [node] + more && a + b == [node] + (more + b);
      FrontNode(node, more, c);
      FrontNode(node, more + b, c);
      TreeConcat(more, b, Put(node, c));
    }
  }

  lemma {:induction false} EntriesRebuild(entries: seq<Keyed<string>>, i: nat)
    requires Sorted(entries) && i <= |entries|
    ensures Tree(EntryNodes(entries[i..]), Config(entries[..i], [], map[])) == Config(entries, [], map[])
    ensures Proper(EntryNodes(entries[i..]), Config(entries[..i], [], map[]))
    decreases |entries| - i
  {
    if i == |entries| {
      assert entries[..i] == entries && entries[i..] == [];
    } else {
      var e := entries[i];
      assert entries[i..] == [e] + entries[i + 1..];
      InsertLast(entries[..i], e.key, e.item);
      assert entries[..i] + [Keyed(e.key, e.item)] == entries[..i + 1];
      EntriesRebuild(entries, i + 1);
      FrontNode(Leaf(e.key, e.item), EntryNodes(entries[i + 1..]), Config(entries[..i], [], map[]));
    }
  }

  /** A configuration with only its first i blocks. */
  ghost function UpTo(c: Config, i: nat): Config
    requires i <= |c.subs|
  {
    Config(c.entries, c.subs[..i], NamesIn(c.subs[..i]))
  }

  lemma NextNameIsNew(c: Config, i: nat)
    requires UniqueNames(c.subs) && i < |c.subs|
    ensures c.subs[i].item.name !in NamesOf(UpTo(c, i), c.subs[i].key)
  {
    var before := c.subs[..i];
    forall e | e in before && e.key == c.subs[i].key ensures e.item.name != c.subs[i].item.name {
      var j :| 0 <= j < i && before[j] == e;
      assert c.subs[j] == e;
    }
  }

  lemma AddNextBlock(c: Config, i: nat)
    requires Sorted(c.subs) && i < |c.subs|
    ensures var s := c.subs[i];
            AddSub(UpTo(c, i), s.key, s.item.name, s.item.config) == UpTo(c, i + 1)
  {
    var s, before, after := c.subs[i], c.subs[..i], c.subs[..i + 1];
    assert s == Keyed(s.key, Block(s.item.name, s.item.config));
    assert after == before + [s];
    InsertLast(before, s.key, s.item);
    NamesInAfter(before, after, s.key, s.item);
  }

  lemma {:induction false} BlocksRebuild(c: Config, i: nat)
    requires WellFormed(c) && i <= |c.subs|
    ensures Tree(SubNodes(c.subs[i..]), UpTo(c, i)) == c
    ensures Proper(SubNodes(c.subs[i..]), UpTo(c, i))
    decreases c, |c.subs| - i
  {
    if i == |c.subs| {
      assert c.subs[..i] == c.subs && c.subs[i..] == [];
    } else {
      Rebuild(c.subs[i].item.config);
      BlocksRebuild(c, i + 1);
      NextNameIsNew(c, i);
      AddNextBlock(c, i);
      SectionPut(c.subs[i], UpTo(c, i));
      BlocksRebuildStep(c.subs, i, UpTo(c, i));
    }
  }

  lemma BlocksRebuildStep(subs: seq<Keyed<Block>>, i: nat, c: Config)
    requires i < |subs|
    ensures var more := SubNodes(subs[i + 1..]);
            && Tree(SubNodes(subs[i..]), c) == Tree(more, Put(SectionOf(subs[i]), c))
            && Proper(SubNodes(subs[i..]), c)
               == (ProperNode(SectionOf(subs[i]), c) && Proper(more, Put(SectionOf(subs[i]), c)))
  {
    var s, more := subs[i], SubNodes(subs[i + 1..]);
    assert subs[i..] == [s] + subs[i + 1..];
    assert SubNodes(subs[i..]) == [Blank] + ([SectionOf(s)] + more);
    FrontNode(Blank, [SectionOf(s)] + more, c);
    FrontNode(SectionOf(s), more, c);
  }

  lemma SectionPut(s: Keyed<Block>, c: Config)
    requires Lower(s.key) == s.key && s.item.name !in NamesOf(c, s.key)
    requires Proper(Document(s.item.config), EMPTY) && Tree(Document(s.item.config), EMPTY) == s.item.config
    ensures ProperNode(SectionOf(s), c)
    ensures Put(SectionOf(s), c) == AddSub(c, s.key, s.item.name, s.item.config)
  {
  }

  lemma {:induction false} Rebuild(c: Config)
    requires WellFormed(c)
    ensures Proper(Document(c), EMPTY) && Tree(Document(c), EMPTY) == c
    decreases c, |c.subs| + 1
  {
    EntriesRebuild(c.entries, 0);
    assert c.entries[0..] == c.entries && c.entries[..0] == [] && c.subs[0..] == c.subs && c.subs[..0] == [];
    BlocksRebuild(c, 0);
    assert NamesIn(c.subs[..0]) == map[];
    TreeConcat(EntryNodes(c.entries), SubNodes(c.subs), EMPTY);
  }

  /** What `Parse` makes of what `Write` printed at some indentation. */
  function Reload(c: Config, indent: nat): Outcome {
    ParseLines(Files.Pieces(Render(Texts(c, indent)), "\n"))
  }

  lemma ReloadPrinted(c: Config, indent: nat)
    ensures Reload(c, indent) == ParseLines(Printed(Texts(c, indent)))
  {
    forall i | 0 <= i < |Texts(c, indent)| ensures OneLine(Texts(c, indent)[i]) {
      TextsOneLine(c, indent, i);
    }
    PiecesOfText(Texts(c, indent));
  }

  lemma WellFormedReloads(c: Config, indent: nat)
    requires WellFormed(c)
    ensures Reload(c, indent) == Parsed(c)
  {
    ReloadPrinted(c, indent);
    TextsReadAs(c, indent);
    Rebuild(c);
    AcceptedIffDocument(Lines(Document(c)), false, c);
  }
}
