/** `CConfig` as a value, and the two readings of a classified configuration file: the stack
    machine that `CConfig::Parse` runs and a recursive-descent reader. */
module ConfigModel {
  import opened Strings
  import opened Multimap

  /** The three maps of a `CConfig`; `names` is the redundant `m_SubConfigNameSets`. */
  datatype Config = Config(
    entries: seq<Keyed<string>>,
    subs: seq<Keyed<Block>>,
    names: map<string, set<string>>)

  datatype Block = Block(name: string, config: Config)

  const EMPTY := Config([], [], map[])

  datatype Error =
    | MalformedClosingTag(tag: string)
    | TagNotOpen(tag: string)
    | DuplicateEntry(tag: string, name: string)
    | EmptyBlockName
    | MalformedLine
    | CommentNotClosed
    | NotAllTagsClosed(tag: string)

  /** What one line of the file asks for. */
  datatype Line =
    | Skip
    | Entry(key: string, value: string)
    | Open(tag: string, name: string)
    | Close(tag: string)
    | Bad(error: Error)

  datatype Outcome = Parsed(config: Config) | Failed(line: nat, error: Error)

  function AddEntry(c: Config, key: string, value: string): Config {
    c.(entries := Insert(c.entries, key, value))
  }

  function NamesOf(c: Config, tag: string): set<string> {
    if tag in c.names then c.names[tag] else {}
  }

  function AddSub(c: Config, tag: string, name: string, inner: Config): Config {
    c.(subs := Insert(c.subs, tag, Block(name, inner)),
       names := c.names[tag := NamesOf(c, tag) + {name}])
  }

  // ----- The stack machine -----

  datatype Frame = Frame(tag: string, name: string, config: Config)

  datatype Machine = Machine(root: Config, stack: seq<Frame>) {
    function Active(): Config {
      if stack == [] then root else stack[|stack| - 1].config
    }

    function WithActive(c: Config): Machine {
      if stack == [] then Machine(c, [])
      else this.(stack := stack[|stack| - 1 := stack[|stack| - 1].(config := c)])
    }
  }

  datatype Stepped = Next(machine: Machine) | Halt(error: Error)

  function Step(m: Machine, line: Line): Stepped {
    match line
    case Skip => Next(m)
    case Entry(key, value) => Next(m.WithActive(AddEntry(m.Active(), key, value)))
    case Open(tag, name) => Next(m.(stack := m.stack + [Frame(tag, name, EMPTY)]))
    case Bad(error) => Halt(error)
    case Close(tag) =>
      if m.stack == [] then Halt(TagNotOpen(tag))
      else
        var top := m.stack[|m.stack| - 1];
        if !EqualsNoCase(tag, top.tag) then Halt(TagNotOpen(tag))
        else
          var below := m.(stack := m.stack[..|m.stack| - 1]);
          if top.name in NamesOf(below.Active(), Lower(tag)) then Halt(DuplicateEntry(tag, top.name))
          else Next(below.WithActive(AddSub(below.Active(), Lower(tag), top.name, top.config)))
  }

  function Finish(m: Machine, commented: bool, lines: nat): Outcome {
    if commented then Failed(lines, CommentNotClosed)
    else if m.stack != [] then Failed(lines, NotAllTagsClosed(m.stack[|m.stack| - 1].tag))
    else Parsed(m.root)
  }

  /** Running the machine over the lines still to come, `done` of them already read. */
  function Run(lines: seq<Line>, m: Machine, commented: bool, done: nat): Outcome {
    if lines == [] then Finish(m, commented, done)
    else match Step(m, lines[0])
      case Halt(error) => Failed(done + 1, error)
      case Next(next) => Run(lines[1..], next, commented, done + 1)
  }

  // ----- The recursive reader -----

  datatype Reading =
    | Body(config: Config, rest: seq<Line>)
    | Wrong(error: Error, rest: seq<Line>)
    | Unclosed(tag: string)

  /** Reads the lines of one block body, up to its closing tag or the end of the file. */
  function ReadBody(lines: seq<Line>, c: Config): (r: Reading)
    ensures r.Body? ==> |r.rest| <= |lines| && (r.rest == [] || r.rest[0].Close?)
    ensures r.Wrong? ==> |r.rest| < |lines|
    decreases |lines|
  {
    if lines == [] then Body(c, [])
    else
      var tail := lines[1..];
      match lines[0]
      case Skip => ReadBody(tail, c)
      case Entry(key, value) => ReadBody(tail, AddEntry(c, key, value))
      case Bad(error) => Wrong(error, tail)
      case Close(_) => Body(c, lines)
      case Open(tag, name) =>
        match ReadBody(tail, EMPTY)
        case Wrong(error, rest) => Wrong(error, rest)
        case Unclosed(inner) => Unclosed(inner)
        case Body(inner, rest) =>
          if rest == [] then Unclosed(tag)
          else
            var close := rest[0].tag;
            if !EqualsNoCase(close, tag) then Wrong(TagNotOpen(close), rest[1..])
            else if name in NamesOf(c, Lower(close)) then Wrong(DuplicateEntry(close, name), rest[1..])
            else ReadBody(rest[1..], AddSub(c, Lower(close), name, inner))
  }

  function ReadFile(lines: seq<Line>, commented: bool): Outcome {
    match ReadBody(lines, EMPTY)
    case Wrong(error, rest) => Failed(|lines| - |rest|, error)
    case Unclosed(tag) => Failed(|lines|, if commented then CommentNotClosed else NotAllTagsClosed(tag))
    case Body(c, rest) =>
      if rest != [] then Failed(|lines| - |rest| + 1, TagNotOpen(rest[0].tag))
      else if commented then Failed(|lines|, CommentNotClosed)
      else Parsed(c)
  }

  /** An outcome is what a reading says: a body read into the active configuration, and the machine
      going on from there with the lines not read; or the reading's error, `end` lines in all. */
  ghost predicate Agrees(o: Outcome, reading: Reading, m: Machine, commented: bool, end: nat) {
    match reading
    case Body(c, rest) => |rest| <= end && o == Run(rest, m.WithActive(c), commented, end - |rest|)
    case Wrong(error, rest) => |rest| <= end && o == Failed(end - |rest|, error)
    case Unclosed(tag) => o == Failed(end, if commented then CommentNotClosed else NotAllTagsClosed(tag))
  }

  /** Running over the lines of a body is reading them into the active configuration and going on
      from there. */
  ghost predicate RunsAsRead(lines: seq<Line>, m: Machine, commented: bool, done: nat) {
    Agrees(Run(lines, m, commented, done), ReadBody(lines, m.Active()), m, commented, done + |lines|)
  }

  function Push(m: Machine, tag: string, name: string, c: Config): Machine {
    m.(stack := m.stack + [Frame(tag, name, c)])
  }

  lemma PopPushed(m: Machine, tag: string, name: string, inner: Config, close: string)
    ensures Push(m, tag, name, EMPTY).WithActive(inner) == Push(m, tag, name, inner)
    ensures Step(Push(m, tag, name, inner), Close(close))
         == if !EqualsNoCase(close, tag) then Halt(TagNotOpen(close))
            else if name in NamesOf(m.Active(), Lower(close)) then Halt(DuplicateEntry(close, name))
            else Next(m.WithActive(AddSub(m.Active(), Lower(close), name, inner)))
  {
    var p := Push(m, tag, name, inner);
    assert p.stack[..|p.stack| - 1] == m.stack;
    assert Push(m, tag, name, EMPTY).WithActive(inner).stack == p.stack;
  }

  /** Whether a block ended by its closing tag can be added. */
  predicate Fits(c: Config, tag: string, name: string, close: string) {
    EqualsNoCase(close, tag) && name !in NamesOf(c, Lower(close))
  }

  /** What reading says at the end of a block's body; `next` is what is read after the block. */
  function AfterBlock(c: Config, tag: string, name: string, rest: seq<Line>, next: Reading): Reading
    requires rest != [] ==> rest[0].Close?
  {
    if rest == [] then Unclosed(tag)
    else
      var close := rest[0].tag;
      if !EqualsNoCase(close, tag) then Wrong(TagNotOpen(close), rest[1..])
      else if name in NamesOf(c, Lower(close)) then Wrong(DuplicateEntry(close, name), rest[1..])
      else next
  }

  lemma {:induction false} ReadBlock(lines: seq<Line>, c: Config, tag: string, name: string, r: Reading, next: Reading)
    requires lines != [] && lines[0] == Open(tag, name) && r == ReadBody(lines[1..], EMPTY)
    requires r.Body? && r.rest != [] && Fits(c, tag, name, r.rest[0].tag) ==>
               next == ReadBody(r.rest[1..], AddSub(c, Lower(r.rest[0].tag), name, r.config))
    ensures ReadBody(lines, c) == if r.Body? then AfterBlock(c, tag, name, r.rest, next) else r
  {
  }

  lemma {:induction false} RunOpens(lines: seq<Line>, m: Machine, commented: bool, done: nat, tag: string, name: string)
    requires lines != [] && lines[0] == Open(tag, name)
    ensures Run(lines, m, commented, done) == Run(lines[1..], Push(m, tag, name, EMPTY), commented, done + 1)
    ensures Push(m, tag, name, EMPTY).Active() == EMPTY
  {
  }

  /** What is read after a block is what running on behind its closing tag does. */
  ghost predicate Follows(rest: seq<Line>, m: Machine, commented: bool, end: nat, name: string, inner: Config,
                          next: Reading)
    requires rest != [] && rest[0].Close?
  {
    var after := m.WithActive(AddSub(m.Active(), Lower(rest[0].tag), name, inner));
    |rest| <= end && Agrees(Run(rest[1..], after, commented, end - |rest| + 1), next, after, commented, end)
  }

  lemma {:induction false} RunClose(o: Outcome, m: Machine, commented: bool, end: nat, tag: string, name: string,
                 inner: Config, rest: seq<Line>, next: Reading)
    requires (rest != [] ==> rest[0].Close?) && |rest| <= end
    requires o == Run(rest, Push(m, tag, name, inner), commented, end - |rest|)
    requires rest != [] && Fits(m.Active(), tag, name, rest[0].tag) ==>
               Follows(rest, m, commented, end, name, inner, next)
    ensures Agrees(o, AfterBlock(m.Active(), tag, name, rest, next), m, commented, end)
  {
    if rest != [] {
      var close := rest[0].tag;
      CloseRuns(rest, m, commented, end - |rest|, tag, name, inner, close);
      if Fits(m.Active(), tag, name, close) {
        SameStack(o, next, m, AddSub(m.Active(), Lower(close), name, inner), commented, end);
      }
    }
  }

  /** A block whose body is not read to its end ends the reading around it. */
  lemma SectionFails(o: Outcome, r: Reading, m: Machine, inside: Machine, commented: bool, end: nat)
    requires !r.Body? && Agrees(o, r, inside, commented, end)
    ensures Agrees(o, r, m, commented, end)
  {
  }

  lemma {:induction false} SectionRead(o: Outcome, r: Reading, m: Machine, commented: bool, end: nat,
                                       tag: string, name: string, next: Reading)
    requires r.Body? && (r.rest != [] ==> r.rest[0].Close?)
    requires Agrees(o, r, Push(m, tag, name, EMPTY), commented, end)
    requires r.rest != [] && Fits(m.Active(), tag, name, r.rest[0].tag) ==>
               Follows(r.rest, m, commented, end, name, r.config, next)
    ensures Agrees(o, AfterBlock(m.Active(), tag, name, r.rest, next), m, commented, end)
  {
    PopPushed(m, tag, name, r.config, "");
    RunClose(o, m, commented, end, tag, name, r.config, r.rest, next);
  }

  /** The machine at a closing tag, the block on top of its stack read. */
  lemma {:induction false} CloseRuns(rest: seq<Line>, m: Machine, commented: bool, done: nat, tag: string, name: string,
                  inner: Config, close: string)
    requires rest != [] && rest[0] == Close(close)
    ensures Run(rest, Push(m, tag, name, inner), commented, done)
         == if !EqualsNoCase(close, tag) then Failed(done + 1, TagNotOpen(close))
            else if name in NamesOf(m.Active(), Lower(close)) then Failed(done + 1, DuplicateEntry(close, name))
            else Run(rest[1..], m.WithActive(AddSub(m.Active(), Lower(close), name, inner)), commented, done + 1)
  {
    PopPushed(m, tag, name, inner, close);
  }

  /** Which configuration was active before does not matter once another one is read. */
  lemma {:induction false} SameStack(o: Outcome, reading: Reading, m: Machine, c: Config, commented: bool, end: nat)
    requires Agrees(o, reading, m.WithActive(c), commented, end)
    ensures Agrees(o, reading, m, commented, end)
  {
    WithActiveTwice(m, c);
  }

  /** Running over the lines of a body, the first of which leaves c in the active configuration. */
  lemma {:induction false} RunPlain(o: Outcome, reading: Reading, m: Machine, c: Config, tail: seq<Line>,
                                    commented: bool, done: nat)
    requires o == Run(tail, m.WithActive(c), commented, done + 1) && reading == ReadBody(tail, c)
    requires RunsAsRead(tail, m.WithActive(c), commented, done + 1)
    ensures Agrees(o, reading, m, commented, done + 1 + |tail|)
  {
    WithActiveTwice(m, c);
    SameStack(o, reading, m, c, commented, done + 1 + |tail|);
  }

  lemma {:induction false} BlockFollows(rest: seq<Line>, m: Machine, commented: bool, end: nat,
                                        name: string, inner: Config, next: Reading, c: Config)
    requires rest != [] && rest[0].Close? && |rest| <= end
    requires c == AddSub(m.Active(), Lower(rest[0].tag), name, inner) && next == ReadBody(rest[1..], c)
    requires RunsAsRead(rest[1..], m.WithActive(c), commented, end - |rest| + 1)
    ensures Follows(rest, m, commented, end, name, inner, next)
  {
    WithActiveTwice(m, c);
  }

  /** Running over the lines behind an opening tag, seen from the lines with it. */
  lemma {:induction false} InsideAgrees(lines: seq<Line>, m: Machine, commented: bool, done: nat,
                                        tag: string, name: string)
    requires lines != [] && lines[0] == Open(tag, name)
    ensures Agrees(Run(lines, m, commented, done), ReadBody(lines[1..], EMPTY), Push(m, tag, name, EMPTY),
                   commented, done + |lines|)
    decreases |lines|, 0
  {
    RunIsReading(lines[1..], Push(m, tag, name, EMPTY), commented, done + 1);
    RunOpens(lines, m, commented, done, tag, name);
  }

  lemma {:induction false} BlockAgrees(o: Outcome, r: Reading, m: Machine, commented: bool, end: nat,
                                       tag: string, name: string, c: Config)
    requires r.Body? && r.rest != [] && r.rest[0].Close? && |r.rest| <= end
    requires Agrees(o, r, Push(m, tag, name, EMPTY), commented, end)
    requires c == AddSub(m.Active(), Lower(r.rest[0].tag), name, r.config)
    requires RunsAsRead(r.rest[1..], m.WithActive(c), commented, end - |r.rest| + 1)
    ensures Agrees(o, AfterBlock(m.Active(), tag, name, r.rest, ReadBody(r.rest[1..], c)), m, commented, end)
  {
    var next := ReadBody(r.rest[1..], c);
    BlockFollows(r.rest, m, commented, end, name, r.config, next, c);
    SectionRead(o, r, m, commented, end, tag, name, next);
  }

  /** What is read behind a block whose body has been read: the lines after its closing tag. */
  ghost predicate Behind(r: Reading, m: Machine, commented: bool, end: nat, name: string, next: Reading) {
    r.Body? && r.rest != [] ==>
      && r.rest[0].Close? && |r.rest| <= end
      && var c := AddSub(m.Active(), Lower(r.rest[0].tag), name, r.config);
      && next == ReadBody(r.rest[1..], c)
      && RunsAsRead(r.rest[1..], m.WithActive(c), commented, end - |r.rest| + 1)
  }

  lemma {:induction false} SectionAgrees(o: Outcome, r: Reading, m: Machine, commented: bool, end: nat,
                                         tag: string, name: string, next: Reading)
    requires Agrees(o, r, Push(m, tag, name, EMPTY), commented, end) && Behind(r, m, commented, end, name, next)
    ensures Agrees(o, if r.Body? then AfterBlock(m.Active(), tag, name, r.rest, next) else r, m, commented, end)
  {
    if r.Body? && r.rest != [] {
      BlockAgrees(o, r, m, commented, end, tag, name, AddSub(m.Active(), Lower(r.rest[0].tag), name, r.config));
    } else if r.Body? {
      SectionRead(o, r, m, commented, end, tag, name, next);
    } else {
      SectionFails(o, r, m, Push(m, tag, name, EMPTY), commented, end);
    }
  }

  lemma {:induction false} ReadBehind(r: Reading, m: Machine, commented: bool, end: nat, name: string)
      returns (next: Reading)
    requires r.Body? && r.rest != [] ==> r.rest[0].Close? && |r.rest| <= end
    ensures Behind(r, m, commented, end, name, next)
    decreases if r.Body? then |r.rest| else 0, 2
  {
    next := r;
    if r.Body? && r.rest != [] {
      var c := AddSub(m.Active(), Lower(r.rest[0].tag), name, r.config);
      next := ReadBody(r.rest[1..], c);
      RunIsReading(r.rest[1..], m.WithActive(c), commented, end - |r.rest| + 1);
    }
  }

  lemma {:induction false} OpenIsReading(lines: seq<Line>, m: Machine, commented: bool, done: nat,
                                         tag: string, name: string)
    requires lines != [] && lines[0] == Open(tag, name)
    ensures RunsAsRead(lines, m, commented, done)
    decreases |lines|, 1
  {
    InsideAgrees(lines, m, commented, done, tag, name);
    var r := ReadBody(lines[1..], EMPTY);
    var next := ReadBehind(r, m, commented, done + |lines|, name);
    SectionAgrees(Run(lines, m, commented, done), r, m, commented, done + |lines|, tag, name, next);
    ReadBlock(lines, m.Active(), tag, name, r, next);
  }

  lemma {:induction false} RunIsReading(lines: seq<Line>, m: Machine, commented: bool, done: nat)
    ensures RunsAsRead(lines, m, commented, done)
    decreases |lines|, 2
  {
    if lines != [] && lines[0].Open? {
      OpenIsReading(lines, m, commented, done, lines[0].tag, lines[0].name);
    } else if lines != [] && (lines[0].Skip? || lines[0].Entry?) {
      var c := if lines[0].Skip? then m.Active() else AddEntry(m.Active(), lines[0].key, lines[0].value);
      RunIsReading(lines[1..], m.WithActive(c), commented, done + 1);
      PlainIsReading(lines, m, c, commented, done);
    } else {
      RunStops(lines, m, commented, done);
    }
  }

  lemma {:induction false} PlainIsReading(lines: seq<Line>, m: Machine, c: Config, commented: bool, done: nat)
    requires lines != [] && (lines[0].Skip? || lines[0].Entry?)
    requires c == if lines[0].Skip? then m.Active() else AddEntry(m.Active(), lines[0].key, lines[0].value)
    requires RunsAsRead(lines[1..], m.WithActive(c), commented, done + 1)
    ensures RunsAsRead(lines, m, commented, done)
  {
    PlainSteps(lines, m, c, commented, done);
    RunPlain(Run(lines, m, commented, done), ReadBody(lines, m.Active()), m, c, lines[1..], commented, done);
  }

  lemma {:induction false} PlainSteps(lines: seq<Line>, m: Machine, c: Config, commented: bool, done: nat)
    requires lines != [] && (lines[0].Skip? || lines[0].Entry?)
    requires c == if lines[0].Skip? then m.Active() else AddEntry(m.Active(), lines[0].key, lines[0].value)
    ensures Run(lines, m, commented, done) == Run(lines[1..], m.WithActive(c), commented, done + 1)
    ensures ReadBody(lines, m.Active()) == ReadBody(lines[1..], c)
  {
    assert m.WithActive(m.Active()) == m;
  }

  lemma {:induction false} RunStops(lines: seq<Line>, m: Machine, commented: bool, done: nat)
    requires lines == [] || lines[0].Close? || lines[0].Bad?
    ensures RunsAsRead(lines, m, commented, done)
  {
    assert m.WithActive(m.Active()) == m;
  }

  lemma WithActiveTwice(m: Machine, c: Config)
    ensures m.WithActive(c).Active() == c
    ensures forall d :: m.WithActive(c).WithActive(d) == m.WithActive(d)
  {
  }

  /** The stack machine and the recursive reader agree on every file: the same tree, or the same
      error on the same line. */
  lemma {:induction false} StackMachineIsReader(lines: seq<Line>, commented: bool)
    ensures Run(lines, Machine(EMPTY, []), commented, 0) == ReadFile(lines, commented)
  {
    RunIsReading(lines, Machine(EMPTY, []), commented, 0);
  }

  // ----- The grammar of accepted files -----

  datatype Node =
    | Blank
    | Leaf(key: string, value: string)
    | Section(tag: string, name: string, body: seq<Node>, close: string)

  /** The lines of a document: every section is an opening line, its body and a closing line. */
  function Lines(nodes: seq<Node>): seq<Line> {
    if nodes == [] then [] else LinesOfNode(nodes[0]) + Lines(nodes[1..])
  }

  function LinesOfNode(node: Node): seq<Line> {
    match node
    case Blank => [Skip]
    case Leaf(key, value) => [Entry(key, value)]
    case Section(tag, name, body, close) => [Open(tag, name)] + Lines(body) + [Close(close)]
  }

  /** Closing tags match their opening tags, and no block name repeats under one tag. */
  predicate Proper(nodes: seq<Node>, c: Config)
    decreases nodes
  {
    nodes == [] ||
    (ProperNode(nodes[0], c) && Proper(nodes[1..], Put(nodes[0], c)))
  }

  predicate ProperNode(node: Node, c: Config)
    decreases node
  {
    node.Section? ==>
      && EqualsNoCase(node.close, node.tag)
      && node.name !in NamesOf(c, Lower(node.close))
      && Proper(node.body, EMPTY)
  }

  /** The configuration a document adds up to. */
  function Tree(nodes: seq<Node>, c: Config): Config
    decreases nodes
  {
    if nodes == [] then c else Tree(nodes[1..], Put(nodes[0], c))
  }

  function Put(node: Node, c: Config): Config
    decreases node
  {
    match node
    case Blank => c
    case Leaf(key, value) => AddEntry(c, key, value)
    case Section(_, name, body, close) => AddSub(c, Lower(close), name, Tree(body, EMPTY))
  }

  /** Reading a proper section in front of some lines is adding it and reading on. */
  lemma {:induction false} ReadNode(node: Node, c: Config, tail: seq<Line>)
    requires ProperNode(node, c)
    ensures ReadBody(LinesOfNode(node) + tail, c) == ReadBody(tail, Put(node, c))
    decreases node, 1
  {
    match node
    case Section(tag, name, body, close) =>
      var rest := [Close(close)] + tail;
      ReadProper(body, EMPTY, rest);
      SectionFront(tag, name, body, close, tail, rest);
      ReadSection(LinesOfNode(node) + tail, c, tag, name, Tree(body, EMPTY), rest);
    case _ => ReadPlain(node, c, tail);
  }

  lemma {:induction false} ReadPlain(node: Node, c: Config, tail: seq<Line>)
    requires !node.Section?
    ensures ReadBody(LinesOfNode(node) + tail, c) == ReadBody(tail, Put(node, c))
  {
    assert (LinesOfNode(node) + tail)[1..] == tail;
  }

  lemma {:induction false} SectionFront(tag: string, name: string, body: seq<Node>, close: string,
                                        tail: seq<Line>, rest: seq<Line>)
    requires rest == [Close(close)] + tail
    ensures var lines := LinesOfNode(Section(tag, name, body, close)) + tail;
            lines[0] == Open(tag, name) && lines[1..] == Lines(body) + rest && rest[1..] == tail
  {
    var lines := [Open(tag, name)] + (Lines(body) + rest);
    assert LinesOfNode(Section(tag, name, body, close)) + tail == lines;
  }

  lemma {:induction false} ReadSection(lines: seq<Line>, c: Config, tag: string, name: string,
                                       inner: Config, rest: seq<Line>)
    requires lines != [] && lines[0] == Open(tag, name)
    requires ReadBody(lines[1..], EMPTY) == Body(inner, rest) && rest != []
    requires EqualsNoCase(rest[0].tag, tag) && name !in NamesOf(c, Lower(rest[0].tag))
    ensures ReadBody(lines, c) == ReadBody(rest[1..], AddSub(c, Lower(rest[0].tag), name, inner))
  {
  }

  lemma {:induction false} ReadProper(nodes: seq<Node>, c: Config, rest: seq<Line>)
    requires Proper(nodes, c)
    requires rest == [] || rest[0].Close?
    ensures ReadBody(Lines(nodes) + rest, c) == Body(Tree(nodes, c), rest)
    decreases nodes, 0
  {
    if nodes == [] {
      assert Lines(nodes) + rest == rest;
    } else {
      var tail := Lines(nodes[1..]) + rest;
      ReadNode(nodes[0], c, tail);
      assert Lines(nodes) + rest == LinesOfNode(nodes[0]) + tail;
      ReadProper(nodes[1..], Put(nodes[0], c), rest);
    }
  }

  /** The first item of a body that is read successfully: one node and what is read after it. */
  ghost predicate FirstNode(node: Node, tail: seq<Line>, lines: seq<Line>, c: Config) {
    && |tail| < |lines| && lines == LinesOfNode(node) + tail
    && ProperNode(node, c) && ReadBody(lines, c) == ReadBody(tail, Put(node, c))
  }

  lemma {:induction false} ReadFirstNode(lines: seq<Line>, c: Config) returns (node: Node, tail: seq<Line>)
    requires lines != [] && !lines[0].Close? && ReadBody(lines, c).Body?
    ensures FirstNode(node, tail, lines, c)
    decreases |lines|, 1
  {
    if lines[0].Open? {
      node, tail := ReadFirstSection(lines, c, lines[0].tag, lines[0].name);
    } else {
      node := if lines[0].Skip? then Blank else Leaf(lines[0].key, lines[0].value);
      tail := lines[1..];
      assert LinesOfNode(node) == [lines[0]];
      assert lines == [lines[0]] + tail;
    }
  }

  lemma {:induction false} ReadFirstSection(lines: seq<Line>, c: Config, tag: string, name: string)
      returns (node: Node, tail: seq<Line>)
    requires lines != [] && lines[0] == Open(tag, name) && ReadBody(lines, c).Body?
    ensures FirstNode(node, tail, lines, c)
    decreases |lines|, 0
  {
    var inner := ReadBody(lines[1..], EMPTY);
    var body := ReadGivesDocument(lines[1..], EMPTY, inner);
    var rest := inner.rest;
    ReadSection(lines, c, tag, name, inner.config, rest);
    node := Section(tag, name, body, rest[0].tag);
    tail := rest[1..];
    WholeSection(lines, tag, name, body, rest);
  }

  lemma {:induction false} WholeSection(lines: seq<Line>, tag: string, name: string, body: seq<Node>, rest: seq<Line>)
    requires lines != [] && lines[0] == Open(tag, name) && lines[1..] == Lines(body) + rest
    requires rest != [] && rest[0].Close?
    ensures lines == LinesOfNode(Section(tag, name, body, rest[0].tag)) + rest[1..]
  {
    assert lines == [lines[0]] + lines[1..] && rest == [rest[0]] + rest[1..];
  }

  ghost predicate Documents(nodes: seq<Node>, lines: seq<Line>, c: Config, r: Reading)
    requires r.Body?
  {
    Proper(nodes, c) && Tree(nodes, c) == r.config && lines == Lines(nodes) + r.rest
  }

  lemma {:induction false} AddFirstNode(node: Node, more: seq<Node>, lines: seq<Line>, tail: seq<Line>,
                                        c: Config, r: Reading)
    requires r.Body? && ProperNode(node, c) && lines == LinesOfNode(node) + tail
    requires Documents(more, tail, Put(node, c), r)
    ensures Documents([node] + more, lines, c, r)
  {
    FrontNode(node, more, c);
    assert LinesOfNode(node) + (Lines(more) + r.rest) == (LinesOfNode(node) + Lines(more)) + r.rest;
  }

  lemma {:induction false} ReadGivesDocument(lines: seq<Line>, c: Config, r: Reading) returns (nodes: seq<Node>)
    requires r == ReadBody(lines, c) && r.Body?
    ensures Documents(nodes, lines, c, r)
    decreases |lines|, 2
  {
    if lines == [] || lines[0].Close? {
      nodes := [];
    } else {
      var node, tail := ReadFirstNode(lines, c);
      var more := ReadGivesDocument(tail, Put(node, c), r);
      nodes := [node] + more;
      AddFirstNode(node, more, lines, tail, c, r);
    }
  }

  lemma {:induction false} FrontNode(node: Node, more: seq<Node>, c: Config)
    ensures Lines([node] + more) == LinesOfNode(node) + Lines(more)
    ensures Tree([node] + more, c) == Tree(more, Put(node, c))
    ensures Proper([node] + more, c) == (ProperNode(node, c) && Proper(more, Put(node, c)))
  {
    assert ([node] + more)[1..] == more;
  }

  /** A file is accepted exactly when its lines outside comments are a properly nested document
      without repeated names, and the result is the tree of that document. */
  lemma {:induction false} AcceptedIffDocument(lines: seq<Line>, commented: bool, c: Config)
    ensures Run(lines, Machine(EMPTY, []), commented, 0) == Parsed(c)
       <==> !commented && exists nodes ::
              Lines(nodes) == lines && Proper(nodes, EMPTY) && Tree(nodes, EMPTY) == c
  {
    StackMachineIsReader(lines, commented);
    if ReadFile(lines, commented) == Parsed(c) {
      var nodes := ReadGivesDocument(lines, EMPTY, ReadBody(lines, EMPTY));
      assert Lines(nodes) == lines;
    }
    forall nodes | Lines(nodes) == lines && Proper(nodes, EMPTY)
      ensures ReadBody(lines, EMPTY) == Body(Tree(nodes, EMPTY), [])
    {
      ReadProper(nodes, EMPTY, []);
      assert Lines(nodes) + [] == lines;
    }
  }
}

/** What every configuration built by parsing satisfies, at every level of nesting. */
module ConfigInvariant {
  import opened Strings
  import opened Multimap
  import opened ConfigModel

  /** The name sets a list of sub-configurations calls for. */
  ghost function NamesIn(subs: seq<Keyed<Block>>): map<string, set<string>> {
    map tag | tag in Tags(subs) :: NamesUnder(subs, tag)
  }

  ghost function Tags(subs: seq<Keyed<Block>>): set<string> {
    set e | e in subs :: e.key
  }

  ghost function NamesUnder(subs: seq<Keyed<Block>>, tag: string): set<string> {
    set e | e in subs && e.key == tag :: e.item.name
  }

  ghost predicate UniqueNames(subs: seq<Keyed<Block>>) {
    forall i, j :: 0 <= i < j < |subs| && subs[i].key == subs[j].key ==> subs[i].item.name != subs[j].item.name
  }

  /** Both maps in order, the name sets exactly the names present, no name twice under one tag. */
  ghost predicate Consistent(c: Config) {
    && Sorted(c.entries) && Sorted(c.subs)
    && c.names == NamesIn(c.subs)
    && UniqueNames(c.subs)
    && forall i :: 0 <= i < |c.subs| ==> Consistent(c.subs[i].item.config)
  }

  lemma NamesInAfter(subs: seq<Keyed<Block>>, more: seq<Keyed<Block>>, tag: string, block: Block)
    requires forall e :: e in more <==> e in subs || e == Keyed(tag, block)
    ensures NamesIn(more)
         == NamesIn(subs)[tag := (if tag in NamesIn(subs) then NamesIn(subs)[tag] else {}) + {block.name}]
  {
    var before, after := NamesIn(subs), NamesIn(more);
    assert Keyed(tag, block) in more;
    assert tag in after;
    forall t | t in after ensures t in before || t == tag {
      var e :| e in more && e.key == t;
    }
    forall t | t in before ensures t in after {
      var e :| e in subs && e.key == t;
      assert e in more;
    }
    var expected := before[tag := (if tag in before then before[tag] else {}) + {block.name}];
    assert after.Keys == expected.Keys;
    forall t | t in after ensures after[t] == expected[t] {
      forall n | n in after[t] ensures n in expected[t] {
        var e :| e in more && e.key == t && e.item.name == n;
        assert e in subs || e == Keyed(tag, block);
      }
      forall n | n in expected[t] ensures n in after[t] {
        if t == tag && n == block.name {
          assert Keyed(tag, block).item.name == n;
        } else {
          var e :| e in subs && e.key == t && e.item.name == n;
          assert e in more;
        }
      }
    }
  }

  lemma {:induction false} InsertUnique(subs: seq<Keyed<Block>>, tag: string, block: Block)
    requires UniqueNames(subs)
    requires forall e :: e in subs && e.key == tag ==> e.item.name != block.name
    ensures UniqueNames(Insert(subs, tag, block))
  {
    if !(subs == [] || Less(tag, subs[0].key)) {
      var rest := Insert(subs[1..], tag, block);
      InsertUnique(subs[1..], tag, block);
      forall j | 0 <= j < |rest| && rest[j].key == subs[0].key ensures rest[j].item.name != subs[0].item.name {
        InsertMembers(subs[1..], tag, block, rest[j]);
        assert rest[j] in rest;
        assert subs[0] in subs;
      }
    } else {
      var all := Insert(subs, tag, block);
      forall j | 0 <= j < |subs| && subs[j].key == tag ensures subs[j].item.name != block.name {
        assert subs[j] in subs;
      }
    }
  }

  lemma AddSubConsistent(c: Config, tag: string, name: string, inner: Config)
    requires Consistent(c) && Consistent(inner) && name !in NamesOf(c, tag)
    ensures Consistent(AddSub(c, tag, name, inner))
  {
    var block := Block(name, inner);
    var more := Insert(c.subs, tag, block);
    forall e ensures e in more <==> e in c.subs || e == Keyed(tag, block) {
      InsertMembers(c.subs, tag, block, e);
    }
    NamesInAfter(c.subs, more, tag, block);
    InsertSorted(c.subs, tag, block);
    forall e | e in c.subs && e.key == tag ensures e.item.name != name {
      assert tag in NamesIn(c.subs) && e.item.name in NamesIn(c.subs)[tag];
    }
    InsertUnique(c.subs, tag, block);
    forall i | 0 <= i < |more| ensures Consistent(more[i].item.config) {
      assert more[i] in more;
      if more[i] in c.subs {
        var j :| 0 <= j < |c.subs| && c.subs[j] == more[i];
      }
    }
  }

  ghost predicate MachineConsistent(m: Machine) {
    Consistent(m.root) && forall i :: 0 <= i < |m.stack| ==> Consistent(m.stack[i].config)
  }

  lemma StepConsistent(m: Machine, line: Line)
    requires MachineConsistent(m)
    ensures Step(m, line).Next? ==> MachineConsistent(Step(m, line).machine)
  {
    match line
    case Skip =>
    case Bad(_) =>
    case Open(_, _) =>
    case Entry(key, value) => InsertSorted(m.Active().entries, key, value);
    case Close(tag) =>
      if Step(m, line).Next? {
        var top := m.stack[|m.stack| - 1];
        var below := m.(stack := m.stack[..|m.stack| - 1]);
        AddSubConsistent(below.Active(), Lower(tag), top.name, top.config);
      }
  }

  /** Every configuration any file parses to is consistent, however deep. */
  lemma {:induction false} RunConsistent(lines: seq<Line>, m: Machine, commented: bool, done: nat)
    requires MachineConsistent(m)
    ensures Run(lines, m, commented, done).Parsed? ==> Consistent(Run(lines, m, commented, done).config)
    decreases |lines|
  {
    if lines != [] && Step(m, lines[0]).Next? {
      StepConsistent(m, lines[0]);
      RunConsistent(lines[1..], Step(m, lines[0]).machine, commented, done + 1);
    }
  }
}
