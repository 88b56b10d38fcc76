/** `CConfig` as an object that reads itself from a file and writes itself to one. */
module ConfigFile {
  import opened Common
  import opened Strings
  import opened Multimap
  import opened ConfigModel
  import opened ConfigInvariant
  import opened ConfigSyntax
  import opened ConfigRoundTrip
  import opened ConfigReload
  import Files

  /** Parsing pieces of a file into a configuration that may already hold something. */
  function ParseInto(c: Config, pieces: seq<string>): Outcome {
    Run(Scan(pieces, false), Machine(c, []), CommentedAtEnd(pieces, false), 0)
  }

  /** What is still to happen when `done` lines have been read. */
  function ParseRest(m: Machine, pieces: seq<string>, commented: bool, done: nat): Outcome {
    Run(Scan(pieces, commented), m, CommentedAtEnd(pieces, commented), done)
  }

  /** Parsing adds what the file says to what the configuration already holds. */
  lemma ParsesOnTop(c: Config, pieces: seq<string>, nodes: seq<Node>)
    requires Lines(nodes) == Scan(pieces, false) && !CommentedAtEnd(pieces, false) && Proper(nodes, c)
    ensures ParseInto(c, pieces) == Parsed(Tree(nodes, c))
  {
    var lines := Scan(pieces, false);
    RunIsReading(lines, Machine(c, []), false, 0);
    ReadProper(nodes, c, []);
    assert Lines(nodes) + [] == lines;
  }

  lemma ParseOneMore(m: Machine, rest: string, piece: string, commented: bool, done: nat)
    requires rest != ""
    requires piece == Files.NextPiece(rest, "\n")
    ensures ParseRest(m, Files.Pieces(rest, "\n"), commented, done)
         == match Step(m, LineOf(piece, commented))
            case Halt(error) => Failed(done + 1, error)
            case Next(next) =>
              ParseRest(next, Files.Pieces(rest[|piece|..], "\n"), CommentAfter(piece, commented), done + 1)
  {
    var more := Files.Pieces(rest[|piece|..], "\n");
    assert Files.Pieces(rest, "\n") == [piece] + more;
    ScanFront(piece, more, commented);
    assert ([LineOf(piece, commented)] + Scan(more, CommentAfter(piece, commented)))[1..]
        == Scan(more, CommentAfter(piece, commented));
  }

  /** An outcome, as the parser reports it. */
  predicate Ends(o: Outcome, ok: bool, c: Config, line: nat, error: Error) {
    match o
    case Parsed(parsed) => ok && c == parsed
    case Failed(n, e) => !ok && line == n && error == e
  }

  class CConfig {
    var entries: seq<Keyed<string>>
    var subConfigs: seq<Keyed<Block>>
    var subConfigNameSets: map<string, set<string>>

    function Value(): Config
      reads this
    {
      Config(entries, subConfigs, subConfigNameSets)
    }

    constructor ()
      ensures Value() == EMPTY
    {
      entries, subConfigs, subConfigNameSets := [], [], map[];
    }

    /** Refuses a second block of the same name under one tag. */
    method AddSubConfig(tag: string, name: string, config: Config) returns (added: bool)
      modifies this
      ensures added == (name !in NamesOf(old(Value()), tag))
      ensures Value() == if added then AddSub(old(Value()), tag, name, config) else old(Value())
      ensures Consistent(old(Value())) && Consistent(config) ==> Consistent(Value())
    {
      var nameSet := NamesOf(Value(), tag);
      if name in nameSet {
        return false;
      }
      subConfigNameSets := subConfigNameSets[tag := nameSet + {name}];
      subConfigs := Insert(subConfigs, tag, Block(name, config));
      if Consistent(old(Value())) && Consistent(config) {
        AddSubConsistent(old(Value()), tag, name, config);
      }
      return true;
    }

    method Clear()
      modifies this
      ensures Value() == EMPTY
    {
      subConfigNameSets, subConfigs, entries := map[], [], [];
    }

    /** One line of the parse loop: the new stack of open blocks, or an error that leaves the
        configuration empty. */
    method TakeLine(item: Line, stack: seq<Frame>) returns (next: Option<seq<Frame>>, error: Error)
      modifies this
      ensures match Step(Machine(old(Value()), stack), item)
              case Next(m) => next == Some(m.stack) && Value() == m.root
              case Halt(e) => next == None && error == e && Value() == EMPTY
    {
      error := MalformedLine;
      match item {
        case Skip =>
          return Some(stack), error;
        case Entry(key, value) =>
          if stack == [] {
            entries := Insert(entries, key, value);
            return Some(stack), error;
          }
          var top := stack[|stack| - 1];
          return Some(stack[|stack| - 1 := top.(config := AddEntry(top.config, key, value))]), error;
        case Open(tag, name) =>
          return Some(stack + [Frame(tag, name, EMPTY)]), error;
        case Bad(e) =>
          Clear();
          return None, e;
        case Close(tag) =>
          if stack == [] || !EqualsNoCase(tag, stack[|stack| - 1].tag) {
            Clear();
            return None, TagNotOpen(tag);
          }
          var top, below := stack[|stack| - 1], stack[..|stack| - 1];
          if below == [] {
            var added := AddSubConfig(Lower(tag), top.name, top.config);
            if added {
              return Some(below), error;
            }
          } else {
            var outer := below[|below| - 1];
            if top.name !in NamesOf(outer.config, Lower(tag)) {
              var c := AddSub(outer.config, Lower(tag), top.name, top.config);
              return Some(below[|below| - 1 := outer.(config := c)]), error;
            }
          }
          Clear();
          return None, DuplicateEntry(tag, top.name);
      }
    }

    /** What is still to happen brings the outcome of the whole file. */
    ghost predicate OnTrack(stack: seq<Frame>, rest: string, commented: bool, line: nat, total: Outcome)
      reads this
    {
      ParseRest(Machine(Value(), stack), Files.Pieces(rest, "\n"), commented, line) == total
    }

    /** One round of the parse loop, a line having been read. `track` is whether the outcome of the
        whole file is still to be expected: it is not any more once a read has failed. */
    method UseLine(text: string, stack: seq<Frame>, commented: bool, line: nat,
                   ghost track: bool, ghost rest: string, ghost total: Outcome)
        returns (next: Option<seq<Frame>>, error: Error)
      requires track ==> rest != "" && text == Files.NextPiece(rest, "\n")
      requires track ==> OnTrack(stack, rest, commented, line, total)
      modifies this
      ensures next.None? ==> Value() == EMPTY && (track ==> total == Failed(line + 1, error))
      ensures next.Some? && track ==>
                OnTrack(next.value, rest[|text|..], CommentAfter(text, commented), line + 1, total)
    {
      ghost var before := Machine(Value(), stack);
      if track {
        ParseOneMore(before, rest, text, commented, line);
      }
      next, error := TakeLine(LineOf(text, commented), stack);
    }

    /** The end of the file. */
    method Conclude(stack: seq<Frame>, commented: bool, line: nat) returns (ok: bool, error: Error)
      modifies this
      ensures match Finish(Machine(old(Value()), stack), commented, line)
              case Parsed(c) => ok && Value() == c
              case Failed(n, e) => !ok && error == e && n == line && Value() == EMPTY
    {
      if commented {
        Clear();
        return false, CommentNotClosed;
      }
      if stack != [] {
        Clear();
        return false, NotAllTagsClosed(stack[|stack| - 1].tag);
      }
      return true, MalformedLine;
    }

    /** Reads the whole file. Unless a read fails on the way, the outcome is that of the file's
        lines, and any error leaves the configuration empty. */
    method Parse(file: Files.CFile) returns (ok: bool, line: nat, error: Error, ghost failed: bool)
      modifies this, file`pos, file`buffer
      ensures !file.isOpen ==> !ok && Value() == old(Value())
      ensures file.isOpen && !ok ==> Value() == EMPTY
      ensures file.isOpen && !failed ==>
                Ends(ParseInto(old(Value()), Files.Pieces(file.content, "\n")), ok, Value(), line, error)
    {
      var seekable := file.Seek(0);
      if !seekable {
        return false, 0, MalformedLine, false;
      }
      assert file.Remaining() == file.content;
      ok, line, error, failed := ParseLines(file);
    }

    method ParseLines(file: Files.CFile) returns (ok: bool, line: nat, error: Error, ghost failed: bool)
      requires file.isOpen
      modifies this, file`pos, file`buffer
      ensures !ok ==> Value() == EMPTY
      ensures !failed ==>
                Ends(ParseInto(old(Value()), Files.Pieces(old(file.Remaining()), "\n")), ok, Value(), line, error)
    {
      failed := false;
      line := 0;
      ghost var total := ParseInto(Value(), Files.Pieces(file.Remaining(), "\n"));
      var stack: seq<Frame> := [];
      var commented := false;
      var more := true;
      while more
        invariant file.isOpen
        invariant !failed ==> OnTrack(stack, file.Remaining(), commented, line, total)
        invariant !failed && !more ==> file.Remaining() == ""
        decreases more, |file.Remaining()|
      {
        ghost var rest := file.Remaining();
        var got, text, bad := file.ReadLine("\n");
        failed := failed || bad;
        more := got;
        if more {
          assert rest[|text|..] == file.Remaining();
          var next, e := UseLine(text, stack, commented, line, !failed, rest, total);
          line, commented := line + 1, CommentAfter(text, commented);
          if next.None? {
            return false, line, e, failed;
          }
          stack := next.value;
        }
      }
      assert !failed ==> total == Finish(Machine(Value(), stack), commented, line);
      ok, error := Conclude(stack, commented, line);
    }

    /** Appends the printed configuration to what has been written to the file. */
    method Write(file: Files.CFile, indentation: nat)
      modifies file`content, file`pos
      ensures file.Written() == old(file.Written()) + Render(Texts(Value(), indentation))
      ensures old(file.AtEnd()) ==> file.AtEnd()
    {
      WriteConfig(Value(), file, indentation);
    }
  }

  /** Saving into an empty file and loading from it again: unless a read fails, exactly the well-formed
      configurations come back. */
  method SaveAndLoad(saved: CConfig, file: Files.CFile, indentation: nat)
      returns (loaded: CConfig, ok: bool, ghost failed: bool)
    requires file.isOpen && file.content == "" && file.pos == 0
    modifies file
    ensures fresh(loaded)
    ensures !failed ==> (ok && loaded.Value() == saved.Value() <==> WellFormed(saved.Value()))
  {
    Save(saved, file, indentation);
    loaded := new CConfig();
    var line, error;
    ok, line, error, failed := loaded.Parse(file);
    SavedOutcome(saved.Value(), indentation, file.content);
  }

  method Save(saved: CConfig, file: Files.CFile, indentation: nat)
    requires file.isOpen && file.content == "" && file.pos == 0
    modifies file`content, file`pos
    ensures file.content == Render(Texts(saved.Value(), indentation))
  {
    saved.Write(file, indentation);
  }

  lemma SavedOutcome(c: Config, indentation: nat, text: string)
    requires text == Render(Texts(c, indentation))
    ensures ParseInto(EMPTY, Files.Pieces(text, "\n")) == Parsed(c) <==> WellFormed(c)
  {
    assert ParseInto(EMPTY, Files.Pieces(text, "\n")) == Reload(c, indentation);
    ReloadsIffWellFormed(c, indentation);
  }

  lemma {:induction false} RenderConcat(a: seq<string>, b: seq<string>)
    ensures Render(a + b) == Render(a) + Render(b)
  {
    if a == [] {
      assert a + b == b;
    } else {
      assert (a + b)[1..] == a[1..] + b;
      RenderConcat(a[1..], b);
    }
  }

  method WriteLine(file: Files.CFile, text: string)
    modifies file`content, file`pos
    ensures file.Written() == old(file.Written()) + Render([text])
    ensures old(file.AtEnd()) ==> file.AtEnd()
  {
    file.Write(text + "\n");
  }

  method WriteEntries(entries: seq<Keyed<string>>, file: Files.CFile, indentation: nat)
    modifies file`content, file`pos
    ensures file.Written() == old(file.Written()) + Render(EntryTexts(entries, indentation))
    ensures old(file.AtEnd()) ==> file.AtEnd()
  {
    var i := 0;
    ghost var all := old(file.Written()) + Render(EntryTexts(entries, indentation));
    assert entries[0..] == entries;
    while i < |entries|
      invariant i <= |entries| && (old(file.AtEnd()) ==> file.AtEnd())
      invariant file.Written() + Render(EntryTexts(entries[i..], indentation)) == all
    {
      var text := EntryText(indentation, entries[i].key, entries[i].item);
      OneEntry(entries, indentation, i, file.Written(), text);
      WriteLine(file, text);
      i := i + 1;
    }
    NoMoreEntries(indentation, file.Written());
    assert entries[i..] == [];
  }

  lemma OneEntry(entries: seq<Keyed<string>>, indentation: nat, i: nat, written: string, text: string)
    requires i < |entries| && text == EntryText(indentation, entries[i].key, entries[i].item)
    ensures written + Render(EntryTexts(entries[i..], indentation))
         == (written + Render([text])) + Render(EntryTexts(entries[i + 1..], indentation))
  {
    var more := EntryTexts(entries[i + 1..], indentation);
    assert entries[i..][1..] == entries[i + 1..];
    assert EntryTexts(entries[i..], indentation) == [text] + more;
    RenderConcat([text], more);
    Associative(written, Render([text]), Render(more));
  }

  lemma NoMoreEntries(indentation: nat, written: string)
    ensures written + Render(EntryTexts([], indentation)) == written
  {
  }

  method WriteConfig(c: Config, file: Files.CFile, indentation: nat)
    modifies file`content, file`pos
    ensures file.Written() == old(file.Written()) + Render(Texts(c, indentation))
    ensures old(file.AtEnd()) ==> file.AtEnd()
    decreases c, 1
  {
    ghost var start := file.Written();
    WriteEntries(c.entries, file, indentation);
    ghost var middle := file.Written();
    var i := 0;
    assert c.subs[0..] == c.subs;
    while i < |c.subs|
      invariant i <= |c.subs| && (old(file.AtEnd()) ==> file.AtEnd())
      invariant file.Written() + Render(SubTexts(c.subs[i..], indentation))
             == middle + Render(SubTexts(c.subs, indentation))
    {
      assert c.subs[i..][1..] == c.subs[i + 1..];
      RenderConcat(SubText(c.subs[i], indentation), SubTexts(c.subs[i + 1..], indentation));
      Associative(file.Written(), Render(SubText(c.subs[i], indentation)),
            Render(SubTexts(c.subs[i + 1..], indentation)));
      WriteBlock(c.subs[i], file, indentation);
      i := i + 1;
    }
    assert SubTexts(c.subs[i..], indentation) == [];
    Associative(start, Render(EntryTexts(c.entries, indentation)), Render(SubTexts(c.subs, indentation)));
    RenderConcat(EntryTexts(c.entries, indentation), SubTexts(c.subs, indentation));
  }

  method WriteBlock(s: Keyed<Block>, file: Files.CFile, indentation: nat)
    modifies file`content, file`pos
    ensures file.Written() == old(file.Written()) + Render(SubText(s, indentation))
    ensures old(file.AtEnd()) ==> file.AtEnd()
    decreases s, 0
  {
    ghost var start := file.Written();
    WriteLine(file, "");
    WriteLine(file, OpenText(indentation, s.key, s.item.name));
    WriteConfig(s.item.config, file, indentation + 1);
    WriteLine(file, CloseText(indentation, s.key));
    RenderSub(s, indentation);
    Assoc4(start, Render([""]), Render([OpenText(indentation, s.key, s.item.name)]),
           Render(Texts(s.item.config, indentation + 1)), Render([CloseText(indentation, s.key)]));
  }

  lemma Assoc4<T>(s: seq<T>, a: seq<T>, b: seq<T>, c: seq<T>, d: seq<T>)
    ensures s + a + b + c + d == s + (a + b + c + d)
  {
  }

  lemma RenderSub(s: Keyed<Block>, indentation: nat)
    ensures Render(SubText(s, indentation))
         == Render([""]) + Render([OpenText(indentation, s.key, s.item.name)])
            + Render(Texts(s.item.config, indentation + 1)) + Render([CloseText(indentation, s.key)])
  {
    var open, close := OpenText(indentation, s.key, s.item.name), CloseText(indentation, s.key);
    var body := Texts(s.item.config, indentation + 1);
    assert ["", open] == [""] + [open];
    RenderConcat([""], [open]);
    RenderConcat(["", open], body);
    RenderConcat(["", open] + body, [close]);
  }
}
