/** `alias`: substituting the words of a line into a template. */
module Alias {
  import opened Common
  import opened Strings

  const INT_MAX := 0x7fff_ffff

  function DigitValue(c: char): nat {
    if IsDigit(c) then (c - '0') as int else 0
  }

  /** Where a run of digits starting at a position ends. */
  function DigitsEnd(s: string, from: nat): (end: nat)
    requires from <= |s|
    ensures from <= end <= |s|
    decreases |s| - from
  {
    if from < |s| && IsDigit(s[from]) then DigitsEnd(s, from + 1) else from
  }

  function SpacesEnd(s: string, from: nat): (end: nat)
    requires from <= |s|
    ensures from <= end <= |s|
    decreases |s| - from
  {
    if from < |s| && s[from] in SPACES then SpacesEnd(s, from + 1) else from
  }

  /** The decimal number between two positions. */
  function Number(s: string, from: nat, end: nat): nat
    requires from <= end <= |s|
  {
    if from == end then 0 else Number(s, from, end - 1) * 10 + DigitValue(s[end - 1])
  }

  predicate CharAt(s: string, i: nat, c: char) { i < |s| && s[i] == c }

  /** Reading an `int` from a position through a stream: blanks skipped, a sign accepted, failure
      without digits and on overflow. */
  function Convert(s: string, from: nat): Option<int>
    requires from <= |s|
  {
    var i := SpacesEnd(s, from);
    var start := if CharAt(s, i, '+') || CharAt(s, i, '-') then i + 1 else i;
    var end := DigitsEnd(s, start);
    var n: int := Number(s, start, end);
    var v := if CharAt(s, i, '-') then -n else n;
    if start == end || !(-INT_MAX - 1 <= v <= INT_MAX) then None else Some(v)
  }

  // ----- The grammar of references: % [?] digits [+] % -----

  datatype Ref = Ref(index: nat, optional: bool, subsequent: bool)

  datatype Parsed = NoRef | IsRef(ref: Ref, end: nat)

  /** The reference that starts at a percent sign, and where it ends. */
  function ParseRef(data: string, caret: nat): (r: Parsed)
    requires CharAt(data, caret, '%')
    ensures r.IsRef? ==> caret < r.end <= |data|
  {
    var start := caret + (if CharAt(data, caret + 1, '?') then 2 else 1);
    var plus := DigitsEnd(data, start);
    var end := if CharAt(data, plus, '+') then plus + 1 else plus;
    if start == plus || Number(data, start, plus) > INT_MAX || !CharAt(data, end, '%') then NoRef
    else IsRef(Ref(Number(data, start, plus), CharAt(data, caret + 1, '?'), CharAt(data, plus, '+')), end + 1)
  }

  /** The first percent sign from a position on, the length of the template if there is none. */
  function NextPercent(data: string, from: nat): (found: nat)
    requires from <= |data|
    ensures from <= found <= |data| && (found < |data| ==> data[found] == '%')
    ensures forall i :: from <= i < found ==> data[i] != '%'
    decreases |data| - from
  {
    if from == |data| || data[from] == '%' then from else NextPercent(data, from + 1)
  }

  /** A template: its last text, text that ends with a percent sign starting no reference, or text
      with a reference behind it. */
  datatype Template =
    | End(text: string)
    | Skip(text: string, rest: Template)
    | Subst(text: string, ref: Ref, source: string, rest: Template)

  /** What a text from a position on says as a template. */
  function TemplateOf(data: string, from: nat): Template
    requires from <= |data|
    decreases |data| - from
  {
    var found := NextPercent(data, from);
    if found == |data| then End(data[from..])
    else
      var r := ParseRef(data, found);
      if r.NoRef? then Skip(data[from..found + 1], TemplateOf(data, found + 1))
      else Subst(data[from..found], r.ref, data[found..r.end], TemplateOf(data, r.end))
  }

  datatype Outcome = Imprinted(text: string) | Missing(index: nat)

  function Prepend(text: string, o: Outcome): Outcome {
    match o
    case Imprinted(rest) => Imprinted(text + rest)
    case Missing(_) => o
  }

  function ValueOf(ref: Ref, line: string): string {
    Token(line, ref.index, ref.subsequent, ' ')
  }

  predicate Lacks(ref: Ref, line: string) {
    ValueOf(ref, line) == "" && !ref.optional
  }

  /** Substitution from left to right. */
  function Eval(t: Template, line: string): Outcome {
    match t
    case End(text) => Imprinted(text)
    case Skip(text, rest) => Prepend(text, Eval(rest, line))
    case Subst(text, ref, _, rest) =>
      if Lacks(ref, line) then Missing(ref.index) else Prepend(text + ValueOf(ref, line), Eval(rest, line))
  }

  // ----- The code -----

  /** A reference at the caret has been substituted, or its word is missing, or there is none and the
      percent sign is to be skipped. */
  predicate TokenRead(data: string, line: string, output: string, caret: nat,
                      missing: Option<nat>, newOutput: string, newCaret: nat, skip: nat)
    requires CharAt(data, caret, '%')
  {
    var r := ParseRef(data, caret);
    if r.NoRef? then missing == None && newOutput == output && newCaret == caret && skip == 1
    else if Lacks(r.ref, line) then missing == Some(r.ref.index)
    else missing == None && newOutput == output + ValueOf(r.ref, line) && newCaret == r.end && skip == 0
  }

  /** The parser accepts exactly the grammar, although the conversion it relies on also accepts
      blanks and signs in front of a number. */
  method ParseToken(data: string, line: string, output: string, caret: nat)
      returns (missing: Option<nat>, newOutput: string, newCaret: nat, skip: nat)
    requires CharAt(data, caret, '%')
    ensures TokenRead(data, line, output, caret, missing, newOutput, newCaret, skip)
  {
    missing, newOutput, newCaret, skip := None, output, caret, 1;
    var optional, subsequent := false, false;
    var index := caret + 1;
    if index < |data| && data[index] == '?' {
      optional := true;
      index := index + 1;
    }
    if index >= |data| {
      return;
    }
    ghost var start := index;
    var number := Convert(data, index);
    ConvertDigits(data, index);
    if number.None? {
      return;
    }
    index := SkipDigits(data, index);
    if index < |data| && data[index] == '+' {
      subsequent := true;
      index := index + 1;
    }
    if !(index < |data| && data[index] == '%') {
      return;
    }
    index := index + 1;
    var value := Token(line, number.value, subsequent, ' ');
    if value == "" && !optional {
      missing := Some(number.value);
      return;
    }
    newOutput := output + value;
    skip := 0;
    newCaret := index;
  }

  method SkipDigits(data: string, index: nat) returns (end: nat)
    requires index <= |data|
    ensures end == DigitsEnd(data, index)
  {
    end := index;
    while end < |data| && IsDigit(data[end])
      invariant index <= end <= |data| && DigitsEnd(data, index) == DigitsEnd(data, end)
    {
      end := end + 1;
    }
  }

  /** With digits in front, the conversion yields their value or overflows; without them, whatever
      it yields, no closing percent sign can follow at once or after a plus. */
  lemma ConvertDigits(s: string, from: nat)
    requires from <= |s|
    ensures var end := DigitsEnd(s, from);
            if from < end then
              Convert(s, from) == if Number(s, from, end) <= INT_MAX then Some(Number(s, from, end)) else None
            else
              Convert(s, from).Some? ==>
                !CharAt(s, from, '%') && !(CharAt(s, from, '+') && CharAt(s, from + 1, '%'))
  {
    if from < |s| && IsDigit(s[from]) {
      assert s[from] !in SPACES;
    }
    if CharAt(s, from, '+') && CharAt(s, from + 1, '%') {
      assert DigitsEnd(s, from + 1) == from + 1;
    }
  }

  /** What has been output and the percent sign being skipped, if any, are certain of the outcome. */
  ghost predicate Certain(data: string, line: string, total: Outcome,
                          output: string, lastFound: nat, skip: nat, done: string)
  {
    && lastFound + skip <= |data| && done == output + data[lastFound..lastFound + skip]
    && total == Prepend(done, Eval(TemplateOf(data, lastFound + skip), line))
  }

  /** Imprinting a line on a template is evaluating the template; each round of the loop starts its
      search further right. */
  method Imprint(data: string, line: string) returns (o: Outcome)
    ensures o == Eval(TemplateOf(data, 0), line)
  {
    var output := "";
    var lastFound: nat, skip: nat := 0, 0;
    ghost var done, total := "", Eval(TemplateOf(data, 0), line);
    PrependNothing(total);
    while true
      invariant Certain(data, line, total, output, lastFound, skip, done)
      decreases |data| - (lastFound + skip)
    {
      var found := Search(data, lastFound + skip);
      if found == |data| {
        LastRound(data, line, total, output, lastFound, skip, done);
        return Imprinted(output + data[lastFound..]);
      }
      var missing;
      missing, output, lastFound, skip, done := Round(data, line, total, output, lastFound, skip, found, done);
      if missing.Some? {
        return Missing(missing.value);
      }
    }
  }

  /** The rest of the loop's body, a percent sign having been found. */
  method Round(data: string, line: string, ghost total: Outcome,
               output: string, lastFound: nat, ghost skip: nat, found: nat, ghost done: string)
      returns (missing: Option<nat>, newOutput: string, newFound: nat, newSkip: nat, ghost newDone: string)
    requires Certain(data, line, total, output, lastFound, skip, done)
    requires found == NextPercent(data, lastFound + skip) < |data|
    ensures Continues(data, line, lastFound + skip, total, missing, newOutput, newFound, newSkip, newDone)
  {
    ghost var copied := CopiedOn(data, line, total, output, lastFound, skip, found, done);
    missing, newOutput, newFound, newSkip := ParseToken(data, line, output + data[lastFound..found], found);
    newDone := AfterToken(data, line, total, lastFound + skip, found, done, copied,
                          missing, newOutput, newFound, newSkip);
  }

  /** After a token the outcome is known, or what is certain of it has moved on. */
  ghost predicate Continues(data: string, line: string, from: nat, total: Outcome,
                            missing: Option<nat>, newOutput: string, newFound: nat, newSkip: nat, newDone: string)
  {
    match missing
    case Some(index) => total == Missing(index)
    case None => from < newFound + newSkip && Certain(data, line, total, newOutput, newFound, newSkip, newDone)
  }

  /** What is certain up to a percent sign, all of it copied to the output. */
  ghost predicate Copied(data: string, line: string, total: Outcome, from: nat, found: nat,
                         done: string, copied: string)
  {
    && from <= |data| && found == NextPercent(data, from) < |data| && copied == done + data[from..found]
    && total == Prepend(done, Eval(TemplateOf(data, from), line))
  }

  lemma CopiedOn(data: string, line: string, total: Outcome,
                 output: string, lastFound: nat, skip: nat, found: nat, done: string) returns (copied: string)
    requires Certain(data, line, total, output, lastFound, skip, done)
    requires found == NextPercent(data, lastFound + skip) < |data|
    ensures copied == output + data[lastFound..found]
    ensures Copied(data, line, total, lastFound + skip, found, done, copied)
  {
    copied := output + data[lastFound..found];
    Onward(data, output, lastFound, lastFound + skip, found, done);
  }

  lemma AfterToken(data: string, line: string, total: Outcome, from: nat, found: nat, done: string, copied: string,
                   missing: Option<nat>, newOutput: string, newFound: nat, newSkip: nat) returns (newDone: string)
    requires Copied(data, line, total, from, found, done, copied)
    requires TokenRead(data, line, copied, found, missing, newOutput, newFound, newSkip)
    ensures Continues(data, line, from, total, missing, newOutput, newFound, newSkip, newDone)
  {
    if ParseRef(data, found).NoRef? {
      newDone := AfterSkip(data, line, total, from, found, done, copied);
    } else {
      newDone := AfterSubst(data, line, total, from, found, done, copied, ParseRef(data, found));
    }
  }

  lemma AfterSkip(data: string, line: string, total: Outcome, from: nat, found: nat, done: string, copied: string)
      returns (newDone: string)
    requires Copied(data, line, total, from, found, done, copied) && ParseRef(data, found).NoRef?
    ensures from < found + 1 && Certain(data, line, total, copied, found, 1, newDone)
  {
    newDone := done + data[from..found + 1];
    SkipRound(TemplateOf(data, from), line, done, total);
    OneMoreChar(data, from, found, done, copied);
  }

  lemma AfterSubst(data: string, line: string, total: Outcome, from: nat, found: nat, done: string, copied: string,
                   r: Parsed) returns (newDone: string)
    requires Copied(data, line, total, from, found, done, copied) && r == ParseRef(data, found) && r.IsRef?
    ensures if Lacks(r.ref, line) then total == Missing(r.ref.index)
            else from < r.end && Certain(data, line, total, copied + ValueOf(r.ref, line), r.end, 0, newDone)
  {
    newDone := done + (data[from..found] + ValueOf(r.ref, line));
    SubstRound(TemplateOf(data, from), line, done, total);
    WithValue(data, from, found, r.end, done, copied, ValueOf(r.ref, line));
  }

  lemma SkipRound(t: Template, line: string, done: string, total: Outcome)
    requires t.Skip? && total == Prepend(done, Eval(t, line))
    ensures total == Prepend(done + t.text, Eval(t.rest, line))
  {
    PrependTwice(done, t.text, Eval(t.rest, line));
  }

  lemma SubstRound(t: Template, line: string, done: string, total: Outcome)
    requires t.Subst? && total == Prepend(done, Eval(t, line))
    ensures total == if Lacks(t.ref, line) then Missing(t.ref.index)
                     else Prepend(done + (t.text + ValueOf(t.ref, line)), Eval(t.rest, line))
  {
    PrependTwice(done, t.text + ValueOf(t.ref, line), Eval(t.rest, line));
  }

  lemma OneMoreChar(data: string, from: nat, found: nat, done: string, copied: string)
    requires from <= found < |data| && copied == done + data[from..found]
    ensures done + data[from..found + 1] == copied + data[found..found + 1]
  {
    assert data[from..found + 1] == data[from..found] + data[found..found + 1];
  }

  lemma WithValue(data: string, from: nat, found: nat, end: nat, done: string, copied: string, value: string)
    requires from <= found <= |data| && end <= |data| && copied == done + data[from..found]
    ensures done + (data[from..found] + value) == (copied + value) + data[end..end]
  {
    assert (copied + value) + data[end..end] == copied + value;
  }

  lemma Onward(data: string, output: string, a: nat, b: nat, c: nat, done: string)
    requires a <= b <= c <= |data| && done == output + data[a..b]
    ensures output + data[a..c] == done + data[b..c]
  {
    assert data[a..c] == data[a..b] + data[b..c];
  }

  lemma LastRound(data: string, line: string, total: Outcome,
                  output: string, lastFound: nat, skip: nat, done: string)
    requires Certain(data, line, total, output, lastFound, skip, done)
    requires NextPercent(data, lastFound + skip) == |data|
    ensures total == Imprinted(output + data[lastFound..])
  {
    var from := lastFound + skip;
    assert data[lastFound..] == data[lastFound..|data|] && data[from..] == data[from..|data|];
    Onward(data, output, lastFound, from, |data|, done);
  }

  method Search(data: string, from: nat) returns (found: nat)
    requires from <= |data|
    ensures found == NextPercent(data, from)
  {
    found := from;
    while found < |data| && data[found] != '%'
      invariant from <= found <= |data| && NextPercent(data, from) == NextPercent(data, found)
    {
      found := found + 1;
    }
  }

  lemma PrependNothing(o: Outcome)
    ensures Prepend("", o) == o
  {
    if o.Imprinted? {
      assert "" + o.text == o.text;
    }
  }

  lemma PrependTwice(a: string, b: string, o: Outcome)
    ensures Prepend(a, Prepend(b, o)) == Prepend(a + b, o)
  {
    if o.Imprinted? {
      assert a + (b + o.text) == (a + b) + o.text;
    }
  }

  // ----- What substitution means -----

  /** The text of a template. */
  function Source(t: Template): string {
    match t
    case End(text) => text
    case Skip(text, rest) => text + Source(rest)
    case Subst(text, _, source, rest) => text + (source + Source(rest))
  }

  lemma SkipSource(t: Template, data: string, from: nat, next: nat)
    requires from <= next <= |data| && t.Skip? && t.text == data[from..next] && Source(t.rest) == data[next..]
    ensures Source(t) == data[from..]
  {
    assert data[from..] == data[from..next] + data[next..];
  }

  lemma SubstSource(t: Template, data: string, from: nat, found: nat, next: nat)
    requires from <= found <= next <= |data| && t.Subst? && t.text == data[from..found]
    requires t.source == data[found..next] && Source(t.rest) == data[next..]
    ensures Source(t) == data[from..]
  {
    assert data[found..] == data[found..next] + data[next..];
    assert data[from..] == data[from..found] + data[found..];
  }

  /** Every character of the text belongs to exactly one part of the template, in order, so a
      malformed percent sign is copied as it stands. */
  lemma {:induction false} SourceIsText(data: string, from: nat)
    requires from <= |data|
    ensures Source(TemplateOf(data, from)) == data[from..]
    decreases |data| - from
  {
    var found, t := NextPercent(data, from), TemplateOf(data, from);
    if found < |data| {
      var r := ParseRef(data, found);
      TemplateParts(data, from, found, r);
      SourceIsText(data, if r.NoRef? then found + 1 else r.end);
      if r.NoRef? {
        SkipSource(t, data, from, found + 1);
      } else {
        SubstSource(t, data, from, found, r.end);
      }
    }
  }

  lemma TemplateParts(data: string, from: nat, found: nat, r: Parsed)
    requires from <= |data| && found == NextPercent(data, from) < |data| && r == ParseRef(data, found)
    ensures TemplateOf(data, from)
         == if r.NoRef? then Skip(data[from..found + 1], TemplateOf(data, found + 1))
            else Subst(data[from..found], r.ref, data[found..r.end], TemplateOf(data, r.end))
  {
  }

  /** The references of a template, in order. */
  function Refs(t: Template): seq<Ref> {
    match t
    case End(_) => []
    case Skip(_, rest) => Refs(rest)
    case Subst(_, ref, _, rest) => [ref] + Refs(rest)
  }

  ghost predicate FirstLacking(refs: seq<Ref>, line: string, i: nat)
    requires i < |refs|
  {
    Lacks(refs[i], line) && forall j :: 0 <= j < i ==> !Lacks(refs[j], line)
  }

  /** An outcome is a failure exactly when some reference has no word it needs in the line, and names
      the first such reference. */
  ghost predicate FailsAtFirst(refs: seq<Ref>, line: string, o: Outcome) {
    && (o.Missing? <==> exists i :: 0 <= i < |refs| && Lacks(refs[i], line))
    && forall i :: 0 <= i < |refs| && FirstLacking(refs, line, i) ==> o == Missing(refs[i].index)
  }

  /** Imprinting fails exactly when some required reference has no word in the line, and names the
      first such reference. */
  lemma {:induction false} FailsIffMissing(t: Template, line: string)
    ensures FailsAtFirst(Refs(t), line, Eval(t, line))
  {
    match t
    case End(_) =>
    case Skip(text, rest) =>
      FailsIffMissing(rest, line);
      TextFails(Refs(rest), line, text, Eval(rest, line));
    case Subst(text, ref, _, rest) =>
      FailsIffMissing(rest, line);
      TextFails(Refs(rest), line, text + ValueOf(ref, line), Eval(rest, line));
      RefFails(ref, Refs(rest), line, Prepend(text + ValueOf(ref, line), Eval(rest, line)));
  }

  /** Text in front changes no failure. */
  lemma TextFails(refs: seq<Ref>, line: string, text: string, o: Outcome)
    requires FailsAtFirst(refs, line, o)
    ensures FailsAtFirst(refs, line, Prepend(text, o))
  {
    forall i | 0 <= i < |refs| && FirstLacking(refs, line, i) ensures o == Missing(refs[i].index) {
    }
  }

  /** A reference in front that lacks its word is the first to do so. */
  lemma RefFails(ref: Ref, more: seq<Ref>, line: string, o: Outcome)
    requires FailsAtFirst(more, line, o)
    ensures FailsAtFirst([ref] + more, line, if Lacks(ref, line) then Missing(ref.index) else o)
  {
    var refs := [ref] + more;
    if i :| 0 <= i < |more| && Lacks(more[i], line) {
      assert Lacks(refs[i + 1], line);
    }
    assert Lacks(refs[0], line) == Lacks(ref, line);
    forall i | 0 <= i < |refs| && FirstLacking(refs, line, i)
      ensures if Lacks(ref, line) then i == 0 else o == Missing(refs[i].index)
    {
      if i > 0 {
        assert !Lacks(refs[0], line);
        MoreLacking(ref, more, line, i);
      }
    }
  }

  lemma MoreLacking(ref: Ref, more: seq<Ref>, line: string, i: nat)
    requires 0 < i <= |more| && FirstLacking([ref] + more, line, i)
    ensures FirstLacking(more, line, i - 1) && ([ref] + more)[i] == more[i - 1]
  {
    var refs := [ref] + more;
    forall j | 0 <= j < i - 1 ensures !Lacks(more[j], line) {
      assert !Lacks(refs[j + 1], line);
    }
  }
}
