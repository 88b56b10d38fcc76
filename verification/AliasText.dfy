/** What an alias template means, told from its text: references by their characters, numbers by their
    digits, words by their place in the line. */
module AliasText {
  import opened Strings
  import opened Alias

  // ----- Numbers -----

  const DIGITS := "0123456789"

  /** The place of a character in a text, its length if it is not there. */
  function Place(s: string, c: char): (i: nat)
    ensures i <= |s| && (i < |s| ==> s[i] == c) && (i == |s| <==> c !in s)
  {
    if s == "" || s[0] == c then 0 else 1 + Place(s[1..], c)
  }

  predicate AllDigits(d: string) {
    forall c :: c in d ==> c in DIGITS
  }

  /** The value of a text of digits. */
  function Value(d: string): nat {
    if d == "" then 0 else 10 * Value(d[..|d| - 1]) + Place(DIGITS, d[|d| - 1])
  }

  lemma DigitIs(c: char)
    ensures IsDigit(c) <==> c in DIGITS
    ensures c in DIGITS ==> DigitValue(c) == Place(DIGITS, c)
  {
    assert forall i :: 0 <= i < 10 ==> DIGITS[i] == '0' + i as char;
    if IsDigit(c) {
      var i := (c - '0') as int;
      assert DIGITS[i] == c;
    }
    if c in DIGITS {
      var i := Place(DIGITS, c);
      assert DIGITS[i] == c;
    }
  }

  lemma {:induction false} NumberIs(s: string, from: nat, end: nat)
    requires from <= end <= |s| && AllDigits(s[from..end])
    ensures Number(s, from, end) == Value(s[from..end])
    decreases end
  {
    if from < end {
      var d := s[from..end - 1];
      assert s[from..end] == d + [s[end - 1]];
      assert s[end - 1] in s[from..end];
      NumberIs(s, from, end - 1);
      DigitIs(s[end - 1]);
    }
  }

  // ----- References -----

  /** The characters of a reference: the number of a word, a question mark in front if it may be
      missing, a plus behind if all further words are meant too. */
  function Written(optional: bool, digits: string, subsequent: bool): string {
    "%" + ((if optional then "?" else "") + (digits + ((if subsequent then "+" else "") + "%")))
  }

  predicate WellWritten(digits: string) {
    digits != "" && AllDigits(digits) && Value(digits) <= 0x7fff_ffff
  }

  lemma {:induction false} DigitsUpto(s: string, from: nat, end: nat)
    requires from <= end <= |s| && AllDigits(s[from..end]) && (end < |s| ==> s[end] !in DIGITS)
    ensures DigitsEnd(s, from) == end
    decreases end - from
  {
    if from < end {
      assert s[from] in s[from..end] && s[from + 1..end] == s[from..end][1..];
      DigitIs(s[from]);
      DigitsUpto(s, from + 1, end);
    } else if end < |s| {
      DigitIs(s[end]);
    }
  }

  lemma {:induction false} DigitsRun(s: string, from: nat, end: nat)
    requires from <= |s| && end == DigitsEnd(s, from)
    ensures AllDigits(s[from..end])
    decreases |s| - from
  {
    if from < |s| && IsDigit(s[from]) {
      DigitIs(s[from]);
      DigitsRun(s, from + 1, end);
      OneMoreDigit(s, from, end);
    }
  }

  lemma OneMoreDigit(s: string, from: nat, end: nat)
    requires from < end <= |s| && s[from] in DIGITS && AllDigits(s[from + 1..end])
    ensures AllDigits(s[from..end])
  {
    assert s[from..end] == [s[from]] + s[from + 1..end];
  }

  /** The characters of a written reference by position. */
  lemma WrittenChars(optional: bool, digits: string, subsequent: bool)
    ensures var r, start := Written(optional, digits, subsequent), if optional then 2 else 1;
            var plus := start + |digits|;
            && |r| == plus + (if subsequent then 2 else 1)
            && r[0] == '%' && r[|r| - 1] == '%' && (optional ==> r[1] == '?') && (subsequent ==> r[plus] == '+')
            && forall i :: 0 <= i < |digits| ==> r[start + i] == digits[i]
  {
    var tail := (if subsequent then "+" else "") + "%";
    var head := "%" + if optional then "?" else "";
    var r := Written(optional, digits, subsequent);
    assert r == head + (digits + tail);
  }

  /** A text stands at a position. */
  predicate Stands(data: string, caret: nat, text: string) {
    caret + |text| <= |data| && forall i :: 0 <= i < |text| ==> data[caret + i] == text[i]
  }

  /** The text of a reference stands at a position. */
  predicate WrittenAt(data: string, caret: nat, end: nat, optional: bool, digits: string, subsequent: bool) {
    var text := Written(optional, digits, subsequent);
    Stands(data, caret, text) && end == caret + |text| && WellWritten(digits)
  }

  /** Where one is written, that reference is read. */
  lemma WrittenIsRead(data: string, caret: nat, end: nat, optional: bool, digits: string, subsequent: bool)
    requires WrittenAt(data, caret, end, optional, digits, subsequent)
    ensures CharAt(data, caret, '%') && ParseRef(data, caret) == IsRef(Ref(Value(digits), optional, subsequent), end)
  {
    var start, plus := PartsOf(data, caret, end, optional, digits, subsequent);
    ReadParts(data, caret, end, optional, subsequent, start, plus, digits);
  }

  /** The parts of a reference and their places. */
  predicate Parts(data: string, caret: nat, end: nat, optional: bool, subsequent: bool, start: nat, plus: nat,
                  digits: string)
  {
    && caret < start < plus <= |data| && CharAt(data, caret, '%')
    && data[start..plus] == digits && WellWritten(digits)
    && start == caret + (if optional then 2 else 1) && end == plus + (if subsequent then 2 else 1)
    && (optional ==> CharAt(data, caret + 1, '?')) && (subsequent ==> CharAt(data, plus, '+'))
    && CharAt(data, end - 1, '%')
  }

  lemma PartsOf(data: string, caret: nat, end: nat, optional: bool, digits: string, subsequent: bool)
      returns (start: nat, plus: nat)
    requires WrittenAt(data, caret, end, optional, digits, subsequent)
    ensures Parts(data, caret, end, optional, subsequent, start, plus, digits)
  {
    var r, at := Written(optional, digits, subsequent), if optional then 2 else 1;
    start, plus := caret + at, caret + at + |digits|;
    WrittenChars(optional, digits, subsequent);
    PlacedChars(data, caret, end, optional, subsequent, r, at + |digits|, plus);
    PartStands(data, caret, r, at, digits, start, plus);
  }

  lemma PlacedChars(data: string, caret: nat, end: nat, optional: bool, subsequent: bool, r: string, to: nat, plus: nat)
    requires Stands(data, caret, r) && end == caret + |r| && plus == caret + to
    requires 2 <= to + 1 <= |r| && |r| == to + (if subsequent then 2 else 1)
    requires r[0] == '%' && r[|r| - 1] == '%' && (optional ==> r[1] == '?') && (subsequent ==> r[to] == '+')
    ensures CharAt(data, caret, '%') && CharAt(data, end - 1, '%')
    ensures (optional ==> CharAt(data, caret + 1, '?')) && (subsequent ==> CharAt(data, plus, '+'))
  {
    CharStands(data, caret, r, 0, caret);
    CharStands(data, caret, r, 1, caret + 1);
    CharStands(data, caret, r, to, plus);
    CharStands(data, caret, r, |r| - 1, end - 1);
  }

  lemma CharStands(data: string, caret: nat, text: string, i: nat, at: nat)
    requires Stands(data, caret, text) && i < |text| && at == caret + i
    ensures CharAt(data, at, text[i])
  {
  }

  lemma PartStands(data: string, caret: nat, text: string, at: nat, part: string, from: nat, end: nat)
    requires Stands(data, caret, text) && at + |part| <= |text| && from == caret + at && end == from + |part|
    requires forall i :: 0 <= i < |part| ==> text[at + i] == part[i]
    ensures end <= |data| && data[from..end] == part
  {
    forall i | 0 <= i < |part| ensures data[from + i] == part[i] {
      CharStands(data, caret, text, at + i, from + i);
    }
    StandsIs(data, from, part);
  }

  lemma StandsIs(data: string, at: nat, text: string)
    requires at + |text| <= |data|
    ensures Stands(data, at, text) <==> data[at..at + |text|] == text
  {
    if data[at..at + |text|] == text {
      forall i | 0 <= i < |text| ensures data[at + i] == text[i] {
        assert data[at..at + |text|][i] == data[at + i];
      }
    }
  }

  lemma ReadParts(data: string, caret: nat, end: nat, optional: bool, subsequent: bool, start: nat, plus: nat,
                  digits: string)
    requires Parts(data, caret, end, optional, subsequent, start, plus, digits)
    ensures ParseRef(data, caret) == IsRef(Ref(Value(digits), optional, subsequent), end)
  {
    DigitsThere(data, start, plus, digits);
  }

  lemma DigitsThere(data: string, start: nat, plus: nat, digits: string)
    requires start < plus < |data| && data[start..plus] == digits && WellWritten(digits) && data[plus] in {'+', '%'}
    ensures DigitsEnd(data, start) == plus && Number(data, start, plus) == Value(digits) && data[start] != '?'
  {
    assert data[start] == digits[0] && digits[0] in digits;
    DigitsUpto(data, start, plus);
    NumberIs(data, start, plus);
  }

  /** And only where one is written, a reference is read. */
  lemma ReadIsWritten(data: string, caret: nat) returns (digits: string)
    requires CharAt(data, caret, '%') && ParseRef(data, caret).IsRef?
    ensures var p := ParseRef(data, caret);
            WrittenAt(data, caret, p.end, p.ref.optional, digits, p.ref.subsequent) && Value(digits) == p.ref.index
  {
    var p := ParseRef(data, caret);
    var start, plus := RefParts(data, caret, p);
    digits := DigitsFound(data, start, plus);
    PartsAreWritten(data, caret, p.end, p.ref.optional, p.ref.subsequent, start, plus, digits);
    SliceStands(data, caret, p.end, Written(p.ref.optional, digits, p.ref.subsequent));
  }

  lemma DigitsFound(data: string, start: nat, plus: nat) returns (digits: string)
    requires start < plus <= |data| && plus == DigitsEnd(data, start) && Number(data, start, plus) <= INT_MAX
    ensures digits == data[start..plus] && WellWritten(digits) && Value(digits) == Number(data, start, plus)
  {
    digits := data[start..plus];
    DigitsRun(data, start, plus);
    NumberIs(data, start, plus);
  }

  lemma RefParts(data: string, caret: nat, p: Parsed) returns (start: nat, plus: nat)
    requires CharAt(data, caret, '%') && p == ParseRef(data, caret) && p.IsRef?
    ensures start == caret + (if p.ref.optional then 2 else 1) && start < plus == DigitsEnd(data, start) < p.end
    ensures p.end == plus + (if p.ref.subsequent then 2 else 1) && p.end <= |data|
    ensures (p.ref.optional ==> CharAt(data, caret + 1, '?')) && (p.ref.subsequent ==> CharAt(data, plus, '+'))
    ensures CharAt(data, p.end - 1, '%') && p.ref.index == Number(data, start, plus) <= INT_MAX
  {
    start := caret + if p.ref.optional then 2 else 1;
    plus := DigitsEnd(data, start);
  }

  lemma SliceStands(data: string, caret: nat, end: nat, text: string)
    requires caret <= end <= |data| && data[caret..end] == text
    ensures Stands(data, caret, text) && end == caret + |text|
  {
    StandsIs(data, caret, text);
  }

  lemma PartsAreWritten(data: string, caret: nat, end: nat, optional: bool, subsequent: bool, start: nat, plus: nat,
                        digits: string)
    requires plus <= |data| && start <= plus && digits == data[start..plus]
    requires caret < start <= plus < end <= |data| && CharAt(data, caret, '%') && CharAt(data, end - 1, '%')
    requires start == caret + (if optional then 2 else 1) && end == plus + (if subsequent then 2 else 1)
    requires (optional ==> data[caret + 1] == '?') && (subsequent ==> data[plus] == '+')
    ensures data[caret..end] == Written(optional, digits, subsequent)
  {
    HeadIs(data, caret, start, optional);
    TailIs(data, plus, end, subsequent);
    assert data[caret..end] == data[caret..start] + (digits + data[plus..end]);
    WrittenIs(optional, digits, subsequent, data[caret..start], data[plus..end]);
  }

  lemma HeadIs(data: string, caret: nat, start: nat, optional: bool)
    requires CharAt(data, caret, '%') && start == caret + (if optional then 2 else 1) <= |data|
    requires optional ==> CharAt(data, caret + 1, '?')
    ensures data[caret..start] == if optional then "%?" else "%"
  {
  }

  lemma TailIs(data: string, plus: nat, end: nat, subsequent: bool)
    requires plus < end <= |data| && end == plus + (if subsequent then 2 else 1) && CharAt(data, end - 1, '%')
    requires subsequent ==> CharAt(data, plus, '+')
    ensures data[plus..end] == if subsequent then "+%" else "%"
  {
  }

  lemma WrittenIs(optional: bool, digits: string, subsequent: bool, head: string, tail: string)
    requires head == (if optional then "%?" else "%") && tail == if subsequent then "+%" else "%"
    ensures head + (digits + tail) == Written(optional, digits, subsequent)
  {
    assert (if subsequent then "+" else "") + "%" == tail;
    assert "%" + ((if optional then "?" else "") + (digits + tail)) == head + (digits + tail);
  }

  // ----- What imprinting gives -----

  /** What imprinting from a position on gives; `Imprint` begins at zero. */
  function ImprintFrom(data: string, from: nat, line: string): Outcome
    requires from <= |data|
  {
    Eval(TemplateOf(data, from), line)
  }

  lemma {:induction false} FirstPercent(data: string, from: nat, found: nat)
    requires from <= found <= |data| && '%' !in data[from..found] && (found < |data| ==> data[found] == '%')
    ensures NextPercent(data, from) == found
    decreases found - from
  {
    if from < found {
      assert data[from] in data[from..found] && data[from + 1..found] == data[from..found][1..];
      FirstPercent(data, from + 1, found);
    }
  }

  /** Text without percent signs comes out as it is. */
  lemma PlainText(data: string, from: nat, line: string)
    requires from <= |data| && '%' !in data[from..]
    ensures ImprintFrom(data, from, line) == Imprinted(data[from..])
  {
    assert data[from..] == data[from..|data|];
    FirstPercent(data, from, |data|);
  }

  /** A reference becomes its word, with the text in front of it before and the rest imprinted behind;
      without the word, and unless it may be missing, imprinting fails and names it. */
  lemma ReferenceMeans(data: string, from: nat, caret: nat, end: nat, optional: bool, digits: string,
                       subsequent: bool, line: string)
    requires from <= caret && WrittenAt(data, caret, end, optional, digits, subsequent) && '%' !in data[from..caret]
    ensures var word := Token(line, Value(digits), subsequent, ' ');
            ImprintFrom(data, from, line)
              == if word == "" && !optional then Missing(Value(digits))
                 else match ImprintFrom(data, end, line)
                      case Imprinted(more) => Imprinted(data[from..caret] + word + more)
                      case Missing(index) => Missing(index)
  {
    WrittenIsRead(data, caret, end, optional, digits, subsequent);
    FirstPercent(data, from, caret);
    TemplateParts(data, from, caret, ParseRef(data, caret));
  }

  /** A percent sign that begins no reference is kept, and the rest is imprinted behind it. */
  lemma StrayPercent(data: string, from: nat, caret: nat, line: string)
    requires from <= caret && CharAt(data, caret, '%') && '%' !in data[from..caret]
    requires forall end, optional, digits, subsequent :: !WrittenAt(data, caret, end, optional, digits, subsequent)
    ensures ImprintFrom(data, from, line)
         == match ImprintFrom(data, caret + 1, line)
            case Imprinted(more) => Imprinted(data[from..caret + 1] + more)
            case Missing(index) => Missing(index)
  {
    if ParseRef(data, caret).IsRef? {
      var digits := ReadIsWritten(data, caret);
      assert false;
    }
    FirstPercent(data, from, caret);
    TemplateParts(data, from, caret, NoRef);
  }
}
