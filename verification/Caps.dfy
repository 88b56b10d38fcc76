/** Capability lists: packing names into lines, and changing the set of accepted capabilities. */
module Caps {
  import opened Common
  import opened Strings

  const MAX_CAPS := 400

  /** The text of one line of names. */
  function Glue(names: seq<string>): string {
    if names == [] then ""
    else
      var before := Glue(names[..|names| - 1]);
      (if before == "" then "" else before + " ") + names[|names| - 1]
  }

  function Flatten(groups: seq<seq<string>>): seq<string> {
    if groups == [] then [] else Flatten(groups[..|groups| - 1]) + groups[|groups| - 1]
  }

  /** Every line is the text of its names. */
  predicate Glued(groups: seq<seq<string>>, lines: seq<string>) {
    |groups| == |lines| && forall i :: 0 <= i < |lines| ==> lines[i] == Glue(groups[i])
  }

  /** No line is over 401 characters unless it is a single name. */
  predicate Narrow(groups: seq<seq<string>>, lines: seq<string>) {
    |groups| == |lines| && forall i :: 0 <= i < |lines| ==> |lines[i]| <= 401 || |groups[i]| == 1
  }

  /** No name begins a line that would have fitted on the line before. */
  predicate Greedy(groups: seq<seq<string>>, lines: seq<string>) {
    && |groups| == |lines|
    && forall i :: 0 < i < |lines| ==> groups[i] != [] && |lines[i - 1]| + |groups[i][0]| > 400
  }

  predicate Packed(groups: seq<seq<string>>, lines: seq<string>) {
    Glued(groups, lines) && Narrow(groups, lines) && Greedy(groups, lines)
  }

  /** One more name: on a new line if it does not fit, else on the last one. */
  function AddCap(lines: seq<string>, cap: string): (r: seq<string>)
    requires lines != []
    ensures r != []
  {
    var last := |lines| - 1;
    if |lines[last]| + |cap| > MAX_CAPS then lines + [cap]
    else lines[last := (if lines[last] == "" then "" else lines[last] + " ") + cap]
  }

  function AddToGroups(groups: seq<seq<string>>, lines: seq<string>, cap: string): seq<seq<string>>
    requires lines != [] && |groups| == |lines|
  {
    var last := |lines| - 1;
    if |lines[last]| + |cap| > MAX_CAPS then groups + [[cap]] else groups[last := groups[last] + [cap]]
  }

  method MultiLine(caps: seq<string>) returns (lines: seq<string>, ghost groups: seq<seq<string>>)
    ensures lines != [] && Packed(groups, lines) && Flatten(groups) == caps
  {
    lines, groups := [""], [[]];
    var i := 0;
    while i < |caps|
      invariant i <= |caps| && lines != []
      invariant Packed(groups, lines) && Flatten(groups) == caps[..i]
    {
      StaysPacked(groups, lines, caps[i]);
      groups := AddToGroups(groups, lines, caps[i]);
      OneMore(caps, i);
      lines := AddToLines(lines, caps[i]);
      i := i + 1;
    }
    assert caps[..i] == caps;
  }

  /** A name goes on the last line if there is room, on a new one otherwise. */
  method AddToLines(lines: seq<string>, cap: string) returns (more: seq<string>)
    requires lines != []
    ensures more == AddCap(lines, cap)
  {
    var line := lines[|lines| - 1];
    if |line| + |cap| > MAX_CAPS {
      return lines + [cap];
    }
    if line != "" {
      line := line + " ";
    }
    return lines[|lines| - 1 := line + cap];
  }

  lemma OneMore(caps: seq<string>, i: nat)
    requires i < |caps|
    ensures caps[..i + 1] == caps[..i] + [caps[i]]
  {
  }

  lemma StaysPacked(groups: seq<seq<string>>, lines: seq<string>, cap: string)
    requires lines != [] && Packed(groups, lines)
    ensures Packed(AddToGroups(groups, lines, cap), AddCap(lines, cap))
    ensures Flatten(AddToGroups(groups, lines, cap)) == Flatten(groups) + [cap]
  {
    StaysGlued(groups, lines, cap);
    StaysGreedy(groups, lines, cap);
    var last := |lines| - 1;
    if |lines[last]| + |cap| > MAX_CAPS {
      FlattenNew(groups, cap);
    } else {
      FlattenLast(groups, cap);
    }
  }

  lemma StaysGlued(groups: seq<seq<string>>, lines: seq<string>, cap: string)
    requires lines != [] && Glued(groups, lines)
    ensures Glued(AddToGroups(groups, lines, cap), AddCap(lines, cap))
  {
    var last := |lines| - 1;
    assert [cap][..0] == [] && Glue([]) == "";
    assert Glue([cap]) == cap;
    assert (groups[last] + [cap])[..|groups[last]|] == groups[last];
  }

  lemma StaysGreedy(groups: seq<seq<string>>, lines: seq<string>, cap: string)
    requires lines != [] && Greedy(groups, lines)
    ensures Greedy(AddToGroups(groups, lines, cap), AddCap(lines, cap))
  {
  }

  lemma FlattenNew(groups: seq<seq<string>>, cap: string)
    ensures Flatten(groups + [[cap]]) == Flatten(groups) + [cap]
  {
    assert (groups + [[cap]])[..|groups|] == groups;
  }

  lemma FlattenLast(groups: seq<seq<string>>, cap: string)
    requires groups != []
    ensures var last := |groups| - 1;
            Flatten(groups[last := groups[last] + [cap]]) == Flatten(groups) + [cap]
  {
    var last := |groups| - 1;
    assert groups[last := groups[last] + [cap]][..last] == groups[..last];
    Associative(Flatten(groups[..last]), groups[last], [cap]);
  }

  // ----- Receivers that split the lines see the names -----

  predicate Names(names: seq<string>) {
    forall i :: 0 <= i < |names| ==> names[i] != "" && ' ' !in names[i]
  }

  function SplitAll(lines: seq<string>): seq<string> {
    if lines == [] then [] else SplitAll(lines[..|lines| - 1]) + Split(lines[|lines| - 1], ' ')
  }

  lemma {:induction false} SplitAppend(a: string, b: string)
    ensures Split(a + " " + b, ' ') == Split(a, ' ') + Split(b, ' ')
    decreases |a|
  {
    if a == "" {
      assert a + " " + b == [' '] + b;
      SplitSkip(' ', b);
    } else if a[0] == ' ' {
      assert a == [' '] + a[1..];
      assert a + " " + b == [' '] + (a[1..] + " " + b);
      SplitSkip(' ', a[1..]);
      SplitSkip(' ', a[1..] + " " + b);
      SplitAppend(a[1..], b);
    } else {
      var word, rest := Before(a, ' '), From(a, ' ');
      BeforePrefix(a, ' ');
      SplitAppend(rest, b);
      SplitAppendWord(word, rest, rest + " " + b, Split(b, ' '));
      Regroup(a, word, rest, b);
    }
  }

  lemma Regroup(a: string, word: string, rest: string, b: string)
    requires word <= a && rest == a[|word|..]
    ensures a == word + rest && a + " " + b == word + (rest + " " + b)
  {
  }

  lemma SplitAppendWord(word: string, rest: string, more: string, last: seq<string>)
    requires word != "" && ' ' !in word && (rest == "" || rest[0] == ' ')
    requires more != "" && more[0] == ' ' && Split(more, ' ') == Split(rest, ' ') + last
    ensures Split(word + more, ' ') == Split(word + rest, ' ') + last
  {
    SplitFront(word, ' ', rest);
    SplitFront(word, ' ', more);
    Associative([word], Split(rest, ' '), last);
  }

  lemma SplitWord(name: string)
    requires name != "" && ' ' !in name
    ensures Split(name, ' ') == [name]
  {
    SplitFront(name, ' ', "");
    assert name + "" == name;
    assert Split("", ' ') == [];
  }

  lemma {:induction false} SplitGlue(names: seq<string>)
    requires Names(names)
    ensures Split(Glue(names), ' ') == names
  {
    if names != [] {
      var n := |names| - 1;
      SplitGlue(names[..n]);
      SplitWord(names[n]);
      assert names == names[..n] + [names[n]];
      if Glue(names[..n]) != "" {
        SplitAppend(Glue(names[..n]), names[n]);
      } else {
        assert Split("", ' ') == [];
        assert "" + names[n] == names[n];
      }
    }
  }

  /** Splitting the lines on spaces gives back the names in order. */
  lemma {:induction false} PackedSplits(groups: seq<seq<string>>, lines: seq<string>)
    requires |groups| == |lines| && forall i :: 0 <= i < |lines| ==> lines[i] == Glue(groups[i])
    requires Names(Flatten(groups))
    ensures SplitAll(lines) == Flatten(groups)
  {
    if groups != [] {
      var n := |groups| - 1;
      var init := Flatten(groups[..n]);
      assert forall i :: 0 <= i < |init| ==> init[i] == Flatten(groups)[i];
      assert forall i :: 0 <= i < |groups[n]| ==> groups[n][i] == Flatten(groups)[|init| + i];
      PackedSplits(groups[..n], lines[..n]);
      SplitGlue(groups[n]);
    }
  }

  // ----- CAP REQ -----

  function CapName(token: string): string { TrimPrefix(token, "-") }

  predicate Enables(token: string) { !StartsWith(token, "-") }

  function Apply(accepted: set<string>, tokens: seq<string>): set<string> {
    if tokens == [] then accepted
    else
      var before := Apply(accepted, tokens[..|tokens| - 1]);
      var token := tokens[|tokens| - 1];
      if Enables(token) then before + {CapName(token)} else before - {CapName(token)}
  }

  /** A name on its own asks to switch that capability on, behind a minus sign to switch it off. */
  predicate CanSwitch(token: string, supported: set<(string, bool)>) {
    if token != "" && token[0] == '-' then (token[1..], false) in supported else (token, true) in supported
  }

  predicate SwitchesOn(token: string, cap: string) {
    token == cap && (cap == "" || cap[0] != '-')
  }

  predicate SwitchesOff(token: string, cap: string) {
    token == "-" + cap
  }

  predicate Mentions(token: string, cap: string) {
    SwitchesOn(token, cap) || SwitchesOff(token, cap)
  }

  predicate Unmentioned(tokens: seq<string>, cap: string) {
    forall i :: 0 <= i < |tokens| ==> !Mentions(tokens[i], cap)
  }

  /** The k-th token is the last one that mentions the capability. */
  predicate LastMention(tokens: seq<string>, cap: string, k: nat) {
    k < |tokens| && Mentions(tokens[k], cap) && Unmentioned(tokens[k + 1..], cap)
  }

  /** What becomes of a capability: as the last token that mentions it says, as before without one. */
  ghost predicate Decided(tokens: seq<string>, cap: string, before: bool, after: bool) {
    && (Unmentioned(tokens, cap) ==> after == before)
    && forall k: nat :: LastMention(tokens, cap, k) ==> after == SwitchesOn(tokens[k], cap)
  }

  class CapState {
    var accepted: set<string>

    /** A request is granted as a whole or changes nothing: granted if every name can be switched on,
        every name behind a minus sign can be switched off; then the last token that mentions a
        capability decides. */
    method Request(tokens: seq<string>, supported: set<(string, bool)>) returns (ack: bool)
      modifies this
      ensures ack <==> forall i :: 0 <= i < |tokens| ==> CanSwitch(tokens[i], supported)
      ensures !ack ==> accepted == old(accepted)
      ensures ack ==> forall cap :: Decided(tokens, cap, cap in old(accepted), cap in accepted)
    {
      var i := 0;
      while i < |tokens|
        invariant i <= |tokens| && accepted == old(accepted)
        invariant forall j :: 0 <= j < i ==> CanSwitch(tokens[j], supported)
      {
        CanSwitchIs(tokens[i], supported);
        if (CapName(tokens[i]), Enables(tokens[i])) !in supported {
          return false;
        }
        i := i + 1;
      }
      i := 0;
      while i < |tokens|
        invariant i <= |tokens| && accepted == Apply(old(accepted), tokens[..i])
      {
        assert tokens[..i + 1][..i] == tokens[..i];
        if Enables(tokens[i]) {
          accepted := accepted + {CapName(tokens[i])};
        } else {
          accepted := accepted - {CapName(tokens[i])};
        }
        i := i + 1;
      }
      assert tokens[..i] == tokens;
      forall cap ensures Decided(tokens, cap, cap in old(accepted), cap in accepted) {
        LastMentionDecides(old(accepted), tokens, cap);
      }
      return true;
    }
  }

  lemma DashIs(token: string)
    ensures Enables(token) <==> !(token != "" && token[0] == '-')
    ensures CapName(token) == if token != "" && token[0] == '-' then token[1..] else token
  {
    StartsWithExact(token, "-");
    if token != "" {
      assert token[..1] == [token[0]];
    }
  }

  lemma CanSwitchIs(token: string, supported: set<(string, bool)>)
    ensures CanSwitch(token, supported) <==> (CapName(token), Enables(token)) in supported
  {
    DashIs(token);
  }

  lemma MentionIs(token: string, cap: string)
    ensures SwitchesOn(token, cap) <==> CapName(token) == cap && Enables(token)
    ensures SwitchesOff(token, cap) <==> CapName(token) == cap && !Enables(token)
  {
    DashIs(token);
    if token != "" && token[0] == '-' {
      assert token == "-" + token[1..];
    }
    assert ("-" + cap)[0] == '-' && ("-" + cap)[1..] == cap;
  }

  lemma UnmentionedFront(tokens: seq<string>, cap: string)
    requires tokens != []
    ensures var n := |tokens| - 1;
            Unmentioned(tokens, cap) <==> Unmentioned(tokens[..n], cap) && !Mentions(tokens[n], cap)
  {
    var n := |tokens| - 1;
    assert tokens == tokens[..n] + [tokens[n]];
  }

  lemma LastMentionFront(tokens: seq<string>, cap: string, k: nat)
    requires LastMention(tokens, cap, k)
    ensures var n := |tokens| - 1;
            if Mentions(tokens[n], cap) then k == n else k < n && LastMention(tokens[..n], cap, k)
  {
    var n := |tokens| - 1;
    if k < n {
      UnmentionedFront(tokens[k + 1..], cap);
      assert tokens[k + 1..][n - k - 1] == tokens[n];
      assert tokens[k + 1..][..n - k - 1] == tokens[..n][k + 1..];
    }
  }

  lemma LastToken(accepted: set<string>, tokens: seq<string>, cap: string)
    requires tokens != []
    ensures var before, token := tokens[..|tokens| - 1], tokens[|tokens| - 1];
            (cap in Apply(accepted, tokens))
              == (if Mentions(token, cap) then SwitchesOn(token, cap) else cap in Apply(accepted, before))
  {
    MentionIs(tokens[|tokens| - 1], cap);
  }

  /** The last token that mentions a capability decides whether it is accepted; no token, no change. */
  lemma {:induction false} LastMentionDecides(accepted: set<string>, tokens: seq<string>, cap: string)
    ensures Decided(tokens, cap, cap in accepted, cap in Apply(accepted, tokens))
  {
    if tokens != [] {
      var before := tokens[..|tokens| - 1];
      LastToken(accepted, tokens, cap);
      LastMentionDecides(accepted, before, cap);
      UnmentionedFront(tokens, cap);
      forall k: nat | LastMention(tokens, cap, k)
        ensures cap in Apply(accepted, tokens) <==> SwitchesOn(tokens[k], cap)
      {
        LastMentionFront(tokens, cap, k);
        assert k < |before| ==> LastMention(before, cap, k) && before[k] == tokens[k];
      }
    }
  }
}
