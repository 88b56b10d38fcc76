/** The sasl module's side of a connection to a server: which mechanisms it asks for, and when it
    lets capability negotiation go on. */
module SaslModule {
  import opened Common

  datatype Event = CapResult(success: bool) | Numeric(code: nat) | Connected | Disconnected

  datatype Output = Authenticate(mechanism: string) | PauseCap | ResumeCap | Quit

  datatype State = State(mechanisms: seq<string>, index: nat, authenticated: bool) {
    /** `GetCurrent` never reaches beyond the list. */
    predicate Valid() {
      mechanisms == [] || index < |mechanisms|
    }
  }

  datatype Settings = Settings(configured: seq<string>, requireAuth: bool)

  datatype Result = Result(state: State, outputs: seq<Output>)

  function CheckRequireAuth(s: State, settings: Settings): seq<Output> {
    if !s.authenticated && settings.requireAuth then [Quit] else []
  }

  predicate Succeeds(code: nat) { code == 903 || code == 907 }

  predicate Fails(code: nat) { code == 904 || code == 905 }

  function OnNumeric(s: State, settings: Settings, code: nat): (r: Result)
    requires s.Valid()
    ensures r.state.Valid() && r.state.mechanisms == s.mechanisms
  {
    if s.mechanisms == [] then Result(s, [])
    else if Succeeds(code) then Result(s.(authenticated := true), [ResumeCap])
    else if Fails(code) then
      if s.index + 1 < |s.mechanisms| then
        Result(s.(index := s.index + 1), [Authenticate(s.mechanisms[s.index + 1])])
      else Result(s, CheckRequireAuth(s, settings) + [ResumeCap])
    else if code == 906 then Result(s, CheckRequireAuth(s, settings))
    else Result(s, [])
  }

  function Step(s: State, settings: Settings, e: Event): (r: Result)
    requires s.Valid()
    ensures r.state.Valid()
  {
    match e
    case CapResult(success) =>
      if !success then Result(s, CheckRequireAuth(s, settings))
      else if settings.configured == [] then Result(s.(mechanisms := []), CheckRequireAuth(s, settings))
      else Result(State(settings.configured, 0, s.authenticated),
                  [PauseCap, Authenticate(settings.configured[0])])
    case Numeric(code) => OnNumeric(s, settings, code)
    case Connected => Result(s, CheckRequireAuth(s, settings))
    case Disconnected => Result(s.(authenticated := false), [])
  }

  class CSASLMod {
    const settings: Settings
    var mechanisms: seq<string>
    var index: nat
    var authenticated: bool
    var sent: seq<Output>

    ghost function Value(): State
      reads this
    {
      State(mechanisms, index, authenticated)
    }

    constructor (settings: Settings)
      ensures this.settings == settings && Value() == State([], 0, false) && sent == []
    {
      this.settings, mechanisms, index, authenticated, sent := settings, [], 0, false, [];
    }

    method RequireAuth()
      modifies `sent
      ensures sent == old(sent) + CheckRequireAuth(Value(), settings)
    {
      if !authenticated && settings.requireAuth {
        sent := sent + [Quit];
      }
    }

    method OnServerCapResult(success: bool)
      requires Value().Valid()
      modifies this
      ensures Value() == Step(old(Value()), settings, CapResult(success)).state
      ensures sent == old(sent) + Step(old(Value()), settings, CapResult(success)).outputs
    {
      if success {
        mechanisms := settings.configured;
        if mechanisms == [] {
          RequireAuth();
          return;
        }
        sent := sent + [PauseCap];
        index := 0;
        sent := sent + [Authenticate(mechanisms[index])];
      } else {
        RequireAuth();
      }
    }

    method OnNumericMessage(code: nat)
      requires Value().Valid()
      modifies this
      ensures Value() == OnNumeric(old(Value()), settings, code).state
      ensures sent == old(sent) + OnNumeric(old(Value()), settings, code).outputs
    {
      if mechanisms == [] {
        return;
      }
      if code == 903 {
        sent := sent + [ResumeCap];
        authenticated := true;
      } else if code == 904 || code == 905 {
        if index + 1 < |mechanisms| {
          index := index + 1;
          sent := sent + [Authenticate(mechanisms[index])];
        } else {
          RequireAuth();
          sent := sent + [ResumeCap];
        }
      } else if code == 906 {
        RequireAuth();
      } else if code == 907 {
        authenticated := true;
        sent := sent + [ResumeCap];
      }
    }
  }

  // ----- single events ---------------------------------------------------------------------

  /** The user is sent away if authentication is required and has not happened. */
  predicate Leaves(s: State, settings: Settings, outputs: seq<Output>) {
    outputs == if settings.requireAuth && !s.authenticated then [Quit] else []
  }

  /** 903 and 907 authenticate and resume negotiation; 904 and 905 go on to the next mechanism, and
      after the last one resume negotiation and perhaps send the user away; 906 only does the latter;
      other numerics do nothing, and none does without a negotiation. */
  lemma NumericMeans(s: State, settings: Settings, code: nat)
    requires s.Valid()
    ensures var r := OnNumeric(s, settings, code);
            && (s.mechanisms == [] || code !in {903, 904, 905, 906, 907} ==> r == Result(s, []))
            && (s.mechanisms != [] && code in {903, 907} ==>
                  r.state == State(s.mechanisms, s.index, true) && r.outputs == [ResumeCap])
            && (s.mechanisms != [] && code in {904, 905} && s.index < |s.mechanisms| - 1 ==>
                  && r.state == State(s.mechanisms, s.index + 1, s.authenticated)
                  && r.outputs == [Authenticate(s.mechanisms[s.index + 1])])
            && (s.mechanisms != [] && code in {904, 905} && s.index == |s.mechanisms| - 1 ==>
                  && r.state == s && r.outputs != [] && r.outputs[|r.outputs| - 1] == ResumeCap
                  && Leaves(s, settings, r.outputs[..|r.outputs| - 1]))
            && (s.mechanisms != [] && code == 906 ==> r.state == s && Leaves(s, settings, r.outputs))
  {
  }

  /** The capability begins a negotiation with the first configured mechanism; refused, or with
      nothing configured, it may send the user away, and so may the connection being ready. */
  lemma EventMeans(s: State, settings: Settings)
    requires s.Valid()
    ensures var r := Step(s, settings, CapResult(true));
            if settings.configured == [] then
              r.state == State([], s.index, s.authenticated) && Leaves(s, settings, r.outputs)
            else
              && r.state == State(settings.configured, 0, s.authenticated)
              && r.outputs == [PauseCap, Authenticate(settings.configured[0])]
    ensures var r := Step(s, settings, CapResult(false)); r.state == s && Leaves(s, settings, r.outputs)
    ensures var r := Step(s, settings, Connected); r.state == s && Leaves(s, settings, r.outputs)
    ensures Step(s, settings, Disconnected) == Result(State(s.mechanisms, s.index, false), [])
  {
  }

  function RunEvents(s: State, settings: Settings, events: seq<Event>): (r: Result)
    requires s.Valid()
    ensures r.state.Valid()
    decreases |events|
  {
    if events == [] then Result(s, [])
    else
      var first := Step(s, settings, events[0]);
      var rest := RunEvents(first.state, settings, events[1..]);
      Result(rest.state, first.outputs + rest.outputs)
  }

  predicate IsSuccess(e: Event) {
    e.Numeric? && (e.code == 903 || e.code == 907)
  }

  /** Over every run without a disconnect: the user is authenticated only if it was before or the
      server has reported a success, and once authenticated it stays so and is not sent away. */
  lemma {:induction false} StaysAuthenticated(s: State, settings: Settings, events: seq<Event>)
    requires s.Valid() && Disconnected !in events
    ensures var r := RunEvents(s, settings, events);
            && (s.authenticated ==> r.state.authenticated && Quit !in r.outputs)
            && (r.state.authenticated ==> s.authenticated || exists e :: e in events && IsSuccess(e))
            && (!settings.requireAuth ==> Quit !in r.outputs)
    decreases |events|
  {
    if events != [] {
      var e, next := events[0], Step(s, settings, events[0]).state;
      assert e in events;
      StaysAuthenticated(next, settings, events[1..]);
      if next.authenticated && !s.authenticated {
        assert IsSuccess(e);
      }
    }
  }

  // ----- one negotiation -------------------------------------------------------------------

  /** The numerics that follow. */
  function Run(s: State, settings: Settings, codes: seq<nat>): (r: Result)
    requires s.Valid()
    ensures r.state.Valid()
    decreases |codes|
  {
    if codes == [] then Result(s, [])
    else
      var first := OnNumeric(s, settings, codes[0]);
      var rest := Run(first.state, settings, codes[1..]);
      Result(rest.state, first.outputs + rest.outputs)
  }

  function One(b: bool): nat {
    if b then 1 else 0
  }

  function Failures(codes: seq<nat>): nat {
    if codes == [] then 0 else One(Fails(codes[0])) + Failures(codes[1..])
  }

  function Successes(codes: seq<nat>): nat {
    if codes == [] then 0 else One(Succeeds(codes[0])) + Successes(codes[1..])
  }

  function AskedBy(o: Output): seq<string> {
    if o.Authenticate? then [o.mechanism] else []
  }

  /** The mechanisms asked for. */
  function Asked(outputs: seq<Output>): seq<string> {
    if outputs == [] then [] else AskedBy(outputs[0]) + Asked(outputs[1..])
  }

  function Resumed(outputs: seq<Output>): nat {
    if outputs == [] then 0 else One(outputs[0].ResumeCap?) + Resumed(outputs[1..])
  }

  lemma OutputsFront(o: Output, more: seq<Output>)
    ensures Asked([o] + more) == AskedBy(o) + Asked(more)
    ensures Resumed([o] + more) == One(o.ResumeCap?) + Resumed(more)
  {
    assert ([o] + more)[1..] == more;
  }

  lemma {:induction false} OutputsConcat(a: seq<Output>, b: seq<Output>)
    ensures Asked(a + b) == Asked(a) + Asked(b) && Resumed(a + b) == Resumed(a) + Resumed(b)
  {
    if a == [] {
      assert a + b == b;
    } else {
      OutputsConcat(a[1..], b);
      FrontConcat(a[0], a[1..], b);
      assert [a[0]] + a[1..] == a;
    }
  }

  lemma FrontConcat(o: Output, more: seq<Output>, b: seq<Output>)
    requires Asked(more + b) == Asked(more) + Asked(b) && Resumed(more + b) == Resumed(more) + Resumed(b)
    ensures var a := [o] + more;
            Asked(a + b) == Asked(a) + Asked(b) && Resumed(a + b) == Resumed(a) + Resumed(b)
  {
    OutputsFront(o, more);
    OutputsFront(o, more + b);
    Associative([o], more, b);
    Associative(AskedBy(o), Asked(more), Asked(b));
  }

  lemma OneOutput(o: Output)
    ensures Asked([o]) == AskedBy(o) && Resumed([o]) == One(o.ResumeCap?)
  {
    assert [o][1..] == [];
  }

  function Between(m: seq<string>, a: nat, b: nat): (r: seq<string>)
    requires a <= b <= |m|
    ensures |r| == b - a
  {
    m[a..b]
  }

  /** What a stretch with so many failures and successes does: every failure asks for the next
      mechanism while there is one; every success, and every failure after the last mechanism,
      resumes negotiation; and a success is what authenticates. */
  predicate Accounts(s: State, r: Result, failures: nat, successes: nat)
    requires s.Valid() && s.mechanisms != []
  {
    && Counts(s, r.state, Resumed(r.outputs), failures, successes)
    && Asked(r.outputs) == Between(s.mechanisms, s.index + 1, r.state.index + 1)
  }

  /** The numbers among them. */
  predicate Counts(s: State, t: State, resumed: nat, failures: nat, successes: nat)
    requires s.Valid() && s.mechanisms != []
  {
    && t.Valid() && t.mechanisms == s.mechanisms
    && s.index <= t.index == Min(s.index + failures, |s.mechanisms| - 1)
    && s.index + failures + successes == t.index + resumed
    && (t.authenticated <==> s.authenticated || successes > 0)
  }

  lemma CountsAdd(s: State, t: State, u: State, r1: nat, f1: nat, s1: nat, r2: nat, f2: nat, s2: nat)
    requires s.Valid() && s.mechanisms != [] && Counts(s, t, r1, f1, s1) && Counts(t, u, r2, f2, s2)
    ensures Counts(s, u, r1 + r2, f1 + f2, s1 + s2)
  {
  }

  lemma NothingAccounts(s: State)
    requires s.Valid() && s.mechanisms != []
    ensures Accounts(s, Result(s, []), 0, 0)
  {
  }

  lemma NumericAccounts(s: State, settings: Settings, code: nat)
    requires s.Valid() && s.mechanisms != []
    ensures Accounts(s, OnNumeric(s, settings, code), One(Fails(code)), One(Succeeds(code)))
  {
    OneOutput(ResumeCap);
    CheckResumes(s, settings);
    if s.index + 1 < |s.mechanisms| {
      OneOutput(Authenticate(s.mechanisms[s.index + 1]));
    }
  }

  lemma CheckResumes(s: State, settings: Settings)
    ensures var check := CheckRequireAuth(s, settings);
            && Asked(check) == [] && Resumed(check) == 0
            && Asked(check + [ResumeCap]) == [] && Resumed(check + [ResumeCap]) == 1
  {
    OneOutput(ResumeCap);
    OneOutput(Quit);
    OutputsConcat(CheckRequireAuth(s, settings), [ResumeCap]);
  }

  lemma Compose(s: State, first: Result, rest: Result, f1: nat, s1: nat, f2: nat, s2: nat)
    requires s.Valid() && s.mechanisms != [] && Accounts(s, first, f1, s1)
    requires Accounts(first.state, rest, f2, s2)
    ensures Accounts(s, Result(rest.state, first.outputs + rest.outputs), f1 + f2, s1 + s2)
  {
    CountsAdd(s, first.state, rest.state, Resumed(first.outputs), f1, s1, Resumed(rest.outputs), f2, s2);
    ComposeAsked(s.mechanisms, s.index, first.state.index, rest.state.index, first.outputs, rest.outputs);
  }

  lemma ComposeAsked(m: seq<string>, i: nat, j: nat, k: nat, first: seq<Output>, rest: seq<Output>)
    requires i <= j <= k < |m| && Asked(first) == Between(m, i + 1, j + 1) && Asked(rest) == Between(m, j + 1, k + 1)
    ensures Asked(first + rest) == Between(m, i + 1, k + 1)
    ensures Resumed(first + rest) == Resumed(first) + Resumed(rest)
  {
    Join(m, i + 1, j + 1, k + 1);
    AskedJoin(first, rest, Between(m, i + 1, j + 1), Between(m, j + 1, k + 1), Between(m, i + 1, k + 1));
  }

  lemma Join(m: seq<string>, a: nat, b: nat, c: nat)
    requires a <= b <= c <= |m|
    ensures Between(m, a, b) + Between(m, b, c) == Between(m, a, c)
  {
  }

  lemma AskedJoin(first: seq<Output>, rest: seq<Output>, x: seq<string>, y: seq<string>, both: seq<string>)
    requires Asked(first) == x && Asked(rest) == y && x + y == both
    ensures Asked(first + rest) == both && Resumed(first + rest) == Resumed(first) + Resumed(rest)
  {
    OutputsConcat(first, rest);
  }

  lemma OneMore(s: State, settings: Settings, code: nat, rest: Result, failures: nat, successes: nat)
    requires s.Valid() && s.mechanisms != []
    requires Accounts(OnNumeric(s, settings, code).state, rest, failures, successes)
    ensures Accounts(s, Result(rest.state, OnNumeric(s, settings, code).outputs + rest.outputs),
                     One(Fails(code)) + failures, One(Succeeds(code)) + successes)
  {
    NumericAccounts(s, settings, code);
    Compose(s, OnNumeric(s, settings, code), rest, One(Fails(code)), One(Succeeds(code)), failures, successes);
  }

  lemma {:induction false} RunAccounts(s: State, settings: Settings, codes: seq<nat>)
    requires s.Valid() && s.mechanisms != []
    ensures Accounts(s, Run(s, settings, codes), Failures(codes), Successes(codes))
    decreases |codes|
  {
    if codes == [] {
      NothingAccounts(s);
    } else {
      var code, more := codes[0], codes[1..];
      var next := OnNumeric(s, settings, code).state;
      RunAccounts(next, settings, more);
      OneMore(s, settings, code, Run(next, settings, more), Failures(more), Successes(more));
    }
  }

  lemma Opening(mechanism: string)
    ensures var outputs := [PauseCap, Authenticate(mechanism)];
            Asked(outputs) == [mechanism] && Resumed(outputs) == 0
  {
    OneOutput(Authenticate(mechanism));
    OutputsFront(PauseCap, [Authenticate(mechanism)]);
    assert [PauseCap] + [Authenticate(mechanism)] == [PauseCap, Authenticate(mechanism)];
  }

  lemma AfterOpening(mechanisms: seq<string>, opening: seq<Output>, outputs: seq<Output>, last: nat)
    requires last < |mechanisms| && Asked(opening) == [mechanisms[0]] && Resumed(opening) == 0
    requires Asked(outputs) == Between(mechanisms, 1, last + 1)
    ensures Asked(opening + outputs) == mechanisms[..last + 1] && Resumed(opening + outputs) == Resumed(outputs)
  {
    OutputsConcat(opening, outputs);
    assert mechanisms[..last + 1] == [mechanisms[0]] + mechanisms[1..last + 1];
  }

  /** A negotiation from the server's acknowledgement of the capability on: the mechanisms asked for
      are the first ones configured, each once and in order, and the pause is balanced by exactly one
      resumption if and only if exactly one numeric ends it: a success, or a failure of the last
      mechanism. */
  lemma Negotiation(s: State, settings: Settings, codes: seq<nat>)
    requires s.Valid() && settings.configured != []
    ensures var ack := Step(s, settings, CapResult(true));
            var r := Run(ack.state, settings, codes);
            var all := ack.outputs + r.outputs;
            var last := |settings.configured| - 1;
            && Asked(all) == settings.configured[..Min(Failures(codes), last) + 1]
            && (Resumed(all) == 1 <==>
                 if Failures(codes) <= last then Successes(codes) == 1
                 else Failures(codes) + Successes(codes) == last + 1)
            && (r.state.authenticated <==> s.authenticated || Successes(codes) > 0)
  {
    var ack := Step(s, settings, CapResult(true));
    RunAccounts(ack.state, settings, codes);
    var r := Run(ack.state, settings, codes);
    Opening(settings.configured[0]);
    AfterOpening(settings.configured, ack.outputs, r.outputs, r.state.index);
  }

  /** An aborted exchange leaves negotiation paused. */
  lemma AbortNeverResumes(s: State, settings: Settings)
    requires s.Valid() && s.mechanisms != []
    ensures Resumed(Run(s, settings, [906]).outputs) == 0
  {
    RunAccounts(s, settings, [906]);
    assert [906][1..] == [];
  }

  /** A success that is reported twice resumes it twice. */
  lemma TwoSuccessesResumeTwice(s: State, settings: Settings)
    requires s.Valid() && s.mechanisms != []
    ensures Resumed(Run(s, settings, [903, 907]).outputs) == 2
  {
    RunAccounts(s, settings, [903, 907]);
    assert [903, 907][1..] == [907] && [907][1..] == [];
  }
}
