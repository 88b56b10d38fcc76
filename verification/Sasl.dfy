/** SASL on a client connection: framing of payloads into 400-character lines, their reassembly,
    and the session around it. */
module Sasl {
  import opened Octets
  import opened Strings
  import Base64

  const MAX_LINE := 400
  const MAX_RESPONSE := 10240

  // ----- Framing -----

  /** The AUTHENTICATE lines of an encoded payload: full lines, then a shorter one, `+` if that
      would be empty. */
  function Chunks(s: string): (lines: seq<string>)
    ensures lines != []
    decreases |s|
  {
    if |s| < MAX_LINE then [if s == "" then "+" else s]
    else [s[..MAX_LINE]] + Chunks(s[MAX_LINE..])
  }

  lemma ChunksAt(s: string, offset: nat, lines: seq<string>)
    requires offset + MAX_LINE <= |s|
    ensures lines + Chunks(s[offset..])
         == lines + [s[offset..offset + MAX_LINE]] + Chunks(s[offset + MAX_LINE..])
  {
    var rest := s[offset..];
    assert rest[..MAX_LINE] == s[offset..offset + MAX_LINE] && rest[MAX_LINE..] == s[offset + MAX_LINE..];
    assert Chunks(rest) == [s[offset..offset + MAX_LINE]] + Chunks(s[offset + MAX_LINE..]);
  }

  /** The chunk loop of both senders. */
  method SendChunks(s: string) returns (lines: seq<string>)
    ensures lines == Chunks(s)
  {
    lines := [];
    var offset := 0;
    ghost var total := Chunks(s);
    while offset + MAX_LINE <= |s|
      invariant 0 <= offset <= |s| && offset % MAX_LINE == 0
      invariant lines + Chunks(s[offset..]) == total
    {
      ChunksAt(s, offset, lines);
      lines := lines + [s[offset..offset + MAX_LINE]];
      offset := offset + MAX_LINE;
    }
    if offset < |s| {
      lines := lines + [s[offset..]];
    }
    if |s| % MAX_LINE == 0 {
      lines := lines + ["+"];
    }
  }

  // ----- The session -----

  datatype Session = Session(
    cap: bool,            // the sasl capability is enabled
    attached: bool,       // the client has logged in
    mechanism: string,    // in progress, empty if none
    buffer: string,       // encoded text received so far
    user: string,         // who authenticated with SASL
    failed: set<string>)  // mechanisms refused on this connection

  const FRESH := Session(false, false, "", "", "", {})

  /** What modules answer to a dispatched response, now or later. */
  datatype Verdict = Refuse | Accept(user: string)

  /** The surroundings of one message: the offered mechanisms, whether a module answers the start
      of a mechanism itself, the challenge otherwise, and the verdicts given meanwhile. */
  datatype Env = Env(mechanisms: set<string>, handled: bool, challenge: seq<Byte>, verdicts: seq<Verdict>)

  datatype Output =
    | Numeric(code: nat)
    | Line(text: string)
    | Dispatch(mechanism: string, payload: seq<Byte>)
    | Aborted
    | Refused(mechanism: string)
    | Accepted(user: string)

  datatype Event =
    | Message(text: string, env: Env)
    | Late(verdict: Verdict)
    | SetCap(on: bool)
    | CapEnd
    | Login

  datatype Reaction = Reaction(session: Session, outputs: seq<Output>)

  function Abort(s: Session, code: nat): Reaction {
    Reaction(s.(mechanism := "", buffer := ""), [Numeric(code), Aborted])
  }

  function Judge(s: Session, v: Verdict): Reaction {
    match v
    case Refuse =>
      Reaction(s.(failed := s.failed + {s.mechanism}, mechanism := "", buffer := ""),
               [Numeric(904), Refused(s.mechanism)])
    case Accept(user) =>
      Reaction(s.(mechanism := "", buffer := "", user := user),
               [Numeric(900), Numeric(903), Accepted(user)])
  }

  function JudgeAll(s: Session, vs: seq<Verdict>): Reaction
    decreases |vs|
  {
    if vs == [] then Reaction(s, [])
    else
      var first := Judge(s, vs[0]);
      var rest := JudgeAll(first.session, vs[1..]);
      Reaction(rest.session, first.outputs + rest.outputs)
  }

  function LineOutputs(lines: seq<string>): (r: seq<Output>)
    ensures |r| == |lines|
  {
    if lines == [] then [] else [Line(lines[0])] + LineOutputs(lines[1..])
  }

  /** A message naming a mechanism, none being in progress. */
  function Begin(s: Session, name: string, env: Env): Reaction {
    var idle := s.(mechanism := "", buffer := "");
    if name in s.failed then Reaction(idle, [Numeric(904)])
    else if name !in env.mechanisms then Reaction(idle, [Numeric(908), Numeric(904)])
    else
      var judged := JudgeAll(s.(mechanism := name), env.verdicts);
      Reaction(judged.session,
               judged.outputs + (if env.handled then [] else LineOutputs(Chunks(Base64.Encode(env.challenge)))))
  }

  /** A message continuing the response to the mechanism in progress. */
  function Continue(s: Session, text: string, env: Env): Reaction {
    if |s.buffer| + |text| > MAX_RESPONSE then Abort(s, 904)
    else if |text| == MAX_LINE then Reaction(s.(buffer := s.buffer + text), [])
    else
      var response := if text == "+" then s.buffer else s.buffer + text;
      var judged := JudgeAll(s.(buffer := ""), env.verdicts);
      Reaction(judged.session, [Dispatch(s.mechanism, Base64.Decode(response))] + judged.outputs)
  }

  function OnMessage(s: Session, text: string, env: Env): Reaction {
    if !s.cap then Reaction(s, [Numeric(904)])
    else if s.user != "" || s.attached then Reaction(s, [Numeric(907)])
    else if EqualsNoCase(text, "*") then Abort(s, 906)
    else if |text| > MAX_LINE then Abort(s, 905)
    else if s.mechanism == "" then Begin(s, text, env)
    else Continue(s, text, env)
  }

  function AbortIfBusy(s: Session): Reaction {
    if s.mechanism != "" then Abort(s, 904) else Reaction(s, [])
  }

  function Step(s: Session, e: Event): Reaction {
    match e
    case Message(text, env) => OnMessage(s, text, env)
    case Late(v) => Judge(s, v)
    case SetCap(on) =>
      var r := if on then Reaction(s, []) else AbortIfBusy(s);
      Reaction(r.session.(cap := on), r.outputs)
    case CapEnd => if s.attached then Reaction(s, []) else AbortIfBusy(s)
    case Login => Reaction(s.(attached := true, mechanism := "", buffer := "", user := ""), [])
  }

  function Run(s: Session, events: seq<Event>): Reaction
    decreases |events|
  {
    if events == [] then Reaction(s, [])
    else
      var first := Step(s, events[0]);
      var rest := Run(first.session, events[1..]);
      Reaction(rest.session, first.outputs + rest.outputs)
  }

  // ----- The client object -----

  class Client {
    var saslCap: bool
    var attached: bool
    var mechanism: string
    var buffer: string
    var saslUser: string
    var failedMechanisms: set<string>
    var sent: seq<Output>

    function State(): Session
      reads this
    {
      Session(saslCap, attached, mechanism, buffer, saslUser, failedMechanisms)
    }

    constructor ()
      ensures State() == FRESH && sent == []
    {
      saslCap, attached, mechanism, buffer, saslUser := false, false, "", "", "";
      failedMechanisms, sent := {}, [];
    }

    method AbortSASL(code: nat)
      modifies this
      ensures State() == Abort(old(State()), code).session
      ensures sent == old(sent) + Abort(old(State()), code).outputs
    {
      sent := sent + [Numeric(code)];
      sent := sent + [Aborted];
      mechanism := "";
      buffer := "";
    }

    method RefuseSASLLogin()
      modifies this
      ensures State() == Judge(old(State()), Refuse).session
      ensures sent == old(sent) + Judge(old(State()), Refuse).outputs
    {
      sent := sent + [Numeric(904), Refused(mechanism)];
      failedMechanisms := failedMechanisms + {mechanism};
      mechanism := "";
      buffer := "";
    }

    method AcceptSASLLogin(user: string)
      modifies this
      ensures State() == Judge(old(State()), Accept(user)).session
      ensures sent == old(sent) + Judge(old(State()), Accept(user)).outputs
    {
      sent := sent + [Numeric(900), Numeric(903), Accepted(user)];
      mechanism := "";
      buffer := "";
      saslUser := user;
    }

    method AcceptLogin()
      modifies this
      ensures State() == Step(old(State()), Login).session && sent == old(sent)
    {
      attached := true;
      mechanism := "";
      buffer := "";
      saslUser := "";
    }

    method Verdicts(vs: seq<Verdict>)
      modifies this
      ensures State() == JudgeAll(old(State()), vs).session
      ensures sent == old(sent) + JudgeAll(old(State()), vs).outputs
      decreases |vs|
    {
      if vs != [] {
        match vs[0] {
          case Refuse => RefuseSASLLogin();
          case Accept(user) => AcceptSASLLogin(user);
        }
        Verdicts(vs[1..]);
      }
    }

    method SendSASLChallenge(challenge: seq<Byte>)
      modifies this`sent
      ensures sent == old(sent) + LineOutputs(Chunks(Base64.Encode(challenge)))
    {
      var lines := SendChunks(Base64.Encode(challenge));
      sent := sent + LineOutputs(lines);
    }

    method OnAuthenticateMessage(text: string, env: Env)
      modifies this
      ensures State() == OnMessage(old(State()), text, env).session
      ensures sent == old(sent) + OnMessage(old(State()), text, env).outputs
    {
      if !saslCap {
        sent := sent + [Numeric(904)];
        return;
      }
      if saslUser != "" || attached {
        sent := sent + [Numeric(907)];
        return;
      }
      if EqualsNoCase(text, "*") {
        AbortSASL(906);
        return;
      }
      if |text| > MAX_LINE {
        AbortSASL(905);
        return;
      }
      if mechanism == "" {
        StartMechanism(text, env);
      } else {
        ContinueResponse(text, env);
      }
    }

    method StartMechanism(name: string, env: Env)
      modifies this
      ensures State() == Begin(old(State()), name, env).session
      ensures sent == old(sent) + Begin(old(State()), name, env).outputs
    {
      if name in failedMechanisms {
        sent := sent + [Numeric(904)];
        mechanism, buffer := "", "";
        return;
      }
      if name !in env.mechanisms {
        sent := sent + [Numeric(908), Numeric(904)];
        mechanism, buffer := "", "";
        return;
      }
      mechanism := name;
      assert State() == old(State()).(mechanism := name);
      Verdicts(env.verdicts);
      if !env.handled {
        SendSASLChallenge(env.challenge);
      }
    }

    method ContinueResponse(text: string, env: Env)
      modifies this
      ensures State() == Continue(old(State()), text, env).session
      ensures sent == old(sent) + Continue(old(State()), text, env).outputs
    {
      if |buffer| + |text| > MAX_RESPONSE {
        AbortSASL(904);
        return;
      }
      if |text| == MAX_LINE {
        buffer := buffer + text;
        return;
      }
      if text != "+" {
        buffer := buffer + text;
      }
      sent := sent + [Dispatch(mechanism, Base64.Decode(buffer))];
      buffer := "";
      Verdicts(env.verdicts);
    }

    method OnCapRequest(on: bool)
      modifies this
      ensures State() == Step(old(State()), SetCap(on)).session
      ensures sent == old(sent) + Step(old(State()), SetCap(on)).outputs
    {
      if mechanism != "" && !on {
        AbortSASL(904);
      }
      saslCap := on;
    }

    method OnCapEnd()
      modifies this
      ensures State() == Step(old(State()), CapEnd).session
      ensures sent == old(sent) + Step(old(State()), CapEnd).outputs
    {
      if !attached && mechanism != "" {
        AbortSASL(904);
      }
    }
  }

  // ----- Session safety over whole runs -----

  predicate Inv(s: Session) {
    && |s.buffer| % MAX_LINE == 0 && |s.buffer| <= 10000
    && (s.mechanism == "" ==> s.buffer == "")
    && (s.user != "" ==> s.mechanism == "")
    && (s.mechanism != "" ==> s.mechanism !in s.failed)
  }

  /** A connection starts there. */
  lemma FreshInv()
    ensures Inv(FRESH)
  {
  }

  lemma {:induction false} JudgeAllInv(s: Session, vs: seq<Verdict>)
    requires Inv(s)
    ensures Inv(JudgeAll(s, vs).session)
    decreases |vs|
  {
    if vs != [] {
      JudgeAllInv(Judge(s, vs[0]).session, vs[1..]);
    }
  }

  lemma StepInv(s: Session, e: Event)
    requires Inv(s)
    ensures Inv(Step(s, e).session)
  {
    if e.Message? {
      MessageInv(s, e.text, e.env);
    }
  }

  lemma MessageInv(s: Session, text: string, env: Env)
    requires Inv(s)
    ensures Inv(OnMessage(s, text, env).session)
  {
    if s.cap && s.user == "" && s.mechanism == "" && text !in s.failed {
      JudgeAllInv(s.(mechanism := text), env.verdicts);
    } else if s.cap && s.user == "" && s.mechanism != "" {
      JudgeAllInv(s.(buffer := ""), env.verdicts);
    }
  }

  /** Between messages, however a connection goes: the buffer holds whole lines, at most 25 of them,
      and only while a mechanism is in progress, which no refused mechanism is, and nobody has
      authenticated meanwhile. */
  lemma {:induction false} RunInv(s: Session, events: seq<Event>)
    requires Inv(s)
    ensures Inv(Run(s, events).session)
    decreases |events|
  {
    if events != [] {
      StepInv(s, events[0]);
      RunInv(Step(s, events[0]).session, events[1..]);
    }
  }

  /** A second attempt at something that had been refused before. */
  predicate Forbidden(failed: set<string>, o: Output) {
    match o
    case Dispatch(m, _) => m in failed
    case Refused(m) => m != "" && m in failed
    case _ => false
  }

  function After(failed: set<string>, o: Output): set<string> {
    if o.Refused? then failed + {o.mechanism} else failed
  }

  predicate NoRetry(failed: set<string>, outputs: seq<Output>)
    decreases |outputs|
  {
    outputs == [] || (!Forbidden(failed, outputs[0]) && NoRetry(After(failed, outputs[0]), outputs[1..]))
  }

  function AfterAll(failed: set<string>, outputs: seq<Output>): set<string>
    decreases |outputs|
  {
    if outputs == [] then failed else AfterAll(After(failed, outputs[0]), outputs[1..])
  }

  lemma {:induction false} NoRetryConcat(failed: set<string>, a: seq<Output>, b: seq<Output>)
    ensures NoRetry(failed, a + b) == (NoRetry(failed, a) && NoRetry(AfterAll(failed, a), b))
    ensures AfterAll(failed, a + b) == AfterAll(AfterAll(failed, a), b)
    decreases |a|
  {
    if a == [] {
      assert a + b == b;
    } else {
      assert (a + b)[1..] == a[1..] + b;
      NoRetryConcat(After(failed, a[0]), a[1..], b);
    }
  }

  lemma {:induction false} QuietOutputs(failed: set<string>, outputs: seq<Output>)
    requires forall o :: o in outputs ==> !o.Dispatch? && !o.Refused?
    ensures NoRetry(failed, outputs) && AfterAll(failed, outputs) == failed
  {
    if outputs != [] {
      assert outputs[0] in outputs;
      QuietOutputs(failed, outputs[1..]);
    }
  }

  lemma JudgeNoRetry(s: Session, v: Verdict)
    requires Inv(s)
    ensures NoRetry(s.failed, Judge(s, v).outputs)
    ensures AfterAll(s.failed, Judge(s, v).outputs) == Judge(s, v).session.failed
  {
    var r := Judge(s, v);
    match v
    case Refuse =>
      assert r.outputs == [Numeric(904)] + [Refused(s.mechanism)];
      QuietOutputs(s.failed, [Numeric(904)]);
      NoRetryConcat(s.failed, [Numeric(904)], [Refused(s.mechanism)]);
    case Accept(_) => QuietOutputs(s.failed, r.outputs);
  }

  lemma {:induction false} JudgeAllNoRetry(s: Session, vs: seq<Verdict>)
    requires Inv(s)
    ensures NoRetry(s.failed, JudgeAll(s, vs).outputs)
    ensures AfterAll(s.failed, JudgeAll(s, vs).outputs) == JudgeAll(s, vs).session.failed
    decreases |vs|
  {
    if vs != [] {
      var first := Judge(s, vs[0]);
      JudgeNoRetry(s, vs[0]);
      JudgeAllInv(s, [vs[0]]);
      assert [vs[0]][1..] == [];
      JudgeAllNoRetry(first.session, vs[1..]);
      NoRetryConcat(s.failed, first.outputs, JudgeAll(first.session, vs[1..]).outputs);
    }
  }

  lemma {:induction false} LineOutputsQuiet(lines: seq<string>)
    ensures forall o :: o in LineOutputs(lines) ==> o.Line?
  {
    if lines != [] {
      LineOutputsQuiet(lines[1..]);
    }
  }

  lemma BeginNoRetry(s: Session, name: string, env: Env)
    requires Inv(s) && s.mechanism == "" && s.user == ""
    ensures NoRetry(s.failed, Begin(s, name, env).outputs)
    ensures AfterAll(s.failed, Begin(s, name, env).outputs) == Begin(s, name, env).session.failed
  {
    var r := Begin(s, name, env);
    if name in s.failed || name !in env.mechanisms {
      QuietOutputs(s.failed, r.outputs);
    } else {
      var begun := s.(mechanism := name);
      var judged := JudgeAll(begun, env.verdicts);
      JudgeAllNoRetry(begun, env.verdicts);
      var tail := if env.handled then [] else LineOutputs(Chunks(Base64.Encode(env.challenge)));
      LineOutputsQuiet(Chunks(Base64.Encode(env.challenge)));
      QuietOutputs(judged.session.failed, tail);
      NoRetryConcat(s.failed, judged.outputs, tail);
    }
  }

  lemma ContinueNoRetry(s: Session, text: string, env: Env)
    requires Inv(s) && s.mechanism != ""
    ensures NoRetry(s.failed, Continue(s, text, env).outputs)
    ensures AfterAll(s.failed, Continue(s, text, env).outputs) == Continue(s, text, env).session.failed
  {
    var r := Continue(s, text, env);
    if |s.buffer| + |text| > MAX_RESPONSE || |text| == MAX_LINE {
      QuietOutputs(s.failed, r.outputs);
    } else {
      var cleared := s.(buffer := "");
      JudgeAllNoRetry(cleared, env.verdicts);
      assert r.outputs[1..] == JudgeAll(cleared, env.verdicts).outputs;
    }
  }

  lemma StepNoRetry(s: Session, e: Event)
    requires Inv(s)
    ensures NoRetry(s.failed, Step(s, e).outputs)
    ensures AfterAll(s.failed, Step(s, e).outputs) == Step(s, e).session.failed
  {
    match e
    case Late(v) => JudgeNoRetry(s, v);
    case Message(text, env) =>
      if s.cap && s.user == "" && !s.attached && !EqualsNoCase(text, "*") && |text| <= MAX_LINE {
        if s.mechanism == "" {
          BeginNoRetry(s, text, env);
        } else {
          ContinueNoRetry(s, text, env);
        }
      } else {
        QuietOutputs(s.failed, Step(s, e).outputs);
      }
    case _ => QuietOutputs(s.failed, Step(s, e).outputs);
  }

  /** Once a mechanism has been refused, no later response is dispatched to it on the same
      connection and it is never refused again, whatever messages, verdicts and capability changes
      follow. */
  lemma {:induction false} RunNoRetry(s: Session, events: seq<Event>)
    requires Inv(s)
    ensures NoRetry(s.failed, Run(s, events).outputs)
    ensures AfterAll(s.failed, Run(s, events).outputs) == Run(s, events).session.failed
    decreases |events|
  {
    if events != [] {
      var first := Step(s, events[0]);
      StepInv(s, events[0]);
      StepNoRetry(s, events[0]);
      RunNoRetry(first.session, events[1..]);
      NoRetryConcat(s.failed, first.outputs, Run(first.session, events[1..]).outputs);
    }
  }

  /** The same, read off the outputs of a run. */
  lemma {:induction false} NoSecondAttempt(failed: set<string>, outputs: seq<Output>, i: nat, j: nat)
    requires NoRetry(failed, outputs) && i < j < |outputs|
    requires outputs[i].Refused? && outputs[i].mechanism != ""
    ensures outputs[j].Refused? ==> outputs[j].mechanism != outputs[i].mechanism
    ensures outputs[j].Dispatch? ==> outputs[j].mechanism != outputs[i].mechanism
    decreases |outputs|
  {
    if i > 0 {
      NoSecondAttempt(After(failed, outputs[0]), outputs[1..], i - 1, j - 1);
    } else {
      StaysForbidden(After(failed, outputs[0]), outputs[1..], outputs[0].mechanism, j - 1);
    }
  }

  /** So on every connection, from its start. */
  lemma ConnectionIsSafe(events: seq<Event>, i: nat, j: nat)
    requires i < j < |Run(FRESH, events).outputs|
    ensures Inv(Run(FRESH, events).session)
    ensures var outputs := Run(FRESH, events).outputs;
            outputs[i].Refused? && outputs[i].mechanism != "" ==>
              && (outputs[j].Refused? ==> outputs[j].mechanism != outputs[i].mechanism)
              && (outputs[j].Dispatch? ==> outputs[j].mechanism != outputs[i].mechanism)
  {
    FreshInv();
    RunInv(FRESH, events);
    RunNoRetry(FRESH, events);
    var outputs := Run(FRESH, events).outputs;
    if outputs[i].Refused? && outputs[i].mechanism != "" {
      NoSecondAttempt({}, outputs, i, j);
    }
  }

  lemma {:induction false} StaysForbidden(failed: set<string>, outputs: seq<Output>, m: string, j: nat)
    requires NoRetry(failed, outputs) && j < |outputs| && m in failed && m != ""
    ensures outputs[j].Refused? ==> outputs[j].mechanism != m
    ensures outputs[j].Dispatch? ==> outputs[j].mechanism != m
    decreases |outputs|
  {
    if j > 0 {
      StaysForbidden(After(failed, outputs[0]), outputs[1..], m, j - 1);
    }
  }

  // ----- A framed payload, reassembled -----

  /** Messages with the given texts, one surrounding each. */
  function Messages(texts: seq<string>, envs: seq<Env>): (r: seq<Event>)
    requires |texts| == |envs|
    ensures |r| == |texts|
  {
    seq(|texts|, i requires 0 <= i < |texts| => Message(texts[i], envs[i]))
  }

  /** A session ready for the response to a mechanism. */
  predicate Expecting(s: Session) {
    s.cap && !s.attached && s.user == "" && s.mechanism != ""
  }

  lemma ChunkIsNoControl(t: string)
    requires |t| % 4 == 0
    ensures t != "+" && !EqualsNoCase(t, "*")
  {
    assert |Lower(t)| != |Lower("*")|;
  }

  lemma RunFront(s: Session, e: Event, rest: seq<Event>)
    ensures Run(s, [e] + rest).session == Run(Step(s, e).session, rest).session
    ensures Run(s, [e] + rest).outputs == Step(s, e).outputs + Run(Step(s, e).session, rest).outputs
  {
    assert ([e] + rest)[1..] == rest;
  }

  lemma MessagesFront(texts: seq<string>, envs: seq<Env>)
    requires |texts| == |envs| && texts != []
    ensures Messages(texts, envs) == [Message(texts[0], envs[0])] + Messages(texts[1..], envs[1..])
  {
  }

  /** A full line is buffered, and the run goes on with the lines of the rest. */
  lemma FrontFrame(s: Session, text: string, envs: seq<Env>)
    requires Expecting(s) && |text| % 4 == 0 && |text| >= MAX_LINE
    requires |s.buffer| + MAX_LINE <= MAX_RESPONSE && |envs| == |Chunks(text)|
    ensures Run(s, Messages(Chunks(text), envs))
         == Run(s.(buffer := s.buffer + text[..MAX_LINE]), Messages(Chunks(text[MAX_LINE..]), envs[1..]))
  {
    var piece, rest := text[..MAX_LINE], Chunks(text[MAX_LINE..]);
    assert Chunks(text) == [piece] + rest;
    assert Chunks(text)[1..] == rest;
    MessagesFront(Chunks(text), envs);
    RunFront(s, Message(piece, envs[0]), Messages(rest, envs[1..]));
    FullLine(s, piece, envs[0]);
  }

  lemma FullLine(s: Session, piece: string, env: Env)
    requires Expecting(s) && |piece| == MAX_LINE && |s.buffer| + |piece| <= MAX_RESPONSE
    ensures OnMessage(s, piece, env) == Reaction(s.(buffer := s.buffer + piece), [])
  {
    ChunkIsNoControl(piece);
  }

  lemma OnlyFrame(s: Session, text: string, envs: seq<Env>)
    requires |text| < MAX_LINE && |envs| == |Chunks(text)|
    ensures Run(s, Messages(Chunks(text), envs)) == OnMessage(s, if text == "" then "+" else text, envs[0])
  {
    var line := if text == "" then "+" else text;
    MessagesFront(Chunks(text), envs);
    assert Chunks(text) == [line] && Messages([], envs[1..]) == [];
    assert Chunks(text)[1..] == [];
    RunFront(s, Message(line, envs[0]), []);
  }

  /** What makes the lines of a payload one response to the mechanism in progress. */
  predicate Framed(s: Session, text: string, envs: seq<Env>) {
    && Expecting(s) && |text| % 4 == 0 && |s.buffer| % MAX_LINE == 0
    && |s.buffer| + |text| <= MAX_RESPONSE && |envs| == |Chunks(text)|
  }

  lemma StillFramed(s: Session, text: string, envs: seq<Env>)
    requires Framed(s, text, envs) && |text| >= MAX_LINE
    ensures Framed(s.(buffer := s.buffer + text[..MAX_LINE]), text[MAX_LINE..], envs[1..])
  {
  }

  /** The lines of a payload that fits are one response: nothing is output before the last line,
      which dispatches everything received, decoded. */
  lemma {:induction false} FramesReassemble(s: Session, text: string, envs: seq<Env>)
    requires Framed(s, text, envs)
    ensures Run(s, Messages(Chunks(text), envs)) == Dispatched(s, text, envs[|envs| - 1].verdicts)
    decreases |text|
  {
    if |text| < MAX_LINE {
      OnlyFrame(s, text, envs);
      LastFrame(s, text, envs[0]);
    } else {
      StillFramed(s, text, envs);
      FrontFrame(s, text, envs);
      FramesReassemble(s.(buffer := s.buffer + text[..MAX_LINE]), text[MAX_LINE..], envs[1..]);
      StillDispatched(s, text, envs[|envs| - 1].verdicts);
    }
  }

  /** Everything received is dispatched, and the verdicts are followed. */
  function Dispatched(s: Session, text: string, verdicts: seq<Verdict>): Reaction {
    var judged := JudgeAll(s.(buffer := ""), verdicts);
    Reaction(judged.session, [Dispatch(s.mechanism, Base64.Decode(s.buffer + text))] + judged.outputs)
  }

  lemma StillDispatched(s: Session, text: string, verdicts: seq<Verdict>)
    requires |text| >= MAX_LINE
    ensures Dispatched(s.(buffer := s.buffer + text[..MAX_LINE]), text[MAX_LINE..], verdicts)
         == Dispatched(s, text, verdicts)
  {
    assert text == text[..MAX_LINE] + text[MAX_LINE..];
    assert s.buffer + text[..MAX_LINE] + text[MAX_LINE..] == s.buffer + text;
  }

  lemma LastFrame(s: Session, text: string, env: Env)
    requires Expecting(s) && |text| % 4 == 0 && |text| < MAX_LINE && |s.buffer| % MAX_LINE == 0
    requires |s.buffer| + |text| <= MAX_RESPONSE
    ensures OnMessage(s, if text == "" then "+" else text, env) == Dispatched(s, text, env.verdicts)
  {
    if text == "" {
      assert s.buffer + text == s.buffer;
      StartsWithExact("+", "*");
      assert Lower("+")[0] != Lower("*")[0];
    } else {
      ChunkIsNoControl(text);
    }
  }

  /** A byte string of any length sent by the one side's chunk loop, if its encoding is at most
      10240 characters long, arrives at the other side's modules once, unchanged, on its last line. */
  lemma PayloadArrives(s: Session, payload: seq<Byte>, text: string, envs: seq<Env>)
    requires Expecting(s) && s.buffer == "" && text == Base64.Encode(payload)
    requires |text| <= MAX_RESPONSE && |envs| == |Chunks(text)|
    ensures Run(s, Messages(Chunks(text), envs)).outputs
         == [Dispatch(s.mechanism, payload)] + JudgeAll(s, envs[|envs| - 1].verdicts).outputs
  {
    EncodedText(payload, text);
    TextArrives(s, text, envs);
  }

  lemma EncodedText(payload: seq<Byte>, text: string)
    requires text == Base64.Encode(payload)
    ensures Base64.Decode(text) == payload && |text| % 4 == 0
  {
    Base64.EncodePadded(payload);
    Base64.DecodeEncode(payload);
  }

  lemma TextArrives(s: Session, text: string, envs: seq<Env>)
    requires Expecting(s) && s.buffer == "" && |text| % 4 == 0
    requires |text| <= MAX_RESPONSE && |envs| == |Chunks(text)|
    ensures Run(s, Messages(Chunks(text), envs)).outputs
         == [Dispatch(s.mechanism, Base64.Decode(text))] + JudgeAll(s, envs[|envs| - 1].verdicts).outputs
  {
    FramesReassemble(s, text, envs);
    assert s.buffer + text == text;
    assert s.(buffer := "") == s;
  }

  predicate NoDispatch(outputs: seq<Output>) {
    forall o :: o in outputs ==> !o.Dispatch?
  }

  /** No full line behind the k-th is the name of a mechanism on offer when it arrives. */
  predicate NotOffered(lines: seq<string>, envs: seq<Env>, k: int)
    requires |lines| == |envs|
  {
    forall i :: 0 <= i < |lines| - 1 && k < i ==> lines[i] !in envs[i].mechanisms
  }

  /** The line that is one too many for a buffer. */
  function AbortingLine(buffered: nat): int {
    (MAX_RESPONSE - buffered) / MAX_LINE
  }

  /** A line that dispatches nothing, and the run behind it. */
  lemma QuietFront(s: Session, text: string, envs: seq<Env>)
    requires |text| >= MAX_LINE && |envs| == |Chunks(text)|
    requires NoDispatch(OnMessage(s, text[..MAX_LINE], envs[0]).outputs)
    ensures NoDispatch(Run(s, Messages(Chunks(text), envs)).outputs)
       <==> NoDispatch(Run(OnMessage(s, text[..MAX_LINE], envs[0]).session,
                           Messages(Chunks(text[MAX_LINE..]), envs[1..])).outputs)
  {
    RunOutputs(s, text[..MAX_LINE], Chunks(text[MAX_LINE..]), envs);
  }

  /** Lines reaching an idle session: only the last can start a mechanism, so nothing is dispatched. */
  lemma {:induction false} IdleFrames(s: Session, text: string, envs: seq<Env>)
    requires Inv(s) && s.mechanism == "" && |text| % 4 == 0 && |envs| == |Chunks(text)|
    requires NotOffered(Chunks(text), envs, -1)
    ensures NoDispatch(Run(s, Messages(Chunks(text), envs)).outputs)
    decreases |text|
  {
    IdleMessage(s, Chunks(text)[0], envs[0]);
    if |text| < MAX_LINE {
      OnlyFrame(s, text, envs);
    } else {
      MessageInv(s, text[..MAX_LINE], envs[0]);
      NotOfferedBehind(text, envs, -1);
      IdleFrames(OnMessage(s, text[..MAX_LINE], envs[0]).session, text[MAX_LINE..], envs[1..]);
      QuietFront(s, text, envs);
    }
  }

  lemma NotOfferedBehind(text: string, envs: seq<Env>, k: int)
    requires |text| >= MAX_LINE && |envs| == |Chunks(text)| && NotOffered(Chunks(text), envs, k)
    ensures NotOffered(Chunks(text[MAX_LINE..]), envs[1..], k - 1)
    ensures k == -1 ==> text[..MAX_LINE] !in envs[0].mechanisms
  {
    var more := Chunks(text[MAX_LINE..]);
    forall i | 0 <= i < |more| - 1 && k - 1 < i ensures more[i] !in envs[1..][i].mechanisms {
      assert Chunks(text)[i + 1] == more[i];
    }
  }

  lemma IdleMessage(s: Session, text: string, env: Env)
    requires s.mechanism == ""
    ensures NoDispatch(OnMessage(s, text, env).outputs)
    ensures text !in env.mechanisms ==> OnMessage(s, text, env).session.mechanism == ""
  {
    JudgeAllQuiet(s.(mechanism := text), env.verdicts);
    LineOutputsQuiet(Chunks(Base64.Encode(env.challenge)));
  }

  lemma {:induction false} JudgeAllQuiet(s: Session, vs: seq<Verdict>)
    ensures NoDispatch(JudgeAll(s, vs).outputs)
    decreases |vs|
  {
    if vs != [] {
      JudgeAllQuiet(Judge(s, vs[0]).session, vs[1..]);
    }
  }

  /** A payload whose encoding is too long aborts the exchange, and is never dispatched unless a full
      line behind the one that aborts is the name of a mechanism on offer. */
  lemma {:induction false} LongFramesAbort(s: Session, text: string, envs: seq<Env>)
    requires Expecting(s) && Inv(s) && |text| % 4 == 0
    requires |s.buffer| + |text| > MAX_RESPONSE && |envs| == |Chunks(text)|
    ensures Aborted in Run(s, Messages(Chunks(text), envs)).outputs
    ensures NotOffered(Chunks(text), envs, AbortingLine(|s.buffer|)) ==>
              NoDispatch(Run(s, Messages(Chunks(text), envs)).outputs)
    decreases |text|
  {
    var k := AbortingLine(|s.buffer|);
    if |text| < MAX_LINE {
      OverflowAborts(s, text, envs[0]);
      OnlyFrame(s, text, envs);
    } else if |s.buffer| + MAX_LINE <= MAX_RESPONSE {
      var next := Buffered(s, text);
      LongFramesAbort(next, text[MAX_LINE..], envs[1..]);
      FrontFrame(s, text, envs);
      if NotOffered(Chunks(text), envs, k) {
        NotOfferedBehind(text, envs, k);
        assert AbortingLine(|next.buffer|) == k - 1;
      }
    } else {
      OverflowAborts(s, text[..MAX_LINE], envs[0]);
      RunOutputs(s, text[..MAX_LINE], Chunks(text[MAX_LINE..]), envs);
      if NotOffered(Chunks(text), envs, k) {
        NotOfferedBehind(text, envs, k);
        IdleFrames(OnMessage(s, text[..MAX_LINE], envs[0]).session, text[MAX_LINE..], envs[1..]);
        QuietFront(s, text, envs);
      }
    }
  }

  function Buffered(s: Session, text: string): Session
    requires |text| >= MAX_LINE
  {
    s.(buffer := s.buffer + text[..MAX_LINE])
  }

  lemma OverflowAborts(s: Session, text: string, env: Env)
    requires Expecting(s) && Inv(s) && |text| % 4 == 0 && |text| <= MAX_LINE
    requires |s.buffer| + |text| > MAX_RESPONSE
    ensures NoDispatch(OnMessage(s, text, env).outputs) && Aborted in OnMessage(s, text, env).outputs
    ensures Inv(OnMessage(s, text, env).session) && OnMessage(s, text, env).session.mechanism == ""
  {
    ChunkIsNoControl(text);
    assert OnMessage(s, text, env) == Abort(s, 904);
    assert Abort(s, 904).outputs[1] == Aborted;
  }

  lemma LongPayloadAborts(s: Session, payload: seq<Byte>, text: string, envs: seq<Env>)
    requires Expecting(s) && Inv(s) && text == Base64.Encode(payload)
    requires |s.buffer| + |text| > MAX_RESPONSE && |envs| == |Chunks(text)|
    ensures Aborted in Run(s, Messages(Chunks(text), envs)).outputs
    ensures NotOffered(Chunks(text), envs, AbortingLine(|s.buffer|)) ==>
              NoDispatch(Run(s, Messages(Chunks(text), envs)).outputs)
  {
    EncodedText(payload, text);
    LongFramesAbort(s, text, envs);
  }

  // ----- Exactly when something is dispatched -----

  /** No verdicts are given at any line but the last. */
  predicate Unjudged(envs: seq<Env>) {
    forall i :: 0 <= i < |envs| - 1 ==> envs[i].verdicts == []
  }

  /** Whether the lines of a text bring a session with so much in its buffer to a dispatch: what has
      been received fits, or the exchange is aborted and taken up again. */
  predicate Arrives(buffered: nat, text: string, envs: seq<Env>, failed: set<string>)
    requires |envs| == |Chunks(text)|
    decreases |text|
  {
    if buffered + |text| <= MAX_RESPONSE then true
    else if |text| < MAX_LINE then false
    else if buffered + MAX_LINE <= MAX_RESPONSE then
      Arrives(buffered + MAX_LINE, text[MAX_LINE..], envs[1..], failed)
    else Revives(text[MAX_LINE..], envs[1..], failed)
  }

  /** The same for an idle session: a full line starts a mechanism, and what is behind it arrives. */
  predicate Revives(text: string, envs: seq<Env>, failed: set<string>)
    requires |envs| == |Chunks(text)|
    decreases |text|
  {
    if |text| < MAX_LINE then false
    else if text[..MAX_LINE] in envs[0].mechanisms - failed then
      Arrives(0, text[MAX_LINE..], envs[1..], failed)
    else Revives(text[MAX_LINE..], envs[1..], failed)
  }

  predicate Idle(s: Session) {
    s.cap && !s.attached && s.user == "" && s.mechanism == "" && s.buffer == ""
  }

  lemma IdleLine(s: Session, line: string, env: Env)
    requires Idle(s) && |line| == MAX_LINE && env.verdicts == []
    ensures var r := OnMessage(s, line, env);
            && NoDispatch(r.outputs)
            && r.session == if line in env.mechanisms - s.failed then s.(mechanism := line) else s
  {
    ChunkIsNoControl(line);
    IdleMessage(s, line, env);
  }

  /** The lines of a text dispatch nothing. */
  predicate Silent(s: Session, text: string, envs: seq<Env>)
    requires |envs| == |Chunks(text)|
  {
    NoDispatch(Run(s, Messages(Chunks(text), envs)).outputs)
  }

  lemma LastIdleLine(s: Session, text: string, envs: seq<Env>)
    requires Idle(s) && |text| < MAX_LINE && |envs| == |Chunks(text)|
    ensures Silent(s, text, envs)
  {
    IdleMessage(s, Chunks(text)[0], envs[0]);
    OnlyFrame(s, text, envs);
  }

  /** For texts of any length: something is dispatched exactly when the text arrives. */
  lemma {:induction false} DispatchedIff(s: Session, text: string, envs: seq<Env>)
    requires Expecting(s) && Inv(s) && |text| % 4 == 0 && |envs| == |Chunks(text)| && Unjudged(envs)
    ensures Arrives(|s.buffer|, text, envs, s.failed) <==> !Silent(s, text, envs)
    decreases |text|
  {
    if |s.buffer| + |text| <= MAX_RESPONSE {
      var o := Dispatch(s.mechanism, Base64.Decode(s.buffer + text));
      FramesReassemble(s, text, envs);
      assert Run(s, Messages(Chunks(text), envs)).outputs[0] == o;
    } else if |text| < MAX_LINE {
      OverflowAborts(s, text, envs[0]);
      OnlyFrame(s, text, envs);
    } else {
      var more, rest := BehindLine(text, envs);
      if |s.buffer| + MAX_LINE <= MAX_RESPONSE {
        DispatchedIff(Buffered(s, text), more, rest);
        FrontFrame(s, text, envs);
      } else {
        var idle := s.(mechanism := "", buffer := "");
        OverflowAborts(s, text[..MAX_LINE], envs[0]);
        RevivedIff(idle, more, rest);
        QuietFront(s, text, envs);
      }
    }
  }

  lemma {:induction false} RevivedIff(s: Session, text: string, envs: seq<Env>)
    requires Idle(s) && |text| % 4 == 0 && |envs| == |Chunks(text)| && Unjudged(envs)
    ensures Revives(text, envs, s.failed) <==> !Silent(s, text, envs)
    decreases |text|
  {
    if |text| < MAX_LINE {
      LastIdleLine(s, text, envs);
    } else {
      var next := RevivedFront(s, text, envs);
      var more, rest := BehindLine(text, envs);
      if next == s {
        RevivedIff(s, more, rest);
      } else {
        DispatchedIff(next, more, rest);
      }
    }
  }

  lemma BehindLine(text: string, envs: seq<Env>) returns (more: string, rest: seq<Env>)
    requires |text| >= MAX_LINE && |text| % 4 == 0 && |envs| == |Chunks(text)| && Unjudged(envs)
    ensures more == text[MAX_LINE..] && rest == envs[1..] && |more| % 4 == 0 && |more| < |text|
    ensures |rest| == |Chunks(more)| && Unjudged(rest)
  {
    more, rest := text[MAX_LINE..], envs[1..];
  }

  lemma RevivedFront(s: Session, text: string, envs: seq<Env>) returns (next: Session)
    requires Idle(s) && |text| >= MAX_LINE && |envs| == |Chunks(text)| && Unjudged(envs)
    ensures next == if text[..MAX_LINE] in envs[0].mechanisms - s.failed then s.(mechanism := text[..MAX_LINE]) else s
    ensures Silent(s, text, envs) <==> Silent(next, text[MAX_LINE..], envs[1..])
  {
    next := OnMessage(s, text[..MAX_LINE], envs[0]).session;
    IdleLine(s, text[..MAX_LINE], envs[0]);
    QuietFront(s, text, envs);
  }

  /** Some full line behind the k-th is a name on offer that has not been refused. */
  predicate Started(lines: seq<string>, envs: seq<Env>, failed: set<string>, k: int)
    requires |lines| == |envs|
  {
    exists i :: 0 <= i < |lines| - 1 && k < i && lines[i] in envs[i].mechanisms - failed
  }

  lemma StartedBehind(text: string, envs: seq<Env>, failed: set<string>, k: int)
    requires |text| >= MAX_LINE && |envs| == |Chunks(text)|
    ensures Started(Chunks(text), envs, failed, k)
       <==> (k < 0 && text[..MAX_LINE] in envs[0].mechanisms - failed)
            || Started(Chunks(text[MAX_LINE..]), envs[1..], failed, k - 1)
  {
    var lines, more := Chunks(text), Chunks(text[MAX_LINE..]);
    assert lines[0] == text[..MAX_LINE] && forall i :: 0 <= i < |more| ==> lines[i + 1] == more[i];
    if i :| 0 <= i < |more| - 1 && k - 1 < i && more[i] in envs[1..][i].mechanisms - failed {
      assert lines[i + 1] in envs[i + 1].mechanisms - failed;
    }
    if i :| 0 <= i < |lines| - 1 && k < i && lines[i] in envs[i].mechanisms - failed {
      assert i > 0 ==> more[i - 1] in envs[1..][i - 1].mechanisms - failed;
    }
  }

  lemma {:induction false} RevivesIffStarted(text: string, envs: seq<Env>, failed: set<string>)
    requires |envs| == |Chunks(text)| && |text| <= MAX_RESPONSE + MAX_LINE
    ensures Revives(text, envs, failed) <==> Started(Chunks(text), envs, failed, -1)
    decreases |text|
  {
    if |text| >= MAX_LINE {
      StartedBehind(text, envs, failed, -1);
      StartedFromStart(Chunks(text[MAX_LINE..]), envs[1..], failed);
      RevivesIffStarted(text[MAX_LINE..], envs[1..], failed);
    }
  }

  lemma StartedFromStart(lines: seq<string>, envs: seq<Env>, failed: set<string>)
    requires |lines| == |envs|
    ensures Started(lines, envs, failed, -2) == Started(lines, envs, failed, -1)
  {
  }

  /** A text that is too long, with no more than one response and a line behind the line that aborts:
      something is dispatched exactly when a full line behind that line is a name on offer that has
      not been refused. */
  lemma {:induction false} LongFramesIff(s: Session, text: string, envs: seq<Env>)
    requires Expecting(s) && Inv(s) && |text| % 4 == 0 && |envs| == |Chunks(text)| && Unjudged(envs)
    requires |s.buffer| + |text| > MAX_RESPONSE
    requires |text| <= MAX_LINE * (AbortingLine(|s.buffer|) + 1) + MAX_RESPONSE + MAX_LINE
    ensures Started(Chunks(text), envs, s.failed, AbortingLine(|s.buffer|))
       <==> !Silent(s, text, envs)
  {
    DispatchedIff(s, text, envs);
    LongArrivesIff(|s.buffer|, text, envs, s.failed);
  }

  lemma {:induction false} LongArrivesIff(buffered: nat, text: string, envs: seq<Env>, failed: set<string>)
    requires |envs| == |Chunks(text)| && buffered % MAX_LINE == 0 && buffered <= 10000
    requires buffered + |text| > MAX_RESPONSE
    requires |text| <= MAX_LINE * (AbortingLine(buffered) + 1) + MAX_RESPONSE + MAX_LINE
    ensures Arrives(buffered, text, envs, failed) <==> Started(Chunks(text), envs, failed, AbortingLine(buffered))
    decreases |text|
  {
    if |text| >= MAX_LINE {
      StartedBehind(text, envs, failed, AbortingLine(buffered));
      if buffered + MAX_LINE <= MAX_RESPONSE {
        assert AbortingLine(buffered + MAX_LINE) == AbortingLine(buffered) - 1;
        LongArrivesIff(buffered + MAX_LINE, text[MAX_LINE..], envs[1..], failed);
      } else {
        RevivesIffStarted(text[MAX_LINE..], envs[1..], failed);
      }
    }
  }

  /** Otherwise the line after the abort starts that mechanism, and what follows is dispatched to it. */
  lemma OfferedLineDispatches(s: Session, line: string, name: string, rest: string, envs: seq<Env>)
    requires Expecting(s) && Inv(s) && |s.buffer| == 10000 && |envs| == 3
    requires |line| == |name| == MAX_LINE && 0 < |rest| < MAX_LINE && |rest| % 4 == 0
    requires name in envs[1].mechanisms && name !in s.failed && envs[1].verdicts == []
    ensures Dispatch(name, Base64.Decode(rest)) in Run(s, Messages([line, name, rest], envs)).outputs
  {
    var idle, busy := s.(mechanism := "", buffer := ""), s.(mechanism := name, buffer := "");
    var o := Dispatch(name, Base64.Decode(rest));
    ChunkIsNoControl(line);
    ChunkIsNoControl(name);
    LastLineDispatches(busy, name, rest, envs[2..]);
    assert OnMessage(idle, name, envs[1]).session == busy;
    StillOutput(idle, name, [rest], envs[1..], o);
    assert OnMessage(s, line, envs[0]) == Abort(s, 904) && Abort(s, 904).session == idle;
    assert [name] + [rest] == [name, rest] && [line] + [name, rest] == [line, name, rest];
    assert envs[1..][1..] == envs[2..] && envs[1..][0] == envs[1];
    StillOutput(s, line, [name, rest], envs, o);
  }

  lemma LastLineDispatches(s: Session, name: string, rest: string, envs: seq<Env>)
    requires Expecting(s) && s.mechanism == name && s.buffer == "" && |envs| == 1
    requires 0 < |rest| < MAX_LINE && |rest| % 4 == 0
    ensures Dispatch(name, Base64.Decode(rest)) in Run(s, Messages([rest], envs)).outputs
  {
    ChunkIsNoControl(rest);
    assert "" + rest == rest;
    assert OnMessage(s, rest, envs[0]).outputs[0] == Dispatch(name, Base64.Decode(rest));
    RunOutputs(s, rest, [], envs);
    assert [rest] + [] == [rest];
  }

  lemma StillOutput(s: Session, line: string, more: seq<string>, envs: seq<Env>, o: Output)
    requires |envs| == |more| + 1
    requires o in Run(OnMessage(s, line, envs[0]).session, Messages(more, envs[1..])).outputs
    ensures o in Run(s, Messages([line] + more, envs)).outputs
  {
    RunOutputs(s, line, more, envs);
  }

  lemma RunOutputs(s: Session, line: string, more: seq<string>, envs: seq<Env>)
    requires |envs| == |more| + 1
    ensures Run(s, Messages([line] + more, envs)).outputs
         == OnMessage(s, line, envs[0]).outputs
            + Run(OnMessage(s, line, envs[0]).session, Messages(more, envs[1..])).outputs
  {
    MessagesFront([line] + more, envs);
    assert ([line] + more)[1..] == more;
    RunFront(s, Message(line, envs[0]), Messages(more, envs[1..]));
  }
}
