/** Who has authenticated, and what each single event of a SASL session does, told from the event,
    the outputs and the lengths and contents of texts. */
module SaslLogins {
  import opened Strings
  import opened Sasl
  import Base64

  // ----- Who has authenticated -----

  predicate LastAccepted(outputs: seq<Output>, i: nat) {
    i < |outputs| && outputs[i].Accepted? && forall j :: i < j < |outputs| ==> !outputs[j].Accepted?
  }

  /** The name in the last acceptance among some outputs, or the one before if there is none. */
  ghost predicate Tells(before: string, outputs: seq<Output>, after: string) {
    && ((forall o :: o in outputs ==> !o.Accepted?) ==> after == before)
    && forall i: nat :: LastAccepted(outputs, i) ==> after == outputs[i].user
  }

  lemma NothingAccepted(user: string, outputs: seq<Output>)
    requires forall o :: o in outputs ==> !o.Accepted?
    ensures Tells(user, outputs, user)
  {
    forall i: nat | i < |outputs| ensures !outputs[i].Accepted? {
      assert outputs[i] in outputs;
    }
  }

  lemma TellsConcat(a: string, x: seq<Output>, b: string, y: seq<Output>, c: string)
    requires Tells(a, x, b) && Tells(b, y, c)
    ensures Tells(a, x + y, c)
  {
    if forall o :: o in x + y ==> !o.Accepted? {
      forall o | o in x ensures !o.Accepted? {
        assert o in x + y;
      }
      forall o | o in y ensures !o.Accepted? {
        assert o in x + y;
      }
    }
    forall i: nat | LastAccepted(x + y, i) ensures c == (x + y)[i].user {
      if i < |x| {
        forall o | o in y ensures !o.Accepted? {
          var j :| 0 <= j < |y| && y[j] == o;
          assert (x + y)[|x| + j] == o;
        }
        forall j | i < j < |x| ensures !x[j].Accepted? {
          assert (x + y)[j] == x[j];
        }
        assert LastAccepted(x, i);
      } else {
        forall j | i - |x| < j < |y| ensures !y[j].Accepted? {
          assert (x + y)[|x| + j] == y[j];
        }
        assert LastAccepted(y, i - |x|);
      }
    }
  }

  lemma JudgeTells(s: Session, v: Verdict)
    ensures Tells(s.user, Judge(s, v).outputs, Judge(s, v).session.user)
  {
    var r := Judge(s, v);
    if v.Refuse? {
      NothingAccepted(s.user, r.outputs);
    } else {
      assert r.outputs[2] == Accepted(v.user) && r.outputs[2] in r.outputs;
    }
  }

  lemma {:induction false} JudgeAllTells(s: Session, vs: seq<Verdict>)
    ensures Tells(s.user, JudgeAll(s, vs).outputs, JudgeAll(s, vs).session.user)
    decreases |vs|
  {
    if vs == [] {
      NothingAccepted(s.user, []);
    } else {
      var first := Judge(s, vs[0]);
      var rest := JudgeAll(first.session, vs[1..]);
      JudgeTells(s, vs[0]);
      JudgeAllTells(first.session, vs[1..]);
      TellsConcat(s.user, first.outputs, first.session.user, rest.outputs, rest.session.user);
    }
  }

  lemma BeginTells(s: Session, name: string, env: Env)
    ensures Tells(s.user, Begin(s, name, env).outputs, Begin(s, name, env).session.user)
  {
    var r := Begin(s, name, env);
    if name in s.failed || name !in env.mechanisms {
      NothingAccepted(s.user, r.outputs);
    } else {
      var judged := JudgeAll(s.(mechanism := name), env.verdicts);
      var challenge := if env.handled then [] else LineOutputs(Chunks(Base64.Encode(env.challenge)));
      JudgeAllTells(s.(mechanism := name), env.verdicts);
      LineOutputsQuiet(Chunks(Base64.Encode(env.challenge)));
      NothingAccepted(judged.session.user, challenge);
      TellsConcat(s.user, judged.outputs, judged.session.user, challenge, judged.session.user);
    }
  }

  lemma ContinueTells(s: Session, text: string, env: Env)
    ensures Tells(s.user, Continue(s, text, env).outputs, Continue(s, text, env).session.user)
  {
    var r := Continue(s, text, env);
    if |s.buffer| + |text| > MAX_RESPONSE || |text| == MAX_LINE {
      NothingAccepted(s.user, r.outputs);
    } else {
      var judged := JudgeAll(s.(buffer := ""), env.verdicts);
      JudgeAllTells(s.(buffer := ""), env.verdicts);
      NothingAccepted(s.user, [r.outputs[0]]);
      TellsConcat(s.user, [r.outputs[0]], s.user, judged.outputs, judged.session.user);
      assert r.outputs == [r.outputs[0]] + judged.outputs;
    }
  }

  lemma StepTells(s: Session, e: Event)
    requires !e.Login?
    ensures Tells(s.user, Step(s, e).outputs, Step(s, e).session.user)
  {
    match e
    case Message(text, env) =>
      if s.cap && s.user == "" && !s.attached && !EqualsNoCase(text, "*") && |text| <= MAX_LINE {
        if s.mechanism == "" {
          BeginTells(s, text, env);
        } else {
          ContinueTells(s, text, env);
        }
      } else {
        NothingAccepted(s.user, Step(s, e).outputs);
      }
    case Late(v) => JudgeTells(s, v);
    case SetCap(on) => NothingAccepted(s.user, Step(s, e).outputs);
    case CapEnd => NothingAccepted(s.user, Step(s, e).outputs);
  }

  lemma {:induction false} RunTells(s: Session, events: seq<Event>)
    requires Login !in events
    ensures Tells(s.user, Run(s, events).outputs, Run(s, events).session.user)
    decreases |events|
  {
    if events == [] {
      NothingAccepted(s.user, []);
    } else {
      var first := Step(s, events[0]);
      var rest := Run(first.session, events[1..]);
      assert events[0] in events;
      StepTells(s, events[0]);
      RunTells(first.session, events[1..]);
      TellsConcat(s.user, first.outputs, first.session.user, rest.outputs, rest.session.user);
    }
  }

  lemma {:induction false} RunConcat(s: Session, a: seq<Event>, b: seq<Event>)
    ensures Run(s, a + b).session == Run(Run(s, a).session, b).session
    decreases |a|
  {
    if a == [] {
      assert a + b == b;
    } else {
      assert (a + b)[1..] == a[1..] + b;
      RunConcat(Step(s, a[0]).session, a[1..], b);
    }
  }

  lemma {:induction false} AfterLogin(s: Session, before: seq<Event>)
    requires before != [] && before[|before| - 1] == Login
    ensures Run(s, before).session.user == ""
  {
    var n := |before| - 1;
    assert before == before[..n] + [Login] && [Login][1..] == [];
    RunConcat(s, before[..n], [Login]);
    assert Run(Run(s, before[..n]).session, [Login]).session == Step(Run(s, before[..n]).session, Login).session;
  }

  /** On every connection: the user is the one in the last acceptance since the last login, and
      nobody if there is none. */
  lemma UserIs(before: seq<Event>, since: seq<Event>)
    requires (before == [] || before[|before| - 1] == Login) && Login !in since
    ensures var outputs := Run(Run(FRESH, before).session, since).outputs;
            Tells("", outputs, Run(FRESH, before + since).session.user)
  {
    RunConcat(FRESH, before, since);
    if before != [] {
      AfterLogin(FRESH, before);
    }
    RunTells(Run(FRESH, before).session, since);
  }

  // ----- What else a session remembers -----

  /** The last switch of the capability among some events, or what it was before. */
  ghost predicate Switched(before: bool, events: seq<Event>, after: bool) {
    && ((forall e :: e in events ==> !e.SetCap?) ==> after == before)
    && forall i: nat :: i < |events| && events[i].SetCap? && (forall j :: i < j < |events| ==> !events[j].SetCap?) ==>
         after == events[i].on
  }

  lemma JudgeKeeps(s: Session, v: Verdict)
    ensures var t := Judge(s, v).session; t.cap == s.cap && t.attached == s.attached
  {
  }

  lemma {:induction false} JudgeAllKeeps(s: Session, vs: seq<Verdict>)
    ensures var t := JudgeAll(s, vs).session; t.cap == s.cap && t.attached == s.attached
    decreases |vs|
  {
    if vs != [] {
      JudgeAllKeeps(Judge(s, vs[0]).session, vs[1..]);
    }
  }

  lemma StepKeeps(s: Session, e: Event)
    ensures var t := Step(s, e).session;
            t.cap == (if e.SetCap? then e.on else s.cap) && t.attached == (s.attached || e.Login?)
  {
    if e.Message? {
      JudgeAllKeeps(s.(mechanism := e.text), e.env.verdicts);
      JudgeAllKeeps(s.(buffer := ""), e.env.verdicts);
    }
  }

  lemma {:induction false} RunKeeps(s: Session, events: seq<Event>)
    ensures Switched(s.cap, events, Run(s, events).session.cap)
    ensures Run(s, events).session.attached <==> s.attached || Login in events
    decreases |events|
  {
    if events != [] {
      var next := Step(s, events[0]).session;
      StepKeeps(s, events[0]);
      RunKeeps(next, events[1..]);
      assert events == [events[0]] + events[1..];
      assert forall i :: 0 < i < |events| ==> events[i] == events[1..][i - 1];
      SwitchedFront(s.cap, events[0], events[1..], next.cap, Run(s, events).session.cap);
    }
  }

  lemma SwitchedFront(before: bool, e: Event, more: seq<Event>, mid: bool, after: bool)
    requires mid == (if e.SetCap? then e.on else before) && Switched(mid, more, after)
    ensures Switched(before, [e] + more, after)
  {
    var all := [e] + more;
    if forall x :: x in all ==> !x.SetCap? {
      assert e in all;
      forall x | x in more ensures !x.SetCap? {
        assert x in all;
      }
    }
    forall i: nat | i < |all| && all[i].SetCap? && (forall j :: i < j < |all| ==> !all[j].SetCap?)
      ensures after == all[i].on
    {
      forall j: nat | i <= j < |more| ensures !more[j].SetCap? {
        assert all[j + 1] == more[j];
      }
      if i == 0 {
        forall x | x in more ensures !x.SetCap? {
        }
      } else {
        assert more[i - 1] == all[i];
      }
    }
  }

  /** The mechanisms refused on a connection are those in the outputs that say so. */
  lemma {:induction false} FailedIs(failed: set<string>, outputs: seq<Output>, m: string)
    ensures m in AfterAll(failed, outputs) <==> m in failed || Refused(m) in outputs
    decreases |outputs|
  {
    if outputs != [] {
      assert outputs == [outputs[0]] + outputs[1..];
      FailedIs(After(failed, outputs[0]), outputs[1..], m);
    }
  }

  lemma RefusedIs(events: seq<Event>, m: string)
    ensures var r := Run(FRESH, events); m in r.session.failed <==> Refused(m) in r.outputs
  {
    FreshInv();
    RunNoRetry(FRESH, events);
    FailedIs({}, Run(FRESH, events).outputs, m);
  }

  // ----- What single events do -----

  /** Once somebody has authenticated or logged in, every message is answered with 907 and changes
      nothing. */
  lemma NoSecondLogin(s: Session, text: string, env: Env)
    requires s.cap && (s.user != "" || s.attached)
    ensures Step(s, Message(text, env)) == Reaction(s, [Numeric(907)])
  {
  }

  /** Without the capability every message is answered with 904 and changes nothing. */
  lemma NoCapability(s: Session, text: string, env: Env)
    requires !s.cap
    ensures Step(s, Message(text, env)) == Reaction(s, [Numeric(904)])
  {
  }

  predicate Open(s: Session) {
    s.cap && s.user == "" && !s.attached
  }

  function Dropped(s: Session): Session {
    Session(s.cap, s.attached, "", "", s.user, s.failed)
  }

  lemma OnlyStar(text: string)
    ensures EqualsNoCase(text, "*") <==> text == "*"
  {
    if |text| == 1 {
      assert Lower(text)[0] == LowerChar(text[0]) && Lower("*")[0] == '*';
    }
  }

  /** A star aborts, and so does a line that is too long; a line that makes the response too long; a
      name that has been refused or is not on offer begins nothing. */
  lemma ExchangeEnds(s: Session, text: string, env: Env)
    requires Open(s)
    ensures var r := Step(s, Message(text, env));
            && (text == "*" ==> r == Reaction(Dropped(s), [Numeric(906), Aborted]))
            && (|text| > 400 ==> r == Reaction(Dropped(s), [Numeric(905), Aborted]))
            && (text != "*" && |text| <= 400 ==>
                  && (s.mechanism == "" && text in s.failed ==> r == Reaction(Dropped(s), [Numeric(904)]))
                  && (s.mechanism == "" && text !in s.failed && text !in env.mechanisms ==>
                        r == Reaction(Dropped(s), [Numeric(908), Numeric(904)]))
                  && (s.mechanism != "" && |s.buffer| + |text| > 10240 ==>
                        r == Reaction(Dropped(s), [Numeric(904), Aborted])))
  {
    OnlyStar(text);
  }

  /** A name on offer begins that mechanism: the verdicts are followed, then the challenge goes out
      unless a module has answered. */
  lemma ExchangeBegins(s: Session, name: string, env: Env)
    requires Open(s) && s.mechanism == "" && name != "*" && |name| <= 400
    requires name in env.mechanisms && name !in s.failed
    ensures var r, judged := Step(s, Message(name, env)), JudgeAll(s.(mechanism := name), env.verdicts);
            && r.session == judged.session
            && r.outputs[..|judged.outputs|] == judged.outputs
            && var challenge := r.outputs[|judged.outputs|..];
               if env.handled then challenge == []
               else challenge == LineOutputs(Chunks(Base64.Encode(env.challenge)))
  {
    OnlyStar(name);
  }

  lemma {:induction false} LinesAre(lines: seq<string>, i: nat)
    requires i < |lines|
    ensures LineOutputs(lines)[i] == Line(lines[i])
  {
    if i > 0 {
      LinesAre(lines[1..], i - 1);
    }
  }

  /** The lines of a text: 400 characters each, and what is left, or a plus, as the last one. */
  lemma {:induction false} ChunksAre(s: string, i: nat)
    ensures |Chunks(s)| == |s| / 400 + 1
    ensures i < |s| / 400 ==> Chunks(s)[i] == s[400 * i..400 * i + 400]
    ensures i == |s| / 400 ==> Chunks(s)[i] == if |s| % 400 == 0 then "+" else s[400 * i..]
    decreases |s|
  {
    if |s| >= 400 {
      var rest := s[400..];
      assert |s| / 400 == |rest| / 400 + 1 && |s| % 400 == |rest| % 400;
      ChunksAre(rest, if i > 0 then i - 1 else 0);
      if 0 < i < |s| / 400 {
        assert rest[400 * (i - 1)..400 * (i - 1) + 400] == s[400 * i..400 * i + 400];
      } else if i > 0 && i == |s| / 400 {
        assert rest[400 * (i - 1)..] == s[400 * i..];
      }
    }
  }

  /** A full line is kept; a shorter one, of which a plus stands for nothing, ends the response. */
  lemma ExchangeGoesOn(s: Session, text: string, env: Env)
    requires Open(s) && s.mechanism != "" && text != "*" && |text| <= 400 && |s.buffer| + |text| <= 10240
    ensures var r := Step(s, Message(text, env));
            && (|text| == 400 ==> r.outputs == [] && r.session == s.(buffer := s.buffer + text))
            && (|text| < 400 ==>
                  var all := if text == "+" then s.buffer else s.buffer + text;
                  var judged := JudgeAll(s.(buffer := ""), env.verdicts);
                  && r.session == judged.session
                  && r.outputs == [Dispatch(s.mechanism, Base64.Decode(all))] + judged.outputs)
  {
    OnlyStar(text);
  }

  /** Verdicts are followed one after the other, at once or late: an acceptance names the user, a
      refusal the mechanism that must not be tried again, and both end the exchange. */
  lemma {:induction false} VerdictsMean(s: Session, vs: seq<Verdict>, v: Verdict)
    ensures JudgeAll(s, []) == Reaction(s, [])
    ensures var before, r := JudgeAll(s, vs), JudgeAll(s, vs + [v]);
            && r.outputs == before.outputs + Step(before.session, Late(v)).outputs
            && r.session == Step(before.session, Late(v)).session
    ensures v.Accept? ==>
              Step(s, Late(v)) == Reaction(Session(s.cap, s.attached, "", "", v.user, s.failed),
                                           [Numeric(900), Numeric(903), Accepted(v.user)])
    ensures v.Refuse? ==>
              Step(s, Late(v)) == Reaction(Session(s.cap, s.attached, "", "", s.user, s.failed + {s.mechanism}),
                                           [Numeric(904), Refused(s.mechanism)])
    decreases |vs|
  {
    if vs == [] {
      assert (vs + [v])[1..] == [];
      assert Judge(s, v).outputs + [] == Judge(s, v).outputs;
    } else {
      assert (vs + [v])[1..] == vs[1..] + [v];
      VerdictsMean(Judge(s, vs[0]).session, vs[1..], v);
    }
  }

  /** Giving up the capability, and ending negotiation without having logged in, abort an exchange
      that is going on and do nothing else; logging in ends it silently. */
  lemma OtherEvents(s: Session)
    ensures Step(s, SetCap(true)) == Reaction(s.(cap := true), [])
    ensures Step(s, SetCap(false)).session == (if s.mechanism == "" then s else Dropped(s)).(cap := false)
    ensures Step(s, SetCap(false)).outputs == if s.mechanism == "" then [] else [Numeric(904), Aborted]
    ensures Step(s, CapEnd)
         == if s.attached || s.mechanism == "" then Reaction(s, []) else Reaction(Dropped(s), [Numeric(904), Aborted])
    ensures Step(s, Login) == Reaction(Session(s.cap, true, "", "", "", s.failed), [])
  {
  }
}
