/** `route_replies` together with the server: which request a server message answers, and so when a
    routed reply reaches the client that issued the request, and when it goes astray. */
module RouterWire {
  import opened Common
  import opened Router
  import OrderedSets
  import Strings

  /** The module, and the requests it has sent that the server has not finished answering, oldest
      first. The server answers them in that order. */
  datatype Wire = Wire(state: State, unanswered: seq<Owner>)

  /** What a server message is: a reply to the oldest of those requests, or anything else the server
      says. */
  datatype WireEvent = Local(event: Event) | Answer(msg: Message) | Unsolicited(msg: Message)

  predicate Possible(w: Wire, e: WireEvent) {
    match e
    case Local(event) => !event.ServerRaw?
    case Answer(msg) => w.unanswered != [] && Answers(w.unanswered[0].request, msg).Some?
    case Unsolicited(_) => true
  }

  /** The module does not see the difference. */
  function Seen(e: WireEvent): Event {
    match e
    case Local(event) => event
    case Answer(msg) => ServerRaw(msg)
    case Unsolicited(msg) => ServerRaw(msg)
  }

  function RequestOf(o: Output): seq<Owner> {
    if o.Sent? then [Owner(o.client, o.request)] else []
  }

  function Requests(outputs: seq<Output>): seq<Owner> {
    if outputs == [] then [] else RequestOf(outputs[0]) + Requests(outputs[1..])
  }

  /** What is left to answer before the module reacts; a new connection starts with nothing. */
  function Remaining(w: Wire, e: WireEvent): seq<Owner>
    requires Possible(w, e)
  {
    if e.Answer? && Answers(w.unanswered[0].request, e.msg) == Some(true) then w.unanswered[1..]
    else if e == Local(Reset) then []
    else w.unanswered
  }

  function WireStep(w: Wire, e: WireEvent): Wire
    requires Possible(w, e)
  {
    var r := Step(w.state, Seen(e));
    Wire(r.state, Remaining(w, e) + Requests(r.outputs))
  }

  // ----- The invariant ---------------------------------------------------------------------

  /** The request in progress was sent last. */
  predicate WireInv(w: Wire) {
    && Inv(w.state)
    && (OwnerOf(w.state).Some? ==>
          w.unanswered != [] && w.unanswered[|w.unanswered| - 1] == OwnerOf(w.state).value)
  }

  function OneRequest(owner: Option<Owner>): seq<Owner> {
    match owner
    case None => []
    case Some(o) => [o]
  }

  /** Nothing else is unanswered. */
  predicate Clean(w: Wire) {
    Inv(w.state) && w.unanswered == OneRequest(OwnerOf(w.state))
  }

  /** The module starts there. */
  lemma StartClean()
    ensures Clean(Wire(START, [])) && WireInv(Wire(START, []))
  {
  }

  lemma {:induction false} RequestsConcat(a: seq<Output>, b: seq<Output>)
    ensures Requests(a + b) == Requests(a) + Requests(b)
  {
    if a == [] {
      assert a + b == b;
    } else {
      RequestsConcat(a[1..], b);
      FrontConcat(a[0], a[1..], b);
      assert [a[0]] + a[1..] == a;
    }
  }

  lemma FrontConcat(o: Output, more: seq<Output>, b: seq<Output>)
    requires Requests(more + b) == Requests(more) + Requests(b)
    ensures Requests([o] + more + b) == Requests([o] + more) + Requests(b)
  {
    RequestsFront(o, more);
    RequestsFront(o, more + b);
    Associative([o], more, b);
    Associative(RequestOf(o), Requests(more), Requests(b));
  }

  lemma RequestsFront(o: Output, more: seq<Output>)
    ensures Requests([o] + more) == RequestOf(o) + Requests(more)
  {
    assert ([o] + more)[1..] == more;
  }

  lemma OneOutput(o: Output)
    ensures Requests([o]) == RequestOf(o)
  {
    assert [o][1..] == [];
  }

  /** The scheduler sends the request that it then waits for, or none. */
  lemma {:induction false} SendRequests(s: State)
    requires s.doing.None? && s.replies.None? && !s.timer
    ensures Inv(Send(s).state) && Requests(Send(s).outputs) == OneRequest(OwnerOf(Send(s).state))
    ensures forall o :: o in Send(s).outputs ==> o.Sent?
    decreases |s.pending|
  {
    SendInv(s);
    if s.pending != map[] {
      var c := OrderedSets.Least(s.pending.Keys, Precedes);
      if s.pending[c] == [] {
        Removed(s.pending, c);
        SendRequests(s.(pending := s.pending - {c}));
      } else {
        OneOutput(Sent(c, s.pending[c][0]));
      }
    }
  }

  lemma RequestsAfter(o: Output, s: State)
    requires s.doing.None? && s.replies.None? && !s.timer && !o.Sent?
    ensures Inv(Send(s).state) && Requests([o] + Send(s).outputs) == OneRequest(OwnerOf(Send(s).state))
  {
    SendRequests(s);
    OneOutput(o);
    RequestsConcat([o], Send(s).outputs);
  }

  // ----- What a server message does --------------------------------------------------------

  /** Whether a message is taken for a reply to the request in progress. */
  function Taken(s: State, msg: Message): Option<bool> {
    match OwnerOf(s)
    case None => None
    case Some(owner) => Answers(owner.request, msg)
  }

  lemma ServerReaction(s: State, msg: Message)
    requires Inv(s)
    ensures Step(s, ServerRaw(msg)) ==
              match Taken(s, msg)
              case None => Result(s, [])
              case Some(last) =>
                if last then Result(Send(Idle(s)).state, [Routed(s.doing.value, msg, true)] + Send(Idle(s)).outputs)
                else Result(s, [Routed(s.doing.value, msg, false)])
  {
  }

  /** The client whose request a message answers. */
  function Recipient(w: Wire, e: WireEvent): Option<int>
    requires Possible(w, e)
  {
    if e.Answer? then Some(w.unanswered[0].client) else None
  }

  /** Some client is handed a reply that is not to a request of its own. */
  ghost predicate Misroutes(w: Wire, e: WireEvent)
    requires Possible(w, e)
  {
    exists o :: o in Step(w.state, Seen(e)).outputs && o.Routed? && Some(o.client) != Recipient(w, e)
  }

  lemma OnlyServerRoutes(s: State, e: Event, o: Output)
    requires Inv(s) && !e.ServerRaw? && o in Step(s, e).outputs
    ensures !o.Routed?
  {
    match e
    case UserRaw(c, msg, connected) =>
      if s.doing.None? && Routable(msg, connected).Some? {
        SendRequests(Queued(s, c, Request(msg, Routable(msg, connected).value)));
      }
    case ClientDisconnect(c) =>
      var rest := (if s.doing == Some(c) then Idle(s) else s).(pending := s.pending - {c});
      if rest.doing.None? {
        SendRequests(rest);
      }
    case Reset =>
    case Timeout => SendRequests(Idle(s));
  }

  /** Exactly when a reply goes astray: the message is taken for a reply to the request in progress,
      and it answers a request of another client, or none. */
  lemma MisroutesIff(w: Wire, e: WireEvent)
    requires Inv(w.state) && Possible(w, e)
    ensures Misroutes(w, e) <==>
              && !e.Local? && Taken(w.state, e.msg).Some?
              && Recipient(w, e) != Some(OwnerOf(w.state).value.client)
  {
    var s := w.state;
    if e.Local? {
      forall o | o in Step(s, Seen(e)).outputs ensures !o.Routed? {
        OnlyServerRoutes(s, e.event, o);
      }
    } else {
      ServerReaction(s, e.msg);
      if Taken(s, e.msg).Some? {
        SendRequests(Idle(s));
        assert Step(s, Seen(e)).outputs[0] in Step(s, Seen(e)).outputs;
      }
    }
  }

  // ----- Every run -------------------------------------------------------------------------

  lemma ServerStep(w: Wire, msg: Message)
    requires Inv(w.state)
    ensures var r := Step(w.state, ServerRaw(msg));
            && Inv(r.state)
            && Requests(r.outputs) == OneRequest(if Taken(w.state, msg) == Some(true) then OwnerOf(r.state) else None)
            && (Taken(w.state, msg) != Some(true) ==> r.state == w.state)
  {
    var s := w.state;
    ServerReaction(s, msg);
    if Taken(s, msg) == Some(true) {
      RequestsAfter(Routed(s.doing.value, msg, true), Idle(s));
    } else if Taken(s, msg) == Some(false) {
      OneOutput(Routed(s.doing.value, msg, false));
    }
  }

  /** The module gives up the request in progress although the connection goes on. */
  predicate GivesUp(s: State, e: Event) {
    (e.Timeout? && s.timer) || (e.ClientDisconnect? && s.doing == Some(e.client))
  }

  lemma LocalStep(s: State, e: Event)
    requires Inv(s) && !e.ServerRaw?
    ensures var r := Step(s, e);
            && Inv(r.state)
            && (s.doing.Some? && !GivesUp(s, e) && e != Reset ==>
                  OwnerOf(r.state) == OwnerOf(s) && Requests(r.outputs) == [])
            && (s.doing.None? || GivesUp(s, e) || e == Reset ==> Requests(r.outputs) == OneRequest(OwnerOf(r.state)))
  {
    match e
    case UserRaw(c, msg, connected) =>
      if s.doing.None? && Routable(msg, connected).Some? {
        SendRequests(Queued(s, c, Request(msg, Routable(msg, connected).value)));
      }
    case ClientDisconnect(c) =>
      var rest := (if s.doing == Some(c) then Idle(s) else s).(pending := s.pending - {c});
      if s.doing == Some(c) {
        RequestsAfter(Dropped, rest);
      } else if s.doing.None? {
        SendRequests(rest);
        assert [] + Send(rest).outputs == Send(rest).outputs;
      } else {
        assert [] + Send(rest).outputs == [];
      }
    case Reset => OneOutput(Dropped);
    case Timeout =>
      if s.timer {
        RequestsAfter(Dropped, Idle(s));
      }
  }

  /** Whatever is given up and whatever goes astray, the request in progress is the last one the
      server has to answer. */
  lemma StepWireInv(w: Wire, e: WireEvent)
    requires WireInv(w) && Possible(w, e)
    ensures WireInv(WireStep(w, e))
  {
    if e.Local? {
      LocalWireInv(w, e.event);
    } else {
      ServerWireInv(w, e);
    }
  }

  lemma LocalWireInv(w: Wire, e: Event)
    requires WireInv(w) && !e.ServerRaw?
    ensures WireInv(WireStep(w, Local(e)))
  {
    LocalStep(w.state, e);
  }

  lemma ServerWireInv(w: Wire, e: WireEvent)
    requires WireInv(w) && Possible(w, e) && !e.Local?
    ensures WireInv(WireStep(w, e))
  {
    ServerStep(w, e.msg);
  }

  predicate AllPossible(w: Wire, events: seq<WireEvent>)
    decreases |events|
  {
    events == [] || (Possible(w, events[0]) && AllPossible(WireStep(w, events[0]), events[1..]))
  }

  function WireRun(w: Wire, events: seq<WireEvent>): Wire
    requires AllPossible(w, events)
    decreases |events|
  {
    if events == [] then w else WireRun(WireStep(w, events[0]), events[1..])
  }

  lemma {:induction false} RunWireInv(w: Wire, events: seq<WireEvent>)
    requires WireInv(w) && AllPossible(w, events)
    ensures WireInv(WireRun(w, events))
    decreases |events|
  {
    if events != [] {
      StepWireInv(w, events[0]);
      RunWireInv(WireStep(w, events[0]), events[1..]);
    }
  }

  /** A message that is not a reply is taken for the last reply to the request in progress. */
  predicate EndsEarly(w: Wire, e: WireEvent) {
    e.Unsolicited? && Taken(w.state, e.msg) == Some(true)
  }

  /** Nothing but the request in progress stays unanswered exactly as long as none is given up and
      none is ended by a message that is no reply. */
  lemma CleanIff(w: Wire, e: WireEvent)
    requires Clean(w) && Possible(w, e)
    ensures Clean(WireStep(w, e)) <==>
              !(e.Local? && w.state.doing.Some? && GivesUp(w.state, e.event)) && !EndsEarly(w, e)
  {
    if e.Local? {
      LocalStep(w.state, e.event);
    } else {
      ServerStep(w, e.msg);
    }
  }

  // ----- Runs in which every reply arrives -------------------------------------------------

  /** An answer goes to the client that asked, first of all and as what it is, and nothing else is
      handed to anybody. */
  ghost predicate Reaches(w: Wire, e: WireEvent)
    requires Possible(w, e)
  {
    && !Misroutes(w, e)
    && (e.Answer? ==>
          var head, outputs := w.unanswered[0], Step(w.state, Seen(e)).outputs;
          outputs != [] && outputs[0] == Routed(head.client, e.msg, Answers(head.request, e.msg).value))
  }

  /** Possible events in which no request is given up and no other message looks like a reply. */
  predicate Proceeds(w: Wire, events: seq<WireEvent>)
    decreases |events|
  {
    events == [] ||
    (&& Possible(w, events[0])
     && !(events[0].Local? && GivesUp(w.state, events[0].event))
     && !(events[0].Unsolicited? && Taken(w.state, events[0].msg).Some?)
     && Proceeds(WireStep(w, events[0]), events[1..]))
  }

  ghost predicate AllReach(w: Wire, events: seq<WireEvent>)
    decreases |events|
  {
    events == [] ||
    (Possible(w, events[0]) && Reaches(w, events[0]) && AllReach(WireStep(w, events[0]), events[1..]))
  }

  lemma CleanReaches(w: Wire, e: WireEvent)
    requires Clean(w) && Possible(w, e)
    requires !(e.Unsolicited? && Taken(w.state, e.msg).Some?)
    ensures Reaches(w, e)
  {
    MisroutesIff(w, e);
    if e.Answer? {
      ServerReaction(w.state, e.msg);
    }
  }

  /** Over every run from a clean state, without a request given up and without other messages that
      look like a reply: every reply reaches the client that issued the request it answers. */
  lemma {:induction false} RepliesReach(w: Wire, events: seq<WireEvent>)
    requires Clean(w) && Proceeds(w, events)
    ensures AllReach(w, events)
    decreases |events|
  {
    if events != [] {
      CleanReaches(w, events[0]);
      CleanIff(w, events[0]);
      RepliesReach(WireStep(w, events[0]), events[1..]);
    }
  }

  // ----- How long replies keep going astray ------------------------------------------------

  /** How many requests the server has still to answer in front of the one in progress. */
  function Lag(w: Wire): int {
    |w.unanswered| - |OneRequest(OwnerOf(w.state))|
  }

  lemma CleanIffNoLag(w: Wire)
    requires WireInv(w)
    ensures Lag(w) >= 0 && (Clean(w) <==> Lag(w) == 0)
  {
  }

  /** The module is done with the request in progress, by a last reply or by giving up. */
  predicate ModuleDone(w: Wire, e: WireEvent) {
    if e.Local? then w.state.doing.Some? && GivesUp(w.state, e.event)
    else Taken(w.state, e.msg) == Some(true)
  }

  /** The server is done with the oldest request. */
  predicate ServerDone(w: Wire, e: WireEvent)
    requires Possible(w, e)
  {
    e.Answer? && Answers(w.unanswered[0].request, e.msg) == Some(true)
  }

  function One(b: bool): int {
    if b then 1 else 0
  }

  /** One done by the module and not by the server is one request more; the other way round one less;
      a new connection starts afresh. */
  lemma StepLag(w: Wire, e: WireEvent)
    requires WireInv(w) && Possible(w, e)
    ensures Lag(WireStep(w, e))
         == if e == Local(Reset) then 0 else Lag(w) + One(ModuleDone(w, e)) - One(ServerDone(w, e))
  {
    if e.Local? {
      LocalStep(w.state, e.event);
    } else {
      ServerStep(w, e.msg);
    }
  }

  /** How often the module, and how often the server, is done with a request. */
  function ModuleCount(w: Wire, events: seq<WireEvent>): int
    requires AllPossible(w, events)
    decreases |events|
  {
    if events == [] then 0
    else One(ModuleDone(w, events[0])) + ModuleCount(WireStep(w, events[0]), events[1..])
  }

  function ServerCount(w: Wire, events: seq<WireEvent>): int
    requires AllPossible(w, events)
    decreases |events|
  {
    if events == [] then 0
    else One(ServerDone(w, events[0])) + ServerCount(WireStep(w, events[0]), events[1..])
  }

  /** Over every run on one connection the server is behind by exactly as many requests more as the
      module is done with and the server is not; what it is behind by lasts until it catches up. */
  lemma {:induction false} RunLag(w: Wire, events: seq<WireEvent>)
    requires WireInv(w) && AllPossible(w, events) && Local(Reset) !in events
    ensures Lag(WireRun(w, events)) == Lag(w) + ModuleCount(w, events) - ServerCount(w, events)
    decreases |events|
  {
    if events != [] {
      assert events[0] in events;
      StepLag(w, events[0]);
      StepWireInv(w, events[0]);
      RunLag(WireStep(w, events[0]), events[1..]);
    }
  }

  /** So a run from a clean state ends in one if and only if both are done equally often. */
  lemma CleanRunIff(w: Wire, events: seq<WireEvent>)
    requires Clean(w) && AllPossible(w, events) && Local(Reset) !in events
    ensures Clean(WireRun(w, events)) <==> ModuleCount(w, events) == ServerCount(w, events)
  {
    RunLag(w, events);
    RunWireInv(w, events);
    CleanIffNoLag(w);
    CleanIffNoLag(WireRun(w, events));
  }

  // ----- A run in which one does not -------------------------------------------------------

  /** A request is given up and its answer comes late: it goes astray exactly when another client's
      request has gone out since, and the answer is one that this request could get. */
  lemma LateAnswerGoesAstray(w: Wire, e: Event, msg: Message)
    requires Clean(w) && w.state.doing.Some? && GivesUp(w.state, e)
    requires Answers(OwnerOf(w.state).value.request, msg).Some?
    ensures var late := WireStep(w, Local(e));
            && Inv(late.state) && Possible(late, Answer(msg))
            && (Misroutes(late, Answer(msg)) <==>
                  late.state.doing.Some? && late.state.doing != w.state.doing && Taken(late.state, msg).Some?)
  {
    LocalStep(w.state, e);
    var late := WireStep(w, Local(e));
    assert late.unanswered[0] == OwnerOf(w.state).value;
    MisroutesIff(late, Answer(msg));
  }

  /** For example: clients 1 and 2 ask, the first request times out, and its answer reaches client 2. */
  lemma TimeoutMisroutes(a: Message, b: Message, end: Message)
    requires a.command == "WHO" && a.kind == Other && b.command == "WHO" && b.kind == Other
    requires Strings.Upper(end.command) == "315"
    ensures var start := Wire(START, []);
            var asked := WireStep(WireStep(start, Local(UserRaw(1, a, true))), Local(UserRaw(2, b, true)));
            var late := WireStep(asked, Local(Timeout));
            && Possible(late, Answer(end)) && Recipient(late, Answer(end)) == Some(1)
            && Step(late.state, ServerRaw(end)).outputs == [Routed(2, end, true)]
            && Misroutes(late, Answer(end))
  {
    var replies := ROUTES[0].replies;
    var ra, rb := Request(a, replies), Request(b, replies);
    WhoIsRouted(a);
    WhoIsRouted(b);
    TwoAsk(a, ra, b, rb);
    TimesOut(a, ra, rb);
    WhoEnds(ra, end);
    WhoEnds(rb, end);
    EndArrives(ra, rb, end);
  }

  /** Client 1 is being served, client 2 waits or not. */
  function Serving(c: int, r: Request, pending: map<int, seq<Request>>): State {
    State(Some(c), Some(r.replies), pending, r.msg, true)
  }

  lemma TwoAsk(a: Message, ra: Request, b: Message, rb: Request)
    requires Routable(a, true) == Some(ra.replies) && ra.msg == a
    requires Routable(b, true) == Some(rb.replies) && rb.msg == b
    ensures var first := WireStep(Wire(START, []), Local(UserRaw(1, a, true)));
            WireStep(first, Local(UserRaw(2, b, true))) == Wire(Serving(1, ra, map[1 := [], 2 := [rb]]), [Owner(1, ra)])
  {
    FirstAsks(1, ra);
    OneOutput(Sent(1, ra));
    var first := Serving(1, ra, map[1 := []]);
    assert Queue(START, 1) + [ra] == [ra] && Request(a, ra.replies) == ra;
    assert Step(START, UserRaw(1, a, true)) == Result(first, [Sent(1, ra)]);
    assert Queue(first, 2) + [rb] == [rb] && Request(b, rb.replies) == rb;
    assert Step(first, UserRaw(2, b, true)) == Result(Serving(1, ra, map[1 := [], 2 := [rb]]), []);
  }

  lemma TimesOut(a: Message, ra: Request, rb: Request)
    ensures WireStep(Wire(Serving(1, ra, map[1 := [], 2 := [rb]]), [Owner(1, ra)]), Local(Timeout))
         == Wire(Serving(2, rb, map[2 := []]), [Owner(1, ra), Owner(2, rb)])
  {
    SecondIsNext(Serving(1, ra, map[1 := [], 2 := [rb]]), rb);
    OneOutput(Dropped);
    OneOutput(Sent(2, rb));
    RequestsConcat([Dropped], [Sent(2, rb)]);
  }

  lemma EndArrives(ra: Request, rb: Request, end: Message)
    requires Answers(ra, end) == Some(true) && Answers(rb, end) == Some(true)
    ensures var late := Wire(Serving(2, rb, map[2 := []]), [Owner(1, ra), Owner(2, rb)]);
            && Possible(late, Answer(end)) && Recipient(late, Answer(end)) == Some(1)
            && Step(late.state, ServerRaw(end)).outputs == [Routed(2, end, true)]
            && Misroutes(late, Answer(end))
  {
    var late := Wire(Serving(2, rb, map[2 := []]), [Owner(1, ra), Owner(2, rb)]);
    assert Request(rb.msg, rb.replies) == rb;
    ServerReaction(late.state, end);
    NothingMore(late.state);
    assert [Routed(2, end, true)] + [] == [Routed(2, end, true)];
    MisroutesIff(late, Answer(end));
  }

  lemma WhoIsRouted(msg: Message)
    requires msg.command == "WHO" && msg.kind == Other
    ensures Routable(msg, true) == Some(ROUTES[0].replies)
  {
    assert ROUTES[0].request == "WHO";
  }

  lemma WhoEnds(r: Request, end: Message)
    requires r.replies == ROUTES[0].replies && Strings.Upper(end.command) == "315"
    ensures Answers(r, end) == Some(true)
  {
    var replies := ROUTES[0].replies;
    assert "315"[0] != "461"[0] && "402"[0] != "315"[0] && "352"[1] != "315"[1];
    assert replies[0].command == "402" && replies[1].command == "352" && replies[2] == Reply("315", true);
    assert replies[1..][0] == replies[1] && replies[1..][1..][0] == replies[2];
    assert Lookup(replies, "315") == Lookup(replies[1..], "315") == Lookup(replies[1..][1..], "315");
  }

  lemma FirstAsks(c: int, r: Request)
    ensures Send(START.(pending := map[c := [r]]))
         == Result(State(Some(c), Some(r.replies), map[c := []], r.msg, true), [Sent(c, r)])
  {
    var s := START.(pending := map[c := [r]]);
    assert s.pending.Keys == {c};
    assert [r][1..] == [];
  }

  lemma SecondIsNext(s: State, r: Request)
    requires s.pending == map[1 := [], 2 := [r]]
    ensures Send(Idle(s)) == Result(State(Some(2), Some(r.replies), map[2 := []], r.msg, true), [Sent(2, r)])
  {
    assert s.pending.Keys == {1, 2};
    assert OrderedSets.Least(s.pending.Keys, Precedes) == 1;
    var rest := Idle(s).(pending := s.pending - {1});
    assert rest.pending == map[2 := [r]];
    assert rest.pending.Keys == {2};
    assert OrderedSets.Least(rest.pending.Keys, Precedes) == 2;
    assert [r][1..] == [];
  }

  lemma NothingMore(s: State)
    requires s.pending == map[2 := []]
    ensures Send(Idle(s)).outputs == []
  {
    assert s.pending.Keys == {2};
    assert OrderedSets.Least(s.pending.Keys, Precedes) == 2;
    assert Idle(s).pending - {2} == map[];
  }
}
