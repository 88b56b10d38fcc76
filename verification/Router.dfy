/** `route_replies`: one request at a time on behalf of many clients, each reply to the client that
    asked. */
module Router {
  import opened Common
  import opened Strings
  import OrderedSets

  datatype Reply = Reply(command: string, last: bool)

  datatype Route = Route(request: string, replies: seq<Reply>)

  datatype Kind = Mode | Topic | Other

  datatype Message = Message(kind: Kind, command: string, params: seq<string>) {
    function Param(i: nat): string {
      if i < |params| then params[i] else ""
    }
  }

  datatype Request = Request(msg: Message, replies: seq<Reply>)

  /** What the module does that others see: a request sent to the server, a reply handed to one
      client (`last` if it completes the request), an outstanding request given up. */
  datatype Output =
    | Sent(client: int, request: Request)
    | Routed(client: int, msg: Message, last: bool)
    | Dropped

  /** The requests that are routed and the replies each of them can bring. */
  const ROUTES: seq<Route> := [
    Route("WHO", [
      Reply("402", true), Reply("352", false), Reply("315", true), Reply("354", false), Reply("403", true)]),
    Route("LIST", [
      Reply("402", true), Reply("321", false), Reply("322", false), Reply("323", true)]),
    Route("NAMES", [
      Reply("353", false), Reply("366", true), Reply("401", true), Reply("403", true)]),
    Route("LUSERS", [
      Reply("251", false), Reply("252", false), Reply("253", false), Reply("254", false), Reply("255", false),
      Reply("265", false), Reply("266", true)]),
    Route("WHOIS", [
      Reply("311", false), Reply("312", false), Reply("313", false), Reply("317", false), Reply("319", false),
      Reply("320", false), Reply("301", false), Reply("276", false), Reply("330", false), Reply("337", false),
      Reply("338", false), Reply("378", false), Reply("671", false), Reply("307", false), Reply("379", false),
      Reply("760", false), Reply("318", true), Reply("401", true), Reply("402", true), Reply("431", true)]),
    Route("PING", [
      Reply("PONG", true), Reply("402", true), Reply("409", true)]),
    Route("USERHOST", [
      Reply("302", true), Reply("461", true)]),
    Route("TIME", [
      Reply("391", true), Reply("402", true)]),
    Route("WHOWAS", [
      Reply("406", false), Reply("312", false), Reply("314", false), Reply("330", false), Reply("338", false),
      Reply("369", true), Reply("431", true)]),
    Route("ISON", [
      Reply("303", true), Reply("461", true)]),
    Route("LINKS", [
      Reply("364", false), Reply("365", true), Reply("402", true)]),
    Route("MAP", [
      Reply("006", false), Reply("270", false), Reply("015", false), Reply("017", true), Reply("007", true),
      Reply("481", true)]),
    Route("TRACE", [
      Reply("200", false), Reply("201", false), Reply("202", false), Reply("203", false), Reply("204", false),
      Reply("205", false), Reply("206", false), Reply("208", false), Reply("261", false), Reply("262", true),
      Reply("402", true)]),
    Route("USERS", [
      Reply("265", false), Reply("266", true), Reply("392", false), Reply("393", false), Reply("394", true),
      Reply("395", false), Reply("402", true), Reply("424", true), Reply("446", true)]),
    Route("METADATA", [
      Reply("761", false), Reply("762", true), Reply("765", true), Reply("766", true), Reply("767", true),
      Reply("768", true), Reply("769", true)]),
    Route("MODE", [
      Reply("482", true), Reply("346", false), Reply("347", true), Reply("367", false), Reply("368", true),
      Reply("348", false), Reply("349", true), Reply("403", true), Reply("442", true), Reply("467", true),
      Reply("472", true), Reply("501", true), Reply("502", true)]),
    Route("TOPIC", [
      Reply("461", true), Reply("403", true), Reply("442", true), Reply("482", true), Reply("331", true),
      Reply("332", false), Reply("333", true)])
  ]

  /** Clients are numbered in the order of the queue map. */
  datatype State = State(
    doing: Option<int>,
    replies: Option<seq<Reply>>,
    pending: map<int, seq<Request>>,
    last: Message,
    timer: bool)

  datatype Event =
    | UserRaw(client: int, msg: Message, connected: bool)
    | ServerRaw(msg: Message)
    | ClientDisconnect(client: int)
    | Reset
    | Timeout

  datatype Result = Result(state: State, outputs: seq<Output>)

  // ----- Choosing and sending -----

  predicate Precedes(a: int, b: int) { a < b }

  lemma Removed<V>(m: map<int, V>, k: int)
    requires k in m
    ensures |m - {k}| == |m| - 1
  {
    assert (m - {k}).Keys == m.Keys - {k};
    assert |(m - {k}).Keys| == |m.Keys| - 1;
  }

  function Send(s: State): Result
    decreases |s.pending|
  {
    if s.doing.Some? || s.replies.Some? || s.pending == map[] then Result(s, [])
    else
      var c := OrderedSets.Least(s.pending.Keys, Precedes);
      if s.pending[c] == [] then
        assert |s.pending - {c}| < |s.pending| by { Removed(s.pending, c); }
        Send(s.(pending := s.pending - {c}))
      else
        Result(AfterSending(s, c), [Sent(c, s.pending[c][0])])
  }

  /** The state after the oldest request of a client has been sent. */
  function AfterSending(s: State, c: int): State
    requires c in s.pending && s.pending[c] != []
  {
    var r := s.pending[c][0];
    State(Some(c), Some(r.replies), s.pending[c := s.pending[c][1..]], r.msg, true)
  }

  function Idle(s: State): State {
    s.(doing := None, replies := None, timer := false)
  }

  function Deliver(s: State, msg: Message, last: bool): Result {
    if s.doing.None? then Result(s, [])
    else if last then
      var next := Send(Idle(s));
      Result(next.state, [Routed(s.doing.value, msg, true)] + next.outputs)
    else Result(s, [Routed(s.doing.value, msg, false)])
  }

  /** The first entry for a reply command. */
  function Lookup(replies: seq<Reply>, command: string): Option<bool> {
    if replies == [] then None
    else if replies[0].command == command then Some(replies[0].last)
    else Lookup(replies[1..], command)
  }

  /** Whether a server message answers the request: a reply of its table, or the complaint about
      missing parameters that names its command. */
  function Answers(r: Request, msg: Message): Option<bool> {
    if Upper(msg.command) == "461" && EqualsNoCase(r.msg.command, msg.Param(1)) then Some(true)
    else Lookup(r.replies, Upper(msg.command))
  }

  function OnServer(s: State, msg: Message): Result {
    if s.replies.None? then Result(s, [])
    else match Answers(Request(s.last, s.replies.value), msg)
      case None => Result(s, [])
      case Some(last) => Deliver(s, msg, last)
  }

  function FindRoute(routes: seq<Route>, command: string): Option<seq<Reply>> {
    if routes == [] then None
    else if routes[0].request == command then Some(routes[0].replies)
    else FindRoute(routes[1..], command)
  }

  /** The replies to wait for, if a client's message is one to route. */
  function Routable(msg: Message, connected: bool): Option<seq<Reply>> {
    if !connected then None
    else if msg.kind == Mode && !IsListQuery(msg) then None
    else if msg.kind == Topic && |msg.params| > 1 then None
    else FindRoute(ROUTES, msg.command)
  }

  /** A channel MODE that asks for one of the lists instead of changing anything. */
  predicate IsListQuery(msg: Message) {
    var mode := TrimPrefix(msg.Param(1), "+");
    |msg.params| <= 2 && |mode| == 1 && mode[0] in {'I', 'b', 'e'}
  }

  function Queue(s: State, c: int): seq<Request> {
    if c in s.pending then s.pending[c] else []
  }

  function OnUser(s: State, c: int, msg: Message, connected: bool): Result {
    match Routable(msg, connected)
    case None => Result(s, [])
    case Some(replies) => Send(Queued(s, c, Request(msg, replies)))
  }

  function Queued(s: State, c: int, request: Request): State {
    s.(pending := s.pending[c := Queue(s, c) + [request]])
  }

  function OnDisconnect(s: State, c: int): Result {
    var owner := s.doing == Some(c);
    var rest := (if owner then Idle(s) else s).(pending := s.pending - {c});
    var next := Send(rest);
    Result(next.state, (if owner then [Dropped] else []) + next.outputs)
  }

  function Step(s: State, e: Event): Result {
    match e
    case UserRaw(c, msg, connected) => OnUser(s, c, msg, connected)
    case ServerRaw(msg) => OnServer(s, msg)
    case ClientDisconnect(c) => OnDisconnect(s, c)
    case Reset => Result(Idle(s).(pending := map[]), if s.doing.Some? then [Dropped] else [])
    case Timeout =>
      if !s.timer then Result(s, [])
      else
        var next := Send(Idle(s));
        Result(next.state, [Dropped] + next.outputs)
  }

  function Run(s: State, events: seq<Event>): Result
    decreases |events|
  {
    if events == [] then Result(s, [])
    else
      var first := Step(s, events[0]);
      var rest := Run(first.state, events[1..]);
      Result(rest.state, first.outputs + rest.outputs)
  }

  const START := State(None, None, map[], Message(Other, "", []), false)

  /** Every request that is routed has a reply that ends it. */
  lemma RoutesEnd(i: nat)
    requires i < |ROUTES|
    ensures exists j :: 0 <= j < |ROUTES[i].replies| && ROUTES[i].replies[j].last
  {
    assert ROUTES[0].replies[0].last;
    assert ROUTES[1].replies[0].last;
    assert ROUTES[2].replies[1].last;
    assert ROUTES[3].replies[6].last;
    assert ROUTES[4].replies[16].last;
    assert ROUTES[5].replies[0].last;
    assert ROUTES[6].replies[0].last;
    assert ROUTES[7].replies[0].last;
    assert ROUTES[8].replies[5].last;
    assert ROUTES[9].replies[0].last;
    assert ROUTES[10].replies[1].last;
    assert ROUTES[11].replies[3].last;
    assert ROUTES[12].replies[9].last;
    assert ROUTES[13].replies[1].last;
    assert ROUTES[14].replies[1].last;
    assert ROUTES[15].replies[0].last;
    assert ROUTES[16].replies[0].last;
  }

  /** The first entry of a table for a command. */
  predicate FirstEntry(replies: seq<Reply>, command: string, i: nat) {
    i < |replies| && replies[i].command == command && forall j :: 0 <= j < i ==> replies[j].command != command
  }

  lemma {:induction false} LookupIs(replies: seq<Reply>, command: string)
    ensures (forall i :: 0 <= i < |replies| ==> replies[i].command != command) ==> Lookup(replies, command) == None
    ensures forall i: nat :: FirstEntry(replies, command, i) ==> Lookup(replies, command) == Some(replies[i].last)
  {
    if replies != [] {
      var more := replies[1..];
      LookupIs(more, command);
      forall i: nat | FirstEntry(replies, command, i) ensures Lookup(replies, command) == Some(replies[i].last) {
        if i > 0 {
          assert replies[0].command != command;
          assert forall j :: 0 <= j < i - 1 ==> more[j] == replies[j + 1];
          assert FirstEntry(more, command, i - 1);
        }
      }
      if forall i :: 0 <= i < |replies| ==> replies[i].command != command {
        assert replies[0].command != command;
        forall i | 0 <= i < |more| ensures more[i].command != command {
          assert more[i] == replies[i + 1];
        }
      }
    }
  }

  /** A server message answers a request if the request's table has its command, case ignored, and ends
      the answer if the first such entry says so; 461 that names the request's own command ends it in
      any case. */
  lemma AnswersMean(r: Request, msg: Message)
    ensures var command := Upper(msg.command);
            var named := if |msg.params| > 1 then msg.params[1] else "";
            if command == "461" && Lower(named) == Lower(r.msg.command) then Answers(r, msg) == Some(true)
            else
              && ((forall i :: 0 <= i < |r.replies| ==> r.replies[i].command != command) ==> Answers(r, msg) == None)
              && forall i: nat :: FirstEntry(r.replies, command, i) ==> Answers(r, msg) == Some(r.replies[i].last)
  {
    LookupIs(r.replies, Upper(msg.command));
  }

  lemma RunFront(s: State, e: Event, more: seq<Event>, first: Result, rest: Result)
    requires first == Step(s, e) && rest == Run(first.state, more)
    ensures Run(s, [e] + more) == Result(rest.state, first.outputs + rest.outputs)
  {
    assert ([e] + more)[1..] == more;
  }

  /** A run from a state in two parts. */
  ghost predicate InTwo(s: State, a: seq<Event>, b: seq<Event>) {
    var first := Run(s, a);
    var rest := Run(first.state, b);
    Run(s, a + b) == Result(rest.state, first.outputs + rest.outputs)
  }

  lemma FrontInTwo(s: State, e: Event, more: seq<Event>, b: seq<Event>)
    requires InTwo(Step(s, e).state, more, b)
    ensures InTwo(s, [e] + more, b)
  {
    var first := Step(s, e);
    var mid := Run(first.state, more);
    var rest := Run(mid.state, b);
    RunFront(s, e, more, first, mid);
    RunFront(s, e, more + b, first, Run(first.state, more + b));
    Associative([e], more, b);
    Associative(first.outputs, mid.outputs, rest.outputs);
  }

  lemma {:induction false} RunConcat(s: State, a: seq<Event>, b: seq<Event>)
    ensures InTwo(s, a, b)
    decreases |a|
  {
    if a == [] {
      assert a + b == b;
      assert [] + Run(s, b).outputs == Run(s, b).outputs;
    } else {
      RunConcat(Step(s, a[0]).state, a[1..], b);
      FrontInTwo(s, a[0], a[1..], b);
      assert [a[0]] + a[1..] == a;
    }
  }

  // ----- Which messages are routed -----

  /** The commands that are routed at all. */
  predicate Listed(command: string) {
    command in {
      "WHO", "LIST", "NAMES", "LUSERS", "WHOIS", "PING", "USERHOST", "TIME", "WHOWAS", "ISON", "LINKS", "MAP",
      "TRACE", "USERS", "METADATA", "MODE", "TOPIC"}
  }

  /** The messages that ask for something the server answers: of the modes, those that ask for a ban,
      exception or invite list and give no argument; of the topics, those that set none. */
  predicate Wanted(msg: Message, connected: bool) {
    && connected && Listed(msg.command)
    && (msg.kind == Mode ==> |msg.params| == 2 && msg.params[1] in {"I", "b", "e", "+I", "+b", "+e"})
    && (msg.kind == Topic ==> |msg.params| <= 1)
  }

  lemma {:induction false} Found(routes: seq<Route>, command: string)
    ensures FindRoute(routes, command).Some? <==> exists i :: 0 <= i < |routes| && routes[i].request == command
    ensures FindRoute(routes, command).Some? ==> Route(command, FindRoute(routes, command).value) in routes
  {
    if routes != [] {
      Found(routes[1..], command);
      if i :| 0 <= i < |routes| && routes[i].request == command {
        assert i > 0 ==> routes[1..][i - 1].request == command;
      }
      if i :| 0 <= i < |routes[1..]| && routes[1..][i].request == command {
        assert routes[i + 1].request == command;
      }
    }
  }

  function RequestNames(routes: seq<Route>): (r: seq<string>)
    ensures |r| == |routes| && forall i :: 0 <= i < |r| ==> r[i] == routes[i].request
  {
    seq(|routes|, i requires 0 <= i < |routes| => routes[i].request)
  }

  lemma ListedIs(command: string)
    ensures Listed(command) <==> exists i :: 0 <= i < |ROUTES| && ROUTES[i].request == command
  {
    var all := RequestNames(ROUTES);
    assert all == [
      "WHO", "LIST", "NAMES", "LUSERS", "WHOIS", "PING", "USERHOST", "TIME", "WHOWAS", "ISON", "LINKS", "MAP",
      "TRACE", "USERS", "METADATA", "MODE", "TOPIC"];
    assert Listed(command) <==> command in all;
  }

  lemma ListQueryIs(msg: Message)
    ensures IsListQuery(msg) <==> |msg.params| == 2 && msg.params[1] in {"I", "b", "e", "+I", "+b", "+e"}
  {
    var p := msg.Param(1);
    StartsWithExact(p, "+");
    if p != "" {
      assert p[..1] == [p[0]];
      assert p[0] == '+' ==> p == "+" + p[1..];
    }
    if |p| == 1 {
      assert p == [p[0]];
    } else if |p| == 2 {
      assert p == [p[0], p[1]] && p[1..] == [p[1]];
    }
  }

  lemma RoutableIs(msg: Message, connected: bool)
    ensures Routable(msg, connected).Some? <==> Wanted(msg, connected)
    ensures Wanted(msg, connected) ==> Route(msg.command, Routable(msg, connected).value) in ROUTES
  {
    Found(ROUTES, msg.command);
    ListedIs(msg.command);
    ListQueryIs(msg);
  }

  // ----- The module -----

  class RouteReplies {
    var doing: Option<int>
    var replies: Option<seq<Reply>>
    var pending: map<int, seq<Request>>
    var lastRequest: Message
    var timer: bool
    var log: seq<Output>

    function Current(): State
      reads this
    {
      State(doing, replies, pending, lastRequest, timer)
    }

    constructor ()
      ensures Current() == START && log == []
    {
      doing, replies, pending := None, None, map[];
      lastRequest, timer, log := Message(Other, "", []), false, [];
    }

    method SendRequest()
      modifies this
      ensures Current() == Send(old(Current())).state
      ensures log == old(log) + Send(old(Current())).outputs
      decreases |pending|
    {
      if doing.Some? || replies.Some? {
        return;
      }
      if pending == map[] {
        return;
      }
      var c := OrderedSets.Least(pending.Keys, Precedes);
      if pending[c] == [] {
        Removed(pending, c);
        pending := pending - {c};
        SendRequest();
        return;
      }
      SendFirst(c);
    }

    method SendFirst(c: int)
      requires c in pending && pending[c] != []
      modifies this
      ensures Current() == AfterSending(old(Current()), c)
      ensures log == old(log) + [Sent(c, old(pending[c][0]))]
    {
      timer := true;
      doing := Some(c);
      replies := Some(pending[c][0].replies);
      lastRequest := pending[c][0].msg;
      log := log + [Sent(c, pending[c][0])];
      pending := pending[c := pending[c][1..]];
    }

    method RouteReply(msg: Message, finished: bool) returns (routed: bool)
      modifies this
      ensures routed == old(doing).Some?
      ensures Current() == Deliver(old(Current()), msg, finished).state
      ensures log == old(log) + Deliver(old(Current()), msg, finished).outputs
    {
      if doing.None? {
        return false;
      }
      log := log + [Routed(doing.value, msg, finished)];
      if finished {
        timer := false;
        doing := None;
        replies := None;
        SendRequest();
      }
      return true;
    }

    /** Returns whether the message is kept from all other clients. */
    method OnRawMessage(msg: Message) returns (halt: bool)
      modifies this
      ensures Current() == OnServer(old(Current()), msg).state
      ensures log == old(log) + OnServer(old(Current()), msg).outputs
      ensures halt <==> |log| > |old(log)|
    {
      if replies.None? {
        return false;
      }
      if Upper(msg.command) == "461" && EqualsNoCase(lastRequest.command, msg.Param(1)) {
        halt := RouteReply(msg, true);
        return;
      }
      var i := 0;
      while i < |replies.value|
        invariant i <= |replies.value| && Current() == old(Current()) && log == old(log)
        invariant Lookup(replies.value[i..], Upper(msg.command)) == Lookup(replies.value, Upper(msg.command))
      {
        if replies.value[i].command == Upper(msg.command) {
          halt := RouteReply(msg, replies.value[i].last);
          return;
        }
        assert replies.value[i..][1..] == replies.value[i + 1..];
        i := i + 1;
      }
      return false;
    }

    /** Returns whether the message was taken over: then it is queued as a request, otherwise
        nothing happens. */
    method OnUserRawMessage(c: int, msg: Message, connected: bool) returns (halt: bool)
      modifies this
      ensures halt <==> Wanted(msg, connected)
      ensures !halt ==> Current() == old(Current()) && log == old(log)
      ensures halt ==>
                exists r :: Route(msg.command, r) in ROUTES &&
                  Current() == Send(Queued(old(Current()), c, Request(msg, r))).state
      ensures Current() == OnUser(old(Current()), c, msg, connected).state
      ensures log == old(log) + OnUser(old(Current()), c, msg, connected).outputs
    {
      RoutableIs(msg, connected);
      if !connected || (msg.kind == Mode && !IsListQuery(msg)) || (msg.kind == Topic && |msg.params| > 1) {
        return false;
      }
      var replies := FindReplies(ROUTES, msg.command);
      if replies.None? {
        return false;
      }
      Enqueue(c, Request(msg, replies.value));
      return true;
    }

    method FindReplies(routes: seq<Route>, command: string) returns (replies: Option<seq<Reply>>)
      ensures replies == FindRoute(routes, command)
    {
      var i := 0;
      while i < |routes|
        invariant i <= |routes| && FindRoute(routes[i..], command) == FindRoute(routes, command)
      {
        if routes[i].request == command {
          return Some(routes[i].replies);
        }
        assert routes[i..][1..] == routes[i + 1..];
        i := i + 1;
      }
      return None;
    }

    method Enqueue(c: int, request: Request)
      modifies this
      ensures Current() == Send(Queued(old(Current()), c, request)).state
      ensures log == old(log) + Send(Queued(old(Current()), c, request)).outputs
    {
      var queue := if c in pending then pending[c] else [];
      pending := pending[c := queue + [request]];
      SendRequest();
    }

    method OnClientDisconnect(c: int)
      modifies this
      ensures Current() == OnDisconnect(old(Current()), c).state
      ensures log == old(log) + OnDisconnect(old(Current()), c).outputs
    {
      if doing == Some(c) {
        timer := false;
        log := log + [Dropped];
        doing := None;
        replies := None;
      }
      pending := pending - {c};
      SendRequest();
    }

    method OnIRCConnected()
      modifies this
      ensures Current() == Step(old(Current()), Reset).state
      ensures log == old(log) + Step(old(Current()), Reset).outputs
    {
      if doing.Some? {
        log := log + [Dropped];
      }
      doing, replies, pending, timer := None, None, map[], false;
    }

    method OnTimeout()
      requires timer
      modifies this
      ensures Current() == Step(old(Current()), Timeout).state
      ensures log == old(log) + Step(old(Current()), Timeout).outputs
    {
      timer := false;
      log := log + [Dropped];
      doing := None;
      replies := None;
      SendRequest();
    }
  }

  // ----- Work conservation -----

  predicate Inv(s: State) {
    && (s.doing.Some? <==> s.replies.Some?)
    && (s.timer <==> s.doing.Some?)
    && (s.doing.None? ==> s.pending == map[])
  }

  /** The module starts there. */
  lemma StartInv()
    ensures Inv(START)
  {
  }

  lemma {:induction false} SendInv(s: State)
    requires (s.doing.Some? <==> s.replies.Some?) && (s.timer <==> s.doing.Some?)
    ensures Inv(Send(s).state)
    decreases |s.pending|
  {
    if s.doing.None? && s.pending != map[] {
      var c := OrderedSets.Least(s.pending.Keys, Precedes);
      if s.pending[c] == [] {
        Removed(s.pending, c);
        SendInv(s.(pending := s.pending - {c}));
      }
    }
  }

  lemma StepInv(s: State, e: Event)
    requires Inv(s)
    ensures Inv(Step(s, e).state)
  {
    SendInv(Idle(s));
    match e
    case UserRaw(c, msg, connected) =>
      if Routable(msg, connected).Some? {
        SendInv(Queued(s, c, Request(msg, Routable(msg, connected).value)));
      }
    case ClientDisconnect(c) =>
      SendInv((if s.doing == Some(c) then Idle(s) else s).(pending := s.pending - {c}));
    case _ =>
  }

  /** After every event: the current client, the expected replies and the recovery timer are there
      together or not at all, and nothing in progress means nothing waiting. */
  lemma {:induction false} RunInv(s: State, events: seq<Event>)
    requires Inv(s)
    ensures Inv(Run(s, events).state)
    decreases |events|
  {
    if events != [] {
      StepInv(s, events[0]);
      RunInv(Step(s, events[0]).state, events[1..]);
    }
  }

  /** The queue map only loses entries, and only empty ones or those of the sending client shrink. */
  lemma {:induction false} SendQueues(s: State, c: int)
    ensures var r := Send(s);
            && (c in r.state.pending ==> c in s.pending)
            && Queue(s, c) == SentTo(c, r.outputs) + Queue(r.state, c)
    decreases |s.pending|
  {
    if s.doing.None? && s.replies.None? && s.pending != map[] {
      var least := OrderedSets.Least(s.pending.Keys, Precedes);
      if s.pending[least] == [] {
        Removed(s.pending, least);
        SendQueues(s.(pending := s.pending - {least}), c);
      } else {
        SendFirstQueue(s, c, least);
      }
    }
  }

  lemma SendFirstQueue(s: State, c: int, least: int)
    requires s.doing.None? && s.replies.None? && s.pending != map[]
    requires least == OrderedSets.Least(s.pending.Keys, Precedes) && s.pending[least] != []
    ensures var r := Send(s);
            && (c in r.state.pending ==> c in s.pending)
            && Queue(s, c) == SentTo(c, r.outputs) + Queue(r.state, c)
  {
    var queue := s.pending[least];
    SentToOne(c, Sent(least, queue[0]));
    assert queue == [queue[0]] + queue[1..];
  }

  /** A client that has left is neither being served nor waiting. */
  lemma DisconnectedIsGone(s: State, c: int)
    requires Inv(s)
    ensures var t := Step(s, ClientDisconnect(c)).state;
            t.doing != Some(c) && c !in t.pending
  {
    var rest := (if s.doing == Some(c) then Idle(s) else s).(pending := s.pending - {c});
    SendQueues(rest, c);
    SendServesQueued(rest);
  }

  lemma {:induction false} SendServesQueued(s: State)
    ensures Send(s).state.doing == s.doing || (Send(s).state.doing.Some? && Send(s).state.doing.value in s.pending)
    decreases |s.pending|
  {
    if s.doing.None? && s.replies.None? && s.pending != map[] {
      var least := OrderedSets.Least(s.pending.Keys, Precedes);
      if s.pending[least] == [] {
        Removed(s.pending, least);
        SendServesQueued(s.(pending := s.pending - {least}));
      }
    }
  }

  // ----- No request lost, repeated or reordered -----

  /** The requests of one client sent to the server. */
  function SentTo(c: int, outputs: seq<Output>): seq<Request> {
    if outputs == [] then []
    else (if outputs[0].Sent? && outputs[0].client == c then [outputs[0].request] else [])
         + SentTo(c, outputs[1..])
  }

  lemma SentToOne(c: int, o: Output)
    ensures SentTo(c, [o]) == if o.Sent? && o.client == c then [o.request] else []
  {
    assert [o][1..] == [];
  }

  lemma {:induction false} SentToConcat(c: int, a: seq<Output>, b: seq<Output>)
    ensures SentTo(c, a + b) == SentTo(c, a) + SentTo(c, b)
  {
    if a == [] {
      assert a + b == b;
    } else {
      assert (a + b)[1..] == a[1..] + b;
      SentToConcat(c, a[1..], b);
    }
  }

  /** What was taken from a client, and what of it was sent, since it last started afresh. */
  datatype History = History(accepted: seq<Request>, sent: seq<Request>)

  function Track(c: int, h: History, s: State, e: Event): History {
    if e == ClientDisconnect(c) || e == Reset then History([], [])
    else
      var taken :=
        if e.UserRaw? && e.client == c && Routable(e.msg, e.connected).Some?
        then [Request(e.msg, Routable(e.msg, e.connected).value)] else [];
      History(h.accepted + taken, h.sent + SentTo(c, Step(s, e).outputs))
  }

  function TrackAll(c: int, h: History, s: State, events: seq<Event>): History
    decreases |events|
  {
    if events == [] then h
    else TrackAll(c, Track(c, h, s, events[0]), Step(s, events[0]).state, events[1..])
  }

  lemma NotSent(c: int, o: Output, outputs: seq<Output>)
    requires !o.Sent?
    ensures SentTo(c, [o] + outputs) == SentTo(c, outputs)
  {
    SentToOne(c, o);
    SentToConcat(c, [o], outputs);
  }

  lemma DisconnectQueue(c: int, s: State, d: int)
    requires c != d
    ensures Queue(s, c) == SentTo(c, OnDisconnect(s, d).outputs) + Queue(OnDisconnect(s, d).state, c)
  {
    var rest := (if s.doing == Some(d) then Idle(s) else s).(pending := s.pending - {d});
    SendQueues(rest, c);
    NotSent(c, Dropped, Send(rest).outputs);
    assert [] + Send(rest).outputs == Send(rest).outputs;
  }

  lemma ServerQueue(c: int, s: State, msg: Message)
    ensures Queue(s, c) == SentTo(c, OnServer(s, msg).outputs) + Queue(OnServer(s, msg).state, c)
  {
    if OnServer(s, msg).outputs != [] {
      DeliverQueue(c, s, msg, OnServer(s, msg).outputs[0].last);
    }
  }

  lemma DeliverQueue(c: int, s: State, msg: Message, last: bool)
    requires s.doing.Some?
    ensures Queue(s, c) == SentTo(c, Deliver(s, msg, last).outputs) + Queue(Deliver(s, msg, last).state, c)
  {
    var o := Routed(s.doing.value, msg, last);
    if last {
      SendQueues(Idle(s), c);
      NotSent(c, o, Send(Idle(s)).outputs);
    } else {
      SentToOne(c, o);
    }
  }

  lemma UserQueue(c: int, s: State, d: int, msg: Message, connected: bool)
    ensures var e := UserRaw(d, msg, connected);
            Queue(s, c) + Track(c, History([], []), s, e).accepted
              == SentTo(c, Step(s, e).outputs) + Queue(Step(s, e).state, c)
  {
    if Routable(msg, connected).Some? {
      SendQueues(Queued(s, d, Request(msg, Routable(msg, connected).value)), c);
    }
  }

  lemma StepQueue(c: int, s: State, e: Event)
    requires e != ClientDisconnect(c) && e != Reset
    ensures var taken := Track(c, History([], []), s, e).accepted;
            Queue(s, c) + taken == SentTo(c, Step(s, e).outputs) + Queue(Step(s, e).state, c)
  {
    match e
    case UserRaw(d, msg, connected) => UserQueue(c, s, d, msg, connected);
    case ServerRaw(msg) => ServerQueue(c, s, msg);
    case ClientDisconnect(d) => DisconnectQueue(c, s, d);
    case Timeout => TimeoutQueue(c, s);
  }

  lemma TimeoutQueue(c: int, s: State)
    ensures Queue(s, c) == SentTo(c, Step(s, Timeout).outputs) + Queue(Step(s, Timeout).state, c)
  {
    SendQueues(Idle(s), c);
    NotSent(c, Dropped, Send(Idle(s)).outputs);
  }

  lemma Regroup<T>(front: seq<T>, a: seq<T>, b: seq<T>, c: seq<T>, d: seq<T>)
    requires a + b == c + d
    ensures front + a + b == front + c + d
  {
    Associative(front, a, b);
    Associative(front, c, d);
  }

  lemma StepLosesNothing(c: int, h: History, s: State, e: Event)
    requires h.accepted == h.sent + Queue(s, c)
    ensures Track(c, h, s, e).accepted == Track(c, h, s, e).sent + Queue(Step(s, e).state, c)
  {
    if e == ClientDisconnect(c) {
      SendQueues((if s.doing == Some(c) then Idle(s) else s).(pending := s.pending - {c}), c);
    } else if e != Reset {
      var taken, sent := Track(c, History([], []), s, e).accepted, SentTo(c, Step(s, e).outputs);
      assert Track(c, h, s, e) == History(h.accepted + taken, h.sent + sent);
      StepQueue(c, s, e);
      Regroup(h.sent, Queue(s, c), taken, sent, Queue(Step(s, e).state, c));
    }
  }

  /** Whatever happens, the requests of a client that were sent, followed by those still in its
      queue, are exactly the requests taken from it, in order: none lost, repeated or reordered. */
  lemma {:induction false} NothingLost(c: int, h: History, s: State, events: seq<Event>)
    requires h.accepted == h.sent + Queue(s, c)
    ensures var t := TrackAll(c, h, s, events);
            t.accepted == t.sent + Queue(Run(s, events).state, c)
    decreases |events|
  {
    if events != [] {
      StepLosesNothing(c, h, s, events[0]);
      NothingLost(c, Track(c, h, s, events[0]), Step(s, events[0]).state, events[1..]);
    }
  }

  // ----- One request at a time, every reply to the client that asked -----

  /** The outstanding request and its client. */
  datatype Owner = Owner(client: int, request: Request)

  function OwnerOf(s: State): Option<Owner> {
    if s.doing.None? || s.replies.None? then None else Some(Owner(s.doing.value, Request(s.last, s.replies.value)))
  }

  /** An output that may follow: a request only when none is outstanding, a reply only to the client
      of the outstanding request and only if it answers that request. */
  predicate Proper(owner: Option<Owner>, o: Output) {
    match o
    case Sent(_, _) => owner.None?
    case Routed(c, msg, last) =>
      owner.Some? && owner.value.client == c && Answers(owner.value.request, msg) == Some(last)
    case Dropped => owner.Some?
  }

  function OwnerAfter(owner: Option<Owner>, o: Output): Option<Owner> {
    match o
    case Sent(c, request) => Some(Owner(c, request))
    case Routed(_, _, last) => if last then None else owner
    case Dropped => None
  }

  /** A whole trace of proper outputs leading from one outstanding request to another. */
  predicate Trace(from: Option<Owner>, outputs: seq<Output>, to: Option<Owner>)
    decreases |outputs|
  {
    if outputs == [] then from == to
    else Proper(from, outputs[0]) && Trace(OwnerAfter(from, outputs[0]), outputs[1..], to)
  }

  lemma {:induction false} TraceConcat(from: Option<Owner>, a: seq<Output>, via: Option<Owner>,
                                       b: seq<Output>, to: Option<Owner>)
    requires Trace(from, a, via) && Trace(via, b, to)
    ensures Trace(from, a + b, to)
    decreases |a|
  {
    if a == [] {
      assert a + b == b;
    } else {
      assert (a + b)[1..] == a[1..] + b;
      TraceConcat(OwnerAfter(from, a[0]), a[1..], via, b, to);
    }
  }

  lemma TraceOne(from: Option<Owner>, o: Output)
    requires Proper(from, o)
    ensures Trace(from, [o], OwnerAfter(from, o))
  {
    assert [o][1..] == [];
  }

  lemma {:induction false} SendTrace(s: State)
    requires s.doing.None? && s.replies.None? && !s.timer
    ensures Inv(Send(s).state) && Trace(None, Send(s).outputs, OwnerOf(Send(s).state))
    decreases |s.pending|
  {
    SendInv(s);
    if s.pending != map[] {
      var c := OrderedSets.Least(s.pending.Keys, Precedes);
      if s.pending[c] == [] {
        Removed(s.pending, c);
        SendTrace(s.(pending := s.pending - {c}));
      } else {
        TraceOne(None, Sent(c, s.pending[c][0]));
      }
    }
  }

  lemma SendAfter(from: Option<Owner>, o: Output, s: State)
    requires s.doing.None? && s.replies.None? && !s.timer
    requires Proper(from, o) && OwnerAfter(from, o) == None
    ensures Inv(Send(s).state) && Trace(from, [o] + Send(s).outputs, OwnerOf(Send(s).state))
  {
    TraceOne(from, o);
    SendTrace(s);
    TraceConcat(from, [o], None, Send(s).outputs, OwnerOf(Send(s).state));
  }

  lemma StepTrace(s: State, e: Event)
    requires Inv(s)
    ensures Inv(Step(s, e).state)
    ensures Trace(OwnerOf(s), Step(s, e).outputs, OwnerOf(Step(s, e).state))
  {
    StepInv(s, e);
    match e
    case UserRaw(c, msg, connected) =>
      if s.doing.None? && Routable(msg, connected).Some? {
        SendTrace(Queued(s, c, Request(msg, Routable(msg, connected).value)));
      }
    case ServerRaw(msg) =>
      if s.doing.Some? && Answers(OwnerOf(s).value.request, msg).Some? {
        var last := Answers(OwnerOf(s).value.request, msg).value;
        var o := Routed(s.doing.value, msg, last);
        if last {
          SendAfter(OwnerOf(s), o, Idle(s));
        } else {
          TraceOne(OwnerOf(s), o);
        }
      }
    case ClientDisconnect(c) =>
      var rest := (if s.doing == Some(c) then Idle(s) else s).(pending := s.pending - {c});
      if s.doing == Some(c) {
        SendAfter(OwnerOf(s), Dropped, rest);
      } else if s.doing.None? {
        SendTrace(rest);
        assert [] + Send(rest).outputs == Send(rest).outputs;
      } else {
        assert [] + Send(rest).outputs == [];
      }
    case Reset =>
      if s.doing.Some? {
        TraceOne(OwnerOf(s), Dropped);
      }
    case Timeout =>
      if s.timer {
        SendAfter(OwnerOf(s), Dropped, Idle(s));
      }
  }

  /** Over every run: a request goes out only when none is outstanding, and every routed reply goes
      to the client of the outstanding request, answers it, and is the last one exactly when the
      request is then over. */
  lemma {:induction false} RunTrace(s: State, events: seq<Event>)
    requires Inv(s)
    ensures Inv(Run(s, events).state)
    ensures Trace(OwnerOf(s), Run(s, events).outputs, OwnerOf(Run(s, events).state))
    decreases |events|
  {
    if events != [] {
      var next := Step(s, events[0]).state;
      StepTrace(s, events[0]);
      RunTrace(next, events[1..]);
      TraceConcat(OwnerOf(s), Step(s, events[0]).outputs, OwnerOf(next),
                  Run(next, events[1..]).outputs, OwnerOf(Run(next, events[1..]).state));
    }
  }

  /** The messages of a complete answer: replies of the request, only the last one final. */
  predicate CompleteAnswer(r: Request, msgs: seq<Message>) {
    && msgs != []
    && (forall i :: 0 <= i < |msgs| - 1 ==> Answers(r, msgs[i]) == Some(false))
    && Answers(r, msgs[|msgs| - 1]) == Some(true)
  }

  function Replies(msgs: seq<Message>): (events: seq<Event>)
    ensures |events| == |msgs|
  {
    seq(|msgs|, i requires 0 <= i < |msgs| => ServerRaw(msgs[i]))
  }

  function RoutedTo(c: int, msgs: seq<Message>): seq<Output> {
    if msgs == [] then [] else [Routed(c, msgs[0], |msgs| == 1)] + RoutedTo(c, msgs[1..])
  }

  lemma LastReply(s: State, owner: Owner, msg: Message)
    requires Inv(s) && OwnerOf(s) == Some(owner) && Answers(owner.request, msg) == Some(true)
    ensures Run(s, [ServerRaw(msg)])
         == Result(Send(Idle(s)).state, [Routed(owner.client, msg, true)] + Send(Idle(s)).outputs)
  {
    var step := Step(s, ServerRaw(msg));
    RunFront(s, ServerRaw(msg), [], step, Result(step.state, []));
    assert [ServerRaw(msg)] + [] == [ServerRaw(msg)] && step.outputs + [] == step.outputs;
  }

  lemma EarlierReply(s: State, owner: Owner, msg: Message, more: seq<Event>, rest: Result)
    requires Inv(s) && OwnerOf(s) == Some(owner) && Answers(owner.request, msg) == Some(false)
    requires rest == Run(s, more)
    ensures Run(s, [ServerRaw(msg)] + more) == Result(rest.state, [Routed(owner.client, msg, false)] + rest.outputs)
  {
    RunFront(s, ServerRaw(msg), more, Result(s, [Routed(owner.client, msg, false)]), rest);
  }

  lemma MoreAnswer(r: Request, msgs: seq<Message>)
    requires CompleteAnswer(r, msgs) && |msgs| > 1
    ensures Answers(r, msgs[0]) == Some(false) && CompleteAnswer(r, msgs[1..])
    ensures Replies(msgs) == [ServerRaw(msgs[0])] + Replies(msgs[1..])
  {
    var more := msgs[1..];
    forall i | 0 <= i < |more| - 1 ensures Answers(r, more[i]) == Some(false) {
      assert more[i] == msgs[i + 1];
    }
  }

  /** A complete answer of the server reaches the client that asked, whole and in order, and nobody
      else; then the next waiting request goes out. */
  lemma {:induction false} AnswerReachesClient(s: State, msgs: seq<Message>)
    requires Inv(s) && s.doing.Some? && CompleteAnswer(OwnerOf(s).value.request, msgs)
    ensures Run(s, Replies(msgs))
         == Result(Send(Idle(s)).state, RoutedTo(s.doing.value, msgs) + Send(Idle(s)).outputs)
    decreases |msgs|
  {
    var owner, next := OwnerOf(s).value, Send(Idle(s));
    if |msgs| == 1 {
      LastReply(s, owner, msgs[0]);
      assert Replies(msgs) == [ServerRaw(msgs[0])];
      assert RoutedTo(owner.client, msgs) == [Routed(owner.client, msgs[0], true)];
    } else {
      MoreAnswer(owner.request, msgs);
      AnswerReachesClient(s, msgs[1..]);
      var routed := RoutedTo(owner.client, msgs[1..]);
      EarlierReply(s, owner, msgs[0], Replies(msgs[1..]), Result(next.state, routed + next.outputs));
      Associative([Routed(owner.client, msgs[0], false)], routed, next.outputs);
    }
  }

  // ----- Which client is served next -----

  /** The client with the lowest number among those with a request waiting, and its oldest request. */
  ghost predicate ServesLeast(s: State, outputs: seq<Output>) {
    if outputs == [] then forall d :: Queue(s, d) == []
    else
      && |outputs| == 1 && outputs[0].Sent?
      && Queue(s, outputs[0].client) != [] && outputs[0].request == Queue(s, outputs[0].client)[0]
      && forall d :: Queue(s, d) != [] ==> outputs[0].client <= d
  }

  lemma {:induction false} SendServesLeast(s: State)
    requires s.doing.None? && s.replies.None?
    ensures ServesLeast(s, Send(s).outputs)
    decreases |s.pending|
  {
    if s.pending != map[] {
      var c := OrderedSets.Least(s.pending.Keys, Precedes);
      if s.pending[c] == [] {
        var rest := s.(pending := s.pending - {c});
        Removed(s.pending, c);
        SendServesLeast(rest);
        assert forall d :: Queue(s, d) == Queue(rest, d);
      }
    }
  }

  // ----- How long a client waits -----

  /** The requests waiting for clients in front of a client, numbered within their queues. */
  function InFront(s: State, c: int): set<(int, int)> {
    set d, i | d in s.pending.Keys && d < c && 0 <= i < |s.pending[d]| :: (d, i)
  }

  lemma InFrontIs(s: State, c: int, d: int, i: int)
    ensures (d, i) in InFront(s, c) <==> d < c && 0 <= i < |Queue(s, d)|
  {
  }

  function Ahead(s: State, c: int): nat {
    |InFront(s, c)|
  }

  lemma AheadShrinks(s: State, t: State, c: int)
    requires forall d :: d < c ==> |Queue(t, d)| <= |Queue(s, d)|
    ensures Ahead(t, c) <= Ahead(s, c)
  {
    forall p | p in InFront(t, c) ensures p in InFront(s, c) {
      InFrontIs(t, c, p.0, p.1);
      InFrontIs(s, c, p.0, p.1);
    }
    Smaller(InFront(t, c), InFront(s, c));
  }

  lemma Smaller<T>(a: set<T>, b: set<T>)
    requires a <= b
    ensures |a| <= |b|
  {
    assert b == a + (b - a) && |a + (b - a)| == |a| + |b - a|;
  }

  lemma AheadDrops(s: State, t: State, c: int, first: int)
    requires first < c && |Queue(t, first)| < |Queue(s, first)|
    requires forall d :: d < c ==> |Queue(t, d)| <= |Queue(s, d)|
    ensures Ahead(t, c) < Ahead(s, c)
  {
    var last := (first, |Queue(s, first)| - 1);
    forall p | p in InFront(t, c) ensures p in InFront(s, c) - {last} {
      InFrontIs(t, c, p.0, p.1);
      InFrontIs(s, c, p.0, p.1);
    }
    InFrontIs(s, c, first, |Queue(s, first)| - 1);
    Smaller(InFront(t, c), InFront(s, c) - {last});
  }

  /** What the scheduler sends while a client waits: a request of that client, or one in front of it. */
  lemma SendAhead(s: State, c: int)
    requires s.doing.None? && s.replies.None? && Queue(s, c) != []
    ensures var r := Send(s);
            SentTo(c, r.outputs) == [] ==>
              Queue(r.state, c) == Queue(s, c) && Ahead(r.state, c) < Ahead(s, c)
  {
    var r := Send(s);
    SendServesLeast(s);
    SendQueues(s, c);
    if SentTo(c, r.outputs) == [] {
      var first := r.outputs[0].client;
      SentToOne(c, r.outputs[0]);
      forall d ensures |Queue(r.state, d)| <= |Queue(s, d)| && (d == first ==> |Queue(r.state, d)| < |Queue(s, d)|) {
        SendQueues(s, d);
        SentToOne(d, r.outputs[0]);
      }
      AheadDrops(s, r.state, c, first);
    }
  }

  /** A request is over: answered to its end, or given up. */
  predicate EndsOne(o: Output) {
    o.Dropped? || (o.Routed? && o.last)
  }

  function Ended(outputs: seq<Output>): nat {
    if outputs == [] then 0 else (if EndsOne(outputs[0]) then 1 else 0) + Ended(outputs[1..])
  }

  lemma EndedFront(o: Output, more: seq<Output>)
    ensures Ended([o] + more) == (if EndsOne(o) then 1 else 0) + Ended(more)
  {
    assert ([o] + more)[1..] == more;
  }

  lemma {:induction false} EndedConcat(a: seq<Output>, b: seq<Output>)
    ensures Ended(a + b) == Ended(a) + Ended(b)
  {
    if a == [] {
      assert a + b == b;
    } else {
      EndedConcat(a[1..], b);
      EndedFront(a[0], a[1..]);
      EndedFront(a[0], a[1..] + b);
      assert [a[0]] + a[1..] == a && [a[0]] + (a[1..] + b) == a + b;
    }
  }

  lemma {:induction false} SendEndsNone(s: State)
    ensures Ended(Send(s).outputs) == 0
    decreases |s.pending|
  {
    if s.doing.None? && s.replies.None? && s.pending != map[] {
      var c := OrderedSets.Least(s.pending.Keys, Precedes);
      if s.pending[c] == [] {
        Removed(s.pending, c);
        SendEndsNone(s.(pending := s.pending - {c}));
      } else {
        EndedFront(Sent(c, s.pending[c][0]), []);
        assert [Sent(c, s.pending[c][0])] + [] == Send(s).outputs;
      }
    }
  }

  /** A client in front of c asks for something, c leaves, or the server's connection is made anew. */
  predicate Disturbs(c: int, e: Event) {
    match e
    case UserRaw(d, msg, connected) => d < c && Routable(msg, connected).Some?
    case ClientDisconnect(d) => d == c
    case Reset => true
    case _ => false
  }

  /** c still waits, or has been served; as long as it has not, whatever ended made the number of
      requests in front of it smaller. */
  predicate WaitsLess(s: State, r: Result, c: int) {
    SentTo(c, r.outputs) == [] ==>
      Queue(r.state, c) != [] && Ended(r.outputs) + Ahead(r.state, c) <= Ahead(s, c)
  }

  /** One request ends and the scheduler is started, the requests in front of c being no more. */
  lemma EndThenSend(s: State, rest: State, o: Output, c: int)
    requires rest.doing.None? && rest.replies.None? && Queue(rest, c) != [] && !o.Sent?
    requires forall d :: d < c ==> |Queue(rest, d)| <= |Queue(s, d)|
    ensures WaitsLess(s, Result(Send(rest).state, [o] + Send(rest).outputs), c)
  {
    NotSent(c, o, Send(rest).outputs);
    SendAhead(rest, c);
    SendEndsNone(rest);
    EndedFront(o, Send(rest).outputs);
    AheadShrinks(s, rest, c);
  }

  lemma AskBehind(s: State, d: int, msg: Message, connected: bool, c: int)
    requires Inv(s) && Queue(s, c) != [] && (d < c ==> Routable(msg, connected).None?)
    ensures WaitsLess(s, OnUser(s, d, msg, connected), c)
  {
    if Routable(msg, connected).Some? {
      var asked := Queued(s, d, Request(msg, Routable(msg, connected).value));
      assert OnUser(s, d, msg, connected) == Result(asked, []);
      AheadShrinks(s, asked, c);
    }
  }

  lemma ReplyWaits(s: State, msg: Message, c: int)
    requires Inv(s) && Queue(s, c) != []
    ensures WaitsLess(s, OnServer(s, msg), c)
  {
    if OnServer(s, msg).outputs != [] {
      var o := OnServer(s, msg).outputs[0];
      if o.last {
        EndThenSend(s, Idle(s), o, c);
      } else {
        SentToOne(c, o);
        EndedFront(o, []);
        assert [o] + [] == [o];
      }
    }
  }

  lemma DisconnectWaits(s: State, d: int, c: int)
    requires Inv(s) && Queue(s, c) != [] && d != c
    ensures WaitsLess(s, OnDisconnect(s, d), c)
  {
    var rest := (if s.doing == Some(d) then Idle(s) else s).(pending := s.pending - {d});
    if s.doing == Some(d) {
      EndThenSend(s, rest, Dropped, c);
    } else {
      assert [] + Send(rest).outputs == [];
      AheadShrinks(s, rest, c);
    }
  }

  lemma StepWaits(s: State, e: Event, c: int)
    requires Inv(s) && Queue(s, c) != [] && !Disturbs(c, e)
    ensures WaitsLess(s, Step(s, e), c)
  {
    match e
    case UserRaw(d, msg, connected) => AskBehind(s, d, msg, connected, c);
    case ServerRaw(msg) => ReplyWaits(s, msg, c);
    case ClientDisconnect(d) => DisconnectWaits(s, d, c);
    case Reset =>
    case Timeout =>
      if s.timer {
        EndThenSend(s, Idle(s), Dropped, c);
      }
  }

  lemma WaitsConcat(s: State, first: Result, rest: Result, c: int)
    requires WaitsLess(s, first, c) && (SentTo(c, first.outputs) == [] ==> WaitsLess(first.state, rest, c))
    ensures WaitsLess(s, Result(rest.state, first.outputs + rest.outputs), c)
  {
    SentToConcat(c, first.outputs, rest.outputs);
    EndedConcat(first.outputs, rest.outputs);
  }

  /** A waiting client is served, at the latest, with the first request to end beyond those that
      were waiting in front of it, unless somebody in front asks again. */
  lemma {:induction false} ServedInTime(s: State, events: seq<Event>, c: int)
    requires Inv(s) && Queue(s, c) != [] && forall i :: 0 <= i < |events| ==> !Disturbs(c, events[i])
    ensures WaitsLess(s, Run(s, events), c)
    ensures Ended(Run(s, events).outputs) > Ahead(s, c) ==> SentTo(c, Run(s, events).outputs) != []
    decreases |events|
  {
    if events != [] {
      var first := Step(s, events[0]);
      StepWaits(s, events[0], c);
      StepInv(s, events[0]);
      if SentTo(c, first.outputs) == [] {
        ServedInTime(first.state, events[1..], c);
      }
      WaitsConcat(s, first, Run(first.state, events[1..]), c);
    }
  }

  // ----- Starvation -----

  /** Client `low` is being served and client `high` is waiting, behind it in order. */
  ghost predicate Waits(s: State, low: int, high: int, request: Request, queue: seq<Request>) {
    && low < high && queue != [] && Inv(s) && OwnerOf(s) == Some(Owner(low, request))
    && s.pending.Keys <= {low, high} && Queue(s, low) == [] && Queue(s, high) == queue
  }

  /** Some events leave it so: nothing has been sent for `high`. */
  ghost predicate KeepsWaiting(s: State, events: seq<Event>, low: int, high: int, request: Request,
                               queue: seq<Request>)
  {
    var r := Run(s, events);
    Waits(r.state, low, high, request, queue) && SentTo(high, r.outputs) == []
  }

  lemma WaitsOn(s: State, a: seq<Event>, b: seq<Event>, low: int, high: int, request: Request, queue: seq<Request>)
    requires KeepsWaiting(s, a, low, high, request, queue)
    requires KeepsWaiting(Run(s, a).state, b, low, high, request, queue)
    ensures KeepsWaiting(s, a + b, low, high, request, queue)
  {
    RunConcat(s, a, b);
    SentToConcat(high, Run(s, a).outputs, Run(Run(s, a).state, b).outputs);
  }

  /** A request as the module takes it from a client, and a message that completes its answer. */
  ghost predicate Completes(request: Request, reply: Message) {
    Routable(request.msg, true) == Some(request.replies) && Answers(request, reply) == Some(true)
  }

  /** The served client asks again, and the server completes what it asked before. */
  function Again(low: int, msg: Message, reply: Message): seq<Event> {
    [UserRaw(low, msg, true), ServerRaw(reply)]
  }

  lemma AskAgain(s: State, low: int, high: int, request: Request, queue: seq<Request>)
    requires Waits(s, low, high, request, queue) && Routable(request.msg, true) == Some(request.replies)
    ensures Step(s, UserRaw(low, request.msg, true)) == Result(s.(pending := s.pending[low := [request]]), [])
  {
    assert Queue(s, low) + [request] == [request];
  }

  lemma AnswerLow(s: State, low: int, high: int, request: Request, reply: Message)
    requires low < high && Inv(s) && OwnerOf(s) == Some(Owner(low, request)) && Answers(request, reply) == Some(true)
    requires s.pending.Keys <= {low, high} && Queue(s, low) == [request]
    ensures Step(s, ServerRaw(reply))
         == Result(State(Some(low), Some(request.replies), s.pending[low := []], request.msg, true),
                   [Routed(low, reply, true), Sent(low, request)])
  {
    NextIsLow(s, low, high, request);
  }

  lemma NothingSentTo(c: int, low: int, reply: Message, request: Request)
    requires c != low
    ensures SentTo(c, [Routed(low, reply, true), Sent(low, request)]) == []
  {
    SentToConcat(c, [Routed(low, reply, true)], [Sent(low, request)]);
    SentToOne(c, Routed(low, reply, true));
    SentToOne(c, Sent(low, request));
    assert [Routed(low, reply, true)] + [Sent(low, request)] == [Routed(low, reply, true), Sent(low, request)];
  }

  lemma OneMoreRound(s: State, low: int, high: int, request: Request, reply: Message, queue: seq<Request>)
    requires Waits(s, low, high, request, queue) && Completes(request, reply)
    ensures KeepsWaiting(s, Again(low, request.msg, reply), low, high, request, queue)
  {
    var ask, answer, asked := RoundSteps(s, low, high, request, reply, queue);
    RoundKeeps(s, ask, answer, asked, low, high, request, reply, queue);
  }

  lemma RoundSteps(s: State, low: int, high: int, request: Request, reply: Message, queue: seq<Request>)
      returns (ask: Event, answer: Event, asked: State)
    requires Waits(s, low, high, request, queue) && Completes(request, reply)
    ensures [ask, answer] == Again(low, request.msg, reply) && asked == s.(pending := s.pending[low := [request]])
    ensures Step(s, ask) == Result(asked, [])
    ensures Step(asked, answer)
         == Result(State(Some(low), Some(request.replies), s.pending[low := []], request.msg, true),
                   [Routed(low, reply, true), Sent(low, request)])
  {
    ask, answer := UserRaw(low, request.msg, true), ServerRaw(reply);
    asked := s.(pending := s.pending[low := [request]]);
    AskAgain(s, low, high, request, queue);
    AnswerLow(asked, low, high, request, reply);
  }

  lemma RoundKeeps(s: State, ask: Event, answer: Event, asked: State, low: int, high: int,
                   request: Request, reply: Message, queue: seq<Request>)
    requires Waits(s, low, high, request, queue) && asked == s.(pending := s.pending[low := [request]])
    requires Step(s, ask) == Result(asked, [])
    requires Step(asked, answer)
          == Result(State(Some(low), Some(request.replies), s.pending[low := []], request.msg, true),
                    [Routed(low, reply, true), Sent(low, request)])
    ensures KeepsWaiting(s, [ask, answer], low, high, request, queue)
  {
    TwoSteps(s, ask, answer);
    var outputs := [Routed(low, reply, true), Sent(low, request)];
    assert [] + outputs == outputs;
    NothingSentTo(high, low, reply, request);
  }

  lemma NextIsLow(s: State, low: int, high: int, request: Request)
    requires low < high && s.pending.Keys <= {low, high} && Queue(s, low) == [request]
    ensures Send(Idle(s))
         == Result(State(Some(low), Some(request.replies), s.pending[low := []], request.msg, true),
                   [Sent(low, request)])
  {
    assert low in s.pending.Keys;
    assert OrderedSets.Least(s.pending.Keys, Precedes) == low;
    assert [request][1..] == [];
  }

  lemma TwoSteps(s: State, a: Event, b: Event)
    ensures var first := Step(s, a); var second := Step(first.state, b);
            Run(s, [a, b]) == Result(second.state, first.outputs + second.outputs)
  {
    assert [a, b][1..] == [b] && [b][1..] == [];
    var second := Step(Step(s, a).state, b);
    assert Run(Step(s, a).state, [b]) == Result(second.state, second.outputs + []);
    assert second.outputs + [] == second.outputs;
  }

  function Rounds(low: int, msg: Message, reply: Message, n: nat): seq<Event> {
    if n == 0 then [] else Again(low, msg, reply) + Rounds(low, msg, reply, n - 1)
  }

  /** So a client can be kept waiting by one in front of it for any number of completed requests. */
  lemma {:induction false} Starves(s: State, low: int, high: int, request: Request, reply: Message,
                                   queue: seq<Request>, n: nat)
    requires Waits(s, low, high, request, queue) && Completes(request, reply)
    ensures KeepsWaiting(s, Rounds(low, request.msg, reply, n), low, high, request, queue)
    decreases n
  {
    if n > 0 {
      var again := Again(low, request.msg, reply);
      OneMoreRound(s, low, high, request, reply, queue);
      Starves(Run(s, again).state, low, high, request, reply, queue, n - 1);
      WaitsOn(s, again, Rounds(low, request.msg, reply, n - 1), low, high, request, queue);
    }
  }
}
