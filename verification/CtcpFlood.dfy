/** `ctcpflood`: forwarding CTCP messages at a limited rate. */
module CtcpFlood {
  import opened Common
  import Strings

  /** The message counter is a 32-bit unsigned integer. */
  const WRAP := 0x1_0000_0000

  datatype Limits = Limits(msgs: nat, secs: nat)

  datatype State = State(lastCtcp: nat, count: nat)

  datatype Event = Event(time: nat, text: string)

  predicate IsAction(text: string) {
    Strings.EqualsNoCase(Strings.Token(text, 0, false, ' '), "ACTION")
  }

  predicate Expired(l: Limits, s: State, now: nat) {
    s.lastCtcp + l.secs < now
  }

  /** The counter after one more message. */
  function Counted(l: Limits, s: State, now: nat): nat {
    ((if Expired(l, s, now) then 0 else s.count) + 1) % WRAP
  }

  predicate Forwards(l: Limits, s: State, e: Event) {
    IsAction(e.text) || Counted(l, s, e.time) < l.msgs
  }

  function Step(l: Limits, s: State, e: Event): State {
    if IsAction(e.text) then s
    else
      var count := Counted(l, s, e.time);
      State(if count < l.msgs && !Expired(l, s, e.time) then s.lastCtcp else e.time, count)
  }

  function Run(l: Limits, s: State, events: seq<Event>): State
    decreases |events|
  {
    if events == [] then s else Run(l, Step(l, s, events[0]), events[1..])
  }

  /** How many messages other than actions a run forwards. */
  function Forwarded(l: Limits, s: State, events: seq<Event>): nat
    decreases |events|
  {
    if events == [] then 0
    else
      (if !IsAction(events[0].text) && Forwards(l, s, events[0]) then 1 else 0)
      + Forwarded(l, Step(l, s, events[0]), events[1..])
  }

  class CtcpFloodMod {
    var lastCtcp: nat
    var count: nat
    var thresholdSecs: nat
    var thresholdMsgs: nat

    function Current(): State
      reads this
    {
      State(lastCtcp, count)
    }

    function CurrentLimits(): Limits
      reads this
    {
      Limits(thresholdMsgs, thresholdSecs)
    }

    /** Arguments first, stored settings if either is missing, defaults for what is still zero. */
    constructor (argMsgs: nat, argSecs: nat, storedMsgs: nat, storedSecs: nat)
      ensures Current() == State(0, 0)
      ensures thresholdMsgs >= 1 && thresholdSecs >= 1
      ensures argMsgs != 0 && argSecs != 0 ==> CurrentLimits() == Limits(argMsgs, argSecs)
      ensures argMsgs == 0 || argSecs == 0 ==>
                CurrentLimits() == Limits(if storedMsgs == 0 then 4 else storedMsgs,
                                          if storedSecs == 0 then 2 else storedSecs)
    {
      var msgs, secs := argMsgs, argSecs;
      if msgs == 0 || secs == 0 {
        msgs, secs := storedMsgs, storedSecs;
      }
      thresholdSecs := if secs == 0 then 2 else secs;
      thresholdMsgs := if msgs == 0 then 4 else msgs;
      lastCtcp, count := 0, 0;
    }

    method SetSecs(secs: nat)
      modifies this`thresholdSecs
      ensures thresholdSecs == if secs == 0 then 1 else secs
    {
      thresholdSecs := if secs == 0 then 1 else secs;
    }

    method SetLines(msgs: nat)
      modifies this`thresholdMsgs
      ensures thresholdMsgs == if msgs == 0 then 2 else msgs
    {
      thresholdMsgs := if msgs == 0 then 2 else msgs;
    }

    method Message(text: string, now: nat) returns (forward: bool)
      modifies this`lastCtcp, this`count
      ensures forward == Forwards(CurrentLimits(), old(Current()), Event(now, text))
      ensures Current() == Step(CurrentLimits(), old(Current()), Event(now, text))
    {
      if IsAction(text) {
        return true;
      }
      if lastCtcp + thresholdSecs < now {
        lastCtcp := now;
        count := 0;
      }
      count := (count + 1) % WRAP;
      if count < thresholdMsgs {
        return true;
      }
      lastCtcp := now;
      return false;
    }
  }

  // ----- One message -----

  /** Actions are recognised by their first word. */
  lemma ActionIs(blanks: string, word: string, more: string)
    requires word != "" && ' ' !in word && (more == "" || more[0] == ' ')
    requires forall c :: c in blanks ==> c == ' '
    ensures IsAction(blanks + word + more)
       <==> Strings.EqualsNoCase(word, "ACTION")
  {
    var s := blanks + word + more;
    assert word[0] in word && s == blanks + (word + more);
    Strings.TrimLeftAround(blanks, word + more, {' '});
    Strings.FirstTokens(word + more, ' ');
    Strings.BeforeAround(word, ' ', more);
    assert Strings.Token(s, 0, false, ' ') == word;
  }

  /** An action passes and is not counted. After a pause longer than the window a message begins a new
      one; otherwise it is counted in 32 bits. It passes while the count is below the threshold, and
      one that does not pass begins the window anew. */
  lemma MessageMeans(l: Limits, s: State, e: Event)
    ensures IsAction(e.text) ==> Forwards(l, s, e) && Step(l, s, e) == s
    ensures !IsAction(e.text) && e.time > s.lastCtcp + l.secs ==>
              Step(l, s, e) == State(e.time, 1) && (Forwards(l, s, e) <==> l.msgs > 1)
    ensures !IsAction(e.text) && e.time <= s.lastCtcp + l.secs ==>
              var n := if s.count % 0x1_0000_0000 == 0xffff_ffff then 0 else s.count % 0x1_0000_0000 + 1;
              && (Forwards(l, s, e) <==> n < l.msgs)
              && Step(l, s, e) == State(if n < l.msgs then s.lastCtcp else e.time, n)
  {
  }

  // ----- The rate bound -----

  predicate Monotone(events: seq<Event>) {
    forall i, j :: 0 <= i < j < |events| ==> events[i].time <= events[j].time
  }

  /** Events within one closed interval of the configured number of seconds. */
  predicate Within(events: seq<Event>, start: nat, end: nat) {
    Monotone(events) && forall i :: 0 <= i < |events| ==> start <= events[i].time <= end
  }

  function Room(l: Limits, s: State): nat {
    if s.count + 1 < l.msgs then l.msgs - 1 - s.count else 0
  }

  lemma {:induction false} AtMostAll(l: Limits, s: State, events: seq<Event>)
    ensures Forwarded(l, s, events) <= |events|
    decreases |events|
  {
    if events != [] {
      AtMostAll(l, Step(l, s, events[0]), events[1..]);
    }
  }

  /** How many of n more messages come when the counter has wrapped. */
  function Wrapped(s: State, n: nat): nat {
    if s.count + n >= WRAP then s.count + n - WRAP + 1 else 0
  }

  /** Before the window can expire, only what is left of it is forwarded, and what comes after the
      counter has wrapped. */
  lemma {:induction false} OneWindow(l: Limits, s: State, events: seq<Event>, end: nat)
    requires s.count < WRAP && Within(events, s.lastCtcp, end)
    requires end <= s.lastCtcp + l.secs
    ensures Forwarded(l, s, events) <= Room(l, s) + Wrapped(s, |events|)
    decreases |events|
  {
    if events != [] {
      var next := Step(l, s, events[0]);
      if s.count == WRAP - 1 {
        AtMostAll(l, next, events[1..]);
      } else {
        UsesRoom(l, s, events);
        OneWindow(l, next, events[1..], if next.lastCtcp + l.secs < end then next.lastCtcp + l.secs else end);
      }
    }
  }

  /** Within any interval of the configured length at most one new window opens. */
  lemma {:induction false} TwoWindows(l: Limits, s: State, events: seq<Event>, start: nat)
    requires l.msgs >= 1 && s.count < WRAP && Within(events, start, start + l.secs)
    ensures Forwarded(l, s, events) <= Room(l, s) + Max(l.msgs - 1, Wrapped(s, |events|))
    decreases |events|
  {
    if events != [] {
      var e, next := events[0], Step(l, s, events[0]);
      if !IsAction(e.text) && Expired(l, s, e.time) {
        NewWindow(l, s, events, start);
      } else if s.count == WRAP - 1 && !IsAction(e.text) {
        AtMostAll(l, next, events[1..]);
      } else {
        TwoWindows(l, next, events[1..], start);
        UsesRoom(l, s, events);
      }
    }
  }

  /** A message in the window takes up room as it is forwarded. */
  lemma UsesRoom(l: Limits, s: State, events: seq<Event>)
    requires events != [] && s.count < WRAP
    requires IsAction(events[0].text) || (!Expired(l, s, events[0].time) && s.count < WRAP - 1)
    ensures var next := Step(l, s, events[0]);
            && Forwarded(l, s, events) - Room(l, s) == Forwarded(l, next, events[1..]) - Room(l, next)
            && Wrapped(next, |events| - 1) <= Wrapped(s, |events|)
  {
  }

  lemma NewWindow(l: Limits, s: State, events: seq<Event>, start: nat)
    requires l.msgs >= 1 && s.count < WRAP && Within(events, start, start + l.secs)
    requires events != [] && !IsAction(events[0].text) && Expired(l, s, events[0].time)
    ensures Forwarded(l, s, events) <= l.msgs - 1 + (if |events| >= WRAP then |events| - WRAP + 1 else 0)
  {
    var next := Step(l, s, events[0]);
    assert next == State(events[0].time, 1);
    assert Within(events[1..], next.lastCtcp, start + l.secs);
    OneWindow(l, next, events[1..], start + l.secs);
  }

  /** With a monotone clock and fixed thresholds, any closed interval of the configured length, in
      any run of fewer than 2^32 + M - 1 messages, contains at most 2(M - 1) forwarded messages. */
  lemma RateBound(l: Limits, before: seq<Event>, during: seq<Event>, start: nat)
    requires l.msgs >= 1 && |before| + |during| < WRAP + l.msgs - 1
    requires Within(during, start, start + l.secs)
    ensures Forwarded(l, Run(l, State(0, 0), before), during) <= 2 * (l.msgs - 1)
  {
    CountBound(l, State(0, 0), before);
    TwoWindows(l, Run(l, State(0, 0), before), during, start);
  }

  lemma {:induction false} CountBound(l: Limits, s: State, events: seq<Event>)
    requires s.count < WRAP
    ensures Run(l, s, events).count <= s.count + |events| && Run(l, s, events).count < WRAP
    decreases |events|
  {
    if events != [] {
      CountBound(l, Step(l, s, events[0]), events[1..]);
    }
  }

  /** A run after the clock has passed the window length. */
  predicate Late(l: Limits, before: seq<Event>, start: nat) {
    l.secs < start && forall i :: 0 <= i < |before| ==> l.secs < before[i].time
  }

  /** Once the clock has passed the window length, the first message of a window is always counted
      when it opens, and the bound is one lower. */
  lemma SharperRateBound(l: Limits, before: seq<Event>, during: seq<Event>, start: nat)
    requires l.msgs >= 2 && |before| + |during| < WRAP + l.msgs - 2
    requires Late(l, before, start) && Within(during, start, start + l.secs)
    ensures Forwarded(l, Run(l, State(0, 0), before), during) <= 2 * (l.msgs - 1) - 1
  {
    var s := Run(l, State(0, 0), before);
    CountBound(l, State(0, 0), before);
    if |before| >= WRAP {
      AtMostAll(l, s, during);
    } else {
      StartedStays(l, State(0, 0), before);
      if s.count >= 1 {
        TwoWindows(l, s, during, start);
      } else {
        FreshWindow(l, s, during, start);
      }
    }
  }

  lemma {:induction false} StartedStays(l: Limits, s: State, events: seq<Event>)
    requires s.count + |events| < WRAP && (s == State(0, 0) || s.count >= 1)
    ensures var t := Run(l, s, events); t == State(0, 0) || t.count >= 1
    decreases |events|
  {
    if events != [] {
      StartedStays(l, Step(l, s, events[0]), events[1..]);
    }
  }

  lemma {:induction false} FreshWindow(l: Limits, s: State, events: seq<Event>, start: nat)
    requires l.msgs >= 1 && s == State(0, 0)
    requires l.secs < start && Within(events, start, start + l.secs)
    ensures Forwarded(l, s, events) <= l.msgs - 1 + (if |events| >= WRAP then |events| - WRAP + 1 else 0)
    decreases |events|
  {
    if events != [] {
      if IsAction(events[0].text) {
        FreshWindow(l, s, events[1..], start);
      } else {
        NewWindow(l, s, events, start);
      }
    }
  }

  function Burst(text: string, time: nat, n: nat): (events: seq<Event>)
    ensures |events| == n
    ensures forall i :: 0 <= i < n ==> events[i] == Event(time, text)
  {
    seq(n, _ => Event(time, text))
  }

  lemma {:induction false} BurstForwarded(l: Limits, s: State, text: string, time: nat, n: nat)
    requires !IsAction(text) && l.msgs < WRAP && !Expired(l, s, time) && s.count + n < l.msgs
    ensures Forwarded(l, s, Burst(text, time, n)) == n
    ensures Run(l, s, Burst(text, time, n)) == State(s.lastCtcp, s.count + n)
    decreases n
  {
    if n > 0 {
      assert Burst(text, time, n)[1..] == Burst(text, time, n - 1);
      BurstForwarded(l, Step(l, s, Event(time, text)), text, time, n - 1);
    }
  }

  lemma BurstOpens(l: Limits, s: State, text: string, time: nat, n: nat)
    requires !IsAction(text) && 1 <= n < l.msgs < WRAP && Expired(l, s, time)
    ensures Forwarded(l, s, Burst(text, time, n)) == n
    ensures Run(l, s, Burst(text, time, n)) == State(time, n)
  {
    assert Burst(text, time, n)[1..] == Burst(text, time, n - 1);
    BurstForwarded(l, Step(l, s, Event(time, text)), text, time, n - 1);
  }

  lemma {:induction false} ForwardedConcat(l: Limits, s: State, a: seq<Event>, b: seq<Event>)
    ensures Forwarded(l, s, a + b) == Forwarded(l, s, a) + Forwarded(l, Run(l, s, a), b)
    decreases |a|
  {
    if a == [] {
      assert a + b == b;
    } else {
      assert (a + b)[1..] == a[1..] + b;
      ForwardedConcat(l, Step(l, s, a[0]), a[1..], b);
    }
  }

  /** The sharper bound cannot be improved: whatever the thresholds, one message and then two bursts
      at the end of its window and the second after it reach it. */
  lemma BoundIsReached(l: Limits, text: string)
    requires 2 <= l.msgs < WRAP && 1 <= l.secs && !IsAction(text)
    ensures var t := 2 * l.secs + 1;
            var during := Burst(text, t, l.msgs - 2) + Burst(text, t + 1, l.msgs - 1);
            && Within(during, t, t + l.secs)
            && Forwarded(l, Run(l, State(0, 0), Burst(text, l.secs + 1, 1)), during) == 2 * (l.msgs - 1) - 1
  {
    var t := 2 * l.secs + 1;
    var s := State(l.secs + 1, 1);
    OpeningMessage(l, text);
    BurstForwarded(l, s, text, t, l.msgs - 2);
    BurstOpens(l, State(l.secs + 1, l.msgs - 1), text, t + 1, l.msgs - 1);
    ForwardedConcat(l, s, Burst(text, t, l.msgs - 2), Burst(text, t + 1, l.msgs - 1));
  }

  lemma OpeningMessage(l: Limits, text: string)
    requires 2 <= l.msgs < WRAP && !IsAction(text)
    ensures Run(l, State(0, 0), Burst(text, l.secs + 1, 1)) == State(l.secs + 1, 1)
  {
    BurstOpens(l, State(0, 0), text, l.secs + 1, 1);
  }

  /** Messages of a blocked burst only count. */
  lemma {:induction false} BurstBlocked(l: Limits, s: State, text: string, n: nat)
    requires !IsAction(text) && l.msgs <= s.count + 1 && s.count + n < WRAP
    ensures Forwarded(l, s, Burst(text, s.lastCtcp, n)) == 0
    ensures Run(l, s, Burst(text, s.lastCtcp, n)) == State(s.lastCtcp, s.count + n)
    decreases n
  {
    if n > 0 {
      assert Burst(text, s.lastCtcp, n)[1..] == Burst(text, s.lastCtcp, n - 1);
      BurstBlocked(l, Step(l, s, Event(s.lastCtcp, text)), text, n - 1);
    }
  }

  /** The message that wraps the counter passes. */
  lemma WrapPasses(l: Limits, text: string, t: nat)
    requires !IsAction(text) && l.msgs >= 1
    ensures Forwarded(l, State(t, WRAP - 1), Burst(text, t, 1)) == 1
    ensures Run(l, State(t, WRAP - 1), Burst(text, t, 1)) == State(t, 0)
  {
    assert Burst(text, t, 1)[1..] == [];
  }

  lemma BurstConcat(l: Limits, s: State, text: string, t: nat, a: nat, b: nat)
    ensures Forwarded(l, s, Burst(text, t, a + b))
         == Forwarded(l, s, Burst(text, t, a)) + Forwarded(l, Run(l, s, Burst(text, t, a)), Burst(text, t, b))
  {
    assert Burst(text, t, a + b) == Burst(text, t, a) + Burst(text, t, b);
    ForwardedConcat(l, s, Burst(text, t, a), Burst(text, t, b));
  }

  /** A window that is full, and goes on until the counter has wrapped and n more have passed. */
  lemma BurstWraps(l: Limits, text: string, t: nat, n: nat)
    requires !IsAction(text) && 1 <= l.msgs < WRAP && n < l.msgs
    ensures Forwarded(l, State(t, l.msgs - 1), Burst(text, t, WRAP - l.msgs + 1 + n)) == 1 + n
  {
    var m := l.msgs - 1;
    BurstConcat(l, State(t, m), text, t, WRAP - 1 - m, 1 + n);
    BurstBlocked(l, State(t, m), text, WRAP - 1 - m);
    BurstConcat(l, State(t, WRAP - 1), text, t, 1, n);
    WrapPasses(l, text, t);
    BurstForwarded(l, State(t, 0), text, t, n);
  }

  /** In a burst of 2^32 + M - 1 messages at one moment, 2M - 1 pass: M - 1 before the others are
      blocked, and M once the counter has wrapped. */
  lemma BurstOverBound(l: Limits, text: string)
    requires !IsAction(text) && 1 <= l.msgs < WRAP
    ensures Forwarded(l, State(0, 0), Burst(text, 0, WRAP + l.msgs - 1)) == 2 * l.msgs - 1
  {
    BurstConcat(l, State(0, 0), text, 0, l.msgs - 1, WRAP);
    BurstForwarded(l, State(0, 0), text, 0, l.msgs - 1);
    BurstWraps(l, text, 0, l.msgs - 1);
  }

  /** In one of 2^32 + M - 2 messages at a later moment, 2M - 2 pass. */
  lemma LateBurstOverBound(l: Limits, text: string)
    requires !IsAction(text) && 2 <= l.msgs < WRAP
    ensures Forwarded(l, State(0, 0), Burst(text, l.secs + 1, WRAP + l.msgs - 2)) == 2 * l.msgs - 2
  {
    var t := l.secs + 1;
    BurstConcat(l, State(0, 0), text, t, l.msgs - 1, WRAP - 1);
    BurstOpens(l, State(0, 0), text, t, l.msgs - 1);
    BurstWraps(l, text, t, l.msgs - 2);
  }

  /** No run of at most n messages has more than 2(M - 1) forwarded in an interval. */
  ghost predicate Bounded(l: Limits, n: nat) {
    forall before: seq<Event>, during: seq<Event>, start: nat :: WithinBound(l, n, before, during, start)
  }

  ghost predicate WithinBound(l: Limits, n: nat, before: seq<Event>, during: seq<Event>, start: nat) {
    |before| + |during| <= n && Within(during, start, start + l.secs) ==>
      Forwarded(l, Run(l, State(0, 0), before), during) <= 2 * (l.msgs - 1)
  }

  /** The bound holds for all runs of at most n messages exactly when n is below 2^32 + M - 1: beyond,
      the wrapping counter lets messages through. */
  lemma BoundedIff(l: Limits, n: nat, text: string)
    requires !IsAction(text) && 1 <= l.msgs < WRAP
    ensures Bounded(l, n) <==> n < WRAP + l.msgs - 1
  {
    if n < WRAP + l.msgs - 1 {
      forall before: seq<Event>, during: seq<Event>, start: nat
        ensures WithinBound(l, n, before, during, start)
      {
        if |before| + |during| <= n && Within(during, start, start + l.secs) {
          RateBound(l, before, during, start);
        }
      }
    } else {
      BurstOverBound(l, text);
      assert !WithinBound(l, n, [], Burst(text, 0, WRAP + l.msgs - 1), 0);
    }
  }

  /** The same for runs that are late, and the sharper bound. */
  ghost predicate LateBounded(l: Limits, n: nat) {
    forall before: seq<Event>, during: seq<Event>, start: nat :: WithinSharperBound(l, n, before, during, start)
  }

  ghost predicate WithinSharperBound(l: Limits, n: nat, before: seq<Event>, during: seq<Event>, start: nat) {
    |before| + |during| <= n && Late(l, before, start) && Within(during, start, start + l.secs) ==>
      Forwarded(l, Run(l, State(0, 0), before), during) <= 2 * (l.msgs - 1) - 1
  }

  /** The sharper bound holds for all late runs of at most n messages exactly when n is below
      2^32 + M - 2. */
  lemma LateBoundedIff(l: Limits, n: nat, text: string)
    requires !IsAction(text) && 2 <= l.msgs < WRAP
    ensures LateBounded(l, n) <==> n < WRAP + l.msgs - 2
  {
    if n < WRAP + l.msgs - 2 {
      forall before: seq<Event>, during: seq<Event>, start: nat
        ensures WithinSharperBound(l, n, before, during, start)
      {
        if |before| + |during| <= n && Late(l, before, start) && Within(during, start, start + l.secs) {
          SharperRateBound(l, before, during, start);
        }
      }
    } else {
      LateBurstOverBound(l, text);
      assert !WithinSharperBound(l, n, [], Burst(text, l.secs + 1, WRAP + l.msgs - 2), l.secs + 1);
    }
  }

  // ----- Blocking -----

  /** A message of a blocked sender that does not come after a longer pause is blocked again, except
      when the counter wraps. */
  lemma BlockingContinues(l: Limits, s: State, e: Event)
    requires 1 <= l.msgs <= s.count < WRAP && !IsAction(e.text)
    ensures !Forwards(l, s, e) <==>
              (if Expired(l, s, e.time) then l.msgs == 1 else s.count != WRAP - 1)
    ensures !Forwards(l, s, e) ==> Step(l, s, e).lastCtcp == e.time && Step(l, s, e).count >= l.msgs
  {
  }

  /** No pause longer than the window between the messages. */
  predicate NoPause(l: Limits, last: nat, events: seq<Event>)
    decreases |events|
  {
    events == [] || (events[0].time <= last + l.secs && NoPause(l, events[0].time, events[1..]))
  }

  /** As long as no pause is longer than the window, nothing gets through exactly until the counter
      wraps. */
  lemma {:induction false} BlockedRun(l: Limits, s: State, events: seq<Event>)
    requires 1 <= l.msgs <= s.count < WRAP && NoPause(l, s.lastCtcp, events)
    requires forall i :: 0 <= i < |events| ==> !IsAction(events[i].text)
    ensures Forwarded(l, s, events) == 0 <==> s.count + |events| < WRAP
    decreases |events|
  {
    if events != [] {
      BlockingContinues(l, s, events[0]);
      if s.count < WRAP - 1 {
        BlockedRun(l, Step(l, s, events[0]), events[1..]);
      }
    }
  }
}
