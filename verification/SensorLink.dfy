/**
 The sensor's request/reply link (src/net/SensorLink.h): a request every interval, a reply or a
 timeout, and a link that counts as live for two seconds after a reply.  What the sockets and the
 background lookup do is given to every poll.
 */
module SensorLink {
  import opened Clock
  import opened Options
  import E = EndpointResolver
  import T = Text

  const LIVE_MS: nat := 2_000

  /** How often requests are sent, and how long to wait for a reply. */
  datatype Timing = Timing(intervalMs: nat, timeoutMs: nat)

  /**
   What one poll meets: the lookup, the error of connecting (if any), the reply that has arrived (if any)
   and whether a request can be sent.  The clock is read when the lookup is polled, when connecting
   fails, for the exchange itself (now), and to see whether the link is still live when a request is
   given up or cannot be sent.
   */
  datatype Event = Event(
    lookedUp: nat, faulted: nat, now: nat, gaveUp: nat, unsent: nat,
    lookup: E.Lookup, fault: Option<string>, received: Option<string>, sends: bool)

  datatype State = State(
    resolver: E.State, connected: bool, awaitingReply: bool, sentMs: nat, haveReply: bool, lastReplyMs: nat)

  const START: State := State(E.START, false, false, 0, false, 0)

  predicate Live(s: State, now: nat) {
    s.haveReply && now - s.lastReplyMs < LIVE_MS
  }

  function Connected(s: State, e: Event): State {
    var r := E.Polled(s.resolver, e.lookedUp, e.lookup);
    match E.PollResult(s.resolver, e.lookup)
    case None => s.(resolver := r)
    case Some(address) =>
      match e.fault
      case None => s.(resolver := E.Reported(r, "connecting to " + address), connected := true)
      case Some(m) => s.(resolver := E.AfterFailure(r, e.faulted, m))
  }

  function Noted(s: State, message: string): State {
    s.(resolver := E.Reported(s.resolver, message))
  }

  predicate IsError(text: string) {
    T.FirstWord(text) == "error"
  }

  /** A reply is an error exactly if it starts with that word, and with nothing before it. */
  lemma IsErrorExactlyWhen(text: string)
    ensures IsError(text) <==> "error" <= text && (|text| == 5 || T.IsSpace(text[5]))
  {
    var n := T.Find(text, 0, true);
    if "error" <= text {
      forall i | 0 <= i < 5 ensures !T.IsSpace(text[i]) { assert text[i] == "error"[i]; }
      assert n >= 5;
    }
  }

  /** A reply is taken: an error is only logged. */
  function Received(s: State, now: nat, text: string): State {
    var t := s.(awaitingReply := false);
    if IsError(text) then Noted(t, text)
    else
      var u := if !s.haveReply || now - s.lastReplyMs >= LIVE_MS then Noted(t, "receiving data") else t;
      u.(haveReply := true, lastReplyMs := now)
  }

  function GivenUp(s: State, now: nat): State {
    var t := s.(awaitingReply := false);
    if Live(t, now) then t else Noted(t, "no reply")
  }

  function Requested(s: State, c: Timing, e: Event): State {
    if e.now - s.sentMs < c.intervalMs then s
    else
      var t := s.(sentMs := e.now, awaitingReply := e.sends);
      if !e.sends && !Live(t, e.unsent) then Noted(t, "waiting for provider") else t
  }

  /** One poll over an open socket. */
  function Exchanged(s: State, c: Timing, e: Event): State {
    if !s.awaitingReply then Requested(s, c, e)
    else if e.received.Some? then Received(s, e.now, e.received.value)
    else if e.now - s.sentMs < c.timeoutMs then s
    else Requested(GivenUp(s, e.gaveUp), c, e)
  }

  function Opened(s: State, e: Event): State {
    if s.connected then s else Connected(s, e)
  }

  function Step(s: State, c: Timing, e: Event): State {
    var t := Opened(s, e);
    if t.connected then Exchanged(t, c, e) else t
  }

  predicate Accepts(s: State, e: Event) {
    Opened(s, e).connected && s.awaitingReply && e.received.Some? && !IsError(e.received.value)
  }

  function PollResult(s: State, e: Event): Option<string> {
    if Accepts(s, e) then e.received else None
  }

  class Link {
    const resolver: E.Resolver
    const timing: Timing
    var connected: bool
    var awaitingReply: bool
    var sentMs: nat
    var haveReply: bool
    var lastReplyMs: nat

    ghost function View(): State
      reads this, resolver
    {
      State(resolver.View(), connected, awaitingReply, sentMs, haveReply, lastReplyMs)
    }

    constructor (endpoint: string, timing: Timing)
      ensures View() == START && this.timing == timing
      ensures fresh(resolver) && resolver.endpoint == endpoint
    {
      resolver := new E.Resolver(endpoint);
      this.timing := timing;
      connected, awaitingReply, sentMs, haveReply, lastReplyMs := false, false, 0, false, 0;
    }

    predicate IsLive(now: nat)
      reads this
    {
      haveReply && now - lastReplyMs < LIVE_MS
    }

    method TryConnect(e: Event)
      requires !connected
      modifies this`connected, resolver
      ensures View() == Connected(old(View()), e)
    {
      var address := resolver.Poll(e.lookedUp, e.lookup);
      if address.None? {
        return;
      }
      if e.fault.None? {
        connected := true;
        resolver.Report("connecting to " + address.value);
      } else {
        resolver.Failed(e.faulted, e.fault.value);
      }
    }

    /** A poll over an open socket. */
    method Exchange(e: Event) returns (reply: Option<string>)
      modifies this`awaitingReply, this`sentMs, this`haveReply, this`lastReplyMs, resolver
      ensures View() == Exchanged(old(View()), timing, e)
      ensures reply == if old(awaitingReply) && e.received.Some? && !IsError(e.received.value) then e.received else None
    {
      var now := e.now;
      reply := None;
      if awaitingReply {
        if e.received.Some? {
          awaitingReply := false;
          var text := e.received.value;
          if T.FirstWord(text) == "error" {
            resolver.Report(text);
            return;
          }
          if !haveReply || now - lastReplyMs >= LIVE_MS {
            resolver.Report("receiving data");
          }
          haveReply := true;
          lastReplyMs := now;
          return Some(text);
        }
        if now - sentMs < timing.timeoutMs {
          return;
        }
        awaitingReply := false;
        if !IsLive(e.gaveUp) {
          resolver.Report("no reply");
        }
      }
      if now - sentMs >= timing.intervalMs {
        sentMs := now;
        awaitingReply := e.sends;
        if !awaitingReply && !IsLive(e.unsent) {
          resolver.Report("waiting for provider");
        }
      }
    }

    method Poll(e: Event) returns (reply: Option<string>)
      modifies this, resolver
      ensures resolver.endpoint != "" ==> View() == Step(old(View()), timing, e) && reply == PollResult(old(View()), e)
      ensures resolver.endpoint == "" ==> View() == old(View()) && reply == None
    {
      if !resolver.IsEnabled() {
        return None;
      }
      if !connected {
        TryConnect(e);
        if !connected {
          return None;
        }
      }
      reply := Exchange(e);
    }
  }

  // ---------------------------------------------------------------- runs

  function After(s: State, c: Timing, events: seq<Event>): State {
    if events == [] then s else Step(After(s, c, events[..|events| - 1]), c, events[|events| - 1])
  }

  function TimeOf(e: Event): nat {
    e.now
  }

  /** The poll tries to send a request. */
  predicate Sends(s: State, c: Timing, e: Event) {
    && Opened(s, e).connected
    && e.now - s.sentMs >= c.intervalMs
    && (s.awaitingReply ==> e.received.None? && e.now - s.sentMs >= c.timeoutMs)
  }

  predicate SendsAt(c: Timing, events: seq<Event>, i: nat)
    requires i < |events|
  {
    Sends(After(START, c, events[..i]), c, events[i])
  }

  predicate AcceptsAt(c: Timing, events: seq<Event>, i: nat)
    requires i < |events|
  {
    Accepts(After(START, c, events[..i]), events[i])
  }

  lemma SamePast(c: Timing, events: seq<Event>, n: nat, i: nat)
    requires i < n <= |events|
    ensures SendsAt(c, events[..n], i) == SendsAt(c, events, i)
    ensures AcceptsAt(c, events[..n], i) == AcceptsAt(c, events, i)
  {
    assert events[..n][..i] == events[..i];
  }

  /** What a poll does to the two times it keeps. */
  lemma StepTimes(s: State, c: Timing, e: Event)
    ensures Step(s, c, e).sentMs == if Sends(s, c, e) then e.now else s.sentMs
    ensures Step(s, c, e).lastReplyMs == if Accepts(s, e) then e.now else s.lastReplyMs
    ensures Step(s, c, e).haveReply == (s.haveReply || Accepts(s, e))
  {
    hide E.Polled, E.Reported, E.AfterFailure, E.PollResult, IsError, Live;
  }

  lemma {:induction false} TimesAreLate(c: Timing, events: seq<Event>, i: nat)
    requires InOrder(events, TimeOf) && i < |events|
    ensures SendsAt(c, events, i) ==> After(START, c, events).sentMs >= events[i].now
    ensures AcceptsAt(c, events, i) ==>
      After(START, c, events).haveReply && After(START, c, events).lastReplyMs >= events[i].now
  {
    hide Step, Sends, Accepts;
    var n := |events| - 1;
    StepTimes(After(START, c, events[..n]), c, events[n]);
    if i < n {
      SamePast(c, events, n, i);
      TimesAreLate(c, events[..n], i);
    }
  }

  /** In every run, requests are sent at least an interval apart. */
  lemma SendsAreSpaced(c: Timing, events: seq<Event>, i: nat, j: nat)
    requires InOrder(events, TimeOf) && i < j < |events| && SendsAt(c, events, i) && SendsAt(c, events, j)
    ensures events[j].now - events[i].now >= c.intervalMs
  {
    SamePast(c, events, j, i);
    TimesAreLate(c, events[..j], i);
  }

  lemma {:induction false} LastReply(c: Timing, events: seq<Event>) returns (i: nat)
    requires After(START, c, events).haveReply
    ensures i < |events| && AcceptsAt(c, events, i) && After(START, c, events).lastReplyMs == events[i].now
  {
    hide Step, Sends, Accepts;
    var n := |events| - 1;
    StepTimes(After(START, c, events[..n]), c, events[n]);
    if AcceptsAt(c, events, n) {
      i := n;
    } else {
      i := LastReply(c, events[..n]);
      SamePast(c, events, n, i);
    }
  }

  /** The link is live exactly when some reply that was no error came less than two seconds ago. */
  lemma LiveExactlyWhen(c: Timing, events: seq<Event>, now: nat)
    requires InOrder(events, TimeOf)
    ensures Live(After(START, c, events), now)
       <==> exists i :: 0 <= i < |events| && AcceptsAt(c, events, i) && now - events[i].now < LIVE_MS
  {
    if Live(After(START, c, events), now) {
      var i := LastReply(c, events);
    }
    forall i | 0 <= i < |events| && AcceptsAt(c, events, i) && now - events[i].now < LIVE_MS
      ensures Live(After(START, c, events), now)
    {
      TimesAreLate(c, events, i);
    }
  }

  // ---------------------------------------------------------------- staying live

  /** Polls are never more than p apart, the first no more than p after `start`. */
  predicate Regular(events: seq<Event>, start: nat, p: nat) {
    forall i :: 0 <= i < |events| ==> TimeBefore(events, start, i) <= events[i].now <= TimeBefore(events, start, i) + p
  }

  function TimeBefore(events: seq<Event>, start: nat, i: nat): nat
    requires i <= |events|
  {
    if i == 0 then start else events[i - 1].now
  }

  /** Every request can be sent and is answered, not by an error, by the first poll `delta` or more after it. */
  predicate Prompt(s: State, c: Timing, events: seq<Event>, delta: nat) {
    forall i :: 0 <= i < |events| ==>
      && events[i].sends
      && (After(s, c, events[..i]).awaitingReply ==> Answered(After(s, c, events[..i]), events[i], delta))
  }

  predicate Answered(s: State, e: Event, delta: nat) {
    && (e.received.Some? ==> !IsError(e.received.value))
    && (e.now - s.sentMs >= delta ==> e.received.Some?)
  }

  /** What holds at every poll after a reply, `now` being the time of the poll. */
  predicate OnTime(s: State, c: Timing, now: nat, p: nat, delta: nat) {
    && s.connected && s.haveReply && s.lastReplyMs <= now && s.sentMs <= now
    && if s.awaitingReply then
         s.sentMs <= s.lastReplyMs + c.intervalMs + p && (now == s.sentMs || now - s.sentMs < delta)
       else
         s.sentMs <= s.lastReplyMs && (now == s.lastReplyMs || now - s.sentMs < c.intervalMs)
  }

  lemma OnTimeStep(s: State, c: Timing, e: Event, now: nat, p: nat, delta: nat)
    requires OnTime(s, c, now, p, delta) && delta <= c.timeoutMs
    requires now <= e.now <= now + p && e.sends && (s.awaitingReply ==> Answered(s, e, delta))
    ensures OnTime(Step(s, c, e), c, e.now, p, delta)
  {
  }

  lemma PrefixIsGood(s: State, c: Timing, events: seq<Event>, n: nat, start: nat, p: nat, delta: nat)
    requires Regular(events, start, p) && Prompt(s, c, events, delta) && n <= |events|
    ensures Regular(events[..n], start, p) && Prompt(s, c, events[..n], delta)
    ensures forall i :: 0 <= i <= n ==> TimeBefore(events[..n], start, i) == TimeBefore(events, start, i)
  {
    hide After, Answered;
    assert forall i :: 0 <= i < n ==> events[..n][..i] == events[..i] && events[..n][i] == events[i];
  }

  lemma {:induction false} OnTimeRun(s: State, c: Timing, events: seq<Event>, start: nat, p: nat, delta: nat)
    requires OnTime(s, c, start, p, delta) && delta <= c.timeoutMs
    requires Regular(events, start, p) && Prompt(s, c, events, delta)
    ensures OnTime(After(s, c, events), c, TimeBefore(events, start, |events|), p, delta)
  {
    hide Step, OnTime, Answered;
    if events != [] {
      var n := |events| - 1;
      PrefixIsGood(s, c, events, n, start, p, delta);
      OnTimeRun(s, c, events[..n], start, p, delta);
      OnTimeStep(After(s, c, events[..n]), c, events[n], TimeBefore(events, start, n), p, delta);
    }
  }

  /**
   From any poll that takes a reply on, while polls are regular and requests answered promptly, the
   link is live without a gap: after each poll, and still when the next one comes.
   */
  lemma StaysLive(s: State, c: Timing, e: Event, events: seq<Event>, p: nat, delta: nat, now: nat)
    requires s.sentMs <= e.now && Accepts(s, e)
    requires Regular(events, e.now, p) && Prompt(Step(s, c, e), c, events, delta)
    requires delta <= c.timeoutMs && c.intervalMs + 2 * p + delta < LIVE_MS
    requires var last := TimeBefore(events, e.now, |events|); last <= now <= last + p
    ensures Live(After(Step(s, c, e), c, events), now)
  {
    assert OnTime(Step(s, c, e), c, e.now, p, delta);
    OnTimeRun(Step(s, c, e), c, events, e.now, p, delta);
  }

  /** Nothing keeps a link live but replies: two seconds without one and it is not live. */
  lemma GoesQuiet(c: Timing, events: seq<Event>, now: nat)
    requires InOrder(events, TimeOf)
    requires forall i :: 0 <= i < |events| && AcceptsAt(c, events, i) ==> now >= events[i].now + LIVE_MS
    ensures !Live(After(START, c, events), now)
  {
    LiveExactlyWhen(c, events, now);
  }
  // ---------------------------------------------------------------- never giving up

  /** What holds after every poll of an open link, `now` being its time. */
  predicate IsTrying(s: State, c: Timing, now: nat, p: nat) {
    && s.connected && s.sentMs <= now
    && if s.awaitingReply then now == s.sentMs || now - s.sentMs < c.timeoutMs
       else now - s.sentMs < c.intervalMs || now - s.sentMs <= c.timeoutMs + p
  }

  lemma TryingStep(s: State, c: Timing, e: Event, now: nat, p: nat)
    requires IsTrying(s, c, now, p) && now <= e.now <= now + p
    ensures IsTrying(Step(s, c, e), c, e.now, p)
  {
    hide E.Reported, IsError, Live;
  }

  /**
   An open link never gets stuck: while polls are regular, and whatever replies, errors, silences and failures to
   send they meet, the last try to send is never longer ago than the interval, or the timeout and a poll.
   */
  lemma {:induction false} KeepsTrying(s: State, c: Timing, events: seq<Event>, start: nat, p: nat)
    requires IsTrying(s, c, start, p) && Regular(events, start, p)
    ensures IsTrying(After(s, c, events), c, TimeBefore(events, start, |events|), p)
  {
    hide Step, IsTrying;
    if events != [] {
      var n := |events| - 1;
      FirstAreRegular(events, n, start, p);
      KeepsTrying(s, c, events[..n], start, p);
      TryingStep(After(s, c, events[..n]), c, events[n], TimeBefore(events, start, n), p);
    }
  }

  lemma FirstAreRegular(events: seq<Event>, n: nat, start: nat, p: nat)
    requires Regular(events, start, p) && n <= |events|
    ensures Regular(events[..n], start, p) && TimeBefore(events[..n], start, n) == TimeBefore(events, start, n)
  {
    forall i | 0 <= i < n
      ensures TimeBefore(events[..n], start, i) <= events[..n][i].now <= TimeBefore(events[..n], start, i) + p
    {
      assert TimeBefore(events[..n], start, i) == TimeBefore(events, start, i);
    }
  }
}
