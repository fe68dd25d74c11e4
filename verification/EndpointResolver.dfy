/** The background endpoint lookup with its retries and its log (src/net/EndpointResolver.h). */
module EndpointResolver {
  import opened Clock
  import opened Options

  const RETRY_MS: nat := 10_000

  /** What a background lookup has come to when it is asked. */
  datatype Lookup = Pending | Found(address: string) | Failure(message: string)

  /** log holds the messages printed, without the prefix they all share. */
  datatype State = State(resolving: bool, retryAtMs: nat, lastMessage: string, log: seq<string>)

  const START: State := State(false, 0, "", [])

  function Reported(s: State, message: string): State {
    if message == s.lastMessage then s else s.(lastMessage := message, log := s.log + [message])
  }

  function AfterFailure(s: State, now: nat, message: string): State {
    Reported(s.(retryAtMs := now + RETRY_MS), message)
  }

  function Polled(s: State, now: nat, lookup: Lookup): State {
    if !s.resolving then s.(resolving := now >= s.retryAtMs)
    else
      match lookup
      case Pending => s
      case Found(_) => s.(resolving := false)
      case Failure(m) => AfterFailure(s.(resolving := false), now, m)
  }

  function PollResult(s: State, lookup: Lookup): Option<string> {
    if s.resolving && lookup.Found? then Some(lookup.address) else None
  }

  /** `lookup` is what asking the future gives, `now` the clock reading of the call. */
  class Resolver {
    const endpoint: string
    var resolving: bool
    var retryAtMs: nat
    var lastMessage: string
    var log: seq<string>

    ghost function View(): State
      reads this
    {
      State(resolving, retryAtMs, lastMessage, log)
    }

    constructor (endpoint: string)
      ensures this.endpoint == endpoint && View() == START
    {
      this.endpoint := endpoint;
      resolving, retryAtMs, lastMessage, log := false, 0, "", [];
    }

    predicate IsEnabled() {
      endpoint != ""
    }

    method Poll(now: nat, lookup: Lookup) returns (address: Option<string>)
      modifies this
      ensures View() == Polled(old(View()), now, lookup)
      ensures address == PollResult(old(View()), lookup)
    {
      if !resolving {
        if now >= retryAtMs {
          resolving := true;
        }
        return None;
      }
      if lookup.Pending? {
        return None;
      }
      resolving := false;
      if lookup.Found? {
        return Some(lookup.address);
      }
      Failed(now, lookup.message);
      return None;
    }

    method Failed(now: nat, message: string)
      modifies this
      ensures View() == AfterFailure(old(View()), now, message)
    {
      retryAtMs := now + RETRY_MS;
      Report(message);
    }

    method Report(message: string)
      modifies this
      ensures View() == Reported(old(View()), message)
    {
      if message != lastMessage {
        lastMessage := message;
        log := log + [message];
      }
    }
  }

  // ---------------------------------------------------------------- runs

  datatype Event =
    | Poll(now: nat, lookup: Lookup)
    | Failed(now: nat, message: string)
    | Report(now: nat, message: string)

  function Step(s: State, e: Event): State {
    match e
    case Poll(now, lookup) => Polled(s, now, lookup)
    case Failed(now, message) => AfterFailure(s, now, message)
    case Report(_, message) => Reported(s, message)
  }

  function After(events: seq<Event>): State {
    if events == [] then START else Step(After(events[..|events| - 1]), events[|events| - 1])
  }

  function TimeOf(e: Event): nat {
    e.now
  }

  predicate Starts(s: State, e: Event) {
    e.Poll? && !s.resolving && e.now >= s.retryAtMs
  }

  predicate Finishes(s: State, e: Event) {
    e.Poll? && s.resolving && !e.lookup.Pending?
  }

  predicate Fails(s: State, e: Event) {
    e.Failed? || (Finishes(s, e) && e.lookup.Failure?)
  }

  predicate FailsAt(events: seq<Event>, i: nat)
    requires i < |events|
  {
    Fails(After(events[..i]), events[i])
  }

  predicate StartsAt(events: seq<Event>, i: nat)
    requires i < |events|
  {
    Starts(After(events[..i]), events[i])
  }

  function CountStarts(events: seq<Event>): nat {
    if events == [] then 0
    else
      var n := |events| - 1;
      CountStarts(events[..n]) + if StartsAt(events, n) then 1 else 0
  }

  function CountFinishes(events: seq<Event>): nat {
    if events == [] then 0
    else
      var n := |events| - 1;
      CountFinishes(events[..n]) + if Finishes(After(events[..n]), events[n]) then 1 else 0
  }

  /** A lookup is started only when every earlier one has finished. */
  lemma {:induction false} OneInFlight(events: seq<Event>)
    ensures CountStarts(events) == CountFinishes(events) + if After(events).resolving then 1 else 0
  {
    if events != [] { OneInFlight(events[..|events| - 1]); }
  }

  lemma SamePast(events: seq<Event>, n: nat, i: nat)
    requires i < n <= |events|
    ensures FailsAt(events[..n], i) == FailsAt(events, i)
  {
    assert events[..n][..i] == events[..i];
  }

  lemma RetryStep(s: State, e: Event)
    ensures Step(s, e).retryAtMs == if Fails(s, e) then e.now + RETRY_MS else s.retryAtMs
  {
  }

  /** The retry time is never before ten seconds after a failure. */
  lemma {:induction false} RetryIsLate(events: seq<Event>, i: nat)
    requires InOrder(events, TimeOf) && i < |events| && FailsAt(events, i)
    ensures After(events).retryAtMs >= events[i].now + RETRY_MS
  {
    hide Step;
    var n := |events| - 1;
    RetryStep(After(events[..n]), events[n]);
    if i < n {
      SamePast(events, n, i);
      RetryIsLate(events[..n], i);
    }
  }

  /** And it is ten seconds after some failure, when there was one. */
  lemma {:induction false} RetryHasCause(events: seq<Event>) returns (i: nat)
    requires After(events).retryAtMs != 0
    ensures i < |events| && FailsAt(events, i) && After(events).retryAtMs == events[i].now + RETRY_MS
  {
    var n := |events| - 1;
    RetryStep(After(events[..n]), events[n]);
    if FailsAt(events, n) {
      i := n;
    } else {
      i := RetryHasCause(events[..n]);
      SamePast(events, n, i);
    }
  }

  /** A poll starts a lookup exactly when none is in flight and every failure is at least ten seconds old. */
  lemma StartsExactlyWhen(events: seq<Event>, j: nat)
    requires InOrder(events, TimeOf) && j < |events| && events[j].Poll?
    ensures StartsAt(events, j)
       <==> !After(events[..j]).resolving
            && forall i :: 0 <= i < j && FailsAt(events, i) ==> events[j].now >= events[i].now + RETRY_MS
  {
    var before := events[..j];
    forall i | 0 <= i < j && FailsAt(events, i) ensures After(before).retryAtMs >= events[i].now + RETRY_MS {
      SamePast(events, j, i);
      RetryIsLate(before, i);
    }
    if After(before).retryAtMs != 0 {
      var i := RetryHasCause(before);
      SamePast(events, j, i);
    }
  }

  // ---------------------------------------------------------------- the log

  /** The messages reported in a run, in order. */
  function Messages(events: seq<Event>): seq<string> {
    if events == [] then []
    else
      var n := |events| - 1;
      Messages(events[..n]) +
      match events[n]
      case Poll(_, lookup) => if Fails(After(events[..n]), events[n]) then [lookup.message] else []
      case Failed(_, m) => [m]
      case Report(_, m) => [m]
  }

  function Last(messages: seq<string>): string {
    if messages == [] then "" else messages[|messages| - 1]
  }

  /** Adjacent repeats removed, counting an empty message before the first. */
  function Squeezed(messages: seq<string>): seq<string> {
    if messages == [] then []
    else
      var n := |messages| - 1;
      Squeezed(messages[..n]) + if messages[n] == Last(messages[..n]) then [] else [messages[n]]
  }

  lemma SqueezedStep(messages: seq<string>, m: string)
    ensures Squeezed(messages + [m]) == Squeezed(messages) + if m == Last(messages) then [] else [m]
  {
  }

  /** The log is the reported messages with adjacent repeats removed. */
  lemma {:induction false} LogIsSqueezed(events: seq<Event>)
    ensures After(events).log == Squeezed(Messages(events))
    ensures After(events).lastMessage == Last(Messages(events))
  {
    if events != [] {
      var n := |events| - 1;
      var before, e := events[..n], events[n];
      LogIsSqueezed(before);
      if !e.Poll? {
        SqueezedStep(Messages(before), e.message);
      } else if Fails(After(before), e) {
        SqueezedStep(Messages(before), e.lookup.message);
      } else {
        assert Messages(events) == Messages(before);
      }
    }
  }

  /** No two adjacent lines of the log are the same, and its last line is the last message. */
  lemma {:induction false} SqueezedHasNoRepeats(messages: seq<string>)
    ensures var log := Squeezed(messages);
      && (forall k :: 0 < k < |log| ==> log[k] != log[k - 1])
      && (log != [] ==> log[0] != "")
      && Last(log) == Last(messages)
  {
    if messages != [] {
      SqueezedHasNoRepeats(messages[..|messages| - 1]);
    }
  }
}
