/**
 One lazy HTTP exchange of the TLS transport: a body that is collected, two readers that send the
 request when the first of them is read, and one answer both of them share.
 */
module HttpExchange {
  import opened Common

  type Byte = x: nat | x < 256

  datatype Kind = TimedOut | PermissionDenied | ConnectionAborted | Other

  /** What sending can come to. */
  datatype Host =
    | NoAnswer(timedOut: bool)
    | Answer(status: nat, headers: seq<Byte>, body: seq<Byte>)

  datatype Request = Request(posting: bool, body: seq<Byte>)

  datatype Half = Headers | Body

  datatype State =
    | Pending(body: seq<Byte>)
    | Answered(headers: seq<Byte>, response: Option<seq<Byte>>)
    | Failed(kind: Kind)

  /** What `send` makes of the answer. */
  function Outcome(host: Host): State {
    match host
    case NoAnswer(timedOut) => Failed(if timedOut then TimedOut else Other)
    case Answer(status, headers, body) =>
      if 200 <= status < 300 then Answered(headers, Some(body))
      else if 300 <= status < 400 then Failed(Other)
      else if status == 401 then Failed(PermissionDenied)
      else if 500 <= status < 600 then Failed(ConnectionAborted)
      else Failed(Other)
  }

  /** The exchange and its two readers. A reader's `inner` is what it has taken out and not yet handed on.
      `sent` is history: every request that went out. */
  datatype Exchange = Exchange(
    posting: bool,
    state: State,
    headersInner: Option<seq<Byte>>,
    bodyInner: Option<seq<Byte>>,
    sent: seq<Request>)

  function Fresh(posting: bool): Exchange {
    Exchange(posting, Pending([]), None, None, [])
  }

  function Written(x: Exchange, buffer: seq<Byte>): Exchange {
    if x.state.Pending? then x.(state := Pending(x.state.body + buffer)) else x
  }

  function Sent(x: Exchange, host: Host): Exchange {
    if x.state.Pending?
    then x.(state := Outcome(host), sent := x.sent + [Request(x.posting, if x.posting then x.state.body else [])])
    else x
  }

  function Inner(x: Exchange, half: Half): Option<seq<Byte>> {
    if half == Headers then x.headersInner else x.bodyInner
  }

  function Put(x: Exchange, half: Half, inner: seq<Byte>): Exchange {
    if half == Headers then x.(headersInner := Some(inner)) else x.(bodyInner := Some(inner))
  }

  /** A reader's first read takes its half out of the answer, sending the request if nobody has yet. */
  function Readied(x: Exchange, host: Host, half: Half): Exchange {
    if Inner(x, half).Some? then x
    else
      var sent := Sent(x, host);
      match sent.state
      case Failed(_) => sent
      case Pending(_) => Put(sent, half, [])
      case Answered(headers, response) =>
        if half == Headers then Put(sent.(state := Answered([], response)), half, headers)
        else Put(sent.(state := Answered(headers, None)), half, if response.Some? then response.value else [])
  }

  function Min(a: nat, b: nat): nat {
    if a < b then a else b
  }

  /** One read of up to `n` bytes on one half. */
  function AfterRead(x: Exchange, host: Host, half: Half, n: nat): (Exchange, Result<seq<Byte>, Kind>) {
    var ready := Readied(x, host, half);
    if Inner(ready, half).None? then (ready, Err(if ready.state.Failed? then ready.state.kind else Other))
    else
      var inner := Inner(ready, half).value;
      var k := Min(n, |inner|);
      (Put(ready, half, inner[k..]), Ok(inner[..k]))
  }

  /** The exchange as it is: one object shared by the writer and both readers. */
  class Shared {
    const posting: bool
    var state: State
    var headersInner: Option<seq<Byte>>
    var bodyInner: Option<seq<Byte>>
    ghost var sent: seq<Request>

    ghost function Abs(): Exchange
      reads this
    {
      Exchange(posting, state, headersInner, bodyInner, sent)
    }

    constructor (posting: bool)
      ensures Abs() == Fresh(posting)
    {
      this.posting, state, headersInner, bodyInner, sent := posting, Pending([]), None, None, [];
    }

    method Write(buffer: seq<Byte>)
      modifies this
      ensures Abs() == Written(old(Abs()), buffer)
    {
      if state.Pending? {
        state := Pending(state.body + buffer);
      }
    }

    method Send(host: Host)
      modifies this
      ensures Abs() == Sent(old(Abs()), host)
    {
      if state.Pending? {
        sent := sent + [Request(posting, if posting then state.body else [])];
        state := Outcome(host);
      }
    }

    method Ready(host: Host, half: Half)
      modifies this
      ensures Abs() == Readied(old(Abs()), host, half)
    {
      if (half == Headers && headersInner.Some?) || (half == Body && bodyInner.Some?) {
        return;
      }
      Send(host);
      match state {
        case Failed(_) =>
        case Pending(_) =>
          assert false;
        case Answered(headers, response) =>
          if half == Headers {
            headersInner := Some(headers);
            state := Answered([], response);
          } else {
            bodyInner := Some(if response.Some? then response.value else []);
            state := Answered(headers, None);
          }
      }
    }

    method Read(host: Host, half: Half, n: nat) returns (r: Result<seq<Byte>, Kind>)
      modifies this
      ensures (Abs(), r) == AfterRead(old(Abs()), host, half, n)
    {
      Ready(host, half);
      var inner := if half == Headers then headersInner else bodyInner;
      if inner.None? {
        return Err(if state.Failed? then state.kind else Other);
      }
      var k := Min(n, |inner.value|);
      if half == Headers {
        headersInner := Some(inner.value[k..]);
      } else {
        bodyInner := Some(inner.value[k..]);
      }
      r := Ok(inner.value[..k]);
    }
  }

  // ---------------------------------------------------------------------------------------------
  // Every interleaving

  datatype Event = Write(buffer: seq<Byte>) | Read(half: Half, n: nat)

  /** What came back from the reads so far. */
  datatype Log = Log(exchange: Exchange, headers: seq<Byte>, body: seq<Byte>, errors: seq<Kind>, asked: nat)

  function Step(log: Log, host: Host, event: Event): Log {
    match event
    case Write(buffer) => log.(exchange := Written(log.exchange, buffer))
    case Read(half, n) =>
      var (x, r) := AfterRead(log.exchange, host, half, n);
      var next := log.(exchange := x, asked := log.asked + 1);
      match r
      case Err(kind) => next.(errors := log.errors + [kind])
      case Ok(bytes) => if half == Headers then next.(headers := log.headers + bytes)
                        else next.(body := log.body + bytes)
  }

  function Play(log: Log, host: Host, events: seq<Event>): Log
    decreases |events|
  {
    if events == [] then log else Step(Play(log, host, events[..|events| - 1]), host, Last(events))
  }

  function Start(posting: bool): Log {
    Log(Fresh(posting), [], [], [], 0)
  }

  /** Everything written before the first read on either half. */
  function WrittenFirst(events: seq<Event>): seq<Byte> {
    if events == [] || events[0].Read? then [] else events[0].buffer + WrittenFirst(events[1..])
  }

  predicate AnyRead(events: seq<Event>) {
    exists i :: 0 <= i < |events| && events[i].Read?
  }

  lemma {:induction false} WrittenFirstGrows(events: seq<Event>, event: Event)
    ensures WrittenFirst(events + [event]) ==
      if AnyRead(events) || event.Read? then WrittenFirst(events) else WrittenFirst(events) + event.buffer
  {
    if events == [] {
      assert (events + [event])[1..] == [];
    } else {
      WrittenFirstGrows(events[1..], event);
      assert (events + [event])[1..] == events[1..] + [event];
      assert AnyRead(events) <==> events[0].Read? || AnyRead(events[1..]) by {
        if AnyRead(events) && !events[0].Read? {
          var i :| 0 <= i < |events| && events[i].Read?;
          assert events[1..][i - 1].Read?;
        }
        if AnyRead(events[1..]) {
          var i :| 0 <= i < |events[1..]| && events[1..][i].Read?;
          assert events[i + 1].Read?;
        }
      }
    }
  }

  /** What is still to be read of one half. */
  function Left(x: Exchange, half: Half): seq<Byte> {
    if Inner(x, half).Some? then Inner(x, half).value
    else if !x.state.Answered? then []
    else if half == Headers then x.state.headers
    else if x.state.response.Some? then x.state.response.value else []
  }

  /** Nothing has been read yet. */
  ghost predicate Collecting(posting: bool, written: seq<Byte>, log: Log) {
    log == Log(Exchange(posting, Pending(written), None, None, []), [], [], [], 0)
  }

  /** The request went out with `written`, and what was read is what the host answered. */
  ghost predicate Talking(posting: bool, host: Host, written: seq<Byte>, log: Log) {
    var x := log.exchange;
    && x.posting == posting
    && x.sent == [Request(posting, if posting then written else [])]
    && (Outcome(host).Failed? ==> FailedAlike(host, log))
    && (Outcome(host).Answered? ==> x.state.Answered? && log.errors == [] && BothWhole(host, log))
  }

  ghost predicate FailedAlike(host: Host, log: Log)
    requires Outcome(host).Failed?
  {
    && log.exchange.state == Outcome(host) && log.exchange.headersInner.None? && log.exchange.bodyInner.None?
    && log.headers == log.body == []
    && |log.errors| == log.asked
    && forall i :: 0 <= i < |log.errors| ==> log.errors[i] == Outcome(host).kind
  }

  ghost predicate BothWhole(host: Host, log: Log)
    requires host.Answer?
  {
    && log.headers + Left(log.exchange, Headers) == host.headers
    && log.body + Left(log.exchange, Body) == host.body
  }

  /** A read while talking: the same error again, or the next bytes of its half. */
  lemma ReadKeeps(posting: bool, host: Host, written: seq<Byte>, log: Log, half: Half, n: nat)
    requires Talking(posting, host, written, log)
    ensures Talking(posting, host, written, Step(log, host, Read(half, n)))
  {
    if Outcome(host).Answered? {
      var left := Left(log.exchange, half);
      var k := Min(n, |left|);
      assert left == left[..k] + left[k..];
      ReadWhole(host, log, half, n);
    }
  }

  lemma ReadWhole(host: Host, log: Log, half: Half, n: nat)
    requires host.Answer? && log.exchange.state.Answered? && BothWhole(host, log)
    ensures BothWhole(host, Step(log, host, Read(half, n)))
  {
    var left := Left(log.exchange, half);
    var k := Min(n, |left|);
    var ready := Readied(log.exchange, host, half);
    assert Inner(ready, half) == Some(left);
    var other := if half == Headers then Body else Headers;
    assert Left(Put(ready, half, left[k..]), other) == Left(log.exchange, other);
    if half == Headers {
      assert log.headers + left == log.headers + left[..k] + left[k..];
    } else {
      assert log.body + left == log.body + left[..k] + left[k..];
    }
  }

  /** The first read is a send followed by a read while talking. */
  lemma FirstReadKeeps(posting: bool, host: Host, written: seq<Byte>, log: Log, half: Half, n: nat)
    requires Collecting(posting, written, log)
    ensures Talking(posting, host, written, Step(log, host, Read(half, n)))
  {
    var talking := log.(exchange := Sent(log.exchange, host));
    assert Talking(posting, host, written, talking);
    ReadKeeps(posting, host, written, talking, half, n);
    assert Step(talking, host, Read(half, n)) == Step(log, host, Read(half, n));
  }

  /** Everything an exchange promises about the events so far. */
  ghost predicate Kept(posting: bool, host: Host, events: seq<Event>, log: Log) {
    if AnyRead(events) then Talking(posting, host, WrittenFirst(events), log)
    else Collecting(posting, WrittenFirst(events), log)
  }

  lemma AnyReadGrows(events: seq<Event>, event: Event)
    ensures AnyRead(events + [event]) <==> AnyRead(events) || event.Read?
  {
    if AnyRead(events) {
      var i :| 0 <= i < |events| && events[i].Read?;
      assert (events + [event])[i].Read?;
    }
    assert (events + [event])[|events|] == event;
  }

  lemma StepKeeps(posting: bool, host: Host, events: seq<Event>, log: Log, event: Event)
    requires Kept(posting, host, events, log)
    ensures Kept(posting, host, events + [event], Step(log, host, event))
  {
    WrittenFirstGrows(events, event);
    AnyReadGrows(events, event);
    var written := WrittenFirst(events);
    match event {
      case Write(buffer) =>
      case Read(half, n) =>
        if AnyRead(events) {
          ReadKeeps(posting, host, written, log, half, n);
        } else {
          FirstReadKeeps(posting, host, written, log, half, n);
        }
    }
  }

  lemma {:induction false} PlayKeeps(posting: bool, host: Host, events: seq<Event>)
    ensures Kept(posting, host, events, Play(Start(posting), host, events))
    decreases |events|
  {
    if events != [] {
      var before := events[..|events| - 1];
      PlayKeeps(posting, host, before);
      StepKeeps(posting, host, before, Play(Start(posting), host, before), Last(events));
      assert before + [Last(events)] == events;
    }
  }

  // ---------------------------------------------------------------------------------------------
  // The result, told from the host's answer

  /** The host answered, and with success. */
  predicate Succeeds(host: Host) {
    host.Answer? && 200 <= host.status <= 299
  }

  /** The kind of failure that stands for what the host did: only a 401 is a refused credential. */
  predicate RightKind(host: Host, kind: Kind) {
    && (kind == TimedOut <==> host == NoAnswer(true))
    && (kind == PermissionDenied <==> host.Answer? && host.status == 401)
    && (kind == ConnectionAborted <==> host.Answer? && 500 <= host.status <= 599)
  }

  lemma OutcomeIs(host: Host)
    ensures Outcome(host).Answered? <==> Succeeds(host)
    ensures Outcome(host).Failed? <==> !Succeeds(host)
    ensures Outcome(host).Failed? ==> RightKind(host, Outcome(host).kind)
  {
  }

  /** How many bytes were asked of a half, and how many reads were made on either. */
  function Asked(events: seq<Event>, half: Half): nat {
    if events == [] then 0
    else Asked(events[..|events| - 1], half) + if Last(events).Read? && Last(events).half == half then Last(events).n else 0
  }

  function ReadCount(events: seq<Event>): nat {
    if events == [] then 0 else ReadCount(events[..|events| - 1]) + if Last(events).Read? then 1 else 0
  }

  /** The first bytes, as many as were asked for, or all of them. */
  predicate YieldedAsAsked(got: seq<Byte>, all: seq<Byte>, asked: nat) {
    got <= all && |got| <= asked && (|got| < asked ==> got == all)
  }

  function Got(log: Log, half: Half): seq<Byte> {
    if half == Headers then log.headers else log.body
  }

  function Offered(host: Host, half: Half): seq<Byte>
    requires host.Answer?
  {
    if half == Headers then host.headers else host.body
  }

  /** A read of `n` bytes yields `n` of them, or what is left. */
  lemma ReadYields(host: Host, log: Log, half: Half, n: nat)
    requires host.Answer? && log.exchange.state.Answered?
    ensures var log' := Step(log, host, Read(half, n)); var left := Left(log.exchange, half);
      && Got(log', half) == Got(log, half) + left[..Min(n, |left|)]
      && log'.errors == log.errors
    ensures forall other :: other != half ==> Got(Step(log, host, Read(half, n)), other) == Got(log, other)
  {
    var ready := Readied(log.exchange, host, half);
    assert Inner(ready, half) == Some(Left(log.exchange, half));
  }

  lemma WholeHalf(host: Host, log: Log, half: Half)
    requires host.Answer? && BothWhole(host, log)
    ensures Got(log, half) + Left(log.exchange, half) == Offered(host, half)
  {
  }

  lemma TalkingYields(host: Host, log: Log, event: Event, half: Half)
    requires host.Answer? && log.exchange.state.Answered? && BothWhole(host, log) && event.Read?
    ensures |Got(log, half)| <= |Offered(host, half)|
    ensures |Got(Step(log, host, event), half)| ==
      |Got(log, half)| + if event.half == half then Min(event.n, |Offered(host, half)| - |Got(log, half)|) else 0
  {
    WholeHalf(host, log, half);
    ReadYields(host, log, event.half, event.n);
  }

  /** The first read sends, and then reads like any other. */
  lemma ReadAdds(posting: bool, host: Host, before: seq<Event>, log: Log, event: Event, half: Half)
    requires Succeeds(host) && Kept(posting, host, before, log) && event.Read?
    ensures |Got(log, half)| <= |Offered(host, half)|
    ensures |Got(Step(log, host, event), half)| ==
      |Got(log, half)| + if event.half == half then Min(event.n, |Offered(host, half)| - |Got(log, half)|) else 0
  {
    OutcomeIs(host);
    if AnyRead(before) {
      TalkingYields(host, log, event, half);
    } else {
      var talking := log.(exchange := Sent(log.exchange, host));
      assert Step(talking, host, event) == Step(log, host, event);
      TalkingYields(host, talking, event, half);
    }
  }

  lemma {:induction false} PlayYields(posting: bool, host: Host, events: seq<Event>, half: Half)
    requires Succeeds(host)
    ensures var got, asked, all := |Got(Play(Start(posting), host, events), half)|, Asked(events, half), |Offered(host, half)|;
      got == if asked < all then asked else all
    decreases |events|
  {
    if events != [] {
      var before, event := events[..|events| - 1], Last(events);
      PlayYields(posting, host, before, half);
      PlayKeeps(posting, host, before);
      if event.Read? {
        ReadAdds(posting, host, before, Play(Start(posting), host, before), event, half);
      }
    }
  }

  lemma {:induction false} ReadsCounted(posting: bool, host: Host, events: seq<Event>)
    ensures Play(Start(posting), host, events).asked == ReadCount(events)
    decreases |events|
  {
    if events != [] {
      ReadsCounted(posting, host, events[..|events| - 1]);
    }
  }

  /** For every interleaving of writes and of reads on the two halves: the request goes out once if anything is
      read and not at all otherwise, carrying exactly what was written before the first read. Reads succeed
      exactly when the host answered with a status of success, and then each half has yielded as many of its own
      bytes, in order, as were asked of it; otherwise every read on either half fails, with the one kind that
      stands for what the host did. */
  lemma SentOnceSharedByBoth(posting: bool, host: Host, events: seq<Event>)
    ensures var log := Play(Start(posting), host, events);
      && log.exchange.sent == (if AnyRead(events) then [Request(posting, if posting then WrittenFirst(events) else [])]
                               else [])
      && (Succeeds(host) ==>
            && log.errors == []
            && YieldedAsAsked(log.headers, host.headers, Asked(events, Headers))
            && YieldedAsAsked(log.body, host.body, Asked(events, Body)))
      && (!Succeeds(host) ==>
            && log.headers == log.body == [] && |log.errors| == ReadCount(events)
            && forall i :: 0 <= i < |log.errors| ==> RightKind(host, log.errors[i]))
  {
    OutcomeIs(host);
    PlayKeeps(posting, host, events);
    ReadsCounted(posting, host, events);
    if Succeeds(host) {
      PlayYields(posting, host, events, Headers);
      PlayYields(posting, host, events, Body);
    }
  }
}
