/**
 The etcd watch loop: stream errors, capped token recovery, resumption at a revision, the re-read
 of a range, and failure reporting.

 What the cluster and the callback answer is the input: `Opening` for the first stream, then one
 `Turn` for each time round the loop. What is delivered, reported and refreshed is the output.
 */
module EtcdWatch {
  import opened Common

  const MOST_TOKEN_RECOVERIES := 3

  datatype Keys = One(key: string) | Several(keys: seq<string>) | Prefix(prefix: string)

  /** `format` is false when the keys name no format, or disagree, and none was given. */
  datatype Source = Source(keys: Keys, format: bool)

  datatype Value = Text(text: string) | NotUtf8

  datatype Event = Event(put: bool, kv: Option<Kv>)

  /** A key's value and the revision that wrote it. */
  datatype Kv = Kv(revision: nat, value: Value)

  /** What comes of one range read: the range at the revision asked for, a refusal of the token, or any other
      failure. */
  datatype Reply = Served | ReadExpired | ReadFailed

  /** What the store lists under the watched prefix, revision by revision. */
  type Ranges = nat -> seq<(string, Value)>

  /** A stream that was established while the store was at revision `now`, or not at all. */
  datatype Stream = Watching(now: nat) | NotWatching

  datatype Opening =
    | Opened(now: nat)
    | OpenExpired(refreshed: bool, retried: Stream)
    | OpenFailed

  /** One `stream.message()` and what is asked for because of it.

      A message covers the stream's revisions up to `upto`; when it carries a header, that is the
      header's revision. By the time it is handled the store may have moved on to `now`. `refuseAt` is
      the delivery of this message, if any, at which the callback returns an error. */
  datatype Turn =
    | Message(upto: nat, header: bool, canceled: bool, events: seq<Event>, now: nat,
              first: Reply, refreshed: bool, second: Reply, merges: bool,
              refuseAt: Option<nat>)
    | StreamEnded
    | StreamError(expired: bool, refreshedToken: bool, rewatched: Stream)

  datatype Failure = NoFormat | NamedList | Store | Callback

  datatype Status = Running | Done(outcome: Result<(), Failure>)

  datatype Delivery = Delivery(revision: nat, document: seq<(string, string)>)

  /** `resumeFrom` and `recoveries` are the loop's variables. `delivered`, `reports`, `refreshes` and
      `messages` are what an observer counts, and `position` is the next revision the current stream
      has not yet covered. */
  datatype Watch = Watch(
    status: Status,
    resumeFrom: Option<nat>,
    recoveries: nat,
    delivered: seq<Delivery>,
    reports: nat,
    refreshes: nat,
    messages: nat,
    position: nat)

  function Ended(failure: Failure): Watch {
    Watch(Done(Err(failure)), None, 0, [], 0, 0, 0, 0)
  }

  /** `failing`: every store-side failure is reported once, where the loop ends on it. */
  function Failing(w: Watch): Watch {
    w.(status := Done(Err(Store)), reports := w.reports + 1)
  }

  function Open(opening: Opening): Watch {
    var idle := Watch(Running, None, 0, [], 0, 0, 0, 0);
    match opening
    case Opened(now) => idle.(position := now + 1)
    case OpenFailed => Failing(idle)
    case OpenExpired(refreshed, retried) =>
      var asked := idle.(refreshes := 1);
      if refreshed && retried.Watching? then asked.(position := retried.now + 1) else Failing(asked)
  }

  /** Pre-flight refusals ask nothing of the cluster; otherwise the first stream is opened. */
  function Start(src: Source, opening: Opening): Watch {
    if !src.format then Ended(NoFormat)
    else if src.keys.Several? then Ended(NamedList)
    else Open(opening)
  }

  predicate StartsWith(s: string, prefix: string) {
    prefix <= s
  }

  /** `pairs_of` after the key budget: every pair as text, or nothing. */
  function PairsOf(prefix: string, kvs: seq<(string, Value)>): Option<seq<(string, string)>> {
    if |kvs| > MOST_KEYS || (exists i :: 0 <= i < |kvs| && !(StartsWith(kvs[i].0, prefix) && kvs[i].1.Text?))
    then None
    else Some(seq(|kvs|, i requires 0 <= i < |kvs| => (kvs[i].0, kvs[i].1.text)))
  }

  function Deliver(w: Watch, delivery: Delivery, refused: bool): Watch {
    var w' := w.(delivered := w.delivered + [delivery]);
    if refused then w'.(status := Done(Err(Callback))) else w'
  }

  /** `range_at`: the pairs under the prefix at the revision asked for. */
  function RangeAt(prefix: string, ranges: Ranges, revision: nat, reply: Reply): Option<seq<(string, string)>> {
    if reply.Served? then PairsOf(prefix, ranges(revision)) else None
  }

  /** The range a message is answered with: read at the header's own revision, and once more at that
      revision if the token had to be replaced. */
  function Reading(prefix: string, ranges: Ranges, turn: Turn): Option<seq<(string, string)>>
    requires turn.Message?
  {
    var revision := turn.upto;
    if !turn.first.ReadExpired? then RangeAt(prefix, ranges, revision, turn.first)
    else if !turn.refreshed then None
    else RangeAt(prefix, ranges, revision, turn.second)
  }

  /** The prefix half of one message: read the range, refreshing the token once if that needs it, and deliver
      what is there. */
  function Reread(prefix: string, ranges: Ranges, w: Watch, turn: Turn): Watch
    requires turn.Message?
  {
    var asked := if turn.first.ReadExpired? then w.(refreshes := w.refreshes + 1) else w;
    match Reading(prefix, ranges, turn)
    case None => Failing(asked)
    case Some(pairs) =>
      if pairs == [] then asked
      else if !turn.merges then Failing(asked)
      else Deliver(asked, Delivery(turn.upto, pairs), turn.refuseAt == Some(0))
  }

  /** The single-key half: every put of the batch, in order, until one is not text or is refused. */
  function DeliverPuts(key: string, w: Watch, events: seq<Event>, refuseAt: Option<nat>): Watch
    decreases |events|
  {
    if events == [] || w.status.Done? then w
    else if !events[0].put || events[0].kv.None? then DeliverPuts(key, w, events[1..], refuseAt)
    else
      var kv := events[0].kv.value;
      if kv.value.NotUtf8? then Failing(w)
      else
        var next := Deliver(w, Delivery(kv.revision, [(key, kv.value.text)]), refuseAt == Some(0));
        var left := if refuseAt.Some? && refuseAt.value > 0 then Some(refuseAt.value - 1) else None;
        DeliverPuts(key, next, events[1..], left)
  }

  function Received(w: Watch, turn: Turn): Watch
    requires turn.Message?
  {
    w.(recoveries := 0,
       resumeFrom := if turn.header then Some(turn.upto + 1) else w.resumeFrom,
       messages := w.messages + 1,
       position := turn.upto + 1)
  }

  function Recovered(w: Watch, turn: Turn): Watch
    requires turn.StreamError?
  {
    var counted := w.(recoveries := w.recoveries + 1);
    if !turn.expired then Failing(w)
    else if counted.recoveries > MOST_TOKEN_RECOVERIES then Failing(counted)
    else
      var asked := counted.(refreshes := w.refreshes + 1);
      if turn.refreshedToken && turn.rewatched.Watching?
      then asked.(position := if w.resumeFrom.Some? then w.resumeFrom.value else turn.rewatched.now + 1)
      else Failing(asked)
  }

  /** Once round the loop. */
  function Step(src: Source, ranges: Ranges, w: Watch, turn: Turn): Watch {
    match turn
    case StreamEnded => Failing(w)
    case StreamError(_, _, _) => Recovered(w, turn)
    case Message(_, _, _, _, _, _, _, _, _, _) =>
      var got := Received(w, turn);
      if turn.canceled then Failing(got)
      else match src.keys
        case Prefix(prefix) => if turn.events == [] || !turn.header then got else Reread(prefix, ranges, got, turn)
        case One(key) => DeliverPuts(key, got, turn.events, turn.refuseAt)
        case Several(_) => got
  }

  function Run(src: Source, ranges: Ranges, w: Watch, turns: seq<Turn>): Watch
    decreases |turns|
  {
    if turns == [] || w.status.Done? then w else Run(src, ranges, Step(src, ranges, w, turns[0]), turns[1..])
  }

  /** Where a message leaves the loop: going on, or at an end that is reported if it is the store's. */
  ghost function Concluded(w: Watch, ended: Option<Failure>): Watch {
    match ended
    case None => w
    case Some(Store) => Failing(w)
    case Some(failure) => w.(status := Done(Err(failure)))
  }

  /** The loop's prefix branch. `w` is the loop's state when the branch is taken. */
  method RereadRange(prefix: string, ranges: Ranges, turn: Turn, before: seq<Delivery>, asked: nat, ghost w: Watch)
    returns (delivered: seq<Delivery>, refreshes: nat, ended: Option<Failure>)
    requires turn.Message? && w.delivered == before && w.refreshes == asked
    ensures Reread(prefix, ranges, w, turn) == Concluded(w.(delivered := delivered, refreshes := refreshes), ended)
    ensures ended != Some(NoFormat) && ended != Some(NamedList)
  {
    delivered, refreshes := before, asked;
    var revision := turn.upto;
    var documents := RangeAt(prefix, ranges, revision, turn.first);
    if turn.first.ReadExpired? {
      refreshes := refreshes + 1;
      if !turn.refreshed {
        return delivered, refreshes, Some(Store);
      }
      documents := RangeAt(prefix, ranges, revision, turn.second);
    }
    if documents.None? {
      return delivered, refreshes, Some(Store);
    }
    var pairs := documents.value;
    if pairs == [] {
      return delivered, refreshes, None;
    }
    if !turn.merges {
      return delivered, refreshes, Some(Store);
    }
    delivered := delivered + [Delivery(turn.upto, pairs)];
    ended := if turn.refuseAt == Some(0) then Some(Callback) else None;
  }

  /** The loop's single-key branch. */
  method DeliverEach(key: string, events: seq<Event>, refuseAt: Option<nat>, before: seq<Delivery>, ghost w: Watch)
    returns (delivered: seq<Delivery>, ended: Option<Failure>)
    requires w.status.Running? && w.delivered == before
    ensures DeliverPuts(key, w, events, refuseAt) == Concluded(w.(delivered := delivered), ended)
    ensures ended != Some(NoFormat) && ended != Some(NamedList)
  {
    delivered := before;
    var left := refuseAt;
    for j := 0 to |events|
      invariant DeliverPuts(key, w, events, refuseAt) == DeliverPuts(key, w.(delivered := delivered), events[j..], left)
    {
      var event := events[j];
      assert events[j..][0] == event && events[j..][1..] == events[j + 1..];
      if event.put && event.kv.Some? {
        var kv := event.kv.value;
        if kv.value.NotUtf8? {
          return delivered, Some(Store);
        }
        delivered := delivered + [Delivery(kv.revision, [(key, kv.value.text)])];
        if left == Some(0) {
          return delivered, Some(Callback);
        }
        left := if left.Some? && left.value > 0 then Some(left.value - 1) else None;
      }
    }
    ended := None;
  }

  /** The first stream: one refresh and one retry if the token is refused. */
  method Establish(opening: Opening) returns (established: bool, refreshes: nat, ghost position: nat)
    ensures established ==> Open(opening) == Watch(Running, None, 0, [], 0, refreshes, 0, position)
    ensures !established ==> Open(opening) == Watch(Done(Err(Store)), None, 0, [], 1, refreshes, 0, 0)
  {
    match opening {
      case Opened(now) => return true, 0, now + 1;
      case OpenFailed => return false, 0, 0;
      case OpenExpired(refreshed, retried) =>
        established, refreshes := refreshed && retried.Watching?, 1;
        position := if established then retried.now + 1 else 0;
    }
  }

  /** What the loop does with a message that is no cancellation. */
  method Respond(src: Source, ranges: Ranges, turn: Turn, before: seq<Delivery>, asked: nat, ghost w: Watch)
    returns (delivered: seq<Delivery>, refreshes: nat, ended: Option<Failure>)
    requires !src.keys.Several? && turn.Message? && !turn.canceled
    requires w.status.Running? && w.delivered == before && w.refreshes == asked
    ensures Step(src, ranges, w, turn) == Concluded(Received(w, turn).(delivered := delivered, refreshes := refreshes), ended)
    ensures ended != Some(NoFormat) && ended != Some(NamedList)
  {
    delivered, refreshes, ended := before, asked, None;
    if src.keys.Prefix? {
      if turn.events != [] && turn.header {
        delivered, refreshes, ended := RereadRange(src.keys.prefix, ranges, turn, before, asked, Received(w, turn));
      }
    } else {
      delivered, ended := DeliverEach(src.keys.key, turn.events, turn.refuseAt, before, Received(w, turn));
    }
  }

  /** `watch`, as a loop over its own variables. Still running when the turns are used up. */
  method WatchLoop(src: Source, ranges: Ranges, opening: Opening, turns: seq<Turn>)
    returns (outcome: Option<Result<(), Failure>>, delivered: seq<Delivery>, reports: nat, refreshes: nat)
    ensures var w := Run(src, ranges, Start(src, opening), turns);
      && (outcome == if w.status.Done? then Some(w.status.outcome) else None)
      && delivered == w.delivered && reports == w.reports && refreshes == w.refreshes
  {
    delivered, reports, refreshes := [], 0, 0;
    if !src.format {
      return Some(Err(NoFormat)), delivered, reports, refreshes;
    }
    if src.keys.Several? {
      return Some(Err(NamedList)), delivered, reports, refreshes;
    }
    var established: bool;
    ghost var position: nat;
    established, refreshes, position := Establish(opening);
    if !established {
      return Some(Err(Store)), delivered, 1, refreshes;
    }
    var recoveries: nat := 0;
    var resumeFrom: Option<nat> := None;
    ghost var messages: nat := 0;
    ghost var w := Start(src, opening);
    for i := 0 to |turns|
      invariant w == Watch(Running, resumeFrom, recoveries, delivered, reports, refreshes, messages, position)
      invariant reports == 0
      invariant Run(src, ranges, Start(src, opening), turns) == Run(src, ranges, w, turns[i..])
    {
      var turn := turns[i];
      assert turns[i..][0] == turn && turns[i..][1..] == turns[i + 1..];
      ghost var was := w;
      w := Step(src, ranges, w, turn);
      match turn {
        case StreamEnded =>
          return Some(Err(Store)), delivered, 1, refreshes;
        case StreamError(expired, refreshedToken, rewatched) =>
          if !expired {
            return Some(Err(Store)), delivered, 1, refreshes;
          }
          recoveries := recoveries + 1;
          if recoveries > MOST_TOKEN_RECOVERIES {
            return Some(Err(Store)), delivered, 1, refreshes;
          }
          refreshes := refreshes + 1;
          if !refreshedToken || rewatched.NotWatching? {
            return Some(Err(Store)), delivered, 1, refreshes;
          }
          position := if resumeFrom.Some? then resumeFrom.value else rewatched.now + 1;
        case Message(upto, header, canceled, _, _, _, _, _, _, _) =>
          recoveries := 0;
          if header {
            resumeFrom := Some(upto + 1);
          }
          position := upto + 1;
          messages := messages + 1;
          if canceled {
            return Some(Err(Store)), delivered, 1, refreshes;
          }
          var ended: Option<Failure>;
          delivered, refreshes, ended := Respond(src, ranges, turn, delivered, refreshes, was);
          if ended.Some? {
            return Some(Err(ended.value)), delivered, if ended.value.Store? then 1 else 0, refreshes;
          }
      }
    }
    outcome := None;
  }

  // ---------------------------------------------------------------------------------------------
  // Accounting

  /** What holds at every point of every run: one report exactly when the store failed, none in flight,
      and token refreshes paid for by the opening, by messages and by the recoveries since the last. */
  ghost predicate Accounted(w: Watch) {
    && (w.status.Done? ==> w.status.outcome.Err?)
    && w.reports == (if w.status == Done(Err(Store)) then 1 else 0)
    && w.refreshes <= 1 + 4 * w.messages + (if w.recoveries <= 3 then w.recoveries else 3)
  }

  lemma {:induction false} PutsAccounted(key: string, w: Watch, events: seq<Event>, refuseAt: Option<nat>)
    requires Accounted(w)
    ensures Accounted(DeliverPuts(key, w, events, refuseAt))
    ensures DeliverPuts(key, w, events, refuseAt).messages == w.messages
    decreases |events|
  {
    if events != [] && w.status.Running? {
      if !events[0].put || events[0].kv.None? {
        PutsAccounted(key, w, events[1..], refuseAt);
      } else if events[0].kv.value.value.Text? {
        var kv := events[0].kv.value;
        var next := Deliver(w, Delivery(kv.revision, [(key, kv.value.text)]), refuseAt == Some(0));
        var left := if refuseAt.Some? && refuseAt.value > 0 then Some(refuseAt.value - 1) else None;
        PutsAccounted(key, next, events[1..], left);
      }
    }
  }

  lemma StepAccounted(src: Source, ranges: Ranges, w: Watch, turn: Turn)
    requires Accounted(w) && w.status.Running?
    ensures Accounted(Step(src, ranges, w, turn))
  {
    if turn.Message? && !turn.canceled {
      var got := Received(w, turn);
      assert got.refreshes + 1 <= 1 + 4 * got.messages;
      if src.keys.One? {
        PutsAccounted(src.keys.key, got, turn.events, turn.refuseAt);
      }
    }
  }

  lemma {:induction false} RunAccounted(src: Source, ranges: Ranges, w: Watch, turns: seq<Turn>)
    requires Accounted(w)
    ensures Accounted(Run(src, ranges, w, turns))
    decreases |turns|
  {
    if turns != [] && w.status.Running? {
      StepAccounted(src, ranges, w, turns[0]);
      RunAccounted(src, ranges, Step(src, ranges, w, turns[0]), turns[1..]);
    }
  }

  /** No run ends in `Ok`. Exactly one failure is reported when the run ended on the store's side, and
      none when it is still running or ended on a pre-flight or callback refusal. With `m` messages
      received, the token was refreshed at most `1 + 3(m + 1) + m` times. */
  lemma Accounting(src: Source, ranges: Ranges, opening: Opening, turns: seq<Turn>)
    ensures var w := Run(src, ranges, Start(src, opening), turns);
      && (w.status.Done? ==> w.status.outcome.Err?)
      && (w.reports == if w.status == Done(Err(Store)) then 1 else 0)
      && w.refreshes <= 1 + 3 * (w.messages + 1) + w.messages
      && (!src.format || src.keys.Several? ==> w.status.Done? && w.reports == w.refreshes == 0 && w.delivered == [])
  {
    RunAccounted(src, ranges, Start(src, opening), turns);
  }

  /** The most expensive cluster: three expired tokens between any two messages, and every message's
      range read refused once. */
  function Worst(m: nat): seq<Turn> {
    var expired := StreamError(true, true, Watching(0));
    var costly := Message(0, true, false, [Event(true, None)], 0, ReadExpired, true, Served, true, None);
    [expired, expired, expired] + if m == 0 then [] else [costly] + Worst(m - 1)
  }

  lemma ThreeRecoveries(src: Source, ranges: Ranges, w: Watch, rest: seq<Turn>) returns (w': Watch)
    requires w.status.Running? && w.recoveries == 0
    ensures var expired := StreamError(true, true, Watching(0));
      Run(src, ranges, w, [expired, expired, expired] + rest) == Run(src, ranges, w', rest)
    ensures w'.status.Running? && w'.messages == w.messages && w'.refreshes == w.refreshes + 3
  {
    var expired := StreamError(true, true, Watching(0));
    var turns := [expired, expired, expired] + rest;
    var w1 := Step(src, ranges, w, expired);
    var w2 := Step(src, ranges, w1, expired);
    w' := Step(src, ranges, w2, expired);
    assert turns[1..] == [expired, expired] + rest;
    assert turns[1..][1..] == [expired] + rest;
    assert turns[1..][1..][1..] == rest;
    assert Run(src, ranges, w, turns) == Run(src, ranges, w1, turns[1..]);
    assert Run(src, ranges, w1, turns[1..]) == Run(src, ranges, w2, turns[1..][1..]);
  }

  lemma {:induction false} WorstCost(src: Source, ranges: Ranges, w: Watch, m: nat)
    requires src.keys.Prefix? && w.status.Running? && w.recoveries == 0 && ranges(0) == []
    ensures var w' := Run(src, ranges, w, Worst(m));
      && w'.messages == w.messages + m
      && w'.refreshes == w.refreshes + 3 * (m + 1) + m
    decreases m
  {
    if m == 0 {
      var w' := ThreeRecoveries(src, ranges, w, []);
    } else {
      var costly := Message(0, true, false, [Event(true, None)], 0, ReadExpired, true, Served, true, None);
      var rest := [costly] + Worst(m - 1);
      var w' := ThreeRecoveries(src, ranges, w, rest);
      var next := Step(src, ranges, w', costly);
      assert rest[1..] == Worst(m - 1);
      WorstCost(src, ranges, next, m - 1);
    }
  }

  /** The bound on token refreshes is attained, for every number of messages, by a store with nothing under
      the prefix. */
  lemma RefreshBoundIsTight(ranges: Ranges, m: nat)
    requires ranges(0) == []
    ensures var w := Run(Source(Prefix("app/"), true), ranges,
                         Start(Source(Prefix("app/"), true), OpenExpired(true, Watching(0))), Worst(m));
      w.messages == m && w.refreshes == 1 + 3 * (m + 1) + m
  {
    var src := Source(Prefix("app/"), true);
    WorstCost(src, ranges, Start(src, OpenExpired(true, Watching(0))), m);
  }
}
