/**
 The etcd watch loop against a store that is a log of revisions.

 What is assumed of the store: a stream hands over its revisions in order, a response's header
 revision is the end of what that stream has handed over so far, a stream opened without a start
 revision begins after the current one, and a range read at a revision answers with that revision.
 */
module EtcdServer {
  import opened Common
  import opened EtcdWatch

  datatype Change = Put(value: Value) | Delete

  /** `log[r - 1]` is what revision `r` changed. */
  type Log = seq<map<string, Change>>

  predicate IsPut(log: Log, key: string, r: nat) {
    1 <= r <= |log| && key in log[r - 1] && log[r - 1][key].Put?
  }

  function EventsAt(log: Log, key: string, r: nat): seq<Event> {
    if !(1 <= r <= |log|) || key !in log[r - 1] then []
    else match log[r - 1][key]
      case Put(value) => [Event(true, Some(Kv(r, value)))]
      case Delete => [Event(false, Some(Kv(r, Text(""))))]
  }

  /** The events on `key` in revisions `from .. end`, the last one excluded. */
  function EventsIn(log: Log, key: string, from: nat, end: nat): seq<Event>
    decreases end - from
  {
    if end <= from then [] else EventsAt(log, key, from) + EventsIn(log, key, from + 1, end)
  }

  function PutsOf(events: seq<Event>): seq<Kv> {
    if events == [] then []
    else (if events[0].put && events[0].kv.Some? then [events[0].kv.value] else []) + PutsOf(events[1..])
  }

  /** The puts of `key` in revisions `from .. end`, the last one excluded. */
  function PutsIn(log: Log, key: string, from: nat, end: nat): seq<Kv>
    decreases end - from
  {
    if end <= from then [] else PutAt(log, key, from) + PutsIn(log, key, from + 1, end)
  }

  function PutAt(log: Log, key: string, r: nat): seq<Kv> {
    if IsPut(log, key, r) then [Kv(r, log[r - 1][key].value)] else []
  }

  function AsDelivery(key: string, kv: Kv): Delivery {
    Delivery(kv.revision, [(key, if kv.value.Text? then kv.value.text else "")])
  }

  function AsDeliveries(key: string, kvs: seq<Kv>): seq<Delivery> {
    seq(|kvs|, i requires 0 <= i < |kvs| => AsDelivery(key, kvs[i]))
  }

  // ---------------------------------------------------------------------------------------------
  // Facts about the log

  lemma {:induction false} PutsOfConcat(a: seq<Event>, b: seq<Event>)
    ensures PutsOf(a + b) == PutsOf(a) + PutsOf(b)
  {
    if a == [] {
      assert a + b == b;
    } else {
      var head := if a[0].put && a[0].kv.Some? then [a[0].kv.value] else [];
      PutsOfConcat(a[1..], b);
      assert (a + b)[1..] == a[1..] + b && (a + b)[0] == a[0];
      Assoc(head, PutsOf(a[1..]), PutsOf(b));
    }
  }

  lemma {:induction false} PutsOfEvents(log: Log, key: string, from: nat, end: nat)
    ensures PutsOf(EventsIn(log, key, from, end)) == PutsIn(log, key, from, end)
    decreases end - from
  {
    if from < end {
      var at := EventsAt(log, key, from);
      PutsOfConcat(at, EventsIn(log, key, from + 1, end));
      PutsOfEvents(log, key, from + 1, end);
      assert at == [] || at == [at[0]];
      assert PutsOf(at) == PutAt(log, key, from);
    }
  }

  lemma {:induction false} PutsSplit(log: Log, key: string, from: nat, mid: nat, end: nat)
    requires from <= mid <= end
    ensures PutsIn(log, key, from, end) == PutsIn(log, key, from, mid) + PutsIn(log, key, mid, end)
    decreases mid - from
  {
    if from < mid {
      PutsSplit(log, key, from + 1, mid, end);
      Assoc(PutAt(log, key, from), PutsIn(log, key, from + 1, mid), PutsIn(log, key, mid, end));
    }
  }

  /** `puts` are put revisions of the stretch `from .. end`, in order. */
  ghost predicate PutsOn(log: Log, key: string, puts: seq<Kv>, from: nat, end: nat) {
    && (forall i :: 0 <= i < |puts| ==>
          from <= puts[i].revision < end && IsPut(log, key, puts[i].revision)
          && puts[i].value == log[puts[i].revision - 1][key].value)
    && (forall i, j :: 0 <= i < j < |puts| ==> puts[i].revision < puts[j].revision)
  }

  lemma {:induction false} PutsWithin(log: Log, key: string, from: nat, end: nat)
    ensures PutsOn(log, key, PutsIn(log, key, from, end), from, end)
    decreases end - from
  {
    if from < end {
      PutsWithin(log, key, from + 1, end);
      OneRevisionMore(log, key, PutsIn(log, key, from + 1, end), from, end);
    }
  }

  lemma OneRevisionMore(log: Log, key: string, rest: seq<Kv>, from: nat, end: nat)
    requires PutsOn(log, key, rest, from + 1, end) && from < end
    ensures PutsOn(log, key, PutAt(log, key, from) + rest, from, end)
  {
    if IsPut(log, key, from) {
      FirstPut(log, key, Kv(from, log[from - 1][key].value), rest, end);
    } else {
      assert PutAt(log, key, from) + rest == rest;
      NoPutFirst(log, key, rest, from, end);
    }
  }

  lemma NoPutFirst(log: Log, key: string, rest: seq<Kv>, from: nat, end: nat)
    requires PutsOn(log, key, rest, from + 1, end)
    ensures PutsOn(log, key, rest, from, end)
  {
  }

  lemma FirstPut(log: Log, key: string, kv: Kv, rest: seq<Kv>, end: nat)
    requires PutsOn(log, key, rest, kv.revision + 1, end)
    requires kv.revision < end && IsPut(log, key, kv.revision) && kv.value == log[kv.revision - 1][key].value
    ensures PutsOn(log, key, [kv] + rest, kv.revision, end)
  {
  }

  /** And every put revision of the stretch is among them. */
  lemma {:induction false} PutsCover(log: Log, key: string, from: nat, end: nat, r: nat) returns (i: nat)
    requires from <= r < end && IsPut(log, key, r)
    ensures i < |PutsIn(log, key, from, end)| && PutsIn(log, key, from, end)[i].revision == r
    decreases end - from
  {
    if r == from {
      i := 0;
    } else {
      var j := PutsCover(log, key, from + 1, end, r);
      i := if IsPut(log, key, from) then j + 1 else j;
    }
  }

  /** What a batch of events does to a single-key watch: it delivers the puts in order, all of them
      if the watch is still running afterwards and a prefix of them in any case. */
  lemma {:induction false} PutsDelivered(key: string, w: Watch, events: seq<Event>, refuseAt: Option<nat>)
    requires w.status.Running?
    ensures var w' := DeliverPuts(key, w, events, refuseAt); var puts := PutsOf(events);
      && (w'.status.Running? ==>
            && w' == w.(delivered := w.delivered + AsDeliveries(key, puts))
            && forall i :: 0 <= i < |puts| ==> puts[i].value.Text?)
      && w.delivered <= w'.delivered <= w.delivered + AsDeliveries(key, puts)
    decreases |events|
  {
    var w' := DeliverPuts(key, w, events, refuseAt);
    var puts := PutsOf(events);
    if events == [] {
    } else if !events[0].put || events[0].kv.None? {
      PutsDelivered(key, w, events[1..], refuseAt);
      assert puts == PutsOf(events[1..]);
    } else if events[0].kv.value.value.Text? {
      var kv := events[0].kv.value;
      var next := Deliver(w, AsDelivery(key, kv), refuseAt == Some(0));
      var left := if refuseAt.Some? && refuseAt.value > 0 then Some(refuseAt.value - 1) else None;
      var rest := PutsOf(events[1..]);
      FirstDelivered(key, w, kv, rest);
      if next.status.Running? {
        PutsDelivered(key, next, events[1..], left);
      } else {
        assert w' == DeliverPuts(key, next, events[1..], left) == next;
      }
    }
  }

  lemma FirstDelivered(key: string, w: Watch, kv: Kv, rest: seq<Kv>)
    ensures w.delivered + [AsDelivery(key, kv)] + AsDeliveries(key, rest) == w.delivered + AsDeliveries(key, [kv] + rest)
  {
    assert AsDeliveries(key, [kv] + rest) == [AsDelivery(key, kv)] + AsDeliveries(key, rest);
  }

  // ---------------------------------------------------------------------------------------------
  // Answers a store with this log can give

  function Apply(m: map<string, Value>, txn: map<string, Change>): map<string, Value> {
    map k | k in m.Keys + txn.Keys && (k in txn ==> txn[k].Put?) :: if k in txn then txn[k].value else m[k]
  }

  function StateAt(log: Log, r: nat): map<string, Value> {
    if r == 0 || |log| < r then map[] else Apply(StateAt(log, r - 1), log[r - 1])
  }

  function Subtree(log: Log, prefix: string, r: nat): map<string, Value> {
    map k | k in StateAt(log, r) && StartsWith(k, prefix) :: StateAt(log, r)[k]
  }

  /** `kvs` is all of `range`, each key once. */
  ghost predicate Lists(kvs: seq<(string, Value)>, range: map<string, Value>) {
    && |kvs| == |range|
    && (forall i :: 0 <= i < |kvs| ==> kvs[i].0 in range && range[kvs[i].0] == kvs[i].1)
    && (forall i, j :: 0 <= i < j < |kvs| ==> kvs[i].0 != kvs[j].0)
  }

  ghost predicate Touched(log: Log, prefix: string, r: nat) {
    1 <= r <= |log| && exists k :: k in log[r - 1] && StartsWith(k, prefix)
  }

  /** Some key under the prefix changed in revisions `from .. end`, the last one excluded. */
  ghost predicate Moves(log: Log, prefix: string, from: nat, end: nat) {
    exists r :: from <= r < end && Touched(log, prefix, r)
  }

  /** A store with this log: what it lists at a revision is the subtree as that revision left it. A range read
      asks for one key more than the budget, so a subtree over it is known to be. */
  ghost predicate Serves(ranges: Ranges, log: Log, prefix: string) {
    forall r: nat :: r <= |log| ==> ServesAt(ranges, log, prefix, r)
  }

  ghost predicate ServesAt(ranges: Ranges, log: Log, prefix: string, r: nat) {
    var range := Subtree(log, prefix, r);
    if |range| <= MOST_KEYS then Lists(ranges(r), range) else |ranges(r)| > MOST_KEYS
  }

  ghost predicate Consistent(log: Log, src: Source, w: Watch, turn: Turn) {
    match turn
    case StreamEnded => true
    case StreamError(_, _, rewatched) => rewatched.Watching? ==> w.position <= rewatched.now + 1
    case Message(upto, _, _, events, now, _, _, _, _, _) =>
      && w.position <= upto + 1
      && upto <= now <= |log|
      && (src.keys.One? ==> events == EventsIn(log, src.keys.key, w.position, upto + 1))
      && (src.keys.Prefix? ==> (events != [] <==> Moves(log, src.keys.prefix, w.position, upto + 1)))
  }

  ghost predicate ConsistentRun(log: Log, src: Source, ranges: Ranges, w: Watch, turns: seq<Turn>)
    decreases |turns|
  {
    turns == [] || w.status.Done? ||
    (Consistent(log, src, w, turns[0]) && ConsistentRun(log, src, ranges, Step(src, ranges, w, turns[0]), turns[1..]))
  }

  // ---------------------------------------------------------------------------------------------
  // A single key: exactly once

  /** Every put since `origin` was delivered, in order, once, and nothing else was. */
  ghost predicate Exact(log: Log, key: string, origin: nat, w: Watch) {
    w.delivered == AsDeliveries(key, PutsIn(log, key, origin, w.position))
  }

  /** A recovery that moves the stream back over puts it has handed over, or forward over puts it has
      not: the resume point is not where the stream was. */
  ghost predicate Harmful(log: Log, key: string, w: Watch, turn: Turn) {
    && turn.StreamError?
    && Recovered(w, turn).status.Running?
    && var p := Recovered(w, turn).position;
       (p <= w.position && PutsIn(log, key, p, w.position) != [])
       || (w.position <= p && PutsIn(log, key, w.position, p) != [])
  }

  ghost predicate Harmed(log: Log, src: Source, ranges: Ranges, w: Watch, turns: seq<Turn>)
    requires src.keys.One?
    decreases |turns|
  {
    turns != [] && w.status.Running? &&
    (Harmful(log, src.keys.key, w, turns[0]) || Harmed(log, src, ranges, Step(src, ranges, w, turns[0]), turns[1..]))
  }

  ghost predicate Sound(log: Log, key: string, origin: nat, w: Watch) {
    && origin <= w.position
    && (w.resumeFrom.Some? ==> origin <= w.resumeFrom.value <= w.position)
    && (forall i :: 0 <= i < |w.delivered| ==> IsPut(log, key, w.delivered[i].revision))
  }

  ghost predicate Repeats(w: Watch) {
    exists i, j :: 0 <= i < j < |w.delivered| && w.delivered[j].revision <= w.delivered[i].revision
  }

  ghost predicate Ahead(w: Watch) {
    w.resumeFrom.Some? && exists i :: 0 <= i < |w.delivered| && w.position <= w.delivered[i].revision
  }

  ghost predicate SkippedAt(log: Log, key: string, origin: nat, w: Watch, r: nat) {
    && origin <= r < w.position && IsPut(log, key, r)
    && (w.resumeFrom.Some? ==> r < w.resumeFrom.value)
    && forall i :: 0 <= i < |w.delivered| ==> w.delivered[i].revision != r
  }

  /** Something was or is going to be delivered twice, or never. */
  ghost predicate Broken(log: Log, key: string, origin: nat, w: Watch) {
    Repeats(w) || Ahead(w) || exists r :: SkippedAt(log, key, origin, w, r)
  }

  lemma BrokenIsNotExact(log: Log, key: string, origin: nat, w: Watch)
    requires Broken(log, key, origin, w)
    ensures !Exact(log, key, origin, w)
  {
    PutsWithin(log, key, origin, w.position);
    var puts := PutsIn(log, key, origin, w.position);
    if r :| SkippedAt(log, key, origin, w, r) {
      var i := PutsCover(log, key, origin, w.position, r);
      assert AsDeliveries(key, puts)[i].revision == r;
    }
    assert forall i :: 0 <= i < |puts| ==> AsDeliveries(key, puts)[i].revision == puts[i].revision;
  }

  /** One message, with the watch still running after it. */
  lemma MessageKeeps(log: Log, src: Source, ranges: Ranges, origin: nat, w: Watch, turn: Turn)
    requires src.keys.One? && w.status.Running? && turn.Message?
    requires Consistent(log, src, w, turn) && Sound(log, src.keys.key, origin, w)
    requires Step(src, ranges, w, turn).status.Running?
    ensures var w' := Step(src, ranges, w, turn); var key := src.keys.key;
      && Sound(log, key, origin, w')
      && (Exact(log, key, origin, w) ==> Exact(log, key, origin, w'))
      && (Broken(log, key, origin, w) ==> Broken(log, key, origin, w'))
  {
    var key := src.keys.key;
    var got := Received(w, turn);
    var w' := Step(src, ranges, w, turn);
    var puts := PutsIn(log, key, w.position, turn.upto + 1);
    PutsOfEvents(log, key, w.position, turn.upto + 1);
    PutsDelivered(key, got, turn.events, turn.refuseAt);
    assert w'.delivered == w.delivered + AsDeliveries(key, puts);
    PutsWithin(log, key, w.position, turn.upto + 1);
    forall i | 0 <= i < |w'.delivered|
      ensures IsPut(log, key, w'.delivered[i].revision)
    {
      assert i >= |w.delivered| ==> w'.delivered[i] == AsDelivery(key, puts[i - |w.delivered|]);
    }
    if Exact(log, key, origin, w) {
      StillExact(log, key, origin, w.position, turn.upto + 1);
    }
    if Broken(log, key, origin, w) {
      StillBroken(log, key, origin, w, w', puts);
    }
  }

  lemma StillExact(log: Log, key: string, origin: nat, mid: nat, end: nat)
    requires origin <= mid <= end
    ensures AsDeliveries(key, PutsIn(log, key, origin, end)) ==
      AsDeliveries(key, PutsIn(log, key, origin, mid)) + AsDeliveries(key, PutsIn(log, key, mid, end))
  {
    PutsSplit(log, key, origin, mid, end);
  }

  lemma StillBroken(log: Log, key: string, origin: nat, w: Watch, w': Watch, puts: seq<Kv>)
    requires Broken(log, key, origin, w) && Sound(log, key, origin, w)
    requires w.position <= w'.position && puts == PutsIn(log, key, w.position, w'.position)
    requires w'.delivered == w.delivered + AsDeliveries(key, puts)
    requires w'.resumeFrom == w.resumeFrom || w'.resumeFrom == Some(w'.position)
    ensures Broken(log, key, origin, w')
  {
    var n := |w.delivered|;
    if Repeats(w) {
      var i, j :| 0 <= i < j < n && w.delivered[j].revision <= w.delivered[i].revision;
      assert w'.delivered[j] == w.delivered[j] && w'.delivered[i] == w.delivered[i];
    } else if Ahead(w) {
      var i :| 0 <= i < n && w.position <= w.delivered[i].revision;
      StillAhead(log, key, w, w', puts, i);
    } else {
      var r :| SkippedAt(log, key, origin, w, r);
      StillSkipped(log, key, origin, w, w', puts, r);
    }
  }

  /** What was ahead of the stream is either still ahead or has now come a second time. */
  lemma StillAhead(log: Log, key: string, w: Watch, w': Watch, puts: seq<Kv>, i: nat)
    requires i < |w.delivered| && w.position <= w.delivered[i].revision && IsPut(log, key, w.delivered[i].revision)
    requires w.position <= w'.position && puts == PutsIn(log, key, w.position, w'.position)
    requires w'.delivered == w.delivered + AsDeliveries(key, puts) && w'.resumeFrom.Some?
    ensures Repeats(w') || Ahead(w')
  {
    var d := w.delivered[i].revision;
    assert w'.delivered[i].revision == d;
    if d < w'.position {
      var j := PutsCover(log, key, w.position, w'.position, d);
      assert w'.delivered[|w.delivered| + j].revision == d;
    }
  }

  lemma StillSkipped(log: Log, key: string, origin: nat, w: Watch, w': Watch, puts: seq<Kv>, r: nat)
    requires SkippedAt(log, key, origin, w, r)
    requires w.position <= w'.position && puts == PutsIn(log, key, w.position, w'.position)
    requires w'.delivered == w.delivered + AsDeliveries(key, puts)
    requires w'.resumeFrom == w.resumeFrom || w'.resumeFrom == Some(w'.position)
    ensures SkippedAt(log, key, origin, w', r)
  {
    PutsWithin(log, key, w.position, w'.position);
    var n := |w.delivered|;
    forall i | 0 <= i < |w'.delivered|
      ensures w'.delivered[i].revision != r
    {
      if i < n {
        assert w'.delivered[i] == w.delivered[i];
      } else {
        assert w'.delivered[i] == AsDelivery(key, puts[i - n]);
      }
    }
  }

  /** One recovery that worked. */
  lemma RecoveryKeeps(log: Log, src: Source, ranges: Ranges, origin: nat, w: Watch, turn: Turn)
    requires src.keys.One? && w.status.Running? && turn.StreamError?
    requires Consistent(log, src, w, turn) && Sound(log, src.keys.key, origin, w)
    requires Step(src, ranges, w, turn).status.Running?
    ensures var w' := Step(src, ranges, w, turn); var key := src.keys.key;
      && Sound(log, key, origin, w')
      && (Exact(log, key, origin, w) && !Harmful(log, key, w, turn) ==> Exact(log, key, origin, w'))
      && (Exact(log, key, origin, w) && Harmful(log, key, w, turn) ==> Broken(log, key, origin, w'))
      && (Broken(log, key, origin, w) ==> Broken(log, key, origin, w'))
  {
    var key := src.keys.key;
    var w' := Step(src, ranges, w, turn);
    var p := w'.position;
    assert w'.delivered == w.delivered && w'.resumeFrom == w.resumeFrom;
    if Exact(log, key, origin, w) {
      ExactRecovery(log, key, origin, w, w');
    }
    if Broken(log, key, origin, w) {
      if Repeats(w) {
        assert Repeats(w');
      } else if Ahead(w) {
        assert Ahead(w');
      } else {
        var r :| SkippedAt(log, key, origin, w, r);
        assert SkippedAt(log, key, origin, w', r);
      }
    }
  }

  /** From an exact state, a stream that restarts elsewhere is still exact if no put lies between, and
      broken if one does. */
  lemma ExactRecovery(log: Log, key: string, origin: nat, w: Watch, w': Watch)
    requires Exact(log, key, origin, w) && Sound(log, key, origin, w)
    requires w'.delivered == w.delivered && w'.resumeFrom == w.resumeFrom
    requires if w.resumeFrom.Some? then w'.position == w.resumeFrom.value else w.position <= w'.position
    ensures var p := w'.position; var q := w.position;
      var harmful := (p <= q && PutsIn(log, key, p, q) != []) || (q <= p && PutsIn(log, key, q, p) != []);
      if harmful then Broken(log, key, origin, w') else Exact(log, key, origin, w')
  {
    if w.resumeFrom.Some? {
      BackOver(log, key, origin, w, w');
    } else {
      ForwardOver(log, key, origin, w, w');
    }
  }

  lemma BackOver(log: Log, key: string, origin: nat, w: Watch, w': Watch)
    requires Exact(log, key, origin, w)
    requires w'.delivered == w.delivered && w'.resumeFrom.Some? && origin <= w'.position <= w.position
    ensures if PutsIn(log, key, w'.position, w.position) != [] then Ahead(w') else Exact(log, key, origin, w')
  {
    var p, q := w'.position, w.position;
    var puts := PutsIn(log, key, origin, q);
    var again := PutsIn(log, key, p, q);
    PutsSplit(log, key, origin, p, q);
    PutsWithin(log, key, p, q);
    if again != [] {
      var i := PutsCover(log, key, origin, q, again[0].revision);
      assert w'.delivered[i] == AsDelivery(key, puts[i]);
      assert p <= w'.delivered[i].revision;
    }
  }

  lemma ForwardOver(log: Log, key: string, origin: nat, w: Watch, w': Watch)
    requires Exact(log, key, origin, w) && origin <= w.position
    requires w'.delivered == w.delivered && w'.resumeFrom.None? && w.position <= w'.position
    ensures if PutsIn(log, key, w.position, w'.position) != [] then Broken(log, key, origin, w')
            else Exact(log, key, origin, w')
  {
    var p, q := w'.position, w.position;
    var puts := PutsIn(log, key, origin, q);
    var lost := PutsIn(log, key, q, p);
    if lost == [] {
      PutsSplit(log, key, origin, q, p);
      assert puts + lost == puts;
    } else {
      PutsWithin(log, key, q, p);
      PutsWithin(log, key, origin, q);
      var r := lost[0].revision;
      forall i | 0 <= i < |w'.delivered|
        ensures w'.delivered[i].revision != r
      {
        assert w'.delivered[i] == AsDelivery(key, puts[i]);
      }
      assert SkippedAt(log, key, origin, w', r);
    }
  }

  lemma {:induction false} ExactnessOfRun(log: Log, src: Source, ranges: Ranges, origin: nat, w: Watch, turns: seq<Turn>)
    requires src.keys.One? && w.status.Running? && ConsistentRun(log, src, ranges, w, turns)
    requires Sound(log, src.keys.key, origin, w)
    requires Run(src, ranges, w, turns).status.Running?
    ensures var w' := Run(src, ranges, w, turns); var key := src.keys.key;
      && (Exact(log, key, origin, w) && !Harmed(log, src, ranges, w, turns) ==> Exact(log, key, origin, w'))
      && (Exact(log, key, origin, w) && Harmed(log, src, ranges, w, turns) ==> Broken(log, key, origin, w'))
      && (Broken(log, key, origin, w) ==> Broken(log, key, origin, w'))
    decreases |turns|
  {
    if turns != [] {
      var turn := turns[0];
      var next := Step(src, ranges, w, turn);
      assert next.status.Running?;
      if turn.Message? {
        MessageKeeps(log, src, ranges, origin, w, turn);
      } else {
        RecoveryKeeps(log, src, ranges, origin, w, turn);
      }
      ExactnessOfRun(log, src, ranges, origin, next, turns[1..]);
    }
  }

  /** For a watch on one key that is still running: every put since the first stream began was
      delivered exactly once and in revision order if and only if no recovery resumed anywhere but
      where the broken stream had got to, give or take revisions without a put. */
  lemma ExactlyOnceIff(log: Log, src: Source, ranges: Ranges, opening: Opening, turns: seq<Turn>)
    requires src.keys.One? && src.format
    requires Open(opening).status.Running? && ConsistentRun(log, src, ranges, Open(opening), turns)
    requires Run(src, ranges, Start(src, opening), turns).status.Running?
    ensures Exact(log, src.keys.key, Open(opening).position, Run(src, ranges, Start(src, opening), turns))
       <==> !Harmed(log, src, ranges, Open(opening), turns)
  {
    var w := Open(opening);
    ExactnessOfRun(log, src, ranges, w.position, w, turns);
    if Harmed(log, src, ranges, w, turns) {
      BrokenIsNotExact(log, src.keys.key, w.position, Run(src, ranges, w, turns));
    }
  }

  lemma {:induction false} RunConcat(src: Source, ranges: Ranges, w: Watch, a: seq<Turn>, b: seq<Turn>)
    ensures Run(src, ranges, w, a + b) == Run(src, ranges, Run(src, ranges, w, a), b)
    decreases |a|
  {
    if a == [] {
      assert a + b == b;
    } else if w.status.Running? {
      assert (a + b)[0] == a[0] && (a + b)[1..] == a[1..] + b;
      RunConcat(src, ranges, Step(src, ranges, w, a[0]), a[1..], b);
    }
  }

  /** `w'` has delivered, over what `w` had, exactly the puts of the stretch between them if it is still
      running, and a first part of the puts there are if it is not. */
  ghost predicate ExactSince(log: Log, key: string, w: Watch, w': Watch) {
    && (w'.status.Running? ==>
          && w.position <= w'.position
          && w'.delivered == w.delivered + AsDeliveries(key, PutsIn(log, key, w.position, w'.position)))
    && w.delivered <= w'.delivered
    && w'.delivered <= w.delivered + AsDeliveries(key, PutsIn(log, key, w.position, |log| + 1))
  }

  /** One turn with the resume point where the stream is: it stays there. */
  lemma TurnSince(log: Log, src: Source, ranges: Ranges, w: Watch, turn: Turn)
    requires src.keys.One? && w.status.Running? && w.resumeFrom == Some(w.position) && w.position <= |log| + 1
    requires Consistent(log, src, w, turn) && (turn.Message? ==> turn.header)
    ensures var w' := Step(src, ranges, w, turn);
      && ExactSince(log, src.keys.key, w, w')
      && (w'.status.Running? ==> w'.resumeFrom == Some(w'.position) && w'.position <= |log| + 1)
  {
    if turn.Message? && !turn.canceled {
      MessageSince(log, src, ranges, w, turn);
    }
  }

  lemma MessageSince(log: Log, src: Source, ranges: Ranges, w: Watch, turn: Turn)
    requires src.keys.One? && w.status.Running? && turn.Message? && !turn.canceled
    requires Consistent(log, src, w, turn)
    ensures var w' := Step(src, ranges, w, turn);
      && ExactSince(log, src.keys.key, w, w')
      && (w'.status.Running? ==> w'.position == turn.upto + 1 && w'.resumeFrom == Received(w, turn).resumeFrom)
  {
    var key := src.keys.key;
    PutsOfEvents(log, key, w.position, turn.upto + 1);
    PutsDelivered(key, Received(w, turn), turn.events, turn.refuseAt);
    StillExact(log, key, w.position, turn.upto + 1, |log| + 1);
    PrefixOfMore(Step(src, ranges, w, turn).delivered, w.delivered,
                 AsDeliveries(key, PutsIn(log, key, w.position, turn.upto + 1)),
                 AsDeliveries(key, PutsIn(log, key, turn.upto + 1, |log| + 1)));
  }

  lemma PrefixOfMore<T>(d: seq<T>, x: seq<T>, a: seq<T>, b: seq<T>)
    requires d <= x + a
    ensures d <= x + (a + b)
  {
    assert x + (a + b) == x + a + b;
  }

  lemma SinceTransitive(log: Log, key: string, w: Watch, mid: Watch, w': Watch)
    requires mid.status.Running? && mid.position <= |log| + 1
    requires ExactSince(log, key, w, mid) && ExactSince(log, key, mid, w')
    ensures ExactSince(log, key, w, w')
  {
    var a := AsDeliveries(key, PutsIn(log, key, w.position, mid.position));
    var b := AsDeliveries(key, PutsIn(log, key, mid.position, |log| + 1));
    StillExact(log, key, w.position, mid.position, |log| + 1);
    GrowsBy(w.delivered, mid.delivered, w'.delivered, a, b);
    if w'.status.Running? {
      var c := AsDeliveries(key, PutsIn(log, key, mid.position, w'.position));
      StillExact(log, key, w.position, mid.position, w'.position);
      Assoc(w.delivered, a, c);
    }
  }

  lemma GrowsBy<T>(x: seq<T>, y: seq<T>, z: seq<T>, a: seq<T>, b: seq<T>)
    requires y == x + a && y <= z <= y + b
    ensures x <= z <= x + (a + b)
  {
    Assoc(x, a, b);
  }

  lemma {:induction false} RunSince(log: Log, src: Source, ranges: Ranges, w: Watch, turns: seq<Turn>)
    requires src.keys.One? && w.status.Running? && w.resumeFrom == Some(w.position) && w.position <= |log| + 1
    requires ConsistentRun(log, src, ranges, w, turns)
    requires forall i :: 0 <= i < |turns| && turns[i].Message? ==> turns[i].header
    ensures ExactSince(log, src.keys.key, w, Run(src, ranges, w, turns))
    decreases |turns|
  {
    if turns != [] {
      var next := Step(src, ranges, w, turns[0]);
      TurnSince(log, src, ranges, w, turns[0]);
      if next.status.Running? {
        RunSince(log, src, ranges, next, turns[1..]);
        SinceTransitive(log, src.keys.key, w, next, Run(src, ranges, next, turns[1..]));
      }
    }
  }

  /** After the first message with a header, whatever went before it, and with a header on every later
      message: across any number of expired tokens and re-established streams the callback has every
      later put in revision order with no gap and no repeat; and what it has when the watch has ended
      is a first part of them. */
  lemma ExactlyOnce(log: Log, src: Source, ranges: Ranges, opening: Opening, before: seq<Turn>, message: Turn, turns: seq<Turn>)
    requires src.keys.One? && message.Message? && message.header
    requires var w := Run(src, ranges, Start(src, opening), before);
      && w.status.Running? && Consistent(log, src, w, message) && Step(src, ranges, w, message).status.Running?
      && ConsistentRun(log, src, ranges, Step(src, ranges, w, message), turns)
    requires forall i :: 0 <= i < |turns| && turns[i].Message? ==> turns[i].header
    ensures var w := Run(src, ranges, Start(src, opening), before);
      && ExactSince(log, src.keys.key, w, Step(src, ranges, w, message))
      && ExactSince(log, src.keys.key, w, Run(src, ranges, Start(src, opening), before + [message] + turns))
  {
    var w := Run(src, ranges, Start(src, opening), before);
    OnceFromMessage(log, src, ranges, w, message, turns);
    FromMessage(src, ranges, opening, before, message, turns);
  }

  lemma OnceFromMessage(log: Log, src: Source, ranges: Ranges, w: Watch, message: Turn, turns: seq<Turn>)
    requires src.keys.One? && message.Message? && message.header
    requires w.status.Running? && Consistent(log, src, w, message) && Step(src, ranges, w, message).status.Running?
    requires ConsistentRun(log, src, ranges, Step(src, ranges, w, message), turns)
    requires forall i :: 0 <= i < |turns| && turns[i].Message? ==> turns[i].header
    ensures ExactSince(log, src.keys.key, w, Step(src, ranges, w, message))
    ensures ExactSince(log, src.keys.key, w, Run(src, ranges, Step(src, ranges, w, message), turns))
  {
    var next := Step(src, ranges, w, message);
    MessageSince(log, src, ranges, w, message);
    RunSince(log, src, ranges, next, turns);
    SinceTransitive(log, src.keys.key, w, next, Run(src, ranges, next, turns));
  }

  lemma FromMessage(src: Source, ranges: Ranges, opening: Opening, before: seq<Turn>, message: Turn, turns: seq<Turn>)
    requires Run(src, ranges, Start(src, opening), before).status.Running?
    ensures Run(src, ranges, Start(src, opening), before + [message] + turns) ==
      Run(src, ranges, Step(src, ranges, Run(src, ranges, Start(src, opening), before), message), turns)
  {
    var w := Run(src, ranges, Start(src, opening), before);
    assert before + [message] + turns == before + ([message] + turns);
    RunConcat(src, ranges, Start(src, opening), before, [message] + turns);
    assert ([message] + turns)[1..] == turns;
  }

  /** Before the first header-bearing message there is no such promise: a token that expires while the
      stream has said nothing loses what was put meanwhile. */
  lemma PutLostBeforeFirstMessage(ranges: Ranges)
    ensures var log: Log := [map[], map["app" := Put(Text("v2"))]];
      var src := Source(One("app"), true);
      var turns := [StreamError(true, true, Watching(2))];
      && ConsistentRun(log, src, ranges, Open(Opened(1)), turns)
      && Run(src, ranges, Start(src, Opened(1)), turns).status.Running?
      && !Exact(log, "app", 2, Run(src, ranges, Start(src, Opened(1)), turns))
  {
    var log: Log := [map[], map["app" := Put(Text("v2"))]];
    var src := Source(One("app"), true);
    var turns := [StreamError(true, true, Watching(2))];
    var w := Open(Opened(1));
    var w' := Step(src, ranges, w, turns[0]);
    assert Run(src, ranges, w, turns) == Run(src, ranges, w', turns[1..]) == w';
    assert ConsistentRun(log, src, ranges, w', turns[1..]);
    PutsWithin(log, "app", 2, 3);
    assert IsPut(log, "app", 2);
    assert SkippedAt(log, "app", 2, w', 2);
    BrokenIsNotExact(log, "app", 2, w');
  }

  // ---------------------------------------------------------------------------------------------
  // A prefix: never torn

  function AsKvs(pairs: seq<(string, string)>): seq<(string, Value)> {
    seq(|pairs|, i requires 0 <= i < |pairs| => (pairs[i].0, Text(pairs[i].1)))
  }

  /** The document is the whole range as one revision had it, and not an empty one. */
  ghost predicate Whole(log: Log, prefix: string, d: Delivery) {
    d.document != [] && Lists(AsKvs(d.document), Subtree(log, prefix, d.revision))
  }

  /** Something under the prefix changed since the delivery before this one. */
  ghost predicate Announced(log: Log, prefix: string, delivered: seq<Delivery>, i: nat)
    requires i < |delivered|
  {
    Moves(log, prefix, if i == 0 then 0 else delivered[i - 1].revision + 1, delivered[i].revision + 1)
  }

  ghost predicate Untorn(log: Log, prefix: string, delivered: seq<Delivery>) {
    && (forall i :: 0 <= i < |delivered| ==> Whole(log, prefix, delivered[i]))
    && (forall i :: 0 <= i < |delivered| ==> Announced(log, prefix, delivered, i))
    && (forall i, j :: 0 <= i < j < |delivered| ==> delivered[i].revision < delivered[j].revision)
  }

  /** Everything delivered lies before the point a new stream would resume from. */
  ghost predicate Behind(w: Watch) {
    && (w.resumeFrom.None? ==> w.delivered == [])
    && (w.resumeFrom.Some? ==> w.resumeFrom.value <= w.position)
    && (w.resumeFrom.Some? ==> forall i :: 0 <= i < |w.delivered| ==> w.delivered[i].revision < w.resumeFrom.value)
  }

  /** A re-read delivers the pairs it ended with, or nothing; it goes on only if it ended with some,
      and then it delivers them unless there are none. */
  lemma RereadShape(prefix: string, ranges: Ranges, w: Watch, turn: Turn)
    requires turn.Message? && w.status.Running?
    ensures var w' := Reread(prefix, ranges, w, turn); var pairs := Reading(prefix, ranges, turn);
      && w'.resumeFrom == w.resumeFrom && w'.position == w.position
      && (w'.delivered == w.delivered ||
          (pairs.Some? && pairs.value != [] && w'.delivered == w.delivered + [Delivery(turn.upto, pairs.value)]))
      && (w'.status.Running? ==> pairs.Some? && (pairs.value == [] <==> w'.delivered == w.delivered))
  {
  }

  /** They are the whole range at the message's revision, because that is the revision both reads ask for. */
  lemma ReadAtItsRevision(log: Log, prefix: string, ranges: Ranges, turn: Turn)
    requires turn.Message? && turn.upto <= |log| && Serves(ranges, log, prefix)
    ensures var pairs := Reading(prefix, ranges, turn);
      pairs.Some? ==> Lists(AsKvs(pairs.value), Subtree(log, prefix, turn.upto))
  {
    var kvs := ranges(turn.upto);
    assert ServesAt(ranges, log, prefix, turn.upto);
    if Reading(prefix, ranges, turn).Some? {
      PairsAreAll(prefix, kvs);
    }
  }

  lemma PairsAreAll(prefix: string, kvs: seq<(string, Value)>)
    requires PairsOf(prefix, kvs).Some?
    ensures |kvs| <= MOST_KEYS && AsKvs(PairsOf(prefix, kvs).value) == kvs
  {
  }

  lemma DeliveryUntorn(log: Log, prefix: string, delivered: seq<Delivery>, from: nat, d: Delivery)
    requires Untorn(log, prefix, delivered)
    requires forall i :: 0 <= i < |delivered| ==> delivered[i].revision < from
    requires from <= d.revision + 1
    requires Whole(log, prefix, d) && Moves(log, prefix, from, d.revision + 1)
    ensures Untorn(log, prefix, delivered + [d])
  {
    var after := delivered + [d];
    forall i | 0 <= i < |after|
      ensures Announced(log, prefix, after, i)
    {
      if i < |delivered| {
        assert Announced(log, prefix, delivered, i);
        assert after[i] == delivered[i] && (0 < i ==> after[i - 1] == delivered[i - 1]);
      } else {
        var r :| from <= r < d.revision + 1 && Touched(log, prefix, r);
        assert 0 < i ==> after[i - 1] == delivered[i - 1];
      }
    }
    assert forall i :: 0 <= i < |after| ==> after[i] == d || (i < |delivered| && after[i] == delivered[i]);
    var r :| from <= r < d.revision + 1 && Touched(log, prefix, r);
    assert forall i :: 0 <= i < |delivered| ==> after[i].revision < d.revision;
  }

  lemma StepUntorn(log: Log, src: Source, ranges: Ranges, w: Watch, turn: Turn)
    requires src.keys.Prefix? && Serves(ranges, log, src.keys.prefix) && w.status.Running?
    requires Consistent(log, src, w, turn) && Untorn(log, src.keys.prefix, w.delivered) && Behind(w)
    ensures Untorn(log, src.keys.prefix, Step(src, ranges, w, turn).delivered) && Behind(Step(src, ranges, w, turn))
  {
    if turn.Message? && !turn.canceled && turn.events != [] && turn.header {
      RereadUntorn(log, src, ranges, w, turn);
    }
  }

  lemma RereadUntorn(log: Log, src: Source, ranges: Ranges, w: Watch, turn: Turn)
    requires src.keys.Prefix? && Serves(ranges, log, src.keys.prefix)
    requires w.status.Running? && turn.Message? && turn.events != [] && turn.header
    requires Consistent(log, src, w, turn) && Untorn(log, src.keys.prefix, w.delivered) && Behind(w)
    ensures var w' := Reread(src.keys.prefix, ranges, Received(w, turn), turn);
      Untorn(log, src.keys.prefix, w'.delivered) && Behind(w')
  {
    var prefix := src.keys.prefix;
    var pairs := Reading(prefix, ranges, turn);
    RereadShape(prefix, ranges, Received(w, turn), turn);
    if pairs.Some? && pairs.value != [] {
      ReadAtItsRevision(log, src.keys.prefix, ranges, turn);
      DeliveryUntorn(log, prefix, w.delivered, w.position, Delivery(turn.upto, pairs.value));
    }
  }

  lemma {:induction false} RunUntorn(log: Log, src: Source, ranges: Ranges, w: Watch, turns: seq<Turn>)
    requires src.keys.Prefix? && Serves(ranges, log, src.keys.prefix) && ConsistentRun(log, src, ranges, w, turns)
    requires Untorn(log, src.keys.prefix, w.delivered) && Behind(w)
    ensures Untorn(log, src.keys.prefix, Run(src, ranges, w, turns).delivered)
    decreases |turns|
  {
    if turns != [] && w.status.Running? {
      StepUntorn(log, src, ranges, w, turns[0]);
      RunUntorn(log, src, ranges, Step(src, ranges, w, turns[0]), turns[1..]);
    }
  }

  /** The delivery's revision is the header's of a message with events. */
  ghost predicate OwnRevision(turns: seq<Turn>, d: Delivery) {
    exists i :: 0 <= i < |turns| && turns[i].Message? && turns[i].header && turns[i].events != [] && turns[i].upto == d.revision
  }

  lemma {:induction false} RunOwnRevisions(src: Source, ranges: Ranges, w: Watch, turns: seq<Turn>)
    requires src.keys.Prefix?
    ensures var delivered := Run(src, ranges, w, turns).delivered;
      && w.delivered <= delivered
      && forall i :: |w.delivered| <= i < |delivered| ==> OwnRevision(turns, delivered[i])
    decreases |turns|
  {
    if turns != [] && w.status.Running? {
      var turn, rest := turns[0], turns[1..];
      var next := Step(src, ranges, w, turn);
      if turn.Message? {
        RereadShape(src.keys.prefix, ranges, Received(w, turn), turn);
      }
      RunOwnRevisions(src, ranges, next, rest);
      var delivered := Run(src, ranges, next, rest).delivered;
      forall i | |w.delivered| <= i < |delivered|
        ensures OwnRevision(turns, delivered[i])
      {
        if |next.delivered| <= i {
          assert OwnRevision(rest, delivered[i]);
          var k :| 0 <= k < |rest| && rest[k].Message? && rest[k].header && rest[k].events != []
                   && rest[k].upto == delivered[i].revision;
          assert turns[k + 1] == rest[k];
        } else {
          assert delivered[i] == next.delivered[i];
        }
      }
    }
  }

  /** Whatever expires, breaks or carries no header, every document a prefix watch delivers is the whole
      range at one revision and not an empty one, that revision is its own message's, delivered revisions
      strictly increase, and each announces a change since the one before. */
  lemma NeverTorn(log: Log, src: Source, ranges: Ranges, opening: Opening, turns: seq<Turn>)
    requires src.keys.Prefix? && Serves(ranges, log, src.keys.prefix) && src.format
    requires ConsistentRun(log, src, ranges, Open(opening), turns)
    ensures var delivered := Run(src, ranges, Start(src, opening), turns).delivered;
      && (forall i :: 0 <= i < |delivered| ==> Whole(log, src.keys.prefix, delivered[i]))
      && (forall i :: 0 <= i < |delivered| ==> OwnRevision(turns, delivered[i]))
      && (forall i :: 0 <= i < |delivered| ==> Announced(log, src.keys.prefix, delivered, i))
      && (forall i, j :: 0 <= i < j < |delivered| ==> delivered[i].revision < delivered[j].revision)
  {
    RunUntorn(log, src, ranges, Open(opening), turns);
    RunOwnRevisions(src, ranges, Open(opening), turns);
  }

  // ---------------------------------------------------------------------------------------------
  // A prefix: up to date

  /** A range stands still while nothing under its prefix is touched. */
  lemma {:induction false} RangeStill(log: Log, prefix: string, from: nat, end: nat)
    requires 1 <= from <= end <= |log| + 1 && !Moves(log, prefix, from, end)
    ensures Subtree(log, prefix, end - 1) == Subtree(log, prefix, from - 1)
    decreases end - from
  {
    if from < end {
      RangeStill(log, prefix, from, end - 1);
      assert !Touched(log, prefix, end - 1);
    }
  }

  /** The callback's last document is the range as of the stream's position, unless that is empty or
      nothing under the prefix has moved since the watch began. */
  ghost predicate Current(log: Log, prefix: string, origin: nat, w: Watch)
    requires 1 <= w.position
  {
    if !Moves(log, prefix, origin, w.position) then w.delivered == []
    else Shown(Subtree(log, prefix, w.position - 1), w.delivered)
  }

  ghost predicate Shown(range: map<string, Value>, delivered: seq<Delivery>) {
    range == map[] || (delivered != [] && Lists(AsKvs(Last(delivered).document), range))
  }

  lemma MovesSplit(log: Log, prefix: string, origin: nat, mid: nat, end: nat)
    requires origin <= mid <= end
    ensures Moves(log, prefix, origin, end) <==> Moves(log, prefix, origin, mid) || Moves(log, prefix, mid, end)
  {
    if Moves(log, prefix, origin, end) {
      var r :| origin <= r < end && Touched(log, prefix, r);
      assert r < mid || mid <= r;
    }
  }

  lemma MessageCurrent(log: Log, src: Source, ranges: Ranges, origin: nat, w: Watch, turn: Turn)
    requires src.keys.Prefix? && Serves(ranges, log, src.keys.prefix)
    requires w.status.Running? && turn.Message? && turn.header
    requires 1 <= origin <= w.position <= |log| + 1 && Current(log, src.keys.prefix, origin, w)
    requires Consistent(log, src, w, turn) && Step(src, ranges, w, turn).status.Running?
    ensures var w' := Step(src, ranges, w, turn);
      origin <= w'.position <= |log| + 1 && w'.resumeFrom == Some(w'.position) && Current(log, src.keys.prefix, origin, w')
  {
    var prefix := src.keys.prefix;
    MovesSplit(log, prefix, origin, w.position, turn.upto + 1);
    if turn.events == [] {
      QuietCurrent(log, prefix, origin, w, Received(w, turn));
    } else {
      RereadMakesCurrent(log, src, ranges, origin, w, turn);
    }
  }

  lemma RereadMakesCurrent(log: Log, src: Source, ranges: Ranges, origin: nat, w: Watch, turn: Turn)
    requires src.keys.Prefix? && Serves(ranges, log, src.keys.prefix)
    requires w.status.Running? && turn.Message? && Consistent(log, src, w, turn)
    requires Moves(log, src.keys.prefix, origin, turn.upto + 1)
    requires Reread(src.keys.prefix, ranges, Received(w, turn), turn).status.Running?
    ensures var w' := Reread(src.keys.prefix, ranges, Received(w, turn), turn);
      w'.position == turn.upto + 1 && w'.resumeFrom == Received(w, turn).resumeFrom && Current(log, src.keys.prefix, origin, w')
  {
    MessageShows(log, src, ranges, w, turn);
    ShownIsCurrent(log, src.keys.prefix, origin, Reread(src.keys.prefix, ranges, Received(w, turn), turn), turn.upto);
  }

  /** A re-read that goes on shows the range at the message's revision, whatever was shown before. */
  lemma MessageShows(log: Log, src: Source, ranges: Ranges, w: Watch, turn: Turn)
    requires src.keys.Prefix? && Serves(ranges, log, src.keys.prefix)
    requires w.status.Running? && turn.Message? && turn.upto <= |log|
    requires Reread(src.keys.prefix, ranges, Received(w, turn), turn).status.Running?
    ensures var w' := Reread(src.keys.prefix, ranges, Received(w, turn), turn);
      && w'.position == turn.upto + 1 && w'.resumeFrom == Received(w, turn).resumeFrom
      && Shown(Subtree(log, src.keys.prefix, turn.upto), w'.delivered)
  {
    var prefix := src.keys.prefix;
    RereadDelivers(prefix, ranges, Received(w, turn), turn);
    ReadAtItsRevision(log, prefix, ranges, turn);
    RereadShows(Subtree(log, prefix, turn.upto), Reread(prefix, ranges, Received(w, turn), turn).delivered,
                Reading(prefix, ranges, turn).value);
  }

  lemma RereadDelivers(prefix: string, ranges: Ranges, w: Watch, turn: Turn)
    requires turn.Message? && w.status.Running? && Reread(prefix, ranges, w, turn).status.Running?
    ensures var w' := Reread(prefix, ranges, w, turn); var pairs := Reading(prefix, ranges, turn);
      && w'.resumeFrom == w.resumeFrom && w'.position == w.position
      && pairs.Some?
      && (pairs.value != [] ==> w'.delivered != [] && Last(w'.delivered).document == pairs.value)
  {
    RereadShape(prefix, ranges, w, turn);
  }

  lemma QuietCurrent(log: Log, prefix: string, origin: nat, w: Watch, w': Watch)
    requires 1 <= origin <= w.position <= w'.position <= |log| + 1 && Current(log, prefix, origin, w)
    requires w'.delivered == w.delivered && !Moves(log, prefix, w.position, w'.position)
    ensures Current(log, prefix, origin, w')
  {
    MovesSplit(log, prefix, origin, w.position, w'.position);
    RangeStill(log, prefix, w.position, w'.position);
  }

  lemma ShownIsCurrent(log: Log, prefix: string, origin: nat, w: Watch, r: nat)
    requires w.position == r + 1 && Moves(log, prefix, origin, r + 1) && Shown(Subtree(log, prefix, r), w.delivered)
    ensures Current(log, prefix, origin, w)
  {
    assert w.position - 1 == r;
  }

  lemma RereadShows(range: map<string, Value>, delivered: seq<Delivery>, pairs: seq<(string, string)>)
    requires Lists(AsKvs(pairs), range)
    requires pairs != [] ==> delivered != [] && Last(delivered).document == pairs
    ensures Shown(range, delivered)
  {
    assert pairs == [] ==> |range| == 0;
  }

  lemma {:induction false} RunCurrent(log: Log, src: Source, ranges: Ranges, origin: nat, w: Watch, turns: seq<Turn>)
    requires src.keys.Prefix? && Serves(ranges, log, src.keys.prefix)
    requires w.status.Running? && ConsistentRun(log, src, ranges, w, turns)
    requires 1 <= origin <= w.position <= |log| + 1 && Current(log, src.keys.prefix, origin, w)
    requires w.resumeFrom == Some(w.position)
    requires forall i :: 0 <= i < |turns| && turns[i].Message? ==> turns[i].header
    requires Run(src, ranges, w, turns).status.Running?
    ensures var w' := Run(src, ranges, w, turns); 1 <= w'.position && Current(log, src.keys.prefix, origin, w')
    decreases |turns|
  {
    if turns != [] {
      if turns[0].Message? {
        MessageCurrent(log, src, ranges, origin, w, turns[0]);
      }
      RunCurrent(log, src, ranges, origin, Step(src, ranges, w, turns[0]), turns[1..]);
    }
  }

  /** With a header on every message, and a message before the first recovery, a prefix watch that is
      still running has delivered the range its stream has got to. */
  lemma UpToDate(log: Log, src: Source, ranges: Ranges, opening: Opening, turns: seq<Turn>)
    requires src.keys.Prefix? && Serves(ranges, log, src.keys.prefix) && src.format
    requires Open(opening).status.Running? && ConsistentRun(log, src, ranges, Open(opening), turns)
    requires turns != [] && turns[0].Message?
    requires forall i :: 0 <= i < |turns| && turns[i].Message? ==> turns[i].header
    requires Run(src, ranges, Start(src, opening), turns).status.Running?
    ensures var w := Run(src, ranges, Start(src, opening), turns);
      1 <= w.position && Current(log, src.keys.prefix, Open(opening).position, w)
  {
    var w := Open(opening);
    var next := Step(src, ranges, w, turns[0]);
    assert next.status.Running?;
    MessageCurrent(log, src, ranges, w.position, w, turns[0]);
    RunCurrent(log, src, ranges, w.position, next, turns[1..]);
  }

  /** The callback's last document is the range as of the stream's position, unless that is empty, and a new
      stream would go on from there. */
  ghost predicate Healed(log: Log, prefix: string, w: Watch) {
    && 1 <= w.position <= |log| + 1
    && w.resumeFrom == Some(w.position)
    && Shown(Subtree(log, prefix, w.position - 1), w.delivered)
  }

  lemma EventHeals(log: Log, src: Source, ranges: Ranges, w: Watch, turn: Turn)
    requires src.keys.Prefix? && Serves(ranges, log, src.keys.prefix)
    requires w.status.Running? && turn.Message? && turn.header && turn.events != []
    requires Consistent(log, src, w, turn) && Step(src, ranges, w, turn).status.Running?
    ensures Healed(log, src.keys.prefix, Step(src, ranges, w, turn))
  {
    MessageShows(log, src, ranges, w, turn);
    HealedAt(log, src.keys.prefix, Step(src, ranges, w, turn), turn.upto);
  }

  lemma HealedAt(log: Log, prefix: string, w: Watch, r: nat)
    requires w.position == r + 1 <= |log| + 1 && w.resumeFrom == Some(w.position)
    requires Shown(Subtree(log, prefix, r), w.delivered)
    ensures Healed(log, prefix, w)
  {
    assert w.position - 1 == r;
  }

  lemma QuietHealed(log: Log, prefix: string, w: Watch, w': Watch)
    requires Healed(log, prefix, w) && w.position <= w'.position <= |log| + 1 && w'.resumeFrom == Some(w'.position)
    requires w'.delivered == w.delivered && !Moves(log, prefix, w.position, w'.position)
    ensures Healed(log, prefix, w')
  {
    RangeStill(log, prefix, w.position, w'.position);
  }

  lemma TurnHealed(log: Log, src: Source, ranges: Ranges, w: Watch, turn: Turn)
    requires src.keys.Prefix? && Serves(ranges, log, src.keys.prefix)
    requires w.status.Running? && Healed(log, src.keys.prefix, w) && (turn.Message? ==> turn.header)
    requires Consistent(log, src, w, turn) && Step(src, ranges, w, turn).status.Running?
    ensures Healed(log, src.keys.prefix, Step(src, ranges, w, turn))
  {
    if turn.Message? && turn.events != [] {
      EventHeals(log, src, ranges, w, turn);
    } else if turn.Message? {
      QuietHealed(log, src.keys.prefix, w, Received(w, turn));
    }
  }

  lemma {:induction false} RunHealed(log: Log, src: Source, ranges: Ranges, w: Watch, turns: seq<Turn>)
    requires src.keys.Prefix? && Serves(ranges, log, src.keys.prefix)
    requires w.status.Running? && Healed(log, src.keys.prefix, w) && ConsistentRun(log, src, ranges, w, turns)
    requires forall i :: 0 <= i < |turns| && turns[i].Message? ==> turns[i].header
    requires Run(src, ranges, w, turns).status.Running?
    ensures Healed(log, src.keys.prefix, Run(src, ranges, w, turns))
    decreases |turns|
  {
    if turns != [] {
      var next := Step(src, ranges, w, turns[0]);
      assert next.status.Running?;
      TurnHealed(log, src, ranges, w, turns[0]);
      RunHealed(log, src, ranges, next, turns[1..]);
    }
  }

  /** Whatever went before, a lost stretch included: after one header-bearing message with events, and with a
      header on every later message, a prefix watch that is still running has delivered the range its stream
      has got to, unless that is empty. */
  lemma HealsAtNextEvent(log: Log, src: Source, ranges: Ranges, opening: Opening, before: seq<Turn>, message: Turn,
                         turns: seq<Turn>)
    requires src.keys.Prefix? && Serves(ranges, log, src.keys.prefix)
    requires message.Message? && message.header && message.events != []
    requires var w := Run(src, ranges, Start(src, opening), before);
      && w.status.Running? && Consistent(log, src, w, message)
      && ConsistentRun(log, src, ranges, Step(src, ranges, w, message), turns)
    requires forall i :: 0 <= i < |turns| && turns[i].Message? ==> turns[i].header
    requires Run(src, ranges, Start(src, opening), before + [message] + turns).status.Running?
    ensures Healed(log, src.keys.prefix, Run(src, ranges, Start(src, opening), before + [message] + turns))
  {
    var w := Run(src, ranges, Start(src, opening), before);
    FromMessage(src, ranges, opening, before, message, turns);
    assert Step(src, ranges, w, message).status.Running?;
    EventHeals(log, src, ranges, w, message);
    RunHealed(log, src, ranges, Step(src, ranges, w, message), turns);
  }
}
