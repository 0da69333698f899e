/**
 Why an etcd watch ends, told from what the cluster and the callback answered and not from the loop's own
 bookkeeping.
 */
module EtcdEndings {
  import opened Common
  import opened EtcdWatch
  import opened EtcdServer

  // ---------------------------------------------------------------------------------------------
  // Causes

  predicate TextUpTo(puts: seq<Kv>, n: nat) {
    n <= |puts| && forall i :: 0 <= i < n ==> puts[i].value.Text?
  }

  /** The callback refuses put `k` of the batch, and every put up to it could be handed over. */
  predicate RefusedAt(puts: seq<Kv>, refuseAt: Option<nat>, k: nat) {
    refuseAt == Some(k) && k < |puts| && TextUpTo(puts, k + 1)
  }

  /** Put `f` is the first that is not text, and the callback refused none before it. */
  predicate GarbledAt(puts: seq<Kv>, refuseAt: Option<nat>, f: nat) {
    f < |puts| && TextUpTo(puts, f) && puts[f].value.NotUtf8? && (refuseAt.Some? ==> f <= refuseAt.value)
  }

  /** Some read of the message's range is answered. */
  predicate Answered(turn: Turn)
    requires turn.Message?
  {
    turn.first.Served? || (turn.first.ReadExpired? && turn.refreshed && turn.second.Served?)
  }

  /** A range that can become a document: within the key budget, all under the prefix, all text. */
  predicate Presentable(prefix: string, kvs: seq<(string, Value)>) {
    |kvs| <= 512 && forall i :: 0 <= i < |kvs| ==> prefix <= kvs[i].0 && kvs[i].1.Text?
  }

  /** A message that calls for its range to be read. */
  predicate Due(turn: Turn) {
    turn.Message? && !turn.canceled && turn.header && turn.events != []
  }

  /** The message delivers its range. */
  predicate DeliversRange(prefix: string, ranges: Ranges, turn: Turn) {
    Due(turn) && Answered(turn) && Presentable(prefix, ranges(turn.upto)) && ranges(turn.upto) != [] && turn.merges
  }

  /** The callback refuses something this turn hands it. */
  ghost predicate CallbackRefuses(src: Source, ranges: Ranges, turn: Turn) {
    match src.keys
    case One(_) => turn.Message? && !turn.canceled && exists k :: RefusedAt(PutsOf(turn.events), turn.refuseAt, k)
    case Prefix(prefix) => DeliversRange(prefix, ranges, turn) && turn.refuseAt == Some(0)
    case Several(_) => false
  }

  /** Something the watch needs from the store this turn cannot be had. `expiries` is how many tokens in a row
      have expired before it. */
  ghost predicate StoreFails(src: Source, ranges: Ranges, expiries: nat, turn: Turn) {
    match turn
    case StreamEnded => true
    case StreamError(expired, refreshedToken, rewatched) =>
      !expired || 3 <= expiries || !refreshedToken || rewatched.NotWatching?
    case Message(upto, _, canceled, events, _, _, _, _, merges, refuseAt) =>
      canceled ||
      match src.keys
      case One(_) => exists f :: GarbledAt(PutsOf(events), refuseAt, f)
      case Prefix(prefix) =>
        Due(turn) && (!Answered(turn) || !Presentable(prefix, ranges(upto)) || (ranges(upto) != [] && !merges))
      case Several(_) => false
  }

  /** The turn asks for a new token. */
  predicate Refreshes(src: Source, expiries: nat, turn: Turn) {
    match turn
    case StreamEnded => false
    case StreamError(expired, _, _) => expired && expiries < 3
    case Message(_, _, _, _, _, first, _, _, _, _) => src.keys.Prefix? && Due(turn) && first.ReadExpired?
  }

  // ---------------------------------------------------------------------------------------------
  // A single-key batch

  lemma PutsStep(events: seq<Event>)
    requires events != []
    ensures PutsOf(events) == (if events[0].put && events[0].kv.Some? then [events[0].kv.value] else []) + PutsOf(events[1..])
  {
  }

  lemma DeliveriesStep(key: string, before: seq<Delivery>, kv: Kv, rest: seq<Kv>, n: nat)
    requires n <= |rest|
    ensures before + [AsDelivery(key, kv)] + AsDeliveries(key, rest[..n]) == before + AsDeliveries(key, ([kv] + rest)[..n + 1])
  {
    assert ([kv] + rest)[..n + 1] == [kv] + rest[..n];
    assert AsDeliveries(key, [kv] + rest[..n]) == [AsDelivery(key, kv)] + AsDeliveries(key, rest[..n]);
  }

  lemma {:induction false} BatchRefused(key: string, w: Watch, events: seq<Event>, refuseAt: Option<nat>, k: nat)
    requires w.status.Running? && RefusedAt(PutsOf(events), refuseAt, k)
    ensures DeliverPuts(key, w, events, refuseAt) ==
      w.(status := Done(Err(Callback)), delivered := w.delivered + AsDeliveries(key, PutsOf(events)[..k + 1]))
    decreases |events|
  {
    PutsStep(events);
    var rest := PutsOf(events[1..]);
    if !events[0].put || events[0].kv.None? {
      assert PutsOf(events) == rest;
      BatchRefused(key, w, events[1..], refuseAt, k);
    } else {
      var kv := events[0].kv.value;
      assert PutsOf(events)[0] == kv;
      var next := Deliver(w, AsDelivery(key, kv), refuseAt == Some(0));
      if k == 0 {
        DeliveriesStep(key, w.delivered, kv, rest, 0);
        assert AsDeliveries(key, rest[..0]) == [];
      } else {
        assert forall i :: 0 <= i < k ==> rest[i] == PutsOf(events)[i + 1];
        BatchRefused(key, next, events[1..], Some(k - 1), k - 1);
        DeliveriesStep(key, w.delivered, kv, rest, k);
      }
    }
  }

  lemma GarbledLater(kv: Kv, rest: seq<Kv>, refuseAt: Option<nat>, f: nat)
    requires GarbledAt([kv] + rest, refuseAt, f) && 0 < f
    ensures kv.value.Text? && refuseAt != Some(0)
    ensures GarbledAt(rest, if refuseAt.Some? && refuseAt.value > 0 then Some(refuseAt.value - 1) else None, f - 1)
  {
    assert forall i :: 0 <= i < |rest| ==> rest[i] == ([kv] + rest)[i + 1];
    assert ([kv] + rest)[0] == kv;
  }

  lemma {:induction false} BatchGarbled(key: string, w: Watch, events: seq<Event>, refuseAt: Option<nat>, f: nat)
    requires w.status.Running? && GarbledAt(PutsOf(events), refuseAt, f)
    ensures DeliverPuts(key, w, events, refuseAt) ==
      w.(status := Done(Err(Store)), reports := w.reports + 1,
         delivered := w.delivered + AsDeliveries(key, PutsOf(events)[..f]))
    decreases |events|
  {
    PutsStep(events);
    var rest := PutsOf(events[1..]);
    if !events[0].put || events[0].kv.None? {
      assert PutsOf(events) == rest;
      BatchGarbled(key, w, events[1..], refuseAt, f);
    } else {
      var kv := events[0].kv.value;
      assert PutsOf(events)[0] == kv;
      if f == 0 {
        assert AsDeliveries(key, PutsOf(events)[..0]) == [];
      } else {
        var next := Deliver(w, AsDelivery(key, kv), refuseAt == Some(0));
        var left := if refuseAt.Some? && refuseAt.value > 0 then Some(refuseAt.value - 1) else None;
        GarbledLater(kv, rest, refuseAt, f);
        BatchGarbled(key, next, events[1..], left, f - 1);
        DeliveriesStep(key, w.delivered, kv, rest, f - 1);
      }
    }
  }

  lemma {:induction false} BatchGoesOn(key: string, w: Watch, events: seq<Event>, refuseAt: Option<nat>)
    requires w.status.Running? && TextUpTo(PutsOf(events), |PutsOf(events)|)
    requires refuseAt.Some? ==> |PutsOf(events)| <= refuseAt.value
    ensures DeliverPuts(key, w, events, refuseAt) == w.(delivered := w.delivered + AsDeliveries(key, PutsOf(events)))
    decreases |events|
  {
    if events != [] {
      PutsStep(events);
      var rest := PutsOf(events[1..]);
      if !events[0].put || events[0].kv.None? {
        assert PutsOf(events) == rest;
        BatchGoesOn(key, w, events[1..], refuseAt);
      } else {
        var kv := events[0].kv.value;
        assert PutsOf(events)[0] == kv;
        var next := Deliver(w, AsDelivery(key, kv), refuseAt == Some(0));
        var left := if refuseAt.Some? && refuseAt.value > 0 then Some(refuseAt.value - 1) else None;
        assert forall i :: 0 <= i < |rest| ==> rest[i] == PutsOf(events)[i + 1];
        BatchGoesOn(key, next, events[1..], left);
        FirstDelivered(key, w, kv, rest);
      }
    }
  }

  /** Either the callback refuses a put, or one is not text, or neither. */
  lemma {:induction false} FirstTrouble(puts: seq<Kv>, n: nat) returns (f: nat)
    requires n <= |puts| && TextUpTo(puts, n)
    ensures n <= f <= |puts| && TextUpTo(puts, f) && (f < |puts| ==> puts[f].value.NotUtf8?)
    decreases |puts| - n
  {
    f := n;
    if n < |puts| && puts[n].value.Text? {
      f := FirstTrouble(puts, n + 1);
    }
  }

  // ---------------------------------------------------------------------------------------------
  // One turn

  /** What the causes make of the watch: its status, its reports and its refreshes. */
  ghost predicate EndsAsCaused(src: Source, ranges: Ranges, w: Watch, turn: Turn, expiries: nat, w': Watch) {
    var refused, failed := CallbackRefuses(src, ranges, turn), StoreFails(src, ranges, expiries, turn);
    && (w'.status == Done(Err(Callback)) <==> refused)
    && (w'.status == Done(Err(Store)) <==> failed)
    && (w'.status.Running? <==> !refused && !failed)
    && w'.reports == w.reports + (if failed then 1 else 0)
    && w'.refreshes == w.refreshes + (if Refreshes(src, expiries, turn) then 1 else 0)
  }

  /** The puts a turn hands over: up to and with the one refused, up to the one that is not text, or all. */
  ghost predicate HandsOver(turn: Turn, handed: seq<Kv>) {
    if !turn.Message? || turn.canceled then handed == []
    else
      var puts := PutsOf(turn.events);
      && (forall k: nat :: RefusedAt(puts, turn.refuseAt, k) ==> handed == puts[..k + 1])
      && (forall f: nat :: GarbledAt(puts, turn.refuseAt, f) ==> handed == puts[..f])
      && ((forall k: nat :: !RefusedAt(puts, turn.refuseAt, k)) && (forall f: nat :: !GarbledAt(puts, turn.refuseAt, f)) ==>
            handed == puts)
  }

  lemma OneKeyMessage(src: Source, ranges: Ranges, w: Watch, turn: Turn) returns (handed: seq<Kv>)
    requires src.keys.One? && w.status.Running? && turn.Message? && !turn.canceled
    ensures EndsAsCaused(src, ranges, w, turn, w.recoveries, Step(src, ranges, w, turn))
    ensures HandsOver(turn, handed)
    ensures Step(src, ranges, w, turn).delivered == w.delivered + AsDeliveries(src.keys.key, handed)
  {
    var key, puts, refuseAt, got := src.keys.key, PutsOf(turn.events), turn.refuseAt, Received(w, turn);
    var f := FirstTrouble(puts, 0);
    if refuseAt.Some? && refuseAt.value < f {
      var k := refuseAt.value;
      assert RefusedAt(puts, refuseAt, k);
      BatchRefused(key, got, turn.events, refuseAt, k);
      handed := puts[..k + 1];
    } else if f < |puts| {
      assert GarbledAt(puts, refuseAt, f);
      BatchGarbled(key, got, turn.events, refuseAt, f);
      handed := puts[..f];
    } else {
      BatchGoesOn(key, got, turn.events, refuseAt);
      handed := puts;
    }
  }

  lemma OneKeyTurn(src: Source, ranges: Ranges, w: Watch, turn: Turn) returns (handed: seq<Kv>)
    requires src.keys.One? && w.status.Running?
    ensures EndsAsCaused(src, ranges, w, turn, w.recoveries, Step(src, ranges, w, turn))
    ensures HandsOver(turn, handed)
    ensures Step(src, ranges, w, turn).delivered == w.delivered + AsDeliveries(src.keys.key, handed)
  {
    handed := [];
    if turn.Message? && !turn.canceled {
      handed := OneKeyMessage(src, ranges, w, turn);
    }
  }

  lemma ReadingIff(prefix: string, ranges: Ranges, turn: Turn)
    requires turn.Message?
    ensures Reading(prefix, ranges, turn).Some? <==> Answered(turn) && Presentable(prefix, ranges(turn.upto))
    ensures Reading(prefix, ranges, turn).Some? ==> AsKvs(Reading(prefix, ranges, turn).value) == ranges(turn.upto)
  {
    var kvs := ranges(turn.upto);
    assert PairsOf(prefix, kvs).Some? <==> Presentable(prefix, kvs);
    if PairsOf(prefix, kvs).Some? {
      PairsAreAll(prefix, kvs);
    }
  }

  /** A prefix watch delivers its range, whole, exactly when the message calls for it and it can be had. */
  lemma PrefixTurn(src: Source, ranges: Ranges, w: Watch, turn: Turn) returns (handed: seq<Delivery>)
    requires src.keys.Prefix? && w.status.Running?
    ensures EndsAsCaused(src, ranges, w, turn, w.recoveries, Step(src, ranges, w, turn))
    ensures Step(src, ranges, w, turn).delivered == w.delivered + handed
    ensures !DeliversRange(src.keys.prefix, ranges, turn) ==> handed == []
    ensures DeliversRange(src.keys.prefix, ranges, turn) ==>
      |handed| == 1 && handed[0].revision == turn.upto && AsKvs(handed[0].document) == ranges(turn.upto)
  {
    handed := [];
    if Due(turn) {
      ReadingIff(src.keys.prefix, ranges, turn);
      var pairs := Reading(src.keys.prefix, ranges, turn);
      assert pairs.Some? ==> |pairs.value| == |ranges(turn.upto)|;
      if pairs.Some? && pairs.value != [] && turn.merges {
        handed := [Delivery(turn.upto, pairs.value)];
      }
    }
  }

  // ---------------------------------------------------------------------------------------------
  // Whole runs

  /** How many stream errors in a row the turns end with. */
  function Expiries(turns: seq<Turn>): nat {
    if turns == [] || !Last(turns).StreamError? then 0 else Expiries(turns[..|turns| - 1]) + 1
  }

  lemma RunSnoc(src: Source, ranges: Ranges, w: Watch, turns: seq<Turn>, turn: Turn)
    requires Run(src, ranges, w, turns).status.Running?
    ensures Run(src, ranges, w, turns + [turn]) == Step(src, ranges, Run(src, ranges, w, turns), turn)
  {
    RunConcat(src, ranges, w, turns, [turn]);
    assert [turn][1..] == [];
  }

  lemma {:induction false} RecoveriesAreExpiries(src: Source, ranges: Ranges, opening: Opening, turns: seq<Turn>)
    requires Run(src, ranges, Start(src, opening), turns).status.Running?
    ensures Run(src, ranges, Start(src, opening), turns).recoveries == Expiries(turns)
    ensures !src.keys.Several?
    decreases |turns|
  {
    if turns != [] {
      var before, turn := turns[..|turns| - 1], Last(turns);
      assert turns == before + [turn];
      RunConcat(src, ranges, Start(src, opening), before, [turn]);
      var w := Run(src, ranges, Start(src, opening), before);
      RunSnoc(src, ranges, Start(src, opening), before, turn);
      RecoveriesAreExpiries(src, ranges, opening, before);
      StepRecoveries(src, ranges, w, turn);
    }
  }

  lemma StepRecoveries(src: Source, ranges: Ranges, w: Watch, turn: Turn)
    requires w.status.Running? && !src.keys.Several? && Step(src, ranges, w, turn).status.Running?
    ensures Step(src, ranges, w, turn).recoveries == if turn.StreamError? then w.recoveries + 1 else 0
  {
    if turn.Message? && src.keys.One? {
      PutsDelivered(src.keys.key, Received(w, turn), turn.events, turn.refuseAt);
    }
  }

  /** Every turn of every run ends the watch exactly as its causes say: in the callback's refusal, unreported,
      exactly when the callback refuses what the turn hands it; in a failure of the store, reported once,
      exactly on an ended stream, a cancelled message, a stream error that is no expired token, the fourth
      expiry in a row, a token or a stream that could not be renewed, a due range that cannot be read or
      merged, or a value that is not text; and otherwise it goes on. */
  lemma EndsExactly(src: Source, ranges: Ranges, opening: Opening, turns: seq<Turn>, turn: Turn)
    requires Run(src, ranges, Start(src, opening), turns).status.Running?
    ensures EndsAsCaused(src, ranges, Run(src, ranges, Start(src, opening), turns), turn, Expiries(turns),
                         Run(src, ranges, Start(src, opening), turns + [turn]))
  {
    var w := Run(src, ranges, Start(src, opening), turns);
    RecoveriesAreExpiries(src, ranges, opening, turns);
    RunSnoc(src, ranges, Start(src, opening), turns, turn);
    if src.keys.One? {
      var handed := OneKeyTurn(src, ranges, w, turn);
    } else {
      var handed := PrefixTurn(src, ranges, w, turn);
    }
  }

  /** The first stream cannot be had. */
  predicate NoStream(opening: Opening) {
    opening.OpenFailed? || (opening.OpenExpired? && (!opening.refreshed || opening.retried.NotWatching?))
  }

  /** And so does the beginning; a watch that gets going hears of changes only, from the revision after the
      one its stream was established at. */
  lemma BeginsExactly(src: Source, opening: Opening)
    ensures var w := Start(src, opening); var asks := src.format && !src.keys.Several?;
      && (w.status == Done(Err(NoFormat)) <==> !src.format)
      && (w.status == Done(Err(NamedList)) <==> src.format && src.keys.Several?)
      && (w.status == Done(Err(Store)) <==> asks && NoStream(opening))
      && (w.status.Running? <==> asks && !NoStream(opening))
      && w.reports == (if asks && NoStream(opening) then 1 else 0)
      && w.refreshes == (if asks && opening.OpenExpired? then 1 else 0)
      && w.delivered == [] && w.messages == 0 && w.resumeFrom == None
      && (w.status.Running? ==>
            w.position == (if opening.Opened? then opening.now else opening.retried.now) + 1)
  {
  }
}
