/**
 The ref-polling watch of a git source, as far as it depends on what its checks and reads come to: one `Tick`
 for each time round the loop.
 */
module GitWatch {
  import opened Common
  import opened GitObjects

  type Document = seq<(string, string)>

  /** The idle check: where the ref is, a credential refused for good, or any other failure. */
  datatype Check = At(commit: Oid) | RefusedForGood | CheckFailed

  /** The read that follows a moved ref: its own commit, which may be newer than the check's. */
  datatype Read = ReadAt(commit: Oid, document: Document) | ReadFailed

  datatype Tick = Tick(check: Check, read: Read, refuses: bool)

  datatype Ending = Auth | Callback

  datatype Delivery = Delivery(commit: Oid, document: Document)

  /** `seen` is the loop's variable; `delivered` is what the callback has had, and `ended` why it stopped. */
  datatype Watch = Watch(seen: Option<Oid>, delivered: seq<Delivery>, ended: Option<Ending>)

  const Begin := Watch(None, [], None)

  function Step(w: Watch, tick: Tick): Watch {
    match tick.check
    case CheckFailed => w
    case RefusedForGood => w.(ended := Some(Auth))
    case At(commit) =>
      if w.seen.None? then w.(seen := Some(commit))
      else if w.seen == Some(commit) || tick.read.ReadFailed? then w
      else Watch(Some(tick.read.commit), w.delivered + [Delivery(tick.read.commit, tick.read.document)],
                 if tick.refuses then Some(Callback) else None)
  }

  function Run(w: Watch, ticks: seq<Tick>): Watch
    decreases |ticks|
  {
    if ticks == [] || w.ended.Some? then w else Run(Step(w, ticks[0]), ticks[1..])
  }

  // ---------------------------------------------------------------------------------------------
  // Where a watch stands

  /** The commit of the first answered check. */
  function FirstSeen(ticks: seq<Tick>): Option<Oid> {
    if ticks == [] then None
    else if ticks[0].check.At? then Some(ticks[0].check.commit)
    else if ticks[0].check.RefusedForGood? then None
    else FirstSeen(ticks[1..])
  }

  /** What `seen` is: the commit last delivered, or `first` before any delivery. */
  ghost predicate SeenIs(w: Watch, first: Option<Oid>) {
    w.seen == if w.delivered == [] then first else Some(Last(w.delivered).commit)
  }

  lemma {:induction false} RunSeen(w: Watch, ticks: seq<Tick>)
    requires w.seen.Some? && SeenIs(w, w.seen)
    ensures Run(w, ticks).seen.Some? && w.delivered <= Run(w, ticks).delivered
    ensures SeenIs(Run(w, ticks), w.seen)
    decreases |ticks|
  {
    if ticks != [] && w.ended.None? {
      RunSeen(Step(w, ticks[0]), ticks[1..]);
    }
  }

  lemma {:induction false} RunSnoc(w: Watch, ticks: seq<Tick>, tick: Tick)
    ensures Run(w, ticks + [tick]) == if Run(w, ticks).ended.Some? then Run(w, ticks) else Step(Run(w, ticks), tick)
    decreases |ticks|
  {
    if ticks == [] {
      assert ([] + [tick])[1..] == [];
    } else {
      assert (ticks + [tick])[0] == ticks[0] && (ticks + [tick])[1..] == ticks[1..] + [tick];
      RunSnoc(Step(w, ticks[0]), ticks[1..], tick);
    }
  }

  /** In every run `seen` is the commit last delivered, or the first one answered before any delivery. A tick of
      a running watch whose check names `c` and whose read, if one is due, succeeds leaves the caller at `c` or
      at what was read; one whose read fails, or that is not answered, leaves no trace, so that the change is
      found again by the next tick. */
  lemma CaughtUp(ticks: seq<Tick>, tick: Tick)
    requires Run(Begin, ticks).ended.None?
    ensures SeenIs(Run(Begin, ticks), FirstSeen(ticks))
    ensures var w, w' := Run(Begin, ticks), Run(Begin, ticks + [tick]);
      && (tick.check.At? && tick.read.ReadAt? ==>
            || w'.seen == Some(tick.check.commit)
            || (w'.delivered != [] && w'.seen == Some(tick.read.commit) == Some(Last(w'.delivered).commit)))
      && (tick.check.CheckFailed? || (tick.read.ReadFailed? && w.seen.Some? && tick.check.At?) ==> w' == w)
  {
    RunFromBegin(ticks);
    RunSnoc(Begin, ticks, tick);
  }

  /** The callback is handed something by the tick, and refuses it. */
  predicate Refuses(seen: Option<Oid>, tick: Tick) {
    tick.check.At? && seen.Some? && seen.value != tick.check.commit && tick.read.ReadAt? && tick.refuses
  }

  /** A running watch is ended by a tick exactly when a credential is refused for good, whatever was seen, or the
      callback refuses what the tick delivers. */
  lemma EndsExactly(ticks: seq<Tick>, tick: Tick)
    requires Run(Begin, ticks).ended.None?
    ensures var ended := Run(Begin, ticks + [tick]).ended;
      && (ended == Some(Auth) <==> tick.check.RefusedForGood?)
      && (ended == Some(Callback) <==> Refuses(Run(Begin, ticks).seen, tick))
  {
    RunSnoc(Begin, ticks, tick);
  }

  /** So over whole runs: a watch has ended exactly when some tick ended it, and the first to do so says why. */
  lemma {:induction false} EndedIff(ticks: seq<Tick>)
    ensures Run(Begin, ticks).ended == Some(Auth) <==> exists i :: EndedAt(ticks, i, Auth)
    ensures Run(Begin, ticks).ended == Some(Callback) <==> exists i :: EndedAt(ticks, i, Callback)
    decreases |ticks|
  {
    if ticks != [] {
      var before, tick := ticks[..|ticks| - 1], Last(ticks);
      assert ticks == before + [tick];
      EndedIff(before);
      RunSnoc(Begin, before, tick);
      forall i: nat, why: Ending | i < |before|
        ensures EndedAt(ticks, i, why) <==> EndedAt(before, i, why)
      {
        assert ticks[..i] == before[..i];
      }
      assert forall why :: EndedAt(ticks, |before|, why) <==>
        Run(Begin, before).ended.None? && Step(Run(Begin, before), tick).ended == Some(why);
    }
  }

  /** Tick `i` is the one that ended the watch, and this is why. */
  ghost predicate EndedAt(ticks: seq<Tick>, i: nat, why: Ending) {
    && i < |ticks| && Run(Begin, ticks[..i]).ended.None?
    && if why.Auth? then ticks[i].check.RefusedForGood? else Refuses(Run(Begin, ticks[..i]).seen, ticks[i])
  }

  lemma {:induction false} RunFromBegin(ticks: seq<Tick>)
    ensures SeenIs(Run(Begin, ticks), FirstSeen(ticks))
  {
    if ticks != [] {
      match ticks[0].check {
        case CheckFailed => RunFromBegin(ticks[1..]);
        case RefusedForGood =>
        case At(_) => RunSeen(Step(Begin, ticks[0]), ticks[1..]);
      }
    }
  }

  // ---------------------------------------------------------------------------------------------
  // Against a ref's history

  /** The ticks were answered by a ref that went through `history`: each answer names where the ref was at
      some moment, no answer is about an earlier moment than the one before it, and none about a moment
      before `from`. */
  ghost predicate Follows(history: seq<Oid>, from: nat, ticks: seq<Tick>)
    decreases |ticks|
  {
    ticks == [] ||
    exists i, j ::
      && from <= i <= j < |history|
      && (ticks[0].check.At? ==> history[i] == ticks[0].check.commit)
      && (ticks[0].read.ReadAt? ==> history[j] == ticks[0].read.commit)
      && Follows(history, j, ticks[1..])
  }

  /** The commit of the first answered check is not among the deliveries. */
  ghost predicate NeverFirst(ticks: seq<Tick>, delivered: seq<Delivery>) {
    forall k :: 0 <= k < |delivered| ==> FirstSeen(ticks) != Some(delivered[k].commit)
  }

  /** The moment of each delivery, in order, each after the moment `first`. */
  ghost predicate Advances(history: seq<Oid>, first: nat, moments: seq<nat>, delivered: seq<Delivery>) {
    && |moments| == |delivered|
    && (forall k :: 0 <= k < |moments| ==> first < moments[k] < |history|)
    && (forall k :: 0 <= k < |moments| ==> history[moments[k]] == delivered[k].commit)
    && (forall k, l :: 0 <= k < l < |moments| ==> moments[k] < moments[l])
  }

  /** Where the watch stands in the history: `seen` is the last delivery, or the first commit seen. */
  ghost predicate Placed(history: seq<Oid>, first: nat, moments: seq<nat>, w: Watch, from: nat) {
    && first < |history|
    && Advances(history, first, moments, w.delivered)
    && var last := if moments == [] then first else Last(moments);
       w.seen == Some(history[last]) && last <= from
  }

  /** One tick: a delivery is of a later moment than everything before it. */
  lemma StepAdvances(history: seq<Oid>, first: nat, moments: seq<nat>, w: Watch, from: nat, tick: Tick, i: nat, j: nat)
    requires Distinct(history) && Placed(history, first, moments, w, from)
    requires from <= i <= j < |history|
    requires tick.check.At? ==> history[i] == tick.check.commit
    requires tick.read.ReadAt? ==> history[j] == tick.read.commit
    ensures Placed(history, first, if Step(w, tick).delivered == w.delivered then moments else moments + [j], Step(w, tick), j)
  {
    var next := Step(w, tick);
    if next.delivered != w.delivered {
      var last := if moments == [] then first else Last(moments);
      assert i != last;
      OneMore(history, first, moments, w.delivered, j, Delivery(tick.read.commit, tick.read.document));
    }
  }

  lemma OneMore(history: seq<Oid>, first: nat, moments: seq<nat>, delivered: seq<Delivery>, j: nat, d: Delivery)
    requires Advances(history, first, moments, delivered)
    requires first < j < |history| && (moments != [] ==> Last(moments) < j) && history[j] == d.commit
    ensures Advances(history, first, moments + [j], delivered + [d])
  {
    assert forall k :: 0 <= k < |moments| ==> moments[k] <= Last(moments);
  }

  lemma {:induction false} RunAdvances(history: seq<Oid>, first: nat, moments: seq<nat>, w: Watch, from: nat,
                                       ticks: seq<Tick>) returns (moments': seq<nat>)
    requires Distinct(history) && Placed(history, first, moments, w, from) && Follows(history, from, ticks)
    ensures Advances(history, first, moments', Run(w, ticks).delivered)
    decreases |ticks|
  {
    moments' := moments;
    if ticks != [] && w.ended.None? {
      var i, j :|
        && from <= i <= j < |history|
        && (ticks[0].check.At? ==> history[i] == ticks[0].check.commit)
        && (ticks[0].read.ReadAt? ==> history[j] == ticks[0].read.commit)
        && Follows(history, j, ticks[1..]);
      StepAdvances(history, first, moments, w, from, ticks[0], i, j);
      var next := Step(w, ticks[0]);
      moments' := RunAdvances(history, first, if next.delivered == w.delivered then moments else moments + [j],
                              next, j, ticks[1..]);
    }
  }

  /** On a ref that never revisits a commit, the delivered commits strictly advance along its history: each
      is delivered at most once, and the first one seen never is. */
  lemma {:induction false} DeliveriesAdvance(history: seq<Oid>, from: nat, ticks: seq<Tick>)
    returns (first: nat, moments: seq<nat>)
    requires Distinct(history) && from < |history| && Follows(history, from, ticks)
    ensures Advances(history, first, moments, Run(Begin, ticks).delivered)
    ensures first < |history| && (FirstSeen(ticks).Some? ==> FirstSeen(ticks) == Some(history[first]))
    ensures NeverFirst(ticks, Run(Begin, ticks).delivered)
    decreases |ticks|
  {
    first, moments := from, [];
    if ticks != [] {
      var i, j :|
        && from <= i <= j < |history|
        && (ticks[0].check.At? ==> history[i] == ticks[0].check.commit)
        && (ticks[0].read.ReadAt? ==> history[j] == ticks[0].read.commit)
        && Follows(history, j, ticks[1..]);
      if ticks[0].check.At? {
        first := i;
        moments := RunAdvances(history, i, [], Step(Begin, ticks[0]), j, ticks[1..]);
      } else if ticks[0].check.CheckFailed? {
        first, moments := DeliveriesAdvance(history, j, ticks[1..]);
      }
    }
  }
}
