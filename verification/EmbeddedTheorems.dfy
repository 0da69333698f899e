/** What every run of a `ConfigCell` promises its tasks. */
module EmbeddedTheorems {
  import opened Common
  import opened EmbeddedNotify
  import opened EmbeddedRuns

  /** No lost wake-up. A task whose poll returned `Pending` is scheduled, is owed a wake by a call in
      progress, or sits in a slot; in a slot it has missed no bump since it last read the generation.
      So a task that nobody is about to run has nothing unseen. */
  lemma NoLostWakeUp(waiters: nat, run: seq<System>, i: nat, t: Task)
    requires 0 < waiters && IsRun(waiters, run) && i < |run|
    requires t in run[i].tasks && run[i].tasks[t].phase == Parked
    ensures var s := run[i]; var h := s.tasks[t];
      && (h.scheduled || InFlight(s, t) || t in s.shared.parked)
      && (t in s.shared.parked ==> h.readAt == s.bumps && h.seen == s.shared.generation)
      && (!h.scheduled && !InFlight(s, t) ==> h.seen == s.shared.generation)
  {
    RunInv(waiters, run, i);
    assert HandleOk(run[i].installed, run[i].bumps, run[i].tasks[t]) && WakeOk(run[i], t);
  }

  /** Nothing is running and nobody is about to: no store in progress, no poll in progress and no
      task scheduled. */
  ghost predicate AtRest(s: System) {
    && s.stores == map[]
    && forall t :: t in s.tasks ==> s.tasks[t].phase in {Resting, Parked} && !s.tasks[t].scheduled
  }

  function ParkedTasks(s: System): set<Task> {
    set t | t in s.tasks && s.tasks[t].phase == Parked
  }

  lemma RestMeansHeld(waiters: nat, s: System, t: Task)
    requires Inv(waiters, s) && AtRest(s) && t in ParkedTasks(s)
    ensures t in s.shared.parked
  {
    assert WakeOk(s, t);
    assert !InFlight(s, t) by {
      assert forall p :: p in s.tasks ==> s.tasks[p].phase != Evicting(t);
    }
  }

  /** A system at rest has parked no more tasks than it has slots: with more tasks than that waiting,
      it never comes to rest. */
  lemma IdleWithinBudget(waiters: nat, run: seq<System>, i: nat)
    requires 0 < waiters && IsRun(waiters, run) && i < |run|
    ensures AtRest(run[i]) ==> |ParkedTasks(run[i])| <= waiters
    ensures waiters < |ParkedTasks(run[i])| ==> !AtRest(run[i])
  {
    var s := run[i];
    RunInv(waiters, run, i);
    if AtRest(s) {
      forall t | t in ParkedTasks(s)
        ensures t in s.shared.parked
      {
        RestMeansHeld(waiters, s, t);
      }
      CoveredBySeq(ParkedTasks(s), s.shared.parked);
    }
  }

  lemma SameResidue(low: nat, high: nat)
    requires low <= high
    ensures low % U32 == high % U32 <==> (high - low) % U32 == 0
  {
    assert U32 == 0x1_0000_0000;
    assert low % 0x1_0000_0000 == high % 0x1_0000_0000 <==> (high - low) % 0x1_0000_0000 == 0;
  }

  /** A `take` finds nothing exactly when the bumps since it last moved `seen` are a multiple of
      2^32: a change is missed exactly when that multiple is not zero. */
  lemma MissedExactlyOnWrap(waiters: nat, run: seq<System>, i: nat, t: Task)
    requires 0 < waiters && IsRun(waiters, run) && i < |run|
    requires Enabled(run[i], ReadGeneration(t))
    ensures var s := run[i]; var h := s.tasks[t]; var unseen := s.bumps - h.seenAt;
      && 0 <= unseen
      && (!Getting(AfterRead(s, h)) <==> unseen % U32 == 0)
      && (!Getting(AfterRead(s, h)) && 0 < unseen ==> U32 <= unseen)
  {
    RunInv(waiters, run, i);
    var s := run[i];
    assert HandleOk(s.installed, s.bumps, s.tasks[t]);
    SameResidue(s.tasks[t].seenAt, s.bumps);
  }

  /** When `take` has moved `seen`, the cell holds a value; what it returns is the newest install,
      no older than any store that has bumped and than anything this handle returned before. */
  lemma TakeIsFresh(waiters: nat, run: seq<System>, i: nat, t: Task)
    requires 0 < waiters && IsRun(waiters, run) && i < |run|
    requires Enabled(run[i], GetValue(t))
    ensures var s := run[i]; var h := AfterGet(s, s.tasks[t]);
      && s.installed != [] && s.cell == Some(Last(s.installed))
      && h.phase == Resting
      && h.results == s.tasks[t].results + [Receipt(Last(s.installed), |s.installed|)]
      && s.tasks[t].seenAt <= s.bumps <= |s.installed|
      && forall r :: r in s.tasks[t].results ==> r.ordinal <= |s.installed|
  {
    RunInv(waiters, run, i);
    var s := run[i];
    assert HandleOk(s.installed, s.bumps, s.tasks[t]);
    forall r | r in s.tasks[t].results
      ensures r.ordinal <= |s.installed|
    {
      assert ReceiptOk(s.installed, r);
    }
  }

  /** One handle's results never go back in store order, and each is a value really installed. */
  lemma ResultsNeverGoBack(waiters: nat, run: seq<System>, i: nat, t: Task)
    requires 0 < waiters && IsRun(waiters, run) && i < |run|
    requires t in run[i].tasks
    ensures var s := run[i]; var results := s.tasks[t].results;
      && (forall j :: 0 <= j < |results| ==> ReceiptOk(s.installed, results[j]))
      && (forall j, k :: 0 <= j <= k < |results| ==> results[j].ordinal <= results[k].ordinal)
  {
    RunInv(waiters, run, i);
    assert HandleOk(run[i].installed, run[i].bumps, run[i].tasks[t]);
  }

  /** At rest every waiting handle is up to date: what it last returned is the configuration the cell
      holds, and one that has returned nothing was made after the last store. The one exception is a
      handle that slept through 2^32 bumps or more. */
  lemma SettledOnTheNewest(waiters: nat, run: seq<System>, i: nat, t: Task)
    requires 0 < waiters && IsRun(waiters, run) && i < |run|
    requires AtRest(run[i]) && t in ParkedTasks(run[i])
    requires run[i].bumps - run[i].tasks[t].seenAt < U32
    ensures var s := run[i]; var h := s.tasks[t];
      && s.bumps == |s.installed|
      && h.seenAt == s.bumps
      && (h.results == [] ==> h.createdAt == |s.installed|)
      && (h.results != [] ==> s.cell == Some(Last(h.results).value) && Last(h.results).ordinal == |s.installed|)
  {
    var s := run[i];
    var h := s.tasks[t];
    RunInv(waiters, run, i);
    assert HandleOk(s.installed, s.bumps, h) && WakeOk(s, t);
    RestMeansHeld(waiters, s, t);
    assert Unbumped(s) == {};
    SameResidue(h.seenAt, s.bumps);
    if h.results != [] {
      assert ReceiptOk(s.installed, h.results[|h.results| - 1]);
    }
  }

  /** The counter is the number of displacements, capped; and since the last bump somebody was
      displaced exactly when more distinct tasks registered than there are slots. */
  lemma EvictionsCountTheOverBudget(waiters: nat, run: seq<System>, i: nat)
    requires 0 < waiters && IsRun(waiters, run) && i < |run|
    ensures var s := run[i];
      && s.shared.evictions == (if s.displaced < U32 then s.displaced else U32 - 1)
      && (0 < s.displacedSince <==> waiters < |s.registrants|)
      && |s.shared.parked| <= waiters && Distinct(s.shared.parked)
  {
    RunInv(waiters, run, i);
  }

  // ---------------------------------------------------------------------------------------------
  // Runs that show what is not promised

  ghost predicate Reachable(waiters: nat, s: System) {
    exists run :: IsRun(waiters, run) && Last(run) == s
  }

  lemma ReachableNext(waiters: nat, s: System, step: Step)
    requires Reachable(waiters, s) && Enabled(s, step)
    ensures Reachable(waiters, After(s, step))
  {
    var run :| IsRun(waiters, run) && Last(run) == s;
    var longer := run + [After(s, step)];
    forall i | 0 <= i < |longer| - 1
      ensures StepAt(longer, i)
    {
      assert i < |run| - 1 ==> StepAt(run, i);
    }
    assert IsRun(waiters, longer) && Last(longer) == After(s, step);
  }

  lemma InitiallyReachable(waiters: nat)
    ensures Reachable(waiters, Initial(waiters))
  {
    assert IsRun(waiters, [Initial(waiters)]);
  }

  /** The first half of a poll that finds nothing new: up to the registration. */
  lemma UpToRegistering(waiters: nat, s: System, t: Task)
    requires Reachable(waiters, s)
    requires t in s.tasks && s.tasks[t].phase in {Resting, Parked} && s.tasks[t].seen == s.shared.generation
    ensures Reachable(waiters, s.(tasks := s.tasks[t := s.tasks[t].(
      phase := Registering, scheduled := false, readAt := s.bumps)]))
  {
    ReachableNext(waiters, s, BeginPoll(t));
    var s1 := After(s, BeginPoll(t));
    ReachableNext(waiters, s1, ReadGeneration(t));
    assert After(s1, ReadGeneration(t)).tasks ==
      s.tasks[t := s.tasks[t].(phase := Registering, scheduled := false, readAt := s.bumps)];
  }

  /** The second half: from the registration's outcome to `Pending`. */
  lemma FromRegistered(waiters: nat, s: System, t: Task)
    requires Reachable(waiters, s)
    requires t in s.tasks && s.tasks[t].seen == s.shared.generation && s.tasks[t].readAt == s.bumps
    requires s.tasks[t].phase == SecondCheck || (s.tasks[t].phase.Evicting? && s.tasks[t].phase.victim != t)
    ensures var tasks := if s.tasks[t].phase.Evicting? then Woken(s.tasks, s.tasks[t].phase.victim) else s.tasks;
      Reachable(waiters, s.(tasks := tasks[t := s.tasks[t].(phase := Parked)]))
  {
    var s1 := s;
    if s.tasks[t].phase.Evicting? {
      ReachableNext(waiters, s, WakeEvicted(t));
      s1 := After(s, WakeEvicted(t));
    }
    ReachableNext(waiters, s1, ReadGeneration(t));
    var s2 := After(s1, ReadGeneration(t));
    var tasks := if s.tasks[t].phase.Evicting? then Woken(s.tasks, s.tasks[t].phase.victim) else s.tasks;
    assert s2.tasks == tasks[t := s.tasks[t].(phase := Parked)];
  }

  lemma RegisterOutcome(waiters: nat, s: System, t: Task) returns (s': System, evicted: Option<Task>)
    requires Reachable(waiters, s) && Enabled(s, Register(t)) && WellFormed(s.shared)
    ensures Reachable(waiters, s')
    ensures s'.shared == Registered(s.shared, t) && evicted == Evicted(s.shared, t)
    ensures evicted != Some(t)
    ensures s'.tasks == s.tasks[t := s.tasks[t].(
      phase := if evicted.Some? then Evicting(evicted.value) else SecondCheck)]
    ensures s'.displaced == s.displaced + if evicted.Some? then 1 else 0
    ensures s'.bumps == s.bumps && s'.stores == s.stores
  {
    RegisterKeeps(s.shared, t);
    ReachableNext(waiters, s, Register(t));
    s' := AfterRegister(s, t);
    evicted := Evicted(s.shared, t);
  }

  /** One whole undisturbed poll by `t` that finds nothing new: `t` is parked in a slot, and whoever
      it displaced is scheduled. */
  lemma PollOnce(waiters: nat, s: System, t: Task) returns (s': System, evicted: Option<Task>)
    requires Reachable(waiters, s) && WellFormed(s.shared)
    requires t in s.tasks && s.tasks[t].phase in {Resting, Parked} && s.tasks[t].seen == s.shared.generation
    ensures Reachable(waiters, s')
    ensures s'.shared == Registered(s.shared, t) && evicted == Evicted(s.shared, t)
    ensures s'.tasks.Keys == s.tasks.Keys
    ensures s'.tasks[t] == s.tasks[t].(phase := Parked, scheduled := false, readAt := s.bumps)
    ensures forall u :: u in s.tasks && u != t ==>
      s'.tasks[u] == if evicted == Some(u) then s.tasks[u].(scheduled := true) else s.tasks[u]
    ensures s'.displaced == s.displaced + if evicted.Some? then 1 else 0
    ensures s'.bumps == s.bumps && s'.stores == s.stores
  {
    UpToRegistering(waiters, s, t);
    var s1 := s.(tasks := s.tasks[t := s.tasks[t].(phase := Registering, scheduled := false, readAt := s.bumps)]);
    var s2, out := RegisterOutcome(waiters, s1, t);
    FromRegistered(waiters, s2, t);
    evicted := out;
    var tasks := if evicted.Some? then Woken(s2.tasks, evicted.value) else s2.tasks;
    s' := s2.(tasks := tasks[t := s2.tasks[t].(phase := Parked)]);
  }

  /** Nothing was ever stored, and tasks `0 .. n` exist, each parked with nothing to see. */
  ghost predicate Quiet(waiters: nat, s: System, n: nat) {
    && s.bumps == 0 && s.stores == map[] && s.shared.generation == 0
    && WellFormed(s.shared) && s.shared.slots == waiters
    && (forall t: nat :: t in s.tasks <==> t < n)
    && (forall t :: t in s.tasks ==> s.tasks[t].phase == Parked && s.tasks[t].seen == 0)
    && (forall t :: t in s.shared.parked ==> t < n)
  }

  lemma Newcomer(waiters: nat, s: System, t: Task) returns (s': System)
    requires Reachable(waiters, s) && t !in s.tasks
    ensures Reachable(waiters, s')
    ensures s'.shared == s.shared && s'.bumps == s.bumps && s'.stores == s.stores && s'.displaced == s.displaced
    ensures forall u :: u in s'.tasks <==> u in s.tasks || u == t
    ensures s'.tasks[t] == Handle(s.shared.generation, Resting, false, s.bumps, s.bumps, s.bumps, [])
    ensures forall u :: u in s.tasks ==> s'.tasks[u] == s.tasks[u]
  {
    ReachableNext(waiters, s, NewHandle(t));
    s' := After(s, NewHandle(t));
  }

  /** A further task arrives and is polled once. */
  lemma Arrive(waiters: nat, s: System, n: nat) returns (s': System, evicted: Option<Task>)
    requires Reachable(waiters, s) && Quiet(waiters, s, n)
    ensures Reachable(waiters, s') && Quiet(waiters, s', n + 1)
    ensures s'.shared == Registered(s.shared, n) && evicted == Evicted(s.shared, n)
    ensures evicted.Some? ==> evicted.value in s'.tasks && s'.tasks[evicted.value].scheduled
    ensures s'.displaced == s.displaced + if evicted.Some? then 1 else 0
  {
    var s1 := Newcomer(waiters, s, n);
    RegisterKeeps(s.shared, n);
    s', evicted := PollOnce(waiters, s1, n);
  }

  /** Tasks `0 .. k` wait in the first `k` slots. */
  lemma {:induction false} Fill(waiters: nat, k: nat) returns (s: System)
    requires 0 < waiters && k <= waiters
    ensures Reachable(waiters, s) && Quiet(waiters, s, k)
    ensures |s.shared.parked| == k
  {
    if k == 0 {
      InitiallyReachable(waiters);
      s := Initial(waiters);
    } else {
      var before := Fill(waiters, k - 1);
      var after, evicted := Arrive(waiters, before, k - 1);
      s := after;
    }
  }

  /** One task too many: every task is parked and unsatisfied, the slots are full, and whoever is
      without a slot is scheduled. */
  ghost predicate Standoff(waiters: nat, s: System, out: Task) {
    && Reachable(waiters, s)
    && Quiet(waiters, s, waiters + 1)
    && |s.shared.parked| == waiters
    && out in s.tasks && out !in s.shared.parked && s.tasks[out].scheduled
  }

  lemma StandoffGoesOn(waiters: nat, s: System, out: Task) returns (s': System, out': Task)
    requires Standoff(waiters, s, out)
    ensures Standoff(waiters, s', out')
    ensures s'.displaced == s.displaced + 1
  {
    RegisterKeeps(s.shared, out);
    var next, evicted := PollOnce(waiters, s, out);
    s', out' := next, evicted.value;
  }

  /** The livelock is real for every number of slots: one task over budget, with no store at all, and
      tasks displace each other as often as anyone cares to watch. */
  lemma {:induction false} OverBudgetNeverSettles(waiters: nat, n: nat) returns (s: System, out: Task)
    requires 0 < waiters && 0 < n
    ensures Standoff(waiters, s, out)
    ensures n <= s.displaced
  {
    if n == 1 {
      var full := Fill(waiters, waiters);
      RegisterKeeps(full.shared, waiters);
      var after, evicted := Arrive(waiters, full, waiters);
      s, out := after, evicted.value;
    } else {
      var before, last := OverBudgetNeverSettles(waiters, n - 1);
      s, out := StandoffGoesOn(waiters, before, last);
    }
  }
}
