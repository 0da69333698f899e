/**
 When a handle's next configuration is sure to be a newer one.

 One handle's results never go back, but two of them in a row can be the same install: `take` reads the
 generation first and the value second, and a store that lands in between is fetched now and announced
 again later.
 */
module EmbeddedRepeats {
  import opened Common
  import opened EmbeddedNotify
  import opened EmbeddedRuns
  import opened EmbeddedTheorems

  /** The run's last step handed `t` a value. */
  ghost predicate JustTook(waiters: nat, run: seq<System>, t: Task) {
    && 0 < waiters && IsRun(waiters, run)
    && 2 <= |run|
    && Enabled(run[|run| - 2], GetValue(t))
    && Last(run) == After(run[|run| - 2], GetValue(t))
  }

  /** Which of the handle's results that was. */
  ghost function Given(waiters: nat, run: seq<System>, t: Task): nat
    requires JustTook(waiters, run, t)
  {
    |run[|run| - 2].tasks[t].results|
  }

  /** Every install has been announced, and the handle has seen the latest announcement. */
  ghost predicate NothingUnseen(s: System, t: Task) {
    t in s.tasks && Unbumped(s) == {} && s.shared.generation == s.tasks[t].seen
  }

  /** Result `n + 1`, once there is one, is of a later install than result `n`. */
  ghost predicate NextIsNewer(s: System, t: Task, n: nat) {
    t in s.tasks && n + 1 < |s.tasks[t].results| ==>
      s.tasks[t].results[n].ordinal < s.tasks[t].results[n + 1].ordinal
  }

  ghost predicate Continues(waiters: nat, run: seq<System>, longer: seq<System>) {
    IsRun(waiters, longer) && run <= longer
  }

  // ---------------------------------------------------------------------------------------------
  // With nothing unseen, the next result is newer

  /** Result `n` was of install `b`, when there were `b` bumps and the handle had seen the last of them.
      Until there is a further result, `seen` is either still what it was or has moved past `b`. */
  ghost predicate Awaits(s: System, t: Task, n: nat, b: nat) {
    && t in s.tasks && b <= s.bumps
    && var h := s.tasks[t];
       && n < |h.results| && h.results[n].ordinal == b
       && (|h.results| == n + 1 ==> if Getting(h) then b < h.seenAt else h.seen == b % U32)
       && (n + 1 < |h.results| ==> b < h.results[n + 1].ordinal)
  }

  lemma ReadAwaits(s: System, t: Task, n: nat, b: nat)
    requires Awaits(s, t, n, b) && Enabled(s, ReadGeneration(t)) && s.shared.generation == s.bumps % U32
    ensures Awaits(After(s, ReadGeneration(t)), t, n, b)
  {
    assert s.bumps == b ==> s.shared.generation == b % U32;
  }

  lemma GetAwaits(waiters: nat, s: System, t: Task, n: nat, b: nat)
    requires Inv(waiters, s) && Awaits(s, t, n, b) && Enabled(s, GetValue(t))
    ensures Awaits(After(s, GetValue(t)), t, n, b)
  {
    assert HandleOk(s.installed, s.bumps, s.tasks[t]);
    assert s.tasks[t].seenAt <= |s.installed|;
  }

  /** Any other step leaves what the handle has seen and been given. */
  lemma Elsewhere(s: System, step: Step, t: Task)
    requires Enabled(s, step) && t in s.tasks && step != ReadGeneration(t) && step != GetValue(t)
    ensures var s' := After(s, step);
      && t in s'.tasks && s.bumps <= s'.bumps
      && s'.tasks[t].results == s.tasks[t].results
      && s'.tasks[t].seen == s.tasks[t].seen && s'.tasks[t].seenAt == s.tasks[t].seenAt
      && Getting(s'.tasks[t]) == Getting(s.tasks[t])
  {
  }

  lemma StepAwaits(waiters: nat, s: System, step: Step, t: Task, n: nat, b: nat)
    requires Inv(waiters, s) && Enabled(s, step) && Awaits(s, t, n, b)
    ensures Awaits(After(s, step), t, n, b)
  {
    if step == ReadGeneration(t) {
      ReadAwaits(s, t, n, b);
    } else if step == GetValue(t) {
      GetAwaits(waiters, s, t, n, b);
    } else {
      Elsewhere(s, step, t);
    }
  }

  lemma NextAwaits(waiters: nat, run: seq<System>, i: nat, t: Task, n: nat, b: nat)
    requires 0 < waiters && IsRun(waiters, run) && i + 1 < |run| && Awaits(run[i], t, n, b)
    ensures Awaits(run[i + 1], t, n, b)
  {
    RunInv(waiters, run, i);
    assert StepAt(run, i);
    var step :| Enabled(run[i], step) && run[i + 1] == After(run[i], step);
    StepAwaits(waiters, run[i], step, t, n, b);
  }

  lemma RunAwaits(waiters: nat, run: seq<System>, i: nat, j: nat, t: Task, n: nat, b: nat)
    requires 0 < waiters && IsRun(waiters, run) && i <= j < |run| && Awaits(run[i], t, n, b)
    ensures Awaits(run[j], t, n, b)
  {
    var p := (k: nat) => k < |run| && Awaits(run[k], t, n, b);
    forall k | i <= k < j && p(k)
      ensures p(k + 1)
    {
      NextAwaits(waiters, run, k, t, n, b);
    }
    Along(p, i, j);
  }

  lemma NewerWhenNothingUnseen(waiters: nat, run: seq<System>, t: Task, longer: seq<System>)
    requires JustTook(waiters, run, t) && NothingUnseen(Last(run), t) && Continues(waiters, run, longer)
    ensures NextIsNewer(Last(longer), t, Given(waiters, run, t))
  {
    var s, i, n := Last(run), |run| - 1, Given(waiters, run, t);
    TakeIsFresh(waiters, run, i - 1, t);
    RunInv(waiters, run, i);
    assert longer[i] == s;
    assert Awaits(s, t, n, s.bumps);
    RunAwaits(waiters, longer, i, |longer| - 1, t, n, s.bumps);
  }

  // ---------------------------------------------------------------------------------------------
  // With something unseen, some continuation repeats the result

  lemma GoesOn(waiters: nat, run: seq<System>, step: Step) returns (longer: seq<System>)
    requires IsRun(waiters, run) && Enabled(Last(run), step)
    ensures Continues(waiters, run, longer) && longer == run + [After(Last(run), step)]
  {
    longer := run + [After(Last(run), step)];
    forall i | 0 <= i < |longer| - 1
      ensures StepAt(longer, i)
    {
      assert i < |run| - 1 ==> StepAt(run, i);
    }
  }

  /** A poll that finds a new generation runs to its result. */
  lemma TakenAgain(waiters: nat, run: seq<System>, t: Task) returns (longer: seq<System>)
    requires IsRun(waiters, run) && t in Last(run).tasks
    requires var s := Last(run);
      s.tasks[t].phase == Resting && s.tasks[t].seen != s.shared.generation && s.cell.Some?
    ensures Continues(waiters, run, longer) && t in Last(longer).tasks
    ensures Last(longer).tasks[t].results ==
      Last(run).tasks[t].results + [Receipt(Last(run).cell.value, |Last(run).installed|)]
  {
    var begun := GoesOn(waiters, run, BeginPoll(t));
    var checked := GoesOn(waiters, begun, ReadGeneration(t));
    longer := GoesOn(waiters, checked, GetValue(t));
  }

  lemma RepeatsWhenUnseen(waiters: nat, run: seq<System>, t: Task) returns (longer: seq<System>)
    requires JustTook(waiters, run, t) && !NothingUnseen(Last(run), t)
    ensures Continues(waiters, run, longer)
    ensures !NextIsNewer(Last(longer), t, Given(waiters, run, t))
  {
    var s := Last(run);
    TakeIsFresh(waiters, run, |run| - 2, t);
    RunInv(waiters, run, |run| - 1);
    if s.shared.generation != s.tasks[t].seen {
      longer := TakenAgain(waiters, run, t);
    } else {
      var c :| c in Unbumped(s);
      var announced := GoesOn(waiters, run, Bump(c));
      assert (s.bumps % U32 + 1) % U32 != s.bumps % U32;
      longer := TakenAgain(waiters, announced, t);
    }
  }

  /** The next result of a handle is sure to be newer than the one it was just given exactly when, at that
      moment, no store stands between installing and bumping and the generation is still the one seen. */
  lemma NextIsNewerIff(waiters: nat, run: seq<System>, t: Task)
    requires JustTook(waiters, run, t)
    ensures NothingUnseen(Last(run), t) <==>
      forall longer :: Continues(waiters, run, longer) ==> NextIsNewer(Last(longer), t, Given(waiters, run, t))
  {
    if NothingUnseen(Last(run), t) {
      forall longer | Continues(waiters, run, longer)
        ensures NextIsNewer(Last(longer), t, Given(waiters, run, t))
      {
        NewerWhenNothingUnseen(waiters, run, t, longer);
      }
    } else {
      var longer := RepeatsWhenUnseen(waiters, run, t);
    }
  }

  // ---------------------------------------------------------------------------------------------
  // One writer is enough

  ghost predicate OneStoreAtATime(run: seq<System>) {
    forall i :: 0 <= i < |run| ==> |run[i].stores| <= 1
  }

  lemma GoesOnAlone(waiters: nat, run: seq<System>, step: Step) returns (longer: seq<System>)
    requires IsRun(waiters, run) && Enabled(Last(run), step)
    requires OneStoreAtATime(run) && |After(Last(run), step).stores| <= 1
    ensures IsRun(waiters, longer) && OneStoreAtATime(longer) && Last(longer) == After(Last(run), step)
  {
    longer := GoesOn(waiters, run, step);
  }

  /** One store from beginning to end, by itself. */
  lemma StoreAlone(waiters: nat, run: seq<System>, v: Value) returns (longer: seq<System>)
    requires IsRun(waiters, run) && OneStoreAtATime(run)
    requires Last(run).stores == map[] && Last(run).shared.parked == []
    ensures IsRun(waiters, longer) && OneStoreAtATime(longer)
    ensures var s, s' := Last(run), Last(longer);
      s' == s.(cell := Some(v), installed := s.installed + [v], bumps := s.bumps + 1,
               shared := Bumped(s.shared), registrants := {}, displacedSince := 0)
  {
    var s := Last(run);
    var installed := GoesOnAlone(waiters, run, Install(0, v));
    var bumped := GoesOnAlone(waiters, installed, Bump(0));
    longer := GoesOnAlone(waiters, bumped, Finish(0));
    assert Last(longer).stores == map[];
  }

  /** Two stores, the second begun after the first has finished, between a handle's generation read and its
      fetch: the handle is given the second value twice. */
  lemma SameValueTwice(waiters: nat) returns (run: seq<System>)
    requires 0 < waiters
    ensures IsRun(waiters, run) && OneStoreAtATime(run)
    ensures 0 in Last(run).tasks
    ensures Last(run).tasks[0].results == [Receipt("second", 2), Receipt("second", 2)]
  {
    run := [Initial(waiters)];
    run := GoesOnAlone(waiters, run, NewHandle(0));
    run := StoreAlone(waiters, run, "first");
    run := GoesOnAlone(waiters, run, BeginPoll(0));
    run := GoesOnAlone(waiters, run, ReadGeneration(0));
    run := StoreAlone(waiters, run, "second");
    run := GoesOnAlone(waiters, run, GetValue(0));
    run := GoesOnAlone(waiters, run, BeginPoll(0));
    run := GoesOnAlone(waiters, run, ReadGeneration(0));
    run := GoesOnAlone(waiters, run, GetValue(0));
  }
}
