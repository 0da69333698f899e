/**
 Every interleaving of stores, polls and wakes on one `ConfigCell`.

 A critical section of the source is one step; `store` is install, bump and one step per drained
 waker; a poll is up to five steps. Each handle has its own waker, named like its task. Wakes
 from elsewhere, spurious polls and futures dropped between two polls are steps as well.
 */
module EmbeddedRuns {
  import opened Common
  import opened EmbeddedNotify

  type Task = Waker
  type Call = nat
  type Value = string

  /** Where a handle is. A future between two polls is `Parked` once a poll returned `Pending`. */
  datatype Phase =
    | Resting
    | FirstCheck
    | FirstGet
    | Registering
    | Evicting(victim: Task)
    | SecondCheck
    | SecondGet
    | Parked

  /** A configuration handed to a handle: the value, and which install it came from (from 1). */
  datatype Receipt = Receipt(value: Value, ordinal: nat)

  /** `seen` is the program's; the other numbers are history, counted in bumps: when the handle was
      made, when its `seen` was last set, and when it last read the generation. */
  datatype Handle = Handle(
    seen: nat,
    phase: Phase,
    scheduled: bool,
    createdAt: nat,
    seenAt: nat,
    readAt: nat,
    results: seq<Receipt>)

  /** A `store` in progress: installed but not bumped, or bumped with wakers still to wake. */
  datatype StoreCall = Installed(ordinal: nat) | Waking(batch: seq<Task>)

  /** `shared`, `cell`, `tasks` and `stores` are the program's; the rest is history: all installed
      values, all bumps, all displacements, and the wakers registered and displacements made since
      the last bump. */
  datatype System = System(
    shared: Shared,
    cell: Option<Value>,
    tasks: map<Task, Handle>,
    stores: map<Call, StoreCall>,
    installed: seq<Value>,
    bumps: nat,
    displaced: nat,
    registrants: set<Task>,
    displacedSince: nat)

  function Initial(waiters: nat): System {
    System(Shared(0, 0, waiters, []), None, map[], map[], [], 0, 0, {}, 0)
  }

  datatype Step =
    | NewHandle(task: Task)
    | Schedule(task: Task)
    | BeginPoll(task: Task)
    | Abandon(task: Task)
    | ReadGeneration(task: Task)
    | GetValue(task: Task)
    | Register(task: Task)
    | WakeEvicted(task: Task)
    | Install(call: Call, value: Value)
    | Bump(call: Call)
    | WakeNext(call: Call)
    | Finish(call: Call)

  predicate Enabled(s: System, step: Step) {
    match step
    case NewHandle(t) => t !in s.tasks
    case Schedule(t) => t in s.tasks
    case BeginPoll(t) => t in s.tasks && s.tasks[t].phase in {Resting, Parked}
    case Abandon(t) => t in s.tasks && s.tasks[t].phase == Parked
    case ReadGeneration(t) => t in s.tasks && s.tasks[t].phase in {FirstCheck, SecondCheck}
    case GetValue(t) => t in s.tasks && s.tasks[t].phase in {FirstGet, SecondGet}
    case Register(t) => t in s.tasks && s.tasks[t].phase == Registering
    case WakeEvicted(t) => t in s.tasks && s.tasks[t].phase.Evicting?
    case Install(c, _) => c !in s.stores
    case Bump(c) => c in s.stores && s.stores[c].Installed?
    case WakeNext(c) => c in s.stores && s.stores[c].Waking? && s.stores[c].batch != []
    case Finish(c) => c in s.stores && s.stores[c].Waking? && s.stores[c].batch == []
  }

  function Woken(tasks: map<Task, Handle>, t: Task): map<Task, Handle> {
    if t in tasks then tasks[t := tasks[t].(scheduled := true)] else tasks
  }

  /** A generation read inside `take`: nothing new, or `seen` moves and the value is to be fetched. */
  function AfterRead(s: System, h: Handle): Handle {
    var read := h.(readAt := s.bumps);
    if s.shared.generation == h.seen
    then read.(phase := if h.phase == FirstCheck then Registering else Parked)
    else read.(seen := s.shared.generation, seenAt := s.bumps,
               phase := if h.phase == FirstCheck then FirstGet else SecondGet)
  }

  /** The `get` inside `take`: an empty cell makes `take` answer `None`, as a stale generation does. */
  function AfterGet(s: System, h: Handle): Handle {
    match s.cell
    case Some(v) => h.(phase := Resting, results := h.results + [Receipt(v, |s.installed|)])
    case None => h.(phase := if h.phase == FirstGet then Registering else Parked)
  }

  function AfterRegister(s: System, t: Task): System
    requires Enabled(s, Register(t))
  {
    var evicted := Evicted(s.shared, t);
    var phase := if evicted.Some? then Evicting(evicted.value) else SecondCheck;
    var more := if evicted.Some? then 1 else 0;
    s.(shared := Registered(s.shared, t), tasks := s.tasks[t := s.tasks[t].(phase := phase)],
       displaced := s.displaced + more,
       registrants := s.registrants + {t},
       displacedSince := s.displacedSince + more)
  }

  function AfterBump(s: System, c: Call): System
    requires Enabled(s, Bump(c))
  {
    s.(shared := Bumped(s.shared), stores := s.stores[c := Waking(s.shared.parked)],
       bumps := s.bumps + 1, registrants := {}, displacedSince := 0)
  }

  function After(s: System, step: Step): System
    requires Enabled(s, step)
  {
    match step
    case NewHandle(t) =>
      s.(tasks := s.tasks[t := Handle(s.shared.generation, Resting, false, s.bumps, s.bumps, s.bumps, [])])
    case Schedule(t) => s.(tasks := Woken(s.tasks, t))
    case BeginPoll(t) => s.(tasks := s.tasks[t := s.tasks[t].(phase := FirstCheck, scheduled := false)])
    case Abandon(t) => s.(tasks := s.tasks[t := s.tasks[t].(phase := Resting)])
    case ReadGeneration(t) => s.(tasks := s.tasks[t := AfterRead(s, s.tasks[t])])
    case GetValue(t) => s.(tasks := s.tasks[t := AfterGet(s, s.tasks[t])])
    case Register(t) => AfterRegister(s, t)
    case WakeEvicted(t) =>
      var woken := Woken(s.tasks, s.tasks[t].phase.victim);
      s.(tasks := woken[t := woken[t].(phase := SecondCheck)])
    case Install(c, v) =>
      s.(cell := Some(v), installed := s.installed + [v], stores := s.stores[c := Installed(|s.installed| + 1)])
    case Bump(c) => AfterBump(s, c)
    case WakeNext(c) =>
      var batch := s.stores[c].batch;
      s.(tasks := Woken(s.tasks, batch[0]), stores := s.stores[c := Waking(batch[1..])])
    case Finish(c) => s.(stores := s.stores - {c})
  }

  /** A run of a cell with `waiters` slots, as the states it goes through. */
  ghost predicate IsRun(waiters: nat, run: seq<System>) {
    && run != []
    && run[0] == Initial(waiters)
    && forall i :: 0 <= i < |run| - 1 ==> StepAt(run, i)
  }

  ghost predicate StepAt(run: seq<System>, i: nat)
    requires i + 1 < |run|
  {
    Next(run[i], run[i + 1])
  }

  ghost predicate Next(s: System, s': System) {
    exists step :: Enabled(s, step) && s' == After(s, step)
  }

  // ---------------------------------------------------------------------------------------------
  // The invariant

  /** A wake for `t` is owed by a bump or by a registration that displaced it. */
  ghost predicate InFlight(s: System, t: Task) {
    || (exists c :: c in s.stores && s.stores[c].Waking? && t in s.stores[c].batch)
    || (exists p :: p in s.tasks && s.tasks[p].phase == Evicting(t))
  }

  function Unbumped(s: System): set<Call> {
    set c | c in s.stores && s.stores[c].Installed?
  }

  ghost predicate SlotsOk(waiters: nat, s: System) {
    && WellFormed(s.shared)
    && s.shared.slots == waiters
    && (forall t :: t in s.shared.parked ==> t in s.tasks && t in s.registrants)
    && s.shared.generation == s.bumps % U32
    && s.shared.evictions == (if s.displaced < U32 then s.displaced else U32 - 1)
    && (s.displacedSince == 0 ==>
          |s.registrants| == |s.shared.parked| && forall t :: t in s.registrants ==> t in s.shared.parked)
    && (0 < s.displacedSince ==> waiters < |s.registrants|)
  }

  ghost predicate StoresOk(s: System) {
    && s.cell == (if s.installed == [] then None else Some(Last(s.installed)))
    && s.bumps + |Unbumped(s)| == |s.installed|
  }

  ghost predicate Getting(h: Handle) {
    h.phase == FirstGet || h.phase == SecondGet
  }

  ghost predicate ReceiptOk(installed: seq<Value>, r: Receipt) {
    1 <= r.ordinal <= |installed| && r.value == installed[r.ordinal - 1]
  }

  /** A handle against the values installed and the bumps made so far. */
  ghost predicate HandleOk(installed: seq<Value>, bumps: nat, h: Handle) {
    && h.seen == h.seenAt % U32
    && h.createdAt <= h.seenAt <= h.readAt <= bumps
    && (forall i :: 0 <= i < |h.results| ==> ReceiptOk(installed, h.results[i]))
    && (forall i, j :: 0 <= i <= j < |h.results| ==> h.results[i].ordinal <= h.results[j].ordinal)
    && (Getting(h) ==> 0 < h.seenAt)
    && (!Getting(h) && h.results == [] ==> h.seenAt == h.createdAt)
    && (!Getting(h) && h.results != [] ==> h.seenAt <= Last(h.results).ordinal)
    && (h.phase == Parked ==> h.seen == h.readAt % U32)
  }

  ghost predicate WakeOk(s: System, t: Task)
    requires t in s.tasks
  {
    var h := s.tasks[t];
    && (h.phase == SecondCheck || h.phase.Evicting? || h.phase == Parked ==>
          h.scheduled || InFlight(s, t) || t in s.shared.parked)
    && (h.phase == Parked && t in s.shared.parked ==> h.readAt == s.bumps)
  }

  ghost predicate Inv(waiters: nat, s: System) {
    && SlotsOk(waiters, s)
    && StoresOk(s)
    && HandlesOk(s.installed, s.bumps, s.tasks)
    && (forall t :: t in s.tasks ==> WakeOk(s, t))
  }

  lemma InitialInv(waiters: nat)
    requires 0 < waiters
    ensures Inv(waiters, Initial(waiters))
  {
    assert Unbumped(Initial(waiters)) == {};
  }

  /** A wake still owed in `s` is owed in `s'` when no owing call or poll moved. */
  lemma FlightsStay(s: System, s': System)
    requires forall c :: c in s.stores && s.stores[c].Waking? ==> c in s'.stores && s'.stores[c] == s.stores[c]
    requires forall p :: p in s.tasks && s.tasks[p].phase.Evicting? ==>
      p in s'.tasks && s'.tasks[p].phase == s.tasks[p].phase
    ensures forall t :: InFlight(s, t) ==> InFlight(s', t)
  {
  }

  /** Handles are not what the slots and the stores are about. */
  lemma TasksFrame(waiters: nat, s: System, tasks: map<Task, Handle>)
    requires SlotsOk(waiters, s) && StoresOk(s)
    requires forall t :: t in s.tasks ==> t in tasks
    ensures SlotsOk(waiters, s.(tasks := tasks)) && StoresOk(s.(tasks := tasks))
  {
    assert Unbumped(s.(tasks := tasks)) == Unbumped(s);
  }

  ghost predicate HandlesOk(installed: seq<Value>, bumps: nat, tasks: map<Task, Handle>) {
    forall t :: t in tasks ==> HandleOk(installed, bumps, tasks[t])
  }

  lemma HandleSet(installed: seq<Value>, bumps: nat, tasks: map<Task, Handle>, t: Task, h: Handle)
    requires HandlesOk(installed, bumps, tasks) && HandleOk(installed, bumps, h)
    ensures HandlesOk(installed, bumps, tasks[t := h])
  {
  }

  /** A poll between its two checks holds no value yet and has answered nothing. */
  lemma HandleMoved(installed: seq<Value>, bumps: nat, h: Handle, phase: Phase, scheduled: bool)
    requires HandleOk(installed, bumps, h)
    requires phase == h.phase || (!Getting(h) && (phase.Evicting? || phase == SecondCheck))
    ensures HandleOk(installed, bumps, h.(phase := phase, scheduled := scheduled))
  {
  }

  /** Steps that touch nothing but one handle, in a way that leaves it sound. */
  lemma OneHandle(waiters: nat, s: System, t: Task, h: Handle)
    requires Inv(waiters, s)
    requires t in s.tasks ==> !s.tasks[t].phase.Evicting?
    requires HandleOk(s.installed, s.bumps, h)
    requires var s' := s.(tasks := s.tasks[t := h]); WakeOk(s', t)
    ensures Inv(waiters, s.(tasks := s.tasks[t := h]))
  {
    var s' := s.(tasks := s.tasks[t := h]);
    FlightsStay(s, s');
    TasksFrame(waiters, s, s'.tasks);
    HandleSet(s.installed, s.bumps, s.tasks, t, h);
    forall u | u in s'.tasks
      ensures WakeOk(s', u)
    {
      assert u != t ==> WakeOk(s, u);
    }
  }

  lemma ReadHandle(s: System, h: Handle)
    requires HandleOk(s.installed, s.bumps, h) && s.shared.generation == s.bumps % U32
    requires h.phase == FirstCheck || h.phase == SecondCheck
    ensures HandleOk(s.installed, s.bumps, AfterRead(s, h))
  {
  }

  lemma ReadKeeps(waiters: nat, s: System, t: Task)
    requires Inv(waiters, s) && Enabled(s, ReadGeneration(t))
    ensures Inv(waiters, After(s, ReadGeneration(t)))
  {
    var s' := After(s, ReadGeneration(t));
    ReadHandle(s, s.tasks[t]);
    assert WakeOk(s, t);
    FlightsStay(s, s');
    OneHandle(waiters, s, t, AfterRead(s, s.tasks[t]));
  }

  lemma GetKeeps(waiters: nat, s: System, t: Task)
    requires Inv(waiters, s) && Enabled(s, GetValue(t))
    ensures Inv(waiters, After(s, GetValue(t)))
  {
    var h := s.tasks[t];
    assert HandleOk(s.installed, s.bumps, h);
    OneHandle(waiters, s, t, AfterGet(s, h));
  }

  /** A wake takes nobody's wake away. */
  lemma WokenWakes(s: System, t: Task, u: Task)
    requires u in s.tasks && WakeOk(s, u)
    ensures WakeOk(s.(tasks := Woken(s.tasks, t)), u)
  {
    FlightsStay(s, s.(tasks := Woken(s.tasks, t)));
  }

  lemma WokenKeeps(waiters: nat, s: System, t: Task)
    requires Inv(waiters, s)
    ensures Inv(waiters, s.(tasks := Woken(s.tasks, t)))
  {
    var s' := s.(tasks := Woken(s.tasks, t));
    TasksFrame(waiters, s, s'.tasks);
    if t in s.tasks {
      HandleMoved(s.installed, s.bumps, s.tasks[t], s.tasks[t].phase, true);
      HandleSet(s.installed, s.bumps, s.tasks, t, s'.tasks[t]);
    }
    forall u | u in s'.tasks
      ensures WakeOk(s', u)
    {
      WokenWakes(s, t, u);
    }
  }

  lemma PollKeeps(waiters: nat, s: System, step: Step)
    requires Inv(waiters, s) && Enabled(s, step)
    requires step.NewHandle? || step.BeginPoll? || step.Abandon?
    ensures Inv(waiters, After(s, step))
  {
    var t := step.task;
    var h := After(s, step).tasks[t];
    if t in s.tasks {
      assert HandleOk(s.installed, s.bumps, s.tasks[t]);
    }
    OneHandle(waiters, s, t, h);
  }

  /** Registrations since a bump against the slots: wakers only leave by being displaced, and the
      first displacement is made by a registrant too many. */
  lemma RegisterSlots(waiters: nat, s: System, t: Task)
    requires SlotsOk(waiters, s) && Enabled(s, Register(t))
    ensures SlotsOk(waiters, AfterRegister(s, t))
  {
    RegisterKeeps(s.shared, t);
    var s' := AfterRegister(s, t);
    if t in s.registrants {
      assert s'.registrants == s.registrants;
    } else {
      assert |s'.registrants| == |s.registrants| + 1;
    }
  }

  /** Whoever was owed a wake or parked before a registration still is afterwards. */
  lemma RegisterWakes(s: System, t: Task, u: Task)
    requires Enabled(s, Register(t)) && u in s.tasks && WellFormed(s.shared)
    requires WakeOk(s, u)
    ensures WakeOk(AfterRegister(s, t), u)
  {
    var s' := AfterRegister(s, t);
    RegisterKeeps(s.shared, t);
    FlightsStay(s, s');
    if Evicted(s.shared, t) == Some(u) {
      assert s'.tasks[t].phase == Evicting(u);
      assert InFlight(s', u);
    }
  }

  lemma RegisterInv(waiters: nat, s: System, t: Task)
    requires Inv(waiters, s) && Enabled(s, Register(t))
    ensures Inv(waiters, After(s, Register(t)))
  {
    var s' := AfterRegister(s, t);
    RegisterSlots(waiters, s, t);
    assert Unbumped(s') == Unbumped(s);
    HandleMoved(s.installed, s.bumps, s.tasks[t], s'.tasks[t].phase, s.tasks[t].scheduled);
    HandleSet(s.installed, s.bumps, s.tasks, t, s'.tasks[t]);
    forall u | u in s'.tasks
      ensures WakeOk(s', u)
    {
      RegisterWakes(s, t, u);
    }
  }

  lemma WakeEvictedKeeps(waiters: nat, s: System, t: Task)
    requires Inv(waiters, s) && Enabled(s, WakeEvicted(t))
    ensures Inv(waiters, After(s, WakeEvicted(t)))
  {
    var v := s.tasks[t].phase.victim;
    WokenKeeps(waiters, s, v);
    WakePaid(waiters, s.(tasks := Woken(s.tasks, v)), t);
  }

  /** Once the displaced task is scheduled, the poll that displaced it may move on. */
  lemma WakePaid(waiters: nat, s: System, t: Task)
    requires Inv(waiters, s) && t in s.tasks && s.tasks[t].phase.Evicting?
    requires var v := s.tasks[t].phase.victim; v in s.tasks ==> s.tasks[v].scheduled
    ensures Inv(waiters, s.(tasks := s.tasks[t := s.tasks[t].(phase := SecondCheck)]))
  {
    var s' := s.(tasks := s.tasks[t := s.tasks[t].(phase := SecondCheck)]);
    TasksFrame(waiters, s, s'.tasks);
    HandleMoved(s.installed, s.bumps, s.tasks[t], SecondCheck, s.tasks[t].scheduled);
    HandleSet(s.installed, s.bumps, s.tasks, t, s'.tasks[t]);
    forall u | u in s'.tasks
      ensures WakeOk(s', u)
    {
      WakePaidFor(s, t, u);
    }
  }

  lemma WakePaidFor(s: System, t: Task, u: Task)
    requires t in s.tasks && s.tasks[t].phase.Evicting?
    requires var v := s.tasks[t].phase.victim; v in s.tasks ==> s.tasks[v].scheduled
    requires u in s.tasks && WakeOk(s, u)
    ensures WakeOk(s.(tasks := s.tasks[t := s.tasks[t].(phase := SecondCheck)]), u)
  {
    if u != s.tasks[t].phase.victim && InFlight(s, u) {
      FlightSurvives(s, t, u);
    }
  }

  lemma FlightSurvives(s: System, t: Task, u: Task)
    requires t in s.tasks && s.tasks[t].phase.Evicting? && s.tasks[t].phase.victim != u
    requires InFlight(s, u)
    ensures InFlight(s.(tasks := s.tasks[t := s.tasks[t].(phase := SecondCheck)]), u)
  {
    var s' := s.(tasks := s.tasks[t := s.tasks[t].(phase := SecondCheck)]);
    if p :| p in s.tasks && s.tasks[p].phase == Evicting(u) {
      assert s'.tasks[p].phase == Evicting(u);
    }
  }

  lemma InstallKeeps(waiters: nat, s: System, c: Call, v: Value)
    requires Inv(waiters, s) && Enabled(s, Install(c, v))
    ensures Inv(waiters, After(s, Install(c, v)))
  {
    var s' := After(s, Install(c, v));
    FlightsStay(s, s');
    assert Unbumped(s') == Unbumped(s) + {c};
    forall u | u in s'.tasks
      ensures HandleOk(s'.installed, s'.bumps, s'.tasks[u]) && WakeOk(s', u)
    {
      assert HandleOk(s.installed, s.bumps, s.tasks[u]) && WakeOk(s, u);
      forall i | 0 <= i < |s.tasks[u].results|
        ensures ReceiptOk(s'.installed, s.tasks[u].results[i])
      {
        assert ReceiptOk(s.installed, s.tasks[u].results[i]);
      }
    }
  }

  lemma BumpKeeps(waiters: nat, s: System, c: Call)
    requires Inv(waiters, s) && Enabled(s, Bump(c))
    ensures Inv(waiters, After(s, Bump(c)))
  {
    var s' := After(s, Bump(c));
    FlightsStay(s, s');
    assert Unbumped(s) == Unbumped(s') + {c};
    forall u | u in s'.tasks
      ensures HandleOk(s'.installed, s'.bumps, s'.tasks[u]) && WakeOk(s', u)
    {
      assert HandleOk(s.installed, s.bumps, s.tasks[u]) && WakeOk(s, u);
      if u in s.shared.parked {
        assert u in s'.stores[c].batch;
        assert InFlight(s', u);
      }
      forall i | 0 <= i < |s.tasks[u].results|
        ensures ReceiptOk(s'.installed, s.tasks[u].results[i])
      {
        assert ReceiptOk(s.installed, s.tasks[u].results[i]);
      }
    }
  }

  /** Waking the next of a batch is a wake, after which the batch owes one waker less. */
  lemma WakeNextKeeps(waiters: nat, s: System, c: Call)
    requires Inv(waiters, s) && Enabled(s, WakeNext(c))
    ensures Inv(waiters, After(s, WakeNext(c)))
  {
    var v := s.stores[c].batch[0];
    WokenKeeps(waiters, s, v);
    BatchShrinks(waiters, s.(tasks := Woken(s.tasks, v)), c);
  }

  lemma BatchShrinks(waiters: nat, s: System, c: Call)
    requires Inv(waiters, s) && Enabled(s, WakeNext(c))
    requires var v := s.stores[c].batch[0]; v in s.tasks ==> s.tasks[v].scheduled
    ensures Inv(waiters, s.(stores := s.stores[c := Waking(s.stores[c].batch[1..])]))
  {
    var s' := s.(stores := s.stores[c := Waking(s.stores[c].batch[1..])]);
    assert Unbumped(s') == Unbumped(s);
    forall u | u in s'.tasks
      ensures WakeOk(s', u)
    {
      assert WakeOk(s, u);
      if u != s.stores[c].batch[0] && InFlight(s, u) {
        if d :| d in s.stores && s.stores[d].Waking? && u in s.stores[d].batch {
          assert u in s'.stores[d].batch;
        }
      }
    }
  }

  lemma FinishKeeps(waiters: nat, s: System, c: Call)
    requires Inv(waiters, s) && Enabled(s, Finish(c))
    ensures Inv(waiters, After(s, Finish(c)))
  {
    var s' := After(s, Finish(c));
    assert Unbumped(s') == Unbumped(s);
    forall u | u in s'.tasks
      ensures HandleOk(s'.installed, s'.bumps, s'.tasks[u]) && WakeOk(s', u)
    {
      assert HandleOk(s.installed, s.bumps, s.tasks[u]) && WakeOk(s, u);
      if InFlight(s, u) {
        if d :| d in s.stores && s.stores[d].Waking? && u in s.stores[d].batch {
          assert d in s'.stores;
        } else {
          var p :| p in s.tasks && s.tasks[p].phase == Evicting(u);
          assert s'.tasks[p].phase == Evicting(u);
        }
      }
    }
  }

  lemma StepKeeps(waiters: nat, s: System, step: Step)
    requires Inv(waiters, s) && Enabled(s, step)
    ensures Inv(waiters, After(s, step))
  {
    match step
    case NewHandle(t) => PollKeeps(waiters, s, step);
    case Schedule(t) => WokenKeeps(waiters, s, t);
    case BeginPoll(t) => PollKeeps(waiters, s, step);
    case Abandon(t) => PollKeeps(waiters, s, step);
    case ReadGeneration(t) => ReadKeeps(waiters, s, t);
    case GetValue(t) => GetKeeps(waiters, s, t);
    case Register(t) => RegisterInv(waiters, s, t);
    case WakeEvicted(t) => WakeEvictedKeeps(waiters, s, t);
    case Install(c, v) => InstallKeeps(waiters, s, c, v);
    case Bump(c) => BumpKeeps(waiters, s, c);
    case WakeNext(c) => WakeNextKeeps(waiters, s, c);
    case Finish(c) => FinishKeeps(waiters, s, c);
  }

  lemma {:induction false} RunInv(waiters: nat, run: seq<System>, i: nat)
    requires 0 < waiters && IsRun(waiters, run) && i < |run|
    ensures Inv(waiters, run[i])
  {
    if i == 0 {
      InitialInv(waiters);
    } else {
      RunInv(waiters, run, i - 1);
      assert StepAt(run, i - 1);
      var step :| Enabled(run[i - 1], step) && run[i] == After(run[i - 1], step);
      StepKeeps(waiters, run[i - 1], step);
    }
  }
}
