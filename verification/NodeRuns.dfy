/**
 Every interleaving of validations, commits, replacements and candidate loads on one configuration.

 A validation takes its sequence before it takes the list's lock; a commit takes an entry, claims its
 sequence, writes the cache and counts a generation in four separate steps; a replacement writes the
 cache and counts a generation in two.
 */
module NodeRuns {
  import opened Common
  import opened NodeStaging

  type Call = nat
  type Thread = nat

  /** How far a call has got. */
  datatype Pc =
    | Validated(entry: Staged)
    | Taken(entry: Staged)
    | Claimed(entry: Staged)
    | Written(entry: Staged)
    | Replaced

  /** Where the cached document came from. */
  datatype Origin = Nobody | Replacement | Validation(sequence: nat)

  /** `staged` to `candidates` are the program's; `candidates` holds the slot of every thread inside a
      candidate load. The rest is history: what each sequence validated, how many entries were pushed,
      the claims that won in order, the replacements begun, and who wrote the cache. */
  datatype System = System(
    staged: seq<Staged>,
    nextSequence: nat,
    lastCommitted: nat,
    generation: nat,
    cache: Option<Value>,
    calls: map<Call, Pc>,
    candidates: map<Thread, Value>,
    validations: seq<(Value, Value)>,
    pushes: nat,
    claims: seq<Staged>,
    replacements: seq<Value>,
    cacheFrom: Origin)

  const Initial := System([], 0, 0, 0, None, map[], map[], [], 0, [], [], Nobody)

  datatype Step =
    | Validate(call: Call, thread: Thread, tree: Value, model: Value)
    | Push(call: Call)
    | Commit(call: Call, tree: Value)
    | Claim(call: Call)
    | WriteCache(call: Call)
    | CountGeneration(call: Call)
    | Replace(call: Call, document: Value)
    | BeginCandidate(thread: Thread)
    | EndCandidate(thread: Thread)

  predicate Enabled(s: System, step: Step) {
    match step
    case Validate(c, _, _, _) => c !in s.calls
    case Push(c) => c in s.calls && s.calls[c].Validated?
    case Commit(c, _) => c !in s.calls
    case Claim(c) => c in s.calls && s.calls[c].Taken?
    case WriteCache(c) => c in s.calls && s.calls[c].Claimed?
    case CountGeneration(c) => c in s.calls && (s.calls[c].Written? || s.calls[c].Replaced?)
    case Replace(c, _) => c !in s.calls
    case BeginCandidate(t) => t !in s.candidates
    case EndCandidate(t) => t in s.candidates
  }

  /** Inside a candidate load the model goes to the thread's own slot and nowhere else. */
  function AfterValidate(s: System, c: Call, t: Thread, tree: Value, model: Value): System {
    if t in s.candidates then s.(candidates := s.candidates[t := model])
    else
      var sequence := s.nextSequence + 1;
      s.(nextSequence := sequence,
         calls := s.calls[c := Validated(Staged(sequence, tree, model, 0))],
         validations := s.validations + [(tree, model)])
  }

  function AfterPush(s: System, c: Call): System
    requires Enabled(s, Push(c))
  {
    s.(staged := Trimmed(s.staged + [s.calls[c].entry.(index := s.pushes)]),
       calls := s.calls - {c},
       pushes := s.pushes + 1)
  }

  function AfterCommit(s: System, c: Call, tree: Value): System {
    match Match(s.staged, tree)
    case None => s
    case Some(k) => s.(staged := Without(s.staged, k), calls := s.calls[c := Taken(s.staged[k])])
  }

  function AfterClaim(s: System, c: Call): System
    requires Enabled(s, Claim(c))
  {
    var entry := s.calls[c].entry;
    if entry.sequence <= s.lastCommitted then s.(calls := s.calls - {c})
    else s.(lastCommitted := entry.sequence, calls := s.calls[c := Claimed(entry)], claims := s.claims + [entry])
  }

  function After(s: System, step: Step): System
    requires Enabled(s, step)
  {
    match step
    case Validate(c, t, tree, model) => AfterValidate(s, c, t, tree, model)
    case Push(c) => AfterPush(s, c)
    case Commit(c, tree) => AfterCommit(s, c, tree)
    case Claim(c) => AfterClaim(s, c)
    case WriteCache(c) =>
      var entry := s.calls[c].entry;
      s.(cache := Some(entry.model), cacheFrom := Validation(entry.sequence), calls := s.calls[c := Written(entry)])
    case CountGeneration(c) => s.(generation := s.generation + 1, calls := s.calls - {c})
    case Replace(c, document) =>
      s.(cache := Some(document), cacheFrom := Replacement, calls := s.calls[c := Replaced],
         replacements := s.replacements + [document])
    case BeginCandidate(t) => s.(candidates := s.candidates[t := Null])
    case EndCandidate(t) => s.(candidates := s.candidates - {t})
  }

  ghost predicate Next(s: System, s': System) {
    exists step :: Enabled(s, step) && s' == After(s, step)
  }

  ghost predicate StepAt(run: seq<System>, i: nat)
    requires i + 1 < |run|
  {
    Next(run[i], run[i + 1])
  }

  ghost predicate IsRun(run: seq<System>) {
    run != [] && run[0] == Initial && forall i :: 0 <= i < |run| - 1 ==> StepAt(run, i)
  }

  // ---------------------------------------------------------------------------------------------
  // The invariant

  /** An entry is what its sequence validated. */
  predicate EntryOk(validations: seq<(Value, Value)>, e: Staged) {
    1 <= e.sequence <= |validations| && validations[e.sequence - 1] == (e.tree, e.model)
  }

  predicate CallOk(validations: seq<(Value, Value)>, pc: Pc) {
    pc.Replaced? || EntryOk(validations, pc.entry)
  }

  /** Calls that have published but not yet counted. */
  function Owing(calls: map<Call, Pc>): set<Call> {
    set c | c in calls && !calls[c].Validated? && !calls[c].Taken?
  }

  ghost predicate StagedOk(validations: seq<(Value, Value)>, pushes: nat, staged: seq<Staged>) {
    |staged| <= MOST_STAGED && InOrder(validations, pushes, staged)
  }

  /** Entries that were validated, in the order they were pushed. */
  ghost predicate InOrder(validations: seq<(Value, Value)>, pushes: nat, staged: seq<Staged>) {
    && (forall i :: 0 <= i < |staged| ==> EntryOk(validations, staged[i]) && staged[i].index < pushes)
    && (forall i, j :: 0 <= i < j < |staged| ==> staged[i].index < staged[j].index)
  }

  ghost predicate ClaimsOk(s: System) {
    && (forall i :: 0 <= i < |s.claims| ==> EntryOk(s.validations, s.claims[i]))
    && (forall i, j :: 0 <= i < j < |s.claims| ==> s.claims[i].sequence < s.claims[j].sequence)
    && s.lastCommitted == if s.claims == [] then 0 else Last(s.claims).sequence
  }

  ghost predicate Inv(s: System) {
    && s.nextSequence == |s.validations|
    && StagedOk(s.validations, s.pushes, s.staged)
    && ClaimsOk(s)
    && (forall c :: c in s.calls ==> CallOk(s.validations, s.calls[c]))
    && s.generation + |Owing(s.calls)| == |s.claims| + |s.replacements|
  }

  lemma TrimmedOk(validations: seq<(Value, Value)>, pushes: nat, staged: seq<Staged>, e: Staged)
    requires StagedOk(validations, pushes, staged) && EntryOk(validations, e) && e.index == pushes
    ensures StagedOk(validations, pushes + 1, Trimmed(staged + [e]))
  {
    var all := staged + [e];
    assert forall i :: 0 <= i < |all| ==> EntryOk(validations, all[i]) && all[i].index < pushes + 1;
    assert forall i, j :: 0 <= i < j < |all| ==> all[i].index < all[j].index;
    SuffixOk(validations, pushes + 1, all, |all| - |Trimmed(all)|);
  }

  lemma SuffixOk(validations: seq<(Value, Value)>, pushes: nat, staged: seq<Staged>, dropped: nat)
    requires InOrder(validations, pushes, staged) && dropped <= |staged|
    ensures InOrder(validations, pushes, staged[dropped..])
  {
  }

  lemma PushKeeps(s: System, c: Call)
    requires Inv(s) && Enabled(s, Push(c))
    ensures Inv(AfterPush(s, c))
  {
    assert CallOk(s.validations, s.calls[c]);
    TrimmedOk(s.validations, s.pushes, s.staged, s.calls[c].entry.(index := s.pushes));
    assert Owing(s.calls - {c}) == Owing(s.calls);
  }

  lemma WriteKeeps(s: System, c: Call)
    requires Inv(s) && Enabled(s, WriteCache(c))
    ensures Inv(After(s, WriteCache(c)))
  {
    assert CallOk(s.validations, s.calls[c]);
    assert Owing(After(s, WriteCache(c)).calls) == Owing(s.calls);
  }

  lemma CountKeeps(s: System, c: Call)
    requires Inv(s) && Enabled(s, CountGeneration(c))
    ensures Inv(After(s, CountGeneration(c)))
  {
    assert Owing(s.calls) == Owing(s.calls - {c}) + {c};
  }

  lemma ReplaceKeeps(s: System, c: Call, document: Value)
    requires Inv(s) && Enabled(s, Replace(c, document))
    ensures Inv(After(s, Replace(c, document)))
  {
    assert Owing(s.calls[c := Replaced]) == Owing(s.calls) + {c};
  }

  lemma ValidateKeeps(s: System, c: Call, t: Thread, tree: Value, model: Value)
    requires Inv(s) && c !in s.calls
    ensures Inv(AfterValidate(s, c, t, tree, model))
  {
    if t !in s.candidates {
      var s' := AfterValidate(s, c, t, tree, model);
      forall e | EntryOk(s.validations, e)
        ensures EntryOk(s'.validations, e)
      {
        assert s'.validations[e.sequence - 1] == s.validations[e.sequence - 1];
      }
      assert StagedOk(s'.validations, s'.pushes, s'.staged);
      assert Owing(s'.calls) == Owing(s.calls);
    }
  }

  lemma CommitKeeps(s: System, c: Call, tree: Value)
    requires Inv(s) && c !in s.calls
    ensures Inv(AfterCommit(s, c, tree))
  {
    if Match(s.staged, tree).Some? {
      var k := Match(s.staged, tree).value;
      WithoutOk(s.validations, s.pushes, s.staged, k);
      assert Owing(s.calls[c := Taken(s.staged[k])]) == Owing(s.calls);
    }
  }

  lemma WithoutOk(validations: seq<(Value, Value)>, pushes: nat, staged: seq<Staged>, k: nat)
    requires StagedOk(validations, pushes, staged) && k < |staged|
    ensures StagedOk(validations, pushes, Without(staged, k)) && EntryOk(validations, staged[k])
  {
    var left := Without(staged, k);
    assert forall i :: 0 <= i < |left| ==> left[i] == staged[if i < k then i else i + 1];
  }

  lemma ClaimKeeps(s: System, c: Call)
    requires Inv(s) && Enabled(s, Claim(c))
    ensures Inv(AfterClaim(s, c))
  {
    var entry := s.calls[c].entry;
    assert CallOk(s.validations, s.calls[c]);
    if entry.sequence <= s.lastCommitted {
      assert Owing(s.calls - {c}) == Owing(s.calls);
    } else {
      assert Owing(s.calls[c := Claimed(entry)]) == Owing(s.calls) + {c};
      assert ClaimsOk(AfterClaim(s, c));
    }
  }

  lemma StepKeeps(s: System, step: Step)
    requires Inv(s) && Enabled(s, step)
    ensures Inv(After(s, step))
  {
    match step
    case Validate(c, t, tree, model) => ValidateKeeps(s, c, t, tree, model);
    case Push(c) => PushKeeps(s, c);
    case Commit(c, tree) => CommitKeeps(s, c, tree);
    case Claim(c) => ClaimKeeps(s, c);
    case WriteCache(c) => WriteKeeps(s, c);
    case CountGeneration(c) => CountKeeps(s, c);
    case Replace(c, document) => ReplaceKeeps(s, c, document);
    case BeginCandidate(t) =>
    case EndCandidate(t) =>
  }

  lemma {:induction false} RunInv(run: seq<System>, i: nat)
    requires IsRun(run) && i < |run|
    ensures Inv(run[i])
  {
    if i == 0 {
      assert Owing(Initial.calls) == {};
    } else {
      RunInv(run, i - 1);
      assert StepAt(run, i - 1);
      var step :| Enabled(run[i - 1], step) && run[i] == After(run[i - 1], step);
      StepKeeps(run[i - 1], step);
    }
  }

  // ---------------------------------------------------------------------------------------------
  // Published at most once, and counted

  /** Successful claims have strictly increasing sequences, so each validation is published at most
      once, with the model that validation produced; and with no call in progress the generation is
      the number of claims plus the number of replacements. */
  lemma PublishedAtMostOnce(run: seq<System>, i: nat)
    requires IsRun(run) && i < |run|
    ensures var s := run[i];
      && (forall j, k :: 0 <= j < k < |s.claims| ==> s.claims[j].sequence < s.claims[k].sequence)
      && (forall j :: 0 <= j < |s.claims| ==> EntryOk(s.validations, s.claims[j]))
      && (s.calls == map[] ==> s.generation == |s.claims| + |s.replacements|)
  {
    RunInv(run, i);
    if run[i].calls == map[] {
      assert Owing(run[i].calls) == {};
    }
  }

  /** The list never holds more than four entries between operations. */
  lemma StagedBound(run: seq<System>, i: nat)
    requires IsRun(run) && i < |run|
    ensures |run[i].staged| <= 4
  {
    RunInv(run, i);
  }

  /** What a push drops had at least four pushed after it. */
  lemma EvictedAfterFourPushes(run: seq<System>, i: nat, c: Call, e: Staged)
    requires IsRun(run) && i < |run| && Enabled(run[i], Push(c))
    requires e in run[i].staged && e !in After(run[i], Push(c)).staged
    ensures e.index + MOST_STAGED < After(run[i], Push(c)).pushes
  {
    var s := run[i];
    RunInv(run, i);
    var all := s.staged + [s.calls[c].entry.(index := s.pushes)];
    var k :| 0 <= k < |s.staged| && s.staged[k] == e;
    assert all[k] == e;
    forall m | |all| - MOST_STAGED <= m < |all| && 0 <= m
      ensures all[m] in Trimmed(all)
    {
      var drop := |all| - |Trimmed(all)|;
      assert Trimmed(all)[m - drop] == all[m];
    }
    assert |all| == MOST_STAGED + 1 && k == 0;
    assert all[0].index < all[1].index < all[2].index < all[3].index < s.pushes;
  }

  // ---------------------------------------------------------------------------------------------
  // A reload publishes exactly once

  ghost predicate Held(s: System, e: Staged) {
    exists c :: c in s.calls && s.calls[c] == Taken(e)
  }

  /** `e` waits, is being committed, or is published. */
  ghost predicate Tracked(s: System, e: Staged) {
    e in s.staged || Held(s, e) || e in s.claims
  }

  /** What must hold from the moment `e` is staged: no other entry staged for its tree, fewer than four
      pushes after it, and nothing newer committed while it is not. */
  ghost predicate Undisturbed(s: System, e: Staged) {
    && (forall i :: 0 <= i < |s.staged| && s.staged[i].tree == e.tree ==> s.staged[i] == e)
    && s.pushes <= e.index + MOST_STAGED
    && (e in s.claims || s.lastCommitted < e.sequence)
  }

  lemma TakenOrKept(s: System, c: Call, tree: Value, e: Staged)
    requires c !in s.calls && e in s.staged
    ensures var s' := AfterCommit(s, c, tree); e in s'.staged || Held(s', e)
  {
    var s' := AfterCommit(s, c, tree);
    match Match(s.staged, tree)
    case None =>
    case Some(k) =>
      var i :| 0 <= i < |s.staged| && s.staged[i] == e;
      if i == k {
        assert s'.calls[c] == Taken(e);
      } else {
        assert s'.staged[if i < k then i else i - 1] == e;
      }
  }

  lemma PushKept(run: seq<System>, i: nat, c: Call, e: Staged)
    requires IsRun(run) && i < |run| && Enabled(run[i], Push(c))
    requires e in run[i].staged && After(run[i], Push(c)).pushes <= e.index + MOST_STAGED
    ensures e in After(run[i], Push(c)).staged
  {
    if e !in After(run[i], Push(c)).staged {
      EvictedAfterFourPushes(run, i, c, e);
    }
  }

  lemma HeldStays(s: System, s': System, e: Staged, moved: Call)
    requires Held(s, e)
    requires forall c :: c in s.calls && c != moved ==> c in s'.calls && s'.calls[c] == s.calls[c]
    requires moved in s.calls ==> !s.calls[moved].Taken?
    ensures Held(s', e)
  {
    var c :| c in s.calls && s.calls[c] == Taken(e);
    assert s'.calls[c] == Taken(e);
  }

  lemma TrackedStep(run: seq<System>, i: nat, e: Staged)
    requires IsRun(run) && i + 1 < |run|
    requires Tracked(run[i], e) && Undisturbed(run[i], e) && Undisturbed(run[i + 1], e)
    ensures Tracked(run[i + 1], e)
  {
    var s, s' := run[i], run[i + 1];
    assert StepAt(run, i);
    var step :| Enabled(s, step) && s' == After(s, step);
    if e in s.claims {
      assert e in s'.claims by {
        var k :| 0 <= k < |s.claims| && s.claims[k] == e;
        assert s'.claims[k] == e;
      }
    } else if e in s.staged {
      if step.Push? {
        PushKept(run, i, step.call, e);
      } else if step.Commit? {
        TakenOrKept(s, step.call, step.tree, e);
      }
    } else if step.Claim? {
      ClaimTracked(s, step.call, e);
    } else if !step.BeginCandidate? && !step.EndCandidate? {
      HeldStays(s, s', e, step.call);
    }
  }

  lemma ClaimTracked(s: System, c: Call, e: Staged)
    requires Enabled(s, Claim(c)) && Held(s, e) && s.lastCommitted < e.sequence
    ensures Tracked(AfterClaim(s, c), e)
  {
    var s' := AfterClaim(s, c);
    var h :| h in s.calls && s.calls[h] == Taken(e);
    if h == c {
      assert s'.claims[|s.claims|] == e;
    } else {
      assert s'.calls[h] == Taken(e);
    }
  }

  lemma {:induction false} TrackedAlong(run: seq<System>, i: nat, j: nat, e: Staged)
    requires IsRun(run) && i <= j < |run|
    requires Tracked(run[i], e)
    requires forall k :: i <= k <= j ==> Undisturbed(run[k], e)
    ensures Tracked(run[j], e)
    decreases j - i
  {
    if i < j {
      TrackedStep(run, i, e);
      TrackedAlong(run, i + 1, j, e);
    }
  }

  lemma {:induction false} PushesGrow(run: seq<System>, i: nat, j: nat)
    requires IsRun(run) && i <= j < |run|
    ensures run[i].pushes <= run[j].pushes
    decreases j - i
  {
    if i < j {
      PushesGrow(run, i, j - 1);
      assert StepAt(run, j - 1);
    }
  }

  /** An entry that has left the list does not come back to it. */
  lemma {:induction false} StaysOut(run: seq<System>, i: nat, j: nat, e: Staged)
    requires IsRun(run) && i <= j < |run|
    requires e.index < run[i].pushes && e !in run[i].staged
    ensures e.index < run[j].pushes && e !in run[j].staged
    decreases j - i
  {
    if i < j {
      StaysOut(run, i, j - 1, e);
      assert StepAt(run, j - 1);
      var step :| Enabled(run[j - 1], step) && run[j] == After(run[j - 1], step);
      StepStaysOut(run[j - 1], step, e);
    }
  }

  lemma StepStaysOut(s: System, step: Step, e: Staged)
    requires Enabled(s, step) && e.index < s.pushes && e !in s.staged
    ensures e.index < After(s, step).pushes && e !in After(s, step).staged
  {
  }

  /** A commit for the tree takes the one entry staged for it. */
  lemma CommitTakes(run: seq<System>, k: nat, c: Call, e: Staged)
    requires IsRun(run) && k < |run| && Enabled(run[k], Commit(c, e.tree))
    requires Undisturbed(run[k], e)
    ensures e !in After(run[k], Commit(c, e.tree)).staged
  {
    var s := run[k];
    RunInv(run, k);
    match Match(s.staged, e.tree)
    case None =>
    case Some(m) =>
      var left := Without(s.staged, m);
      forall i | 0 <= i < |left|
        ensures left[i] != e
      {
        assert left[i] == s.staged[if i < m then i else i + 1];
        assert s.staged[m] == e;
      }
  }

  /** A reload that stages `e`, is left undisturbed, and is followed by at least one commit for its tree
      (the engine's hook, the explicit call, or both in either order) has published `e` exactly once by
      the time no commit still holds it. */
  lemma ReloadPublishesOnce(run: seq<System>, i: nat, k: nat, j: nat, c: Call, e: Staged)
    requires IsRun(run) && i <= k < j < |run|
    requires e in run[i].staged
    requires forall m :: i <= m <= j ==> Undisturbed(run[m], e)
    requires Enabled(run[k], Commit(c, e.tree)) && run[k + 1] == After(run[k], Commit(c, e.tree))
    requires !Held(run[j], e)
    ensures e in run[j].claims
    ensures forall a, b ::
      (0 <= a < |run[j].claims| && 0 <= b < |run[j].claims| &&
       run[j].claims[a].sequence == e.sequence == run[j].claims[b].sequence) ==> a == b
  {
    TrackedAlong(run, i, j, e);
    CommitTakes(run, k, c, e);
    RunInv(run, i);
    PushesGrow(run, i, k + 1);
    StaysOut(run, k + 1, j, e);
    RunInv(run, j);
  }
}
