/** What a configuration serves once nothing is running, and what candidate loads leave no trace of. */
module NodeCache {
  import opened Common
  import opened NodeStaging
  import opened NodeRuns

  // ---------------------------------------------------------------------------------------------
  // Candidate loads

  lemma GoesOn(run: seq<System>, step: Step) returns (longer: seq<System>)
    requires IsRun(run) && Enabled(Last(run), step)
    ensures IsRun(longer) && longer == run + [After(Last(run), step)]
  {
    longer := run + [After(Last(run), step)];
    forall i | 0 <= i < |longer| - 1
      ensures StepAt(longer, i)
    {
      assert i < |run| - 1 ==> StepAt(run, i);
    }
  }

  predicate OfCandidate(s: System, step: Step) {
    step.BeginCandidate? || step.EndCandidate? || (step.Validate? && step.thread in s.candidates)
  }

  function Erased(s: System): System {
    s.(candidates := map[])
  }

  /** A step of a candidate load is no step at all without the candidates, and any other step is the same. */
  lemma StepErased(s: System, step: Step)
    requires Enabled(s, step)
    ensures OfCandidate(s, step) ==> Erased(After(s, step)) == Erased(s)
    ensures !OfCandidate(s, step) ==>
      Enabled(Erased(s), step) && After(Erased(s), step) == Erased(After(s, step)) && !OfCandidate(Erased(s), step)
  {
  }

  /** Erasing every candidate step from a run gives a run without candidate loads that ends in the same
      state: staged list, sequences, claims, cache and generation. */
  lemma {:induction false} CandidatesLeaveNoTrace(run: seq<System>) returns (plain: seq<System>)
    requires IsRun(run)
    ensures IsRun(plain) && Last(plain) == Erased(Last(run))
    ensures forall k :: 0 <= k < |plain| ==> plain[k].candidates == map[]
    decreases |run|
  {
    if |run| == 1 {
      plain := [Initial];
    } else {
      var before := run[..|run| - 1];
      assert Last(before) == run[|run| - 2] && StepAt(run, |run| - 2);
      forall i | 0 <= i < |before| - 1
        ensures StepAt(before, i)
      {
        assert StepAt(run, i);
      }
      var shorter := CandidatesLeaveNoTrace(before);
      var step :| Enabled(Last(before), step) && Last(run) == After(Last(before), step);
      StepErased(Last(before), step);
      if OfCandidate(Last(before), step) {
        plain := shorter;
      } else {
        plain := GoesOn(shorter, step);
      }
    }
  }

  // ---------------------------------------------------------------------------------------------
  // Who wrote the cache

  /** Calls between claiming and writing hold claims, each its own; and the cache is what the validation
      it came from produced. */
  ghost predicate CacheInv(s: System) {
    && (forall c :: c in s.calls && s.calls[c].Claimed? ==> s.calls[c].entry in s.claims)
    && (forall c, d :: c in s.calls && d in s.calls && c != d && s.calls[c].Claimed? && s.calls[d].Claimed? ==>
          s.calls[c].entry.sequence != s.calls[d].entry.sequence)
    && CacheGenuine(s)
  }

  ghost predicate CacheGenuine(s: System) {
    match s.cacheFrom
    case Nobody => s.cache == None
    case Replacement => s.replacements != [] && s.cache == Some(Last(s.replacements))
    case Validation(q) => 1 <= q <= |s.validations| && s.cache == Some(s.validations[q - 1].1)
  }

  /** The calls that have claimed and not yet written are the same in both states. */
  ghost predicate SameClaimants(s: System, s': System) {
    && (forall c :: c in s.calls && s.calls[c].Claimed? ==> c in s'.calls && s'.calls[c] == s.calls[c])
    && (forall c :: c in s'.calls && s'.calls[c].Claimed? ==> c in s.calls && s'.calls[c] == s.calls[c])
  }

  lemma Elsewhere(s: System, step: Step)
    requires Enabled(s, step) && !step.Claim? && !step.WriteCache?
    ensures SameClaimants(s, After(s, step))
    ensures After(s, step).claims == s.claims
    ensures s.validations <= After(s, step).validations
    ensures !step.Replace? ==>
      After(s, step).cache == s.cache && After(s, step).cacheFrom == s.cacheFrom && After(s, step).replacements == s.replacements
    ensures step.Replace? ==>
      && After(s, step).cache == Some(step.document) && After(s, step).cacheFrom == Replacement
      && After(s, step).replacements == s.replacements + [step.document]
  {
  }

  lemma ElsewhereKeeps(s: System, step: Step)
    requires Enabled(s, step) && !step.Claim? && !step.WriteCache? && CacheInv(s)
    ensures CacheInv(After(s, step))
  {
    Elsewhere(s, step);
  }

  lemma ClaimIsNewest(s: System, c: Call)
    requires Inv(s) && Enabled(s, Claim(c)) && s.lastCommitted < s.calls[c].entry.sequence
    ensures forall e :: e in s.claims ==> e.sequence < s.calls[c].entry.sequence
  {
  }

  lemma ClaimCacheKeeps(s: System, c: Call)
    requires Inv(s) && Enabled(s, Claim(c)) && CacheInv(s)
    ensures CacheInv(AfterClaim(s, c))
  {
    var s' := AfterClaim(s, c);
    if s.lastCommitted < s.calls[c].entry.sequence {
      ClaimIsNewest(s, c);
      assert s'.claims[|s.claims|] == s.calls[c].entry;
    }
  }

  lemma WriteCacheKeeps(s: System, c: Call)
    requires Inv(s) && Enabled(s, WriteCache(c)) && CacheInv(s)
    ensures CacheInv(After(s, WriteCache(c)))
  {
    assert CallOk(s.validations, s.calls[c]);
  }

  lemma CacheStep(s: System, step: Step)
    requires Inv(s) && Enabled(s, step) && CacheInv(s)
    ensures CacheInv(After(s, step)) && s.claims <= After(s, step).claims
  {
    match step
    case Claim(c) => ClaimCacheKeeps(s, c);
    case WriteCache(c) => WriteCacheKeeps(s, c);
    case _ =>
      Elsewhere(s, step);
      ElsewhereKeeps(s, step);
  }

  lemma CacheNext(run: seq<System>, i: nat)
    requires IsRun(run) && i + 1 < |run| && CacheInv(run[i])
    ensures CacheInv(run[i + 1]) && run[i].claims <= run[i + 1].claims
  {
    RunInv(run, i);
    assert StepAt(run, i);
    var step :| Enabled(run[i], step) && run[i + 1] == After(run[i], step);
    CacheStep(run[i], step);
  }

  lemma {:induction false} CacheAlong(run: seq<System>, i: nat)
    requires IsRun(run) && i < |run|
    ensures CacheInv(run[i])
  {
    if 0 < i {
      CacheAlong(run, i - 1);
      CacheNext(run, i - 1);
    }
  }

  lemma {:induction false} ClaimsGrow(run: seq<System>, i: nat, j: nat)
    requires IsRun(run) && i <= j < |run|
    ensures run[i].claims <= run[j].claims
    decreases j - i
  {
    if i < j {
      CacheAlong(run, i);
      CacheNext(run, i);
      ClaimsGrow(run, i + 1, j);
    }
  }

  // ---------------------------------------------------------------------------------------------
  // The cache at rest

  /** No other call stands between claiming and writing. */
  ghost predicate WritesAlone(s: System, c: Call) {
    forall d :: d in s.calls && s.calls[d].Claimed? ==> d == c
  }

  /** Step `k` writes the claim `e` to the cache. */
  ghost predicate WritesAt(run: seq<System>, k: nat, c: Call, e: Staged) {
    && k + 1 < |run| && Enabled(run[k], WriteCache(c)) && run[k + 1] == After(run[k], WriteCache(c))
    && run[k].calls[c].entry == e
  }

  /** After the newest claim has been written: nobody is left to write, or somebody with an older claim is
      and the cache will not be the newest again. */
  ghost predicate WrittenAlone(s: System, newest: nat) {
    && (forall c :: c in s.calls ==> !s.calls[c].Claimed?)
    && (s.cacheFrom == Validation(newest) || s.cacheFrom == Replacement)
  }

  ghost predicate WrittenAmongOthers(s: System, newest: nat) {
    && (forall c :: c in s.calls && s.calls[c].Claimed? ==> s.calls[c].entry.sequence != newest)
    && ((exists c :: c in s.calls && s.calls[c].Claimed?) || s.cacheFrom != Validation(newest))
  }

  lemma StaysWritten(s: System, step: Step, newest: nat)
    requires Enabled(s, step) && After(s, step).claims == s.claims
    ensures WrittenAlone(s, newest) ==> WrittenAlone(After(s, step), newest)
    ensures WrittenAmongOthers(s, newest) ==> WrittenAmongOthers(After(s, step), newest)
  {
    if !step.Claim? && !step.WriteCache? {
      Elsewhere(s, step);
    } else if step.Claim? {
      assert SameClaimants(s, After(s, step));
    }
  }

  lemma NextStaysWritten(run: seq<System>, i: nat, newest: nat)
    requires IsRun(run) && i + 1 < |run| && run[i + 1].claims == run[i].claims
    ensures WrittenAlone(run[i], newest) ==> WrittenAlone(run[i + 1], newest)
    ensures WrittenAmongOthers(run[i], newest) ==> WrittenAmongOthers(run[i + 1], newest)
  {
    assert StepAt(run, i);
    var step :| Enabled(run[i], step) && run[i + 1] == After(run[i], step);
    StaysWritten(run[i], step, newest);
  }

  lemma {:induction false} WrittenAlong(run: seq<System>, i: nat, j: nat, newest: nat)
    requires IsRun(run) && i <= j < |run| && run[i].claims == run[j].claims
    ensures WrittenAlone(run[i], newest) ==> WrittenAlone(run[j], newest)
    ensures WrittenAmongOthers(run[i], newest) ==> WrittenAmongOthers(run[j], newest)
    decreases j - i
  {
    if i < j {
      ClaimsGrow(run, i, i + 1);
      ClaimsGrow(run, i + 1, j);
      NextStaysWritten(run, i, newest);
      WrittenAlong(run, i + 1, j, newest);
    }
  }

  /** Once the newest claim of a run has been made, no further claim is. */
  lemma NoneAfterTheNewest(run: seq<System>, k: nat, i: nat)
    requires IsRun(run) && k <= i < |run| && run[i].claims != [] && Last(run[i].claims) in run[k].claims
    ensures run[k].claims == run[i].claims
  {
    ClaimsGrow(run, k, i);
    RunInv(run, i);
    var m :| 0 <= m < |run[k].claims| && run[k].claims[m] == Last(run[i].claims);
    assert run[i].claims[m] == run[k].claims[m];
  }

  /** With no call in progress and no replacement in the cache, the configuration serves the newest document
      it committed if and only if that document's commit wrote the cache while no other commit stood
      between claiming and writing. */
  lemma CacheIsNewestIff(run: seq<System>, i: nat, k: nat, c: Call)
    requires IsRun(run) && i < |run| && k < i && run[i].calls == map[] && run[i].claims != []
    requires WritesAt(run, k, c, Last(run[i].claims)) && run[i].cacheFrom != Replacement
    ensures run[i].cacheFrom == Validation(Last(run[i].claims).sequence) <==> WritesAlone(run[k], c)
    ensures WritesAlone(run[k], c) ==> run[i].cache == Some(Last(run[i].claims).model)
  {
    var newest := Last(run[i].claims).sequence;
    CacheAlong(run, k);
    CacheAlong(run, i);
    NoneAfterTheNewest(run, k, i);
    JustWritten(run[k], c);
    WrittenAlong(run, k + 1, i, newest);
    RunInv(run, i);
    assert EntryOk(run[i].validations, Last(run[i].claims));
  }

  lemma JustWritten(s: System, c: Call)
    requires Enabled(s, WriteCache(c)) && CacheInv(s)
    ensures var s', newest := After(s, WriteCache(c)), s.calls[c].entry.sequence;
      if WritesAlone(s, c) then WrittenAlone(s', newest) else WrittenAmongOthers(s', newest)
  {
    if !WritesAlone(s, c) {
      var d :| d in s.calls && s.calls[d].Claimed? && d != c;
      assert After(s, WriteCache(c)).calls[d].Claimed?;
    }
  }

  /** And some step did write it: at rest every claim has been written. */
  lemma EveryClaimIsWritten(run: seq<System>, i: nat, e: Staged) returns (k: nat, c: Call)
    requires IsRun(run) && i < |run| && run[i].calls == map[] && e in run[i].claims
    ensures k < i && WritesAt(run, k, c, e)
  {
    var written;
    written, k, c := WrittenOrHeld(run, i, e);
  }

  lemma {:induction false} WrittenOrHeld(run: seq<System>, i: nat, e: Staged) returns (written: bool, k: nat, c: Call)
    requires IsRun(run) && i < |run| && e in run[i].claims
    ensures written ==> k < i && WritesAt(run, k, c, e)
    ensures !written ==> c in run[i].calls && run[i].calls[c] == Claimed(e)
  {
    assert 0 < i;
    assert StepAt(run, i - 1);
    var step :| Enabled(run[i - 1], step) && run[i] == After(run[i - 1], step);
    if e in run[i - 1].claims {
      written, k, c := WrittenOrHeld(run, i - 1, e);
      if !written && step == WriteCache(c) {
        written, k := true, i - 1;
      }
    } else {
      written, k, c := false, 0, step.call;
    }
  }

  // ---------------------------------------------------------------------------------------------
  // What is served, whoever wrote it

  /** Step `k` of the run puts `v` in the cache: a replacement by `v`, or the write of a commit that claimed it. */
  ghost predicate Puts(run: seq<System>, k: nat, v: Value)
    requires k + 1 < |run|
  {
    || (exists c :: Enabled(run[k], Replace(c, v)) && run[k + 1] == After(run[k], Replace(c, v)))
    || (exists c :: Enabled(run[k], WriteCache(c)) && run[k].calls[c].entry.model == v
                    && run[k + 1] == After(run[k], WriteCache(c)))
  }

  lemma NoOtherStepPuts(s: System, step: Step, other: Step)
    requires Enabled(s, step) && !step.Replace? && !step.WriteCache?
    requires Enabled(s, other) && (other.Replace? || other.WriteCache?)
    ensures After(s, step) != After(s, other)
  {
    if other.Replace? {
      assert |After(s, other).replacements| == |s.replacements| + 1;
    } else {
      assert After(s, other).calls[other.call].Written? && s.calls[other.call].Claimed?;
    }
  }

  lemma LastPut(run: seq<System>, i: nat) returns (puts: bool)
    requires IsRun(run) && i + 1 < |run| && run[i + 1].cache.Some?
    ensures puts ==> Puts(run, i, run[i + 1].cache.value)
    ensures !puts ==> run[i + 1].cache == run[i].cache && forall v :: !Puts(run, i, v)
  {
    assert StepAt(run, i);
    var step :| Enabled(run[i], step) && run[i + 1] == After(run[i], step);
    puts := step.Replace? || step.WriteCache?;
    if !puts {
      forall v
        ensures !Puts(run, i, v)
      {
        forall c | Enabled(run[i], Replace(c, v))
          ensures run[i + 1] != After(run[i], Replace(c, v))
        {
          NoOtherStepPuts(run[i], step, Replace(c, v));
        }
        forall c | Enabled(run[i], WriteCache(c))
          ensures run[i + 1] != After(run[i], WriteCache(c))
        {
          NoOtherStepPuts(run[i], step, WriteCache(c));
        }
      }
    }
  }

  /** At every moment of every run, what is served is the document of the last step that put one there: what the
      latest replacement was given, or what the latest commit to write had claimed. */
  lemma {:induction false} ServedIsLastPut(run: seq<System>, i: nat) returns (k: nat)
    requires IsRun(run) && i < |run| && run[i].cache.Some?
    ensures k < i && Puts(run, k, run[i].cache.value)
    ensures forall m, v :: k < m < i ==> !Puts(run, m, v)
  {
    assert 0 < i;
    var puts := LastPut(run, i - 1);
    if puts {
      k := i - 1;
    } else {
      k := ServedIsLastPut(run, i - 1);
    }
  }

  /** Step `k` of the run leaves `v` in a candidate load's slot: its beginning, or a validation inside it. */
  ghost predicate Slots(run: seq<System>, k: nat, t: Thread, v: Value)
    requires k + 1 < |run|
  {
    || (Enabled(run[k], BeginCandidate(t)) && run[k + 1] == After(run[k], BeginCandidate(t)) && v == Null)
    || (t in run[k].candidates
        && exists c, tree :: Enabled(run[k], Validate(c, t, tree, v)) && run[k + 1] == After(run[k], Validate(c, t, tree, v)))
  }

  lemma SlotStep(run: seq<System>, i: nat, t: Thread)
    requires IsRun(run) && i + 1 < |run| && t in run[i + 1].candidates
    ensures Slots(run, i, t, run[i + 1].candidates[t])
      || (t in run[i].candidates && run[i + 1].candidates[t] == run[i].candidates[t])
  {
    assert StepAt(run, i);
    var step :| Enabled(run[i], step) && run[i + 1] == After(run[i], step);
    if step.Validate? && step.thread == t && t in run[i].candidates {
      assert step == Validate(step.call, t, step.tree, run[i + 1].candidates[t]);
    }
  }

  /** A candidate load's slot holds nothing until something is validated inside that load, and then what the
      validation made of it. */
  lemma {:induction false} SlotIsItsOwn(run: seq<System>, i: nat, t: Thread) returns (k: nat)
    requires IsRun(run) && i < |run| && t in run[i].candidates
    ensures k < i && Slots(run, k, t, run[i].candidates[t])
    ensures forall m :: k < m <= i ==> t in run[m].candidates && run[m].candidates[t] == run[i].candidates[t]
  {
    assert 0 < i;
    SlotStep(run, i - 1, t);
    if Slots(run, i - 1, t, run[i].candidates[t]) {
      k := i - 1;
    } else {
      k := SlotIsItsOwn(run, i - 1, t);
    }
  }

  // ---------------------------------------------------------------------------------------------
  // A run that serves a stale document

  ghost predicate Reachable(s: System) {
    exists run :: IsRun(run) && Last(run) == s
  }

  lemma ReachableNext(s: System, step: Step)
    requires Reachable(s) && Enabled(s, step)
    ensures Reachable(After(s, step))
  {
    var run :| IsRun(run) && Last(run) == s;
    var longer := GoesOn(run, step);
    assert IsRun(longer) && Last(longer) == After(s, step);
  }

  /** Overlap is what can break it: whenever two commits stand between claiming and writing,
      the older one can write last and be served although a newer document was committed. */
  lemma OverlapCanServeStale(s: System, older: Call, newer: Call) returns (s': System)
    requires Reachable(s) && older in s.calls && newer in s.calls
    requires s.calls[older].Claimed? && s.calls[newer].Claimed?
    requires s.calls[older].entry.sequence < s.calls[newer].entry.sequence
    ensures Reachable(s')
    ensures s'.calls == s.calls - {older, newer}
    ensures s'.claims == s.claims
    ensures s'.cache == Some(s.calls[older].entry.model) && s'.cacheFrom == Validation(s.calls[older].entry.sequence)
  {
    ReachableNext(s, WriteCache(newer));
    var s1 := After(s, WriteCache(newer));
    ReachableNext(s1, WriteCache(older));
    var s2 := After(s1, WriteCache(older));
    ReachableNext(s2, CountGeneration(newer));
    var s3 := After(s2, CountGeneration(newer));
    ReachableNext(s3, CountGeneration(older));
    s' := After(s3, CountGeneration(older));
    assert s'.calls == s.calls - {older, newer};
  }

  /** Two validations of different trees, both staged. */
  lemma TwoStaged() returns (s: System)
    ensures Reachable(s)
    ensures s.staged == [Staged(1, Document("a"), Document("old"), 0), Staged(2, Document("b"), Document("new"), 1)]
    ensures s.calls == map[] && s.lastCommitted == 0 && s.claims == []
  {
    assert IsRun([Initial]) && Last([Initial]) == Initial;
    ReachableNext(Initial, Validate(0, 0, Document("a"), Document("old")));
    var s1 := After(Initial, Validate(0, 0, Document("a"), Document("old")));
    ReachableNext(s1, Push(0));
    var s2 := After(s1, Push(0));
    ReachableNext(s2, Validate(1, 0, Document("b"), Document("new")));
    var s3 := After(s2, Validate(1, 0, Document("b"), Document("new")));
    ReachableNext(s3, Push(1));
    s := After(s3, Push(1));
    assert s.calls == map[];
  }

  /** Both are taken, and both claimed, the older first. */
  lemma BothClaimed(s: System) returns (s': System)
    requires Reachable(s)
    requires s.staged == [Staged(1, Document("a"), Document("old"), 0), Staged(2, Document("b"), Document("new"), 1)]
    requires s.calls == map[] && s.lastCommitted == 0 && s.claims == []
    ensures Reachable(s')
    ensures s'.calls == map[0 := Claimed(s.staged[0]), 1 := Claimed(s.staged[1])] && s'.claims == s.staged
  {
    MatchIs(s.staged, Document("a"), 0);
    ReachableNext(s, Commit(0, Document("a")));
    var s1 := After(s, Commit(0, Document("a")));
    assert s1.staged == [s.staged[1]];
    MatchIs(s1.staged, Document("b"), 0);
    ReachableNext(s1, Commit(1, Document("b")));
    var s2 := After(s1, Commit(1, Document("b")));
    ReachableNext(s2, Claim(0));
    var s3 := After(s2, Claim(0));
    ReachableNext(s3, Claim(1));
    s' := After(s3, Claim(1));
  }

  /** So a configuration with no call in progress can serve a document older than the newest it committed. */
  lemma StaleCacheIsReachable() returns (s: System)
    ensures Reachable(s) && s.calls == map[]
    ensures s.claims != [] && Last(s.claims).model == Document("new") && s.cache == Some(Document("old"))
  {
    var staged := TwoStaged();
    var claimed := BothClaimed(staged);
    s := OverlapCanServeStale(claimed, 0, 1);
    assert s.calls == map[];
  }
}
