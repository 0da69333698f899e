/** What runs of calls do to a working directory over time: how large it grows, and how it can be lost. */
module GitCompaction {
  import opened Common
  import opened GitTree
  import opened GitRead
  import opened GitObjects
  import opened GitStore

  predicate Succeeds(world: Database, src: Source, dir: WorkDir, call: Call) {
    Once(world, src, dir, call.want, call.answers).1.Ok?
  }

  // ---------------------------------------------------------------------------------------------
  // The bound on packs

  /** Some call of the run succeeds. */
  predicate SomeSucceeds(world: Database, src: Source, dir: WorkDir, calls: seq<Call>)
    decreases |calls|
  {
    && calls != []
    && (Succeeds(world, src, dir, calls[0]) || SomeSucceeds(world, src, Next(world, src, dir, calls[0]), calls[1..]))
  }

  /** Not used yet, or the source's own. */
  predicate Ours(dir: WorkDir) {
    dir == [] || Marker in dir
  }

  predicate Bounded(src: Source, dir: WorkDir) {
    PackCount(dir) <= src.compactAfter + 1
  }

  lemma FetchBounded(dir: WorkDir, want: bool, a: Answers)
    ensures PackCount(AfterFetch(dir, want, a).0) <= PackCount(dir) + 1
    ensures Marker in AfterFetch(dir, want, a).0 <==> Marker in dir
  {
    if AfterFetch(dir, want, a).0 != dir {
      OnePackMore(dir, a.received.value);
    }
  }

  lemma {:induction false} PackCountPermuted(a: WorkDir, b: WorkDir)
    requires multiset(a) == multiset(b)
    ensures PackCount(a) == PackCount(b)
  {
    assert |multiset(a)| == |a| && |multiset(b)| == |b|;
    if a != [] {
      assert a[0] in multiset(b);
      var i :| 0 <= i < |b| && b[i] == a[0];
      var rest := b[..i] + b[i + 1..];
      assert a == [a[0]] + a[1..];
      MovedToTheFront(b, i);
      PackCountPermuted(a[1..], rest);
    }
  }

  lemma MovedToTheFront(b: WorkDir, i: nat)
    requires i < |b|
    ensures var rest := b[..i] + b[i + 1..];
      multiset(rest) == multiset(b) - multiset{b[i]} && PackCount(b) == (if b[i].Pack? then 1 else 0) + PackCount(rest)
  {
    assert b == b[..i] + ([b[i]] + b[i + 1..]);
    PackCountConcat(b[..i], [b[i]] + b[i + 1..]);
    PackCountConcat(b[..i], b[i + 1..]);
    assert ([b[i]] + b[i + 1..])[1..] == b[i + 1..];
  }

  /** Emptying never adds a pack, however it ends. */
  lemma EmptyBounded(dir: WorkDir, a: Answers)
    requires Lists(a.listing, dir)
    ensures PackCount(AfterEmpty(a).0) <= PackCount(dir)
  {
    PackCountPermuted(a.listing, dir);
    if !AfterEmpty(a).1 {
      var k := a.failsAt.value;
      assert a.listing == a.listing[..k] + a.listing[k..];
      PackCountConcat(a.listing[..k], a.listing[k..]);
    }
  }

  lemma PreparedBounded(src: Source, dir: WorkDir, a: Answers)
    requires 0 < src.compactAfter && Ours(dir) && AfterCompact(src, dir, a).1 && Bare(a.debris)
    ensures PackCount(Prepared(src, dir, a)) <= src.compactAfter
  {
    BareHasNoPacks(a.debris);
    assert [RepositoryFiles, Marker][1..] == [Marker] && [Marker][1..] == [] && [RepositoryFiles][1..] == [];
    assert PackCount([RepositoryFiles, Marker]) == PackCount([Marker]) == 0 == PackCount([RepositoryFiles]) == PackCount([]);
  }

  lemma OnceBounded(world: Database, src: Source, dir: WorkDir, call: Call)
    requires 0 < src.compactAfter && Ours(dir) && Possible(world, src, dir, call.answers)
    ensures Bounded(src, dir) || Succeeds(world, src, dir, call) ==> Bounded(src, Next(world, src, dir, call))
  {
    EmptyBounded(dir, call.answers);
    if AfterCompact(src, dir, call.answers).1 {
      PreparedBounded(src, dir, call.answers);
      FetchBounded(Prepared(src, dir, call.answers), call.want, call.answers);
    }
  }

  /** The directory is unused or marked whenever a call of the run begins. */
  predicate OursThroughout(world: Database, src: Source, dir: WorkDir, calls: seq<Call>)
    decreases |calls|
  {
    calls == [] || (Ours(dir) && OursThroughout(world, src, Next(world, src, dir, calls[0]), calls[1..]))
  }

  /** From the first successful call on, or from the beginning if it is within its bound, a directory that stays
      the source's own never holds more than one pack file above that bound: whatever the host answers, and
      whether calls and compactions succeed, fail or give up part-way. */
  lemma {:induction false} StaysBounded(world: Database, src: Source, dir: WorkDir, calls: seq<Call>)
    requires 0 < src.compactAfter && PossibleRun(world, src, dir, calls) && OursThroughout(world, src, dir, calls)
    ensures Bounded(src, dir) || SomeSucceeds(world, src, dir, calls) ==> Bounded(src, After(world, src, dir, calls))
    decreases |calls|
  {
    if calls != [] {
      OnceBounded(world, src, dir, calls[0]);
      StaysBounded(world, src, Next(world, src, dir, calls[0]), calls[1..]);
    }
  }

  /** Nothing is left half done: no emptying fails, and a repository is created with the marker or not at all. */
  predicate Cleanly(a: Answers) {
    a.failsAt.None? && !a.marks.NotCreated? && (a.inits || a.debris == [])
  }

  /** It does stay the source's own if compactions and creations end cleanly. */
  lemma {:induction false} StaysOurs(world: Database, src: Source, dir: WorkDir, calls: seq<Call>)
    requires Ours(dir)
    requires forall i :: 0 <= i < |calls| ==> Cleanly(calls[i].answers)
    ensures OursThroughout(world, src, dir, calls)
    decreases |calls|
  {
    if calls != [] {
      FetchBounded(Prepared(src, dir, calls[0].answers), calls[0].want, calls[0].answers);
      StaysOurs(world, src, Next(world, src, dir, calls[0]), calls[1..]);
    }
  }

  // ---------------------------------------------------------------------------------------------
  // Idle checks

  predicate AllIdle(world: Database, src: Source, dir: WorkDir, calls: seq<Call>)
    decreases |calls|
  {
    calls == [] ||
    (!calls[0].want && Succeeds(world, src, dir, calls[0]) && AllIdle(world, src, Next(world, src, dir, calls[0]), calls[1..]))
  }

  lemma IdleCheck(world: Database, src: Source, dir: WorkDir, call: Call)
    requires !call.want && Succeeds(world, src, dir, call)
    ensures !Overfull(src, Next(world, src, dir, call))
    ensures Present(Next(world, src, dir, call)) == if Overfull(src, dir) then {} else Present(dir)
  {
    assert [RepositoryFiles, Marker][1..] == [Marker] && [Marker][1..] == [];
    assert PackCount([RepositoryFiles, Marker]) == PackCount([Marker]) == 0;
    assert Present([RepositoryFiles, Marker]) == {} == Present([]);
  }

  /** A stretch of idle checks, which read nothing, empties the database all the same, exactly when it was over
      its bound to begin with; otherwise it leaves every object. */
  lemma {:induction false} IdleChecksEmpty(world: Database, src: Source, dir: WorkDir, calls: seq<Call>)
    requires calls != [] && AllIdle(world, src, dir, calls)
    ensures Present(After(world, src, dir, calls)) == if Overfull(src, dir) then {} else Present(dir)
    decreases |calls|
  {
    var next := Next(world, src, dir, calls[0]);
    IdleCheck(world, src, dir, calls[0]);
    if |calls| == 1 {
      assert After(world, src, dir, calls) == After(world, src, next, []) == next;
    } else {
      IdleChecksEmpty(world, src, next, calls[1..]);
    }
  }

  // ---------------------------------------------------------------------------------------------
  // Repositories without the marker

  /** A repository somebody else made: nothing is ever removed from it, and it is never marked. */
  lemma {:induction false} ForeignUntouched(world: Database, src: Source, dir: WorkDir, calls: seq<Call>)
    requires RepositoryFiles in dir && Marker !in dir
    ensures dir <= After(world, src, dir, calls) && Marker !in After(world, src, dir, calls)
    decreases |calls|
  {
    if calls != [] {
      ForeignUntouched(world, src, Next(world, src, dir, calls[0]), calls[1..]);
    }
  }

  /** `compact_after` of 0 turns compaction off: nothing is ever removed from a repository, marked or not. */
  lemma {:induction false} ZeroNeverCompacts(world: Database, src: Source, dir: WorkDir, calls: seq<Call>)
    requires src.compactAfter == 0 && RepositoryFiles in dir
    ensures dir <= After(world, src, dir, calls)
    decreases |calls|
  {
    if calls != [] {
      var next := Next(world, src, dir, calls[0]);
      StillThere(dir, next);
      ZeroNeverCompacts(world, src, next, calls[1..]);
    }
  }

  lemma {:induction false} AfterConcat(world: Database, src: Source, dir: WorkDir, a: seq<Call>, b: seq<Call>)
    ensures After(world, src, dir, a + b) == After(world, src, After(world, src, dir, a), b)
    decreases |a|
  {
    if a == [] {
      assert a + b == b;
    } else {
      assert (a + b)[1..] == a[1..] + b;
      AfterConcat(world, src, Next(world, src, dir, a[0]), a[1..], b);
    }
  }

  /** Creating the repository failed and left it there without the marker. */
  predicate CreatedUnmarked(a: Answers) {
    a.credential && if a.inits then a.marks.NotCreated? else RepositoryFiles in a.debris
  }

  /** A marker that was not created with the repository is never created later: the repository the source made
      itself is from then on treated as somebody else's, and every pack it ever receives stays. */
  lemma UnmarkedForGood(world: Database, src: Source, want: bool, a: Answers, earlier: seq<Call>, later: seq<Call>)
    requires Possible(world, src, [], a) && CreatedUnmarked(a)
    ensures var (left, r) := Once(world, src, [], want, a);
      && r == Err(OpenFailed) && RepositoryFiles in left && Marker !in left
      && Marker !in After(world, src, left, earlier + later)
      && After(world, src, left, earlier) <= After(world, src, left, earlier + later)
  {
    var left := Once(world, src, [], want, a).0;
    ForeignUntouched(world, src, left, earlier);
    var mid := After(world, src, left, earlier);
    StillThere(left, mid);
    ForeignUntouched(world, src, mid, later);
    AfterConcat(world, src, left, earlier, later);
  }

  /** A ref that goes through `n` commits with nothing in common but an empty tree. */
  ghost predicate ManyCommits(world: Database, base: Oid, n: nat) {
    && Numbered(world) && Typed(world)
    && forall i :: base < i <= base + n ==> HasCommit(world, i) && Needs(world, i) == {base, i}
  }

  function Many(base: Oid, n: nat): (world: Database)
    ensures forall i :: i in world <==> base <= i <= base + n
    ensures forall i :: i in world ==> world[i] == if i == base then TreeObject([]) else CommitObject(base)
  {
    if n == 0 then map[base := TreeObject([])] else Many(base, n - 1)[base + n := CommitObject(base)]
  }

  lemma ManyAreMany(base: Oid, n: nat)
    ensures ManyCommits(Many(base, n), base, n)
  {
    var world := Many(base, n);
    forall i | base < i <= base + n
      ensures HasCommit(world, i) && Needs(world, i) == {base, i}
    {
      assert NeedsOf(world, base, []) == {};
    }
  }

  lemma {:induction false} BaseAbove(ids: set<Oid>) returns (base: Oid)
    ensures forall x :: x in ids ==> x <= base
  {
    base := 0;
    if ids != {} {
      var x :| x in ids;
      var rest := BaseAbove(ids - {x});
      assert forall y :: y in ids ==> y == x || y in ids - {x};
      base := if x < rest then rest else x;
    }
  }

  /** Each further commit is one further pack. */
  lemma {:induction false} GrowsAlong(world: Database, src: Source, dir: WorkDir, base: Oid, k: nat, n: nat)
    returns (calls: seq<Call>)
    requires ManyCommits(world, base, n) && k <= n
    requires RepositoryFiles in dir && Marker !in dir && forall x :: x in Present(dir) ==> x <= base + k
    ensures PossibleRun(world, src, dir, calls)
    ensures PackCount(After(world, src, dir, calls)) == PackCount(dir) + n - k
    decreases n - k
  {
    calls := [];
    if k < n {
      var commit := base + k + 1;
      var call := Willing(commit, Some({base, commit}), dir, None);
      var next := dir + [Pack({base, commit})];
      FetchInto(world, src, dir, commit, {base, commit});
      PresentPushed(dir, {base, commit});
      OnePackMore(dir, {base, commit});
      var rest := GrowsAlong(world, src, next, base, k + 1, n);
      RunOfOne(world, src, dir, call, rest);
      calls := [call] + rest;
    }
  }

  lemma OnePackMore(dir: WorkDir, objects: set<Oid>)
    ensures PackCount(dir + [Pack(objects)]) == PackCount(dir) + 1
  {
    PackCountConcat(dir, [Pack(objects)]);
    assert [Pack(objects)][1..] == [];
  }

  /** So without the marker there is no bound: for every `n`, some possible run adds `n` packs to an unmarked
      repository, whatever `compact_after` says. */
  lemma GrowsWithoutTheMarker(src: Source, dir: WorkDir, n: nat) returns (world: Database, calls: seq<Call>)
    requires RepositoryFiles in dir && Marker !in dir
    ensures Numbered(world) && Typed(world) && PossibleRun(world, src, dir, calls)
    ensures PackCount(After(world, src, dir, calls)) == PackCount(dir) + n
  {
    var base := BaseAbove(Present(dir));
    world := Many(base, n);
    ManyAreMany(base, n);
    calls := GrowsAlong(world, src, dir, base, 0, n);
  }

  // ---------------------------------------------------------------------------------------------
  // A directory that cannot read one commit

  /** An unmarked repository that holds a commit and not its tree. */
  ghost predicate StuckOn(world: Database, dir: WorkDir, c: Oid) {
    && RepositoryFiles in dir && Marker !in dir
    && HasCommit(world, c) && c in Present(dir) && world[c].tree !in Present(dir)
  }

  lemma StuckCall(world: Database, src: Source, dir: WorkDir, c: Oid, call: Call)
    requires StuckOn(world, dir, c) && (call.answers.advertised.None? || call.answers.advertised == Some(c))
    ensures Next(world, src, dir, call) == dir
    ensures call.want ==> !Succeeds(world, src, dir, call)
  {
    assert !HasTree(Restrict(world, Present(dir)), world[c].tree);
  }

  /** As long as the host names that commit, nothing is fetched and nothing is removed, and no read succeeds:
      the tree object is not there. */
  lemma {:induction false} StuckForever(world: Database, src: Source, dir: WorkDir, c: Oid, calls: seq<Call>)
    requires StuckOn(world, dir, c)
    requires forall i :: 0 <= i < |calls| ==> calls[i].answers.advertised.None? || calls[i].answers.advertised == Some(c)
    ensures After(world, src, dir, calls) == dir
    ensures forall i :: 0 <= i < |calls| && calls[i].want ==> !Succeeds(world, src, dir, calls[i])
    decreases |calls|
  {
    if calls != [] {
      StuckCall(world, src, dir, c, calls[0]);
      StuckForever(world, src, dir, c, calls[1..]);
      assert forall i :: 1 <= i < |calls| ==> calls[i] == calls[1..][i - 1];
    }
  }

  /** Commits 2 and 3 have one tree, 1, and that tree one file, 0. */
  ghost predicate SharedTree(world: Database) {
    && Numbered(world) && Typed(world)
    && HasBlob(world, 0) && HasTree(world, 1) && HasCommit(world, 2) && HasCommit(world, 3) && world[3].tree == 1
    && Needs(world, 2) == {0, 1, 2} && Needs(world, 3) == {0, 1, 3}
  }

  lemma SharedTreeExists() returns (world: Database)
    ensures SharedTree(world)
  {
    var item := Item(Text("app.json"), File, 0);
    world := map[0 := BlobObject(2, Some("{}")), 1 := TreeObject([item]), 2 := CommitObject(1), 3 := CommitObject(1)];
    assert [item][1..] == [];
    assert NeedsOf(world, 1, [item]) == NeedsOfItem(world, 1, item) + NeedsOf(world, 1, []) == {0};
  }

  /** A host and a file system that do what they are asked, but for emptying. */
  function Willing(commit: Oid, pack: Option<set<Oid>>, listing: WorkDir, failsAt: Option<nat>): Call {
    Call(true, Answers(true, listing, failsAt, true, true, [], Written, true, Some(commit), pack))
  }

  const FirstPack: Thing := Pack({0, 1, 2})
  const SecondPack: Thing := Pack({3})
  const OnePack: WorkDir := [RepositoryFiles, Marker, FirstPack]
  const TwoPacks: WorkDir := [RepositoryFiles, Marker, FirstPack, SecondPack]
  const Losing: WorkDir := [Marker, FirstPack, RepositoryFiles, SecondPack]
  const Left: WorkDir := [RepositoryFiles, SecondPack]

  lemma PacksCounted()
    ensures PackCount(OnePack) == 1 && Present(OnePack) == {0, 1, 2}
    ensures PackCount(TwoPacks) == 2 && Present(TwoPacks) == {0, 1, 2, 3}
    ensures Present(Left) == {3}
  {
    var none := [RepositoryFiles, Marker];
    assert none[1..] == [Marker] && [Marker][1..] == [];
    assert Present(none) == {} && Present([RepositoryFiles]) == {};
    OnePackMore(none, {0, 1, 2});
    OnePackMore(OnePack, {3});
    PresentPushed(none, {0, 1, 2});
    PresentPushed(OnePack, {3});
    PresentPushed([RepositoryFiles], {3});
    assert none + [FirstPack] == OnePack && OnePack + [SecondPack] == TwoPacks && [RepositoryFiles] + [SecondPack] == Left;
  }

  /** A fetch into a repository that is not over its bound and does not have the commit. */
  lemma FetchInto(world: Database, src: Source, dir: WorkDir, commit: Oid, pack: set<Oid>)
    requires RepositoryFiles in dir && !Overfull(src, dir) && commit !in Present(dir)
    ensures var call := Willing(commit, Some(pack), dir, None);
      Prepared(src, dir, call.answers) == dir && Next(world, src, dir, call) == dir + [Pack(pack)]
  {
  }

  /** The first fetch brings commit 2 whole. */
  lemma FirstFetch(world: Database, src: Source)
    requires SharedTree(world)
    ensures var call := Willing(2, Some({0, 1, 2}), [], None);
      Possible(world, src, [], call.answers) && Next(world, src, [], call) == OnePack
  {
    assert Present([RepositoryFiles, Marker]) == {};
    assert [RepositoryFiles, Marker] + [FirstPack] == OnePack;
  }

  /** The second brings only commit 3, since its tree is here. */
  lemma SecondFetch(world: Database, src: Source)
    requires SharedTree(world) && src.compactAfter == 1
    ensures var call := Willing(3, Some({3}), OnePack, None);
      Possible(world, src, OnePack, call.answers) && Next(world, src, OnePack, call) == TwoPacks
  {
    PacksCounted();
    assert OnePack[0] == RepositoryFiles && OnePack + [SecondPack] == TwoPacks;
    FetchInto(world, src, OnePack, 3, {3});
  }

  /** Then a compaction removes the marker and the first pack, and fails. */
  lemma ThenLost(world: Database, src: Source)
    requires SharedTree(world) && src.compactAfter == 1
    ensures var call := Willing(3, None, Losing, Some(2));
      Possible(world, src, TwoPacks, call.answers) && Next(world, src, TwoPacks, call) == Left
  {
    PacksCounted();
    LosingLists();
    assert TwoPacks[1] == Marker;
    GivesUpAt(world, src, TwoPacks, Willing(3, None, Losing, Some(2)), 2);
    assert Losing[2..] == Left;
  }

  lemma GivesUpAt(world: Database, src: Source, dir: WorkDir, call: Call, k: nat)
    requires Overfull(src, dir) && call.answers.credential && call.answers.failsAt == Some(k) && k < |call.answers.listing|
    ensures GivesUp(src, dir, call.answers) && Next(world, src, dir, call) == call.answers.listing[k..]
  {
  }

  lemma LosingLists()
    ensures Lists(Losing, TwoPacks)
  {
    assert TwoPacks == [RepositoryFiles] + [Marker, FirstPack] + [SecondPack];
    assert Losing == [Marker, FirstPack] + [RepositoryFiles] + [SecondPack];
  }

  lemma ClosedThenStuck(world: Database)
    requires SharedTree(world)
    ensures Closed(world, TwoPacks) && StuckOn(world, Left, 3)
  {
    PacksCounted();
  }

  /** A run from an empty directory whose database is closed until a compaction gives up, and stuck from then on
      on the commit the host names. */
  lemma StuckIsReachable(src: Source) returns (world: Database, calls: seq<Call>, last: Call)
    requires src.compactAfter == 1
    ensures Typed(world) && PossibleRun(world, src, [], calls) && Closed(world, After(world, src, [], calls))
    ensures Possible(world, src, After(world, src, [], calls), last.answers)
    ensures GivesUp(src, After(world, src, [], calls), last.answers)
    ensures StuckOn(world, Next(world, src, After(world, src, [], calls), last), 3)
  {
    world := SharedTreeExists();
    var first, second := Willing(2, Some({0, 1, 2}), [], None), Willing(3, Some({3}), OnePack, None);
    last := Willing(3, None, Losing, Some(2));
    calls := [first] + ([second] + []);
    FirstFetch(world, src);
    SecondFetch(world, src);
    RunOfOne(world, src, OnePack, second, []);
    RunOfOne(world, src, [], first, [second] + []);
    ThenLost(world, src);
    ClosedThenStuck(world);
    PacksCounted();
  }

  // ---------------------------------------------------------------------------------------------
  // A directory that is lost altogether

  /** Neither a repository nor empty, and not about to be emptied. */
  predicate Dead(src: Source, dir: WorkDir) {
    RepositoryFiles !in dir && dir != [] && !Overfull(src, dir)
  }

  /** In such a directory nothing ever happens: every call of every run fails and leaves it as it is. */
  lemma {:induction false} DeadForever(world: Database, src: Source, dir: WorkDir, calls: seq<Call>)
    requires Dead(src, dir)
    ensures After(world, src, dir, calls) == dir && !SomeSucceeds(world, src, dir, calls)
    decreases |calls|
  {
    if calls != [] {
      DeadForever(world, src, dir, calls[1..]);
    }
  }

  /** And only in such a directory is every call bound to fail. */
  lemma DeadIff(world: Database, src: Source, dir: WorkDir, c: Oid)
    requires HasCommit(world, c)
    ensures Dead(src, dir) <==>
      forall want, a :: Possible(world, src, dir, a) ==> Once(world, src, dir, want, a).1.Err?
  {
    if !Dead(src, dir) {
      var a := Answers(true, dir, None, true, true, [], Written, true, Some(c), None);
      assert Possible(world, src, dir, a);
      assert Once(world, src, dir, false, a).1.Ok?;
    }
  }

  /** Any compaction can end there, by failing on the marker last. */
  lemma CompactionCanKill(world: Database, src: Source, dir: WorkDir) returns (a: Answers)
    requires Overfull(src, dir)
    ensures Possible(world, src, dir, a) && Dead(src, Once(world, src, dir, true, a).0)
  {
    a := LeavesOnly(world, src, dir, Marker);
    assert [Marker][1..] == [];
  }

  /** And so can creating a repository, by failing over a file it leaves. */
  lemma CreationCanKill(world: Database, src: Source) returns (a: Answers)
    ensures Possible(world, src, [], a) && Dead(src, Once(world, src, [], true, a).0)
  {
    a := Answers(true, [], None, true, false, [Other("description")], NotCreated, false, None, None);
  }

  /** A live directory can be lost in the next call exactly when it is about to be compacted or is still to be
      created: a repository that is within its bound, or not marked, never is. */
  lemma CanBeLostIff(world: Database, src: Source, dir: WorkDir)
    requires !Dead(src, dir)
    ensures (exists want, a :: Possible(world, src, dir, a) && Dead(src, Once(world, src, dir, want, a).0)) <==>
      Overfull(src, dir) || dir == []
  {
    if Overfull(src, dir) {
      var a := CompactionCanKill(world, src, dir);
    } else if dir == [] {
      var a := CreationCanKill(world, src);
    } else {
      forall want, a | Possible(world, src, dir, a)
        ensures !Dead(src, Once(world, src, dir, want, a).0)
      {
        assert dir <= Once(world, src, dir, want, a).0;
        StillThere(dir, Once(world, src, dir, want, a).0);
      }
    }
  }

  lemma StillThere(dir: WorkDir, after: WorkDir)
    requires dir <= after && RepositoryFiles in dir
    ensures RepositoryFiles in after
  {
    var i :| 0 <= i < |dir| && dir[i] == RepositoryFiles;
    assert after[i] == RepositoryFiles;
  }
}
