/**
 A git source's working directory: what compaction, opening and fetching do to it, and what a read made
 through it returns.

 What is assumed of the libraries and the host: an id names one object; a pack that is received completes the
 one commit it was asked for and brings nothing but what that commit needs; a failed transfer leaves the
 database as it was; and a bare repository is initialised only in an empty directory.
 */
module GitStore {
  import opened Common
  import opened GitTree
  import opened GitRead
  import opened GitObjects
  import opened GitDatabase

  /** What a working directory holds. `RepositoryFiles` stands for what makes it a repository, and a pack for
      the objects in it. */
  datatype Thing = RepositoryFiles | Marker | Pack(objects: set<Oid>) | Other(name: string)

  type WorkDir = seq<Thing>

  function PackCount(dir: WorkDir): nat {
    if dir == [] then 0 else (if dir[0].Pack? then 1 else 0) + PackCount(dir[1..])
  }

  /** The objects in its packs. */
  function Present(dir: WorkDir): set<Oid> {
    set t, x | t in dir && t.Pack? && x in t.objects :: x
  }

  datatype Error = CredentialFailed | CompactFailed | OpenFailed | FetchFailed | ReadFailed

  /** What comes of writing the marker. A file that was created but not written in full is a marker all the same:
      nobody reads it. */
  datatype Marking = Written | Truncated | NotCreated

  /** Everything a call does not decide for itself.

      `listing` is the order the directory is listed in, and `failsAt` the entry at which emptying it fails, if
      it does. `opens` is false when a repository that is there cannot be opened; `inits`, `marks` and
      `reopens` are the three steps of creating one, and `debris` is what a failing first step leaves behind.
      `advertised` is the commit the host names, `received` the
      pack file it sends if asked. */
  datatype Answers = Answers(
    credential: bool,
    listing: WorkDir,
    failsAt: Option<nat>,
    opens: bool,
    inits: bool,
    debris: WorkDir,
    marks: Marking,
    reopens: bool,
    advertised: Option<Oid>,
    received: Option<set<Oid>>)

  datatype Found = Found(commit: Oid, documents: seq<(string, string)>)

  datatype Source = Source(keys: Keys, maxBytes: nat, compactAfter: nat)

  // ---------------------------------------------------------------------------------------------
  // One call

  /** Only a marked directory with more packs than allowed is compacted, and `0` turns it off. */
  predicate Overfull(src: Source, dir: WorkDir) {
    0 < src.compactAfter < PackCount(dir) && Marker in dir
  }

  /** What emptying leaves: nothing, or what is listed from the entry it fails at. */
  function AfterEmpty(a: Answers): (WorkDir, bool) {
    if a.failsAt.Some? && a.failsAt.value < |a.listing| then (a.listing[a.failsAt.value..], false) else ([], true)
  }

  function AfterCompact(src: Source, dir: WorkDir, a: Answers): (WorkDir, bool) {
    if Overfull(src, dir) then AfterEmpty(a) else (dir, true)
  }

  /** `open`: an existing repository as it is; otherwise a new one, stamped with the marker. */
  function AfterOpen(dir: WorkDir, a: Answers): (WorkDir, bool) {
    if RepositoryFiles in dir && a.opens then (dir, true)
    else if dir != [] then (dir, false)
    else if !a.inits then (a.debris, false)
    else match a.marks
      case NotCreated => ([RepositoryFiles], false)
      case Truncated => ([RepositoryFiles, Marker], false)
      case Written => ([RepositoryFiles, Marker], a.reopens)
  }

  /** `negotiate`: nothing is asked for when only the commit is wanted, or is already here. */
  function AfterFetch(dir: WorkDir, want: bool, a: Answers): (WorkDir, bool) {
    if a.advertised.None? then (dir, false)
    else if !want || a.advertised.value in Present(dir) then (dir, true)
    else if a.received.None? then (dir, false)
    else (dir + [Pack(a.received.value)], true)
  }

  /** The directory a call fetches into. */
  function Prepared(src: Source, dir: WorkDir, a: Answers): WorkDir {
    AfterOpen(AfterCompact(src, dir, a).0, a).0
  }

  /** `once`: credential, compaction, opening, fetching and reading, in that order. */
  function Once(world: Database, src: Source, dir: WorkDir, want: bool, a: Answers): (WorkDir, Result<Found, Error>) {
    if !a.credential then (dir, Err(CredentialFailed))
    else
      var (compacted, ok1) := AfterCompact(src, dir, a);
      if !ok1 then (compacted, Err(CompactFailed))
      else
        var (ready, ok2) := AfterOpen(compacted, a);
        if !ok2 then (ready, Err(OpenFailed))
        else
          var (fetched, ok3) := AfterFetch(ready, want, a);
          if !ok3 then (fetched, Err(FetchFailed))
          else if !want then (fetched, Ok(Found(a.advertised.value, [])))
          else match ReadCommit(Restrict(world, Present(fetched)), a.advertised.value, src.keys, src.maxBytes)
            case Ok(documents) => (fetched, Ok(Found(a.advertised.value, documents)))
            case Err(_) => (fetched, Err(ReadFailed))
  }

  /** `listing` is everything in `dir`, in some order. */
  ghost predicate Lists(listing: WorkDir, dir: WorkDir) {
    multiset(listing) == multiset(dir)
  }

  /** Initialising a repository writes neither packs nor the marker. */
  predicate Bare(debris: WorkDir) {
    forall t :: t in debris ==> !t.Pack? && t != Marker
  }

  /** What the host and the file system can answer to a call. */
  ghost predicate Possible(world: Database, src: Source, dir: WorkDir, a: Answers) {
    && Lists(a.listing, dir)
    && Bare(a.debris)
    && (a.advertised.Some? ==> HasCommit(world, a.advertised.value))
    && (a.advertised.Some? && a.received.Some? ==>
          var needed := Needs(world, a.advertised.value);
          a.received.value <= needed <= Present(Prepared(src, dir, a)) + a.received.value)
  }

  /** The directory itself, changed in place by each call. */
  class Working {
    var things: WorkDir

    constructor (things: WorkDir)
      ensures this.things == things
    {
      this.things := things;
    }

    /** `empty`: entry by entry, in listing order, until one cannot be removed. What is left was there before. */
    method Empty(a: Answers) returns (ok: bool)
      requires Lists(a.listing, things)
      modifies this
      ensures (things, ok) == AfterEmpty(a)
      ensures multiset(things) <= old(multiset(things))
      ensures ok ==> things == []
    {
      things := a.listing;
      for i := 0 to |a.listing|
        invariant things == a.listing[i..]
        invariant a.failsAt.Some? ==> i <= a.failsAt.value
      {
        if a.failsAt == Some(i) {
          assert a.listing == a.listing[..i] + a.listing[i..];
          return false;
        }
        things := things[1..];
      }
      ok := true;
    }

    method Compact(src: Source, a: Answers) returns (ok: bool)
      requires Lists(a.listing, things)
      modifies this
      ensures (things, ok) == AfterCompact(src, old(things), a)
      ensures multiset(things) <= old(multiset(things))
    {
      if src.compactAfter == 0 || Marker !in things || PackCount(things) <= src.compactAfter {
        return true;
      }
      ok := Empty(a);
    }

    method Open(a: Answers) returns (ok: bool)
      modifies this
      ensures (things, ok) == AfterOpen(old(things), a)
    {
      if RepositoryFiles in things && a.opens {
        return true;
      }
      if things != [] {
        return false;
      }
      if !a.inits {
        things := a.debris;
        return false;
      }
      things := [RepositoryFiles];
      if a.marks.NotCreated? {
        return false;
      }
      things := [RepositoryFiles, Marker];
      ok := a.marks.Written? && a.reopens;
    }

    method Fetch(want: bool, a: Answers) returns (ok: bool)
      modifies this
      ensures (things, ok) == AfterFetch(old(things), want, a)
    {
      if a.advertised.None? {
        return false;
      }
      if !want || a.advertised.value in Present(things) {
        return true;
      }
      if a.received.None? {
        return false;
      }
      things := things + [Pack(a.received.value)];
      ok := true;
    }

    method OneCall(world: Database, src: Source, want: bool, a: Answers) returns (r: Result<Found, Error>)
      requires Numbered(world) && Lists(a.listing, things)
      modifies this
      ensures (things, r) == Once(world, src, old(things), want, a)
    {
      if !a.credential {
        return Err(CredentialFailed);
      }
      var ok := Compact(src, a);
      if !ok {
        return Err(CompactFailed);
      }
      ok := Open(a);
      if !ok {
        return Err(OpenFailed);
      }
      ok := Fetch(want, a);
      if !ok {
        return Err(FetchFailed);
      }
      var commit := a.advertised.value;
      if !want {
        return Ok(Found(commit, []));
      }
      var documents := ReadDocuments(Restrict(world, Present(things)), commit, src.keys, src.maxBytes);
      r := if documents.Ok? then Ok(Found(commit, documents.value)) else Err(ReadFailed);
    }
  }

  // ---------------------------------------------------------------------------------------------
  // Runs of calls

  datatype Call = Call(want: bool, answers: Answers)

  function After(world: Database, src: Source, dir: WorkDir, calls: seq<Call>): WorkDir
    decreases |calls|
  {
    if calls == [] then dir
    else After(world, src, Once(world, src, dir, calls[0].want, calls[0].answers).0, calls[1..])
  }

  ghost predicate PossibleRun(world: Database, src: Source, dir: WorkDir, calls: seq<Call>)
    decreases |calls|
  {
    calls == [] ||
    (&& Possible(world, src, dir, calls[0].answers)
     && PossibleRun(world, src, Once(world, src, dir, calls[0].want, calls[0].answers).0, calls[1..]))
  }

  function Next(world: Database, src: Source, dir: WorkDir, call: Call): WorkDir {
    Once(world, src, dir, call.want, call.answers).0
  }

  lemma RunOfOne(world: Database, src: Source, dir: WorkDir, call: Call, rest: seq<Call>)
    requires Possible(world, src, dir, call.answers) && PossibleRun(world, src, Next(world, src, dir, call), rest)
    ensures PossibleRun(world, src, dir, [call] + rest)
    ensures After(world, src, dir, [call] + rest) == After(world, src, Next(world, src, dir, call), rest)
  {
    assert ([call] + rest)[0] == call && ([call] + rest)[1..] == rest;
  }

  // ---------------------------------------------------------------------------------------------
  // What is in a directory

  lemma PresentPushed(dir: WorkDir, objects: set<Oid>)
    ensures Present(dir + [Pack(objects)]) == Present(dir) + objects
  {
    var t := Pack(objects);
    assert (dir + [t])[|dir|] == t;
    forall x | x in Present(dir) + objects
      ensures x in Present(dir + [t])
    {
      if x in Present(dir) {
        var u :| u in dir && u.Pack? && x in u.objects;
        assert u in dir + [t];
      }
    }
  }

  lemma {:induction false} PackCountConcat(a: WorkDir, b: WorkDir)
    ensures PackCount(a + b) == PackCount(a) + PackCount(b)
  {
    if a == [] {
      assert a + b == b;
    } else {
      assert (a + b)[1..] == a[1..] + b;
      PackCountConcat(a[1..], b);
    }
  }

  lemma {:induction false} BareHasNoPacks(debris: WorkDir)
    requires Bare(debris)
    ensures PackCount(debris) == 0 && Present(debris) == {}
  {
    if debris != [] {
      BareHasNoPacks(debris[1..]);
    }
  }

  lemma LeftWasThere(a: Answers, dir: WorkDir)
    requires Lists(a.listing, dir)
    ensures forall t :: t in AfterEmpty(a).0 ==> t in dir
  {
    forall t | t in a.listing
      ensures t in dir
    {
      assert t in multiset(a.listing);
    }
  }

  // ---------------------------------------------------------------------------------------------
  // Object closure

  /** Every commit in the database has everything it takes to read it. */
  ghost predicate Closed(world: Database, dir: WorkDir) {
    forall c :: HasCommit(world, c) && c in Present(dir) ==> Needs(world, c) <= Present(dir)
  }

  /** Every pack by itself has everything it takes to read the commits in it. */
  ghost predicate SelfContained(world: Database, dir: WorkDir) {
    forall t :: t in dir && t.Pack? ==> HoldsItsOwn(world, t.objects)
  }

  ghost predicate HoldsItsOwn(world: Database, objects: set<Oid>) {
    forall c :: HasCommit(world, c) && c in objects ==> Needs(world, c) <= objects
  }

  lemma FetchStaysClosed(world: Database, dir: WorkDir, want: bool, a: Answers)
    requires Typed(world) && Closed(world, dir)
    requires a.advertised.Some? ==> HasCommit(world, a.advertised.value)
    requires a.advertised.Some? && a.received.Some? ==>
      a.received.value <= Needs(world, a.advertised.value) <= Present(dir) + a.received.value
    ensures Closed(world, AfterFetch(dir, want, a).0)
    ensures want && AfterFetch(dir, want, a).1 ==>
      Needs(world, a.advertised.value) <= Present(AfterFetch(dir, want, a).0)
  {
    var after := AfterFetch(dir, want, a).0;
    if after != dir {
      PresentPushed(dir, a.received.value);
      forall c | HasCommit(world, c) && c in a.received.value
        ensures c == a.advertised.value
      {
        NeedsNoOther(world, a.advertised.value, c);
      }
    }
  }

  lemma SelfContainedIsClosed(world: Database, dir: WorkDir)
    requires SelfContained(world, dir)
    ensures Closed(world, dir)
  {
    forall c | HasCommit(world, c) && c in Present(dir)
      ensures Needs(world, c) <= Present(dir)
    {
      var t :| t in dir && t.Pack? && c in t.objects;
      assert HoldsItsOwn(world, t.objects);
    }
  }

  /** A call that empties the directory whole, or not at all, keeps it closed. */
  lemma PreparedClosed(world: Database, src: Source, dir: WorkDir, a: Answers)
    requires Closed(world, dir) && AfterCompact(src, dir, a).1 && Bare(a.debris)
    ensures Closed(world, Prepared(src, dir, a))
  {
    BareHasNoPacks(a.debris);
    assert Present([]) == {} && Present([RepositoryFiles]) == {} && Present([RepositoryFiles, Marker]) == {};
  }

  /** One call keeps a closed database closed, if a compaction that gives up starts from self-contained packs. */
  lemma OnceStaysClosed(world: Database, src: Source, dir: WorkDir, want: bool, a: Answers)
    requires Typed(world) && Closed(world, dir) && Possible(world, src, dir, a)
    requires GivesUp(src, dir, a) ==> SelfContained(world, dir)
    ensures Closed(world, Once(world, src, dir, want, a).0)
  {
    if GivesUp(src, dir, a) {
      LeftWasThere(a, dir);
      SelfContainedIsClosed(world, AfterEmpty(a).0);
    } else if a.credential {
      PreparedClosed(world, src, dir, a);
      FetchStaysClosed(world, Prepared(src, dir, a), want, a);
    }
  }

  /** A call whose compaction gives up part-way. */
  predicate GivesUp(src: Source, dir: WorkDir, a: Answers) {
    a.credential && Overfull(src, dir) && !AfterEmpty(a).1
  }

  lemma MovedToTheEnd(dir: WorkDir, i: nat)
    requires i < |dir|
    ensures Lists(dir[..i] + dir[i + 1..] + [dir[i]], dir)
  {
    assert dir == dir[..i] + [dir[i]] + dir[i + 1..];
  }

  /** A file system on which everything but one thing of the directory is removed. */
  lemma LeavesOnly(world: Database, src: Source, dir: WorkDir, t: Thing) returns (a: Answers)
    requires Overfull(src, dir) && t in dir
    ensures Possible(world, src, dir, a) && GivesUp(src, dir, a)
    ensures forall want :: Once(world, src, dir, want, a) == ([t], Err(CompactFailed))
  {
    var i :| 0 <= i < |dir| && dir[i] == t;
    var rest := dir[..i] + dir[i + 1..];
    MovedToTheEnd(dir, i);
    a := Answers(true, rest + [t], Some(|rest|), true, true, [], Written, true, None, None);
    assert a.listing[|rest|..] == [t];
    assert AfterEmpty(a) == ([t], false);
  }

  /** Whether the next call is sure to keep a closed database closed can be told before it: it is, exactly when
      the directory is not about to be compacted or every pack in it is complete by itself. */
  lemma StaysClosedIff(world: Database, src: Source, dir: WorkDir)
    requires Typed(world) && Closed(world, dir)
    ensures (forall want, a :: Possible(world, src, dir, a) ==> Closed(world, Once(world, src, dir, want, a).0)) <==>
      (Overfull(src, dir) ==> SelfContained(world, dir))
  {
    if Overfull(src, dir) ==> SelfContained(world, dir) {
      forall want, a | Possible(world, src, dir, a)
        ensures Closed(world, Once(world, src, dir, want, a).0)
      {
        OnceStaysClosed(world, src, dir, want, a);
      }
    } else {
      var t :| t in dir && t.Pack? && !HoldsItsOwn(world, t.objects);
      var a := LeavesOnly(world, src, dir, t);
      assert Present([t]) == t.objects;
      assert !Closed(world, Once(world, src, dir, true, a).0);
    }
  }

  /** Every compaction of the run that gives up starts from self-contained packs. */
  ghost predicate CompactsSafely(world: Database, src: Source, dir: WorkDir, calls: seq<Call>)
    decreases |calls|
  {
    calls == [] ||
    (&& (GivesUp(src, dir, calls[0].answers) ==> SelfContained(world, dir))
     && CompactsSafely(world, src, Once(world, src, dir, calls[0].want, calls[0].answers).0, calls[1..]))
  }

  /** If every commit in the database is complete to begin with, it stays so through every such run. */
  lemma {:induction false} ClosedAlways(world: Database, src: Source, dir: WorkDir, calls: seq<Call>)
    requires Typed(world) && Closed(world, dir)
    requires PossibleRun(world, src, dir, calls) && CompactsSafely(world, src, dir, calls)
    ensures Closed(world, After(world, src, dir, calls))
    decreases |calls|
  {
    if calls != [] {
      OnceStaysClosed(world, src, dir, calls[0].want, calls[0].answers);
      ClosedAlways(world, src, Once(world, src, dir, calls[0].want, calls[0].answers).0, calls[1..]);
    }
  }

  /** The host sends all a commit needs, whatever is here already. */
  ghost predicate SendsWhole(world: Database, call: Call) {
    call.answers.advertised.Some? && call.answers.received.Some? ==>
      call.answers.received.value == Needs(world, call.answers.advertised.value)
  }

  lemma OnceSelfContained(world: Database, src: Source, dir: WorkDir, call: Call)
    requires Typed(world) && SelfContained(world, dir)
    requires Possible(world, src, dir, call.answers) && SendsWhole(world, call)
    ensures SelfContained(world, Once(world, src, dir, call.want, call.answers).0)
  {
    var a := call.answers;
    LeftWasThere(a, dir);
    if a.advertised.Some? && a.received.Some? {
      forall c | HasCommit(world, c) && c in a.received.value
        ensures c == a.advertised.value
      {
        NeedsNoOther(world, a.advertised.value, c);
      }
      assert HoldsItsOwn(world, a.received.value);
    }
    var ready := Prepared(src, dir, a);
    assert SelfContained(world, ready);
  }

  /** With such a host, packs are self-contained and the database closed in every run, however its compactions
      end. */
  lemma {:induction false} WholePacksAreSafe(world: Database, src: Source, dir: WorkDir, calls: seq<Call>)
    requires Typed(world) && SelfContained(world, dir) && PossibleRun(world, src, dir, calls)
    requires forall i :: 0 <= i < |calls| ==> SendsWhole(world, calls[i])
    ensures SelfContained(world, After(world, src, dir, calls)) && Closed(world, After(world, src, dir, calls))
    decreases |calls|
  {
    if calls == [] {
      SelfContainedIsClosed(world, dir);
    } else {
      OnceSelfContained(world, src, dir, calls[0]);
      WholePacksAreSafe(world, src, Once(world, src, dir, calls[0].want, calls[0].answers).0, calls[1..]);
    }
  }

  // ---------------------------------------------------------------------------------------------
  // Atomic reads

  /** What a call returns is what one commit holds, the one the host named during that very call, whatever is
      missing from the database it was read through. On a closed database the read fails only when reading the
      whole commit does: never for a missing object. */
  lemma ReadIsAtomic(world: Database, src: Source, dir: WorkDir, want: bool, a: Answers)
    requires Typed(world) && Possible(world, src, dir, a)
    ensures var r := Once(world, src, dir, want, a).1;
      r.Ok? ==>
        && a.advertised == Some(r.value.commit)
        && (want ==> ReadCommit(world, r.value.commit, src.keys, src.maxBytes) == Ok(r.value.documents))
    ensures var r := Once(world, src, dir, want, a).1;
      want && r == Err(ReadFailed) && Closed(world, dir) ==>
        ReadCommit(world, a.advertised.value, src.keys, src.maxBytes).Err?
  {
    var ready := Prepared(src, dir, a);
    var fetched := AfterFetch(ready, want, a);
    if want && fetched.1 {
      SuccessIsRight(world, Present(fetched.0), a.advertised.value, src.keys, src.maxBytes);
      if Closed(world, dir) && AfterCompact(src, dir, a).1 {
        PreparedClosed(world, src, dir, a);
        FetchStaysClosed(world, ready, want, a);
        EnoughReads(world, Present(fetched.0), a.advertised.value, src.keys, src.maxBytes);
      }
    }
  }
}
