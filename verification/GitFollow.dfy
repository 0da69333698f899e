/**
 The watch of a git source on its working directory: every check and every read of the loop is a call that
 compacts, opens and fetches, and a delivery is what such a call read.
 */
module GitFollow {
  import opened Common
  import opened GitRead
  import opened GitObjects
  import opened GitStore
  import opened GitOutcomes
  import GitWatch

  /** Once round the loop: what answers the check, whether a refused check is refused for good, what answers the
      read if one is due, whether its documents merge, and whether the callback refuses the result. */
  datatype Poll = Poll(check: Answers, forGood: bool, read: Answers, merges: bool, refuses: bool)

  function CheckOf(r: Result<Found, Error>, forGood: bool): GitWatch.Check {
    match r
    case Ok(found) => GitWatch.At(found.commit)
    case Err(_) => if forGood then GitWatch.RefusedForGood else GitWatch.CheckFailed
  }

  function ReadOf(r: Result<Found, Error>, merges: bool): GitWatch.Read {
    if r.Ok? && merges then GitWatch.ReadAt(r.value.commit, r.value.documents) else GitWatch.ReadFailed
  }

  /** A read is due when the check names another commit than the one seen. */
  predicate ReadDue(seen: Option<Oid>, check: GitWatch.Check) {
    check.At? && seen.Some? && seen.value != check.commit
  }

  /** The calls one poll makes. */
  function CallsOf(world: Database, src: Source, dir: WorkDir, seen: Option<Oid>, poll: Poll): seq<Call> {
    var check := CheckOf(Once(world, src, dir, false, poll.check).1, poll.forGood);
    [Call(false, poll.check)] + if ReadDue(seen, check) then [Call(true, poll.read)] else []
  }

  /** The directory a poll leaves, and the tick it comes to. */
  function AfterPoll(world: Database, src: Source, dir: WorkDir, seen: Option<Oid>, poll: Poll): (WorkDir, GitWatch.Tick) {
    var (checked, answer) := Once(world, src, dir, false, poll.check);
    var check := CheckOf(answer, poll.forGood);
    if !ReadDue(seen, check) then (checked, GitWatch.Tick(check, GitWatch.ReadFailed, poll.refuses))
    else
      var (after, r) := Once(world, src, checked, true, poll.read);
      (after, GitWatch.Tick(check, ReadOf(r, poll.merges), poll.refuses))
  }

  function Follow(world: Database, src: Source, dir: WorkDir, w: GitWatch.Watch, polls: seq<Poll>): (WorkDir, GitWatch.Watch)
    decreases |polls|
  {
    if polls == [] || w.ended.Some? then (dir, w)
    else
      var (after, tick) := AfterPoll(world, src, dir, w.seen, polls[0]);
      Follow(world, src, after, GitWatch.Step(w, tick), polls[1..])
  }

  /** What the host and the file system can answer along the way. */
  ghost predicate Answerable(world: Database, src: Source, dir: WorkDir, w: GitWatch.Watch, polls: seq<Poll>)
    decreases |polls|
  {
    polls == [] || w.ended.Some? ||
    (&& Possible(world, src, dir, polls[0].check)
     && Possible(world, src, Once(world, src, dir, false, polls[0].check).0, polls[0].read)
     && var (after, tick) := AfterPoll(world, src, dir, w.seen, polls[0]);
        Answerable(world, src, after, GitWatch.Step(w, tick), polls[1..]))
  }

  /** The check of one turn of the loop, and the read if one is due. */
  method PollOnce(world: Database, src: Source, working: Working, seen: Option<Oid>, poll: Poll) returns (tick: GitWatch.Tick)
    requires Numbered(world) && Possible(world, src, working.things, poll.check)
    requires Possible(world, src, Once(world, src, working.things, false, poll.check).0, poll.read)
    modifies working
    ensures (working.things, tick) == AfterPoll(world, src, old(working.things), seen, poll)
  {
    var answer := working.OneCall(world, src, false, poll.check);
    var check := CheckOf(answer, poll.forGood);
    var read := GitWatch.ReadFailed;
    if ReadDue(seen, check) {
      var r := working.OneCall(world, src, true, poll.read);
      read := ReadOf(r, poll.merges);
    }
    tick := GitWatch.Tick(check, read, poll.refuses);
  }

  /** `watch`, until it ends or is told to stop after these polls. */
  method Watch(world: Database, src: Source, working: Working, polls: seq<Poll>)
    returns (outcome: Result<(), GitWatch.Ending>, delivered: seq<GitWatch.Delivery>)
    requires Numbered(world) && Answerable(world, src, working.things, GitWatch.Begin, polls)
    modifies working
    ensures var (dir, w) := Follow(world, src, old(working.things), GitWatch.Begin, polls);
      && working.things == dir
      && delivered == w.delivered
      && outcome == if w.ended.Some? then Err(w.ended.value) else Ok(())
  {
    var seen: Option<Oid> := None;
    delivered := [];
    ghost var w := GitWatch.Begin;
    for i := 0 to |polls|
      invariant w == GitWatch.Watch(seen, delivered, None)
      invariant Answerable(world, src, working.things, w, polls[i..])
      invariant Follow(world, src, old(working.things), GitWatch.Begin, polls) ==
        Follow(world, src, working.things, w, polls[i..])
    {
      assert polls[i..][0] == polls[i] && polls[i..][1..] == polls[i + 1..];
      var tick := PollOnce(world, src, working, seen, polls[i]);
      w := GitWatch.Step(w, tick);
      match tick.check {
        case CheckFailed =>
        case RefusedForGood =>
          return Err(GitWatch.Auth), delivered;
        case At(commit) =>
          if seen.None? {
            seen := Some(commit);
          } else if seen != Some(commit) && tick.read.ReadAt? {
            seen := Some(tick.read.commit);
            delivered := delivered + [GitWatch.Delivery(tick.read.commit, tick.read.document)];
            if tick.refuses {
              return Err(GitWatch.Callback), delivered;
            }
          }
      }
    }
    outcome := Ok(());
  }

  // ---------------------------------------------------------------------------------------------
  // Every delivery is genuine

  /** The documents are what the delivered commit holds. */
  ghost predicate Genuine(world: Database, src: Source, d: GitWatch.Delivery) {
    ReadCommit(world, d.commit, src.keys, src.maxBytes) == Ok(d.document)
  }

  ghost predicate AllGenuine(world: Database, src: Source, delivered: seq<GitWatch.Delivery>) {
    forall i :: 0 <= i < |delivered| ==> Genuine(world, src, delivered[i])
  }

  lemma PollIsGenuine(world: Database, src: Source, dir: WorkDir, w: GitWatch.Watch, poll: Poll)
    requires Typed(world) && AllGenuine(world, src, w.delivered)
    requires Possible(world, src, Once(world, src, dir, false, poll.check).0, poll.read)
    ensures AllGenuine(world, src, GitWatch.Step(w, AfterPoll(world, src, dir, w.seen, poll).1).delivered)
  {
    ReadIsAtomic(world, src, Once(world, src, dir, false, poll.check).0, true, poll.read);
  }

  /** Across any fetches and compactions, and however compactions end, every document a watch delivers is what
      the tree of the delivered commit holds. */
  lemma {:induction false} DeliveriesAreGenuine(world: Database, src: Source, dir: WorkDir, w: GitWatch.Watch, polls: seq<Poll>)
    requires Typed(world) && AllGenuine(world, src, w.delivered) && Answerable(world, src, dir, w, polls)
    ensures AllGenuine(world, src, Follow(world, src, dir, w, polls).1.delivered)
    decreases |polls|
  {
    if polls != [] && w.ended.None? {
      PollIsGenuine(world, src, dir, w, polls[0]);
      var (after, tick) := AfterPoll(world, src, dir, w.seen, polls[0]);
      DeliveriesAreGenuine(world, src, after, GitWatch.Step(w, tick), polls[1..]);
    }
  }

  // ---------------------------------------------------------------------------------------------
  // And every delivery that is due is made

  /** The check gets through, and names another commit than the one seen. */
  predicate Moved(src: Source, dir: WorkDir, seen: Option<Oid>, poll: Poll) {
    GetsThere(src, dir, false, poll.check) && seen.Some? && poll.check.advertised != seen
  }

  /** The read that follows gets through as well, from the directory the check left, and its documents merge. */
  predicate Reads(world: Database, src: Source, dir: WorkDir, seen: Option<Oid>, poll: Poll) {
    && Moved(src, dir, seen, poll)
    && GetsThere(src, Once(world, src, dir, false, poll.check).0, true, poll.read)
    && ReadCommit(world, poll.read.advertised.value, src.keys, src.maxBytes).Ok?
    && poll.merges
  }

  /** On a closed database a poll delivers exactly when the ref has moved off the commit seen and the commit the
      read then finds can be read, and delivers what that commit holds; it ends the watch exactly when a check
      that does not get through is refused for good or the callback refuses the delivery. */
  lemma DeliversExactly(world: Database, src: Source, dir: WorkDir, w: GitWatch.Watch, poll: Poll)
    requires Typed(world) && Closed(world, dir) && w.ended.None? && Possible(world, src, dir, poll.check)
    requires Possible(world, src, Once(world, src, dir, false, poll.check).0, poll.read)
    ensures var w' := GitWatch.Step(w, AfterPoll(world, src, dir, w.seen, poll).1);
      var read := Reads(world, src, dir, w.seen, poll);
      && (!read ==> w'.delivered == w.delivered)
      && (read ==>
            var c := poll.read.advertised.value;
            w'.delivered == w.delivered + [GitWatch.Delivery(c, ReadCommit(world, c, src.keys, src.maxBytes).value)])
      && (w'.ended == Some(GitWatch.Auth) <==> !GetsThere(src, dir, false, poll.check) && poll.forGood)
      && (w'.ended == Some(GitWatch.Callback) <==> read && poll.refuses)
  {
    TickIs(world, src, dir, w.seen, poll);
    OnTick(w, AfterPoll(world, src, dir, w.seen, poll).1);
  }

  lemma OnTick(w: GitWatch.Watch, tick: GitWatch.Tick)
    requires w.ended.None?
    ensures var w' := GitWatch.Step(w, tick);
      var given := tick.check.At? && w.seen.Some? && w.seen.value != tick.check.commit && tick.read.ReadAt?;
      && w'.delivered == (if given then w.delivered + [GitWatch.Delivery(tick.read.commit, tick.read.document)] else w.delivered)
      && (w'.ended == Some(GitWatch.Auth) <==> tick.check.RefusedForGood?)
      && (w'.ended == Some(GitWatch.Callback) <==> given && tick.refuses)
  {
  }

  /** The tick a poll comes to, told from its answers. */
  lemma TickIs(world: Database, src: Source, dir: WorkDir, seen: Option<Oid>, poll: Poll)
    requires Typed(world) && Closed(world, dir) && Possible(world, src, dir, poll.check)
    requires Possible(world, src, Once(world, src, dir, false, poll.check).0, poll.read)
    ensures var tick := AfterPoll(world, src, dir, seen, poll).1;
      && tick.refuses == poll.refuses
      && (tick.check.At? <==> GetsThere(src, dir, false, poll.check))
      && (tick.check.At? ==> Some(tick.check.commit) == poll.check.advertised)
      && (tick.check.RefusedForGood? <==> !GetsThere(src, dir, false, poll.check) && poll.forGood)
      && (tick.read.ReadAt? <==> Reads(world, src, dir, seen, poll))
      && (tick.read.ReadAt? ==>
            && Some(tick.read.commit) == poll.read.advertised
            && Ok(tick.read.document) == ReadCommit(world, tick.read.commit, src.keys, src.maxBytes))
  {
    var (checked, answer) := Once(world, src, dir, false, poll.check);
    var check := CheckOf(answer, poll.forGood);
    var tick := AfterPoll(world, src, dir, seen, poll).1;
    CheckIs(world, src, dir, poll);
    assert tick.check == check && tick.refuses == poll.refuses;
    assert ReadDue(seen, check) <==> Moved(src, dir, seen, poll);
    if Moved(src, dir, seen, poll) {
      assert tick.read == ReadOf(Once(world, src, checked, true, poll.read).1, poll.merges);
      CheckedIsClosed(world, src, dir, poll.check);
      ReadIs(world, src, checked, poll);
    } else {
      assert tick.read == GitWatch.ReadFailed;
    }
  }

  lemma CheckIs(world: Database, src: Source, dir: WorkDir, poll: Poll)
    requires Possible(world, src, dir, poll.check)
    ensures CheckOf(Once(world, src, dir, false, poll.check).1, poll.forGood) ==
      if GetsThere(src, dir, false, poll.check) then GitWatch.At(poll.check.advertised.value)
      else if poll.forGood then GitWatch.RefusedForGood else GitWatch.CheckFailed
  {
    FailsExactly(world, src, dir, false, poll.check);
  }

  lemma ReadIs(world: Database, src: Source, dir: WorkDir, poll: Poll)
    requires Typed(world) && Closed(world, dir) && Possible(world, src, dir, poll.read)
    ensures var read := ReadOf(Once(world, src, dir, true, poll.read).1, poll.merges); var a := poll.read;
      if GetsThere(src, dir, true, a) && ReadCommit(world, a.advertised.value, src.keys, src.maxBytes).Ok? && poll.merges
      then read == GitWatch.ReadAt(a.advertised.value, ReadCommit(world, a.advertised.value, src.keys, src.maxBytes).value)
      else read == GitWatch.ReadFailed
  {
    FailsExactly(world, src, dir, true, poll.read);
    if GetsThere(src, dir, true, poll.read) {
      ReadsExactly(world, src, dir, poll.read);
    }
  }

  lemma CheckedIsClosed(world: Database, src: Source, dir: WorkDir, a: Answers)
    requires Typed(world) && Closed(world, dir) && Possible(world, src, dir, a) && GetsThere(src, dir, false, a)
    ensures Closed(world, Once(world, src, dir, false, a).0)
  {
    OpensIff(src, dir, a);
    OnceStaysClosed(world, src, dir, false, a);
  }

  // ---------------------------------------------------------------------------------------------
  // A watch is a run of ticks on a run of calls

  /** The ticks a watch comes to, and the calls it makes. */
  function TicksOf(world: Database, src: Source, dir: WorkDir, w: GitWatch.Watch, polls: seq<Poll>): seq<GitWatch.Tick>
    decreases |polls|
  {
    if polls == [] || w.ended.Some? then []
    else
      var (after, tick) := AfterPoll(world, src, dir, w.seen, polls[0]);
      [tick] + TicksOf(world, src, after, GitWatch.Step(w, tick), polls[1..])
  }

  function AllCalls(world: Database, src: Source, dir: WorkDir, w: GitWatch.Watch, polls: seq<Poll>): seq<Call>
    decreases |polls|
  {
    if polls == [] || w.ended.Some? then []
    else
      var (after, tick) := AfterPoll(world, src, dir, w.seen, polls[0]);
      CallsOf(world, src, dir, w.seen, polls[0]) + AllCalls(world, src, after, GitWatch.Step(w, tick), polls[1..])
  }

  lemma PollIsCalls(world: Database, src: Source, dir: WorkDir, seen: Option<Oid>, poll: Poll, rest: seq<Call>)
    requires Possible(world, src, dir, poll.check)
    requires Possible(world, src, Once(world, src, dir, false, poll.check).0, poll.read)
    requires PossibleRun(world, src, AfterPoll(world, src, dir, seen, poll).0, rest)
    ensures var calls := CallsOf(world, src, dir, seen, poll) + rest;
      && PossibleRun(world, src, dir, calls)
      && After(world, src, dir, calls) == After(world, src, AfterPoll(world, src, dir, seen, poll).0, rest)
  {
    var first, second := Call(false, poll.check), Call(true, poll.read);
    var checked := Next(world, src, dir, first);
    if ReadDue(seen, CheckOf(Once(world, src, dir, false, poll.check).1, poll.forGood)) {
      RunOfOne(world, src, checked, second, rest);
      RunOfOne(world, src, dir, first, [second] + rest);
      assert [first] + [second] + rest == [first] + ([second] + rest);
    } else {
      RunOfOne(world, src, dir, first, rest);
      assert [first] + [] + rest == [first] + rest;
    }
  }

  /** What holds of every run of calls holds of the directory under a watch, and what holds of every run of ticks
      holds of its deliveries. */
  lemma {:induction false} WatchIsARun(world: Database, src: Source, dir: WorkDir, w: GitWatch.Watch, polls: seq<Poll>)
    requires Answerable(world, src, dir, w, polls)
    ensures var calls := AllCalls(world, src, dir, w, polls);
      && PossibleRun(world, src, dir, calls)
      && Follow(world, src, dir, w, polls).0 == After(world, src, dir, calls)
    ensures Follow(world, src, dir, w, polls).1 == GitWatch.Run(w, TicksOf(world, src, dir, w, polls))
    decreases |polls|
  {
    if polls != [] && w.ended.None? {
      var (after, tick) := AfterPoll(world, src, dir, w.seen, polls[0]);
      var next := GitWatch.Step(w, tick);
      WatchIsARun(world, src, after, next, polls[1..]);
      PollIsCalls(world, src, dir, w.seen, polls[0], AllCalls(world, src, after, next, polls[1..]));
      var ticks := TicksOf(world, src, dir, w, polls);
      assert ticks[0] == tick && ticks[1..] == TicksOf(world, src, after, next, polls[1..]);
    }
  }

  /** So a watch on a ref that never revisits a commit delivers, in the order of that ref's history, each commit at
      most once, never the first one seen, and each time what that commit's tree holds. */
  lemma WatchDelivers(world: Database, src: Source, dir: WorkDir, polls: seq<Poll>, history: seq<Oid>)
    returns (first: nat, moments: seq<nat>)
    requires Typed(world) && Answerable(world, src, dir, GitWatch.Begin, polls)
    requires Distinct(history) && history != []
    requires GitWatch.Follows(history, 0, TicksOf(world, src, dir, GitWatch.Begin, polls))
    ensures var delivered := Follow(world, src, dir, GitWatch.Begin, polls).1.delivered;
      && GitWatch.Advances(history, first, moments, delivered)
      && GitWatch.NeverFirst(TicksOf(world, src, dir, GitWatch.Begin, polls), delivered)
      && AllGenuine(world, src, delivered)
    ensures var seen := GitWatch.FirstSeen(TicksOf(world, src, dir, GitWatch.Begin, polls));
      first < |history| && (seen.Some? ==> seen == Some(history[first]))
  {
    WatchIsARun(world, src, dir, GitWatch.Begin, polls);
    DeliveriesAreGenuine(world, src, dir, GitWatch.Begin, polls);
    first, moments := GitWatch.DeliveriesAdvance(history, 0, TicksOf(world, src, dir, GitWatch.Begin, polls));
  }
}
