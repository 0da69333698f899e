/** What one call comes to, told from what was answered: which answers give which error, and when a read is made. */
module GitOutcomes {
  import opened Common
  import opened GitTree
  import opened GitRead
  import opened GitObjects
  import opened GitStore

  // ---------------------------------------------------------------------------------------------
  // How far the answers let a call get

  /** The directory is over its bound, and some entry of it cannot be removed. */
  predicate CannotEmpty(src: Source, dir: WorkDir, a: Answers) {
    Overfull(src, dir) && a.failsAt.Some? && a.failsAt.value < |dir|
  }

  /** What is in the directory when it is opened, if it could be emptied where it had to be. */
  function Base(src: Source, dir: WorkDir): WorkDir {
    if Overfull(src, dir) then [] else dir
  }

  /** There is a repository that opens, or an empty directory in which one is made, marked and opened. */
  predicate Opens(src: Source, dir: WorkDir, a: Answers) {
    if Base(src, dir) == [] then a.inits && a.marks.Written? && a.reopens
    else RepositoryFiles in Base(src, dir) && a.opens
  }

  /** The call gets as far as a repository. */
  predicate GetsOpen(src: Source, dir: WorkDir, a: Answers) {
    a.credential && !CannotEmpty(src, dir, a) && Opens(src, dir, a)
  }

  /** The commit is in the database, and still is when it is asked for. */
  predicate Here(src: Source, dir: WorkDir, c: Oid) {
    c in Present(Base(src, dir))
  }

  /** The host names a commit, and nothing is wanted of it, or it is here, or its pack file arrives. */
  predicate GetsCommit(src: Source, dir: WorkDir, want: bool, a: Answers) {
    a.advertised.Some? && (!want || Here(src, dir, a.advertised.value) || a.received.Some?)
  }

  predicate GetsThere(src: Source, dir: WorkDir, want: bool, a: Answers) {
    GetsOpen(src, dir, a) && GetsCommit(src, dir, want, a)
  }

  // ---------------------------------------------------------------------------------------------
  // The outcome

  lemma SameSize(listing: WorkDir, dir: WorkDir)
    requires Lists(listing, dir)
    ensures |listing| == |dir|
  {
    assert |multiset(listing)| == |listing| && |multiset(dir)| == |dir|;
  }

  lemma OpensIff(src: Source, dir: WorkDir, a: Answers)
    requires Lists(a.listing, dir)
    ensures AfterCompact(src, dir, a).1 <==> !CannotEmpty(src, dir, a)
    ensures AfterCompact(src, dir, a).1 ==>
      && AfterCompact(src, dir, a).0 == Base(src, dir)
      && (AfterOpen(Base(src, dir), a).1 <==> Opens(src, dir, a))
      && (Present(AfterOpen(Base(src, dir), a).0) ==
          if Base(src, dir) == [] && !a.inits then Present(a.debris) else Present(Base(src, dir)))
  {
    SameSize(a.listing, dir);
    assert Present([]) == {} == Present([RepositoryFiles]) == Present([RepositoryFiles, Marker]);
  }

  /** Each error is given by exactly these answers, and a check that gets through names the host's commit. */
  lemma FailsExactly(world: Database, src: Source, dir: WorkDir, want: bool, a: Answers)
    requires Lists(a.listing, dir)
    ensures var r := Once(world, src, dir, want, a).1;
      && (r == Err(CredentialFailed) <==> !a.credential)
      && (r == Err(CompactFailed) <==> a.credential && CannotEmpty(src, dir, a))
      && (r == Err(OpenFailed) <==> a.credential && !CannotEmpty(src, dir, a) && !Opens(src, dir, a))
      && (r == Err(FetchFailed) <==> GetsOpen(src, dir, a) && !GetsCommit(src, dir, want, a))
      && (r.Ok? || r == Err(ReadFailed) <==> GetsThere(src, dir, want, a))
      && (GetsThere(src, dir, want, a) && !want ==> r == Ok(Found(a.advertised.value, [])))
  {
    OpensIff(src, dir, a);
  }

  /** On a closed database, a wanting call that gets there reads: it answers with what the whole of the named
      commit holds, and fails only if that commit cannot be read at all. */
  lemma ReadsExactly(world: Database, src: Source, dir: WorkDir, a: Answers)
    requires Typed(world) && Possible(world, src, dir, a) && Closed(world, dir) && GetsThere(src, dir, true, a)
    ensures var c := a.advertised.value;
      Once(world, src, dir, true, a).1 ==
        match ReadCommit(world, c, src.keys, src.maxBytes)
        case Ok(documents) => Ok(Found(c, documents))
        case Err(_) => Err(ReadFailed)
  {
    FailsExactly(world, src, dir, true, a);
    ReadIsAtomic(world, src, dir, true, a);
  }

  /** From end to end: on a closed database, a directory call that gets there succeeds exactly when the named
      commit's tree is loadable, and answers with every file below the directory, each once, in path order. */
  lemma DirectoryCall(world: Database, src: Source, dir: WorkDir, a: Answers)
    requires Typed(world) && Possible(world, src, dir, a) && Closed(world, dir)
    requires src.keys.Prefix? && GetsThere(src, dir, true, a)
    requires HasTree(world, world[a.advertised.value].tree) && Tidy(TreeOf(world, world[a.advertised.value].tree))
    ensures var r := Once(world, src, dir, true, a).1;
      var tree := TreeOf(world, world[a.advertised.value].tree); var root := TrimSlashes(src.keys.prefix);
      && (r.Ok? <==> Loadable(tree, root, src.maxBytes))
      && (r.Ok? ==> r.value.commit == a.advertised.value && EveryFile(tree, root, r.value.documents))
  {
    ReadsExactly(world, src, dir, a);
    DirectoryRead(TreeOf(world, world[a.advertised.value].tree), src.keys.prefix, src.maxBytes);
  }

  // ---------------------------------------------------------------------------------------------
  // What it leaves

  /** The directory a call leaves: as it was, half emptied, half created, or opened with the received pack file
      added exactly when the commit was wanted and not here. */
  lemma LeavesExactly(world: Database, src: Source, dir: WorkDir, want: bool, a: Answers)
    requires Lists(a.listing, dir)
    ensures var left := Once(world, src, dir, want, a).0; var base := Base(src, dir);
      && (!a.credential ==> left == dir)
      && (a.credential && CannotEmpty(src, dir, a) ==>
            a.failsAt.value <= |a.listing| && left == a.listing[a.failsAt.value..])
      && (a.credential && !CannotEmpty(src, dir, a) && base == [] && !a.inits ==> left == a.debris)
      && (a.credential && !CannotEmpty(src, dir, a) && base == [] && a.inits && a.marks.NotCreated? ==>
            left == [RepositoryFiles])
      && (a.credential && !CannotEmpty(src, dir, a) && !Opens(src, dir, a)
          && (base != [] || (a.inits && !a.marks.NotCreated?)) ==>
            left == if base == [] then [RepositoryFiles, Marker] else base)
      && (GetsOpen(src, dir, a) ==>
            var repository := if base == [] then [RepositoryFiles, Marker] else base;
            left == if want && GetsCommit(src, dir, want, a) && !Here(src, dir, a.advertised.value)
                    then repository + [Pack(a.received.value)] else repository)
  {
    OpensIff(src, dir, a);
    assert Present([]) == {} == Present([RepositoryFiles, Marker]);
  }
}
