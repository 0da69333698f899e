/** The tree of one commit, what is below a directory of it, and what a walk of it keeps. */
module GitTree {
  import opened Common
  import opened GitPaths

  datatype Name = Text(text: string) | NotUtf8

  datatype Entry = Entry(name: Name, node: Node)

  /** A blob's content is `None` when it is not UTF-8; its size is what the object header says. `Absent` is a
      directory or a file whose object cannot be had. */
  datatype Node =
    | Dir(entries: seq<Entry>)
    | Blob(size: nat, content: Option<string>)
    | Link
    | Submodule
    | Absent(directory: bool)

  datatype Leaf = Leaf(path: string, node: Node)

  function TextOf(name: Name): string {
    if name.Text? then name.text else ""
  }

  // ---------------------------------------------------------------------------------------------
  // What is below a directory

  /** Everything below `at` that is not a directory, as repository paths. */
  function Leaves(at: string, entries: seq<Entry>): seq<Leaf>
    decreases entries
  {
    if entries == [] then [] else LeavesOf(at, entries[0]) + Leaves(at, entries[1..])
  }

  function LeavesOf(at: string, entry: Entry): seq<Leaf>
    decreases entry
  {
    var path := Join(at, TextOf(entry.name));
    match entry.node
    case Dir(entries) => Leaves(path, entries)
    case Absent(true) => []
    case _ => [Leaf(path, entry.node)]
  }

  /** How many directories are below. */
  function Dirs(entries: seq<Entry>): nat
    decreases entries
  {
    if entries == [] then 0 else DirsOf(entries[0]) + Dirs(entries[1..])
  }

  function DirsOf(entry: Entry): nat
    decreases entry
  {
    match entry.node
    case Dir(entries) => 1 + Dirs(entries)
    case Absent(true) => 1
    case _ => 0
  }

  predicate IsDirectory(node: Node) {
    node.Dir? || node == Absent(true)
  }

  /** Every name below is text and makes an acceptable path, and every directory below can be had. */
  predicate Good(at: string, entries: seq<Entry>)
    decreases entries
  {
    entries == [] || (GoodEntry(at, entries[0]) && Good(at, entries[1..]))
  }

  predicate GoodEntry(at: string, entry: Entry)
    decreases entry
  {
    && entry.name.Text?
    && Acceptable(Join(at, entry.name.text))
    && entry.node != Absent(true)
    && (entry.node.Dir? ==> Good(Join(at, entry.name.text), entry.node.entries))
  }

  /** Names hold no slash, and no directory has two entries of one name. */
  predicate Tidy(entries: seq<Entry>)
    decreases entries
  {
    entries == [] ||
    (&& TidyEntry(entries[0])
     && (forall i :: 0 < i < |entries| ==> entries[i].name != entries[0].name)
     && Tidy(entries[1..]))
  }

  predicate TidyEntry(entry: Entry)
    decreases entry
  {
    SlashFree(TextOf(entry.name)) && (entry.node.Dir? ==> Tidy(entry.node.entries))
  }

  function Paths(leaves: seq<Leaf>): seq<string> {
    seq(|leaves|, i requires 0 <= i < |leaves| => leaves[i].path)
  }

  lemma PathsConcat(a: seq<Leaf>, b: seq<Leaf>)
    ensures Paths(a + b) == Paths(a) + Paths(b)
  {
  }

  // ---------------------------------------------------------------------------------------------
  // The walk

  /** A directory waiting on the walk's stack. */
  datatype Pending = Pending(at: string, entries: seq<Entry>)

  /** What the stack still has to yield. */
  ghost function LeavesPending(pending: seq<Pending>): seq<Leaf> {
    if pending == [] then []
    else Leaves(Last(pending).at, Last(pending).entries) + LeavesPending(pending[..|pending| - 1])
  }

  ghost function DirsPending(pending: seq<Pending>): nat {
    if pending == [] then 0 else Dirs(Last(pending).entries) + DirsPending(pending[..|pending| - 1])
  }

  ghost predicate GoodPending(pending: seq<Pending>) {
    pending == [] || (Good(Last(pending).at, Last(pending).entries) && GoodPending(pending[..|pending| - 1]))
  }

  /** The paths of some leaves, in no order. */
  ghost function Bag(leaves: seq<Leaf>): multiset<string> {
    multiset(Paths(leaves))
  }

  lemma BagConcat(a: seq<Leaf>, b: seq<Leaf>)
    ensures Bag(a + b) == Bag(a) + Bag(b)
  {
    PathsConcat(a, b);
  }

  /** Where a walk stands: what it has found, what it has descended into, and what is left to see. */
  ghost predicate Accounted(root: string, entries: seq<Entry>, found: seq<string>, descended: nat,
                            at: string, rest: seq<Entry>, pending: seq<Pending>) {
    && multiset(found) + Bag(Leaves(at, rest)) + Bag(LeavesPending(pending)) == Bag(Leaves(root, entries))
    && descended + Dirs(rest) + DirsPending(pending) == Dirs(entries)
    && (Good(root, entries) <==> Good(at, rest) && GoodPending(pending))
  }

  lemma Pushed(pending: seq<Pending>, p: Pending)
    ensures Bag(LeavesPending(pending + [p])) == Bag(Leaves(p.at, p.entries)) + Bag(LeavesPending(pending))
    ensures DirsPending(pending + [p]) == Dirs(p.entries) + DirsPending(pending)
    ensures GoodPending(pending + [p]) <==> Good(p.at, p.entries) && GoodPending(pending)
  {
    assert (pending + [p])[..|pending|] == pending;
    BagConcat(Leaves(p.at, p.entries), LeavesPending(pending));
  }

  /** The first entry in hand, when it is a directory at an acceptable path. */
  lemma FirstIsDirectory(at: string, rest: seq<Entry>, path: string)
    requires rest != [] && rest[0].node.Dir? && rest[0].name.Text?
    requires path == Join(at, rest[0].name.text) && Acceptable(path)
    ensures Bag(Leaves(at, rest)) == Bag(Leaves(path, rest[0].node.entries)) + Bag(Leaves(at, rest[1..]))
    ensures Dirs(rest) == 1 + Dirs(rest[0].node.entries) + Dirs(rest[1..])
    ensures Good(at, rest) <==> Good(path, rest[0].node.entries) && Good(at, rest[1..])
  {
    BagConcat(Leaves(path, rest[0].node.entries), Leaves(at, rest[1..]));
    assert LeavesOf(at, rest[0]) == Leaves(path, rest[0].node.entries);
    assert DirsOf(rest[0]) == 1 + Dirs(rest[0].node.entries);
    assert GoodEntry(at, rest[0]) <==> Good(path, rest[0].node.entries);
  }

  /** The first entry in hand, when it is anything else at an acceptable path. */
  lemma FirstIsLeaf(at: string, rest: seq<Entry>, path: string)
    requires rest != [] && !IsDirectory(rest[0].node) && rest[0].name.Text?
    requires path == Join(at, rest[0].name.text) && Acceptable(path)
    ensures Bag(Leaves(at, rest)) == multiset{path} + Bag(Leaves(at, rest[1..]))
    ensures Dirs(rest) == Dirs(rest[1..])
    ensures Good(at, rest) <==> Good(at, rest[1..])
  {
    var leaf := Leaf(path, rest[0].node);
    BagConcat([leaf], Leaves(at, rest[1..]));
    assert LeavesOf(at, rest[0]) == [leaf] && Paths([leaf]) == [path];
    assert DirsOf(rest[0]) == 0;
    assert GoodEntry(at, rest[0]);
  }

  /** Descending moves a directory's contents from the entries in hand to the stack. */
  lemma Descend(root: string, entries: seq<Entry>, found: seq<string>, descended: nat,
                at: string, rest: seq<Entry>, pending: seq<Pending>, path: string)
    requires Accounted(root, entries, found, descended, at, rest, pending)
    requires rest != [] && rest[0].node.Dir? && rest[0].name.Text?
    requires path == Join(at, rest[0].name.text) && Acceptable(path)
    ensures Accounted(root, entries, found, descended + 1, at, rest[1..],
                      pending + [Pending(path, rest[0].node.entries)])
  {
    Pushed(pending, Pending(path, rest[0].node.entries));
    FirstIsDirectory(at, rest, path);
  }

  /** Anything else moves from the entries in hand to what was found. */
  lemma Collect(root: string, entries: seq<Entry>, found: seq<string>, descended: nat,
                at: string, rest: seq<Entry>, pending: seq<Pending>, path: string)
    requires Accounted(root, entries, found, descended, at, rest, pending)
    requires rest != [] && !IsDirectory(rest[0].node) && rest[0].name.Text?
    requires path == Join(at, rest[0].name.text) && Acceptable(path)
    ensures Accounted(root, entries, found + [path], descended, at, rest[1..], pending)
  {
    FirstIsLeaf(at, rest, path);
    assert multiset(found + [path]) == multiset(found) + multiset{path};
  }

  /** A measure of the entries below, for termination. */
  ghost function Weight(entries: seq<Entry>): nat
    decreases entries
  {
    if entries == [] then 0 else WeightOf(entries[0]) + Weight(entries[1..])
  }

  ghost function WeightOf(entry: Entry): (w: nat)
    ensures entry.node.Dir? ==> Weight(entry.node.entries) < w
    ensures 0 < w
    decreases entry
  {
    if entry.node.Dir? then 2 + Weight(entry.node.entries) else 1
  }

  /** `at` is `root` or somewhere below it. */
  predicate Within(root: string, at: string) {
    root == "" || at == root || root + "/" <= at
  }

  /** So `under_prefix` never refuses what the walk discovers. */
  lemma JoinStaysWithin(root: string, at: string, name: string)
    requires Within(root, at)
    ensures root != "" ==> root + "/" <= Join(at, name)
  {
  }

  /** A walk that will be refused: a bad name or path, or too many files or directories. */
  ghost predicate Refusable(root: string, entries: seq<Entry>) {
    !Good(root, entries) || MOST_KEYS < |Leaves(root, entries)| || MOST_KEYS < Dirs(entries)
  }

  /** Taking a directory off the stack. */
  lemma Popped(root: string, entries: seq<Entry>, found: seq<string>, descended: nat, pending: seq<Pending>)
    requires pending != [] && Accounted(root, entries, found, descended, "", [], pending)
    ensures var top := Last(pending);
      Accounted(root, entries, found, descended, top.at, top.entries, pending[..|pending| - 1])
  {
    BagConcat(Leaves(Last(pending).at, Last(pending).entries), LeavesPending(pending[..|pending| - 1]));
  }

  lemma Begun(root: string, entries: seq<Entry>)
    ensures Accounted(root, entries, [], 0, "", [], [Pending(root, entries)])
  {
    Pushed([], Pending(root, entries));
    assert [] + [Pending(root, entries)] == [Pending(root, entries)];
    assert Paths([]) == [] && Leaves("", []) == [] && LeavesPending([]) == [];
  }

  lemma TooMany(found: seq<string>, a: seq<string>, b: seq<string>, all: seq<string>)
    requires multiset(found) + multiset(a) + multiset(b) == multiset(all)
    ensures |found| <= |all|
  {
    assert |multiset(found) + multiset(a) + multiset(b)| == |found| + |a| + |b|;
    assert |multiset(all)| == |all|;
  }

  lemma SameLength(a: seq<string>, b: seq<string>)
    requires multiset(a) == multiset(b)
    ensures |a| == |b|
  {
    assert |multiset(a)| == |a| && |multiset(b)| == |b|;
  }
}
