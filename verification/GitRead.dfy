/** What reading named files, or everything below a directory, out of one tree comes to. */
module GitRead {
  import opened Common
  import opened GitPaths
  import opened GitTree

  // ---------------------------------------------------------------------------------------------
  // Looking one path up

  function Find(entries: seq<Entry>, name: string): Option<Node> {
    if entries == [] then None
    else if entries[0].name == Text(name) then Some(entries[0].node)
    else Find(entries[1..], name)
  }

  /** `lookup_entry`: one entry per component. */
  function Lookup(entries: seq<Entry>, components: seq<string>): Option<Node>
    requires components != []
    decreases |components|
  {
    var found := Find(entries, components[0]);
    if found.None? || |components| == 1 then found
    else if found.value.Dir? then Lookup(found.value.entries, components[1..])
    else None
  }

  lemma {:induction false} FindNames(entries: seq<Entry>, name: string)
    requires Find(entries, name).Some?
    ensures exists i :: 0 <= i < |entries| && entries[i].name == Text(name) && entries[i].node == Find(entries, name).value
  {
    if entries[0].name != Text(name) {
      FindNames(entries[1..], name);
      var i :| 0 <= i < |entries[1..]| && entries[1..][i].name == Text(name)
               && entries[1..][i].node == Find(entries, name).value;
      assert entries[i + 1].name == Text(name);
    }
  }

  lemma LookupThrough(entries: seq<Entry>, a: seq<string>, b: seq<string>)
    requires a != [] && b != []
    requires Lookup(entries, a).Some? && Lookup(entries, a).value.Dir?
    ensures Lookup(entries, a + b) == Lookup(Lookup(entries, a).value.entries, b)
    decreases |a|
  {
    var node := Find(entries, a[0]).value;
    if |a| == 1 {
      assert a + b == [a[0]] + b && (a + b)[1..] == b;
    } else {
      assert (a + b)[1..] == a[1..] + b;
      LookupThrough(node.entries, a[1..], b);
    }
  }

  lemma {:induction false} TidyFound(entries: seq<Entry>, name: string)
    requires Tidy(entries) && Find(entries, name).Some? && Find(entries, name).value.Dir?
    ensures Tidy(Find(entries, name).value.entries)
  {
    if entries[0].name == Text(name) {
      assert TidyEntry(entries[0]);
    } else {
      TidyFound(entries[1..], name);
    }
  }

  lemma {:induction false} TidyBelow(entries: seq<Entry>, components: seq<string>)
    requires Tidy(entries) && components != []
    requires Lookup(entries, components).Some? && Lookup(entries, components).value.Dir?
    ensures Tidy(Lookup(entries, components).value.entries)
    decreases |components|
  {
    TidyFound(entries, components[0]);
    if |components| > 1 {
      TidyBelow(Find(entries, components[0]).value.entries, components[1..]);
    }
  }

  // ---------------------------------------------------------------------------------------------
  // Every leaf is found at its path

  /** The leaf's path runs through `at`, and what is left of it leads to the leaf's node. */
  ghost predicate FoundAt(at: string, entries: seq<Entry>, leaf: Leaf) {
    var n := |Components(at)|;
    && n < |Split(leaf.path)|
    && Split(leaf.path)[..n] == Components(at)
    && Lookup(entries, Split(leaf.path)[n..]) == Some(leaf.node)
  }

  lemma {:induction false} LeafFound(at: string, entries: seq<Entry>, i: nat)
    requires Tidy(entries) && Good(at, entries) && i < |Leaves(at, entries)|
    ensures FoundAt(at, entries, Leaves(at, entries)[i])
    decreases Weight(entries), 1
  {
    var first := LeavesOf(at, entries[0]);
    if i < |first| {
      LeafFoundOf(at, entries, i);
    } else {
      var rest := entries[1..];
      var leaf := Leaves(at, rest)[i - |first|];
      LeafFound(at, rest, i - |first|);
      var components := Split(leaf.path)[|Components(at)|..];
      FindNames(rest, components[0]);
      var j :| 0 <= j < |rest| && rest[j].name == Text(components[0]);
      assert entries[j + 1].name != entries[0].name;
    }
  }

  lemma {:induction false} LeafFoundOf(at: string, entries: seq<Entry>, i: nat)
    requires entries != [] && Tidy(entries) && Good(at, entries) && i < |LeavesOf(at, entries[0])|
    ensures FoundAt(at, entries, LeavesOf(at, entries[0])[i])
    decreases Weight(entries), 0
  {
    var entry := entries[0];
    var name := entry.name.text;
    var path := Join(at, name);
    assert GoodEntry(at, entry) && TidyEntry(entry);
    ComponentsOfJoin(at, name);
    if entry.node.Dir? {
      var leaf := Leaves(path, entry.node.entries)[i];
      LeafFound(path, entry.node.entries, i);
      var all := Split(leaf.path);
      var n := |Components(at)|;
      assert all[..n + 1] == Components(at) + [name];
      assert all[..n] == all[..n + 1][..n] == Components(at);
      assert all[n] == all[..n + 1][n] == name;
      assert all[n..][1..] == all[n + 1..];
    } else {
      assert Split(path)[|Components(at)|..] == [name];
    }
  }

  /** No two leaves share a path. */
  lemma {:induction false} LeavesDistinct(at: string, entries: seq<Entry>)
    requires Tidy(entries) && Good(at, entries)
    ensures Distinct(Paths(Leaves(at, entries)))
    decreases Weight(entries), 1
  {
    if entries != [] {
      var first, rest := LeavesOf(at, entries[0]), Leaves(at, entries[1..]);
      LeavesDistinct(at, entries[1..]);
      LeavesDistinctOf(at, entries[0], entries);
      PathsConcat(first, rest);
      forall i, j | 0 <= i < |first| && 0 <= j < |rest|
        ensures first[i].path != rest[j].path
      {
        HeadsDiffer(at, entries, i, j);
      }
    }
  }

  lemma {:induction false} LeavesDistinctOf(at: string, entry: Entry, entries: seq<Entry>)
    requires entries != [] && entry == entries[0] && Tidy(entries) && Good(at, entries)
    ensures Distinct(Paths(LeavesOf(at, entry)))
    decreases Weight(entries), 0
  {
    assert GoodEntry(at, entry) && TidyEntry(entry);
    if entry.node.Dir? {
      LeavesDistinct(Join(at, entry.name.text), entry.node.entries);
    }
  }

  lemma HeadsDiffer(at: string, entries: seq<Entry>, i: nat, j: nat)
    requires entries != [] && Tidy(entries) && Good(at, entries)
    requires i < |LeavesOf(at, entries[0])| && j < |Leaves(at, entries[1..])|
    ensures LeavesOf(at, entries[0])[i].path != Leaves(at, entries[1..])[j].path
  {
    var n := |Components(at)|;
    var a, b := LeavesOf(at, entries[0])[i], Leaves(at, entries[1..])[j];
    var only := [entries[0]];
    assert Leaves(at, only) == LeavesOf(at, entries[0]) + Leaves(at, []) == LeavesOf(at, entries[0]);
    assert GoodEntry(at, entries[0]) && TidyEntry(entries[0]);
    assert Tidy(only) && Good(at, only);
    LeafFound(at, only, i);
    LeafFound(at, entries[1..], j);
    FindNames(only, Split(a.path)[n..][0]);
    FindNames(entries[1..], Split(b.path)[n..][0]);
    var k :| 0 <= k < |entries[1..]| && entries[1..][k].name == Text(Split(b.path)[n..][0]);
    assert entries[k + 1].name != entries[0].name;
  }

  // ---------------------------------------------------------------------------------------------
  // Reading under a budget

  predicate Readable(node: Node) {
    node.Blob? && node.content.Some?
  }

  function NodeAt(tree: seq<Entry>, path: string): Option<Node> {
    Lookup(tree, Split(path))
  }

  predicate ReadableAt(tree: seq<Entry>, path: string) {
    NodeAt(tree, path).Some? && Readable(NodeAt(tree, path).value)
  }

  function ContentAt(tree: seq<Entry>, path: string): string {
    if ReadableAt(tree, path) then NodeAt(tree, path).value.content.value else ""
  }

  function SizeAt(tree: seq<Entry>, path: string): nat {
    if NodeAt(tree, path).Some? && NodeAt(tree, path).value.Blob? then NodeAt(tree, path).value.size else 0
  }

  function Documents(tree: seq<Entry>, paths: seq<string>): seq<(string, string)> {
    seq(|paths|, i requires 0 <= i < |paths| => (paths[i], ContentAt(tree, paths[i])))
  }

  /** What reading `paths` costs in bytes. */
  function Cost(tree: seq<Entry>, paths: seq<string>): nat {
    if paths == [] then 0 else SizeAt(tree, paths[0]) + Cost(tree, paths[1..])
  }

  lemma {:induction false} CostConcat(tree: seq<Entry>, a: seq<string>, b: seq<string>)
    ensures Cost(tree, a + b) == Cost(tree, a) + Cost(tree, b)
  {
    if a == [] {
      assert a + b == b;
    } else {
      CostConcat(tree, a[1..], b);
      assert (a + b)[1..] == a[1..] + b;
    }
  }

  lemma CostWithout(tree: seq<Entry>, b: seq<string>, i: nat)
    requires i < |b|
    ensures Cost(tree, b) == SizeAt(tree, b[i]) + Cost(tree, b[..i] + b[i + 1..])
    ensures multiset(b[..i] + b[i + 1..]) == multiset(b) - multiset{b[i]}
  {
    var tail := [b[i]] + b[i + 1..];
    assert b == b[..i] + tail;
    CostConcat(tree, b[..i], tail);
    CostConcat(tree, b[..i], b[i + 1..]);
    assert tail[1..] == b[i + 1..];
  }

  lemma Tail(a: seq<string>)
    requires a != []
    ensures multiset(a[1..]) == multiset(a) - multiset{a[0]}
  {
    assert a == [a[0]] + a[1..];
  }

  /** The cost does not depend on the order. */
  lemma {:induction false} CostOfPermutation(tree: seq<Entry>, a: seq<string>, b: seq<string>)
    requires multiset(a) == multiset(b)
    ensures Cost(tree, a) == Cost(tree, b)
  {
    SameLength(a, b);
    if a != [] {
      assert a[0] in multiset(b);
      var i :| 0 <= i < |b| && b[i] == a[0];
      var rest := b[..i] + b[i + 1..];
      CostWithout(tree, b, i);
      Tail(a);
      CostOfPermutation(tree, a[1..], rest);
    }
  }

  predicate AllReadable(tree: seq<Entry>, paths: seq<string>) {
    forall i :: 0 <= i < |paths| ==> ReadableAt(tree, paths[i])
  }

  function ReadAll(tree: seq<Entry>, paths: seq<string>, maxBytes: nat): Result<seq<(string, string)>, Refusal> {
    if paths != [] && AllReadable(tree, paths) && Cost(tree, paths) <= maxBytes
    then Ok(Documents(tree, paths)) else Err(Refused)
  }

  // ---------------------------------------------------------------------------------------------
  // Reading a directory

  function TrimSlashes(s: string): string {
    if s != "" && s[|s| - 1] == '/' then TrimSlashes(s[..|s| - 1]) else s
  }

  /** What is left has no slash at its end, and only slashes were taken off. */
  lemma {:induction false} Trimmed(s: string)
    ensures var t := TrimSlashes(s);
      && t <= s && (t == "" || t[|t| - 1] != '/')
      && forall i :: |t| <= i < |s| ==> s[i] == '/'
  {
    if s != "" && s[|s| - 1] == '/' {
      Trimmed(s[..|s| - 1]);
    }
  }

  /** The entries of the directory named, if there is one. */
  function StartOf(tree: seq<Entry>, root: string): Option<seq<Entry>> {
    if root == "" then Some(tree)
    else match Lookup(tree, Split(root))
      case Some(Dir(entries)) => Some(entries)
      case _ => None
  }

  function Total(leaves: seq<Leaf>): nat {
    if leaves == [] then 0
    else (if leaves[0].node.Blob? then leaves[0].node.size else 0) + Total(leaves[1..])
  }

  /** What a directory read is supposed to accept: a directory that is there, holds at least one file,
      only regular UTF-8 ones, under names and in numbers that are allowed, and within the byte limit. */
  ghost predicate Loadable(tree: seq<Entry>, root: string, maxBytes: nat) {
    StartOf(tree, root).Some? &&
    var entries := StartOf(tree, root).value;
    var leaves := Leaves(root, entries);
    && Good(root, entries)
    && (forall i :: 0 <= i < |leaves| ==> Acceptable(leaves[i].path))
    && 0 < |leaves| <= 512
    && Dirs(entries) <= 512
    && (forall i :: 0 <= i < |leaves| ==> Readable(leaves[i].node))
    && Total(leaves) <= maxBytes
  }

  /** What is walked has acceptable paths throughout. */
  lemma {:induction false} GoodPaths(at: string, entries: seq<Entry>, i: nat)
    requires Good(at, entries) && i < |Leaves(at, entries)|
    ensures Acceptable(Leaves(at, entries)[i].path)
    decreases Weight(entries)
  {
    var first := LeavesOf(at, entries[0]);
    assert GoodEntry(at, entries[0]);
    if |first| <= i {
      GoodPaths(at, entries[1..], i - |first|);
    } else if entries[0].node.Dir? {
      GoodPaths(Join(at, entries[0].name.text), entries[0].node.entries, i);
    }
  }

  /** In a tidy tree, a leaf's path leads to the leaf from the repository root. */
  lemma LeafAt(tree: seq<Entry>, root: string, i: nat)
    requires Tidy(tree) && StartOf(tree, root).Some?
    requires Good(root, StartOf(tree, root).value) && i < |Leaves(root, StartOf(tree, root).value)|
    ensures var leaf := Leaves(root, StartOf(tree, root).value)[i];
      NodeAt(tree, leaf.path) == Some(leaf.node)
  {
    var entries := StartOf(tree, root).value;
    var leaf := Leaves(root, entries)[i];
    if root != "" {
      TidyBelow(tree, Split(root));
    }
    LeafFound(root, entries, i);
    var n := |Components(root)|;
    assert Split(leaf.path) == Components(root) + Split(leaf.path)[n..];
    if root != "" {
      LookupThrough(tree, Split(root), Split(leaf.path)[n..]);
    }
  }

  /** So reading the leaves' paths costs what the leaves weigh. */
  lemma {:induction false} CostOfLeaves(tree: seq<Entry>, leaves: seq<Leaf>)
    requires forall i :: 0 <= i < |leaves| ==> NodeAt(tree, leaves[i].path) == Some(leaves[i].node)
    ensures Cost(tree, Paths(leaves)) == Total(leaves)
  {
    if leaves != [] {
      CostOfLeaves(tree, leaves[1..]);
      assert Paths(leaves)[1..] == Paths(leaves[1..]);
      assert Paths(leaves)[0] == leaves[0].path;
    }
  }

  lemma MembersOf(a: seq<string>, b: seq<string>)
    requires multiset(a) == multiset(b)
    ensures forall p :: p in a <==> p in b
  {
    assert forall p :: p in a <==> p in multiset(a);
  }

  lemma ReadableByPath(tree: seq<Entry>, leaves: seq<Leaf>, paths: seq<string>)
    requires forall i :: 0 <= i < |leaves| ==> NodeAt(tree, leaves[i].path) == Some(leaves[i].node)
    requires multiset(paths) == multiset(Paths(leaves))
    ensures (forall i :: 0 <= i < |leaves| ==> Readable(leaves[i].node)) <==>
            AllReadable(tree, paths)
  {
    var all := Paths(leaves);
    MembersOf(paths, all);
    assert forall i :: 0 <= i < |leaves| ==> all[i] == leaves[i].path;
    if forall i :: 0 <= i < |leaves| ==> Readable(leaves[i].node) {
      forall i | 0 <= i < |paths|
        ensures ReadableAt(tree, paths[i])
      {
        assert paths[i] in all;
      }
    }
    if AllReadable(tree, paths) {
      forall i | 0 <= i < |leaves|
        ensures Readable(leaves[i].node)
      {
        assert all[i] in paths;
      }
    }
  }

  /** The whole of a read in one place: the sorted paths of a tidy directory read exactly when the
      directory is loadable. */
  lemma ReadsExactlyLoadable(tree: seq<Entry>, root: string, maxBytes: nat, paths: seq<string>)
    requires Tidy(tree) && StartOf(tree, root).Some?
    requires var entries := StartOf(tree, root).value;
      && Good(root, entries) && |Leaves(root, entries)| <= MOST_KEYS && Dirs(entries) <= MOST_KEYS
      && multiset(paths) == multiset(Paths(Leaves(root, entries)))
    ensures Loadable(tree, root, maxBytes) <==>
      paths != [] && AllReadable(tree, paths) && Cost(tree, paths) <= maxBytes
    ensures Distinct(paths)
  {
    var leaves := Leaves(root, StartOf(tree, root).value);
    forall i | 0 <= i < |leaves|
      ensures NodeAt(tree, leaves[i].path) == Some(leaves[i].node)
    {
      LeafAt(tree, root, i);
    }
    forall i | 0 <= i < |leaves|
      ensures Acceptable(leaves[i].path)
    {
      GoodPaths(root, StartOf(tree, root).value, i);
    }
    CostOfLeaves(tree, leaves);
    CostOfPermutation(tree, paths, Paths(leaves));
    SameLength(paths, Paths(leaves));
    ReadableByPath(tree, leaves, paths);
    if root != "" {
      TidyBelow(tree, Split(root));
    }
    LeavesDistinct(root, StartOf(tree, root).value);
    DistinctPermutation(Paths(leaves), paths);
  }

  lemma RepeatCounts(b: seq<string>, i: nat, j: nat)
    requires i < j < |b|
    ensures b[i] == b[j] ==> 2 <= multiset(b)[b[i]]
  {
    assert b == b[..i] + [b[i]] + b[i + 1..j] + [b[j]] + b[j + 1..];
  }

  lemma DistinctPermutation(a: seq<string>, b: seq<string>)
    requires Distinct(a) && multiset(a) == multiset(b)
    ensures Distinct(b)
  {
    DistinctCounts(a);
    forall i, j | 0 <= i < j < |b|
      ensures b[i] != b[j]
    {
      RepeatCounts(b, i, j);
    }
  }

  lemma {:induction false} DistinctCounts(a: seq<string>)
    requires Distinct(a)
    ensures forall p :: multiset(a)[p] <= 1
  {
    if a != [] {
      DistinctCounts(a[1..]);
      assert a == [a[0]] + a[1..];
      assert a[0] !in multiset(a[1..]);
    }
  }

  /** What a source reads: named files, or everything below a directory. */
  datatype Keys = Named(paths: seq<string>) | Prefix(prefix: string)

  /** The sorted paths a directory read goes through, when the walk accepts the directory. */
  function PathsUnder(tree: seq<Entry>, root: string): Option<seq<string>> {
    match StartOf(tree, root)
    case None => None
    case Some(entries) =>
      if Good(root, entries) && |Leaves(root, entries)| <= MOST_KEYS && Dirs(entries) <= MOST_KEYS
      then Some(Sort(Paths(Leaves(root, entries)))) else None
  }

  /** What `read_documents` answers, as a function of the one tree it reads from. */
  function ReadTree(tree: seq<Entry>, keys: Keys, maxBytes: nat): Result<seq<(string, string)>, Refusal> {
    match keys
    case Named(paths) => ReadAll(tree, paths, maxBytes)
    case Prefix(prefix) =>
      match PathsUnder(tree, TrimSlashes(prefix))
      case None => Err(Refused)
      case Some(paths) => ReadAll(tree, paths, maxBytes)
  }

  /** The documents are the files below a directory: every one of them, once each, in path order, each with the
      text of the blob at its path. */
  ghost predicate EveryFile(tree: seq<Entry>, root: string, documents: seq<(string, string)>) {
    && StartOf(tree, root).Some?
    && Sorted(PathsIn(documents)) && Distinct(PathsIn(documents))
    && multiset(PathsIn(documents)) == multiset(Paths(Leaves(root, StartOf(tree, root).value)))
    && HoldTheirFiles(tree, documents)
  }

  function PathsIn(documents: seq<(string, string)>): seq<string> {
    seq(|documents|, i requires 0 <= i < |documents| => documents[i].0)
  }

  /** Each document is the text of the file at its path. */
  ghost predicate HoldTheirFiles(tree: seq<Entry>, documents: seq<(string, string)>) {
    forall i :: 0 <= i < |documents| ==>
      && Lookup(tree, Split(documents[i].0)).Some?
      && Lookup(tree, Split(documents[i].0)).value.Blob?
      && Lookup(tree, Split(documents[i].0)).value.content == Some(documents[i].1)
  }

  /** A read of named files succeeds exactly when there is one, each is a regular UTF-8 file and together they fit,
      and then answers with their texts in the order they were named. */
  lemma NamedRead(tree: seq<Entry>, paths: seq<string>, maxBytes: nat)
    ensures var r := ReadTree(tree, Named(paths), maxBytes);
      && (r.Ok? <==>
            && paths != [] && Cost(tree, paths) <= maxBytes
            && forall i :: 0 <= i < |paths| ==>
                 var node := Lookup(tree, Split(paths[i])); node.Some? && node.value.Blob? && node.value.content.Some?)
      && (r.Ok? ==> PathsIn(r.value) == paths && HoldTheirFiles(tree, r.value))
  {
    var r := ReadTree(tree, Named(paths), maxBytes);
    assert AllReadable(tree, paths) <==> forall i :: 0 <= i < |paths| ==>
      var node := Lookup(tree, Split(paths[i])); node.Some? && node.value.Blob? && node.value.content.Some?;
    if r.Ok? {
      DocumentsHold(tree, paths);
    }
  }

  lemma DocumentsHold(tree: seq<Entry>, paths: seq<string>)
    requires AllReadable(tree, paths)
    ensures PathsIn(Documents(tree, paths)) == paths && HoldTheirFiles(tree, Documents(tree, paths))
  {
    var documents := Documents(tree, paths);
    forall i | 0 <= i < |documents|
      ensures documents[i].0 == paths[i] && Lookup(tree, Split(documents[i].0)) == NodeAt(tree, paths[i])
    {
      assert ReadableAt(tree, paths[i]);
    }
  }

  /** In a tidy tree a directory read succeeds exactly when the directory is loadable, and then answers
      with every file below it, once each, in path order. */
  lemma DirectoryRead(tree: seq<Entry>, prefix: string, maxBytes: nat)
    requires Tidy(tree)
    ensures var r := ReadTree(tree, Prefix(prefix), maxBytes); var root := TrimSlashes(prefix);
      && (r.Ok? <==> Loadable(tree, root, maxBytes))
      && (r.Ok? ==> EveryFile(tree, root, r.value))
  {
    var root := TrimSlashes(prefix);
    var found := PathsUnder(tree, root);
    if found.Some? {
      var leaves := Leaves(root, StartOf(tree, root).value);
      SortKeeps(Paths(leaves));
      ReadsExactlyLoadable(tree, root, maxBytes, found.value);
      if AllReadable(tree, found.value) {
        DocumentsHold(tree, found.value);
      }
    }
  }
}
