/**
 The object database: commits, trees and blobs by their ids, the tree a commit's objects spell out, and what
 is lost when some of them are missing.

 Ids are numbered so that a tree comes after the trees it names; an id is a hash of its object, so no object
 can name itself, however indirectly.
 */
module GitObjects {
  import opened Common
  import opened GitPaths
  import opened GitTree
  import opened GitRead

  type Oid = nat

  datatype Kind = Directory | File | Symlink | Gitlink

  datatype Item = Item(name: Name, kind: Kind, id: Oid)

  datatype Object =
    | CommitObject(tree: Oid)
    | TreeObject(items: seq<Item>)
    | BlobObject(size: nat, content: Option<string>)

  type Database = map<Oid, Object>

  predicate HasCommit(db: Database, id: Oid) {
    id in db && db[id].CommitObject?
  }

  predicate HasTree(db: Database, id: Oid) {
    id in db && db[id].TreeObject?
  }

  predicate HasBlob(db: Database, id: Oid) {
    id in db && db[id].BlobObject?
  }

  /** Trees come after the trees they name. */
  ghost predicate Numbered(db: Database) {
    forall id :: HasTree(db, id) ==> NumberedItems(id, db[id].items)
  }

  predicate NumberedItems(id: Oid, items: seq<Item>) {
    forall i :: 0 <= i < |items| && items[i].kind.Directory? ==> items[i].id < id
  }

  // ---------------------------------------------------------------------------------------------
  // The tree some objects spell out

  /** The entries of tree `id`, for the items given; an object that is not there leaves an absent node. */
  function EntriesOf(db: Database, id: Oid, items: seq<Item>): seq<Entry>
    decreases id, |items|
  {
    if items == [] then []
    else [Entry(items[0].name, NodeOf(db, id, items[0]))] + EntriesOf(db, id, items[1..])
  }

  function NodeOf(db: Database, id: Oid, item: Item): Node
    decreases id, 0
  {
    match item.kind
    case Symlink => Link
    case Gitlink => Submodule
    case File => if HasBlob(db, item.id) then Blob(db[item.id].size, db[item.id].content) else Absent(false)
    case Directory =>
      if item.id < id && HasTree(db, item.id) then Dir(EntriesOf(db, item.id, db[item.id].items)) else Absent(true)
  }

  /** Everything in the tree `id`. */
  function TreeOf(db: Database, id: Oid): seq<Entry>
    requires HasTree(db, id)
  {
    EntriesOf(db, id, db[id].items)
  }

  /** What reading a commit through a database comes to. */
  function ReadCommit(db: Database, commit: Oid, keys: Keys, maxBytes: nat): Result<seq<(string, string)>, Refusal> {
    if HasCommit(db, commit) && HasTree(db, db[commit].tree)
    then ReadTree(TreeOf(db, db[commit].tree), keys, maxBytes)
    else Err(Refused)
  }

  // ---------------------------------------------------------------------------------------------
  // What a path leads to

  /** The first item of that name. */
  ghost predicate Names(items: seq<Item>, name: string, item: Item) {
    exists i :: 0 <= i < |items| && items[i] == item && item.name == Text(name)
                && forall j :: 0 <= j < i ==> items[j].name != Text(name)
  }

  /** Item by item through trees that are there, the path leads to `item`. */
  ghost predicate Leads(db: Database, id: Oid, components: seq<string>, item: Item)
    decreases |components|
  {
    && HasTree(db, id) && components != []
    && if |components| == 1 then Names(db[id].items, components[0], item)
       else exists via :: Names(db[id].items, components[0], via) && via.kind.Directory?
                          && Leads(db, via.id, components[1..], item)
  }

  lemma {:induction false} FindsTheFirst(db: Database, id: Oid, items: seq<Item>, name: string)
    ensures Find(EntriesOf(db, id, items), name).None? ==> forall item :: !Names(items, name, item)
    ensures Find(EntriesOf(db, id, items), name).Some? ==>
      exists item :: Names(items, name, item) && Find(EntriesOf(db, id, items), name) == Some(NodeOf(db, id, item))
  {
    if items != [] {
      var rest := items[1..];
      assert EntriesOf(db, id, items)[1..] == EntriesOf(db, id, rest);
      if items[0].name == Text(name) {
        assert Names(items, name, items[0]);
      } else {
        FindsTheFirst(db, id, rest, name);
        forall item
          ensures Names(rest, name, item) <==> Names(items, name, item)
        {
          NamesInRest(items, name, item);
        }
      }
    }
  }

  lemma NamesInRest(items: seq<Item>, name: string, item: Item)
    requires items != [] && items[0].name != Text(name)
    ensures Names(items[1..], name, item) <==> Names(items, name, item)
  {
    var rest := items[1..];
    if Names(rest, name, item) {
      var i :| 0 <= i < |rest| && rest[i] == item && item.name == Text(name)
               && forall j :: 0 <= j < i ==> rest[j].name != Text(name);
      assert items[i + 1] == item && forall j :: 0 < j < i + 1 ==> items[j] == rest[j - 1];
    }
    if Names(items, name, item) {
      var i :| 0 <= i < |items| && items[i] == item && item.name == Text(name)
               && forall j :: 0 <= j < i ==> items[j].name != Text(name);
      assert rest[i - 1] == item && forall j :: 0 <= j < i - 1 ==> rest[j] == items[j + 1];
    }
  }

  lemma NamesOne(items: seq<Item>, name: string, a: Item, b: Item)
    requires Names(items, name, a) && Names(items, name, b)
    ensures a == b
  {
  }

  /** A path is readable, with that text and that size, exactly when it leads to a regular file whose blob is there
      and is text: no symbolic link, submodule or directory is ever read, and nothing through a missing tree. */
  lemma {:induction false} ReadsTheBlob(db: Database, id: Oid, components: seq<string>, size: nat, text: string)
    requires Numbered(db) && HasTree(db, id) && components != []
    ensures Lookup(TreeOf(db, id), components) == Some(Blob(size, Some(text))) <==>
      exists item :: Leads(db, id, components, item) && item.kind.File? && item.id in db
                     && db[item.id] == BlobObject(size, Some(text))
    decreases |components|
  {
    var items, name := db[id].items, components[0];
    FindsTheFirst(db, id, items, name);
    var found := Find(TreeOf(db, id), name);
    if found.Some? {
      var via :| Names(items, name, via) && found == Some(NodeOf(db, id, via));
      forall item | Names(items, name, item)
        ensures item == via
      {
        NamesOne(items, name, item, via);
      }
      assert NumberedItems(id, items);
      if |components| > 1 && via.kind.Directory? && HasTree(db, via.id) {
        ReadsTheBlob(db, via.id, components[1..], size, text);
      }
    }
  }

  // ---------------------------------------------------------------------------------------------
  // Fewer objects: a read that succeeds is right all the same

  /** The objects of `world` whose ids are in `present`. */
  function Restrict(world: Database, present: set<Oid>): Database {
    map id | id in world && id in present :: world[id]
  }

  /** `more` is `less` with some absent nodes filled in. */
  predicate Fills(less: seq<Entry>, more: seq<Entry>)
    decreases less
  {
    |less| == |more| &&
    (less == [] || (FillsEntry(less[0], more[0]) && Fills(less[1..], more[1..])))
  }

  predicate FillsEntry(less: Entry, more: Entry)
    decreases less
  {
    less.name == more.name && FillsNode(less.node, more.node)
  }

  predicate FillsNode(less: Node, more: Node)
    decreases less
  {
    match less
    case Absent(directory) => IsDirectory(more) == directory
    case Dir(entries) => more.Dir? && Fills(entries, more.entries)
    case _ => more == less
  }

  lemma {:induction false} RestrictedFills(world: Database, present: set<Oid>, id: Oid, items: seq<Item>)
    ensures Fills(EntriesOf(Restrict(world, present), id, items), EntriesOf(world, id, items))
    decreases id, |items|
  {
    if items != [] {
      RestrictedFillsNode(world, present, id, items[0]);
      RestrictedFills(world, present, id, items[1..]);
      var db := Restrict(world, present);
      assert EntriesOf(db, id, items)[1..] == EntriesOf(db, id, items[1..]);
      assert EntriesOf(world, id, items)[1..] == EntriesOf(world, id, items[1..]);
    }
  }

  lemma {:induction false} RestrictedFillsNode(world: Database, present: set<Oid>, id: Oid, item: Item)
    ensures FillsNode(NodeOf(Restrict(world, present), id, item), NodeOf(world, id, item))
    decreases id, 0
  {
    var db := Restrict(world, present);
    if item.kind.Directory? && item.id < id && HasTree(db, item.id) {
      RestrictedFills(world, present, item.id, db[item.id].items);
    }
  }

  lemma {:induction false} FillsFound(less: seq<Entry>, more: seq<Entry>, name: string)
    requires Fills(less, more)
    ensures Find(less, name).Some? <==> Find(more, name).Some?
    ensures Find(less, name).Some? ==> FillsNode(Find(less, name).value, Find(more, name).value)
  {
    if less != [] && less[0].name != Text(name) {
      FillsFound(less[1..], more[1..], name);
    }
  }

  lemma {:induction false} FillsLookup(less: seq<Entry>, more: seq<Entry>, components: seq<string>)
    requires components != [] && Fills(less, more) && Lookup(less, components).Some?
    ensures Lookup(more, components).Some? && FillsNode(Lookup(less, components).value, Lookup(more, components).value)
    decreases |components|
  {
    FillsFound(less, more, components[0]);
    if |components| > 1 {
      FillsLookup(Find(less, components[0]).value.entries, Find(more, components[0]).value.entries, components[1..]);
    }
  }

  lemma ReadableFills(less: seq<Entry>, more: seq<Entry>, path: string)
    requires Fills(less, more) && ReadableAt(less, path)
    ensures ReadableAt(more, path) && ContentAt(more, path) == ContentAt(less, path) && SizeAt(more, path) == SizeAt(less, path)
  {
    FillsLookup(less, more, Split(path));
  }

  lemma {:induction false} CostFills(less: seq<Entry>, more: seq<Entry>, paths: seq<string>)
    requires Fills(less, more) && AllReadable(less, paths)
    ensures Cost(more, paths) == Cost(less, paths)
  {
    if paths != [] {
      ReadableFills(less, more, paths[0]);
      CostFills(less, more, paths[1..]);
    }
  }

  lemma ReadAllFills(less: seq<Entry>, more: seq<Entry>, paths: seq<string>, maxBytes: nat)
    requires Fills(less, more) && ReadAll(less, paths, maxBytes).Ok?
    ensures ReadAll(more, paths, maxBytes) == ReadAll(less, paths, maxBytes)
  {
    CostFills(less, more, paths);
    forall i | 0 <= i < |paths|
      ensures ReadableAt(more, paths[i]) && ContentAt(more, paths[i]) == ContentAt(less, paths[i])
    {
      ReadableFills(less, more, paths[i]);
    }
    assert Documents(more, paths) == Documents(less, paths);
  }

  /** A walk that finds every directory walks the same paths. */
  lemma {:induction false} GoodFills(at: string, less: seq<Entry>, more: seq<Entry>)
    requires Fills(less, more) && Good(at, less)
    ensures Good(at, more) && Dirs(more) == Dirs(less) && Paths(Leaves(at, more)) == Paths(Leaves(at, less))
    decreases less
  {
    if less != [] {
      GoodFills(at, less[1..], more[1..]);
      GoodFillsEntry(at, less[0], more[0]);
      PathsConcat(LeavesOf(at, less[0]), Leaves(at, less[1..]));
      PathsConcat(LeavesOf(at, more[0]), Leaves(at, more[1..]));
    }
  }

  lemma {:induction false} GoodFillsEntry(at: string, less: Entry, more: Entry)
    requires less.name == more.name && FillsNode(less.node, more.node) && GoodEntry(at, less)
    ensures GoodEntry(at, more) && DirsOf(more) == DirsOf(less)
    ensures Paths(LeavesOf(at, more)) == Paths(LeavesOf(at, less))
    decreases less
  {
    if less.node.Dir? {
      GoodFills(Join(at, less.name.text), less.node.entries, more.node.entries);
    }
  }

  lemma PathsUnderFills(less: seq<Entry>, more: seq<Entry>, root: string)
    requires Fills(less, more) && PathsUnder(less, root).Some?
    ensures PathsUnder(more, root) == PathsUnder(less, root)
  {
    if root != "" {
      FillsLookup(less, more, Split(root));
    }
    var a, b := StartOf(less, root).value, StartOf(more, root).value;
    GoodFills(root, a, b);
    assert |Paths(Leaves(root, a))| == |Leaves(root, a)| && |Paths(Leaves(root, b))| == |Leaves(root, b)|;
  }

  lemma ReadTreeFills(less: seq<Entry>, more: seq<Entry>, keys: Keys, maxBytes: nat)
    requires Fills(less, more) && ReadTree(less, keys, maxBytes).Ok?
    ensures ReadTree(more, keys, maxBytes) == ReadTree(less, keys, maxBytes)
  {
    match keys
    case Named(paths) => ReadAllFills(less, more, paths, maxBytes);
    case Prefix(prefix) =>
      PathsUnderFills(less, more, TrimSlashes(prefix));
      ReadAllFills(less, more, PathsUnder(less, TrimSlashes(prefix)).value, maxBytes);
  }

  /** Whatever is missing from a database, a read through it that succeeds is what the whole commit holds. */
  lemma SuccessIsRight(world: Database, present: set<Oid>, commit: Oid, keys: Keys, maxBytes: nat)
    ensures var r := ReadCommit(Restrict(world, present), commit, keys, maxBytes);
      r.Ok? ==> ReadCommit(world, commit, keys, maxBytes) == r
  {
    var db := Restrict(world, present);
    if ReadCommit(db, commit, keys, maxBytes).Ok? {
      var id := db[commit].tree;
      RestrictedFills(world, present, id, db[id].items);
      ReadTreeFills(TreeOf(db, id), TreeOf(world, id), keys, maxBytes);
    }
  }

  // ---------------------------------------------------------------------------------------------
  // Enough objects

  /** The objects it takes to spell out some items of tree `id`. */
  function NeedsOf(world: Database, id: Oid, items: seq<Item>): set<Oid>
    decreases id, |items|
  {
    if items == [] then {} else NeedsOfItem(world, id, items[0]) + NeedsOf(world, id, items[1..])
  }

  function NeedsOfItem(world: Database, id: Oid, item: Item): set<Oid>
    decreases id, 0
  {
    match item.kind
    case Gitlink => {}
    case Directory =>
      {item.id} + (if item.id < id && HasTree(world, item.id) then NeedsOf(world, item.id, world[item.id].items) else {})
    case _ => {item.id}
  }

  /** The objects it takes to read a commit, itself included. */
  function Needs(world: Database, commit: Oid): set<Oid> {
    {commit} +
    if !HasCommit(world, commit) then {}
    else
      var tree := world[commit].tree;
      {tree} + if HasTree(world, tree) then NeedsOf(world, tree, world[tree].items) else {}
  }

  lemma {:induction false} EnoughSpells(world: Database, present: set<Oid>, id: Oid, items: seq<Item>)
    requires NeedsOf(world, id, items) <= present
    ensures EntriesOf(Restrict(world, present), id, items) == EntriesOf(world, id, items)
    decreases id, |items|
  {
    if items != [] {
      EnoughSpellsItem(world, present, id, items[0]);
      EnoughSpells(world, present, id, items[1..]);
    }
  }

  lemma {:induction false} EnoughSpellsItem(world: Database, present: set<Oid>, id: Oid, item: Item)
    requires NeedsOfItem(world, id, item) <= present
    ensures NodeOf(Restrict(world, present), id, item) == NodeOf(world, id, item)
    decreases id, 0
  {
    if item.kind.Directory? && item.id < id && HasTree(world, item.id) {
      EnoughSpells(world, present, item.id, world[item.id].items);
    }
  }

  /** With everything a commit needs, a read of it never fails for a missing object. */
  lemma EnoughReads(world: Database, present: set<Oid>, commit: Oid, keys: Keys, maxBytes: nat)
    requires Needs(world, commit) <= present
    ensures ReadCommit(Restrict(world, present), commit, keys, maxBytes) == ReadCommit(world, commit, keys, maxBytes)
  {
    var db := Restrict(world, present);
    if HasCommit(world, commit) && HasTree(world, world[commit].tree) {
      var id := world[commit].tree;
      EnoughSpells(world, present, id, world[id].items);
    }
  }

  /** What trees and commits name is of the kind they say. */
  ghost predicate Typed(world: Database) {
    && (forall id :: HasCommit(world, id) ==> !HasCommit(world, world[id].tree))
    && (forall id :: HasTree(world, id) ==> TypedItems(world, world[id].items))
  }

  predicate TypedItems(world: Database, items: seq<Item>) {
    forall i :: 0 <= i < |items| && !items[i].kind.Gitlink? ==> !HasCommit(world, items[i].id)
  }

  lemma {:induction false} NoCommitBelow(world: Database, id: Oid, items: seq<Item>, c: Oid)
    requires Typed(world) && TypedItems(world, items) && HasCommit(world, c)
    ensures c !in NeedsOf(world, id, items)
    decreases id, |items|
  {
    if items != [] {
      var item := items[0];
      assert TypedItems(world, items[1..]);
      NoCommitBelow(world, id, items[1..], c);
      if item.kind.Directory? && item.id < id && HasTree(world, item.id) {
        NoCommitBelow(world, item.id, world[item.id].items, c);
      }
    }
  }

  /** A commit needs no other commit. */
  lemma NeedsNoOther(world: Database, commit: Oid, c: Oid)
    requires Typed(world) && HasCommit(world, c) && c in Needs(world, commit)
    ensures c == commit
  {
    if HasCommit(world, commit) && HasTree(world, world[commit].tree) {
      NoCommitBelow(world, world[commit].tree, world[world[commit].tree].items, c);
    }
  }
}
