/**
 Reading documents out of one commit through the object database: the lookup of one path, the bounded stack
 walk below a directory, and the byte budget of a whole read. Every tree and every blob is fetched by its id,
 and one that is missing ends the read.
 */
module GitDatabase {
  import opened Common
  import opened GitPaths
  import opened GitTree
  import opened GitRead
  import opened GitObjects

  // ---------------------------------------------------------------------------------------------
  // Looking one path up

  /** The first item of that name in a tree. */
  method FindItem(db: Database, id: Oid, items: seq<Item>, name: string) returns (found: Option<Item>)
    ensures found.Some? <==> Find(EntriesOf(db, id, items), name).Some?
    ensures found.Some? ==> found.value in items && Find(EntriesOf(db, id, items), name) == Some(NodeOf(db, id, found.value))
  {
    assert items[0..] == items;
    for i := 0 to |items|
      invariant Find(EntriesOf(db, id, items), name) == Find(EntriesOf(db, id, items[i..]), name)
    {
      assert items[i..][0] == items[i] && items[i..][1..] == items[i + 1..];
      assert EntriesOf(db, id, items[i..])[1..] == EntriesOf(db, id, items[i + 1..]);
      if items[i].name == Text(name) {
        return Some(items[i]);
      }
    }
    assert items[|items|..] == [];
    found := None;
  }

  /** `lookup_entry`: one tree per component, each of them fetched. `parent` is the tree the entry is in. */
  method LookupEntry(db: Database, root: Oid, components: seq<string>) returns (found: Option<Item>, ghost parent: Oid)
    requires Numbered(db) && HasTree(db, root) && components != []
    ensures found.Some? <==> Lookup(TreeOf(db, root), components).Some?
    ensures found.Some? ==> Lookup(TreeOf(db, root), components) == Some(NodeOf(db, parent, found.value))
    ensures found.Some? && found.value.kind.Directory? ==> found.value.id < parent
  {
    var id := root;
    assert components[0..] == components;
    for i := 0 to |components| - 1
      invariant HasTree(db, id)
      invariant Lookup(TreeOf(db, root), components) == Lookup(TreeOf(db, id), components[i..])
    {
      assert components[i..][0] == components[i] && components[i..][1..] == components[i + 1..];
      var item := FindItem(db, id, db[id].items, components[i]);
      if item.None? || !item.value.kind.Directory? || !HasTree(db, item.value.id) {
        return None, id;
      }
      assert NumberedItems(id, db[id].items);
      id := item.value.id;
    }
    assert components[|components| - 1..] == [components[|components| - 1]];
    found := FindItem(db, id, db[id].items, components[|components| - 1]);
    assert NumberedItems(id, db[id].items);
    parent := id;
  }

  // ---------------------------------------------------------------------------------------------
  // The walk

  /** A fetched tree waiting on the walk's stack. */
  datatype Waiting = Waiting(at: string, id: Oid)

  /** What the stack stands for. */
  ghost function Spelled(db: Database, stack: seq<Waiting>): seq<Pending>
    requires Fetched(db, stack)
  {
    seq(|stack|, i requires 0 <= i < |stack| => Pending(stack[i].at, TreeOf(db, stack[i].id)))
  }

  predicate Fetched(db: Database, stack: seq<Waiting>) {
    forall i :: 0 <= i < |stack| ==> HasTree(db, stack[i].id)
  }

  predicate AllWithin(root: string, stack: seq<Waiting>) {
    forall i :: 0 <= i < |stack| ==> Within(root, stack[i].at)
  }

  lemma SpelledPush(db: Database, stack: seq<Waiting>, top: Waiting)
    requires Fetched(db, stack) && HasTree(db, top.id)
    ensures Fetched(db, stack + [top])
    ensures Spelled(db, stack + [top]) == Spelled(db, stack) + [Pending(top.at, TreeOf(db, top.id))]
  {
  }

  /** The path of an entry of the directory `at`, when its name and the path are allowed. */
  method Admit(root: string, at: string, name: Name) returns (path: Option<string>)
    requires Within(root, at)
    ensures path.None? <==> name.NotUtf8? || !Acceptable(Join(at, name.text))
    ensures path.Some? ==> path.value == Join(at, name.text) && Within(root, path.value)
  {
    if name.NotUtf8? {
      return None;
    }
    var joined := Join(at, name.text);
    var acceptable := CheckPath(joined);
    if !acceptable {
      return None;
    }
    JoinStaysWithin(root, at, name.text);
    path := if root != "" && !(root + "/" <= joined) then None else Some(joined);
  }

  /** One item of a tree: a directory goes on the stack once it is fetched, anything else is found. `entries` is
      everything below the walk's root, and `left` the items of this tree still to be looked at. */
  method VisitItem(db: Database, root: string, ghost entries: seq<Entry>, at: string, ghost id: Oid, item: Item,
                   ghost left: seq<Item>, found0: seq<string>, descended0: nat, stack0: seq<Waiting>)
    returns (ok: bool, found: seq<string>, descended: nat, stack: seq<Waiting>)
    requires left != [] && item == left[0] && (item.kind.Directory? ==> item.id < id) && Fetched(db, stack0)
    requires Accounted(root, entries, found0, descended0, at, EntriesOf(db, id, left), Spelled(db, stack0))
    requires |found0| <= MOST_KEYS && descended0 <= MOST_KEYS
    requires Within(root, at) && AllWithin(root, stack0)
    ensures ok ==> Fetched(db, stack) && AllWithin(root, stack)
    ensures ok ==> Accounted(root, entries, found, descended, at, EntriesOf(db, id, left[1..]), Spelled(db, stack))
    ensures ok ==> |found| <= MOST_KEYS && descended <= MOST_KEYS
    ensures ok ==> descended - descended0 == |stack| - |stack0| >= 0
    ensures !ok ==> Refusable(root, entries)
  {
    found, descended, stack := found0, descended0, stack0;
    ghost var rest := EntriesOf(db, id, left);
    ghost var pending := Spelled(db, stack0);
    assert rest[0] == Entry(item.name, NodeOf(db, id, item)) && rest[1..] == EntriesOf(db, id, left[1..]);
    var admitted := Admit(root, at, item.name);
    if admitted.None? {
      Unfit(root, entries, found, descended, at, rest, pending);
      return false, found, descended, stack;
    }
    var path := admitted.value;
    if item.kind.Directory? {
      descended := descended + 1;
      if descended > MOST_KEYS || !HasTree(db, item.id) {
        TooDeep(root, entries, found, descended0, at, rest, pending);
        return false, found, descended, stack;
      }
      Descend(root, entries, found, descended0, at, rest, pending, path);
      SpelledPush(db, stack, Waiting(path, item.id));
      stack := stack + [Waiting(path, item.id)];
    } else {
      Collect(root, entries, found, descended, at, rest, pending, path);
      found := found + [path];
      if |found| > MOST_KEYS {
        TooMany(found, Paths(Leaves(at, rest[1..])), Paths(LeavesPending(pending)), Paths(Leaves(root, entries)));
        return false, found, descended, stack;
      }
    }
    ok := true;
  }

  /** One turn of the walk: the items of one tree. */
  method Visit(db: Database, root: string, ghost entries: seq<Entry>, at: string, id: Oid,
               found0: seq<string>, descended0: nat, stack0: seq<Waiting>)
    returns (ok: bool, found: seq<string>, descended: nat, stack: seq<Waiting>)
    requires Numbered(db) && HasTree(db, id) && Fetched(db, stack0)
    requires Accounted(root, entries, found0, descended0, at, TreeOf(db, id), Spelled(db, stack0))
    requires |found0| <= MOST_KEYS && descended0 <= MOST_KEYS
    requires Within(root, at) && AllWithin(root, stack0)
    ensures ok ==> Fetched(db, stack) && AllWithin(root, stack)
    ensures ok ==> Accounted(root, entries, found, descended, "", [], Spelled(db, stack))
    ensures ok ==> |found| <= MOST_KEYS && descended <= MOST_KEYS
    ensures ok ==> descended - descended0 == |stack| - |stack0| >= 0
    ensures !ok ==> Refusable(root, entries)
  {
    found, descended, stack := found0, descended0, stack0;
    var items := db[id].items;
    assert items[0..] == items && NumberedItems(id, items);
    for i := 0 to |items|
      invariant Fetched(db, stack) && AllWithin(root, stack)
      invariant Accounted(root, entries, found, descended, at, EntriesOf(db, id, items[i..]), Spelled(db, stack))
      invariant |found| <= MOST_KEYS && descended <= MOST_KEYS
      invariant descended - descended0 == |stack| - |stack0| >= 0
    {
      assert items[i..][1..] == items[i + 1..];
      ok, found, descended, stack := VisitItem(db, root, entries, at, id, items[i], items[i..], found, descended, stack);
      if !ok {
        return;
      }
    }
    DirectoryDone(root, entries, found, descended, at, EntriesOf(db, id, items[|items|..]), Spelled(db, stack));
    ok := true;
  }

  lemma DirectoryDone(root: string, entries: seq<Entry>, found: seq<string>, descended: nat, at: string,
                      rest: seq<Entry>, pending: seq<Pending>)
    requires rest == [] && Accounted(root, entries, found, descended, at, rest, pending)
    ensures Accounted(root, entries, found, descended, "", [], pending)
  {
  }

  /** A name that is not UTF-8, or a path that is not acceptable. */
  lemma Unfit(root: string, entries: seq<Entry>, found: seq<string>, descended: nat,
              at: string, rest: seq<Entry>, pending: seq<Pending>)
    requires Accounted(root, entries, found, descended, at, rest, pending)
    requires rest != [] && (rest[0].name.NotUtf8? || !Acceptable(Join(at, rest[0].name.text)))
    ensures Refusable(root, entries)
  {
    assert !GoodEntry(at, rest[0]);
  }

  /** A directory too many, or one that cannot be had. */
  lemma TooDeep(root: string, entries: seq<Entry>, found: seq<string>, descended: nat,
                at: string, rest: seq<Entry>, pending: seq<Pending>)
    requires Accounted(root, entries, found, descended, at, rest, pending)
    requires rest != [] && IsDirectory(rest[0].node)
    requires MOST_KEYS <= descended || rest[0].node.Absent?
    ensures Refusable(root, entries)
  {
    assert rest[0].node.Absent? ==> !GoodEntry(at, rest[0]);
    assert 1 <= DirsOf(rest[0]);
  }

  lemma WalkDone(root: string, entries: seq<Entry>, found: seq<string>, descended: nat, pending: seq<Pending>)
    requires pending == [] && Accounted(root, entries, found, descended, "", [], pending)
    ensures multiset(found) == multiset(Paths(Leaves(root, entries))) && |found| == |Leaves(root, entries)|
    ensures descended == Dirs(entries) && Good(root, entries)
  {
    SameLength(found, Paths(Leaves(root, entries)));
  }

  lemma SpelledPop(db: Database, stack: seq<Waiting>)
    requires Fetched(db, stack) && stack != []
    ensures Fetched(db, stack[..|stack| - 1])
    ensures Spelled(db, stack)[..|stack| - 1] == Spelled(db, stack[..|stack| - 1])
  {
  }

  /** `under`, from the tree it starts at: the sorted paths of everything below that is not a directory, or a
      refusal as soon as a name, a path, a budget or a missing tree calls for one. */
  method Walk(db: Database, root: string, id: Oid) returns (r: Result<seq<string>, Refusal>)
    requires Numbered(db) && HasTree(db, id)
    ensures var entries := TreeOf(db, id);
      r.Ok? <==> Good(root, entries) && |Leaves(root, entries)| <= MOST_KEYS && Dirs(entries) <= MOST_KEYS
    ensures r.Ok? ==> Sorted(r.value) && multiset(r.value) == multiset(Paths(Leaves(root, TreeOf(db, id))))
  {
    ghost var entries := TreeOf(db, id);
    var found: seq<string> := [];
    var stack := [Waiting(root, id)];
    var descended: nat := 0;
    Begun(root, entries);
    assert Spelled(db, stack) == [Pending(root, entries)];
    while stack != []
      invariant Fetched(db, stack) && AllWithin(root, stack)
      invariant Accounted(root, entries, found, descended, "", [], Spelled(db, stack))
      invariant |found| <= MOST_KEYS && descended <= MOST_KEYS
      decreases MOST_KEYS - descended, |stack|
    {
      var top := Last(stack);
      Popped(root, entries, found, descended, Spelled(db, stack));
      SpelledPop(db, stack);
      stack := stack[..|stack| - 1];
      var ok;
      ok, found, descended, stack := Visit(db, root, entries, top.at, top.id, found, descended, stack);
      if !ok {
        return Err(Refused);
      }
    }
    WalkDone(root, entries, found, descended, Spelled(db, stack));
    SortKeeps(found);
    r := Ok(Sort(found));
  }

  // ---------------------------------------------------------------------------------------------
  // Reading under a budget

  class Budget {
    const maxBytes: nat
    var left: nat

    constructor (maxBytes: nat)
      ensures this.maxBytes == maxBytes && left == maxBytes
    {
      this.maxBytes := maxBytes;
      left := maxBytes;
    }
  }

  /** `read_blob`: a regular, UTF-8 file that can be had, and that fits the limit and what is left of it. */
  method ReadBlob(db: Database, root: Oid, path: string, budget: Budget) returns (r: Result<string, Refusal>)
    requires Numbered(db) && HasTree(db, root)
    modifies budget
    ensures var tree := TreeOf(db, root);
      r.Ok? <==>
        ReadableAt(tree, path) && SizeAt(tree, path) <= budget.maxBytes && SizeAt(tree, path) <= old(budget.left)
    ensures var tree := TreeOf(db, root);
      r.Ok? ==> r.value == ContentAt(tree, path) && budget.left == old(budget.left) - SizeAt(tree, path)
  {
    var item, parent := LookupEntry(db, root, Split(path));
    if item.None? || !item.value.kind.File? || !HasBlob(db, item.value.id) {
      return Err(Refused);
    }
    var blob := db[item.value.id];
    if blob.size > budget.maxBytes || blob.size > budget.left {
      return Err(Refused);
    }
    budget.left := budget.left - blob.size;
    r := if blob.content.Some? then Ok(blob.content.value) else Err(Refused);
  }

  /** The loop of `read_documents`: every path must answer, and all of them together fit the limit. */
  method ReadPaths(db: Database, root: Oid, paths: seq<string>, maxBytes: nat)
    returns (r: Result<seq<(string, string)>, Refusal>)
    requires Numbered(db) && HasTree(db, root)
    ensures r == ReadAll(TreeOf(db, root), paths, maxBytes)
  {
    if paths == [] {
      return Err(Refused);
    }
    ghost var tree := TreeOf(db, root);
    var documents: seq<(string, string)> := [];
    var budget := new Budget(maxBytes);
    for i := 0 to |paths|
      invariant fresh(budget) && budget.maxBytes == maxBytes
      invariant budget.left + Cost(tree, paths[..i]) == maxBytes
      invariant documents == Documents(tree, paths[..i])
      invariant forall j :: 0 <= j < i ==> ReadableAt(tree, paths[j])
    {
      CostConcat(tree, paths[..i], [paths[i]]);
      assert paths[..i] + [paths[i]] == paths[..i + 1];
      CostConcat(tree, paths[..i + 1], paths[i + 1..]);
      assert paths[..i + 1] + paths[i + 1..] == paths;
      var text := ReadBlob(db, root, paths[i], budget);
      if text.Err? {
        return Err(Refused);
      }
      documents := documents + [(paths[i], text.value)];
    }
    assert paths[..|paths|] == paths;
    r := Ok(documents);
  }

  /** The tree a directory read starts from, if it is there and can be had. */
  method StartTree(db: Database, tree: Oid, root: string) returns (start: Option<Oid>)
    requires Numbered(db) && HasTree(db, tree)
    ensures start.Some? <==> StartOf(TreeOf(db, tree), root).Some?
    ensures start.Some? ==> HasTree(db, start.value) && StartOf(TreeOf(db, tree), root) == Some(TreeOf(db, start.value))
  {
    if root == "" {
      return Some(tree);
    }
    var item, parent := LookupEntry(db, tree, Split(root));
    if item.None? || !item.value.kind.Directory? || !HasTree(db, item.value.id) {
      return None;
    }
    start := Some(item.value.id);
  }

  /** `read_documents`. */
  method ReadDocuments(db: Database, commit: Oid, keys: Keys, maxBytes: nat)
    returns (r: Result<seq<(string, string)>, Refusal>)
    requires Numbered(db)
    ensures r == ReadCommit(db, commit, keys, maxBytes)
  {
    if !HasCommit(db, commit) || !HasTree(db, db[commit].tree) {
      return Err(Refused);
    }
    var tree := db[commit].tree;
    match keys {
      case Named(paths) =>
        r := ReadPaths(db, tree, paths, maxBytes);
      case Prefix(prefix) =>
        var root := TrimSlashes(prefix);
        var start := StartTree(db, tree, root);
        if start.None? {
          return Err(Refused);
        }
        var paths := Walk(db, root, start.value);
        if paths.Err? {
          return Err(Refused);
        }
        ghost var leaves := Leaves(root, TreeOf(db, start.value));
        SortKeeps(Paths(leaves));
        SortedUnique(paths.value, Sort(Paths(leaves)));
        r := ReadPaths(db, tree, paths.value, maxBytes);
    }
  }
}
