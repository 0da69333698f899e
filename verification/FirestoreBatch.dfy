/** `:batchGet`: a reply in any order, held by path and put back into the order of the call. */
module FirestoreBatch {
  import opened Common

  /** One result. A found document has a name and a section unless it is malformed. */
  datatype Item = Missing(missing: string) | Found(name: Option<string>, section: Option<string>) | Neither

  /** The full resource name of a path. */
  function NameOf(root: string, path: string): string {
    root + "/" + path
  }

  /** The path of a resource name, or the whole name when it is not under this database. */
  function PathOf(root: string, name: string): string {
    if root + "/" <= name then name[|root| + 1..] else name
  }

  /** A name leads to a path exactly when it is that path's name, or when it is outside the database and
      spelled like the path. */
  lemma PathOfIff(root: string, name: string, path: string)
    ensures PathOf(root, name) == path <==> name == NameOf(root, path) || (name == path && !(root + "/" <= name))
  {
    if root + "/" <= name {
      assert name == root + "/" + name[|root| + 1..];
    }
    assert NameOf(root, path)[|root| + 1..] == path;
    assert root + "/" <= NameOf(root, path);
  }

  // ---------------------------------------------------------------------------------------------
  // What is asked for and what is answered

  predicate WellFormed(item: Item) {
    item.Found? && item.name.Some? && item.section.Some?
  }

  predicate AnswersFor(root: string, item: Item, path: string) {
    WellFormed(item) && PathOf(root, item.name.value) == path
  }

  /** Some result answers for the path. */
  ghost predicate Answered(root: string, reply: seq<Item>, path: string) {
    exists i :: 0 <= i < |reply| && AnswersFor(root, reply[i], path)
  }

  /** Some result answers for the path with that section. */
  ghost predicate AnsweredWith(root: string, reply: seq<Item>, path: string, section: string) {
    exists i :: 0 <= i < |reply| && AnswersFor(root, reply[i], path) && reply[i].section.value == section
  }

  /** Every result is a well-formed document that was asked for. */
  ghost predicate NothingElse(root: string, paths: seq<string>, reply: seq<Item>) {
    forall i :: 0 <= i < |reply| ==> WellFormed(reply[i]) && PathOf(root, reply[i].name.value) in paths
  }

  /** No path is answered twice. */
  ghost predicate NoneTwice(root: string, reply: seq<Item>) {
    forall i, j, path ::
      0 <= i < |reply| && 0 <= j < |reply| && AnswersFor(root, reply[i], path) && AnswersFor(root, reply[j], path) ==>
      i == j
  }

  /** No path is left out. */
  ghost predicate NoneLeftOut(root: string, paths: seq<string>, reply: seq<Item>) {
    forall k :: 0 <= k < |paths| ==> Answered(root, reply, paths[k])
  }

  ghost predicate Complete(root: string, paths: seq<string>, reply: seq<Item>) {
    NothingElse(root, paths, reply) && NoneTwice(root, reply) && NoneLeftOut(root, paths, reply)
  }

  /** The answers are in call order, each the section some result gave for that path. */
  ghost predicate InCallOrder(root: string, paths: seq<string>, reply: seq<Item>, answers: seq<(string, string)>) {
    && |answers| == |paths|
    && forall k :: 0 <= k < |paths| ==> answers[k].0 == paths[k] && AnsweredWith(root, reply, paths[k], answers[k].1)
  }

  function Lookup(held: seq<(string, string)>, path: string): (found: Option<(string, string)>)
    ensures found.Some? ==> found.value.0 == path && found.value in held
    ensures found.None? ==> forall i :: 0 <= i < |held| ==> held[i].0 != path
  {
    if held == [] then None
    else if held[0].0 == path then Some(held[0])
    else Lookup(held[1..], path)
  }

  /** What has been held of the first `n` results. */
  ghost predicate Held(root: string, paths: seq<string>, reply: seq<Item>, n: nat, held: seq<(string, string)>)
    requires n <= |reply|
  {
    && |held| == n
    && (forall i :: 0 <= i < n ==>
          WellFormed(reply[i]) && held[i] == (PathOf(root, reply[i].name.value), reply[i].section.value)
          && held[i].0 in paths)
    && (forall i, j :: 0 <= i < j < n ==> held[i].0 != held[j].0)
  }

  /** The first half of `batch`: a list of documents that were asked for, each once. */
  method HoldReply(root: string, paths: seq<string>, reply: seq<Item>) returns (ok: bool, held: seq<(string, string)>)
    ensures ok ==> Held(root, paths, reply, |reply|, held)
    ensures !ok ==> !Complete(root, paths, reply)
  {
    held := [];
    for i := 0 to |reply|
      invariant Held(root, paths, reply, i, held)
    {
      var item := reply[i];
      if !item.Found? || item.name.None? {
        assert !WellFormed(reply[i]);
        return false, held;
      }
      var path := PathOf(root, item.name.value);
      if path !in paths {
        return false, held;
      }
      for j := 0 to |held|
        invariant forall k :: 0 <= k < j ==> held[k].0 != path
      {
        if held[j].0 == path {
          RepeatIsIncomplete(root, paths, reply, j, i);
          return false, held;
        }
      }
      if item.section.None? {
        assert !WellFormed(reply[i]);
        return false, held;
      }
      held := held + [(path, item.section.value)];
    }
    ok := true;
  }

  /** A second result for one path is refused before its fields are read; had they been unreadable it would
      be refused for that. */
  lemma RepeatIsIncomplete(root: string, paths: seq<string>, reply: seq<Item>, j: nat, i: nat)
    requires j < i < |reply| && WellFormed(reply[j]) && reply[i].Found? && reply[i].name.Some?
    requires PathOf(root, reply[j].name.value) == PathOf(root, reply[i].name.value)
    ensures !Complete(root, paths, reply)
  {
    if WellFormed(reply[i]) {
      var path := PathOf(root, reply[i].name.value);
      assert AnswersFor(root, reply[i], path) && AnswersFor(root, reply[j], path);
    }
  }

  /** The second half: every path's document, in call order. */
  method PutInOrder(paths: seq<string>, held: seq<(string, string)>) returns (ok: bool, answers: seq<(string, string)>)
    ensures ok <==> forall k :: 0 <= k < |paths| ==> Lookup(held, paths[k]).Some?
    ensures ok ==> |answers| == |paths| && forall k :: 0 <= k < |paths| ==> Lookup(held, paths[k]) == Some(answers[k])
  {
    answers := [];
    for k := 0 to |paths|
      invariant |answers| == k && forall l :: 0 <= l < k ==> Lookup(held, paths[l]) == Some(answers[l])
    {
      var found := Lookup(held, paths[k]);
      if found.None? {
        return false, answers;
      }
      answers := answers + [found.value];
    }
    ok := true;
  }

  /** What was held for a path is what some result answered for it, and nothing was held exactly when none
      did. */
  lemma HeldForPath(root: string, paths: seq<string>, reply: seq<Item>, held: seq<(string, string)>, path: string)
    requires Held(root, paths, reply, |reply|, held)
    ensures Lookup(held, path).Some? <==> Answered(root, reply, path)
    ensures Lookup(held, path).Some? ==> AnsweredWith(root, reply, path, Lookup(held, path).value.1)
  {
    var found := Lookup(held, path);
    if found.Some? {
      var i :| 0 <= i < |held| && held[i] == found.value;
      assert AnswersFor(root, reply[i], path);
    } else {
      forall i | 0 <= i < |reply|
        ensures !AnswersFor(root, reply[i], path)
      {
        assert held[i].0 != path;
      }
    }
  }

  lemma HeldIsAskedForOnce(root: string, paths: seq<string>, reply: seq<Item>, held: seq<(string, string)>)
    requires Held(root, paths, reply, |reply|, held)
    ensures NothingElse(root, paths, reply) && NoneTwice(root, reply)
  {
    forall i, j, path | 0 <= i < |reply| && 0 <= j < |reply| && AnswersFor(root, reply[i], path) && AnswersFor(root, reply[j], path)
      ensures i == j
    {
      assert held[i].0 == held[j].0;
    }
    forall i | 0 <= i < |reply|
      ensures WellFormed(reply[i]) && PathOf(root, reply[i].name.value) in paths
    {
      assert held[i].0 in paths;
    }
  }

  /** `batch`: the whole reply or nothing, in the order the caller wrote. */
  method Batch(root: string, paths: seq<string>, reply: seq<Item>) returns (r: Result<seq<(string, string)>, Refusal>)
    ensures r.Ok? <==> Complete(root, paths, reply)
    ensures r.Ok? ==> InCallOrder(root, paths, reply, r.value)
  {
    var ok, held := HoldReply(root, paths, reply);
    if !ok {
      return Err(Refused);
    }
    HeldIsAskedForOnce(root, paths, reply, held);
    var all, answers := PutInOrder(paths, held);
    forall k | 0 <= k < |paths|
      ensures Lookup(held, paths[k]).Some? <==> Answered(root, reply, paths[k])
      ensures Lookup(held, paths[k]).Some? ==> AnsweredWith(root, reply, paths[k], Lookup(held, paths[k]).value.1)
    {
      HeldForPath(root, paths, reply, held, paths[k]);
    }
    r := if all then Ok(answers) else Err(Refused);
  }

  // ---------------------------------------------------------------------------------------------
  // The order of the reply does not matter

  /** `b` is `a` in another order: position `i` of `b` holds what `perm[i]` of `a` does, and `back` undoes
      `perm`. */
  ghost predicate Reordered(perm: seq<nat>, back: seq<nat>, a: seq<Item>, b: seq<Item>) {
    && |perm| == |back| == |a| == |b|
    && (forall i :: 0 <= i < |perm| ==> perm[i] < |a| && b[i] == a[perm[i]] && back[perm[i]] == i)
    && (forall i :: 0 <= i < |back| ==> back[i] < |b| && a[i] == b[back[i]] && perm[back[i]] == i)
  }

  lemma NoneTwiceReordered(root: string, perm: seq<nat>, back: seq<nat>, a: seq<Item>, b: seq<Item>)
    requires Reordered(perm, back, a, b) && NoneTwice(root, a)
    ensures NoneTwice(root, b)
  {
    forall i, j, path | 0 <= i < |b| && 0 <= j < |b| && AnswersFor(root, b[i], path) && AnswersFor(root, b[j], path)
      ensures i == j
    {
      assert b[i] == a[perm[i]] && b[j] == a[perm[j]];
      assert perm[i] == perm[j];
    }
  }

  lemma AnsweredReordered(root: string, perm: seq<nat>, back: seq<nat>, a: seq<Item>, b: seq<Item>, path: string)
    requires Reordered(perm, back, a, b) && Answered(root, a, path)
    ensures Answered(root, b, path)
  {
    var i :| 0 <= i < |a| && AnswersFor(root, a[i], path);
    assert AnswersFor(root, b[back[i]], path);
  }

  lemma NothingElseReordered(root: string, paths: seq<string>, perm: seq<nat>, back: seq<nat>, a: seq<Item>, b: seq<Item>)
    requires Reordered(perm, back, a, b) && NothingElse(root, paths, a)
    ensures NothingElse(root, paths, b)
  {
    forall i | 0 <= i < |b|
      ensures WellFormed(b[i]) && PathOf(root, b[i].name.value) in paths
    {
      assert b[i] == a[perm[i]];
    }
  }

  lemma CompleteReordered(root: string, paths: seq<string>, perm: seq<nat>, back: seq<nat>, a: seq<Item>, b: seq<Item>)
    requires Reordered(perm, back, a, b) && Complete(root, paths, a)
    ensures Complete(root, paths, b)
  {
    NothingElseReordered(root, paths, perm, back, a, b);
    NoneTwiceReordered(root, perm, back, a, b);
    forall k | 0 <= k < |paths|
      ensures Answered(root, b, paths[k])
    {
      AnsweredReordered(root, perm, back, a, b, paths[k]);
    }
  }

  /** Whether a reply is accepted does not depend on its order. */
  lemma AcceptedInAnyOrder(root: string, paths: seq<string>, perm: seq<nat>, back: seq<nat>, a: seq<Item>, b: seq<Item>)
    requires Reordered(perm, back, a, b)
    ensures Complete(root, paths, a) <==> Complete(root, paths, b)
  {
    if Complete(root, paths, a) {
      CompleteReordered(root, paths, perm, back, a, b);
    }
    if Complete(root, paths, b) {
      CompleteReordered(root, paths, back, perm, b, a);
    }
  }

  lemma SameSection(root: string, perm: seq<nat>, back: seq<nat>, a: seq<Item>, b: seq<Item>,
                    path: string, x: string, y: string)
    requires Reordered(perm, back, a, b) && NoneTwice(root, a)
    requires AnsweredWith(root, a, path, x) && AnsweredWith(root, b, path, y)
    ensures x == y
  {
    var i :| 0 <= i < |a| && AnswersFor(root, a[i], path) && a[i].section.value == x;
    var j :| 0 <= j < |b| && AnswersFor(root, b[j], path) && b[j].section.value == y;
    assert a[perm[j]] == b[j];
  }

  /** And neither do the answers: two call-ordered answers to one complete reply, in whatever orders it came,
      are the same list. */
  lemma OrderDoesNotMatter(root: string, paths: seq<string>, perm: seq<nat>, back: seq<nat>, a: seq<Item>, b: seq<Item>,
                           fromA: seq<(string, string)>, fromB: seq<(string, string)>)
    requires Reordered(perm, back, a, b) && Complete(root, paths, a)
    requires InCallOrder(root, paths, a, fromA) && InCallOrder(root, paths, b, fromB)
    ensures fromA == fromB
  {
    forall k | 0 <= k < |paths|
      ensures fromA[k] == fromB[k]
    {
      SameSection(root, perm, back, a, b, paths[k], fromA[k].1, fromB[k].1);
    }
  }
}
