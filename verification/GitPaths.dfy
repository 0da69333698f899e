/** Paths inside a repository: splitting, joining, what is acceptable, and the order they sort in. */
module GitPaths {
  predicate SlashFree(s: string) {
    '/' !in s
  }

  /** `str::split('/')`: at least one component, possibly empty ones. */
  function Split(s: string): (r: seq<string>)
    ensures r != []
  {
    if s == "" then [""]
    else if s[0] == '/' then [""] + Split(s[1..])
    else
      var rest := Split(s[1..]);
      [[s[0]] + rest[0]] + rest[1..]
  }

  lemma {:induction false} SplitSlashFree(s: string)
    requires SlashFree(s)
    ensures Split(s) == [s]
  {
    if s != "" {
      SplitSlashFree(s[1..]);
      assert s == [s[0]] + s[1..];
    }
  }

  lemma {:induction false} SplitConcat(a: string, b: string)
    ensures Split(a + "/" + b) == Split(a) + Split(b)
  {
    var s := a + "/" + b;
    if a == "" {
      assert s == ['/'] + b && s[1..] == b;
    } else {
      assert s[0] == a[0] && s[1..] == a[1..] + "/" + b;
      SplitConcat(a[1..], b);
    }
  }

  /** The path of `name` inside the directory `at`; the repository root is `""`. */
  function Join(at: string, name: string): string {
    if at == "" then name else at + "/" + name
  }

  /** The components of a directory; the root has none. */
  function Components(at: string): seq<string> {
    if at == "" then [] else Split(at)
  }

  lemma ComponentsOfJoin(at: string, name: string)
    requires SlashFree(name)
    ensures Split(Join(at, name)) == Components(at) + [name]
  {
    SplitSlashFree(name);
    if at != "" {
      SplitConcat(at, name);
    }
  }

  predicate GoodComponent(c: string) {
    c != "" && c != "." && c != ".."
  }

  predicate AllGood(components: seq<string>) {
    forall i :: 0 <= i < |components| ==> GoodComponent(components[i])
  }

  predicate Acceptable(path: string) {
    path != "" && path[0] != '/' && AllGood(Split(path))
  }

  /** No path with an empty, `.` or `..` component anywhere is acceptable, so none leads out of the repository; and
      a further ordinary name keeps an acceptable path acceptable. */
  lemma StaysInside(a: string, c: string, b: string)
    ensures c == "" || c == "." || c == ".." ==>
      !Acceptable(c) && !Acceptable(c + "/" + b) && !Acceptable(a + "/" + c) && !Acceptable(a + "/" + c + "/" + b)
    ensures Acceptable(a) && SlashFree(c) && c != "" && c != "." && c != ".." ==> Acceptable(a + "/" + c)
  {
    SplitConcat(c, b);
    SplitConcat(a, c);
    SplitConcat(a + "/" + c, b);
    if SlashFree(c) {
      SplitSlashFree(c);
    }
    if c == "" || c == "." || c == ".." {
      assert (Split(c) + Split(b))[0] == c;
      assert (Split(a) + Split(c))[|Split(a)|] == c;
      assert (Split(a) + Split(c) + Split(b))[|Split(a)|] == c;
    }
  }

  /** `check_path`. */
  method CheckPath(path: string) returns (ok: bool)
    ensures ok <==> Acceptable(path)
  {
    if path == "" || path[0] == '/' {
      return false;
    }
    var components := Split(path);
    for i := 0 to |components|
      invariant forall j :: 0 <= j < i ==> GoodComponent(components[j])
    {
      if components[i] == "" || components[i] == "." || components[i] == ".." {
        return false;
      }
    }
    ok := true;
  }

  // ---------------------------------------------------------------------------------------------
  // Order

  /** `str`'s own order. */
  predicate Le(a: string, b: string) {
    a == "" || (b != "" && (a[0] < b[0] || (a[0] == b[0] && Le(a[1..], b[1..]))))
  }

  /** At the first character in which they differ, `a` has the smaller one. */
  ghost predicate LessAt(a: string, b: string, i: nat) {
    i < |a| && i < |b| && a[..i] == b[..i] && a[i] < b[i]
  }

  /** It is the order of a dictionary. */
  lemma {:induction false} LeIff(a: string, b: string)
    ensures Le(a, b) <==> a <= b || exists i: nat :: LessAt(a, b, i)
  {
    if a != "" && b != "" && a[0] == b[0] {
      LeIff(a[1..], b[1..]);
      assert a == [a[0]] + a[1..] && b == [b[0]] + b[1..];
      forall i: nat | LessAt(a[1..], b[1..], i)
        ensures LessAt(a, b, i + 1)
      {
        assert a[..i + 1] == [a[0]] + a[1..][..i] && b[..i + 1] == [b[0]] + b[1..][..i];
      }
      forall i: nat | LessAt(a, b, i)
        ensures 0 < i && LessAt(a[1..], b[1..], i - 1)
      {
        assert a[..i][1..] == a[1..][..i - 1] && b[..i][1..] == b[1..][..i - 1];
      }
      assert (exists i: nat :: LessAt(a, b, i)) ==> exists i: nat :: LessAt(a[1..], b[1..], i) by {
        if i: nat :| LessAt(a, b, i) {
          assert LessAt(a[1..], b[1..], i - 1);
        }
      }
    } else if a != "" && b != "" {
      assert a[0] < b[0] ==> LessAt(a, b, 0);
      assert forall i: nat :: LessAt(a, b, i) && 0 < i ==> a[..i][0] == b[..i][0];
    }
  }

  lemma {:induction false} LeTotal(a: string, b: string)
    ensures Le(a, b) || Le(b, a)
  {
    if a != "" && b != "" && a[0] == b[0] {
      LeTotal(a[1..], b[1..]);
    }
  }

  lemma {:induction false} LeTransitive(a: string, b: string, c: string)
    requires Le(a, b) && Le(b, c)
    ensures Le(a, c)
  {
    if a != "" && a[0] == b[0] && b[0] == c[0] {
      LeTransitive(a[1..], b[1..], c[1..]);
    }
  }

  lemma {:induction false} LeAntisymmetric(a: string, b: string)
    requires Le(a, b) && Le(b, a)
    ensures a == b
  {
    if a != "" {
      LeAntisymmetric(a[1..], b[1..]);
      assert a == [a[0]] + a[1..] && b == [b[0]] + b[1..];
    }
  }

  predicate Sorted(s: seq<string>) {
    forall i, j :: 0 <= i < j < |s| ==> Le(s[i], s[j])
  }

  function Insert(x: string, s: seq<string>): seq<string> {
    if s == [] || Le(x, s[0]) then [x] + s else [s[0]] + Insert(x, s[1..])
  }

  function Sort(s: seq<string>): seq<string> {
    if s == [] then [] else Insert(s[0], Sort(s[1..]))
  }

  lemma {:induction false} InsertMembers(x: string, s: seq<string>)
    ensures multiset(Insert(x, s)) == multiset(s) + multiset{x}
  {
    if s != [] && !Le(x, s[0]) {
      InsertMembers(x, s[1..]);
      assert s == [s[0]] + s[1..];
    }
  }

  lemma LeastFirst(x: string, s: seq<string>)
    requires Sorted(s) && forall y :: y in multiset(s) ==> Le(x, y)
    ensures Sorted([x] + s)
  {
    forall j | 0 <= j < |s|
      ensures Le(x, s[j])
    {
      assert s[j] in multiset(s);
    }
  }

  lemma {:induction false} InsertSorted(x: string, s: seq<string>)
    requires Sorted(s)
    ensures Sorted(Insert(x, s))
  {
    if s == [] {
    } else if Le(x, s[0]) {
      forall y | y in multiset(s)
        ensures Le(x, y)
      {
        if y != s[0] {
          LeTransitive(x, s[0], y);
        }
      }
      LeastFirst(x, s);
    } else {
      LeTotal(x, s[0]);
      InsertSorted(x, s[1..]);
      InsertMembers(x, s[1..]);
      LeastFirst(s[0], Insert(x, s[1..]));
    }
  }

  lemma {:induction false} SortKeeps(s: seq<string>)
    ensures Sorted(Sort(s)) && multiset(Sort(s)) == multiset(s)
  {
    if s != [] {
      SortKeeps(s[1..]);
      InsertMembers(s[0], Sort(s[1..]));
      InsertSorted(s[0], Sort(s[1..]));
      assert s == [s[0]] + s[1..];
    }
  }

  lemma SameFirst(a: seq<string>, b: seq<string>)
    requires Sorted(a) && Sorted(b) && multiset(a) == multiset(b) && a != [] && b != []
    ensures a[0] == b[0]
  {
    assert a[0] in multiset(b) && b[0] in multiset(a);
    var i :| 0 <= i < |b| && b[i] == a[0];
    var j :| 0 <= j < |a| && a[j] == b[0];
    if a[0] != b[0] {
      LeAntisymmetric(a[0], b[0]);
    }
  }

  /** Sorted sequences of the same members are the same sequence. */
  lemma {:induction false} SortedUnique(a: seq<string>, b: seq<string>)
    requires Sorted(a) && Sorted(b) && multiset(a) == multiset(b)
    ensures a == b
  {
    assert |multiset(a)| == |a| && |multiset(b)| == |b|;
    if a != [] {
      SameFirst(a, b);
      assert a == [a[0]] + a[1..] && b == [b[0]] + b[1..];
      assert multiset(a[1..]) == multiset(a) - multiset{a[0]};
      assert multiset(b[1..]) == multiset(b) - multiset{b[0]};
      SortedUnique(a[1..], b[1..]);
    }
  }
}
