/** Small datatypes and sequence facts shared by every model in this project. */
module Common {

  datatype Option<+T> = None | Some(value: T)

  /** The most keys one document is folded from. */
  const MOST_KEYS := 512

  /** A refusal whose message is all that tells it from another. */
  datatype Refusal = Refused

  datatype Result<+T, +E> = Ok(value: T) | Err(error: E)

  function Last<T>(s: seq<T>): T
    requires s != []
  {
    s[|s| - 1]
  }

  predicate Distinct<T(==)>(s: seq<T>) {
    forall i, j :: 0 <= i < j < |s| ==> s[i] != s[j]
  }

  lemma Assoc<T>(a: seq<T>, b: seq<T>, c: seq<T>)
    ensures a + (b + c) == a + b + c
  {
  }

  /** What holds at `i` and is kept by every step up to `j` holds at `j`. */
  lemma {:induction false} Along(p: nat -> bool, i: nat, j: nat)
    requires i <= j && p(i)
    requires forall k :: i <= k < j && p(k) ==> p(k + 1)
    ensures p(j)
    decreases j - i
  {
    if i < j {
      Along(p, i + 1, j);
    }
  }

  /** A set whose members all occur in `s` is no larger than `s`. */
  lemma {:induction false} CoveredBySeq<T>(members: set<T>, s: seq<T>)
    requires forall m :: m in members ==> m in s
    ensures |members| <= |s|
    decreases |s|
  {
    if s == [] {
      assert members == {};
    } else {
      var rest := s[1..];
      forall m | m in members - {s[0]}
        ensures m in rest
      {
        var i :| 0 <= i < |s| && s[i] == m;
        assert rest[i - 1] == m;
      }
      CoveredBySeq(members - {s[0]}, rest);
      if s[0] !in members {
        assert members - {s[0]} == members;
      }
    }
  }
}
