/**
 The Node binding's stage and commit state: validations wait in a bounded list, a commit claims the
 one whose tree it resolved, and a sequence guard lets each be published once.

 Each method is one atomic piece of the source: a lock held once, or one atomic operation.
 */
module NodeStaging {
  import opened Common

  /** A JSON document, compared structurally. */
  datatype Value = Null | Document(text: string)

  const MOST_STAGED := 4

  /** One validated document waiting to be published. `index` is history: how many were pushed before. */
  datatype Staged = Staged(sequence: nat, tree: Value, model: Value, index: nat)

  /** What `while staged.len() > 4 { staged.remove(0) }` leaves. */
  function Trimmed(staged: seq<Staged>): seq<Staged> {
    if |staged| > MOST_STAGED then staged[|staged| - MOST_STAGED..] else staged
  }

  predicate FirstMatch(staged: seq<Staged>, tree: Value, k: nat) {
    k < |staged| && staged[k].tree == tree && forall i :: 0 <= i < k ==> staged[i].tree != tree
  }

  /** The oldest entry staged for `tree`, if any. */
  function Match(staged: seq<Staged>, tree: Value): (found: Option<nat>)
    ensures found.Some? ==> FirstMatch(staged, tree, found.value)
    ensures found.None? ==> forall i :: 0 <= i < |staged| ==> staged[i].tree != tree
  {
    if staged == [] then None
    else if staged[0].tree == tree then Some(0)
    else match Match(staged[1..], tree)
      case None => None
      case Some(k) => Some(k + 1)
  }

  lemma MatchIs(staged: seq<Staged>, tree: Value, k: nat)
    requires FirstMatch(staged, tree, k)
    ensures Match(staged, tree) == Some(k)
  {
  }

  function Without(staged: seq<Staged>, k: nat): seq<Staged>
    requires k < |staged|
  {
    staged[..k] + staged[k + 1..]
  }

  class Inner {
    var staged: seq<Staged>
    var nextSequence: nat
    var lastCommitted: nat
    var generation: nat
    var cache: Option<Value>

    constructor ()
      ensures staged == [] && nextSequence == lastCommitted == generation == 0 && cache == None
    {
      staged, nextSequence, lastCommitted, generation, cache := [], 0, 0, 0, None;
    }

    /** `next_sequence.fetch_add(1) + 1`. */
    method TakeSequence() returns (sequence: nat)
      modifies this`nextSequence
      ensures sequence == nextSequence == old(nextSequence) + 1
    {
      nextSequence := nextSequence + 1;
      sequence := nextSequence;
    }

    /** The locked half of `validate`. */
    method Push(entry: Staged)
      modifies this`staged
      ensures staged == Trimmed(old(staged) + [entry])
    {
      ghost var all := staged + [entry];
      staged := staged + [entry];
      while |staged| > MOST_STAGED
        invariant |staged| >= MOST_STAGED || staged == all
        invariant |staged| <= |all| && staged == all[|all| - |staged|..]
        invariant staged == all || MOST_STAGED < |all|
      {
        staged := staged[1..];
      }
    }

    /** `take_staged`. */
    method TakeStaged(tree: Value) returns (taken: Option<Staged>)
      modifies this`staged
      ensures match Match(old(staged), tree)
        case None => taken == None && staged == old(staged)
        case Some(k) => taken == Some(old(staged)[k]) && staged == Without(old(staged), k)
    {
      var k := 0;
      while k < |staged|
        invariant 0 <= k <= |staged| && staged == old(staged)
        invariant forall i :: 0 <= i < k ==> staged[i].tree != tree
      {
        if staged[k].tree == tree {
          MatchIs(staged, tree, k);
          taken := Some(staged[k]);
          staged := Without(staged, k);
          return;
        }
        k := k + 1;
      }
      taken := None;
    }

    /** `last_committed.fetch_max(sequence) >= sequence`, negated: whether the claim won. */
    method Claim(sequence: nat) returns (won: bool)
      modifies this`lastCommitted
      ensures won <==> old(lastCommitted) < sequence
      ensures lastCommitted == if won then sequence else old(lastCommitted)
    {
      won := lastCommitted < sequence;
      if won {
        lastCommitted := sequence;
      }
    }

    /** `commit` with nothing else running: it publishes the oldest entry staged for `tree`, once, and
        only if nothing newer was committed before. */
    method Commit(tree: Value) returns (published: Option<Value>)
      modifies this
      ensures nextSequence == old(nextSequence)
      ensures match Match(old(staged), tree)
        case None => published == None && staged == old(staged) && lastCommitted == old(lastCommitted)
        case Some(k) =>
          && staged == Without(old(staged), k)
          && (published.Some? <==> old(lastCommitted) < old(staged)[k].sequence)
          && (published.Some? ==> published.value == old(staged)[k].model)
          && (lastCommitted == if published.Some? then old(staged)[k].sequence else old(lastCommitted))
      ensures published.Some? ==> cache == published && generation == old(generation) + 1
      ensures published.None? ==> cache == old(cache) && generation == old(generation)
    {
      published := None;
      var taken := TakeStaged(tree);
      if taken.Some? {
        var won := Claim(taken.value.sequence);
        if won {
          published := Some(taken.value.model);
          cache := published;
          generation := generation + 1;
        }
      }
    }
  }
}
