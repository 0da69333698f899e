/**
 The state behind `ConfigCell` notification: a wrapping generation, a saturating eviction
 counter and a fixed array of waker slots. Each method below is one critical section of the
 source; wakers it hands back are woken by the caller after the section ends.

 The array is specified by the sequence of wakers it parks: the occupied slots are always a
 prefix, so the sequence and the number of slots say everything.
 */
module EmbeddedNotify {
  import opened Common

  /** Two wakers are equal exactly when `will_wake` says so. */
  type Waker = nat

  const U32 := 0x1_0000_0000

  datatype Shared = Shared(generation: nat, evictions: nat, slots: nat, parked: seq<Waker>)

  predicate WellFormed(sh: Shared) {
    && 0 < sh.slots
    && sh.generation < U32
    && sh.evictions < U32
    && |sh.parked| <= sh.slots
    && Distinct(sh.parked)
  }

  /** The array that parks exactly `parked`, in order, in its first slots. */
  function Laid(parked: seq<Waker>, slots: nat): (a: seq<Option<Waker>>)
    requires |parked| <= slots
  {
    seq(slots, i requires 0 <= i < slots => if i < |parked| then Some(parked[i]) else None)
  }

  function SaturatingAdd(n: nat): nat {
    if n + 1 < U32 then n + 1 else n
  }

  /** What `bump` leaves behind; the drained wakers are `sh.parked`. */
  function Bumped(sh: Shared): Shared {
    Shared((sh.generation + 1) % U32, sh.evictions, sh.slots, [])
  }

  /** The waker a registration of `w` displaces: the one in slot 0, when all slots are taken by others. */
  function Evicted(sh: Shared, w: Waker): Option<Waker> {
    if w in sh.parked || |sh.parked| < sh.slots || sh.parked == [] then None else Some(sh.parked[0])
  }

  /** What `register` leaves behind. */
  function Registered(sh: Shared, w: Waker): Shared {
    if w in sh.parked then sh
    else if |sh.parked| < sh.slots || sh.parked == [] then sh.(parked := sh.parked + [w])
    else sh.(evictions := SaturatingAdd(sh.evictions), parked := sh.parked[0 := w])
  }

  /** The registering waker ends up parked, nobody is parked twice, and the only one that can leave
      is the displaced one, which is somebody else. A waker that is parked already changes nothing, a new one
      takes the first free slot, and with none free it takes slot 0 and displaces who was there: the other
      slots stay as they were, and that is what counts as an eviction. */
  lemma RegisterKeeps(sh: Shared, w: Waker)
    requires WellFormed(sh)
    ensures WellFormed(Registered(sh, w))
    ensures w in Registered(sh, w).parked
    ensures Evicted(sh, w).Some? <==> w !in sh.parked && |sh.parked| == sh.slots
    ensures forall v :: v in Registered(sh, w).parked <==> v == w || (v in sh.parked && Evicted(sh, w) != Some(v))
    ensures forall v :: Evicted(sh, w) == Some(v) ==> v in sh.parked && v != w
    ensures w in sh.parked ==> Registered(sh, w) == sh
    ensures w !in sh.parked && |sh.parked| < sh.slots ==>
      Registered(sh, w).parked == sh.parked + [w] && Registered(sh, w).evictions == sh.evictions
    ensures w !in sh.parked && |sh.parked| == sh.slots ==>
      && Evicted(sh, w) == Some(sh.parked[0])
      && Registered(sh, w).parked == [w] + sh.parked[1..]
      && Registered(sh, w).evictions == (if sh.evictions == 0xFFFF_FFFF then sh.evictions else sh.evictions + 1)
  {
    if Evicted(sh, w).Some? {
      forall v
        ensures v in sh.parked[0 := w] <==> v == w || (v in sh.parked && v != sh.parked[0])
      {
        assert sh.parked[0 := w][0] == w;
        if v in sh.parked && v != sh.parked[0] {
          var i :| 0 < i < |sh.parked| && sh.parked[i] == v;
          assert sh.parked[0 := w][i] == v;
        }
      }
    }
  }

  class Notify {
    var generation: nat
    var evictions: nat
    const waiting: array<Option<Waker>>
    ghost var parked: seq<Waker>

    ghost function Abs(): Shared
      reads this
    {
      Shared(generation, evictions, waiting.Length, parked)
    }

    /** Occupied slots are a prefix of the array and hold pairwise distinct wakers. */
    ghost predicate Valid()
      reads this, waiting
    {
      && WellFormed(Abs())
      && waiting[..] == Laid(parked, waiting.Length)
    }

    /** `WAITERS` is at least one: `register` falls back on slot 0. */
    constructor (waiters: nat)
      requires 0 < waiters
      ensures Valid() && fresh(waiting)
      ensures Abs() == Shared(0, 0, waiters, [])
    {
      generation := 0;
      evictions := 0;
      waiting := new Option<Waker>[waiters](_ => None);
      parked := [];
      new;
      assert waiting[..] == Laid([], waiters);
    }

    /** One `bump` section. The drained wakers come back to be woken outside of it. */
    method Bump() returns (woken: seq<Waker>)
      requires Valid()
      modifies this, waiting
      ensures Valid()
      ensures Abs() == Bumped(old(Abs()))
      ensures woken == old(parked)
    {
      generation := if generation + 1 == U32 then 0 else generation + 1;
      woken := [];
      for i := 0 to waiting.Length
        modifies waiting
        invariant forall j :: 0 <= j < i ==> waiting[j] == None
        invariant forall j :: i <= j < waiting.Length ==> waiting[j] == old(waiting[j])
        invariant woken == parked[..if i < |parked| then i else |parked|]
      {
        assert waiting[i] == Laid(parked, waiting.Length)[i];
        if waiting[i].Some? {
          woken := woken + [waiting[i].value];
        }
        waiting[i] := None;
      }
      parked := [];
      assert waiting[..] == Laid([], waiting.Length);
    }

    /** One `register` section: a scan that stops at the waker itself or at the first free slot,
        and displaces slot 0 when it finds neither. */
    method Register(waker: Waker) returns (evicted: Option<Waker>)
      requires Valid()
      modifies this, waiting
      ensures Valid()
      ensures Abs() == Registered(old(Abs()), waker)
      ensures evicted == Evicted(old(Abs()), waker)
    {
      RegisterKeeps(Abs(), waker);
      var i := 0;
      while i < waiting.Length
        invariant 0 <= i <= waiting.Length
        invariant Valid() && Abs() == old(Abs())
        invariant i <= |parked| && waker !in parked[..i]
      {
        assert waiting[i] == Laid(parked, waiting.Length)[i];
        if waiting[i] == None {
          waiting[i] := Some(waker);
          parked := parked + [waker];
          assert waiting[..] == Laid(parked, waiting.Length);
          return None;
        }
        if waiting[i].value == waker {
          return None;
        }
        i := i + 1;
      }
      assert parked[..i] == parked;
      evictions := if evictions + 1 < U32 then evictions + 1 else evictions;
      evicted := waiting[0];
      assert evicted == Laid(parked, waiting.Length)[0];
      waiting[0] := Some(waker);
      parked := parked[0 := waker];
      assert waiting[..] == Laid(parked, waiting.Length);
    }
  }

  /** `ConfigCell`: the stored value, and the notification its stores bump. */
  class ConfigCell<T> {
    var inner: Option<T>
    const notify: Notify

    ghost predicate Valid()
      reads this, notify, notify.waiting
    {
      && notify.Valid()
      && (notify.generation != 0 ==> inner.Some?)
    }

    constructor (waiters: nat)
      requires 0 < waiters
      ensures Valid() && inner == None && fresh(notify) && fresh(notify.waiting)
      ensures notify.Abs() == Shared(0, 0, waiters, [])
    {
      inner := None;
      notify := new Notify(waiters);
    }

    /** Installs first and bumps second, so whoever sees the new generation finds the value. */
    method Store(value: T) returns (woken: seq<Waker>)
      requires Valid()
      modifies this, notify, notify.waiting
      ensures Valid()
      ensures inner == Some(value)
      ensures notify.Abs() == Bumped(old(notify.Abs()))
      ensures woken == old(notify.parked)
    {
      inner := Some(value);
      woken := notify.Bump();
    }

    /** `parsed` is what parsing and validation made of the document: nothing is installed, nobody
        is woken and the generation stands still unless both succeeded. */
    method Apply<E>(parsed: Result<T, E>) returns (outcome: Result<(), E>, woken: seq<Waker>)
      requires Valid()
      modifies this, notify, notify.waiting
      ensures Valid()
      ensures outcome.Ok? <==> parsed.Ok?
      ensures parsed.Ok? ==> inner == Some(parsed.value) && notify.Abs() == Bumped(old(notify.Abs()))
      ensures parsed.Ok? ==> woken == old(notify.parked)
      ensures parsed.Err? ==>
        && outcome == Err(parsed.error)
        && inner == old(inner) && notify.Abs() == old(notify.Abs()) && woken == []
    {
      match parsed {
        case Err(error) =>
          return Err(error), [];
        case Ok(value) =>
          woken := Store(value);
          outcome := Ok(());
      }
    }
  }

  datatype Poll<T> = Ready(value: T) | Pending

  function AsPoll<T>(taken: Option<T>): Poll<T> {
    match taken
    case Some(value) => Ready(value)
    case None => Pending
  }

  /** `Changes`: one handle on a cell. What is current when it is made counts as seen. */
  class Changes<T> {
    var seen: nat
    const cell: ConfigCell<T>

    /** A handle that has seen any store, or that has one to see, finds a value. */
    ghost predicate Valid()
      reads this, cell, cell.notify, cell.notify.waiting
    {
      cell.Valid() && (seen != 0 ==> cell.inner.Some?)
    }

    constructor (cell: ConfigCell<T>)
      requires cell.Valid()
      ensures Valid() && this.cell == cell && seen == cell.notify.generation
    {
      this.cell := cell;
      seen := cell.notify.generation;
    }

    method Take() returns (value: Option<T>)
      requires Valid()
      modifies this`seen
      ensures Valid() && seen == cell.notify.generation
      ensures value == if old(seen) == cell.notify.generation then None else cell.inner
      ensures value.None? <==> old(seen) == cell.notify.generation
    {
      var current := cell.notify.generation;
      if current == seen {
        return None;
      }
      seen := current;
      value := cell.inner;
    }

    /** One `poll` with nothing in between: a change is the answer and nothing is registered for it;
        otherwise the waker is in a slot before `Pending` comes back. */
    method PollOnce(waker: Waker) returns (answer: Poll<T>, evicted: Option<Waker>)
      requires Valid()
      modifies this`seen, cell.notify, cell.notify.waiting
      ensures Valid() && seen == cell.notify.generation
      ensures answer.Ready? <==> old(seen) != old(cell.notify.generation)
      ensures answer.Ready? ==> cell.inner == Some(answer.value) && evicted == None
      ensures cell.notify.Abs() == if answer.Ready? then old(cell.notify.Abs()) else Registered(old(cell.notify.Abs()), waker)
      ensures answer.Pending? ==> evicted == Evicted(old(cell.notify.Abs()), waker) && waker in cell.notify.parked
    {
      var first := Take();
      if first.Some? {
        return Ready(first.value), None;
      }
      RegisterKeeps(cell.notify.Abs(), waker);
      evicted := cell.notify.Register(waker);
      var second := Take();
      answer := AsPoll(second);
    }
  }
}
