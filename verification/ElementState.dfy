/** What one cache element holds, and the operations that change its hold on the value. */
module ElementState {

  /** A shared pointer is identified by its control block; `Null` is the null pointer. */
  type Ptr = nat
  const Null: Ptr := 0
  type Fut = nat

  datatype Slot =
    | Empty
    | Weak(v: Ptr)
    | Strong(v: Ptr)
    | Pending(fut: Fut, strong: bool, expired: bool)

  /** How a future ends: with an exception or with a (possibly null) pointer. */
  datatype Outcome = Failed | Done(v: Ptr)

  function Weakened(x: Slot): Slot {
    match x
    case Strong(v) => Weak(v)
    case Pending(f, _, e) => Pending(f, false, e)
    case _ => x
  }

  /** `alive` says whether the pointee of a weak pointer still exists, that is whether locking it succeeds. */
  function Strengthened(x: Slot, alive: bool): Slot {
    match x
    case Weak(v) => if v != Null && alive then Strong(v) else x
    case Pending(f, _, e) => Pending(f, true, e)
    case _ => x
  }

  function Expired(x: Slot): Slot {
    match x
    case Pending(f, s, _) => Pending(f, s, true)
    case _ => Empty
  }

  function Resolved(x: Slot, o: Outcome): Slot {
    if !x.Pending? then x
    else match o
      case Failed => Empty
      case Done(v) => if x.expired then Empty else if x.strong then Strong(v) else Weak(v)
  }

  /** The content of a slot without its strength: what `ptr()` can hand out. */
  datatype Content = Nothing | Value(v: Ptr) | Future(f: Fut)

  function Core(x: Slot): Content {
    match x
    case Empty => Nothing
    case Weak(v) => Value(v)
    case Strong(v) => Value(v)
    case Pending(f, _, _) => Future(f)
  }

  /** Was a pending element expired, so that it will be empty once it is resolved? */
  predicate Marked(x: Slot) { x.Pending? && x.expired }

  predicate IsStrong(x: Slot) { x.Strong? || (x.Pending? && x.strong) }

  predicate IsWeak(x: Slot) { x.Weak? || (x.Pending? && !x.strong) }

  /** An operation on an element, with what it finds of the pointee when it runs. */
  datatype Op = Weaken | Strengthen(alive: bool) | Expire

  function Apply(x: Slot, op: Op): Slot {
    match op
    case Weaken => Weakened(x)
    case Strengthen(alive) => Strengthened(x, alive)
    case Expire => Expired(x)
  }

  function ApplyAll(x: Slot, ops: seq<Op>): Slot
    decreases |ops|
  {
    if ops == [] then x else ApplyAll(Apply(x, ops[0]), ops[1..])
  }

  /** Operations deferred on a pending element take the same effect as on the resolved one, when the value
      (if there is one) is not null and is kept alive throughout. */
  lemma {:induction false} DeferredOpsCommute(x: Slot, ops: seq<Op>, o: Outcome)
    requires x.Pending?
    requires o.Done? ==> o.v != Null && forall i :: 0 <= i < |ops| && ops[i].Strengthen? ==> ops[i].alive
    ensures ApplyAll(x, ops).Pending?
    ensures Resolved(ApplyAll(x, ops), o) == ApplyAll(Resolved(x, o), ops)
    decreases |ops|
  {
    if ops != [] {
      DeferredOpsCommute(Apply(x, ops[0]), ops[1..], o);
      assert Resolved(Apply(x, ops[0]), o) == Apply(Resolved(x, o), ops[0]);
    }
  }

  /** Exactly one combination breaks the law for a single operation: strengthening a weak, unexpired value that is
      null or dead by then. On the pending element the request is remembered and honoured at resolution. */
  lemma DeferredOpExact(x: Slot, op: Op, o: Outcome)
    requires x.Pending?
    ensures Resolved(Apply(x, op), o) == Apply(Resolved(x, o), op)
       <==> !(op.Strengthen? && o.Done? && !x.strong && !x.expired && (o.v == Null || !op.alive))
  {
  }

  /** The mutable element: the operations rewrite `slot` in place. */
  class BasicElement {
    const hash: nat
    var slot: Slot

    constructor OfPointer(init: Ptr, hash: nat)
      ensures slot == Strong(init) && this.hash == hash
    {
      slot := Strong(init);
      this.hash := hash;
    }

    constructor OfFuture(fut: Fut, hash: nat)
      ensures slot == Pending(fut, true, false) && this.hash == hash
    {
      slot := Pending(fut, true, false);
      this.hash := hash;
    }

    /** Installs the result of a completed future. `thrown` reports the exception that the source rethrows. */
    method Resolve(o: Outcome) returns (ptr: Ptr, thrown: bool)
      requires slot.Pending?
      modifies this
      ensures slot == Resolved(old(slot), o)
      ensures thrown == o.Failed?
      ensures o.Done? ==> ptr == o.v
    {
      ptr, thrown := Null, false;
      if o.Failed? {
        slot := Empty;
        thrown := true;
        return;
      }
      ptr := o.v;
      if slot.expired {
        slot := Empty;
      } else if slot.strong {
        slot := Strong(ptr);
      } else {
        slot := Weak(ptr);
      }
    }

    method Weaken()
      modifies this
      ensures slot == Weakened(old(slot))
    {
      if slot.Strong? {
        slot := Weak(slot.v);
      } else if slot.Pending? {
        slot := slot.(strong := false);
      }
    }

    /** The result is false exactly when a weak pointer could not be locked. */
    method Strengthen(alive: bool) returns (ok: bool)
      modifies this
      ensures slot == Strengthened(old(slot), alive)
      ensures ok == !slot.Weak?
      ensures ok <==> old(slot).Weak? ==> old(slot).v != Null && alive
    {
      if slot.Weak? {
        if slot.v != Null && alive {
          slot := Strong(slot.v);
        }
      } else if slot.Pending? {
        slot := slot.(strong := true);
      }
      ok := !slot.Weak?;
    }

    method Expire()
      modifies this
      ensures slot == Expired(old(slot))
    {
      if slot.Pending? {
        slot := slot.(expired := true);
        return;
      }
      if slot.Weak? || slot.Strong? {
        slot := Empty;
      }
    }
  }
}
