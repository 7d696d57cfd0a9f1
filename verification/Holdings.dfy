/** Accounts of the references that are held outside a structure. */
module Holdings {

  type Ptr = nat
  type Held = map<Ptr, nat>

  /** References to `d` held outside. */
  ghost function Outside(held: Held, d: Ptr): nat {
    if d in held then held[d] else 0
  }

  ghost function Gained(held: Held, d: Ptr): Held {
    held[d := Outside(held, d) + 1]
  }

  ghost function Lost(held: Held, d: Ptr): Held
    requires Outside(held, d) > 0
  {
    held[d := Outside(held, d) - 1]
  }

  /** One outside reference to `v` given up, one to `w` gained. */
  ghost function Moved(held: Held, v: Ptr, w: Ptr): Held
    requires Outside(held, v) > 0
  {
    Gained(Lost(held, v), w)
  }

  lemma MovedAt(held: Held, v: Ptr, w: Ptr, d: Ptr)
    requires Outside(held, v) > 0
    ensures Outside(Moved(held, v, w), d) == Outside(held, d) - (if d == v then 1 else 0) + (if d == w then 1 else 0)
  {
  }

  lemma GainedAt(held: Held, w: Ptr, d: Ptr)
    ensures Outside(Gained(held, w), d) == Outside(held, d) + (if d == w then 1 else 0)
  {
  }

  lemma SameOutside(held: Held, w: Ptr)
    ensures forall d :: Outside(Lost(Gained(held, w), w), d) == Outside(held, d)
  {
  }
}
