/** The growing table of open files: a lowest-free-slot allocator over reference-counted fds. */
module FdTables {
  import opened Options
  import opened Seqs
  import opened ByteOrder
  import opened Holdings

  type Link = Option<Ptr>

  const EINVAL := 22

  /** Slots per 1024 bytes, with pointers of 8 bytes. */
  const CHUNK := 128

  // ---------------------------------------------------------------- powers of two

  function Pow2(k: nat): (r: nat)
    ensures r > 0
  {
    if k == 0 then 1 else 2 * Pow2(k - 1)
  }

  lemma {:induction false} Pow2Grows(j: nat, k: nat)
    requires j <= k
    ensures Pow2(j) <= Pow2(k) && (j < k ==> 2 * Pow2(j) <= Pow2(k))
  {
    if j < k { Pow2Grows(j, k - 1); }
  }

  lemma Pow2Values()
    ensures Pow2(7) == 128 && Pow2(24) == 0x100_0000 && Pow2(25) == 0x200_0000 && Pow2(31) == 0x8000_0000
  {
    assert Pow2(7) == 128;
    assert Pow2(14) == 128 * 128;
    assert Pow2(24) == 1024 * 128 * 128;
    assert Pow2(31) == 128 * (1024 * 128 * 128);
  }

  /** The least power of two that is not below `n`. */
  ghost predicate LeastPower(n: nat, r: nat) {
    exists k: nat :: r == Pow2(k) && n <= r && (k > 0 ==> Pow2(k - 1) < n)
  }

  lemma Halving(tmp: nat, p: nat, low: nat)
    requires low < p
    ensures tmp * p + low == (tmp / 2) * (2 * p) + ((tmp % 2) * p + low)
    ensures (tmp % 2) * p + low < 2 * p && ((tmp % 2) * p + low == 0 <==> tmp % 2 == 0 && low == 0)
  {
    var h, b := tmp / 2, tmp % 2;
    assert tmp == 2 * h + b;
    assert (2 * h + b) * p == h * (2 * p) + b * p;
  }

  /** `gf_roundup_power_of_two`. */
  method RoundUp(nr: nat) returns (result: nat)
    requires nr <= 0x8000_0000
    ensures LeastPower(nr, result) && result <= 0x8000_0000
  {
    result := nr;
    if nr <= 1 {
      assert Pow2(0) == 1;
      return 1;
    }
    var cnt, tmp, remainder := 0, nr, false;
    ghost var low: nat := 0;
    while tmp != 1
      invariant tmp >= 1 && low < Pow2(cnt) && nr == tmp * Pow2(cnt) + low && (remainder <==> low != 0)
      decreases tmp
    {
      Halving(tmp, Pow2(cnt), low);
      low := (tmp % 2) * Pow2(cnt) + low;
      if tmp % 2 != 0 {
        remainder := true;
      }
      tmp := tmp / 2;
      cnt := cnt + 1;
    }
    assert nr == Pow2(cnt) + low;
    Bounded(cnt, nr);
    if remainder {
      result := Pow2(cnt + 1);
      assert Pow2(cnt + 1 - 1) < nr;
    } else {
      LowerHalf(cnt, nr);
    }
  }

  lemma Bounded(cnt: nat, nr: nat)
    requires Pow2(cnt) <= nr <= 0x8000_0000
    ensures cnt <= 31 && (Pow2(cnt) < nr ==> Pow2(cnt + 1) <= 0x8000_0000)
  {
    Pow2Values();
    if cnt > 31 { Pow2Grows(31, cnt); }
    if cnt < 31 { Pow2Grows(cnt + 1, 31); }
  }

  lemma LowerHalf(cnt: nat, nr: nat)
    requires nr == Pow2(cnt)
    ensures LeastPower(nr, nr)
  {
    if cnt > 0 { Pow2Grows(cnt - 1, cnt); }
  }

  /** The new capacity, in the 32 bits it is computed in. */
  function Wrapped(rounded: nat): nat {
    (rounded * CHUNK) % TWO32
  }

  /** A capacity: 128 slots, doubled any number of times. */
  ghost predicate Capacity(n: nat) {
    exists k: nat :: n == CHUNK * Pow2(k)
  }

  /**
  The size `gf_fd_fdtable_expand` comes to exceeds the request exactly for requests below 2^31; above,
  the product wraps round to zero.
  */
  lemma ExpandExceeds(nr: nat, rounded: nat)
    requires nr < TWO32 && LeastPower(nr / CHUNK + 1, rounded)
    ensures nr < 0x8000_0000 ==> 0x8000_0000 >= Wrapped(rounded) == rounded * CHUNK > nr && Capacity(Wrapped(rounded))
    ensures nr >= 0x8000_0000 ==> Wrapped(rounded) == 0
    ensures rounded <= 0x200_0000
  {
    Pow2Values();
    var n := nr / CHUNK + 1;
    var k: nat :| rounded == Pow2(k) && n <= rounded && (k > 0 ==> Pow2(k - 1) < n);
    if nr < 0x8000_0000 {
      if k > 24 { Pow2Grows(24, k - 1); }
      Pow2Grows(k, 24);
      assert rounded * CHUNK == CHUNK * Pow2(k);
    } else {
      if k > 25 { Pow2Grows(25, k - 1); }
      if k < 25 { Pow2Grows(k, 24); }
      assert rounded == 0x200_0000;
    }
  }

  // ---------------------------------------------------------------- slots and references

  /** How many slots hold `p`. */
  ghost function Uses(slots: seq<Link>, p: Ptr): nat {
    if slots == [] then 0 else (if slots[|slots| - 1] == Some(p) then 1 else 0) + Uses(slots[..|slots| - 1], p)
  }

  /** Slots hold live fds, and each reference count is the slots holding the fd plus the references outside. */
  ghost predicate RefsOk(slots: seq<Link>, refs: map<Ptr, int>, held: Held) {
    && (forall i :: 0 <= i < |slots| && slots[i].Some? ==> slots[i].value in refs)
    && (forall p :: p in refs ==> refs[p] == Uses(slots, p) + Outside(held, p) && refs[p] > 0)
    && (forall p :: Outside(held, p) > 0 ==> p in refs)
  }

  lemma {:induction false} UsesSet(slots: seq<Link>, i: nat, x: Link, p: Ptr)
    requires i < |slots|
    ensures Uses(slots[i := x], p) ==
      Uses(slots, p) - (if slots[i] == Some(p) then 1 else 0) + (if x == Some(p) then 1 else 0)
    decreases |slots|
  {
    var n := |slots| - 1;
    if i < n {
      UsesSet(slots[..n], i, x, p);
      assert slots[i := x][..n] == slots[..n][i := x];
    } else {
      assert slots[i := x][..n] == slots[..n];
    }
  }

  lemma {:induction false} UsesAppend(a: seq<Link>, b: seq<Link>, p: Ptr)
    ensures Uses(a + b, p) == Uses(a, p) + Uses(b, p)
    decreases |b|
  {
    if b == [] {
      assert a + b == a;
    } else {
      var n := |b| - 1;
      UsesAppend(a, b[..n], p);
      assert (a + b)[..|a| + n] == a + b[..n];
    }
  }

  lemma {:induction false} UsedOnce(slots: seq<Link>, i: nat, p: Ptr)
    requires i < |slots| && slots[i] == Some(p)
    ensures Uses(slots, p) > 0
  {
    if i < |slots| - 1 { UsedOnce(slots[..|slots| - 1], i, p); }
  }

  /** With only the first `n` slots kept, and free ones behind them, the counts are right if no fd was in the others. */
  lemma CutRefs(slots: seq<Link>, n: nat, pad: seq<Link>, refs: map<Ptr, int>, held: Held)
    requires RefsOk(slots, refs, held) && n <= |slots| && forall i :: 0 <= i < |pad| ==> pad[i] == None
    ensures RefsOk(slots[..n] + pad, refs, held) <==> forall i :: n <= i < |slots| ==> slots[i] == None
  {
    hide Uses, Outside;
    var kept, lost := slots[..n], slots[n..];
    assert slots == kept + lost;
    forall p ensures Uses(slots, p) == Uses(kept, p) + Uses(lost, p) && Uses(kept + pad, p) == Uses(kept, p) {
      UsesAppend(kept, lost, p);
      UsesAppend(kept, pad, p);
      NeverUsed(pad, p);
    }
    if i :| n <= i < |slots| && slots[i] != None {
      assert lost[i - n] == slots[i];
      UsedOnce(lost, i - n, slots[i].value);
    } else {
      forall p ensures Uses(lost, p) == 0 { NeverUsed(lost, p); }
    }
  }

  /** A slot takes over one outside reference; the counts are as right after it as before. */
  lemma FillRefs(slots: seq<Link>, refs: map<Ptr, int>, held: Held, i: nat, x: Ptr)
    requires i < |slots| && slots[i] == None && Outside(held, x) > 0 && x in refs
    ensures RefsOk(slots[i := Some(x)], refs, Lost(held, x)) <==> RefsOk(slots, refs, held)
  {
    hide Uses;
    var full := slots[i := Some(x)];
    forall p
      ensures Uses(full, p) + Outside(Lost(held, x), p) == Uses(slots, p) + Outside(held, p)
    {
      UsesSet(slots, i, Some(x), p);
    }
    forall k | 0 <= k < |slots| ensures k != i ==> full[k] == slots[k] { }
  }

  lemma OutsideLive(slots: seq<Link>, refs: map<Ptr, int>, held: Held, x: Ptr)
    requires RefsOk(slots, refs, held) && Outside(held, x) > 0
    ensures x in refs
  {
  }

  /** A slot emptied leaves its reference outside. */
  lemma EmptyRefs(slots: seq<Link>, refs: map<Ptr, int>, held: Held, i: nat)
    requires RefsOk(slots, refs, held) && i < |slots| && slots[i].Some?
    ensures var x := slots[i].value; RefsOk(slots[i := None], refs, Gained(held, x))
  {
    hide Uses;
    var x := slots[i].value;
    forall p | p in refs ensures refs[p] == Uses(slots[i := None], p) + Outside(Gained(held, x), p) {
      UsesSet(slots, i, None, p);
    }
  }

  /** One reference fewer; the last one takes the fd with it. */
  function Dropped(refs: map<Ptr, int>, x: Ptr): map<Ptr, int>
    requires x in refs
  {
    if refs[x] == 1 then refs - {x} else refs[x := refs[x] - 1]
  }

  /** An fd goes away with its last reference. */
  lemma UnrefRefs(slots: seq<Link>, refs: map<Ptr, int>, held: Held, x: Ptr)
    requires RefsOk(slots, refs, held) && Outside(held, x) > 0
    ensures x in refs && refs[x] > 0
    ensures RefsOk(slots, Dropped(refs, x), Lost(held, x))
  {
    hide Uses;
    if refs[x] == 1 {
      forall i | 0 <= i < |slots| && slots[i].Some? ensures slots[i].value != x {
        if slots[i].value == x { UsedOnce(slots, i, x); }
      }
    }
  }

  // ---------------------------------------------------------------- the table

  /** The slots the copy in `gf_fd_fdtable_expand` carries over: its byte count is 32 bits wide. */
  function Copied(max: nat): nat {
    (max * 8) % TWO32 / 8
  }

  /** What the copy writes fits the new table. */
  ghost predicate CopyFits(max: nat, nr: nat) {
    forall r: nat :: LeastPower(nr / CHUNK + 1, r) ==> Copied(max) <= r * CHUNK
  }

  lemma GrowingFits(max: nat)
    requires max + 1 < 0x8000_0000
    ensures CopyFits(max, max + 1)
  {
    hide LeastPower;
    forall r: nat | LeastPower((max + 1) / CHUNK + 1, r) ensures Copied(max) <= r * CHUNK { ExpandExceeds(max + 1, r); }
  }

  /** All slots are carried over exactly when their bytes are fewer than 2^32. */
  lemma CopiesAll(max: nat)
    requires max < TWO32
    ensures Copied(max) == max <==> max < 0x2000_0000
  {
  }

  class FdTable {
    var fds: array<Link>
    /** The fds in memory, with their reference counts. */
    var refs: map<Ptr, int>
    /** References not owned by a slot. */
    ghost var held: Held

    ghost predicate Sized()
      reads this
    {
      Capacity(fds.Length) && fds.Length <= 0x8000_0000
    }

    ghost predicate Valid()
      reads this, fds
    {
      Sized() && RefsOk(fds[..], refs, held)
    }

    /** `gf_fd_fdtable_alloc`. */
    constructor ()
      ensures Valid() && fds.Length == CHUNK && refs == map[] && fresh(fds)
      ensures forall i :: 0 <= i < fds.Length ==> fds[i] == None
    {
      fds := new Link[CHUNK](_ => None);
      refs, held := map[], map[];
      new;
      assert CHUNK == CHUNK * Pow2(0);
    }

    /** A new fd, with the reference its creator holds. */
    method Create() returns (x: Ptr)
      requires Valid()
      modifies this`refs, this`held
      ensures Valid() && x !in old(refs) && refs == old(refs)[x := 1] && held == old(held)[x := 1]
    {
      FreshExists(refs.Keys);
      x :| x !in refs.Keys;
      CreateRefs(fds[..], refs, held, x);
      refs, held := refs[x := 1], held[x := 1];
    }

    /** `fd_ref`. */
    method Ref(x: Ptr)
      requires Valid() && x in refs
      modifies this`refs, this`held
      ensures Valid() && refs == old(refs)[x := old(refs[x]) + 1] && held == Gained(old(held), x)
    {
      hide Uses;
      refs, held := refs[x := refs[x] + 1], Gained(held, x);
    }

    /** `fd_unref`, whose assertion holds: the count is positive. */
    method Unref(x: Ptr)
      requires Valid() && Outside(held, x) > 0
      modifies this`refs, this`held
      ensures Valid() && x in old(refs) && held == Lost(old(held), x)
      ensures refs == Dropped(old(refs), x)
    {
      hide RefsOk, Capacity;
      UnrefRefs(fds[..], refs, held, x);
      assert refs[x] > 0;
      var left := refs[x] - 1;
      refs := refs[x := left];
      if left == 0 {
        refs := refs - {x};
        assert refs == old(refs) - {x};
      }
      held := Lost(held, x);
    }

    /** `gf_fd_fdtable_expand`: the slots copied are kept, and the counts stay right if no others were in use. */
    method Expand(nr: nat)
      requires Valid() && nr < 0x8000_0000 && CopyFits(fds.Length, nr)
      modifies this`fds
      ensures Sized() && fresh(fds) && fds.Length > nr && Copied(old(fds.Length)) <= fds.Length
      ensures forall i :: 0 <= i < fds.Length ==> fds[i] == if i < Copied(old(fds.Length)) then old(fds[i]) else None
      ensures Valid() <==> forall i :: Copied(old(fds.Length)) <= i < old(fds.Length) ==> old(fds[i]) == None
    {
      hide RefsOk, LeastPower, Capacity;
      var rounded := RoundUp(nr / CHUNK + 1);
      ExpandExceeds(nr, rounded);
      var max := Wrapped(rounded);
      var olds, cpy := fds, Copied(fds.Length);
      ghost var slots := olds[..];
      fds := new Link[max](_ => None);
      var news := fds;
      for i := 0 to cpy
        invariant fds == news && olds[..] == slots
        invariant forall j :: 0 <= j < i ==> news[j] == slots[j]
        invariant forall j :: i <= j < max ==> news[j] == None
      {
        news[i] := olds[i];
      }
      assert news[..] == slots[..cpy] + news[cpy..];
      CutRefs(slots, cpy, news[cpy..], refs, held);
    }

    /**
    `gf_fd_unused_get`: the least free slot takes the fd, with the caller's reference. When the table grows, the
    slots that the copy carries over stay as they are, which is all of them below 2^29 slots.
    */
    method UnusedGet(fdptr: Link) returns (fd: int)
      requires Valid() && (fdptr.Some? ==> Outside(held, fdptr.value) > 0)
      requires None in fds[..] || fds.Length + 1 < 0x8000_0000
      modifies this, fds
      ensures Sized() && refs == old(refs)
      ensures fdptr.None? ==> Valid() && fd == EINVAL && fds == old(fds) && fds[..] == old(fds[..]) && held == old(held)
      ensures fdptr.Some? ==>
        && 0 <= fd < fds.Length && fds[fd] == fdptr && held == Lost(old(held), fdptr.value)
        && fds.Length >= old(fds.Length) && fd <= old(fds.Length)
        && (fd < old(fds.Length) ==> fds.Length == old(fds.Length) && old(fds[fd]) == None)
        && (forall i :: 0 <= i < fd ==> old(fds[i]).Some?)
        && var kept := if fd < old(fds.Length) then old(fds.Length) else Copied(old(fds.Length));
           && (forall i :: 0 <= i < fds.Length && i != fd ==> fds[i] == if i < kept then old(fds[i]) else None)
           && (Valid() <==> fd < old(fds.Length) || old(fds.Length) < 0x2000_0000)
    {
      hide RefsOk, Capacity, CopyFits;
      if fdptr.None? {
        return EINVAL;
      }
      OutsideLive(fds[..], refs, held, fdptr.value);
      var i := 0;
      while i < fds.Length && fds[i] != None
        invariant i <= fds.Length && forall j :: 0 <= j < i ==> fds[j].Some?
      {
        i := i + 1;
      }
      CopiesAll(fds.Length);
      if i == fds.Length {
        ghost var n := fds.Length;
        GrowingFits(n);
        Expand(fds.Length + 1);
        assert Valid() <==> Copied(n) == n by {
          if Copied(n) < n { assert old(fds[Copied(n)]) != None; }
        }
      }
      FillRefs(fds[..], refs, held, i, fdptr.value);
      ghost var slots := fds[..];
      fds[i] := fdptr;
      assert fds[..] == slots[i := fdptr];
      held := Lost(held, fdptr.value);
      fd := i;
    }

    /** `gf_fd_put`: the slot is free again and its reference dropped; a bad number changes nothing. */
    method Put(fd: int)
      requires Valid()
      modifies this`refs, this`held, fds
      ensures Valid() && fds.Length == old(fds.Length)
      ensures forall i :: 0 <= i < fds.Length ==> fds[i] == if i == fd then None else old(fds[i])
      ensures forall p :: Outside(held, p) == Outside(old(held), p)
      ensures if 0 <= fd < fds.Length && old(fds[fd]).Some? then
                old(fds[fd]).value in old(refs) && refs == Dropped(old(refs), old(fds[fd]).value)
              else refs == old(refs)
    {
      hide RefsOk, Capacity;
      if fd < 0 || !(fd < fds.Length) {
        return;
      }
      ghost var slots := fds[..];
      var fdptr := fds[fd];
      if fdptr.Some? { EmptyRefs(slots, refs, held, fd); }
      fds[fd] := None;
      assert fds[..] == slots[fd := None];
      if fdptr.Some? {
        held := Gained(held, fdptr.value);
        Unref(fdptr.value);
      } else {
        assert fds[..] == slots;
      }
    }

    /** `gf_fd_fdptr_get`: the fd in a slot, with a reference for the caller. */
    method FdptrGet(fd: int) returns (fdptr: Link)
      requires Valid()
      modifies this`refs, this`held
      ensures Valid()
      ensures fdptr == if 0 <= fd < fds.Length then fds[fd] else None
      ensures match fdptr {
        case None => refs == old(refs) && held == old(held)
        case Some(x) => x in old(refs) && refs == old(refs)[x := old(refs[x]) + 1]
                        && held == Gained(old(held), x) }
    {
      if fd < 0 || !(fd < fds.Length) {
        return None;
      }
      fdptr := fds[fd];
      if fdptr.Some? {
        SlotLive(fds[..], refs, held, fd);
        hide RefsOk, Capacity;
        Ref(fdptr.value);
      }
    }
  }

  lemma SlotLive(slots: seq<Link>, refs: map<Ptr, int>, held: Held, i: nat)
    requires RefsOk(slots, refs, held) && i < |slots| && slots[i].Some?
    ensures slots[i].value in refs
  {
  }

  lemma CreateRefs(slots: seq<Link>, refs: map<Ptr, int>, held: Held, x: Ptr)
    requires RefsOk(slots, refs, held) && x !in refs
    ensures RefsOk(slots, refs[x := 1], held[x := 1])
  {
    hide Uses;
    NeverUsed(slots, x);
  }

  lemma {:induction false} NeverUsed(slots: seq<Link>, x: Ptr)
    requires forall i :: 0 <= i < |slots| ==> slots[i] != Some(x)
    ensures Uses(slots, x) == 0
  {
    if slots != [] { NeverUsed(slots[..|slots| - 1], x); }
  }

  /** At 2^29 slots the byte count of the copy wraps to zero, and growing loses every slot. */
  lemma CopyWraps()
    ensures Capacity(0x2000_0000) && Copied(0x2000_0000) == 0
  {
    Pow2Values();
    assert Pow2(22) == 0x40_0000 by { assert Pow2(24) == 4 * Pow2(22); }
    assert 0x2000_0000 == CHUNK * Pow2(22);
  }
}
