/** The registry of event handlers behind poll and epoll. */
module Events {
  import opened Options

  /** The bits asked for: urgent data always, input and output on request. */
  datatype Interest = Interest(pri: bool, input: bool, output: bool)

  /** A registration; handler and data are opaque to the registry. */
  datatype Reg = Reg(fd: int, events: Interest, handler: nat, data: nat)

  /** What the kernel holds for a descriptor of an epoll set. */
  datatype Watch = Watch(events: Interest, idx: nat)

  datatype PollFd = PollFd(fd: int, events: Interest, revents: int)

  // ---------------------------------------------------------------- interests

  /** 1 sets the bit, 0 clears it, anything else leaves it. */
  function Adjusted(bit: bool, value: int): bool {
    if value == 1 then true else if value == 0 then false else bit
  }

  function Selected(e: Interest, pollIn: int, pollOut: int): Interest {
    e.(input := Adjusted(e.input, pollIn), output := Adjusted(e.output, pollOut))
  }

  const INITIAL := Interest(true, false, false)

  // ---------------------------------------------------------------- the registry as a map

  ghost predicate Distinct(regs: seq<Reg>) {
    forall i, j :: 0 <= i < j < |regs| ==> regs[i].fd != regs[j].fd
  }

  /** The registration of a descriptor. */
  function Lookup(regs: seq<Reg>, fd: int): (r: Option<Reg>)
    ensures r.Some? ==> r.value.fd == fd
  {
    if regs == [] then None else if regs[0].fd == fd then Some(regs[0]) else Lookup(regs[1..], fd)
  }

  lemma {:induction false} LookupFirst(regs: seq<Reg>, fd: int, i: nat)
    requires i < |regs| && regs[i].fd == fd && forall j :: 0 <= j < i ==> regs[j].fd != fd
    ensures Lookup(regs, fd) == Some(regs[i])
  {
    if i > 0 {
      assert regs[0].fd != fd;
      LookupFirst(regs[1..], fd, i - 1);
    }
  }

  lemma LookupAt(regs: seq<Reg>, i: nat)
    requires Distinct(regs) && i < |regs|
    ensures Lookup(regs, regs[i].fd) == Some(regs[i])
  {
    LookupFirst(regs, regs[i].fd, i);
  }

  lemma {:induction false} LookupNone(regs: seq<Reg>, fd: int)
    requires forall i :: 0 <= i < |regs| ==> regs[i].fd != fd
    ensures Lookup(regs, fd) == None
  {
    if regs != [] { LookupNone(regs[1..], fd); }
  }

  /** The answers after `r` has been appended: an earlier registration of the descriptor goes on answering. */
  ghost function Joining(regs: seq<Reg>, r: Reg, fd: int): Option<Reg> {
    if fd == r.fd && Lookup(regs, fd) == None then Some(r) else Lookup(regs, fd)
  }

  /** `r` is a registration made with these arguments: urgent data always, input and output where 1 asks for them. */
  ghost predicate Registers(r: Reg, fd: int, handler: nat, data: nat, pollIn: int, pollOut: int) {
    && r.fd == fd && r.handler == handler && r.data == data
    && r.events.pri && (r.events.input <==> pollIn == 1) && (r.events.output <==> pollOut == 1)
  }

  /** `q` is `r` with its interest changed: 1 asks for a direction, 0 gives it up, anything else leaves it. */
  ghost predicate Reselects(r: Reg, q: Reg, pollIn: int, pollOut: int) {
    && q.fd == r.fd && q.handler == r.handler && q.data == r.data && q.events.pri == r.events.pri
    && (q.events.input <==> pollIn == 1 || (pollIn != 0 && r.events.input))
    && (q.events.output <==> pollOut == 1 || (pollOut != 0 && r.events.output))
  }

  /** Only the registration of `fd`, if there is one, has changed, and in its interest. */
  ghost predicate OnlyReselected(was: seq<Reg>, now: seq<Reg>, fd: int, pollIn: int, pollOut: int) {
    && (forall f :: f != fd ==> Lookup(now, f) == Lookup(was, f))
    && (Lookup(was, fd) == None <==> Lookup(now, fd) == None)
    && (Lookup(was, fd) != None ==> Reselects(Lookup(was, fd).value, Lookup(now, fd).value, pollIn, pollOut))
  }

  function Initial(fd: int, handler: nat, data: nat, pollIn: int, pollOut: int): Reg {
    Reg(fd, Selected(INITIAL, pollIn, pollOut), handler, data)
  }

  /** Two registries with the same registrations answer alike, in whatever order. */
  lemma LookupSame(a: seq<Reg>, b: seq<Reg>, fd: int)
    requires Distinct(a) && Distinct(b)
    requires forall r: Reg :: r.fd == fd ==> (r in a <==> r in b)
    ensures Lookup(a, fd) == Lookup(b, fd)
  {
    hide Distinct;
    if i :| 0 <= i < |a| && a[i].fd == fd {
      LookupAt(a, i);
      assert a[i] in b;
      var j :| 0 <= j < |b| && b[j] == a[i];
      LookupAt(b, j);
    } else {
      LookupNone(a, fd);
      forall j | 0 <= j < |b| ensures b[j].fd != fd { assert b[j] in b; }
      LookupNone(b, fd);
    }
  }

  /** The registry with the last registration moved over the one at `i`. */
  function SwapDeleted(regs: seq<Reg>, i: nat): (r: seq<Reg>)
    requires i < |regs|
    ensures |r| == |regs| - 1
  {
    regs[i := regs[|regs| - 1]][..|regs| - 1]
  }

  /** Deleting keeps every other descriptor's registration. */
  lemma SwapDelete(regs: seq<Reg>, i: nat, fd: int)
    requires Distinct(regs) && i < |regs|
    ensures Distinct(SwapDeleted(regs, i))
    ensures Lookup(SwapDeleted(regs, i), fd) == if fd == regs[i].fd then None else Lookup(regs, fd)
  {
    var r, n := SwapDeleted(regs, i), |regs| - 1;
    assert forall k :: 0 <= k < n ==> r[k] == regs[if k == i then n else k];
    SwapDistinct(regs, i);
    if fd == regs[i].fd {
      forall k | 0 <= k < |r| ensures r[k].fd != fd { }
      LookupNone(r, fd);
    } else {
      SwapMembers(regs, i, fd);
      LookupSame(r, regs, fd);
    }
  }

  lemma SwapDistinct(regs: seq<Reg>, i: nat)
    requires Distinct(regs) && i < |regs|
    ensures Distinct(SwapDeleted(regs, i))
  {
    var r, n := SwapDeleted(regs, i), |regs| - 1;
    forall j, k | 0 <= j < k < |r| ensures r[j].fd != r[k].fd {
      assert r[j] == regs[if j == i then n else j] && r[k] == regs[if k == i then n else k];
    }
  }

  lemma SwapMembers(regs: seq<Reg>, i: nat, fd: int)
    requires i < |regs| && regs[i].fd != fd
    ensures forall r: Reg :: r.fd == fd ==> (r in SwapDeleted(regs, i) <==> r in regs)
  {
    var s, n := SwapDeleted(regs, i), |regs| - 1;
    forall r: Reg | r.fd == fd ensures r in s <==> r in regs {
      if r in regs {
        var k :| 0 <= k < |regs| && regs[k] == r;
        assert r == s[if k == n then i else k];
      }
      if r in s {
        var k :| 0 <= k < |s| && s[k] == r;
        assert r == regs[if k == i then n else k];
      }
    }
  }

  lemma {:induction false} AppendLookup(regs: seq<Reg>, r: Reg, fd: int)
    ensures Lookup(regs + [r], fd) == Joining(regs, r, fd)
  {
    if regs == [] {
      assert [] + [r] == [r] && [r][1..] == [];
    } else {
      AppendLookup(regs[1..], r, fd);
      assert (regs + [r])[1..] == regs[1..] + [r] && (regs + [r])[0] == regs[0];
    }
  }

  /** A second registration of a descriptor is what makes the descriptors no longer distinct. */
  lemma AppendDistinct(regs: seq<Reg>, r: Reg)
    requires Distinct(regs)
    ensures Distinct(regs + [r]) <==> Lookup(regs, r.fd) == None
  {
    var s := regs + [r];
    if Lookup(regs, r.fd) == None {
      AbsentEverywhere(regs, r.fd);
    } else if Distinct(s) {
      LookupAt(s, |regs|);
      AppendLookup(regs, r, r.fd);
      TwiceOver(regs, r);
    }
  }

  lemma {:induction false} TwiceOver(regs: seq<Reg>, r: Reg)
    requires Lookup(regs, r.fd) != None
    ensures !Distinct(regs + [r])
  {
    hide Distinct;
    if regs[0].fd == r.fd {
      assert (regs + [r])[0].fd == (regs + [r])[|regs|].fd;
      Repeated(regs + [r], 0, |regs|);
    } else {
      TwiceOver(regs[1..], r);
      assert regs[1..] + [r] == (regs + [r])[1..];
      TailDistinct(regs + [r]);
    }
  }

  lemma Repeated(s: seq<Reg>, i: nat, j: nat)
    requires i < j < |s| && s[i].fd == s[j].fd
    ensures !Distinct(s)
  {
  }

  lemma TailDistinct(s: seq<Reg>)
    requires s != []
    ensures Distinct(s) ==> Distinct(s[1..])
  {
  }

  lemma StoreLookup(regs: seq<Reg>, i: nat, r: Reg, fd: int)
    requires Distinct(regs) && i < |regs| && r.fd == regs[i].fd
    ensures Distinct(regs[i := r])
    ensures Lookup(regs[i := r], fd) == if fd == r.fd then Some(r) else Lookup(regs, fd)
  {
    var s := regs[i := r];
    if fd == r.fd {
      LookupAt(s, i);
    } else {
      forall x: Reg | x.fd == fd ensures x in s <==> x in regs {
        if x in s { var k :| 0 <= k < |s| && s[k] == x; assert regs[k] == x; }
        if x in regs { var k :| 0 <= k < |regs| && regs[k] == x; assert s[k] == x; }
      }
      LookupSame(s, regs, fd);
    }
  }

  lemma StoreReselects(regs: seq<Reg>, i: nat, r: Reg, pollIn: int, pollOut: int)
    requires Distinct(regs) && i < |regs| && Reselects(regs[i], r, pollIn, pollOut)
    ensures Distinct(regs[i := r]) && OnlyReselected(regs, regs[i := r], r.fd, pollIn, pollOut)
  {
    hide Distinct, Lookup;
    forall f ensures Lookup(regs[i := r], f) == if f == r.fd then Some(r) else Lookup(regs, f) {
      StoreLookup(regs, i, r, f);
    }
    StoreLookup(regs, i, r, r.fd);
    LookupAt(regs, i);
  }

  // ---------------------------------------------------------------- the kernel's set

  /** For each registration the kernel holds its interest and index, and it holds nothing else. */
  ghost predicate Mirrors(kernel: map<int, Watch>, regs: seq<Reg>) {
    && (forall i :: 0 <= i < |regs| ==> regs[i].fd in kernel && kernel[regs[i].fd] == Watch(regs[i].events, i))
    && (forall fd :: fd in kernel ==> exists i :: 0 <= i < |regs| && regs[i].fd == fd)
  }

  lemma MirrorAppend(kernel: map<int, Watch>, regs: seq<Reg>, r: Reg)
    requires Mirrors(kernel, regs) && r.fd !in kernel
    ensures Mirrors(kernel[r.fd := Watch(r.events, |regs|)], regs + [r])
  {
    var s, k := regs + [r], kernel[r.fd := Watch(r.events, |regs|)];
    forall i | 0 <= i < |s| ensures s[i].fd in k && k[s[i].fd] == Watch(s[i].events, i) {
      if i < |regs| { assert s[i] == regs[i]; }
    }
    forall fd | fd in k ensures exists i :: 0 <= i < |s| && s[i].fd == fd {
      if fd == r.fd {
        assert s[|regs|].fd == fd;
      } else {
        var i :| 0 <= i < |regs| && regs[i].fd == fd;
        assert s[i].fd == fd;
      }
    }
  }

  lemma MirrorStore(kernel: map<int, Watch>, regs: seq<Reg>, i: nat, r: Reg)
    requires Mirrors(kernel, regs) && Distinct(regs) && i < |regs| && r.fd == regs[i].fd
    ensures Mirrors(kernel[r.fd := Watch(r.events, i)], regs[i := r])
  {
    var s, k := regs[i := r], kernel[r.fd := Watch(r.events, i)];
    forall fd | fd in k ensures exists j :: 0 <= j < |s| && s[j].fd == fd {
      assert s[i].fd == r.fd;
      if fd != r.fd {
        var j :| 0 <= j < |regs| && regs[j].fd == fd;
        assert s[j].fd == fd;
      }
    }
  }

  /** After the deletion of one descriptor and the change of index of the moved one, the mirror is exact again. */
  lemma MirrorSwap(kernel: map<int, Watch>, regs: seq<Reg>, i: nat)
    requires Mirrors(kernel, regs) && Distinct(regs) && i < |regs|
    ensures var last := regs[|regs| - 1]; var cut := kernel - {regs[i].fd};
      Mirrors(if i == |regs| - 1 then cut else cut[last.fd := Watch(last.events, i)], SwapDeleted(regs, i))
  {
    var n, s := |regs| - 1, SwapDeleted(regs, i);
    var last, cut := regs[n], kernel - {regs[i].fd};
    var k := if i == n then cut else cut[last.fd := Watch(last.events, i)];
    forall j | 0 <= j < |s| ensures s[j].fd in k && k[s[j].fd] == Watch(s[j].events, j) {
      assert s[j] == regs[if j == i then n else j];
    }
    forall fd | fd in k ensures exists j :: 0 <= j < |s| && s[j].fd == fd {
      var j :| 0 <= j < |regs| && regs[j].fd == fd;
      assert s[if j == n then i else j].fd == fd;
    }
  }

  // ---------------------------------------------------------------- the pool

  class EventPool {
    var reg: array<Reg>
    var used: nat
    var changed: bool
    /** The epoll set. */
    var kernel: map<int, Watch>
    /** The buffer handed to `poll`. */
    var evcache: array<PollFd>

    ghost function Regs(): seq<Reg>
      reads this, reg
      requires used <= reg.Length
    {
      reg[..used]
    }

    ghost predicate Valid()
      reads this, reg
    {
      used <= reg.Length && Distinct(Regs()) && (changed || used == 0)
    }

    /** Under epoll: the registry can double, and the kernel's set mirrors it. */
    ghost predicate Mirrored()
      reads this, reg
    {
      Valid() && reg.Length > 0 && Mirrors(kernel, Regs())
    }

    constructor (count: nat)
      ensures Valid() && Regs() == [] && reg.Length == count && kernel == map[] && evcache.Length == 0
      ensures fresh(reg) && fresh(evcache) && (count > 0 ==> Mirrored())
    {
      reg := new Reg[count](_ => Reg(0, INITIAL, 0, 0));
      evcache := new PollFd[0];
      used, changed, kernel := 0, false, map[];
    }

    /** `__event_getindex`: the hint if it is right, or else the first match. */
    method GetIndex(fd: int, hint: int) returns (ret: int)
      requires Valid()
      ensures ret == -1 <==> Lookup(Regs(), fd) == None
      ensures ret != -1 ==> 0 <= ret < used && reg[ret].fd == fd && Lookup(Regs(), fd) == Some(reg[ret])
    {
      hide Distinct;
      ret := -1;
      if -1 < hint < used && reg[hint].fd == fd {
        ret := hint;
      }
      var i := 0;
      while ret == -1 && i < used
        invariant i <= used && (ret == -1 || (0 <= ret < used && reg[ret].fd == fd))
        invariant ret == -1 ==> forall j :: 0 <= j < i ==> Regs()[j].fd != fd
        decreases used - i, ret == -1
      {
        if reg[i].fd == fd {
          ret := i;
        } else {
          i := i + 1;
        }
      }
      if ret == -1 {
        LookupNone(Regs(), fd);
      } else {
        LookupAt(Regs(), ret);
      }
    }

    // -------------------------------------------------------------- poll

    /** `realloc` of the registry. */
    method Grow(count: nat)
      requires Valid() && reg.Length <= count
      modifies this`reg
      ensures Valid() && Regs() == old(Regs()) && reg.Length == count && fresh(reg)
    {
      var olds, news := reg, new Reg[count](_ => Reg(0, INITIAL, 0, 0));
      forall i | 0 <= i < olds.Length {
        news[i] := olds[i];
      }
      reg := news;
      assert reg[..used] == old(reg[..used]);
    }

    method Append(fd: int, handler: nat, data: nat, pollIn: int, pollOut: int)
      requires Valid() && used < reg.Length
      modifies this`used, this`changed, reg
      ensures used == old(used) + 1 <= reg.Length && changed && Regs()[..old(used)] == old(Regs())
      ensures Registers(Regs()[old(used)], fd, handler, data, pollIn, pollOut)
      ensures Valid() <==> Lookup(old(Regs()), fd) == None
      ensures forall f :: Lookup(Regs(), f) == Joining(old(Regs()), Regs()[old(used)], f)
    {
      hide Distinct, Lookup;
      ghost var regs, r := Regs(), Initial(fd, handler, data, pollIn, pollOut);
      reg[used] := Initial(fd, handler, data, pollIn, pollOut);
      used := used + 1;
      changed := true;
      assert reg[..used] == regs + [r];
      forall f ensures Lookup(regs + [r], f) == Joining(regs, r, f) { AppendLookup(regs, r, f); }
      AppendDistinct(regs, r);
    }

    /** `event_register_poll`; a descriptor registered before is then listed twice, and answers as before. */
    method RegisterPoll(fd: int, handler: nat, data: nat, pollIn: int, pollOut: int) returns (idx: int)
      requires Valid()
      modifies this, reg
      ensures used == old(used) + 1 <= reg.Length && idx == old(used) && kernel == old(kernel) && changed
      ensures Regs()[..old(used)] == old(Regs()) && Registers(Regs()[idx], fd, handler, data, pollIn, pollOut)
      ensures Valid() <==> Lookup(old(Regs()), fd) == None
      ensures forall f :: Lookup(Regs(), f) == Joining(old(Regs()), Regs()[idx], f)
    {
      hide Distinct, Lookup;
      if reg.Length == used {
        Grow(used + 256);
      }
      idx := used;
      Append(fd, handler, data, pollIn, pollOut);
    }

    /** The registration at `idx` deleted by moving the last one over it. */
    method DeleteAt(idx: nat)
      requires Valid() && idx < used
      modifies this`used, reg
      ensures Valid() && used == old(used) - 1 && Regs() == SwapDeleted(old(Regs()), idx)
      ensures forall f :: Lookup(Regs(), f) == if f == old(reg[idx].fd) then None else Lookup(old(Regs()), f)
    {
      hide Distinct, Lookup;
      ghost var regs := Regs();
      used := used - 1;
      reg[idx] := reg[used];
      assert reg[..used] == SwapDeleted(regs, idx);
      forall f ensures Lookup(SwapDeleted(regs, idx), f) == if f == regs[idx].fd then None else Lookup(regs, f) {
        SwapDelete(regs, idx, f);
      }
      SwapDelete(regs, idx, 0);
    }

    /** `event_unregister_poll`: whatever the hint, this descriptor goes and the others stay. */
    method UnregisterPoll(fd: int, hint: int) returns (idx: int)
      requires Valid()
      modifies this, reg
      ensures Valid() && (idx == -1 <==> Lookup(old(Regs()), fd) == None) && reg == old(reg)
      ensures forall f :: Lookup(Regs(), f) == if f == fd then None else Lookup(old(Regs()), f)
      ensures changed <==> old(changed) || idx != -1
    {
      hide Distinct, Lookup;
      idx := GetIndex(fd, hint);
      if idx == -1 {
        return;
      }
      DeleteAt(idx);
      changed := true;
    }

    method SelectAt(idx: nat, pollIn: int, pollOut: int)
      requires Valid() && idx < used
      modifies reg
      ensures Valid() && Reselects(old(reg[idx]), reg[idx], pollIn, pollOut) && Regs() == old(Regs())[idx := reg[idx]]
      ensures OnlyReselected(old(Regs()), Regs(), old(reg[idx].fd), pollIn, pollOut)
    {
      hide Distinct, Lookup;
      ghost var regs := Regs();
      var r := reg[idx].(events := Selected(reg[idx].events, pollIn, pollOut));
      reg[idx] := r;
      assert reg[..used] == regs[idx := r];
      StoreReselects(regs, idx, r, pollIn, pollOut);
    }

    /** `event_select_on_poll`. */
    method SelectOnPoll(fd: int, hint: int, pollIn: int, pollOut: int) returns (idx: int)
      requires Valid()
      modifies this`changed, reg
      ensures Valid() && (idx == -1 <==> Lookup(old(Regs()), fd) == None)
      ensures OnlyReselected(old(Regs()), Regs(), fd, pollIn, pollOut)
      ensures changed <==> old(changed) || (idx != -1 && pollIn + pollOut > -2)
    {
      hide Distinct, Lookup;
      idx := GetIndex(fd, hint);
      if idx == -1 {
        return;
      }
      SelectAt(idx, pollIn, pollOut);
      if pollIn + pollOut > -2 {
        changed := true;
      }
    }

    /** `event_dispatch_poll_resize`, with the size it gave last time, 0 at first: the buffer lists the registry. */
    method PollResize(size: nat) returns (n: nat)
      requires Valid()
      modifies this`evcache, evcache
      ensures changed || size == 0 ==> n == used <= evcache.Length
      ensures changed || size == 0 ==>
          forall i :: 0 <= i < used ==> evcache[i] == PollFd(Regs()[i].fd, Regs()[i].events, 0)
      ensures !changed ==> n == size && evcache == old(evcache) && evcache[..] == old(evcache[..])
    {
      if !changed {
        return size;
      }
      if used > evcache.Length {
        evcache := new PollFd[used](_ => PollFd(0, INITIAL, 0));
      }
      var ufds := evcache;
      for i := 0 to used
        invariant ufds == evcache && used <= ufds.Length && (fresh(ufds) || ufds == old(evcache))
        invariant forall j :: 0 <= j < i ==> ufds[j] == PollFd(reg[j].fd, reg[j].events, 0)
      {
        ufds[i] := PollFd(reg[i].fd, reg[i].events, 0);
      }
      n := used;
    }

    // -------------------------------------------------------------- epoll

    /** `epoll_ctl` with EPOLL_CTL_ADD, EPOLL_CTL_MOD and EPOLL_CTL_DEL. */
    method CtlAdd(fd: int, w: Watch) returns (ret: int)
      modifies this`kernel
      ensures ret == if fd in old(kernel) then -1 else 0
      ensures kernel == if ret == 0 then old(kernel)[fd := w] else old(kernel)
    {
      if fd in kernel { return -1; }
      kernel := kernel[fd := w];
      return 0;
    }

    method CtlMod(fd: int, w: Watch) returns (ret: int)
      modifies this`kernel
      ensures ret == if fd in old(kernel) then 0 else -1
      ensures kernel == if ret == 0 then old(kernel)[fd := w] else old(kernel)
    {
      if fd !in kernel { return -1; }
      kernel := kernel[fd := w];
      return 0;
    }

    method CtlDel(fd: int) returns (ret: int)
      modifies this`kernel
      ensures ret == if fd in old(kernel) then 0 else -1
      ensures kernel == old(kernel) - {fd}
    {
      if fd !in kernel {
        assert kernel - {fd} == kernel;
        return -1;
      }
      kernel := kernel - {fd};
      return 0;
    }

    /**
    `event_register_epoll`; for a descriptor registered before it fails, but leaves a second entry in the registry,
    which the kernel's set then no longer mirrors.
    */
    method RegisterEpoll(fd: int, handler: nat, data: nat, pollIn: int, pollOut: int) returns (ret: int)
      requires Mirrored()
      modifies this, reg
      ensures ret == if Lookup(old(Regs()), fd) == None then 0 else -1
      ensures Mirrored() <==> ret == 0
      ensures used == old(used) + 1 <= reg.Length && changed && Regs()[..old(used)] == old(Regs())
      ensures Registers(Regs()[old(used)], fd, handler, data, pollIn, pollOut)
      ensures forall f :: Lookup(Regs(), f) == Joining(old(Regs()), Regs()[old(used)], f)
      ensures ret == -1 ==> kernel == old(kernel)
    {
      hide Distinct, Lookup, Mirrors;
      WatchedIff(kernel, Regs(), fd);
      if reg.Length == used {
        Grow(reg.Length * 2);
      }
      var idx := used;
      ghost var regs := Regs();
      Append(fd, handler, data, pollIn, pollOut);
      assert Regs() == regs + [Regs()[idx]];
      if fd !in kernel { MirrorAppend(kernel, regs, Regs()[idx]); }
      ret := CtlAdd(fd, Watch(reg[idx].events, idx));
    }

    /** `event_unregister_epoll`. */
    method UnregisterEpoll(fd: int, hint: int) returns (ret: int)
      requires Mirrored()
      modifies this, reg
      ensures Mirrored() && (ret == -1 <==> Lookup(old(Regs()), fd) == None) && changed == old(changed)
      ensures forall f :: Lookup(Regs(), f) == if f == fd then None else Lookup(old(Regs()), f)
    {
      hide Distinct, Lookup, Mirrors;
      var idx := GetIndex(fd, hint);
      if idx == -1 {
        return -1;
      }
      ghost var regs, watched := Regs(), kernel;
      Watched(kernel, regs, idx);
      Watched(kernel, regs, used - 1);
      MirrorSwap(kernel, regs, idx);
      ret := CtlDel(fd);
      var lastidx := used - 1;
      if lastidx != idx {
        LastStays(regs, idx);
        ret := CtlMod(reg[lastidx].fd, Watch(reg[lastidx].events, idx));
      }
      DeleteAt(idx);
    }

    /** `event_select_on_epoll`. */
    method SelectOnEpoll(fd: int, hint: int, pollIn: int, pollOut: int) returns (ret: int)
      requires Mirrored()
      modifies this, reg
      ensures Mirrored() && (ret == -1 <==> Lookup(old(Regs()), fd) == None) && changed == old(changed)
      ensures OnlyReselected(old(Regs()), Regs(), fd, pollIn, pollOut)
    {
      hide Distinct, Lookup, Mirrors;
      var idx := GetIndex(fd, hint);
      if idx == -1 {
        return -1;
      }
      ghost var regs := Regs();
      Watched(kernel, regs, idx);
      SelectAt(idx, pollIn, pollOut);
      assert Regs() == regs[idx := reg[idx]];
      MirrorStore(kernel, regs, idx, reg[idx]);
      ret := CtlMod(fd, Watch(reg[idx].events, idx));
    }

    /**
    `event_dispatch_epoll_handler` and `event_dispatch_poll_handler`: however stale the index that came
    with the event, the handler called is the one registered for the descriptor now, or none.
    */
    method Dispatch(fd: int, hint: int) returns (called: Option<(nat, nat)>)
      requires Valid()
      ensures called == match Lookup(Regs(), fd) { case None => None case Some(r) => Some((r.handler, r.data)) }
    {
      hide Distinct, Lookup;
      var idx := GetIndex(fd, hint);
      if idx == -1 {
        return None;
      }
      return Some((reg[idx].handler, reg[idx].data));
    }
  }

  lemma AbsentEverywhere(regs: seq<Reg>, fd: int)
    requires Distinct(regs) && Lookup(regs, fd) == None
    ensures forall i :: 0 <= i < |regs| ==> regs[i].fd != fd
  {
    hide Distinct;
    forall i | 0 <= i < |regs| ensures regs[i].fd != fd { LookupAt(regs, i); }
  }

  lemma WatchedIff(kernel: map<int, Watch>, regs: seq<Reg>, fd: int)
    requires Mirrors(kernel, regs) && Distinct(regs)
    ensures fd in kernel <==> Lookup(regs, fd) != None
  {
    if Lookup(regs, fd) == None {
      AbsentEverywhere(regs, fd);
    } else if forall i :: 0 <= i < |regs| ==> regs[i].fd != fd {
      LookupNone(regs, fd);
    }
  }

  lemma Watched(kernel: map<int, Watch>, regs: seq<Reg>, i: nat)
    requires Mirrors(kernel, regs) && i < |regs|
    ensures regs[i].fd in kernel && kernel[regs[i].fd] == Watch(regs[i].events, i)
  {
  }

  lemma LastStays(regs: seq<Reg>, i: nat)
    requires Distinct(regs) && i < |regs| - 1
    ensures regs[|regs| - 1].fd != regs[i].fd
  {
  }
}
