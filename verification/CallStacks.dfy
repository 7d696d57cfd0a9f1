/**
The asynchronous call protocol: a call makes a frame, a return runs the callback recorded in the frame
in its parent. The frames of a stack are doubly linked from the root frame, which is part of the stack.
*/
module CallStacks {
  import opened Options
  import opened Seqs

  type Ptr = nat
  type Link = Option<Ptr>

  /** `ret` names the callback. */
  datatype Frame = Frame(parent: Link, next: Link, prev: Link, ret: nat, cookie: Ptr, xlator: nat, refs: int)

  type Frames = map<Ptr, Frame>

  // ---------------------------------------------------------------- what holds of a stack

  /** The list holds the root, then the other frames, newest first. */
  ghost predicate LinksOk(frames: Frames, order: seq<Ptr>) {
    && order != [] && NoDup(order) && (forall p :: p in frames <==> p in order)
    && forall i {:trigger LinkStep(frames, order, i)} :: 0 <= i < |order| ==> LinkStep(frames, order, i)
  }

  ghost predicate LinkStep(frames: Frames, order: seq<Ptr>, i: int) {
    && 0 <= i < |order| && order[i] in frames
    && frames[order[i]].next == At(order, i + 1) && frames[order[i]].prev == At(order, i - 1)
  }

  /** The frames that were there before the one at `i`. */
  ghost function Before(order: seq<Ptr>, i: nat): seq<Ptr>
    requires 0 < i < |order|
  {
    order[i + 1..] + [order[0]]
  }

  /** Every frame but the root was called from a frame that was there before it. */
  ghost predicate ParentsOk(frames: Frames, order: seq<Ptr>)
    requires order != [] && forall p :: p in order ==> p in frames
  {
    && frames[order[0]].parent == None
    && forall i :: 0 < i < |order| ==>
         frames[order[i]].parent.Some? && frames[order[i]].parent.value in Before(order, i)
  }

  /** How many of the listed frames were called from `p` and have not returned. */
  ghost function Waiting(order: seq<Ptr>, frames: Frames, returned: set<Ptr>, p: Ptr): nat {
    if order == [] then 0
    else
      (if order[0] in frames && order[0] !in returned && frames[order[0]].parent == Some(p) then 1 else 0)
      + Waiting(order[1..], frames, returned, p)
  }

  /** A frame's count is the number of calls it waits for. */
  ghost predicate RefsOk(frames: Frames, order: seq<Ptr>, returned: set<Ptr>) {
    forall p :: p in frames ==> frames[p].refs == Waiting(order, frames, returned, p)
  }

  ghost predicate StackOk(frames: Frames, root: Ptr, order: seq<Ptr>, returned: set<Ptr>) {
    && LinksOk(frames, order) && order[0] == root && ParentsOk(frames, order) && RefsOk(frames, order, returned)
    && root !in returned && returned <= frames.Keys
  }

  // ---------------------------------------------------------------- making a frame

  /** The links of STACK_WIND: the new frame goes in behind the root. */
  function Linked(frames: Frames, root: Ptr, n: Ptr, f: Frame): Frames
    requires root in frames && (frames[root].next.Some? ==> frames[root].next.value in frames)
  {
    var first := frames[root].next;
    var a := frames[n := f.(next := first, prev := Some(root))];
    var b := if first.Some? then a[first.value := a[first.value].(prev := Some(n))] else a;
    b[root := b[root].(next := Some(n))]
  }

  /** Links aside, nothing has changed but the new frame. */
  lemma LinkedFields(frames: Frames, root: Ptr, n: Ptr, f: Frame)
    requires root in frames && n !in frames && (frames[root].next.Some? ==> frames[root].next.value in frames)
    ensures var u := Linked(frames, root, n, f);
      && u.Keys == frames.Keys + {n} && u[n].parent == f.parent && u[n].refs == f.refs && u[n].ret == f.ret
      && u[n].xlator == f.xlator && u[n].cookie == f.cookie
      && (forall p :: p in frames ==> u[p] == frames[p].(next := u[p].next, prev := u[p].prev))
  {
  }

  lemma LinkAt(frames: Frames, order: seq<Ptr>, i: nat)
    requires LinksOk(frames, order) && i < |order|
    ensures order[i] in frames && frames[order[i]].next == At(order, i + 1) && frames[order[i]].prev == At(order, i - 1)
  {
    hide At, NoDup;
    assert LinkStep(frames, order, i);
  }

  lemma ListApart(frames: Frames, order: seq<Ptr>, i: nat, j: nat)
    requires LinksOk(frames, order) && i < j < |order|
    ensures order[i] != order[j]
  {
    hide At;
    NoDupAt(order, i, j);
  }

  lemma LinkedLinks(frames: Frames, order: seq<Ptr>, n: Ptr, f: Frame)
    requires LinksOk(frames, order) && n !in frames
    ensures order[0] in frames && (frames[order[0]].next.Some? ==> frames[order[0]].next.value in frames)
    ensures LinksOk(Linked(frames, order[0], n, f), [order[0], n] + order[1..])
  {
    var root := order[0];
    LinkAt(frames, order, 0);
    if |order| > 1 { LinkAt(frames, order, 1); }
    var u, s := Linked(frames, root, n, f), [root, n] + order[1..];
    LinkedFields(frames, root, n, f);
    LinkedOrder(frames, order, n);
    forall i | 0 <= i < |s| ensures LinkStep(u, s, i) {
      LinkedAt(frames, order, n, f, i);
    }
    forall p ensures p in u <==> p in s {
      assert p in s <==> p in order || p == n;
    }
  }

  lemma LinkedOrder(frames: Frames, order: seq<Ptr>, n: Ptr)
    requires order != [] && NoDup(order) && (forall p :: p in frames <==> p in order) && n !in frames
    ensures NoDup([order[0], n] + order[1..]) && forall p :: p in [order[0], n] + order[1..] <==> p in order || p == n
  {
    var s := [order[0], n] + order[1..];
    NoDupIndices(order);
    NoDupIndices(s);
    assert forall i :: 2 <= i < |s| ==> s[i] == order[i - 1] && s[i] in order;
    forall p ensures p in s <==> p in order || p == n {
      assert order == [order[0]] + order[1..];
      if p in order {
        var k :| 0 <= k < |order| && order[k] == p;
        assert s[if k == 0 then 0 else k + 1] == p;
      }
      if p == n { assert s[1] == p; }
    }
  }

  lemma LinkedAt(frames: Frames, order: seq<Ptr>, n: Ptr, f: Frame, i: nat)
    requires LinksOk(frames, order) && n !in frames && i <= |order|
    requires order[0] in frames && (frames[order[0]].next.Some? ==> frames[order[0]].next.value in frames)
    ensures var u, s := Linked(frames, order[0], n, f), [order[0], n] + order[1..];
      s[i] in u && u[s[i]].next == At(s, i + 1) && u[s[i]].prev == At(s, i - 1)
  {
    hide NoDup, LinksOk;
    OrderLive(frames, order);
    LinkAt(frames, order, 0);
    if |order| > 1 { ListApart(frames, order, 0, 1); }
    if i >= 2 {
      LinkAt(frames, order, i - 1);
      ListApart(frames, order, 0, i - 1);
      if i > 2 { ListApart(frames, order, 1, i - 1); }
    }
  }

  lemma LinkedParents(frames: Frames, order: seq<Ptr>, n: Ptr, f: Frame)
    requires LinksOk(frames, order) && ParentsOk(frames, order) && n !in frames && f.parent.Some?
    requires f.parent.value in frames
    requires frames[order[0]].next.Some? ==> frames[order[0]].next.value in frames
    ensures var u, s := Linked(frames, order[0], n, f), [order[0], n] + order[1..];
      (forall p :: p in s ==> p in u) && ParentsOk(u, s)
  {
    hide At, NoDup;
    var u, s := Linked(frames, order[0], n, f), [order[0], n] + order[1..];
    LinkedFields(frames, order[0], n, f);
    LinkedOrder(frames, order, n);
    hide Linked;
    forall i | 0 < i < |s| ensures u[s[i]].parent.Some? && u[s[i]].parent.value in Before(s, i) {
      if i == 1 {
        NewParent(order, n, f.parent.value);
      } else {
        OldParent(frames, order, n, i);
      }
    }
    assert order[0] in order;
  }

  lemma OldParent(frames: Frames, order: seq<Ptr>, n: Ptr, i: nat)
    requires order != [] && (forall p :: p in order ==> p in frames) && ParentsOk(frames, order) && 2 <= i <= |order|
    ensures var s := [order[0], n] + order[1..];
      s[i] in frames && frames[s[i]].parent.Some? && frames[s[i]].parent.value in Before(s, i)
  {
    hide ParentsOk, Before;
    ParentAt(frames, order, i - 1);
    BeforeShift(order, n, i);
  }

  lemma ParentAt(frames: Frames, order: seq<Ptr>, k: nat)
    requires order != [] && (forall p :: p in order ==> p in frames) && ParentsOk(frames, order) && 0 < k < |order|
    ensures var p := order[k]; p in frames && frames[p].parent.Some? && frames[p].parent.value in Before(order, k)
  {
    hide Before;
  }

  lemma BeforeShift(order: seq<Ptr>, n: Ptr, i: nat)
    requires 2 <= i <= |order|
    ensures var s := [order[0], n] + order[1..]; s[i] == order[i - 1] && Before(s, i) == Before(order, i - 1)
  {
    var s := [order[0], n] + order[1..];
    assert s[i + 1..] == order[i..];
  }

  lemma NewParent(order: seq<Ptr>, n: Ptr, q: Ptr)
    requires order != [] && q in order
    ensures q in Before([order[0], n] + order[1..], 1)
  {
    var s := [order[0], n] + order[1..];
    assert s[2..] == order[1..];
    assert order == [order[0]] + order[1..];
    assert q in order[1..] || q == order[0];
    assert Before(s, 1) == order[1..] + [order[0]];
  }

  // ---------------------------------------------------------------- counting calls

  lemma {:induction false} WaitingSame(order: seq<Ptr>, frames: Frames, u: Frames, returned: set<Ptr>, p: Ptr)
    requires forall q :: q in order ==> q in frames && q in u && u[q].parent == frames[q].parent
    ensures Waiting(order, u, returned, p) == Waiting(order, frames, returned, p)
  {
    if order != [] {
      assert order[0] in order;
      WaitingSame(order[1..], frames, u, returned, p);
    }
  }

  /** A new frame is one more call for its caller to wait for. */
  lemma LinkedWaiting(frames: Frames, u: Frames, order: seq<Ptr>, n: Ptr, returned: set<Ptr>, p: Ptr)
    requires order != [] && (forall q :: q in order ==> q in frames) && n !in frames && n !in returned
    requires u.Keys == frames.Keys + {n} && forall q :: q in frames ==> u[q].parent == frames[q].parent
    ensures Waiting([order[0], n] + order[1..], u, returned, p)
         == Waiting(order, frames, returned, p) + (if u[n].parent == Some(p) then 1 else 0)
  {
    var s := [order[0], n] + order[1..];
    assert s[1..] == [n] + order[1..] && ([n] + order[1..])[1..] == order[1..];
    WaitingSame(order[1..], frames, u, returned, p);
    assert order[0] in order;
  }

  /** Nothing waits on behalf of a frame nobody has called from. */
  lemma {:induction false} NobodyWaits(order: seq<Ptr>, frames: Frames, returned: set<Ptr>, p: Ptr)
    requires forall q :: q in order ==> q in frames ==> frames[q].parent != Some(p)
    ensures Waiting(order, frames, returned, p) == 0
  {
    if order != [] {
      assert order[0] in order;
      NobodyWaits(order[1..], frames, returned, p);
    }
  }

  lemma {:induction false} ReturnWaiting(order: seq<Ptr>, frames: Frames, returned: set<Ptr>, c: Ptr, p: Ptr)
    requires NoDup(order) && c in frames && c !in returned
    ensures Waiting(order, frames, returned + {c}, p)
         == Waiting(order, frames, returned, p) - (if c in order && frames[c].parent == Some(p) then 1 else 0)
  {
    if order != [] {
      ReturnWaiting(order[1..], frames, returned, c, p);
    }
  }

  lemma ParentsLive(frames: Frames, order: seq<Ptr>, p: Ptr)
    requires LinksOk(frames, order) && ParentsOk(frames, order) && p in frames && frames[p].parent.Some?
    ensures frames[p].parent.value in frames
  {
    hide At, NoDup;
    var i :| 0 <= i < |order| && order[i] == p;
    var q := frames[p].parent.value;
    assert q in Before(order, i);
    if q in order[i + 1..] {
      var k :| 0 <= k < |order[i + 1..]| && order[i + 1..][k] == q;
      assert order[i + 1 + k] == q;
    } else {
      assert q == order[0];
    }
    assert q in order;
  }

  // ---------------------------------------------------------------- STACK_WIND and STACK_UNWIND

  /** STACK_WIND up to the call: the new frame is linked in and its caller waits for it. */
  function Wound(frames: Frames, root: Ptr, f: Ptr, n: Ptr, ret: nat, cookie: Ptr, xlator: nat): Frames
    requires root in frames && f in frames && (frames[root].next.Some? ==> frames[root].next.value in frames)
  {
    var u := Linked(frames, root, n, Frame(Some(f), None, None, ret, cookie, xlator, 0));
    u[f := u[f].(refs := u[f].refs + 1)]
  }

  lemma WindLive(frames: Frames, root: Ptr, order: seq<Ptr>, returned: set<Ptr>)
    requires StackOk(frames, root, order, returned)
    ensures root in frames && (frames[root].next.Some? ==> frames[root].next.value in frames)
  {
    hide NoDup;
    LinkAt(frames, order, 0);
    if |order| > 1 { LinkAt(frames, order, 1); }
  }

  lemma WindOk(frames: Frames, root: Ptr, order: seq<Ptr>, returned: set<Ptr>, f: Ptr, n: Ptr, ret: nat, cookie: Ptr,
      xlator: nat)
    requires StackOk(frames, root, order, returned) && f in frames && n !in frames
    ensures root in frames && (frames[root].next.Some? ==> frames[root].next.value in frames)
    ensures StackOk(Wound(frames, root, f, n, ret, cookie, xlator), root, [root, n] + order[1..], returned)
  {
    hide NoDup, At, Linked, LinksOk, ParentsOk;
    OrderLive(frames, order);
    WindLive(frames, root, order, returned);
    var g := Frame(Some(f), None, None, ret, cookie, xlator, 0);
    var u := Linked(frames, root, n, g);
    var w := Wound(frames, root, f, n, ret, cookie, xlator);
    var s := [root, n] + order[1..];
    LinkedFields(frames, root, n, g);
    LinkedLinks(frames, order, n, g);
    LinkedParents(frames, order, n, g);
    CountOnlyLinks(u, w, s);
    WindRefs(frames, u, w, order, returned, f, n);
  }

  /** Counts aside, the two frame maps are alike. */
  lemma CountOnlyLinks(u: Frames, w: Frames, s: seq<Ptr>)
    requires LinksOk(u, s) && ParentsOk(u, s) && w.Keys == u.Keys
    requires forall p :: p in u ==> w[p] == u[p].(refs := w[p].refs)
    ensures LinksOk(w, s) && ParentsOk(w, s)
  {
    hide At, NoDup;
    assert forall p :: p in w <==> p in u;
    forall i | 0 <= i < |s| ensures LinkStep(w, s, i) {
      assert LinkStep(u, s, i);
    }
    assert s[0] in s;
    forall i | 0 < i < |s| ensures w[s[i]].parent.Some? && w[s[i]].parent.value in Before(s, i) {
      assert s[i] in s;
    }
  }

  lemma OrderLive(frames: Frames, order: seq<Ptr>)
    requires LinksOk(frames, order)
    ensures order != [] && NoDup(order) && forall p :: p in frames <==> p in order
  {
  }

  lemma WindRefs(frames: Frames, u: Frames, w: Frames, order: seq<Ptr>, returned: set<Ptr>, f: Ptr, n: Ptr)
    requires LinksOk(frames, order) && ParentsOk(frames, order) && RefsOk(frames, order, returned)
    requires n !in frames && f in frames && returned <= frames.Keys && u.Keys == frames.Keys + {n}
    requires u[n].parent == Some(f) && u[n].refs == 0
    requires forall p :: p in frames ==> u[p].parent == frames[p].parent && u[p].refs == frames[p].refs
    requires w == u[f := u[f].(refs := u[f].refs + 1)]
    ensures RefsOk(w, [order[0], n] + order[1..], returned)
  {
    hide LinksOk, ParentsOk, Waiting;
    OrderLive(frames, order);
    var s := [order[0], n] + order[1..];
    forall p | p in w ensures w[p].refs == Waiting(s, w, returned, p) {
      LinkedWaiting(frames, w, order, n, returned, p);
      if p == n {
        NewFrameIdle(frames, order, returned, n);
      }
    }
  }

  lemma NewFrameIdle(frames: Frames, order: seq<Ptr>, returned: set<Ptr>, n: Ptr)
    requires LinksOk(frames, order) && ParentsOk(frames, order) && n !in frames
    ensures Waiting(order, frames, returned, n) == 0
  {
    hide LinksOk, ParentsOk;
    forall q | q in order && q in frames ensures frames[q].parent != Some(n) {
      if frames[q].parent.Some? { ParentsLive(frames, order, q); }
    }
    NobodyWaits(order, frames, returned, n);
  }

  /** STACK_UNWIND up to the callback: the parent waits for one call fewer. */
  function Unwound(frames: Frames, c: Ptr): Frames
    requires c in frames && frames[c].parent.Some? && frames[c].parent.value in frames
  {
    var p := frames[c].parent.value;
    frames[p := frames[p].(refs := frames[p].refs - 1)]
  }

  lemma UnwindOk(frames: Frames, root: Ptr, order: seq<Ptr>, returned: set<Ptr>, c: Ptr)
    requires StackOk(frames, root, order, returned) && c in frames && c != root && c !in returned
    ensures frames[c].parent.Some? && frames[c].parent.value in frames && frames[frames[c].parent.value].refs > 0
    ensures StackOk(Unwound(frames, c), root, order, returned + {c})
  {
    hide LinksOk, ParentsOk, Waiting, NoDup;
    NotRoot(frames, order, c);
    ParentsLive(frames, order, c);
    OrderLive(frames, order);
    var u, q := Unwound(frames, c), frames[c].parent.value;
    assert u.Keys == frames.Keys;
    CountOnlyLinks(frames, u, order);
    forall p | p in u ensures u[p].refs == Waiting(order, u, returned + {c}, p) {
      WaitingSame(order, frames, u, returned + {c}, p);
      ReturnWaiting(order, frames, returned, c, p);
    }
    ReturnWaiting(order, frames, returned, c, q);
  }

  lemma NotRoot(frames: Frames, order: seq<Ptr>, c: Ptr)
    requires LinksOk(frames, order) && ParentsOk(frames, order) && c in frames && c != order[0]
    ensures frames[c].parent.Some?
  {
    hide At, NoDup;
    var i :| 0 <= i < |order| && order[i] == c;
  }

  // ---------------------------------------------------------------- every run

  /** A step of the protocol: a call from a frame, or the return of one. */
  datatype Step = Wind(f: Ptr, n: Ptr, ret: nat, cookie: Ptr, xlator: nat) | Unwind(c: Ptr)

  datatype State = State(frames: Frames, root: Ptr, order: seq<Ptr>, returned: set<Ptr>)

  ghost predicate Ok(s: State) {
    StackOk(s.frames, s.root, s.order, s.returned)
  }

  /** Calls come from live frames and make new ones; a frame other than the root returns, once. */
  predicate Allowed(s: State, step: Step) {
    match step
    case Wind(f, n, _, _, _) => f in s.frames && n !in s.frames
    case Unwind(c) => c in s.frames && c != s.root && c !in s.returned
  }

  ghost function After(s: State, step: Step): (t: State)
    requires Ok(s) && Allowed(s, step)
    ensures Ok(t) && t.root == s.root
  {
    match step
    case Wind(f, n, ret, cookie, xlator) =>
      OrderLive(s.frames, s.order);
      WindOk(s.frames, s.root, s.order, s.returned, f, n, ret, cookie, xlator);
      State(Wound(s.frames, s.root, f, n, ret, cookie, xlator), s.root, [s.root, n] + s.order[1..], s.returned)
    case Unwind(c) =>
      UnwindOk(s.frames, s.root, s.order, s.returned, c);
      State(Unwound(s.frames, c), s.root, s.order, s.returned + {c})
  }

  /** The state after a run, if every step of it was allowed. */
  ghost function Run(s: State, steps: seq<Step>): Option<State>
    requires Ok(s)
    decreases |steps|
  {
    if steps == [] then Some(s)
    else if Allowed(s, steps[0]) then Run(After(s, steps[0]), steps[1..])
    else None
  }

  function Fresh(root: Ptr, xlator: nat): State {
    State(map[root := Frame(None, None, None, 0, 0, xlator, 0)], root, [root], {})
  }

  /** There is only the root frame: nobody called it, it waits for nothing, and it is this translator's. */
  ghost predicate OnlyRoot(frames: Frames, root: Ptr, xlator: nat) {
    && frames.Keys == {root} && frames[root].xlator == xlator && frames[root].refs == 0
    && frames[root].parent == None && frames[root].next == None && frames[root].prev == None
  }

  lemma FreshOk(root: Ptr, xlator: nat)
    ensures Ok(Fresh(root, xlator))
  {
    var s := Fresh(root, xlator);
    assert s.order[1..] == [];
  }

  lemma {:induction false} RunOk(s: State, steps: seq<Step>)
    requires Ok(s)
    ensures Run(s, steps).Some? ==> Ok(Run(s, steps).value) && Run(s, steps).value.root == s.root
    decreases |steps|
  {
    hide Ok, After;
    if steps != [] && Allowed(s, steps[0]) { RunOk(After(s, steps[0]), steps[1..]); }
  }

  /** How many calls lie between a frame and the root. */
  ghost function Ancestors(frames: Frames, order: seq<Ptr>, i: nat): (path: seq<Ptr>)
    requires LinksOk(frames, order) && ParentsOk(frames, order) && i < |order|
    decreases if i == 0 then 0 else |order| - i
  {
    if i == 0 then [order[0]]
    else
      OrderLive(frames, order);
      ParentAt(frames, order, i);
      var q := frames[order[i]].parent.value;
      var j := PlaceOf(order, i, q);
      [order[i]] + Ancestors(frames, order, j)
  }

  /** Where an older frame stands. */
  ghost function PlaceOf(order: seq<Ptr>, i: nat, q: Ptr): (j: nat)
    requires 0 < i < |order| && q in Before(order, i)
    ensures j < |order| && order[j] == q && (j == 0 || j > i)
  {
    if q == order[0] then 0
    else
      assert q in order[i + 1..];
      var k :| 0 <= k < |order[i + 1..]| && order[i + 1..][k] == q;
      i + 1 + k
  }

  /** Parent links lead from every frame to the root, each frame's parent being the next on the way. */
  lemma {:induction false} LeadsToRoot(frames: Frames, order: seq<Ptr>, i: nat)
    requires LinksOk(frames, order) && ParentsOk(frames, order) && i < |order|
    ensures var path := Ancestors(frames, order, i);
      && path != [] && path[0] == order[i] && path[|path| - 1] == order[0]
      && (forall k :: 0 <= k < |path| ==> path[k] in frames)
      && (forall k :: 0 <= k < |path| - 1 ==> frames[path[k]].parent == Some(path[k + 1]))
    decreases if i == 0 then 0 else |order| - i
  {
    hide LinksOk, ParentsOk, PlaceOf;
    OrderLive(frames, order);
    assert order[0] in order && order[i] in order;
    if i > 0 {
      ParentAt(frames, order, i);
      var j := PlaceOf(order, i, frames[order[i]].parent.value);
      LeadsToRoot(frames, order, j);
    }
  }

  // ---------------------------------------------------------------- freeing frames

  /** FRAME_DESTROY: the frame is taken out of the list and freed. */
  function Freed(frames: Frames, x: Ptr): Frames
    requires x in frames && (frames[x].next.Some? ==> frames[x].next.value in frames)
    requires frames[x].prev.Some? ==> frames[x].prev.value in frames
  {
    var a :=
      if frames[x].next.None? then frames
      else frames[frames[x].next.value := frames[frames[x].next.value].(prev := frames[x].prev)];
    var b := if a[x].prev.Some? then a[a[x].prev.value := a[a[x].prev.value].(next := a[x].next)] else a;
    b - {x}
  }

  /** The neighbours of a frame are live. */
  ghost predicate Neighbours(frames: Frames, x: Ptr) {
    && x in frames && (frames[x].next.Some? ==> frames[x].next.value in frames)
    && (frames[x].prev.Some? ==> frames[x].prev.value in frames)
  }

  lemma FreedLive(frames: Frames, order: seq<Ptr>, n: nat)
    requires LinksOk(frames, order) && n < |order|
    ensures Neighbours(frames, order[n])
  {
    hide LinksOk, NoDup;
    LinkAt(frames, order, n);
    if n > 0 { LinkAt(frames, order, n - 1); }
    if n + 1 < |order| { LinkAt(frames, order, n + 1); }
  }

  /** Freeing a frame leaves a proper list of the others. */
  lemma FreedLinks(frames: Frames, order: seq<Ptr>, n: nat)
    requires LinksOk(frames, order) && 0 < n < |order| && Neighbours(frames, order[n])
    ensures LinksOk(Freed(frames, order[n]), order[..n] + order[n + 1..])
  {
    var u, s := Freed(frames, order[n]), order[..n] + order[n + 1..];
    OrderLive(frames, order);
    hide LinksOk, NoDup, At;
    FreedOrder(frames, order, n);
    FreedKeys(frames, order[n]);
    forall i | 0 <= i < |s| ensures LinkStep(u, s, i) {
      FreedAt(frames, order, n, i);
    }
    FreedIntro(u, s);
  }

  lemma FreedIntro(u: Frames, s: seq<Ptr>)
    requires s != [] && NoDup(s) && (forall p :: p in u <==> p in s)
    requires forall i {:trigger LinkStep(u, s, i)} :: 0 <= i < |s| ==> LinkStep(u, s, i)
    ensures LinksOk(u, s)
  {
    hide At, NoDup;
  }

  lemma FreedKeys(frames: Frames, x: Ptr)
    requires Neighbours(frames, x)
    ensures Freed(frames, x).Keys == frames.Keys - {x}
  {
  }

  lemma FreedOrder(frames: Frames, order: seq<Ptr>, n: nat)
    requires n < |order| && NoDup(order) && (forall p :: p in frames <==> p in order)
    ensures var s := order[..n] + order[n + 1..]; NoDup(s) && forall p :: p in s <==> p in frames && p != order[n]
  {
    hide NoDup;
    assert order == order[..n] + [order[n]] + order[n + 1..];
    NoDupMiddle(order[..n], order[n], order[n + 1..]);
    RemoveMiddle(order[..n], order[n], order[n + 1..]);
  }

  lemma FreedAt(frames: Frames, order: seq<Ptr>, n: nat, i: nat)
    requires LinksOk(frames, order) && 0 < n < |order| && i < |order| - 1 && Neighbours(frames, order[n])
    ensures LinkStep(Freed(frames, order[n]), order[..n] + order[n + 1..], i)
  {
    hide LinksOk, NoDup;
    LinkAt(frames, order, n);
    var m := if i < n then i else i + 1;
    LinkAt(frames, order, m);
    if m < n { ListApart(frames, order, m, n); } else { ListApart(frames, order, n, m); }
    if m < n - 1 { ListApart(frames, order, m, n - 1); } else if m > n - 1 { ListApart(frames, order, n - 1, m); }
    if n + 1 < |order| {
      if m < n + 1 { ListApart(frames, order, m, n + 1); } else if m > n + 1 { ListApart(frames, order, n + 1, m); }
    }
  }

  // ---------------------------------------------------------------- stacks

  /** The callback of a translator that passes replies on. */
  const DEFAULT_CBK := 0

  /** The parameters of a reply. */
  datatype Reply = Reply(opRet: int, opErrno: int, args: seq<nat>)

  /** A callback as it is run: with the frame, the cookie and the translator it gets, and the reply. */
  datatype Delivery = Delivery(callback: nat, frame: Ptr, cookie: Ptr, xlator: nat, reply: Reply)

  class Stack {
    const root: Ptr
    /** User, group, process and request identifiers. */
    const ids: (nat, nat, nat, nat)
    var frames: Frames
    /** The callbacks run so far. */
    var log: seq<Delivery>
    ghost var order: seq<Ptr>
    ghost var returned: set<Ptr>

    ghost predicate Valid()
      reads this
    {
      StackOk(frames, root, order, returned)
    }

    /** The root frame, in memory of its own. */
    constructor (at: Ptr, xlator: nat, who: (nat, nat, nat, nat))
      ensures Valid() && root == at && ids == who && order == [root] && returned == {} && log == []
      ensures OnlyRoot(frames, at, xlator)
    {
      root, ids, frames, log := at, who, Fresh(at, xlator).frames, [];
      order, returned := [at], {};
      new;
      FreshOk(at, xlator);
    }

    /** STACK_WIND up to the call of the child. */
    method WindFrame(f: Ptr, ret: nat, xlator: nat) returns (n: Ptr)
      requires Valid() && f in frames
      modifies this`frames, this`order
      ensures Valid() && n !in old(frames) && n != root
      ensures order == [root, n] + old(order)[1..] && returned == old(returned) && n !in returned
      ensures frames.Keys == old(frames).Keys + {n}
      ensures frames[n].parent == Some(f) && frames[n].ret == ret && frames[n].cookie == n && frames[n].refs == 0
      ensures frames[n].xlator == xlator
      ensures forall p :: p in old(frames) ==> SameCall(old(frames[p]), frames[p], if p == f then 1 else 0)
    {
      hide LinksOk, ParentsOk, RefsOk;
      OrderLive(frames, order);
      FreshExists(frames.Keys);
      n :| n !in frames.Keys;
      WindOk(frames, root, order, returned, f, n, ret, n, xlator);
      LinkedFields(frames, root, n, Frame(Some(f), None, None, ret, n, xlator, 0));
      var first := frames[root].next;
      frames := frames[n := Frame(Some(f), first, Some(root), ret, n, xlator, 0)];
      if first.Some? {
        frames := frames[first.value := frames[first.value].(prev := Some(n))];
      }
      frames := frames[root := frames[root].(next := Some(n))];
      frames := frames[f := frames[f].(refs := frames[f].refs + 1)];
      assert frames == Wound(old(frames), root, f, n, ret, n, xlator);
      order := [root, n] + order[1..];
    }

    /** STACK_UNWIND up to the callback, which runs in the parent frame with the parameters of the reply. */
    method UnwindFrame(c: Ptr, reply: Reply) returns (call: Delivery)
      requires Valid() && c in frames && c != root && c !in returned
      modifies this`frames, this`returned
      ensures Valid() && returned == old(returned) + {c} && frames.Keys == old(frames).Keys
      ensures old(frames[c].parent) == Some(call.frame) && call.frame in frames
      ensures call.xlator == frames[call.frame].xlator
      ensures call.callback == old(frames[c].ret) && call.cookie == old(frames[c].cookie) && call.reply == reply
      ensures forall p :: p in frames ==> SameCall(old(frames[p]), frames[p], if p == call.frame then -1 else 0)
    {
      hide LinksOk, ParentsOk, RefsOk;
      UnwindOk(frames, root, order, returned, c);
      var fn, parent := frames[c].ret, frames[c].parent.value;
      frames := frames[parent := frames[parent].(refs := frames[parent].refs - 1)];
      returned := returned + {c};
      call := Delivery(fn, parent, frames[c].cookie, frames[parent].xlator, reply);
    }

    /** STACK_UNWIND with the callback it runs: the default one, or the caller's, which ends the way up. */
    method Unwind(c: Ptr, reply: Reply, ghost base: Frames, ghost w: Tower, ghost path: seq<Ptr>, ghost k: nat)
      requires Valid() && root in base && w.callback != DEFAULT_CBK
      requires 0 < k < |path| && c == path[k] && Way(frames, base, returned, path, w, k)
      modifies this`frames, this`returned, this`log
      ensures Valid() && Way(frames, base, returned, path, w, 0)
      ensures log == old(log) + Deliveries(base[path[0]].xlator, path, w, k, reply)
      decreases k, 0
    {
      hide StackOk, Way, Deliveries;
      WayAt(frames, base, returned, path, w, k);
      WayThis(frames, base, returned, path, w, k);
      DeliveriesStep(base[path[0]].xlator, path, w, k, reply);
      ghost var was, gone := frames, returned;
      var call := UnwindFrame(c, reply);
      WayUp(was, frames, base, gone, path, w, k);
      WayThis(frames, base, returned, path, w, k - 1);
      log := log + [call];
      if call.callback == DEFAULT_CBK {
        DefaultCbk(call.frame, call.reply, base, w, path, k - 1);
      }
    }

    /** `default_lookup_cbk` and its like: they unwind their own frame with the parameters they got. */
    method DefaultCbk(frame: Ptr, reply: Reply, ghost base: Frames, ghost w: Tower, ghost path: seq<Ptr>, ghost k: nat)
      requires Valid() && root in base && w.callback != DEFAULT_CBK
      requires 0 < k < |path| && frame == path[k] && Way(frames, base, returned, path, w, k)
      modifies this`frames, this`returned, this`log
      ensures Valid() && Way(frames, base, returned, path, w, 0)
      ensures log == old(log) + Deliveries(base[path[0]].xlator, path, w, k, reply)
      decreases k, 1
    {
      Unwind(frame, reply, base, w, path, k);
    }

    /**
    A call down through the translators `below`, of which all but the last only pass calls and replies on.
    On the way up each runs the default callback once, with the reply of the last one as it was given, and
    then the caller's own callback runs, once, with that reply. Every frame waits for as many calls as before.
    */
    method CallThrough(f: Ptr, callback: nat, below: seq<nat>, reply: Reply)
      requires Valid() && f in frames && callback != DEFAULT_CBK && below != []
      modifies this
      ensures Valid() && |log| == |old(log)| + |below| && log[..|old(log)|] == old(log)
      ensures forall i :: |old(log)| <= i < |log| ==>
        && log[i].reply == reply && log[i].callback == (if i == |log| - 1 then callback else DEFAULT_CBK)
        && log[i].xlator == (if i == |log| - 1 then old(frames[f].xlator) else below[|log| - 2 - i])
      ensures log[|log| - 1].frame == f
      ensures old(frames).Keys <= frames.Keys && forall p :: p in old(frames) ==> frames[p].refs == old(frames[p].refs)
      ensures forall p :: p in frames && p !in old(frames) ==> p in returned && frames[p].refs == 0
    {
      hide StackOk, Way, Deliveries;
      ghost var base, path, w := frames, [f], Tower(callback, below);
      assert root in base by { RootLive(frames, root, order, returned); }
      WayStart(frames, returned, f, w);
      var c := f;
      for i := 0 to |below|
        invariant Valid() && |path| == i + 1 && path[0] == f && c == path[i] && c in frames
        invariant Way(frames, base, returned, path, w, i) && log == old(log)
      {
        ghost var was := frames;
        var n := WindFrame(c, if i == 0 then callback else DEFAULT_CBK, below[i]);
        WayDown(was, frames, base, returned, path, w, n);
        path := path + [n];
        c := n;
      }
      Unwind(c, reply, base, w, path, |below|);
      WayEnd(frames, base, returned, path, w);
      DeliveriesAll(base[f].xlator, path, w, |below|, reply);
    }

    /** FRAME_DESTROY of any frame but the root's. */
    method FrameDestroy(x: Ptr, ghost n: nat)
      requires LinksOk(frames, order) && 0 < n < |order| && x == order[n]
      modifies this`frames, this`order
      ensures LinksOk(frames, order) && order == old(order)[..n] + old(order)[n + 1..]
      ensures x in old(frames) && frames.Keys == old(frames).Keys - {x}
      ensures forall p :: p in frames ==> SameCall(old(frames[p]), frames[p], 0)
    {
      hide LinksOk;
      FreedLive(frames, order, n);
      FreedLinks(frames, order, n);
      FreedKeys(frames, x);
      if frames[x].next.Some? {
        frames := frames[frames[x].next.value := frames[frames[x].next.value].(prev := frames[x].prev)];
      }
      if frames[x].prev.Some? {
        frames := frames[frames[x].prev.value := frames[frames[x].prev.value].(next := frames[x].next)];
      }
      frames := frames - {x};
      assert frames == Freed(old(frames), x);
      order := order[..n] + order[n + 1..];
    }

    /** The loop of STACK_DESTROY: every frame but the root's, which is part of the stack, is freed once. */
    method FreeFrames() returns (freed: seq<Ptr>)
      requires Valid()
      modifies this`frames, this`order
      ensures freed == old(order)[1..] && NoDup(freed) && frames.Keys == {root} && frames[root].next == None
      ensures forall p :: p in old(frames) <==> p == root || p in freed
    {
      hide LinksOk, ParentsOk, RefsOk, NoDup, SameCall;
      OrderLive(frames, order);
      RootLive(frames, root, order, returned);
      freed := [];
      ghost var all := order[1..];
      NoDupInit(order, 1);
      FreshStart(order, root);
      LinkAt(frames, order, 0);
      while frames[root].next.Some?
        invariant LinksOk(frames, order) && order != [] && order[0] == root && root in frames
        invariant freed + order[1..] == all && frames[root].next == At(order, 1)
        decreases |order|
      {
        var x := frames[root].next.value;
        ghost var left := order;
        FreedNext(freed, left);
        FrameDestroy(x, 1);
        freed := freed + [x];
        OrderLive(frames, order);
        LinkAt(frames, order, 0);
      }
      OrderLive(frames, order);
      assert order == [root] && freed + order[1..] == freed;
      assert forall p :: p in frames <==> p == root;
    }
  }

  lemma FreedNext(freed: seq<Ptr>, left: seq<Ptr>)
    requires |left| > 1
    ensures var rest := left[..1] + left[2..];
      rest[0] == left[0] && (freed + [left[1]]) + rest[1..] == freed + left[1..]
  {
    assert (left[..1] + left[2..])[1..] == left[2..];
  }

  lemma FreshStart(order: seq<Ptr>, root: Ptr)
    requires order != [] && order[0] == root
    ensures forall p :: p in order <==> p == root || p in order[1..]
    ensures [] + order[1..] == order[1..]
  {
    assert order == [root] + order[1..];
  }

  /** The stacks in flight. */
  class CallPool {
    /** The ring of `all_frames`, from its head. */
    var ring: seq<Stack>
    var cnt: int

    ghost predicate Valid()
      reads this, ring
    {
      cnt == |ring| && NoDup(ring) && forall s :: s in ring ==> s.Valid()
    }

    constructor ()
      ensures Valid() && ring == []
    {
      ring, cnt := [], 0;
    }

    /** `create_frame`. */
    method CreateFrame(at: Ptr, xlator: nat) returns (stack: Stack)
      requires Valid()
      modifies this
      ensures Valid() && fresh(stack) && ring == [stack] + old(ring) && stack.root == at && stack.returned == {}
      ensures OnlyRoot(stack.frames, at, xlator)
    {
      hide StackOk, NoDup;
      stack := new Stack(at, xlator, (0, 0, 0, 0));
      NoDupCons(stack, ring);
      ring := [stack] + ring;
      cnt := cnt + 1;
    }

    /** `copy_frame`: a new stack for the same user and request, next to the old one on the ring. */
    method CopyFrame(origin: Stack, f: Ptr, at: Ptr) returns (stack: Stack)
      requires Valid() && origin in ring && f in origin.frames
      modifies this
      ensures Valid() && fresh(stack) && stack.ids == origin.ids && stack.root == at && stack.returned == {}
      ensures OnlyRoot(stack.frames, at, origin.frames[f].xlator)
      ensures exists i ::
        && 0 <= i < |old(ring)| && old(ring)[i] == origin
        && ring == old(ring)[..i + 1] + [stack] + old(ring)[i + 1..]
    {
      hide StackOk, NoDup;
      stack := new Stack(at, origin.frames[f].xlator, origin.ids);
      var i := 0;
      while ring[i] != origin
        invariant i < |ring| && origin in ring[i..]
        decreases |ring| - i
      {
        i := i + 1;
      }
      NoDupInsert(ring, i + 1, stack);
      ring := ring[..i + 1] + [stack] + ring[i + 1..];
      cnt := cnt + 1;
    }

    /** STACK_DESTROY: the stack leaves the ring, and each of its frames is freed once. */
    method StackDestroy(stack: Stack) returns (freed: seq<Ptr>)
      requires Valid() && stack in ring
      modifies this, stack
      ensures Valid() && ring == Remove(old(ring), stack) && (forall s :: s in ring <==> s in old(ring) && s != stack)
      ensures cnt == old(cnt) - 1 && freed == old(stack.order)[1..] && NoDup(freed) && stack.frames.Keys == {stack.root}
      ensures forall p :: p in old(stack.frames) <==> p == stack.root || p in freed
    {
      hide StackOk, NoDup, Remove;
      ring := Remove(ring, stack);
      cnt := cnt - 1;
      freed := stack.FreeFrames();
    }
  }

  lemma NoDupInsert<T>(s: seq<T>, i: nat, x: T)
    requires NoDup(s) && i <= |s| && x !in s
    ensures NoDup(s[..i] + [x] + s[i..]) && forall y :: y in s[..i] + [x] + s[i..] <==> y in s || y == x
  {
    hide NoDup;
    var a, b := s[..i], s[i..];
    assert s == a + b;
    var r := a + [x] + b;
    forall j, k | 0 <= j < k < |r| ensures r[j] != r[k] {
      if j != i && k != i {
        NoDupAt(s, if j < i then j else j - 1, if k < i then k else k - 1);
      }
    }
    NoDupIndices(r);
  }

  /** The caller's callback, and the translators below it, from the top. */
  datatype Tower = Tower(callback: nat, below: seq<nat>)

  /** What runs on the way up from `path[k]`: `own` is the translator of the caller. */
  ghost function Deliveries(own: nat, path: seq<Ptr>, w: Tower, k: nat, reply: Reply): seq<Delivery>
    requires k < |path| <= |w.below| + 1
  {
    if k == 0 then []
    else
      var (callback, xlator) := if k == 1 then (w.callback, own) else (DEFAULT_CBK, w.below[k - 2]);
      [Delivery(callback, path[k - 1], path[k], xlator, reply)] + Deliveries(own, path, w, k - 1, reply)
  }

  /**
  The calls on the way down and up: `path[1..]` are the new frames, each called from the one before it; those
  up to `k` are still out.
  */
  ghost predicate Way(frames: Frames, base: Frames, returned: set<Ptr>, path: seq<Ptr>, w: Tower, k: nat) {
    && path != [] && k < |path| <= |w.below| + 1 && path[0] in base && NoDup(path)
    && (forall p :: p in frames <==> p in base || p in path)
    && (forall j :: 0 < j < |path| ==> OneCall(frames, base, returned, path, w, k, j))
    && (forall p :: p in base ==>
          && frames[p].refs == base[p].refs + (if p == path[0] && k > 0 then 1 else 0)
          && frames[p].xlator == base[p].xlator)
  }

  ghost predicate OneCall(frames: Frames, base: Frames, returned: set<Ptr>, path: seq<Ptr>, w: Tower, k: nat, j: nat)
    requires 0 < j < |path| <= |w.below| + 1
  {
    && path[j] in frames && path[j] !in base && frames[path[j]].parent == Some(path[j - 1])
    && frames[path[j]].ret == (if j == 1 then w.callback else DEFAULT_CBK)
    && frames[path[j]].cookie == path[j] && frames[path[j]].xlator == w.below[j - 1]
    && (path[j] in returned <==> j > k) && frames[path[j]].refs == (if j < k then 1 else 0)
  }

  lemma RootLive(frames: Frames, root: Ptr, order: seq<Ptr>, returned: set<Ptr>)
    requires StackOk(frames, root, order, returned)
    ensures root in frames
  {
    OrderLive(frames, order);
    assert order[0] in order;
  }

  lemma WayStart(frames: Frames, returned: set<Ptr>, f: Ptr, w: Tower)
    requires f in frames
    ensures Way(frames, frames, returned, [f], w, 0)
  {
    assert [f][1..] == [];
  }

  lemma WayDown(was: Frames, frames: Frames, base: Frames, returned: set<Ptr>, path: seq<Ptr>, w: Tower, n: Ptr)
    requires path != [] && Way(was, base, returned, path, w, |path| - 1) && n !in was && n !in returned
    requires |path| <= |w.below|
    requires frames.Keys == was.Keys + {n} && frames[n].parent == Some(path[|path| - 1]) && frames[n].refs == 0
    requires frames[n].ret == if |path| == 1 then w.callback else DEFAULT_CBK
    requires frames[n].cookie == n && frames[n].xlator == w.below[|path| - 1]
    requires forall p :: p in was ==> SameCall(was[p], frames[p], if p == path[|path| - 1] then 1 else 0)
    ensures Way(frames, base, returned, path + [n], w, |path|)
  {
    var next, k := path + [n], |path| - 1;
    assert n !in path;
    NoDupSnoc(path, n);
    hide NoDup;
    forall j | 0 < j < |next| ensures OneCall(frames, base, returned, next, w, |path|, j) {
      if j < |path| {
        assert OneCall(was, base, returned, path, w, k, j);
        assert next[j] == path[j] && next[j - 1] == path[j - 1];
        if j < k { NoDupAt(path, j, k); }
      }
    }
    forall p | p in base
      ensures frames[p].refs == base[p].refs + (if p == next[0] then 1 else 0) && frames[p].xlator == base[p].xlator
    {
      if k > 0 { assert OneCall(was, base, returned, path, w, k, k); }
    }
    forall p ensures p in frames <==> p in base || p in next {
      assert p in next <==> p in path || p == n;
    }
  }

  /** A frame that has changed in its links and its count only. */
  ghost predicate SameCall(f: Frame, g: Frame, more: int) {
    g == f.(next := g.next, prev := g.prev, refs := f.refs + more)
  }

  lemma WayAt(frames: Frames, base: Frames, returned: set<Ptr>, path: seq<Ptr>, w: Tower, k: nat)
    requires Way(frames, base, returned, path, w, k) && k > 0
    ensures path[k] in frames && path[k] !in base && path[k] !in returned && frames[path[k]].parent == Some(path[k - 1])
    ensures frames[path[k]].ret == (if k == 1 then w.callback else DEFAULT_CBK) && frames[path[k]].cookie == path[k]
    ensures |path| <= |w.below| + 1
  {
    assert OneCall(frames, base, returned, path, w, k, k);
  }

  /** The translator of the frame a callback runs in. */
  lemma WayThis(frames: Frames, base: Frames, returned: set<Ptr>, path: seq<Ptr>, w: Tower, k: nat)
    requires Way(frames, base, returned, path, w, k)
    ensures path[0] in base && path[k] in frames && |path| <= |w.below| + 1
    ensures frames[path[k]].xlator == if k == 0 then base[path[0]].xlator else w.below[k - 1]
  {
    if k > 0 { assert OneCall(frames, base, returned, path, w, k, k); } else { assert path[0] in frames; }
  }

  lemma DeliveriesStep(own: nat, path: seq<Ptr>, w: Tower, k: nat, reply: Reply)
    requires 0 < k < |path| <= |w.below| + 1
    ensures var d := Delivery(if k == 1 then w.callback else DEFAULT_CBK, path[k - 1], path[k],
                              if k == 1 then own else w.below[k - 2], reply);
      Deliveries(own, path, w, k, reply) == [d] + Deliveries(own, path, w, k - 1, reply)
    ensures k == 1 ==> Deliveries(own, path, w, 0, reply) == []
  {
  }

  lemma {:induction false} DeliveriesAll(own: nat, path: seq<Ptr>, w: Tower, k: nat, reply: Reply)
    requires k < |path| <= |w.below| + 1
    ensures var ds := Deliveries(own, path, w, k, reply);
      && |ds| == k && (k > 0 ==> ds[k - 1].frame == path[0])
      && forall j :: 0 <= j < k ==>
           && ds[j].reply == reply && ds[j].callback == (if j == k - 1 then w.callback else DEFAULT_CBK)
           && ds[j].xlator == (if j == k - 1 then own else w.below[k - 2 - j])
  {
    if k > 0 { DeliveriesAll(own, path, w, k - 1, reply); }
  }

  lemma WayUp(was: Frames, frames: Frames, base: Frames, gone: set<Ptr>, path: seq<Ptr>, w: Tower, k: nat)
    requires Way(was, base, gone, path, w, k) && k > 0 && frames.Keys == was.Keys
    requires forall p :: p in was ==> SameCall(was[p], frames[p], if p == path[k - 1] then -1 else 0)
    ensures Way(frames, base, gone + {path[k]}, path, w, k - 1)
  {
    hide NoDup;
    var now, m: nat := gone + {path[k]}, k - 1;
    forall j | 0 < j < |path| ensures OneCall(frames, base, now, path, w, m, j) {
      assert OneCall(was, base, gone, path, w, k, j);
      if j != k { NoDupAt(path, j, k); }
      if j != k - 1 { NoDupAt(path, j, k - 1); }
    }
    forall p | p in base
      ensures && frames[p].refs == base[p].refs + (if p == path[0] && k - 1 > 0 then 1 else 0)
              && frames[p].xlator == base[p].xlator
    {
      if k > 1 { assert OneCall(was, base, gone, path, w, k, k - 1); }
    }
    assert forall p :: p in frames <==> p in was;
  }

  lemma WayEnd(frames: Frames, base: Frames, returned: set<Ptr>, path: seq<Ptr>, w: Tower)
    requires Way(frames, base, returned, path, w, 0)
    ensures base.Keys <= frames.Keys && forall p :: p in base ==> frames[p].refs == base[p].refs
    ensures forall p :: p in frames && p !in base ==> p in returned && frames[p].refs == 0
  {
    forall p | p in frames && p !in base ensures p in returned && frames[p].refs == 0 {
      var j :| 0 <= j < |path| && path[j] == p;
      assert OneCall(frames, base, returned, path, w, 0, j);
    }
  }
}
