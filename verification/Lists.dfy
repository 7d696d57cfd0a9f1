/**
The intrusive circular lists of list.h. Memory is a map from addresses to the two links stored there;
a ring is the sequence of addresses met by following `next` from its first.
*/
module Lists {
  import opened Seqs

  type Ptr = nat

  datatype Links = Links(next: Ptr, prev: Ptr)

  type Memory = map<Ptr, Links>

  /** What `list_del` leaves behind. */
  const POISON := Links(0xbabebabe, 0xcafecafe)

  // ---------------------------------------------------------------- rings

  ghost predicate Joined(h: Memory, a: Ptr, b: Ptr) {
    a in h && b in h && h[a].next == b && h[b].prev == a
  }

  /** Consecutive elements are linked both ways. */
  ghost predicate Path(h: Memory, r: seq<Ptr>) {
    |r| <= 1 || (Joined(h, r[0], r[1]) && Path(h, r[1..]))
  }

  ghost predicate Ring(h: Memory, r: seq<Ptr>) {
    r != [] && NoDup(r) && Path(h, r) && Joined(h, r[|r| - 1], r[0])
  }

  lemma {:induction false} PathAppend(h: Memory, a: seq<Ptr>, b: seq<Ptr>)
    requires a != [] && b != []
    ensures Path(h, a + b) <==> Path(h, a) && Path(h, b) && Joined(h, a[|a| - 1], b[0])
  {
    var r := a + b;
    if |a| == 1 {
      assert r[1..] == b;
    } else {
      PathAppend(h, a[1..], b);
      assert r[1..] == a[1..] + b;
    }
  }

  /** A path keeps standing while the links inside it do. */
  lemma {:induction false} PathFrame(h: Memory, u: Memory, r: seq<Ptr>)
    requires Path(h, r)
    requires forall i :: 0 <= i < |r| - 1 ==> r[i] in h && r[i] in u && u[r[i]].next == h[r[i]].next
    requires forall i :: 0 < i < |r| ==> r[i] in h && r[i] in u && u[r[i]].prev == h[r[i]].prev
    ensures Path(u, r)
  {
    if |r| > 1 {
      assert forall i :: 0 <= i < |r| - 1 ==> r[1..][i] == r[i + 1];
      PathFrame(h, u, r[1..]);
    }
  }

  lemma {:induction false} PathLive(h: Memory, r: seq<Ptr>)
    requires |r| > 1 && Path(h, r)
    ensures forall i :: 0 <= i < |r| ==> r[i] in h
  {
    if |r| > 2 {
      PathLive(h, r[1..]);
      assert forall i :: 1 <= i < |r| ==> r[i] == r[1..][i - 1];
    }
  }

  lemma RingLive(h: Memory, r: seq<Ptr>)
    requires Ring(h, r)
    ensures forall i :: 0 <= i < |r| ==> r[i] in h
  {
    if |r| > 1 { PathLive(h, r); }
  }

  /** A ring is untouched by changes elsewhere. */
  lemma RingFrame(h: Memory, u: Memory, r: seq<Ptr>)
    requires Ring(h, r) && forall p :: p in r ==> p in u && (p in h ==> u[p] == h[p])
    ensures Ring(u, r)
  {
    RingLive(h, r);
    PathFrame(h, u, r);
    assert r[0] in r && r[|r| - 1] in r;
  }

  /** The same ring seen from another of its elements. */
  lemma RingTurn(h: Memory, a: seq<Ptr>, b: seq<Ptr>)
    requires a != [] && b != [] && Ring(h, a + b)
    ensures Ring(h, b + a)
  {
    PathAppend(h, a, b);
    assert (a + b)[0] == a[0] && (a + b)[|a + b| - 1] == b[|b| - 1];
    PathAppend(h, b, a);
    assert (b + a)[0] == b[0] && (b + a)[|b + a| - 1] == a[|a| - 1];
    NoDupTurn(a, b);
  }

  lemma NoDupTurn(a: seq<Ptr>, b: seq<Ptr>)
    requires NoDup(a + b)
    ensures NoDup(b + a)
  {
    var s, t := a + b, b + a;
    NoDupIndices(s);
    NoDupIndices(t);
    forall i, j | 0 <= i < j < |t| ensures t[i] != t[j] {
      assert t[i] == s[if i < |b| then |a| + i else i - |b|];
      assert t[j] == s[if j < |b| then |a| + j else j - |b|];
    }
  }

  // ---------------------------------------------------------------- linking two ends

  /** `a->next = b; b->prev = a`. */
  function Tied(h: Memory, a: Ptr, b: Ptr): Memory
    requires a in h && b in h
  {
    var u := h[a := h[a].(next := b)];
    u[b := u[b].(prev := a)]
  }

  lemma TiedFacts(h: Memory, a: Ptr, b: Ptr)
    requires a in h && b in h
    ensures var u := Tied(h, a, b);
      && u.Keys == h.Keys && Joined(u, a, b)
      && (forall p :: p in h && p != a ==> u[p].next == h[p].next)
      && (forall p :: p in h && p != b ==> u[p].prev == h[p].prev)
  {
  }

  /** Two paths tied end to end make one path, and a path tied to itself a ring. */
  lemma TiePaths(h: Memory, a: seq<Ptr>, b: seq<Ptr>)
    requires a != [] && b != [] && NoDup(a + b) && Path(h, a) && Path(h, b)
    requires forall p :: p in a + b ==> p in h
    ensures Path(Tied(h, a[|a| - 1], b[0]), a + b)
  {
    hide Path, NoDup;
    var x, y := a[|a| - 1], b[0];
    assert x in a + b && y in a + b;
    var u := Tied(h, x, y);
    TiedFacts(h, x, y);
    NoDupIndices(a + b);
    var r := a + b;
    forall i | 0 <= i < |a| ensures a[i] in h && (i < |a| - 1 ==> a[i] != x) && a[i] != y {
      assert r[i] == a[i] && r[|a| - 1] == x && r[|a|] == y;
    }
    forall i | 0 <= i < |b| ensures b[i] in h && (i > 0 ==> b[i] != y) && b[i] != x {
      assert r[|a| + i] == b[i] && r[|a| - 1] == x && r[|a|] == y;
    }
    PathFrame(h, u, a);
    PathFrame(h, u, b);
    PathAppend(u, a, b);
  }

  lemma TieRing(h: Memory, r: seq<Ptr>)
    requires r != [] && NoDup(r) && Path(h, r) && forall p :: p in r ==> p in h
    ensures Ring(Tied(h, r[|r| - 1], r[0]), r)
  {
    hide Path, NoDup;
    var x, y := r[|r| - 1], r[0];
    var u := Tied(h, x, y);
    TiedFacts(h, x, y);
    forall i | 0 <= i < |r| ensures r[i] in h && (i < |r| - 1 ==> r[i] != x) && (i > 0 ==> r[i] != y) {
      assert r[i] in r;
      if i < |r| - 1 { NoDupAt(r, i, |r| - 1); }
      if i > 0 { NoDupAt(r, i, 0); }
    }
    PathFrame(h, u, r);
  }

  // ---------------------------------------------------------------- what the operations do to rings

  /** A new element between the last and the first. */
  lemma Inserted(h: Memory, r: seq<Ptr>, x: Ptr)
    requires Ring(h, r) && x in h && x !in r
    ensures (forall p :: p in r ==> p in h) && (forall p :: p in r ==> p in Tied(h, r[|r| - 1], x))
    ensures x in Tied(h, r[|r| - 1], x)
    ensures Ring(Tied(Tied(h, r[|r| - 1], x), x, r[0]), r + [x])
  {
    hide Path, NoDup;
    RingLive(h, r);
    NoDupSnoc(r, x);
    assert Path(h, [x]) by { PathOne(h, x); }
    forall p | p in r + [x] ensures p in h { assert p in r || p == x; }
    TiePaths(h, r, [x]);
    var u := Tied(h, r[|r| - 1], x);
    TiedFacts(h, r[|r| - 1], x);
    TieRing(u, r + [x]);
  }

  lemma PathOne(h: Memory, x: Ptr)
    ensures Path(h, [x])
  {
  }

  /** The first element taken out. */
  lemma Removed(h: Memory, x: Ptr, r: seq<Ptr>)
    requires Ring(h, [x] + r) && r != []
    ensures (forall p :: p in r ==> p in h) && x in h && h[x].prev == r[|r| - 1] && h[x].next == r[0]
    ensures Ring(Tied(h, r[|r| - 1], r[0]), r) && x !in r
  {
    hide NoDup;
    var s := [x] + r;
    RingLive(h, s);
    assert s[0] == x && s[1..] == r && s[1] == r[0] && s[|s| - 1] == r[|r| - 1];
    NoDupInit(s, 1);
    assert s[..1] == [x];
    assert x in s[..1];
    forall i | 0 <= i < |r| ensures r[i] in h { assert r[i] == s[i + 1]; }
    TieRing(h, r);
  }

  /** The elements of one ring taken over, in order, behind the head of another. */
  lemma Spliced(h: Memory, list: Ptr, s: seq<Ptr>, head: Ptr, t: seq<Ptr>)
    requires Ring(h, [list] + s) && Ring(h, [head] + t) && s != [] && forall p :: p in [list] + s ==> p !in [head] + t
    ensures list in h && head in h && h[list].prev == s[|s| - 1] && h[list].next == s[0]
    ensures h[head].next == (t + [head])[0]
    ensures s[|s| - 1] in h && (t + [head])[0] in h && s[0] in h
    ensures var u := Tied(h, s[|s| - 1], (t + [head])[0]);
      head in u && s[0] in u && Ring(Tied(u, head, s[0]), [head] + s + t)
  {
    hide NoDup, Path;
    Removed(h, list, s);
    TurnHead(h, head, t);
    var b := t + [head];
    RingLive(h, b);
    RingLive(h, [list] + s);
    assert Path(h, s) by { PathTail(h, list, s); }
    JoinNoDup(list, s, head, t);
    forall p | p in s + b ensures p in h { assert p in s || p in b; }
    assert s[|s| - 1] in h && s[0] in h;
    TiePaths(h, s, b);
    var u := Tied(h, s[|s| - 1], b[0]);
    TiedFacts(h, s[|s| - 1], b[0]);
    TieRing(u, s + b);
    assert s + b == (s + t) + [head] && (s + b)[0] == s[0];
    RingTurn(Tied(u, head, s[0]), s + t, [head]);
    assert [head] + (s + t) == [head] + s + t;
  }

  lemma PathTail(h: Memory, x: Ptr, s: seq<Ptr>)
    requires Path(h, [x] + s) && s != []
    ensures Path(h, s)
  {
    assert ([x] + s)[1..] == s;
  }

  /** A ring turned so that its head comes last. */
  lemma TurnHead(h: Memory, head: Ptr, t: seq<Ptr>)
    requires Ring(h, [head] + t)
    ensures Ring(h, t + [head]) && head in h && h[head].next == (t + [head])[0] && h[head].prev == ([head] + t)[|t|]
  {
    hide NoDup;
    if t == [] {
      assert [head] + t == t + [head];
    } else {
      RingTurn(h, [head], t);
      assert ([head] + t)[1] == t[0];
    }
  }

  lemma JoinNoDup(list: Ptr, s: seq<Ptr>, head: Ptr, t: seq<Ptr>)
    requires NoDup([list] + s) && NoDup([head] + t) && forall p :: p in [list] + s ==> p !in [head] + t
    ensures NoDup(s + (t + [head]))
  {
    NoDupIndices([list] + s);
    NoDupIndices([head] + t);
    var r := s + (t + [head]);
    NoDupIndices(r);
    forall i, j | 0 <= i < j < |r| ensures r[i] != r[j] {
      if j < |s| {
        assert ([list] + s)[i + 1] == r[i] && ([list] + s)[j + 1] == r[j];
      } else if i < |s| {
        assert r[i] in [list] + s by { assert ([list] + s)[i + 1] == r[i]; }
        assert r[j] in [head] + t by { assert ([head] + t)[if j == |r| - 1 then 0 else j - |s| + 1] == r[j]; }
      } else {
        assert r[i] == ([head] + t)[i - |s| + 1];
        assert r[j] == ([head] + t)[if j == |r| - 1 then 0 else j - |s| + 1];
      }
    }
  }

  lemma RingAlone(h: Memory, x: Ptr)
    requires x in h && h[x] == Links(x, x)
    ensures Ring(h, [x])
  {
    assert [x][1..] == [];
  }

  /** `list_empty` tells the ring of one. */
  lemma EmptyRing(h: Memory, head: Ptr, s: seq<Ptr>)
    requires Ring(h, [head] + s)
    ensures head in h && (h[head].next == head <==> s == [])
  {
    hide Path;
    TurnHead(h, head, s);
    if s != [] {
      NoDupAt([head] + s, 0, 1);
      assert ([head] + s)[1] == s[0];
    }
  }

  lemma SpliceEnds(h: Memory, list: Ptr, s: seq<Ptr>, head: Ptr, t: seq<Ptr>)
    requires Ring(h, [list] + s) && s != [] && forall p :: p in [list] + s ==> p !in [head] + t
    ensures var first := (t + [head])[0];
      && first in s + [head] + t && s[0] in s + [head] + t && s[|s| - 1] in s + [head] + t && head in s + [head] + t
      && first != list && head != list && s[0] != list && s[|s| - 1] != list && s[0] != head && s[|s| - 1] != head
      && s[0] != first && s[|s| - 1] != first
  {
    hide Path, NoDup;
    Removed(h, list, s);
    var all, first := s + [head] + t, (t + [head])[0];
    assert all[0] == s[0] && all[|s| - 1] == s[|s| - 1] && all[|s|] == head;
    assert first == all[if t == [] then |s| else |s| + 1];
    assert list in [list] + s && s[0] in [list] + s && s[|s| - 1] in [list] + s;
    assert head in [head] + t;
    assert first in [head] + t by { assert first == ([head] + t)[if t == [] then 0 else 1]; }
  }

  lemma TurnBack(h: Memory, head: Ptr, a: seq<Ptr>, b: seq<Ptr>)
    requires Ring(h, b + ([head] + a))
    ensures Ring(h, [head] + (a + b))
  {
    hide NoDup, Path;
    if b == [] {
      assert b + ([head] + a) == [head] + (a + b);
    } else {
      RingTurn(h, b, [head] + a);
      assert [head] + a + b == [head] + (a + b);
    }
  }

  /** Taking `x` out of its ring leaves the other ring alone. */
  lemma MoveOut(was: Memory, mid: Memory, x: Ptr, r: seq<Ptr>, head: Ptr, s: seq<Ptr>)
    requires Ring(was, [head] + s) && (forall p :: p in [x] + r ==> p !in [head] + s)
    requires mid.Keys == was.Keys && forall p :: p in mid && p !in [x] + r ==> mid[p] == was[p]
    ensures Ring(mid, [head] + s) && x !in [head] + s
  {
    hide NoDup, Path;
    RingLive(was, [head] + s);
    assert x in [x] + r;
    RingFrame(was, mid, [head] + s);
  }

  /** Putting `x` into the other ring leaves the first one alone. */
  lemma MoveIn(was: Memory, mid: Memory, now: Memory, x: Ptr, r: seq<Ptr>, head: Ptr, s: seq<Ptr>)
    requires Ring(was, [x] + r) && (r != [] ==> Ring(mid, r)) && (forall p :: p in [x] + r ==> p !in [head] + s)
    requires mid.Keys == was.Keys && forall p :: p in mid && p !in [x] + r ==> mid[p] == was[p]
    requires now.Keys == mid.Keys && forall p :: p in now && p !in [x, head] + s ==> now[p] == mid[p]
    ensures r != [] ==> Ring(now, r)
    ensures forall p :: p in now && p !in [x] + r + [head] + s ==> now[p] == was[p]
  {
    hide NoDup, Path;
    RingLive(was, [x] + r);
    if r != [] {
      Removed(was, x, r);
      forall p | p in r ensures p in now && now[p] == mid[p] {
        assert p in [x] + r && p != x && p !in [head] + s && p !in [x, head] + s;
      }
      RingFrame(mid, now, r);
    }
    forall p | p in now && p !in [x] + r + [head] + s ensures now[p] == was[p] {
      assert p !in [x] + r && p !in [x, head] + s;
    }
  }

  // ---------------------------------------------------------------- the operations

  class Heap {
    var links: Memory

    /** Only the named addresses have changed. */
    twostate predicate Only(touched: seq<Ptr>)
      reads this
    {
      links.Keys == old(links).Keys && forall p :: p in links && p !in touched ==> links[p] == old(links[p])
    }

    /** `INIT_LIST_HEAD`. */
    method Init(head: Ptr)
      requires head in links
      modifies this
      ensures Ring(links, [head]) && Only([head])
    {
      links := links[head := Links(head, head)];
    }

    /** `list_add`. */
    method Add(x: Ptr, head: Ptr, ghost s: seq<Ptr>)
      requires Ring(links, [head] + s) && x in links && x !in [head] + s
      modifies this
      ensures Ring(links, [head, x] + s) && Only([x, head] + s)
    {
      hide NoDup, Path;
      TurnHead(links, head, s);
      ghost var r := s + [head];
      forall p | p in r ensures p in [head] + s { assert p in s || p == head; }
      Inserted(links, r, x);
      ghost var u := Tied(Tied(links, head, x), x, r[0]);
      RingLive(links, r);
      assert r[0] in links;
      links := links[x := links[x].(prev := head)];
      links := links[x := links[x].(next := links[head].next)];
      links := links[links[x].prev := links[links[x].prev].(next := x)];
      links := links[links[x].next := links[links[x].next].(prev := x)];
      assert links == u;
      assert r + [x] == s + [head, x];
      if s == [] {
        assert s + [head, x] == [head, x] + s;
      } else {
        RingTurn(links, s, [head, x]);
      }
    }

    /** `list_add_tail`. */
    method AddTail(x: Ptr, head: Ptr, ghost s: seq<Ptr>)
      requires Ring(links, [head] + s) && x in links && x !in [head] + s
      modifies this
      ensures Ring(links, [head] + s + [x]) && Only([x, head] + s)
    {
      hide NoDup, Path;
      TurnHead(links, head, s);
      ghost var r := [head] + s;
      Inserted(links, r, x);
      ghost var u := Tied(Tied(links, r[|s|], x), x, head);
      RingLive(links, r);
      assert r[|s|] in links && r[|s|] in r;
      links := links[x := links[x].(next := head)];
      links := links[x := links[x].(prev := links[head].prev)];
      links := links[links[x].prev := links[links[x].prev].(next := x)];
      links := links[links[x].next := links[links[x].next].(prev := x)];
      assert links == u;
    }

    /** `list_del`: the rest of the ring, if there is one, closes up, and `x` is left with poisoned links. */
    method Del(x: Ptr, ghost r: seq<Ptr>)
      requires Ring(links, [x] + r)
      modifies this
      ensures (r != [] ==> Ring(links, r)) && Only([x] + r) && x in links && links[x] == POISON
    {
      hide NoDup, Path;
      if r != [] { Removed(links, x, r); assert r[|r| - 1] in r && r[0] in r; } else { TurnHead(links, x, r); }
      RingLive(links, [x] + r);
      ghost var u := if r != [] then Tied(links, r[|r| - 1], r[0]) else links;
      links := links[links[x].prev := links[links[x].prev].(next := links[x].next)];
      links := links[links[x].next := links[links[x].next].(prev := links[x].prev)];
      assert r != [] ==> links == u;
      links := links[x := links[x].(next := POISON.next)];
      links := links[x := links[x].(prev := POISON.prev)];
      if r != [] { RingFrame(u, links, r); }
    }

    /** `list_del_init`: the rest of the ring closes up, and `x` is a ring of its own. */
    method DelInit(x: Ptr, ghost r: seq<Ptr>)
      requires Ring(links, [x] + r)
      modifies this
      ensures (r != [] ==> Ring(links, r)) && Ring(links, [x]) && Only([x] + r)
    {
      hide NoDup, Path;
      if r != [] { Removed(links, x, r); assert r[|r| - 1] in r && r[0] in r; } else { TurnHead(links, x, r); }
      RingLive(links, [x] + r);
      ghost var u := if r != [] then Tied(links, r[|r| - 1], r[0]) else links;
      links := links[links[x].prev := links[links[x].prev].(next := links[x].next)];
      links := links[links[x].next := links[links[x].next].(prev := links[x].prev)];
      assert r != [] ==> links == u;
      links := links[x := links[x].(next := x)];
      links := links[x := links[x].(prev := x)];
      if r != [] { RingFrame(u, links, r); }
      RingAlone(links, x);
    }

    /** `list_move` from one ring to the front of another. */
    method Move(x: Ptr, ghost r: seq<Ptr>, head: Ptr, ghost s: seq<Ptr>)
      requires Ring(links, [x] + r) && Ring(links, [head] + s) && forall p :: p in [x] + r ==> p !in [head] + s
      modifies this
      ensures (r != [] ==> Ring(links, r)) && Ring(links, [head, x] + s) && Only([x] + r + [head] + s)
    {
      hide NoDup, Path, Ring;
      ghost var was := links;
      Del(x, r);
      ghost var mid := links;
      MoveOut(was, mid, x, r, head, s);
      Add(x, head, s);
      MoveIn(was, mid, links, x, r, head, s);
    }

    /** `list_move_tail` from one ring to the end of another. */
    method MoveTail(x: Ptr, ghost r: seq<Ptr>, head: Ptr, ghost s: seq<Ptr>)
      requires Ring(links, [x] + r) && Ring(links, [head] + s) && forall p :: p in [x] + r ==> p !in [head] + s
      modifies this
      ensures (r != [] ==> Ring(links, r)) && Ring(links, [head] + s + [x]) && Only([x] + r + [head] + s)
    {
      hide NoDup, Path, Ring;
      ghost var was := links;
      Del(x, r);
      ghost var mid := links;
      MoveOut(was, mid, x, r, head, s);
      AddTail(x, head, s);
      MoveIn(was, mid, links, x, r, head, s);
    }

    /** `list_move` within one ring: `x` goes to the front. */
    method MoveWithin(x: Ptr, head: Ptr, ghost a: seq<Ptr>, ghost b: seq<Ptr>)
      requires Ring(links, [head] + a + [x] + b)
      modifies this
      ensures Ring(links, [head, x] + a + b) && Only([head] + a + [x] + b)
    {
      hide NoDup, Path;
      NoDupMiddle([head] + a, x, b);
      assert [head] + (a + b) == ([head] + a) + b;
      assert [head] + a + [x] + b == ([head] + a) + ([x] + b);
      RingTurn(links, [head] + a, [x] + b);
      assert ([x] + b) + ([head] + a) == [x] + (b + ([head] + a));
      Del(x, b + ([head] + a));
      TurnBack(links, head, a, b);
      Add(x, head, a + b);
      assert [head, x] + (a + b) == [head, x] + a + b;
    }

    /** `list_splice_init`: `head` takes over the elements of `list`, which ends up empty. */
    method SpliceInit(list: Ptr, ghost s: seq<Ptr>, head: Ptr, ghost t: seq<Ptr>)
      requires Ring(links, [list] + s) && Ring(links, [head] + t) && forall p :: p in [list] + s ==> p !in [head] + t
      modifies this
      ensures Ring(links, [head] + s + t) && Ring(links, [list]) && Only([list] + s + [head] + t)
    {
      hide NoDup, Path;
      EmptyRing(links, list, s);
      if links[list].next == list {
        assert [head] + s + t == [head] + t && [list] + s == [list];
        return;
      }
      ghost var r := [head] + s + t;
      Spliced(links, list, s, head, t);
      Removed(links, list, s);
      assert list in [list] + s;
      assert list !in [head] + t;
      assert list !in r by { assert r == [head] + (s + t); }
      Splice(list, s, head, t);
      ghost var u := links;
      links := links[list := Links(list, list)];
      RingLive(u, r);
      RingFrame(u, links, r);
      RingAlone(links, list);
    }

    /** `__list_splice`, for a list that is not empty. */
    method Splice(list: Ptr, ghost s: seq<Ptr>, head: Ptr, ghost t: seq<Ptr>)
      requires Ring(links, [list] + s) && Ring(links, [head] + t) && s != []
      requires forall p :: p in [list] + s ==> p !in [head] + t
      modifies this
      ensures Ring(links, [head] + s + t) && Only(s + [head] + t)
    {
      hide NoDup, Path, Ring;
      Spliced(links, list, s, head, t);
      ghost var first := (t + [head])[0];
      ghost var u := Tied(Tied(links, s[|s| - 1], first), head, s[0]);
      SpliceEnds(links, list, s, head, t);
      links := links[links[list].prev := links[links[list].prev].(next := links[head].next)];
      links := links[links[head].next := links[links[head].next].(prev := links[list].prev)];
      links := links[head := links[head].(next := links[list].next)];
      links := links[links[list].next := links[links[list].next].(prev := head)];
      assert links == u;
    }

    /** `list_for_each`: every element once, in order. */
    method ForEach(head: Ptr, ghost s: seq<Ptr>) returns (visited: seq<Ptr>)
      requires Ring(links, [head] + s)
      ensures visited == s
    {
      hide NoDup, Path;
      TurnHead(links, head, s);
      ghost var r := [head] + s;
      var pos := links[head].next;
      visited := [];
      while pos != head
        invariant |visited| <= |s| && visited == s[..|visited|] && pos == (s + [head])[|visited|]
        decreases |s| - |visited|
      {
        RingNext(links, s + [head], |visited|);
        visited := visited + [pos];
        pos := links[pos].next;
      }
      if |visited| < |s| { NoDupAt(s + [head], |visited|, |s|); }
    }
  }

  lemma {:induction false} PathNext(h: Memory, r: seq<Ptr>, i: nat)
    requires Path(h, r) && i + 1 < |r|
    ensures Joined(h, r[i], r[i + 1])
  {
    if i > 0 {
      PathNext(h, r[1..], i - 1);
    }
  }

  lemma RingNext(h: Memory, r: seq<Ptr>, i: nat)
    requires Ring(h, r) && i < |r| && r[i] != r[|r| - 1]
    ensures i + 1 < |r| && r[i] in h && h[r[i]].next == r[i + 1]
  {
    PathNext(h, r, i);
  }
}
